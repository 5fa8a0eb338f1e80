/** The records the client receives from the backend, as far as the
    modelled code reads them. */
module Domain {
  import opened Optional

  type UserId = string

  datatype User = User(id: UserId, email: string, name: string, picture: string)

  datatype MemberStatus = Joined | Rejected | Pending

  datatype Membership = Membership(user: User, status: MemberStatus)

  /** A group; its `id` is absent for a group that is not yet created. */
  datatype Group = Group(id: Option<int>, name: string, createdAt: Option<string>)

  datatype Currency = Currency(id: int, acronym: string, description: string)

  /** A notification's status; the client itself only ever writes `read` and `archived`. */
  datatype NotificationStatus = Read | Archived | OtherStatus(name: string)

  /** An invitation notification, naming the group it invites to. */
  datatype Notification = Notification(id: int, status: NotificationStatus, group: Group)
}
