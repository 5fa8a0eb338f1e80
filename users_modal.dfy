/** The members dialog: the group's members split into the joined and the
    pending users. */
module UsersModal {
  import opened Optional
  import opened Domain

  /** The users of the members with the given status, in membership order. */
  function WithStatus(members: seq<Membership>, s: MemberStatus): seq<User>
    decreases |members|
  {
    if members == [] then []
    else
      var n := |members| - 1;
      WithStatus(members[..n], s) + (if members[n].status == s then [members[n].user] else [])
  }

  /** The indices of the members with the given status, ascending. */
  function Positions(members: seq<Membership>, s: MemberStatus): seq<nat>
    decreases |members|
  {
    if members == [] then []
    else
      var n := |members| - 1;
      Positions(members[..n], s) + (if members[n].status == s then [n] else [])
  }

  /** The two lists the dialog shows; both start empty. */
  datatype Lists = Lists(joined: seq<User>, pending: seq<User>)

  /** The effect: `members` is absent when the group or its member list is,
      and then the lists keep their previous values (on first render, the
      empty lists). */
  function Refresh(prev: Lists, members: Option<seq<Membership>>): (r: Lists)
    ensures members.None? ==> r == prev
  {
    match members
    case None => prev
    case Some(ms) => Lists(WithStatus(ms, Joined), WithStatus(ms, Pending))
  }

  /** The positions are ascending indices of members with the status, and
      every member with the status is among them. */
  lemma {:induction false} PositionsExact(members: seq<Membership>, s: MemberStatus)
    ensures forall k :: 0 <= k < |Positions(members, s)| ==>
      Positions(members, s)[k] < |members| && members[Positions(members, s)[k]].status == s
    ensures forall k, l :: 0 <= k < l < |Positions(members, s)| ==> Positions(members, s)[k] < Positions(members, s)[l]
    ensures forall i :: 0 <= i < |members| && members[i].status == s ==> i in Positions(members, s)
    decreases |members|
  {
    if members != [] {
      var n := |members| - 1;
      var init := members[..n];
      PositionsExact(init, s);
      var p := Positions(members, s);
      var q := Positions(init, s);
      assert p[..|q|] == q;
      forall k | 0 <= k < |q| ensures q[k] < n && members[q[k]] == init[q[k]] {
      }
      forall i | 0 <= i < n && members[i].status == s ensures i in p {
        assert init[i] == members[i];
        assert i in q;
      }
    }
  }

  /** The k-th listed user is the user of the member at the k-th position. */
  lemma {:induction false} WithStatusAt(members: seq<Membership>, s: MemberStatus)
    ensures |WithStatus(members, s)| == |Positions(members, s)|
    ensures forall k :: 0 <= k < |Positions(members, s)| ==>
      Positions(members, s)[k] < |members| && WithStatus(members, s)[k] == members[Positions(members, s)[k]].user
    decreases |members|
  {
    if members != [] {
      var n := |members| - 1;
      var init := members[..n];
      WithStatusAt(init, s);
      var q := Positions(init, s);
      forall k | 0 <= k < |q| ensures Positions(members, s)[k] == q[k] && WithStatus(members, s)[k] == WithStatus(init, s)[k] && members[q[k]] == init[q[k]] { }
    }
  }

  /** The list for a status is exactly the members with that status, in
      order: the k-th entry is the user of the k-th such member, and every
      member with that status is listed. */
  lemma WithStatusExact(members: seq<Membership>, s: MemberStatus)
    ensures var p := Positions(members, s);
      && (forall k :: 0 <= k < |p| ==> p[k] < |members| && members[p[k]].status == s)
      && (forall k, l :: 0 <= k < l < |p| ==> p[k] < p[l])
      && (forall i :: 0 <= i < |members| && members[i].status == s ==> i in p)
      && |WithStatus(members, s)| == |p|
      && (forall k :: 0 <= k < |p| ==> WithStatus(members, s)[k] == members[p[k]].user)
  {
    PositionsExact(members, s);
    WithStatusAt(members, s);
  }

  /** The three status lists together account for every member once; so a
      rejected member is in neither list and no member is in both. */
  lemma {:induction false} StatusPartition(members: seq<Membership>)
    ensures |WithStatus(members, Joined)| + |WithStatus(members, Pending)| + |WithStatus(members, Rejected)| == |members|
    decreases |members|
  {
    if members != [] {
      StatusPartition(members[..|members| - 1]);
    }
  }

  /** No member index is listed both as joined and as pending. */
  lemma JoinedPendingDisjoint(members: seq<Membership>, i: nat)
    ensures !(i in Positions(members, Joined) && i in Positions(members, Pending))
  {
    WithStatusExact(members, Joined);
    WithStatusExact(members, Pending);
  }

  /** After members arrive, the lists are exactly their joined and pending users. */
  lemma RefreshLists(prev: Lists, members: seq<Membership>, u: User)
    ensures u in Refresh(prev, Some(members)).joined <==> exists i :: 0 <= i < |members| && members[i] == Membership(u, Joined)
    ensures u in Refresh(prev, Some(members)).pending <==> exists i :: 0 <= i < |members| && members[i] == Membership(u, Pending)
  {
    WithStatusMember(members, Joined, u);
    WithStatusMember(members, Pending, u);
  }

  lemma {:induction false} WithStatusMember(members: seq<Membership>, s: MemberStatus, u: User)
    ensures u in WithStatus(members, s) <==> exists i :: 0 <= i < |members| && members[i] == Membership(u, s)
    decreases |members|
  {
    if members != [] {
      var n := |members| - 1;
      var init := members[..n];
      WithStatusMember(init, s, u);
      if exists i :: 0 <= i < n && init[i] == Membership(u, s) {
        var i :| 0 <= i < n && init[i] == Membership(u, s);
        assert members[i] == init[i];
      }
      if exists i :: 0 <= i < |members| && members[i] == Membership(u, s) {
        var i :| 0 <= i < |members| && members[i] == Membership(u, s);
        if i < n {
          assert init[i] == members[i];
        }
      }
    }
  }
}
