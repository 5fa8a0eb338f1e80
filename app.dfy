/** The application shell's notification panel: opening it marks every
    notification read, acting on one removes it, archiving removes a set. */
module App {
  import opened Optional
  import opened Domain

  /** The answer to an invitation. */
  datatype Action = Join | Reject

  /** Every notification with its status set to read, all else kept. */
  function MarkAllRead(ns: seq<Notification>): seq<Notification>
    decreases |ns|
  {
    if ns == [] then [] else [ns[0].(status := Read)] + MarkAllRead(ns[1..])
  }

  function Ids(ns: seq<Notification>): seq<int>
  {
    seq(|ns|, i requires 0 <= i < |ns| => ns[i].id)
  }

  /** `ns.indexOf(x)`: the first position holding `x`, or -1. */
  function IndexOf(ns: seq<Notification>, x: Notification): int
    decreases |ns|
  {
    if ns == [] then -1
    else if ns[0] == x then 0
    else
      var k := IndexOf(ns[1..], x);
      if k < 0 then -1 else k + 1
  }

  /** `ns.splice(start, 1)` on a copy: a negative start counts from the end,
      and a start past the end removes nothing. */
  function Splice1(ns: seq<Notification>, start: int): seq<Notification> {
    var k := if start < 0 then (if |ns| + start < 0 then 0 else |ns| + start) else start;
    if k < |ns| then ns[..k] + ns[k + 1..] else ns
  }

  /** The list after acting on `n`. */
  function Remove(ns: seq<Notification>, n: Notification): seq<Notification> {
    Splice1(ns, IndexOf(ns, n))
  }

  /** The notifications not in the archived list, in order. */
  function ArchiveFilter(ns: seq<Notification>, archived: seq<Notification>): seq<Notification>
    decreases |ns|
  {
    if ns == [] then []
    else (if ns[0] in archived then [] else [ns[0]]) + ArchiveFilter(ns[1..], archived)
  }

  /** The notification list once an await is over: a refetch `syncMaster`
      ran meanwhile replaces it with freshly fetched objects. */
  function AfterAwait(ns: Option<seq<Notification>>, refetched: Option<seq<Notification>>): Option<seq<Notification>>
  {
    if refetched.Some? then refetched else ns
  }

  predicate IsEscape(key: string) {
    key == "Escape" || key == "Esc"
  }

  class App {
    /** The loaded notifications; absent before they are fetched. */
    var notifications: Option<seq<Notification>>
    var showNotifications: bool
    /** The groups stored in state by accepted invitations, oldest first. */
    var joinedGroups: seq<Group>
    /** Whether an error message has been raised. */
    var error: bool

    constructor(loaded: Option<seq<Notification>>)
      ensures notifications == loaded && !showNotifications && joinedGroups == [] && !error
    {
      notifications := loaded;
      showNotifications := false;
      joinedGroups := [];
      error := false;
    }

    /** `toggleNotifications`. `ok` says whether marking read on the server
        succeeds; the ids sent are returned, taken from the list before the
        await. `refetched` is the list a notification event made `syncMaster`
        fetch while the call was awaited, if any; the read-marked list is
        built from the list as it is after the await. A failure while opening
        rejects the handler before it writes anything itself. */
    method ToggleNotifications(ok: bool, refetched: Option<seq<Notification>>) returns (sent: Option<seq<int>>)
      modifies this
      ensures old(showNotifications) ==> sent == None && notifications == old(notifications) && !showNotifications
      ensures !old(showNotifications) ==> sent == Some(Ids(old(notifications).GetOr([])))
      ensures !old(showNotifications) && ok ==>
        notifications == Some(MarkAllRead(AfterAwait(old(notifications), refetched).GetOr([]))) && showNotifications
      ensures !old(showNotifications) && !ok ==> notifications == AfterAwait(old(notifications), refetched) && !showNotifications
      ensures joinedGroups == old(joinedGroups) && error == old(error)
    {
      sent := None;
      if !showNotifications {
        sent := Some(Ids(notifications.GetOr([])));
        notifications := AfterAwait(notifications, refetched);
        if !ok {
          return;
        }
        notifications := Some(MarkAllRead(notifications.GetOr([])));
      }
      showNotifications := !showNotifications;
    }

    /** The keydown listener; it answers `false` to Escape and nothing otherwise. */
    method HandleKeydown(key: string) returns (r: Option<bool>)
      modifies this
      ensures showNotifications == (old(showNotifications) && !IsEscape(key))
      ensures r == (if IsEscape(key) then Some(false) else None)
      ensures notifications == old(notifications) && joinedGroups == old(joinedGroups) && error == old(error)
    {
      if key == "Escape" || key == "Esc" {
        if showNotifications {
          showNotifications := false;
        }
        return Some(false);
      }
      return None;
    }

    /** `onNotificationAction`. `ok` says whether both service calls succeed;
        `refetched` is the list `syncMaster` fetched during the awaits, if
        any. The notification is looked up by identity in the list as it is
        after the awaits. Spreading a list that is not loaded throws, after
        the group is stored. */
    method OnNotificationAction(action: Action, n: Notification, ok: bool, refetched: Option<seq<Notification>>)
      modifies this
      ensures !ok ==> joinedGroups == old(joinedGroups) && notifications == AfterAwait(old(notifications), refetched) && error
      ensures ok ==> joinedGroups == old(joinedGroups) + (if action == Join then [n.group] else [])
      ensures ok && AfterAwait(old(notifications), refetched).None? ==> notifications == None && error
      ensures ok && AfterAwait(old(notifications), refetched).Some? ==>
        notifications == Some(Remove(AfterAwait(old(notifications), refetched).value, n)) && error == old(error)
      ensures showNotifications == old(showNotifications)
    {
      notifications := AfterAwait(notifications, refetched);
      if !ok {
        error := true;
        return;
      }
      if action == Join {
        joinedGroups := joinedGroups + [n.group];
      }
      if notifications.None? {
        error := true;
        return;
      }
      var ns := notifications.value;
      var index := IndexOf(ns, n);
      notifications := Some(Splice1(ns, index));
    }

    /** `onArchiveNotifications`; the ids sent are returned. The filter runs
        over the list as it is after the await, `refetched` being the list
        `syncMaster` fetched meanwhile, if any. */
    method OnArchiveNotifications(archived: seq<Notification>, ok: bool, refetched: Option<seq<Notification>>) returns (sent: seq<int>)
      modifies this
      ensures sent == Ids(archived)
      ensures ok && AfterAwait(old(notifications), refetched).Some? ==>
        notifications == Some(ArchiveFilter(AfterAwait(old(notifications), refetched).value, archived)) && error == old(error)
      ensures !ok || AfterAwait(old(notifications), refetched).None? ==>
        notifications == AfterAwait(old(notifications), refetched) && error
      ensures showNotifications == old(showNotifications) && joinedGroups == old(joinedGroups)
    {
      sent := Ids(archived);
      notifications := AfterAwait(notifications, refetched);
      if !ok || notifications.None? {
        error := true;
        return;
      }
      notifications := Some(ArchiveFilter(notifications.value, archived));
    }
  }

  /** Marking read keeps the count, the order and every other field. */
  lemma {:induction false} MarkAllReadKeeps(ns: seq<Notification>)
    ensures |MarkAllRead(ns)| == |ns|
    ensures forall i :: 0 <= i < |ns| ==>
      MarkAllRead(ns)[i].status == Read && MarkAllRead(ns)[i].id == ns[i].id && MarkAllRead(ns)[i].group == ns[i].group
    decreases |ns|
  {
    if ns != [] {
      MarkAllReadKeeps(ns[1..]);
      forall i | 1 <= i < |ns| ensures MarkAllRead(ns)[i] == MarkAllRead(ns[1..])[i - 1] && ns[i] == ns[1..][i - 1] { }
    }
  }

  /** `indexOf` finds the first occurrence, and -1 exactly when there is none. */
  lemma {:induction false} IndexOfSpec(ns: seq<Notification>, x: Notification)
    ensures IndexOf(ns, x) == -1 <==> x !in ns
    ensures x in ns ==> 0 <= IndexOf(ns, x) < |ns| && ns[IndexOf(ns, x)] == x && x !in ns[..IndexOf(ns, x)]
    decreases |ns|
  {
    if ns != [] && ns[0] != x {
      IndexOfSpec(ns[1..], x);
      assert ns == [ns[0]] + ns[1..];
      if x in ns {
        var k := IndexOf(ns[1..], x);
        assert ns[..k + 1] == [ns[0]] + ns[1..][..k];
      }
    }
  }

  /** Acting on a listed notification removes exactly its first occurrence. */
  lemma RemoveListed(ns: seq<Notification>, n: Notification)
    requires n in ns
    ensures var i := IndexOf(ns, n);
      0 <= i < |ns| && Remove(ns, n) == ns[..i] + ns[i + 1..] && n !in ns[..i]
    ensures |Remove(ns, n)| == |ns| - 1
    ensures multiset(Remove(ns, n)) + multiset{n} == multiset(ns)
  {
    IndexOfSpec(ns, n);
    var i := IndexOf(ns, n);
    assert ns == ns[..i] + [ns[i]] + ns[i + 1..];
  }

  /** Acting on a notification that is not listed (it is compared by
      identity) removes the last entry instead. */
  lemma RemoveUnlisted(ns: seq<Notification>, n: Notification)
    requires n !in ns
    ensures ns != [] ==> Remove(ns, n) == ns[..|ns| - 1]
    ensures ns == [] ==> Remove(ns, n) == []
  {
    IndexOfSpec(ns, n);
  }

  /** Archiving keeps exactly the notifications not archived. */
  lemma {:induction false} ArchiveFilterMember(ns: seq<Notification>, archived: seq<Notification>, x: Notification)
    ensures x in ArchiveFilter(ns, archived) <==> x in ns && x !in archived
    decreases |ns|
  {
    if ns != [] {
      ArchiveFilterMember(ns[1..], archived, x);
      assert ns == [ns[0]] + ns[1..];
    }
  }

  /** Archiving distributes over concatenation, so it keeps the order. */
  lemma {:induction false} ArchiveFilterAppend(a: seq<Notification>, b: seq<Notification>, archived: seq<Notification>)
    ensures ArchiveFilter(a + b, archived) == ArchiveFilter(a, archived) + ArchiveFilter(b, archived)
    decreases |a|
  {
    if a == [] {
      assert a + b == b;
    } else {
      assert (a + b)[0] == a[0];
      assert (a + b)[1..] == a[1..] + b;
      ArchiveFilterAppend(a[1..], b, archived);
    }
  }

  /** Archiving nothing keeps the list, and archiving twice is archiving once. */
  lemma {:induction false} ArchiveFilterIdempotent(ns: seq<Notification>, archived: seq<Notification>)
    ensures ArchiveFilter(ns, []) == ns
    ensures ArchiveFilter(ArchiveFilter(ns, archived), archived) == ArchiveFilter(ns, archived)
    decreases |ns|
  {
    if ns != [] {
      ArchiveFilterIdempotent(ns[1..], archived);
      assert [ns[0]] + ns[1..] == ns;
      if ns[0] !in archived {
        assert ArchiveFilter(ns, archived) == [ns[0]] + ArchiveFilter(ns[1..], archived);
        assert ArchiveFilter(ns, archived)[1..] == ArchiveFilter(ns[1..], archived);
      } else {
        assert ArchiveFilter(ns, archived) == [] + ArchiveFilter(ns[1..], archived);
        assert [] + ArchiveFilter(ns[1..], archived) == ArchiveFilter(ns[1..], archived);
      }
    }
  }

  /** After a refetch during the awaits, the acted-on notification is a
      stale object that the new list does not hold, so the handler drops the
      last notification instead of it. */
  lemma ActionAfterRefetch(before: Option<seq<Notification>>, latest: seq<Notification>, n: Notification)
    requires n !in latest && latest != []
    ensures Remove(AfterAwait(before, Some(latest)).value, n) == latest[..|latest| - 1]
  {
    RemoveUnlisted(latest, n);
  }
}
