/** The home page: the list of groups filtered by name, the group editor
    dialog, and the Escape key. */
module Home {
  import opened Optional
  import opened Strings
  import opened Domain

  /** A group is shown when its lower-cased name contains the lower-cased filter. */
  predicate Shown(g: Group, filter: string) {
    Includes(ToLower(g.name), ToLower(filter))
  }

  /** The groups in state that the filter shows, in state order. */
  function FilterGroups(groups: seq<Group>, filter: string): seq<Group>
    decreases |groups|
  {
    if groups == [] then []
    else (if Shown(groups[0], filter) then [groups[0]] else []) + FilterGroups(groups[1..], filter)
  }

  /** The part of the page state the Escape key acts on. */
  datatype KeyState = KeyState(showGroupModal: bool, filter: string)

  predicate IsEscape(key: string) {
    key == "Escape" || key == "Esc"
  }

  /** `handleAppKeydown`: Escape first dismisses the dialog, then clears the filter. */
  function KeyStep(s: KeyState, key: string): KeyState {
    if !IsEscape(key) then s
    else if s.showGroupModal then s.(showGroupModal := false)
    else if |s.filter| > 0 then s.(filter := "")
    else s
  }

  /** The write `createGroup` issues; a group id of 0 is falsy and posts. */
  datatype Request = Put(group: Group) | Post(group: Group)

  function GroupRequest(g: Group): (r: Request)
    ensures r.group == g
    ensures r.Put? <==> g.id.Some? && g.id.value != 0
  {
    if g.id.Some? && g.id.value != 0 then Put(g) else Post(g)
  }

  class HomePage {
    var filter: string
    var showGroupModal: bool
    var currentGroup: Option<Group>
    /** The service calls issued, oldest first. */
    var requests: seq<Request>

    constructor()
      ensures filter == "" && !showGroupModal && currentGroup == None && requests == []
    {
      filter := "";
      showGroupModal := false;
      currentGroup := None;
      requests := [];
    }

    function Keys(): KeyState
      reads this
    {
      KeyState(showGroupModal, filter)
    }

    /** The keydown listener; it answers `false` to Escape and nothing otherwise. */
    method HandleKeydown(key: string) returns (r: Option<bool>)
      modifies this
      ensures Keys() == KeyStep(old(Keys()), key)
      ensures currentGroup == old(currentGroup) && requests == old(requests)
      ensures r == (if IsEscape(key) then Some(false) else None)
    {
      if key == "Escape" || key == "Esc" {
        if showGroupModal {
          showGroupModal := false;
        } else if |filter| > 0 {
          filter := "";
        }
        return Some(false);
      }
      return None;
    }

    /** The editor's confirm handler: issue an update or a creation, then close the dialog. */
    method CreateGroup(g: Group)
      modifies this
      ensures requests == old(requests) + [GroupRequest(g)]
      ensures !showGroupModal
      ensures filter == old(filter) && currentGroup == old(currentGroup)
    {
      var request := if g.id.Some? && g.id.value != 0 then Put(g) else Post(g);
      requests := requests + [request];
      showGroupModal := false;
    }

    /** Open the editor on the given group, or on no group. */
    method ShowModal(g: Option<Group>)
      modifies this
      ensures currentGroup == g && showGroupModal
      ensures filter == old(filter) && requests == old(requests)
    {
      currentGroup := g;
      showGroupModal := true;
    }

    /** The "new group" button opens an empty editor. */
    method NewGroupClicked()
      modifies this
      ensures currentGroup == None && showGroupModal
      ensures filter == old(filter) && requests == old(requests)
    {
      ShowModal(None);
    }
  }

  /** A group is in the filtered list exactly when it is in state and shown. */
  lemma {:induction false} FilterGroupsMember(groups: seq<Group>, filter: string, g: Group)
    ensures g in FilterGroups(groups, filter) <==> g in groups && Shown(g, filter)
    decreases |groups|
  {
    if groups != [] {
      FilterGroupsMember(groups[1..], filter, g);
      assert groups == [groups[0]] + groups[1..];
    }
  }

  /** Filtering distributes over concatenation, so it keeps the state order. */
  lemma {:induction false} FilterGroupsAppend(a: seq<Group>, b: seq<Group>, filter: string)
    ensures FilterGroups(a + b, filter) == FilterGroups(a, filter) + FilterGroups(b, filter)
    decreases |a|
  {
    if a == [] {
      assert a + b == b;
    } else {
      assert (a + b)[0] == a[0];
      assert (a + b)[1..] == a[1..] + b;
      FilterGroupsAppend(a[1..], b, filter);
    }
  }

  /** The empty filter shows every group. */
  lemma {:induction false} FilterGroupsEmpty(groups: seq<Group>)
    ensures FilterGroups(groups, "") == groups
    decreases |groups|
  {
    if groups != [] {
      IncludesEmpty(ToLower(groups[0].name));
      FilterGroupsEmpty(groups[1..]);
      assert [groups[0]] + groups[1..] == groups;
    }
  }

  /** Matching ignores the case of the filter. */
  lemma FilterCaseInsensitive(g: Group, filter: string)
    ensures Shown(g, filter) <==> Shown(g, ToLower(filter))
  {
    LowerIdempotent(filter);
  }

  lemma LowerIdempotent(s: string)
    ensures ToLower(ToLower(s)) == ToLower(s)
  {
    forall i | 0 <= i < |s| ensures ToLower(ToLower(s))[i] == ToLower(s)[i] { }
  }

  /** Escape with the dialog open closes it and leaves the filter alone;
      with the dialog closed it clears the filter; with both idle, and for
      any other key, nothing changes. */
  lemma KeyStepCases(s: KeyState, key: string)
    ensures !IsEscape(key) ==> KeyStep(s, key) == s
    ensures IsEscape(key) && s.showGroupModal ==> KeyStep(s, key) == KeyState(false, s.filter)
    ensures IsEscape(key) && !s.showGroupModal ==> KeyStep(s, key) == KeyState(false, "")
  {
  }

  /** Two presses of Escape always leave the page idle. */
  lemma EscapeTwiceIdle(s: KeyState)
    ensures KeyStep(KeyStep(s, "Escape"), "Escape") == KeyState(false, "")
  {
  }
}
