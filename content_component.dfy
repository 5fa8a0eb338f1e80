/** The recursive rendering of a note's content. Each line's checkbox
    reports `[i]`; a nested component's report is passed up with the
    parent's index put in front (`[i(), ...indices]`), and a collapsed line
    does not render its children. */
module ContentComponent {
  import opened Optional
  import opened Notes
  import opened LineComponent

  /** The line component rendered for a line: it gets the line's key, and
      `hasChildren` says whether the line's child list is non-empty. */
  method LineFor(l: Line) returns (v: LineView)
    ensures fresh(v) && v.key == l.key && !v.showMenu && v.blur == Truthy(l.key.blur)
    ensures v.hasChildren <==> |l.children| > 0
  {
    v := new LineView(l.key, |l.children| > 0);
  }

  /** Flip one line's collapse flag. Lines are named by their path from the root. */
  function ToggleCollapsed(collapsed: set<seq<int>>, p: seq<int>): (r: set<seq<int>>)
    ensures p in r <==> p !in collapsed
    ensures forall q :: q != p ==> (q in r <==> q in collapsed)
  {
    if p in collapsed then collapsed - {p} else collapsed + {p}
  }

  /** What the component whose lines sit at path `at` reports when the
      checkbox of the rendered line at local position `target` is clicked:
      nothing when no such line is rendered. */
  function Report(content: seq<Line>, at: seq<int>, collapsed: set<seq<int>>, target: seq<int>): Option<seq<int>>
    decreases |target|
  {
    if |target| == 0 || !(0 <= target[0] < |content|) then None
    else
      var i := target[0];
      if |target| == 1 then Some([i])
      else if at + [i] in collapsed then None
      else
        match Report(content[i].children, at + [i], collapsed, target[1..])
        case None => None
        case Some(indices) => Some([i] + indices)
  }

  /** The line at `target` below `at` is rendered: the path leads to a line
      and none of the lines above it is collapsed. */
  predicate Rendered(content: seq<Line>, at: seq<int>, collapsed: set<seq<int>>, target: seq<int>) {
    ValidPath(content, target) && forall k :: 1 <= k < |target| ==> at + target[..k] !in collapsed
  }

  /** A click is reported exactly for a rendered line, and the report is the
      child-index path leading to it (so a top-level line reports `[i]`, and
      the path is one longer than the line's nesting depth). */
  lemma {:induction false} ReportIsPath(content: seq<Line>, at: seq<int>, collapsed: set<seq<int>>, target: seq<int>)
    ensures Report(content, at, collapsed, target).Some? <==> Rendered(content, at, collapsed, target)
    ensures Report(content, at, collapsed, target).Some? ==> Report(content, at, collapsed, target).value == target
    decreases |target|
  {
    if |target| > 1 && 0 <= target[0] < |content| {
      var i := target[0];
      var rest := target[1..];
      ReportIsPath(content[i].children, at + [i], collapsed, rest);
      assert target == [i] + rest;
      assert target[..1] == [i];
      forall k | 1 <= k < |rest| ensures at + target[..k + 1] == (at + [i]) + rest[..k] {
        assert target[..k + 1] == [i] + rest[..k];
      }
      if Rendered(content[i].children, at + [i], collapsed, rest) && at + [i] !in collapsed {
        forall k | 1 <= k < |target| ensures at + target[..k] !in collapsed {
          if k > 1 {
            assert at + target[..k] == (at + [i]) + rest[..k - 1];
          }
        }
      }
    }
  }

  /** From the root: the reported path is the clicked line's path, so the
      toggle on the note card always finds the line. */
  lemma ReportFromRoot(content: seq<Line>, collapsed: set<seq<int>>, target: seq<int>)
    requires Report(content, [], collapsed, target).Some?
    ensures Report(content, [], collapsed, target) == Some(target)
    ensures ValidPath(content, target)
  {
    ReportIsPath(content, [], collapsed, target);
  }

  /** Below a collapsed line nothing is reported. */
  lemma CollapsedHides(content: seq<Line>, collapsed: set<seq<int>>, target: seq<int>, k: nat)
    requires 1 <= k < |target| && target[..k] in collapsed
    ensures Report(content, [], collapsed, target) == None
  {
    ReportIsPath(content, [], collapsed, target);
    assert [] + target[..k] == target[..k];
  }
}
