/** The notes data model: a note's content is a tree of formatted lines,
    each line a `[key, children]` pair, and a line is addressed by the
    sequence of child indices leading to it from the root. */
module Notes {
  import opened Optional

  /** The formatting of one line. Every field may be absent (`undefined`);
      `link` absent stands for both `null` and `undefined`. */
  datatype LineFormat = LineFormat(
    line: Option<string>,
    link: Option<string>,
    checkbox: Option<bool>,
    check: Option<bool>,
    blur: Option<bool>)

  datatype Line = Line(key: LineFormat, children: seq<Line>)

  datatype Note = Note(id: Option<int>, name: string, color: string, content: seq<Line>, tags: seq<string>)

  /** JavaScript truthiness of an optional boolean, i.e. `!!b`. */
  function Truthy(b: Option<bool>): bool {
    b == Some(true)
  }

  /** `path` leads from the root content to a line: it is non-empty and each
      index is in range of the child list it indexes. */
  predicate ValidPath(content: seq<Line>, path: seq<int>)
    decreases |path|
  {
    |path| > 0 && 0 <= path[0] < |content|
    && (|path| == 1 || ValidPath(content[path[0]].children, path[1..]))
  }

  /** The line `path` leads to. */
  function At(content: seq<Line>, path: seq<int>): Line
    requires ValidPath(content, path)
    decreases |path|
  {
    if |path| == 1 then content[path[0]] else At(content[path[0]].children, path[1..])
  }

  /** Extending a path by one index into the reached line's children. */
  lemma {:induction false} AtExtend(content: seq<Line>, path: seq<int>, x: int)
    requires ValidPath(content, path)
    requires 0 <= x < |At(content, path).children|
    ensures ValidPath(content, path + [x])
    ensures At(content, path + [x]) == At(content, path).children[x]
    decreases |path|
  {
    var q := path + [x];
    assert q[0] == path[0];
    if |path| == 1 {
      assert q[1..] == [x];
    } else {
      assert q[1..] == path[1..] + [x];
      AtExtend(content[path[0]].children, path[1..], x);
    }
  }

  /** The content with the key of the line at `path` replaced by `key`;
      the rest of the tree is rebuilt unchanged. */
  function SetKeyAt(content: seq<Line>, path: seq<int>, key: LineFormat): (r: seq<Line>)
    requires ValidPath(content, path)
    ensures |r| == |content| && ValidPath(r, path)
    decreases |path|
  {
    var l := content[path[0]];
    content[path[0] := if |path| == 1 then Line(key, l.children) else Line(l.key, SetKeyAt(l.children, path[1..], key))]
  }

  /** Replacing a key keeps the tree's shape: the same paths lead to lines. */
  lemma {:induction false} SetKeyAtShape(content: seq<Line>, path: seq<int>, key: LineFormat, q: seq<int>)
    requires ValidPath(content, path)
    ensures ValidPath(SetKeyAt(content, path, key), q) <==> ValidPath(content, q)
    decreases |q|
  {
    var r := SetKeyAt(content, path, key);
    if |q| > 1 && 0 <= q[0] < |content| {
      if q[0] == path[0] && |path| > 1 {
        SetKeyAtShape(content[path[0]].children, path[1..], key, q[1..]);
      } else {
        assert r[q[0]].children == content[q[0]].children;
      }
    }
  }

  /** The line at `path` gets the new key and keeps its children. */
  lemma {:induction false} SetKeyAtHit(content: seq<Line>, path: seq<int>, key: LineFormat)
    requires ValidPath(content, path)
    ensures ValidPath(SetKeyAt(content, path, key), path)
    ensures At(SetKeyAt(content, path, key), path) == Line(key, At(content, path).children)
    decreases |path|
  {
    SetKeyAtShape(content, path, key, path);
    if |path| > 1 {
      SetKeyAtHit(content[path[0]].children, path[1..], key);
    }
  }

  /** Every other line keeps its key. */
  lemma {:induction false} SetKeyAtOther(content: seq<Line>, path: seq<int>, key: LineFormat, q: seq<int>)
    requires ValidPath(content, path) && ValidPath(content, q) && q != path
    ensures ValidPath(SetKeyAt(content, path, key), q)
    ensures At(SetKeyAt(content, path, key), q).key == At(content, q).key
    decreases |q|
  {
    SetKeyAtShape(content, path, key, q);
    var r := SetKeyAt(content, path, key);
    if q[0] != path[0] {
      assert r[q[0]] == content[q[0]];
    } else if |path| == 1 {
      assert r[q[0]].children == content[q[0]].children;
    } else if |q| > 1 {
      SetKeyAtOther(content[path[0]].children, path[1..], key, q[1..]);
    }
  }

  /** Every non-empty prefix of a path leads to a line, and the next index is
      in range of that line's children. */
  lemma {:induction false} ValidPathPrefix(content: seq<Line>, path: seq<int>, k: nat)
    requires ValidPath(content, path) && 1 <= k < |path|
    ensures ValidPath(content, path[..k])
    ensures 0 <= path[k] < |At(content, path[..k]).children|
    decreases k
  {
    var p := path[..k];
    assert p[0] == path[0];
    if k > 1 {
      assert p[1..] == path[1..][..k - 1];
      ValidPathPrefix(content[path[0]].children, path[1..], k - 1);
    } else {
      assert p == [path[0]];
    }
  }
}
