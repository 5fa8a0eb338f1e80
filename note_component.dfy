/** One note card. Clicking a line's checkbox reports the line's index path;
    the card then negates that line's `check` flag in a deep copy of the note
    and hands the copy on. */
module NoteComponent {
  import opened Optional
  import opened Notes

  /** The key after `last.check = !last.check`: an absent flag reads as false. */
  function Flipped(key: LineFormat): LineFormat {
    key.(check := Some(!Truthy(key.check)))
  }

  /** The content after toggling the check flag of the line at `path`. */
  function Toggle(content: seq<Line>, path: seq<int>): seq<Line>
    requires ValidPath(content, path)
  {
    SetKeyAt(content, path, Flipped(At(content, path).key))
  }

  /** A path that stops being valid at step `i` is not valid. */
  lemma InvalidAt(content: seq<Line>, path: seq<int>, i: nat)
    requires 0 < i < |path| && ValidPath(content, path[..i])
    requires !(0 <= path[i] < |At(content, path[..i]).children|)
    ensures !ValidPath(content, path)
  {
    if ValidPath(content, path) {
      ValidPathPrefix(content, path, i);
    }
  }

  /** `onCheckToggle`: walk the copy's content along `indices`, keeping the
      last line reached, then negate that line's check flag. An empty path or
      an index out of range makes the walk dereference `undefined`, which
      throws: no note is handed on. The note passed in is a value and is not
      changed. */
  method OnCheckToggle(note: Note, indices: seq<int>) returns (modified: Option<Note>)
    ensures modified.Some? <==> ValidPath(note.content, indices)
    ensures modified.Some? ==> modified.value == note.(content := Toggle(note.content, indices))
    ensures modified.Some? ==>
      && modified.value.id == note.id && modified.value.name == note.name
      && modified.value.color == note.color && modified.value.tags == note.tags
      && ValidPath(modified.value.content, indices)
      && At(modified.value.content, indices).key.check == Some(!Truthy(At(note.content, indices).key.check))
    ensures modified.Some? ==> forall p :: ValidPath(note.content, p) && p != indices ==>
      ValidPath(modified.value.content, p) && At(modified.value.content, p).key == At(note.content, p).key
  {
    var check := note.content;
    var last: Option<Line> := None;
    var i := 0;
    while i < |indices|
      invariant 0 <= i <= |indices|
      invariant i == 0 ==> last == None && check == note.content
      invariant i > 0 ==>
        && ValidPath(note.content, indices[..i])
        && last == Some(At(note.content, indices[..i]))
        && check == last.value.children
    {
      var index := indices[i];
      if !(0 <= index < |check|) {
        if i > 0 {
          InvalidAt(note.content, indices, i);
        }
        return None;
      }
      if i == 0 {
        assert indices[..1] == [index];
      } else {
        AtExtend(note.content, indices[..i], index);
        assert indices[..i] + [index] == indices[..i + 1];
      }
      last := Some(check[index]);
      check := check[index].children;
      i := i + 1;
    }
    if last == None {
      return None;
    }
    assert indices[..i] == indices;
    var content := SetKeyAt(note.content, indices, Flipped(last.value.key));
    SetKeyAtHit(note.content, indices, Flipped(last.value.key));
    forall p | ValidPath(note.content, p) && p != indices
      ensures ValidPath(content, p) && At(content, p).key == At(note.content, p).key
    {
      SetKeyAtOther(note.content, indices, Flipped(last.value.key), p);
    }
    modified := Some(note.(content := content));
  }

  /** Toggling twice restores how the checkbox renders (`!!check`), and it
      restores the content exactly when the flag was present: an absent flag
      comes back as `false`. */
  lemma ToggleTwice(content: seq<Line>, path: seq<int>)
    requires ValidPath(content, path)
    ensures ValidPath(Toggle(content, path), path)
    ensures Truthy(At(Toggle(Toggle(content, path), path), path).key.check) == Truthy(At(content, path).key.check)
    ensures At(content, path).key.check.Some? ==> Toggle(Toggle(content, path), path) == content
    ensures At(content, path).key.check.None? ==> Toggle(Toggle(content, path), path) != content
  {
    var once := Toggle(content, path);
    var key := At(content, path).key;
    SetKeyAtHit(content, path, Flipped(key));
    SetKeyAtHit(once, path, Flipped(Flipped(key)));
    if key.check.Some? {
      var b := key.check.value;
      assert Flipped(key).check == Some(!b);
      assert Flipped(Flipped(key)).check == Some(b) == key.check;
      assert Flipped(Flipped(key)) == key;
      SetKeyAtTwice(content, path, Flipped(key), key);
      SetKeyAtSame(content, path);
    }
  }

  /** Two replacements at one path: the second wins. */
  lemma {:induction false} SetKeyAtTwice(content: seq<Line>, path: seq<int>, k1: LineFormat, k2: LineFormat)
    requires ValidPath(content, path)
    ensures SetKeyAt(SetKeyAt(content, path, k1), path, k2) == SetKeyAt(content, path, k2)
    decreases |path|
  {
    SetKeyAtShape(content, path, k1, path);
    if |path| > 1 {
      SetKeyAtTwice(content[path[0]].children, path[1..], k1, k2);
    }
  }

  /** Writing back the key that is already there changes nothing. */
  lemma {:induction false} SetKeyAtSame(content: seq<Line>, path: seq<int>)
    requires ValidPath(content, path)
    ensures SetKeyAt(content, path, At(content, path).key) == content
    decreases |path|
  {
    if |path| > 1 {
      SetKeyAtSame(content[path[0]].children, path[1..]);
    }
  }
}
