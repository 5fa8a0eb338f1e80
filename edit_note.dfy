/** The note editor: the tags input holds the note's tags joined with
    commas, and confirming parses that text back into tags. */
module EditNote {
  import opened Optional
  import opened Strings
  import opened Notes

  /** `.filter(line => line.length)`: the non-empty segments, in order. */
  function NonEmpty(parts: seq<string>): (r: seq<string>)
    ensures forall i :: 0 <= i < |r| ==> r[i] != ""
    decreases |parts|
  {
    if parts == [] then []
    else (if parts[0] != "" then [parts[0]] else []) + NonEmpty(parts[1..])
  }

  /** `.map(line => line.trim().toLowerCase())`. */
  function Normalize(parts: seq<string>): seq<string>
  {
    seq(|parts|, i requires 0 <= i < |parts| => ToLower(Trim(parts[i])))
  }

  /** `parseTags`: split on commas, drop empty segments, then trim and
      lower-case each. The emptiness test comes before trimming. */
  function ParseTags(tagString: string): seq<string> {
    Normalize(NonEmpty(Split(tagString, ',')))
  }

  /** A tag as the parser produces it and as it survives a round trip. */
  predicate IsCleanTag(t: string) {
    t != "" && IsTrimmed(t) && IsLower(t) && ',' !in t
  }

  /** The initial value of the tags input: the tags joined with commas, or
      the empty string for a new note. */
  function TagsInputValue(note: Option<Note>): string {
    if note.Some? then Join(note.value.tags, ',') else ""
  }

  /** The note a confirmation builds from the inputs; the content text is
      parsed elsewhere and arrives as `content`. */
  function NewNote(original: Option<Note>, nameValue: string, colorValue: string, content: seq<Line>, tagsValue: string): Note {
    Note(if original.Some? then original.value.id else None, nameValue, colorValue, content, ParseTags(tagsValue))
  }

  lemma {:induction false} ToLowerKeepsTrimmed(s: string)
    requires IsTrimmed(s)
    ensures IsTrimmed(ToLower(s)) && IsLower(ToLower(s))
  {
  }

  lemma TrimIsTrimmed(s: string)
    ensures IsTrimmed(Trim(s))
  {
    var t := TrimStart(s);
    var r := TrimEnd(t);
    assert Trim(s) == r;
    if r != [] {
      assert t != [] && !IsSpace(t[0]);
      assert r[0] == t[..|r|][0] == t[0];
      assert !IsSpace(r[|r| - 1]);
    }
  }

  /** Every parsed tag is trimmed and lower-case. */
  lemma ParsedTagsClean(tagString: string)
    ensures forall i :: 0 <= i < |ParseTags(tagString)| ==>
      IsTrimmed(ParseTags(tagString)[i]) && IsLower(ParseTags(tagString)[i])
  {
    var parts := NonEmpty(Split(tagString, ','));
    forall i | 0 <= i < |parts| ensures IsTrimmed(ToLower(Trim(parts[i]))) && IsLower(ToLower(Trim(parts[i]))) {
      TrimIsTrimmed(parts[i]);
      ToLowerKeepsTrimmed(Trim(parts[i]));
    }
  }

  /** Empty input gives no tags; a segment of spaces alone is not empty, so
      it gives one empty tag. */
  lemma ParseTagsEdges()
    ensures ParseTags("") == []
    ensures ParseTags(" ") == [""]
  {
    SplitNoSep(" ", ',');
    assert NonEmpty([" "]) == [" "];
    assert Trim(" ") == "";
  }

  /** Filtering distributes over concatenation, so it keeps the order of the
      segments. */
  lemma {:induction false} NonEmptyAppend(a: seq<string>, b: seq<string>)
    ensures NonEmpty(a + b) == NonEmpty(a) + NonEmpty(b)
    decreases |a|
  {
    if a != [] {
      assert (a + b)[1..] == a[1..] + b;
      NonEmptyAppend(a[1..], b);
    } else {
      assert a + b == b;
    }
  }

  /** A segment survives the filter exactly when it is not empty. */
  lemma {:induction false} NonEmptyMember(parts: seq<string>, x: string)
    ensures x in NonEmpty(parts) <==> x in parts && x != ""
    decreases |parts|
  {
    if parts != [] {
      NonEmptyMember(parts[1..], x);
      assert parts == [parts[0]] + parts[1..];
    }
  }

  /** The typed input `" Work, home "` splits into two segments. */
  lemma SplitExample()
    ensures Split(" Work, home ", ',') == [" Work", " home "]
  {
    assert " Work, home " == " Work" + [','] + " home ";
    SplitFirst(" Work", ',', " home ");
    SplitNoSep(" home ", ',');
  }

  /** After the trim, the two segments lower-case as expected. */
  lemma LowerExample()
    ensures ToLower("Work") == "work" && ToLower("home") == "home"
  {
    assert LowerChar('W') == 'w';
  }

  /** The map step on those two segments. */
  lemma NormalizeExample()
    ensures Normalize([" Work", " home "]) == ["work", "home"]
  {
    TrimExample();
    LowerExample();
    var parts := [" Work", " home "];
    assert Normalize(parts)[0] == ToLower(Trim(parts[0]));
    assert Normalize(parts)[1] == ToLower(Trim(parts[1]));
  }

  /** Typed tags are trimmed and lower-cased one by one. */
  lemma ParseTagsExample()
    ensures ParseTags(" Work, home ") == ["work", "home"]
  {
    SplitExample();
    NonEmptyKeeps([" Work", " home "]);
    NormalizeExample();
  }

  lemma {:induction false} NonEmptyKeeps(parts: seq<string>)
    requires forall i :: 0 <= i < |parts| ==> parts[i] != ""
    ensures NonEmpty(parts) == parts
    decreases |parts|
  {
    if parts != [] {
      NonEmptyKeeps(parts[1..]);
      assert [parts[0]] + parts[1..] == parts;
    }
  }

  /** Clean tags are left alone by the trim and lower-case step. */
  lemma NormalizeClean(tags: seq<string>)
    requires forall i :: 0 <= i < |tags| ==> IsCleanTag(tags[i])
    ensures Normalize(tags) == tags
  {
    var r := Normalize(tags);
    forall i | 0 <= i < |tags| ensures r[i] == tags[i] {
      TrimTrimmed(tags[i]);
      ToLowerLower(tags[i]);
    }
  }

  /** Round trip with the tags input: parsing the joined tags gives them back
      when each is non-empty, trimmed, lower-case and free of commas. */
  lemma ParseJoinedTags(tags: seq<string>)
    requires forall i :: 0 <= i < |tags| ==> IsCleanTag(tags[i])
    ensures ParseTags(Join(tags, ',')) == tags
  {
    if tags != [] {
      SplitJoin(tags, ',');
      NonEmptyKeeps(tags);
      NormalizeClean(tags);
      assert ParseTags(Join(tags, ',')) == Normalize(NonEmpty(tags));
    }
  }

  /** Confirming an unedited note gives the same note back, when the name
      and color inputs give back the note's own name and color and the
      textarea's text parses back to the note's content (the arguments
      passed to `NewNote` here). */
  lemma ConfirmUnedited(note: Note)
    requires forall i :: 0 <= i < |note.tags| ==> IsCleanTag(note.tags[i])
    ensures NewNote(Some(note), note.name, note.color, note.content, TagsInputValue(Some(note))) == note
  {
    ParseJoinedTags(note.tags);
  }
}
