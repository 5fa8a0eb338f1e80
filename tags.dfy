/** The tag strip of a note card: tags are shown in order while their
    rendered widths fit the strip's width budget. */
module Tags {
  import opened Optional
  import opened Strings

  /** Width units are hundredths of a pixel: a tag is `6 + 1 + 2` pixels of
      padding, border and gap plus 5.70 pixels per UTF-16 code unit of
      `tag.length`. */
  const TagStaticSize: nat := 900
  const TagCharSize: nat := 570

  function TagCost(tag: string): nat {
    TagStaticSize + TagCharSize * Utf16Length(tag)
  }

  function TotalCost(tags: seq<string>): nat
    decreases |tags|
  {
    if tags == [] then 0 else TotalCost(tags[..|tags| - 1]) + TagCost(tags[|tags| - 1])
  }

  /** The tags the loop keeps, given the budget left: the next tag is taken
      unless it would push the running size strictly past the budget, and the
      first tag that does not fit ends the selection. */
  function Fitting(tags: seq<string>, budget: int): seq<string>
    decreases |tags|
  {
    if tags == [] || TagCost(tags[0]) > budget then []
    else [tags[0]] + Fitting(tags[1..], budget - TagCost(tags[0]))
  }

  /** The effect computing `topTags`, with `topTagLength` in whole pixels.
      Tags that are `undefined` select nothing. */
  method TopTags(tags: Option<seq<string>>, topTagLength: int) returns (topTags: seq<string>)
    ensures topTags == Fitting(tags.GetOr([]), 100 * topTagLength)
  {
    var initialTags := tags.GetOr([]);
    var topLength := 100 * topTagLength;
    topTags := [];
    var size := 0;
    var i := 0;
    while i < |initialTags|
      invariant 0 <= i <= |initialTags|
      invariant Fitting(initialTags, topLength) == topTags + Fitting(initialTags[i..], topLength - size)
    {
      var tag := initialTags[i];
      var currentSize := TagStaticSize + TagCharSize * Utf16Length(tag);
      assert initialTags[i..][1..] == initialTags[i + 1..];
      if size + currentSize > topLength {
        break;
      }
      topTags := topTags + [tag];
      size := size + currentSize;
      i := i + 1;
    }
  }

  /** The cost of a concatenation is the sum of the costs of its parts. */
  lemma {:induction false} TotalCostAppend(a: seq<string>, b: seq<string>)
    ensures TotalCost(a + b) == TotalCost(a) + TotalCost(b)
    decreases |b|
  {
    if b != [] {
      var b' := b[..|b| - 1];
      assert (a + b)[..|a + b| - 1] == a + b';
      TotalCostAppend(a, b');
    } else {
      assert a + b == a;
    }
  }

  /** The selection is a prefix of the tags that fits the budget (nothing is
      selected against a negative budget), and it is maximal: when it stops
      early, the next tag would overflow. So a later, smaller tag is never
      shown after one that does not fit. */
  lemma {:induction false} FittingSpec(tags: seq<string>, budget: int)
    ensures var sel := Fitting(tags, budget);
      && |sel| <= |tags| && sel == tags[..|sel|]
      && (sel == [] || TotalCost(sel) <= budget)
      && (|sel| < |tags| ==> TotalCost(sel) + TagCost(tags[|sel|]) > budget)
    decreases |tags|
  {
    if tags != [] && TagCost(tags[0]) <= budget {
      var rest := Fitting(tags[1..], budget - TagCost(tags[0]));
      FittingSpec(tags[1..], budget - TagCost(tags[0]));
      TotalCostAppend([tags[0]], rest);
      assert TotalCost([tags[0]]) == TagCost(tags[0]) by {
        assert [tags[0]][..0] == [];
      }
      assert [tags[0]] + tags[1..][..|rest|] == tags[..|rest| + 1];
      if |rest| < |tags[1..]| {
        assert tags[1..][|rest|] == tags[|rest| + 1];
      }
    }
  }

  /** The width test is strict: tags that land exactly on the budget are all shown. */
  lemma {:induction false} ExactFitShown(tags: seq<string>, budget: int)
    requires TotalCost(tags) == budget
    ensures Fitting(tags, budget) == tags
    decreases |tags|
  {
    if tags != [] {
      TotalCostAppend([tags[0]], tags[1..]);
      assert [tags[0]] + tags[1..] == tags;
      assert TotalCost([tags[0]]) == TagCost(tags[0]) by {
        assert [tags[0]][..0] == [];
      }
      ExactFitShown(tags[1..], budget - TagCost(tags[0]));
    }
  }

  /** A tag's width goes by `length`: a one-emoji tag is as wide as a
      two-letter one. */
  lemma EmojiTagCost()
    ensures TagCost("\U{1F389}") == TagStaticSize + 2 * TagCharSize == TagCost("ab")
  {
    AstralLength();
    assert "ab"[..1] == "a" && "a"[..0] == "";
  }
}
