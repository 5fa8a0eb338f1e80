/** The notes board: notes are laid out in as many columns as fit the
    board's width, each note going to the column that is currently shortest. */
module NotesBoard {
  import opened Optional
  import opened Notes

  /** Each column is 400 pixels of note, 20 of padding and 5 of gap wide. */
  const ColumnWidth: nat := 425

  /** `Math.floor(width / 425)`. */
  function ColumnCount(width: nat): (n: nat)
    ensures n * ColumnWidth <= width < (n + 1) * ColumnWidth
  {
    width / ColumnWidth
  }

  /** `minColumnHeight`: the `reduce` keeps the running best and replaces it
      only on a strictly smaller size, so the result is the first index of a
      smallest size. */
  function MinColumn(sizes: seq<nat>): (c: nat)
    requires |sizes| > 0
    ensures c < |sizes|
    ensures forall j :: 0 <= j < |sizes| ==> sizes[c] <= sizes[j]
    ensures forall j :: 0 <= j < c ==> sizes[c] < sizes[j]
    decreases |sizes|
  {
    if |sizes| == 1 then 0
    else
      var best := MinColumn(sizes[..|sizes| - 1]);
      if sizes[|sizes| - 1] < sizes[best] then |sizes| - 1 else best
  }

  /** The running column sizes and the notes in each column. */
  datatype Layout = Layout(sizes: seq<nat>, columns: seq<seq<Note>>)

  predicate WellShaped(l: Layout, n: nat) {
    |l.sizes| == n && |l.columns| == n
  }

  /** `n` columns of size 0 with no notes. */
  function EmptyLayout(n: nat): (l: Layout)
    ensures WellShaped(l, n)
  {
    Layout(seq(n, _ => 0), seq(n, _ => []))
  }

  /** One step of the placement loop. */
  function Place(l: Layout, note: Note, size: nat): Layout
    requires |l.sizes| > 0 && |l.columns| == |l.sizes|
  {
    var c := MinColumn(l.sizes);
    Layout(l.sizes[c := l.sizes[c] + size], l.columns[c := l.columns[c] + [note]])
  }

  /** The layout after the notes have been placed in order into `n` columns. */
  function Assign(n: nat, notes: seq<Note>, sizeOf: Note -> nat): (l: Layout)
    requires n > 0
    ensures WellShaped(l, n)
    decreases |notes|
  {
    if notes == [] then EmptyLayout(n)
    else
      var last := notes[|notes| - 1];
      Place(Assign(n, notes[..|notes| - 1], sizeOf), last, sizeOf(last))
  }

  /** The column each note was sent to. */
  function Picks(n: nat, notes: seq<Note>, sizeOf: Note -> nat): (p: seq<nat>)
    requires n > 0
    ensures |p| == |notes|
    decreases |notes|
  {
    if notes == [] then []
    else
      var init := notes[..|notes| - 1];
      Picks(n, init, sizeOf) + [MinColumn(Assign(n, init, sizeOf).sizes)]
  }

  /** The notes sent to column `c`, in input order. */
  function Select(notes: seq<Note>, picks: seq<nat>, c: nat): seq<Note>
    requires |picks| == |notes|
    decreases |notes|
  {
    if notes == [] then []
    else
      var k := |notes| - 1;
      Select(notes[..k], picks[..k], c) + (if picks[k] == c then [notes[k]] else [])
  }

  function SumSizes(column: seq<Note>, sizeOf: Note -> nat): nat
    decreases |column|
  {
    if column == [] then 0 else SumSizes(column[..|column| - 1], sizeOf) + sizeOf(column[|column| - 1])
  }

  function Flatten(columns: seq<seq<Note>>): seq<Note>
    decreases |columns|
  {
    if columns == [] then [] else columns[0] + Flatten(columns[1..])
  }

  /** `isColumn(column)(v)`: with no columns assigned, or past the last
      column, every note is shown; otherwise the column's own notes. */
  predicate IsColumn(columns: Option<seq<seq<Note>>>, column: nat, v: Note) {
    columns.None? || |columns.value| <= column || v in columns.value[column]
  }

  /** The board's column signals. */
  class Board {
    var columnLength: Option<nat>
    var columns: Option<seq<seq<Note>>>

    constructor ()
      ensures columnLength == None && columns == None
    {
      columnLength := None;
      columns := None;
    }

    /** `computeColumns`: nothing happens until the board element exists. */
    method ComputeColumns(width: Option<nat>)
      modifies this
      ensures columnLength == if width.Some? then Some(ColumnCount(width.value)) else old(columnLength)
      ensures columns == old(columns)
    {
      if width.None? {
        return;
      }
      columnLength := Some(width.value / ColumnWidth);
    }

    /** `assignColumns`: with a column count that is unset or 0 the previous
        columns stay; otherwise `colLen` empty columns are filled note by note. */
    method AssignColumns(notes: seq<Note>, sizeOf: Note -> nat)
      modifies this
      ensures columnLength == old(columnLength)
      ensures columnLength.None? || columnLength.value == 0 ==> columns == old(columns)
      ensures columnLength.Some? && columnLength.value > 0 ==>
        columns == Some(Assign(columnLength.value, notes, sizeOf).columns)
    {
      if columnLength.None? || columnLength.value == 0 {
        return;
      }
      var cols := FillColumns(columnLength.value, notes, sizeOf);
      columns := Some(cols);
    }
  }

  /** The body of `assignColumns` once the count is known: `colLen` columns
      of size 0, then each note appended to the shortest one. */
  method FillColumns(colLen: nat, notes: seq<Note>, sizeOf: Note -> nat) returns (result: seq<seq<Note>>)
    requires colLen > 0
    ensures result == Assign(colLen, notes, sizeOf).columns
  {
    var columnSize, cols := NewColumns(colLen);
    for i := 0 to |notes|
      invariant columnSize[..] == Assign(colLen, notes[..i], sizeOf).sizes
      invariant cols[..] == Assign(colLen, notes[..i], sizeOf).columns
    {
      var note := notes[i];
      var column := MinColumn(columnSize[..]);
      AssignStep(colLen, notes, sizeOf, i);
      Grow(columnSize, column, sizeOf(note));
      Push(cols, column, note);
    }
    assert notes[..|notes|] == notes;
    result := cols[..];
  }

  /** `colLen` columns of size 0, each with no notes. */
  method NewColumns(colLen: nat) returns (columnSize: array<nat>, cols: array<seq<Note>>)
    ensures fresh(columnSize) && fresh(cols)
    ensures columnSize[..] == EmptyLayout(colLen).sizes && cols[..] == EmptyLayout(colLen).columns
  {
    columnSize := new nat[colLen];
    cols := new seq<Note>[colLen];
    for col := 0 to colLen
      invariant forall c :: 0 <= c < col ==> columnSize[c] == 0 && cols[c] == []
    {
      columnSize[col] := 0;
      cols[col] := [];
    }
  }

  /** `columnSize[c] += x`. */
  method Grow(a: array<nat>, c: nat, x: nat)
    requires c < a.Length
    modifies a
    ensures a[..] == old(a[..])[c := old(a[c]) + x]
  {
    a[c] := a[c] + x;
  }

  /** `columns[c].push(note)`. */
  method Push(a: array<seq<Note>>, c: nat, note: Note)
    requires c < a.Length
    modifies a
    ensures a[..] == old(a[..])[c := old(a[c]) + [note]]
  {
    a[c] := a[c] + [note];
  }

  /** One more note is one more placement step. */
  lemma AssignStep(n: nat, notes: seq<Note>, sizeOf: Note -> nat, i: nat)
    requires n > 0 && i < |notes|
    ensures var before := Assign(n, notes[..i], sizeOf);
      var c := MinColumn(before.sizes);
      Assign(n, notes[..i + 1], sizeOf)
        == Layout(before.sizes[c := before.sizes[c] + sizeOf(notes[i])], before.columns[c := before.columns[c] + [notes[i]]])
  {
    assert notes[..i + 1][..i] == notes[..i];
  }

  /** Column `c` holds exactly the notes sent to it, in input order. */
  lemma {:induction false} AssignSelects(n: nat, notes: seq<Note>, sizeOf: Note -> nat, c: nat)
    requires 0 <= c < n
    ensures Assign(n, notes, sizeOf).columns[c] == Select(notes, Picks(n, notes, sizeOf), c)
    decreases |notes|
  {
    if notes != [] {
      var k := |notes| - 1;
      AssignSelects(n, notes[..k], sizeOf, c);
      assert Picks(n, notes, sizeOf)[..k] == Picks(n, notes[..k], sizeOf);
    }
  }

  /** Each note goes to the first of the shortest columns at its turn. */
  lemma AssignPicksShortest(n: nat, notes: seq<Note>, sizeOf: Note -> nat, i: nat)
    requires n > 0 && i < |notes|
    ensures var running := Assign(n, notes[..i], sizeOf).sizes;
      var p := Picks(n, notes, sizeOf)[i];
      && p < n
      && (forall c :: 0 <= c < n ==> running[p] <= running[c])
      && (forall c :: 0 <= c < p ==> running[p] < running[c])
  {
    PicksPrefix(n, notes, sizeOf, i + 1);
    assert notes[..i + 1][..i] == notes[..i];
  }

  lemma {:induction false} PicksPrefix(n: nat, notes: seq<Note>, sizeOf: Note -> nat, k: nat)
    requires n > 0 && k <= |notes|
    ensures Picks(n, notes, sizeOf)[..k] == Picks(n, notes[..k], sizeOf)
    decreases |notes|
  {
    if k < |notes| {
      var init := notes[..|notes| - 1];
      PicksPrefix(n, init, sizeOf, k);
      assert init[..k] == notes[..k];
    } else {
      assert notes[..k] == notes;
    }
  }

  /** After the loop the size of each column is the sum of its notes' sizes. */
  lemma {:induction false} AssignSizes(n: nat, notes: seq<Note>, sizeOf: Note -> nat, c: nat)
    requires 0 <= c < n
    ensures Assign(n, notes, sizeOf).sizes[c] == SumSizes(Assign(n, notes, sizeOf).columns[c], sizeOf)
    decreases |notes|
  {
    if notes != [] {
      var k := |notes| - 1;
      AssignSizes(n, notes[..k], sizeOf, c);
      var before := Assign(n, notes[..k], sizeOf);
      var col := before.columns[c] + [notes[k]];
      assert col[..|col| - 1] == before.columns[c];
    }
  }

  lemma {:induction false} FlattenAppend(columns: seq<seq<Note>>, c: nat, x: Note)
    requires c < |columns|
    ensures multiset(Flatten(columns[c := columns[c] + [x]])) == multiset(Flatten(columns)) + multiset{x}
    decreases |columns|
  {
    var updated := columns[c := columns[c] + [x]];
    if c == 0 {
      assert updated[1..] == columns[1..];
    } else {
      assert updated[1..] == columns[1..][c - 1 := columns[c] + [x]];
      FlattenAppend(columns[1..], c - 1, x);
    }
  }

  lemma FlattenEmpty(n: nat)
    ensures Flatten(EmptyLayout(n).columns) == []
    decreases n
  {
    if n > 0 {
      assert EmptyLayout(n).columns[1..] == EmptyLayout(n - 1).columns;
      FlattenEmpty(n - 1);
    }
  }

  /** Every note is placed in exactly one column: the columns together are a
      permutation of the notes. */
  lemma {:induction false} AssignPermutation(n: nat, notes: seq<Note>, sizeOf: Note -> nat)
    requires n > 0
    ensures multiset(Flatten(Assign(n, notes, sizeOf).columns)) == multiset(notes)
    decreases |notes|
  {
    if notes == [] {
      FlattenEmpty(n);
    } else {
      var k := |notes| - 1;
      AssignPermutation(n, notes[..k], sizeOf);
      var before := Assign(n, notes[..k], sizeOf);
      FlattenAppend(before.columns, MinColumn(before.sizes), notes[k]);
      assert notes[..k] + [notes[k]] == notes;
    }
  }

  /** Once columns are assigned, each note is shown in the column it was sent
      to, a column shows only notes of the input, and a column index past the
      last column shows every note. */
  lemma IsColumnAfterAssign(n: nat, notes: seq<Note>, sizeOf: Note -> nat)
    requires n > 0
    ensures var columns := Some(Assign(n, notes, sizeOf).columns);
      && (forall i :: 0 <= i < |notes| ==> IsColumn(columns, Picks(n, notes, sizeOf)[i], notes[i]))
      && (forall c, v :: 0 <= c < n ==>
            (IsColumn(columns, c, v) <==> exists i :: 0 <= i < |notes| && Picks(n, notes, sizeOf)[i] == c && notes[i] == v))
      && (forall c, v :: c >= n ==> IsColumn(columns, c, v))
  {
    var l := Assign(n, notes, sizeOf);
    var picks := Picks(n, notes, sizeOf);
    forall i | 0 <= i < |notes| ensures IsColumn(Some(l.columns), picks[i], notes[i]) {
      AssignPicksShortest(n, notes, sizeOf, i);
      AssignSelects(n, notes, sizeOf, picks[i]);
      SelectHas(notes, picks, i);
    }
    forall c, v | 0 <= c < n
      ensures IsColumn(Some(l.columns), c, v) <==> exists i :: 0 <= i < |notes| && picks[i] == c && notes[i] == v
    {
      AssignSelects(n, notes, sizeOf, c);
      if IsColumn(Some(l.columns), c, v) {
        SelectIn(notes, picks, c, v);
      }
      if exists i :: 0 <= i < |notes| && picks[i] == c && notes[i] == v {
        var i :| 0 <= i < |notes| && picks[i] == c && notes[i] == v;
        SelectHas(notes, picks, i);
      }
    }
  }

  lemma {:induction false} SelectHas(notes: seq<Note>, picks: seq<nat>, i: nat)
    requires |picks| == |notes| && i < |notes|
    ensures notes[i] in Select(notes, picks, picks[i])
    decreases |notes|
  {
    var k := |notes| - 1;
    if i < k {
      SelectHas(notes[..k], picks[..k], i);
    }
  }

  lemma {:induction false} SelectIn(notes: seq<Note>, picks: seq<nat>, c: nat, v: Note)
    requires |picks| == |notes| && v in Select(notes, picks, c)
    ensures v in notes
    ensures exists i :: 0 <= i < |notes| && picks[i] == c && notes[i] == v
    decreases |notes|
  {
    var k := |notes| - 1;
    if v !in Select(notes[..k], picks[..k], c) {
      assert v == notes[k] && picks[k] == c;
    } else {
      SelectIn(notes[..k], picks[..k], c, v);
      var i :| 0 <= i < k && picks[..k][i] == c && notes[..k][i] == v;
      assert picks[i] == c && notes[i] == v;
    }
  }

}
