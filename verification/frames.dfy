/** The slice of pandas the government-data pages rely on: cells that may be missing,
    `dropna`, the lag-12 percentage change `pct_change(12) * 100`, and the two in-place
    updates of a frame (adding a column, moving a column into the index). */
module Frames {
  import opened Wrappers

  /** One cell: text, a finite number, or missing (NaN, None, NaT). */
  datatype Cell = Text(text: string) | Number(value: real) | Missing

  /** A frame as a value: the row labels and the columns by name. */
  datatype Table = Table(index: seq<Cell>, columns: map<string, seq<Cell>>)

  /** Every column has one cell per row. */
  predicate WellFormed(t: Table) {
    forall c :: c in t.columns ==> |t.columns[c]| == |t.index|
  }

  /* ---------------- dropna ---------------- */

  predicate RowComplete(t: Table, i: nat)
    requires WellFormed(t) && i < |t.index|
  {
    forall c :: c in t.columns ==> t.columns[c][i] != Missing
  }

  /** The positions of the complete rows among the first `n`, in ascending order. */
  function KeptRows(t: Table, n: nat): (r: seq<nat>)
    requires WellFormed(t) && n <= |t.index|
    ensures forall j :: 0 <= j < |r| ==> r[j] < n && RowComplete(t, r[j])
    ensures forall j, k :: 0 <= j < k < |r| ==> r[j] < r[k]
    ensures forall i :: 0 <= i < n && RowComplete(t, i) ==> i in r
  {
    if n == 0 then [] else KeptRows(t, n - 1) + (if RowComplete(t, n - 1) then [n - 1] else [])
  }

  /** `df.dropna()`: the complete rows, in their order. */
  function DropIncomplete(t: Table): Table
    requires WellFormed(t)
  {
    var k := KeptRows(t, |t.index|);
    Table(seq(|k|, j requires 0 <= j < |k| => t.index[k[j]]),
          map c | c in t.columns :: seq(|k|, j requires 0 <= j < |k| => t.columns[c][k[j]]))
  }

  /** After `dropna` the frame is still well formed and no cell is missing; its rows are
      exactly the complete rows of the input, in the input's order. */
  lemma DropIncompleteRule(t: Table)
    requires WellFormed(t)
    ensures var d := DropIncomplete(t);
      var k := KeptRows(t, |t.index|);
      && WellFormed(d)
      && d.columns.Keys == t.columns.Keys
      && |d.index| == |k|
      && (forall c, j :: c in d.columns && 0 <= j < |d.index| ==> d.columns[c][j] != Missing)
      && (forall c, j :: c in d.columns && 0 <= j < |d.index| ==> d.columns[c][j] == t.columns[c][k[j]])
      && (forall i :: 0 <= i < |t.index| ==> (RowComplete(t, i) <==> i in k))
  {
  }

  /* ---------------- lag-12 change ---------------- */

  /** `pct_change(12)` compares each row with the row twelve places earlier. */
  const Lag: nat := 12

  /** The padding `pct_change` applies first: present cells stay, the first row stays,
      and a missing cell below it takes the padded value of the row above, so the last
      present value above it, if there is one. */
  function ForwardFill(col: seq<Cell>): (r: seq<Cell>)
    ensures |r| == |col|
    ensures forall i :: 0 <= i < |col| && col[i] != Missing ==> r[i] == col[i]
    ensures |col| > 0 ==> r[0] == col[0]
    ensures forall i :: 0 < i < |col| && col[i] == Missing ==> r[i] == r[i - 1]
  {
    seq(|col|, i requires 0 <= i < |col| => FilledAt(col, i))
  }

  /** Row `i` of the padded column: the nearest cell at or above it that is present, or
      the first cell when there is none. */
  function FilledAt(col: seq<Cell>, i: nat): Cell
    requires i < |col|
  {
    if col[i] != Missing || i == 0 then col[i] else FilledAt(col, i - 1)
  }

  /** A missing cell takes the last present value above it: when row `j` is present and
      every row after it up to `i` is missing, row `i` of the padded column is row `j`. */
  lemma {:induction false} ForwardFillLastPresent(col: seq<Cell>, j: nat, i: nat)
    requires j <= i < |col| && col[j] != Missing
    requires forall k :: j < k <= i ==> col[k] == Missing
    ensures ForwardFill(col)[i] == col[j]
    decreases i
  {
    if i > j {
      ForwardFillLastPresent(col, j, i - 1);
    }
  }

  /** `(x / base - 1) * 100`; missing when either side is not a number or the base is 0
      (the division then has no finite result). */
  function Change(base: Cell, x: Cell): Cell {
    if base.Number? && x.Number? && base.value != 0.0 then Number((x.value / base.value - 1.0) * 100.0)
    else Missing
  }

  /** Row `i` of `pct_change(12) * 100` over the padded column `f`. */
  function ChangeAt(f: seq<Cell>, i: nat): Cell
    requires i < |f|
  {
    if i < Lag then Missing else Change(f[i - Lag], f[i])
  }

  /** `col.pct_change(12) * 100`. */
  function YearOnYear(col: seq<Cell>): (r: seq<Cell>)
    ensures |r| == |col|
    ensures forall i :: 0 <= i < |r| ==> r[i] == ChangeAt(ForwardFill(col), i)
  {
    var f := ForwardFill(col);
    seq(|col|, i requires 0 <= i < |col| => ChangeAt(f, i))
  }

  /** On a column with no missing cell, the change at every row from the thirteenth on is
      the percentage change from the value twelve rows up, whenever that value is not 0. */
  lemma YearOnYearComplete(col: seq<Cell>, i: nat)
    requires forall j :: 0 <= j < |col| ==> col[j].Number?
    requires Lag <= i < |col| && col[i - Lag].value != 0.0
    ensures YearOnYear(col)[i] == Number((col[i].value / col[i - Lag].value - 1.0) * 100.0)
  {
    assert YearOnYear(col)[i] == ChangeAt(ForwardFill(col), i);
  }

  /** The first twelve rows have nothing to compare with. */
  lemma YearOnYearLeadingMissing(col: seq<Cell>, i: nat)
    requires i < |col| && i < Lag
    ensures YearOnYear(col)[i] == Missing
  {
    assert YearOnYear(col)[i] == ChangeAt(ForwardFill(col), i);
  }

  /** A change is a rate that, applied to the (padded) value twelve rows up, gives back
      the (padded) value of the row. */
  lemma YearOnYearInverse(col: seq<Cell>, i: nat)
    requires i < |col| && YearOnYear(col)[i].Number?
    ensures Lag <= i
    ensures ForwardFill(col)[i - Lag].Number? && ForwardFill(col)[i].Number?
    ensures Grow(ForwardFill(col)[i - Lag].value, YearOnYear(col)[i].value) == ForwardFill(col)[i].value
  {
    var f := ForwardFill(col);
    assert YearOnYear(col)[i] == ChangeAt(f, i);
    var b, x, c := f[i - Lag].value, f[i].value, YearOnYear(col)[i].value;
    assert c == (x / b - 1.0) * 100.0;
    RateInverse(b, x, c);
  }

  /** `b` grown by `c` per cent. */
  function Grow(b: real, c: real): real {
    b * (1.0 + c / 100.0)
  }

  lemma RateInverse(b: real, x: real, c: real)
    requires b != 0.0 && c == (x / b - 1.0) * 100.0
    ensures Grow(b, c) == x
  {
    var q := x / b;
    assert (q - 1.0) * 100.0 / 100.0 == q - 1.0;
    assert b * q == x;
  }

  /** The column holds text somewhere. */
  predicate HasText(col: seq<Cell>) {
    exists i :: 0 <= i < |col| && col[i].Text?
  }

  /** Row `i` of the padded column and the row twelve places up are both present and one
      of them is text: dividing them raises `TypeError`. */
  predicate ClashAt(f: seq<Cell>, i: nat)
    requires Lag <= i < |f|
  {
    f[i] != Missing && f[i - Lag] != Missing && (f[i].Text? || f[i - Lag].Text?)
  }

  /** A column `pct_change` refuses. On a column holding text pandas divides cell by cell,
      only where both cells of a pair are present, so it fails exactly when some pair of
      present cells twelve rows apart includes text. This holds while no padded cell that
      is a base of the change is 0; a zero base on such a column raises `ZeroDivisionError`
      in pandas, which this predicate does not capture. */
  predicate TextClash(col: seq<Cell>) {
    exists i :: Lag <= i < |col| && ClashAt(ForwardFill(col), i)
  }

  /** Only a column with text can be refused. */
  lemma TextClashHasText(col: seq<Cell>)
    requires TextClash(col)
    ensures HasText(col)
  {
    var f := ForwardFill(col);
    var i :| Lag <= i < |col| && ClashAt(f, i);
    var k := if f[i].Text? then i else i - Lag;
    var j := PresentSource(col, k);
    assert col[j].Text?;
  }

  /** Where the padded column holds a present cell, it copies a present cell of the column
      at or above that row. */
  lemma {:induction false} PresentSource(col: seq<Cell>, i: nat) returns (j: nat)
    requires i < |col| && ForwardFill(col)[i] != Missing
    ensures j <= i && col[j] == ForwardFill(col)[i]
    decreases i
  {
    if col[i] != Missing || i == 0 {
      j := i;
    } else {
      j := PresentSource(col, i - 1);
    }
  }

  /** A column of at most twelve rows is never refused, whatever text it holds: every
      change is then missing. */
  lemma ShortColumnNoClash(col: seq<Cell>)
    requires |col| <= Lag
    ensures !TextClash(col)
  {
  }

  /** In a column with no missing cell, a text cell with a partner twelve rows above or
      below it makes `pct_change` fail. */
  lemma CompleteTextClash(col: seq<Cell>, i: nat)
    requires forall k :: 0 <= k < |col| ==> col[k] != Missing
    requires i < |col| && col[i].Text? && (Lag <= i || i + Lag < |col|)
    ensures TextClash(col)
  {
    var f := ForwardFill(col);
    if Lag <= i {
      assert ClashAt(f, i);
    } else {
      assert ClashAt(f, i + Lag);
    }
  }

  /* ---------------- in-place updates ---------------- */

  /** A data frame the pages change in place. */
  class Frame {
    var index: seq<Cell>
    var columns: map<string, seq<Cell>>

    function Contents(): Table
      reads this
    {
      Table(index, columns)
    }

    predicate Valid()
      reads this
    {
      WellFormed(Contents())
    }

    constructor (t: Table)
      requires WellFormed(t)
      ensures Contents() == t && Valid()
    {
      index := t.index;
      columns := t.columns;
    }

    /** `df[target] = df[source].pct_change(12) * 100`: a missing source column is a
        `KeyError`, a column `pct_change` refuses (`TextClash`) a `TypeError`; otherwise
        `target` is added or replaced and nothing else changes. */
    method AddYearOnYear(source: string, target: string) returns (r: Result<(), PyError>)
      requires Valid()
      modifies this
      ensures Valid() && index == old(index)
      ensures source !in old(columns) ==> r == Err(KeyError) && columns == old(columns)
      ensures source in old(columns) && TextClash(old(columns)[source]) ==> r == Err(TypeError) && columns == old(columns)
      ensures source in old(columns) && !TextClash(old(columns)[source]) ==>
        r == Ok(()) && columns == old(columns)[target := YearOnYear(old(columns)[source])]
    {
      if source !in columns {
        return Err(KeyError);
      }
      if TextClash(columns[source]) {
        return Err(TypeError);
      }
      columns := columns[target := YearOnYear(columns[source])];
      r := Ok(());
    }

    /** `df.set_index(name, inplace=True)`: the column becomes the row labels and leaves
        the columns. */
    method SetIndex(name: string) returns (r: Result<(), PyError>)
      requires Valid()
      modifies this
      ensures Valid()
      ensures name !in old(columns) ==> r == Err(KeyError) && Contents() == old(Contents())
      ensures name in old(columns) ==>
        r == Ok(()) && index == old(columns)[name] && columns == old(columns) - {name}
    {
      if name !in columns {
        return Err(KeyError);
      }
      index := columns[name];
      columns := columns - {name};
      r := Ok(());
    }
  }
}
