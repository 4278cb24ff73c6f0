/** The slice of pandas the loader relies on: a DataFrame as named columns of
    equal height, column assignment, column dropping, boolean row selection,
    taking the first rows, and stacking two frames. */
module Frames {
  import opened Common

  /** A cell of an object column: pandas keeps ints, floats and strings side by side. */
  datatype Cell = IntCell(i: int) | RealCell(r: real) | StrCell(s: string)

  /** `cell == n` against an integer literal, as pandas compares an object column. */
  predicate CellEquals(c: Cell, n: int)
  {
    match c
    case IntCell(i) => i == n
    case RealCell(r) => r == n as real
    case StrCell(_) => false
  }

  /** A column label: a name read from the data set, or the column holding one
      bit of an address column. */
  datatype Column = Named(name: string) | Bit(address: string, position: nat)

  /** Each column's cells by column label, and the number of rows. Column
      order is not kept. */
  datatype Frame = Frame(data: map<Column, seq<Cell>>, height: nat)

  /** Every column has one cell per row. */
  predicate WellFormed(f: Frame)
  {
    forall c :: c in f.data ==> |f.data[c]| == f.height
  }

  /** `f[name] = values`: replaces an existing column or adds a new one. */
  function SetColumn(f: Frame, name: Column, values: seq<Cell>): (r: Frame)
    requires WellFormed(f) && |values| == f.height
    ensures WellFormed(r) && r.height == f.height
  {
    Frame(f.data[name := values], f.height)
  }

  /** After `f[name] = values` the columns are the old ones plus `name`, which
      holds `values`, and every other column is unchanged. */
  lemma SetColumnEffect(f: Frame, name: Column, values: seq<Cell>)
    requires WellFormed(f) && |values| == f.height
    ensures SetColumn(f, name, values).data.Keys == f.data.Keys + {name}
    ensures SetColumn(f, name, values).data[name] == values
    ensures forall c :: c in f.data && c != name ==> SetColumn(f, name, values).data[c] == f.data[c]
  {
  }

  /** `f.drop(columns=names)`; every name must be a column (pandas raises KeyError otherwise). */
  function DropColumns(f: Frame, names: seq<Column>): (r: Frame)
    requires WellFormed(f) && forall n :: n in names ==> n in f.data
    ensures WellFormed(r) && r.height == f.height
    ensures forall c :: c in r.data <==> c in f.data && c !in names
    ensures forall c :: c in r.data ==> r.data[c] == f.data[c]
  {
    Frame(map c | c in f.data && c !in names :: f.data[c], f.height)
  }

  /** `r` holds, in every column, the rows of `f` whose mask entry is true,
      in their original order. */
  predicate SelectedBy(r: Frame, f: Frame, mask: seq<bool>)
    requires WellFormed(f)
  {
    && |mask| == f.height
    && r.data.Keys == f.data.Keys && r.height == CountTrue(mask)
    && forall c :: c in r.data ==> r.data[c] == Keep(f.data[c], mask)
  }

  /** `f[mask]`: the rows whose mask entry is true, in order. */
  function FilterRows(f: Frame, mask: seq<bool>): (r: Frame)
    requires WellFormed(f) && |mask| == f.height
    ensures WellFormed(r) && SelectedBy(r, f, mask)
  {
    Frame(map c | c in f.data :: Keep(f.data[c], mask), CountTrue(mask))
  }

  /** Row j of a selection is the row of `f` at the j-th marked position; the
      positions increase with j, so the selection keeps the input order. */
  lemma SelectedFrom(r: Frame, f: Frame, mask: seq<bool>, j: nat)
    requires WellFormed(f) && SelectedBy(r, f, mask) && j < r.height
    ensures |Where(mask, true)| == r.height
    ensures Where(mask, true)[j] < f.height && mask[Where(mask, true)[j]]
    ensures forall c :: c in r.data ==> r.data[c][j] == f.data[c][Where(mask, true)[j]]
  {
    WhereCount(mask);
    forall c | c in r.data
      ensures r.data[c][j] == f.data[c][Where(mask, true)[j]]
    {
      KeepAt(f.data[c], mask);
    }
  }

  /** Row j of the last of three successive selections is the row of `g` at
      position `Selected3(m1, m2, m3)[j]`. */
  lemma Selected3From(g: Frame, f2: Frame, f3: Frame, r: Frame, m1: seq<bool>, m2: seq<bool>, m3: seq<bool>, j: nat)
    requires WellFormed(g) && SelectedBy(f2, g, m1)
    requires WellFormed(f2) && SelectedBy(f3, f2, m2)
    requires WellFormed(f3) && SelectedBy(r, f3, m3)
    requires j < r.height
    ensures Selected3(m1, m2, m3)[j] < g.height
    ensures forall c :: c in r.data ==> r.data[c][j] == g.data[c][Selected3(m1, m2, m3)[j]]
  {
    SelectedFrom(r, f3, m3, j);
    var b := Where(m3, true)[j];
    SelectedFrom(f3, f2, m2, b);
    var a := Where(m2, true)[b];
    SelectedFrom(f2, g, m1, a);
    WhereCount(m1);
    WhereCount(m2);
    assert Selected3(m1, m2, m3)[j] == Where(m1, true)[a];
  }

  /** A marked row of `f` is in the selection, after as many rows as are
      marked before it. */
  lemma SelectedHas(r: Frame, f: Frame, mask: seq<bool>, p: nat)
    requires WellFormed(f) && SelectedBy(r, f, mask) && p < f.height && mask[p]
    ensures CountTrue(mask[..p]) < r.height
    ensures forall c :: c in r.data ==> r.data[c][CountTrue(mask[..p])] == f.data[c][p]
  {
    WhereAt(mask, p);
    WhereCount(mask);
    forall c | c in r.data
      ensures r.data[c][CountTrue(mask[..p])] == f.data[c][p]
    {
      KeepHas(f.data[c], mask, p);
    }
  }

  /** `f.iloc[:n]`: the first n rows, or all of them when there are fewer. */
  function HeadRows(f: Frame, n: nat): (r: Frame)
    requires WellFormed(f)
    ensures WellFormed(r) && r.data.Keys == f.data.Keys && r.height == Min(n, f.height)
    ensures forall c :: c in r.data ==> r.data[c] == f.data[c][..r.height]
  {
    var h := Min(n, f.height);
    Frame(map c | c in f.data :: f.data[c][..h], h)
  }

  /** `pd.concat([f, g])` of two frames with the same columns. */
  function ConcatRows(f: Frame, g: Frame): (r: Frame)
    requires WellFormed(f) && WellFormed(g) && f.data.Keys == g.data.Keys
    ensures WellFormed(r) && r.data.Keys == f.data.Keys && r.height == f.height + g.height
    ensures forall c :: c in r.data ==> r.data[c] == f.data[c] + g.data[c]
  {
    Frame(map c | c in f.data :: f.data[c] + g.data[c], f.height + g.height)
  }
}
