/** The UNSW-NB15 loader: port conversion, the row filters of preprocessing,
    the per-bit expansion of IPv4 addresses, and the cut to `nrows` rows. */
module Dataset {
  import opened Common
  import opened PyInt
  import opened IpBits
  import opened Frames
  import opened Ranking

  const Dsport := Named("dsport")
  const Sport := Named("sport")
  const SrcIp := Named("srcip")
  const LabelColumn := Named("Label")

  // ---------------------------------------------------------------------------
  // convert_to_decimal

  /** `convert_to_decimal(x)`: non-strings pass through; a string is read in
      base 16, failing that in base 10, failing that it becomes -1. */
  function ConvertToDecimal(x: Cell): (r: Cell)
    ensures !x.StrCell? ==> r == x
    ensures x.StrCell? ==> r.IntCell?
  {
    match x
    case StrCell(s) =>
      (match ParseInt(s, 16)
       case Some(v) => IntCell(v)
       case None =>
         match ParseInt(s, 10)
         case Some(v) => IntCell(v)
         case None => IntCell(-1))
    case _ => x
  }

  /** The decimal fallback never decides anything: a string is its base-16
      value when that parses, and -1 otherwise. */
  lemma ConvertReadsHexFirst(s: string)
    ensures ParseInt(s, 16).Some? ==> ConvertToDecimal(StrCell(s)) == IntCell(ParseInt(s, 16).value)
    ensures ParseInt(s, 16).None? ==> ConvertToDecimal(StrCell(s)) == IntCell(-1)
  {
    if ParseInt(s, 10).Some? {
      DecimalImpliesHex(s);
    }
  }

  /** A port written as `hex(n)` converts to n. */
  lemma ConvertHexText(n: nat)
    ensures ConvertToDecimal(StrCell("0x" + Format(n, 16))) == IntCell(n)
  {
    HexRoundTrip(n);
  }

  /** A port written in decimal is read as if its digits were hexadecimal. */
  lemma ConvertDecimalText(n: nat)
    ensures ConvertToDecimal(StrCell(Format(n, 10))) == IntCell(DigitsValue(Format(n, 10), 16))
  {
    var s := Format(n, 10);
    DecimalRoundTrip(n);
    FormatDigits(n, 10);
    assert IsDigitIn(s[0], 10) && IsDigitIn(s[|s| - 1], 10);
    StripUnspaced(s);
    assert Unsigned(s) == s;
    DecimalImpliesHex(s);
  }

  /** The decimal port "80" becomes 128. */
  lemma ConvertEighty()
    ensures ConvertToDecimal(StrCell("80")) == IntCell(128)
  {
    ConvertDecimalText(80);
    FormatStep(80, 10);
    assert Format(80, 10) == "80";
  }

  /** Only the six ASCII whitespace characters are skipped: text led by the
      file separator `\x1c` is no number in either base and becomes -1. */
  lemma ConvertRejectsSeparator()
    ensures ConvertToDecimal(StrCell("\U{1C}50")) == IntCell(-1)
  {
    var s := "\U{1C}50";
    StripUnspaced(s);
    assert Unsigned(s) == s && !HasHexPrefix(s);
    assert DigitValue(s[0]) == 36;
  }

  // ---------------------------------------------------------------------------
  // The row filters of preprocess

  /** `data['dsport'].apply(convert_to_decimal)`. */
  function ConvertColumn(col: seq<Cell>): (r: seq<Cell>)
    ensures |r| == |col|
    ensures forall i :: 0 <= i < |col| ==> r[i] == ConvertToDecimal(col[i])
  {
    seq(|col|, i requires 0 <= i < |col| => ConvertToDecimal(col[i]))
  }

  /** Replaces `dsport` by its converted values. */
  function ConvertDsport(f: Frame): (r: Frame)
    requires WellFormed(f) && Dsport in f.data
    ensures WellFormed(r) && r.data.Keys == f.data.Keys && r.height == f.height
    ensures forall i :: 0 <= i < f.height ==> r.data[Dsport][i] == ConvertToDecimal(f.data[Dsport][i])
    ensures forall c :: c in f.data && c != Dsport ==> r.data[c] == f.data[c]
  {
    SetColumn(f, Dsport, ConvertColumn(f.data[Dsport]))
  }

  /** The mask `data['dsport'] != -1`. */
  function DsportValid(col: seq<Cell>): (m: seq<bool>)
    ensures |m| == |col|
    ensures forall i :: 0 <= i < |col| ==> (m[i] <==> !CellEquals(col[i], -1))
  {
    seq(|col|, i requires 0 <= i < |col| => !CellEquals(col[i], -1))
  }

  /** `data[data['dsport'] != -1]`: the rows whose port is not -1, in order;
      no remaining port is -1. */
  function DropInvalidDsport(f: Frame): (r: Frame)
    requires WellFormed(f) && Dsport in f.data
    ensures WellFormed(r) && SelectedBy(r, f, DsportValid(f.data[Dsport]))
    ensures forall i :: 0 <= i < r.height ==> !CellEquals(r.data[Dsport][i], -1)
  {
    var r := FilterRows(f, DsportValid(f.data[Dsport]));
    Survives(r, f, DsportValid(f.data[Dsport]), Dsport, PortValid);
    r
  }

  /** Every row whose port is not -1 survives the port filter, after the
      surviving rows before it. */
  lemma DropInvalidDsportKeeps(f: Frame, p: nat)
    requires WellFormed(f) && Dsport in f.data && p < f.height && !CellEquals(f.data[Dsport][p], -1)
    ensures var r, j := DropInvalidDsport(f), CountTrue(DsportValid(f.data[Dsport])[..p]);
      j < r.height && forall c :: c in r.data ==> r.data[c][j] == f.data[c][p]
  {
    SelectedHas(DropInvalidDsport(f), f, DsportValid(f.data[Dsport]), p);
  }

  /** The mask `data['sport'].apply(lambda x: isinstance(x, int))`. */
  function SportIsInt(col: seq<Cell>): (m: seq<bool>)
    ensures |m| == |col|
    ensures forall i :: 0 <= i < |col| ==> (m[i] <==> col[i].IntCell?)
  {
    seq(|col|, i requires 0 <= i < |col| => col[i].IntCell?)
  }

  /** `data[is_int]`: the rows whose source port is an integer, in order. */
  function KeepIntSport(f: Frame): (r: Frame)
    requires WellFormed(f) && Sport in f.data
    ensures WellFormed(r) && SelectedBy(r, f, SportIsInt(f.data[Sport]))
    ensures forall i :: 0 <= i < r.height ==> r.data[Sport][i].IntCell?
  {
    var r := FilterRows(f, SportIsInt(f.data[Sport]));
    Survives(r, f, SportIsInt(f.data[Sport]), Sport, IsInteger);
    r
  }

  /** Every row whose source port is an integer survives, after the surviving
      rows before it. */
  lemma KeepIntSportKeeps(f: Frame, p: nat)
    requires WellFormed(f) && Sport in f.data && p < f.height && f.data[Sport][p].IntCell?
    ensures var r, j := KeepIntSport(f), CountTrue(SportIsInt(f.data[Sport])[..p]);
      j < r.height && forall c :: c in r.data ==> r.data[c][j] == f.data[c][p]
  {
    SelectedHas(KeepIntSport(f), f, SportIsInt(f.data[Sport]), p);
  }

  /** `col.value_counts().index[:n]`: the (at most n) most frequent values,
      most frequent first, without repetition. */
  function TopValues(col: seq<Cell>, n: nat): (top: seq<Cell>)
    ensures |top| == Min(n, |DistinctValues(col)|)
    ensures forall j :: 0 <= j < |top| ==> top[j] in col
    ensures forall j, j' :: 0 <= j < j' < |top| ==> top[j] != top[j']
    ensures forall j, j' :: 0 <= j < j' < |top| ==> Occurrences(col, top[j]) >= Occurrences(col, top[j'])
  {
    var vals := DistinctValues(col);
    var m := Min(n, |vals|);
    RankedValues(col, vals, m);
    Gather(vals, RankDescending(Counts(col, vals))[..m])
  }

  /** The first m distinct values in order of frequency are values of the
      column, pairwise different, and in non-increasing order of frequency. */
  lemma RankedValues(col: seq<Cell>, vals: seq<Cell>, m: nat)
    requires vals == DistinctValues(col) && m <= |vals|
    ensures var top := Gather(vals, RankDescending(Counts(col, vals))[..m]);
      && |top| == m
      && (forall j :: 0 <= j < m ==> top[j] in col)
      && (forall j, j' :: 0 <= j < j' < m ==> top[j] != top[j'])
      && (forall j, j' :: 0 <= j < j' < m ==> Occurrences(col, top[j]) >= Occurrences(col, top[j']))
  {
    var counts := Counts(col, vals);
    var rank := RankDescending(counts);
    var top := Gather(vals, rank[..m]);
    forall j | 0 <= j < m
      ensures top[j] in col && Occurrences(col, top[j]) as real == counts[rank[j]]
    {
      assert top[j] == vals[rank[j]];
    }
    forall j, j' | 0 <= j < j' < m
      ensures top[j] != top[j'] && Occurrences(col, top[j]) >= Occurrences(col, top[j'])
    {
      assert rank[j] != rank[j'] && counts[rank[j]] >= counts[rank[j']];
      assert top[j] == vals[rank[j]] && top[j'] == vals[rank[j']];
    }
  }

  /** The frequency of each of `vals` in `col`, as the ranking keys. */
  function Counts(col: seq<Cell>, vals: seq<Cell>): (k: seq<real>)
    ensures |k| == |vals|
    ensures forall j :: 0 <= j < |vals| ==> k[j] == Occurrences(col, vals[j]) as real
  {
    seq(|vals|, j requires 0 <= j < |vals| => Occurrences(col, vals[j]) as real)
  }

  /** A value left out of the top n occurs no more often than any value kept. */
  lemma TopValuesDominate(col: seq<Cell>, n: nat, v: Cell)
    requires v in col && v !in TopValues(col, n)
    ensures forall j :: 0 <= j < |TopValues(col, n)| ==> Occurrences(col, v) <= Occurrences(col, TopValues(col, n)[j])
  {
    var vals := DistinctValues(col);
    var counts := Counts(col, vals);
    var rank := RankDescending(counts);
    var m := Min(n, |vals|);
    var top := TopValues(col, n);
    var i :| 0 <= i < |col| && col[i] == v;
    assert v in vals;
    var c :| 0 <= c < |vals| && vals[c] == v;
    assert forall p :: 0 <= p < m ==> top[p] == vals[rank[p]];
    assert c !in rank[..m];
    TopOfRanking(counts, m, c);
    forall j | 0 <= j < |top|
      ensures Occurrences(col, v) <= Occurrences(col, top[j])
    {
      assert top[j] == vals[rank[j]];
      assert counts[c] <= counts[rank[j]];
    }
  }

  /** With at most n distinct values nothing is left out of the top n. */
  lemma TopValuesAll(col: seq<Cell>, n: nat)
    requires |DistinctValues(col)| <= n
    ensures forall i :: 0 <= i < |col| ==> col[i] in TopValues(col, n)
  {
    var vals := DistinctValues(col);
    var rank := RankDescending(Counts(col, vals));
    var top := TopValues(col, n);
    assert rank[..|vals|] == rank;
    forall i | 0 <= i < |col|
      ensures col[i] in top
    {
      var c :| 0 <= c < |vals| && vals[c] == col[i];
      assert c in rank;
      var p :| 0 <= p < |rank| && rank[p] == c;
      assert top[p] == col[i];
    }
  }

  /** The mask `col.isin(top)`. */
  function InMask(col: seq<Cell>, top: seq<Cell>): (m: seq<bool>)
    ensures |m| == |col|
    ensures forall i :: 0 <= i < |col| ==> (m[i] <==> col[i] in top)
  {
    seq(|col|, i requires 0 <= i < |col| => col[i] in top)
  }

  /** `data[data['srcip'].isin(value_counts().index[:20])]`: the rows whose
      source address is one of the 20 most frequent, in order, so at most 20
      distinct addresses remain. */
  function KeepTopSrcip(f: Frame): (r: Frame)
    requires WellFormed(f) && SrcIp in f.data
    ensures WellFormed(r) && SelectedBy(r, f, InMask(f.data[SrcIp], TopValues(f.data[SrcIp], 20)))
    ensures forall i :: 0 <= i < r.height ==> r.data[SrcIp][i] in TopValues(f.data[SrcIp], 20)
    ensures |DistinctValues(r.data[SrcIp])| <= 20
  {
    var top := TopValues(f.data[SrcIp], 20);
    var r := FilterRows(f, InMask(f.data[SrcIp], top));
    Survives(r, f, InMask(f.data[SrcIp], top), SrcIp, Among(top));
    DistinctWithin(DistinctValues(r.data[SrcIp]), top);
    r
  }

  /** Every row whose source address is one of the 20 most frequent survives,
      after the surviving rows before it. */
  lemma KeepTopSrcipKeeps(f: Frame, p: nat)
    requires WellFormed(f) && SrcIp in f.data && p < f.height
    requires f.data[SrcIp][p] in TopValues(f.data[SrcIp], 20)
    ensures var r, j := KeepTopSrcip(f), CountTrue(InMask(f.data[SrcIp], TopValues(f.data[SrcIp], 20))[..p]);
      j < r.height && forall c :: c in r.data ==> r.data[c][j] == f.data[c][p]
  {
    SelectedHas(KeepTopSrcip(f), f, InMask(f.data[SrcIp], TopValues(f.data[SrcIp], 20)), p);
  }

  /** The cell tests the row filters make. */
  datatype CellTest = PortValid | IsInteger | Among(values: seq<Cell>)

  predicate Passes(t: CellTest, x: Cell)
  {
    match t
    case PortValid => !CellEquals(x, -1)
    case IsInteger => x.IntCell?
    case Among(values) => x in values
  }

  /** When every marked row passes a test on column `c`, every row of the
      selection passes it. */
  lemma Survives(r: Frame, f: Frame, mask: seq<bool>, c: Column, t: CellTest)
    requires WellFormed(f) && SelectedBy(r, f, mask) && c in f.data
    requires forall i :: 0 <= i < f.height && mask[i] ==> Passes(t, f.data[c][i])
    ensures forall i :: 0 <= i < r.height ==> Passes(t, r.data[c][i])
  {
    forall i | 0 <= i < r.height
      ensures Passes(t, r.data[c][i])
    {
      SelectedFrom(r, f, mask, i);
    }
  }

  /** What `preprocess` needs of its input: pandas raises KeyError on a missing column. */
  ghost predicate PreprocessReady(f: Frame, unwanted: seq<Column>)
  {
    && WellFormed(f)
    && (forall u :: u in unwanted ==> u in f.data)
    && Dsport in f.data && Dsport !in unwanted
    && Sport in f.data && Sport !in unwanted
    && SrcIp in f.data && SrcIp !in unwanted
  }

  /** The frame the row filters of `preprocess` work on: the unwanted columns
      dropped and `dsport` converted. */
  function Converted(f: Frame, unwanted: seq<Column>): (g: Frame)
    requires PreprocessReady(f, unwanted)
    ensures WellFormed(g) && g.height == f.height
    ensures forall c :: c in g.data <==> c in f.data && c !in unwanted
    ensures forall c :: c in g.data && c != Dsport ==> g.data[c] == f.data[c]
    ensures forall i :: 0 <= i < f.height ==> g.data[Dsport][i] == ConvertToDecimal(f.data[Dsport][i])
  {
    ConvertDsport(DropColumns(f, unwanted))
  }

  /** The frame `preprocess` returns: the three row filters applied in turn
      to the converted frame. */
  function Preprocessed(f: Frame, unwanted: seq<Column>): (r: Frame)
    requires PreprocessReady(f, unwanted)
    ensures WellFormed(r) && r.height <= f.height
    ensures Dsport in r.data && Sport in r.data && SrcIp in r.data
    ensures forall i :: 0 <= i < r.height ==> !CellEquals(r.data[Dsport][i], -1)
    ensures forall i :: 0 <= i < r.height ==> r.data[Sport][i].IntCell?
    ensures |DistinctValues(r.data[SrcIp])| <= 20
  {
    var f2 := DropInvalidDsport(Converted(f, unwanted));
    LaterFiltersKeepPorts(f2);
    KeepTopSrcip(KeepIntSport(f2))
  }

  /** The source-port and source-address filters keep only rows that already
      passed the destination-port filter, and rows whose source port is an
      integer. */
  lemma LaterFiltersKeepPorts(f2: Frame)
    requires WellFormed(f2) && Dsport in f2.data && Sport in f2.data && SrcIp in f2.data
    requires forall i :: 0 <= i < f2.height ==> !CellEquals(f2.data[Dsport][i], -1)
    ensures var r := KeepTopSrcip(KeepIntSport(f2));
      && (forall i :: 0 <= i < r.height ==> !CellEquals(r.data[Dsport][i], -1))
      && (forall i :: 0 <= i < r.height ==> r.data[Sport][i].IntCell?)
  {
    var f3 := KeepIntSport(f2);
    var r := KeepTopSrcip(f3);
    var m2 := SportIsInt(f2.data[Sport]);
    var m3 := InMask(f3.data[SrcIp], TopValues(f3.data[SrcIp], 20));
    Survives(f3, f2, m2, Dsport, PortValid);
    Survives(r, f3, m3, Dsport, PortValid);
    Survives(r, f3, m3, Sport, IsInteger);
  }

  /** The source addresses `preprocess` keeps: the 20 most frequent among the
      rows that pass the two port filters, since `value_counts` runs after
      them. */
  function SrcipTop(f: Frame, unwanted: seq<Column>): seq<Cell>
    requires PreprocessReady(f, unwanted)
  {
    TopValues(KeepIntSport(DropInvalidDsport(Converted(f, unwanted))).data[SrcIp], 20)
  }

  /** Row p of the converted frame passes the three row filters. */
  predicate PassesFilters(g: Frame, top: seq<Cell>, p: nat)
    requires WellFormed(g) && Dsport in g.data && Sport in g.data && SrcIp in g.data && p < g.height
  {
    !CellEquals(g.data[Dsport][p], -1) && g.data[Sport][p].IntCell? && g.data[SrcIp][p] in top
  }

  /** The positions, in the converted frame, of the rows `preprocess` keeps. */
  function PreprocessedPositions(f: Frame, unwanted: seq<Column>): (pos: seq<nat>)
    requires PreprocessReady(f, unwanted)
    ensures |pos| == Preprocessed(f, unwanted).height
  {
    var g := Converted(f, unwanted);
    var f2 := DropInvalidDsport(g);
    var f3 := KeepIntSport(f2);
    Selected3(DsportValid(g.data[Dsport]), SportIsInt(f2.data[Sport]), InMask(f3.data[SrcIp], SrcipTop(f, unwanted)))
  }

  /** Row j of the preprocessed frame is the converted frame's row at
      position `pos[j]`, and that row passes the three filters. */
  lemma PreprocessedRowFrom(f: Frame, unwanted: seq<Column>, j: nat)
    requires PreprocessReady(f, unwanted) && j < Preprocessed(f, unwanted).height
    ensures var r, g, pos := Preprocessed(f, unwanted), Converted(f, unwanted), PreprocessedPositions(f, unwanted);
      && pos[j] < f.height && PassesFilters(g, SrcipTop(f, unwanted), pos[j])
      && forall c :: c in r.data ==> r.data[c][j] == g.data[c][pos[j]]
  {
    var g := Converted(f, unwanted);
    var f2 := DropInvalidDsport(g);
    var f3 := KeepIntSport(f2);
    Selected3From(g, f2, f3, KeepTopSrcip(f3), DsportValid(g.data[Dsport]), SportIsInt(f2.data[Sport]),
      InMask(f3.data[SrcIp], SrcipTop(f, unwanted)), j);
  }

  /** The kept positions increase: `preprocess` keeps the input order. */
  lemma PreprocessedOrder(f: Frame, unwanted: seq<Column>)
    requires PreprocessReady(f, unwanted)
    ensures Increasing(PreprocessedPositions(f, unwanted))
  {
    var g := Converted(f, unwanted);
    var f2 := DropInvalidDsport(g);
    var f3 := KeepIntSport(f2);
    Selected3Increasing(DsportValid(g.data[Dsport]), SportIsInt(f2.data[Sport]), InMask(f3.data[SrcIp], SrcipTop(f, unwanted)));
  }

  /** Every row of the converted frame that passes the three filters is kept. */
  lemma PreprocessedKeeps(f: Frame, unwanted: seq<Column>, p: nat)
    requires PreprocessReady(f, unwanted) && p < f.height
    requires PassesFilters(Converted(f, unwanted), SrcipTop(f, unwanted), p)
    ensures p in PreprocessedPositions(f, unwanted)
  {
    var g := Converted(f, unwanted);
    var f2 := DropInvalidDsport(g);
    var f3 := KeepIntSport(f2);
    var m1 := DsportValid(g.data[Dsport]);
    var m2 := SportIsInt(f2.data[Sport]);
    var m3 := InMask(f3.data[SrcIp], SrcipTop(f, unwanted));
    SelectedHas(f2, g, m1, p);
    var a := CountTrue(m1[..p]);
    SelectedHas(f3, f2, m2, a);
    var b := CountTrue(m2[..a]);
    Selected3Has(m1, m2, m3, p, a, b);
  }

  /** The rows `preprocess` keeps are exactly the rows of the converted frame
      that pass the three filters, in their original order. */
  lemma PreprocessedRows(f: Frame, unwanted: seq<Column>)
    requires PreprocessReady(f, unwanted)
    ensures var r, g, pos := Preprocessed(f, unwanted), Converted(f, unwanted), PreprocessedPositions(f, unwanted);
      && |pos| == r.height
      && (forall j :: 0 <= j < |pos| ==> pos[j] < f.height && PassesFilters(g, SrcipTop(f, unwanted), pos[j]))
      && (forall j, c :: 0 <= j < |pos| && c in r.data ==> r.data[c][j] == g.data[c][pos[j]])
      && (forall j, j' :: 0 <= j < j' < |pos| ==> pos[j] < pos[j'])
      && (forall p :: 0 <= p < f.height && PassesFilters(g, SrcipTop(f, unwanted), p) ==> p in pos)
  {
    var r, g, pos := Preprocessed(f, unwanted), Converted(f, unwanted), PreprocessedPositions(f, unwanted);
    forall j | 0 <= j < |pos|
      ensures pos[j] < f.height && PassesFilters(g, SrcipTop(f, unwanted), pos[j])
      ensures forall c :: c in r.data ==> r.data[c][j] == g.data[c][pos[j]]
    {
      PreprocessedRowFrom(f, unwanted, j);
    }
    PreprocessedOrder(f, unwanted);
    forall p | 0 <= p < f.height && PassesFilters(g, SrcipTop(f, unwanted), p)
      ensures p in pos
    {
      PreprocessedKeeps(f, unwanted, p);
    }
  }

  /** `preprocess` keeps exactly the columns that are not unwanted. */
  lemma PreprocessedColumns(f: Frame, unwanted: seq<Column>, c: Column)
    requires PreprocessReady(f, unwanted)
    ensures c in Preprocessed(f, unwanted).data <==> c in f.data && c !in unwanted
  {
  }

  // ---------------------------------------------------------------------------
  // cut_data

  /** The mask `data['Label'] == v`. */
  function LabelMask(col: seq<Cell>, v: int): (m: seq<bool>)
    ensures |m| == |col|
    ensures forall i :: 0 <= i < |col| ==> m[i] == CellEquals(col[i], v)
  {
    seq(|col|, i requires 0 <= i < |col| => CellEquals(col[i], v))
  }

  /** `cut_data`: the first min(nrows, rows) rows, or, to fix the imbalance,
      the first half of that many label-0 rows followed by the first half of
      that many label-1 rows. */
  function CutData(f: Frame, nrows: nat, fixImbalance: bool): (r: Frame)
    requires WellFormed(f) && (fixImbalance ==> LabelColumn in f.data)
    ensures WellFormed(r) && r.data.Keys == f.data.Keys
    ensures r.height <= Min(nrows, f.height)
    ensures !fixImbalance ==> r.height == Min(nrows, f.height)
  {
    var n := Min(nrows, f.height);
    if fixImbalance then
      var d0 := FilterRows(f, LabelMask(f.data[LabelColumn], 0));
      var d1 := FilterRows(f, LabelMask(f.data[LabelColumn], 1));
      ConcatRows(HeadRows(d0, n / 2), HeadRows(d1, n / 2))
    else
      HeadRows(f, n)
  }

  /** Without fixing the imbalance the cut is the first rows of every column;
      with it, each column is its first label-0 rows followed by its first
      label-1 rows, at most half the budget of each. */
  lemma CutDataRows(f: Frame, nrows: nat, fixImbalance: bool, c: Column)
    requires WellFormed(f) && (fixImbalance ==> LabelColumn in f.data) && c in f.data
    ensures !fixImbalance ==> CutData(f, nrows, false).data[c] == f.data[c][..Min(nrows, f.height)]
    ensures fixImbalance ==>
      var half := Min(nrows, f.height) / 2;
      var m0, m1 := LabelMask(f.data[LabelColumn], 0), LabelMask(f.data[LabelColumn], 1);
      var h0, h1 := Min(half, CountTrue(m0)), Min(half, CountTrue(m1));
      && CutData(f, nrows, true).height == h0 + h1
      && CutData(f, nrows, true).data[c] == Keep(f.data[c], m0)[..h0] + Keep(f.data[c], m1)[..h1]
  {
  }

  /** With the imbalance fixed, the cut holds label-0 rows first and label-1
      rows after them, as many of each as there are up to half the budget. */
  lemma CutDataLabels(f: Frame, nrows: nat)
    requires WellFormed(f) && LabelColumn in f.data
    ensures var r := CutData(f, nrows, true);
      var half := Min(nrows, f.height) / 2;
      var h0 := Min(half, CountTrue(LabelMask(f.data[LabelColumn], 0)));
      && h0 <= r.height
      && (forall i :: 0 <= i < h0 ==> CellEquals(r.data[LabelColumn][i], 0))
      && (forall i :: h0 <= i < r.height ==> CellEquals(r.data[LabelColumn][i], 1))
  {
    var lab := f.data[LabelColumn];
    var m0, m1 := LabelMask(lab, 0), LabelMask(lab, 1);
    CutDataRows(f, nrows, true, LabelColumn);
    KeepAt(lab, m0);
    KeepAt(lab, m1);
  }

  // ---------------------------------------------------------------------------
  // bitwise

  /** The name pandas gives a column: a bit column of address `p` at position
      `i` is `f'{p}_bit_{i}'`. */
  function ColumnName(c: Column): string
  {
    match c
    case Named(s) => s
    case Bit(p, i) => p + "_bit_" + Format(i, 10)
  }

  predicate IsIpColumn(p: string)
  {
    p == "dstip" || p == "srcip"
  }

  /** The name of a bit column is fresh: it is neither an address column nor
      one of the temporary bit-string columns. */
  lemma BitNameFresh(p: string, i: nat)
    requires IsIpColumn(p)
    ensures ColumnName(Bit(p, i)) != "dstip_bin" && ColumnName(Bit(p, i)) != "srcip_bin"
    ensures ColumnName(Bit(p, i)) != "dstip" && ColumnName(Bit(p, i)) != "srcip"
  {
    assert ColumnName(Bit(p, i))[8] == 't';
    assert |ColumnName(Bit(p, i))| > 10;
  }

  /** Different bit columns get different names, so keying bit columns by
      address and position loses nothing. */
  lemma BitNamesDiffer(p: string, i: nat, q: string, j: nat)
    requires IsIpColumn(p) && IsIpColumn(q) && (p != q || i != j)
    ensures ColumnName(Bit(p, i)) != ColumnName(Bit(q, j))
  {
    var a, b := ColumnName(Bit(p, i)), ColumnName(Bit(q, j));
    if a == b {
      assert a[0] == p[0] && b[0] == q[0];
      assert p == q;
      assert a[10..] == Format(i, 10);
      assert b[10..] == Format(j, 10);
      FormatValue(i, 10);
      FormatValue(j, 10);
      assert false;
    }
  }

  const DstIp := Named("dstip")
  const DstBin := Named("dstip_bin")
  const SrcBin := Named("srcip_bin")

  /** A string cell that `ip_to_bin` converts, with a digit at each of the
      first 32 positions (`int(x[i])` raises otherwise). */
  predicate IpCellReady(c: Cell)
  {
    c.StrCell? && IpToBin(c.s).Some? && BitString(IpToBin(c.s).value)
  }

  /** The number of bits of an IPv4 address, the length of `range(32)` in `bitwise`. */
  const BitWidth: nat := 32

  /** At least 32 characters, the first 32 of them decimal digits. */
  predicate BitString(s: string)
  {
    |s| >= BitWidth && forall i :: 0 <= i < BitWidth ==> IsDigitIn(s[i], 10)
  }

  /** Every dotted quad of octets is accepted by `bitwise`. */
  lemma DottedQuadReady(octets: seq<nat>)
    requires |octets| == 4 && forall i :: 0 <= i < 4 ==> IsOctet(octets[i])
    ensures IpCellReady(StrCell(FormatIp(octets)))
  {
    IpToBinOctets(octets);
  }

  /** What `bitwise` needs: both address columns, every address convertible. */
  ghost predicate BitwiseReady(f: Frame)
  {
    && WellFormed(f)
    && DstIp in f.data && SrcIp in f.data
    && (forall r :: 0 <= r < f.height ==> IpCellReady(f.data[DstIp][r]))
    && (forall r :: 0 <= r < f.height ==> IpCellReady(f.data[SrcIp][r]))
  }

  /** A column of bit strings with a digit at each of the first 32 positions. */
  predicate BitsReady(col: seq<Cell>)
  {
    forall r :: 0 <= r < |col| ==> col[r].StrCell? && BitString(col[r].s)
  }

  /** `data[ip].apply(ip_to_bin)`. */
  function BinColumn(col: seq<Cell>): (r: seq<Cell>)
    requires forall k :: 0 <= k < |col| ==> IpCellReady(col[k])
    ensures |r| == |col| && BitsReady(r)
    ensures forall k :: 0 <= k < |col| ==> IpCellReady(col[k]) && r[k] == StrCell(IpToBin(col[k].s).value)
  {
    seq(|col|, k requires 0 <= k < |col| && IpCellReady(col[k]) => StrCell(IpToBin(col[k].s).value))
  }

  /** `data[bin].apply(lambda x: int(x[i]))`. */
  function BitColumn(col: seq<Cell>, i: nat): (r: seq<Cell>)
    requires BitsReady(col) && i < BitWidth
    ensures |r| == |col|
    ensures forall k :: 0 <= k < |col| ==> r[k].IntCell? && 0 <= r[k].i <= 9 && r[k].i == col[k].s[i] as int - '0' as int
  {
    seq(|col|, k requires 0 <= k < |col| => IntCell(DigitValue(col[k].s[i])))
  }

  /** The two temporary bit-string columns are present and ready. */
  predicate BinsReady(d: Frame)
  {
    && DstBin in d.data && SrcBin in d.data
    && BitsReady(d.data[DstBin]) && BitsReady(d.data[SrcBin])
  }

  /** The frame with the two temporary bit-string columns added. */
  function Binned(f: Frame): (r: Frame)
    requires BitwiseReady(f)
    ensures WellFormed(r) && r.height == f.height && BinsReady(r)
    ensures r.data[DstBin] == BinColumn(f.data[DstIp]) && r.data[SrcBin] == BinColumn(f.data[SrcIp])
  {
    var d := SetColumn(f, DstBin, BinColumn(f.data[DstIp]));
    SetColumn(d, SrcBin, BinColumn(f.data[SrcIp]))
  }


  /** One round of the bit loop: the two columns of position i. */
  function BitRound(d: Frame, i: nat): (r: Frame)
    requires WellFormed(d) && BinsReady(d) && i < BitWidth
    ensures WellFormed(r) && r.height == d.height && BinsReady(r)
    ensures r.data[DstBin] == d.data[DstBin] && r.data[SrcBin] == d.data[SrcBin]
  {
    var mid := SetColumn(d, Bit("dstip", i), BitColumn(d.data[DstBin], i));
    SetColumn(mid, Bit("srcip", i), BitColumn(mid.data[SrcBin], i))
  }

  /** The frame after the first n rounds of the bit loop. */
  function WithBits(d: Frame, n: nat): (r: Frame)
    requires WellFormed(d) && BinsReady(d) && n <= BitWidth
    ensures WellFormed(r) && r.height == d.height && BinsReady(r)
    ensures r.data[DstBin] == d.data[DstBin] && r.data[SrcBin] == d.data[SrcBin]
  {
    if n == 0 then d else BitRound(WithBits(d, n - 1), n - 1)
  }

  /** A bit column of an address at a position below n. */
  predicate BitBelow(c: Column, n: nat)
  {
    c.Bit? && IsIpColumn(c.address) && c.position < n
  }

  /** After n rounds a column is present exactly when it was before or is a
      bit column of a position below n, and any other column is as before. */
  lemma {:induction false} WithBitsColumn(d: Frame, n: nat, c: Column)
    requires WellFormed(d) && BinsReady(d) && n <= BitWidth
    ensures c in WithBits(d, n).data <==> c in d.data || BitBelow(c, n)
    ensures c in d.data && !BitBelow(c, n) ==> WithBits(d, n).data[c] == d.data[c]
  {
    if n > 0 {
      WithBitsColumn(d, n - 1, c);
    }
  }

  /** After n rounds, the bit columns of position k < n read bit k of the bit
      strings. */
  lemma {:induction false} WithBitsHas(d: Frame, n: nat, k: nat)
    requires WellFormed(d) && BinsReady(d) && k < n <= BitWidth
    ensures Bit("dstip", k) in WithBits(d, n).data && WithBits(d, n).data[Bit("dstip", k)] == BitColumn(d.data[DstBin], k)
    ensures Bit("srcip", k) in WithBits(d, n).data && WithBits(d, n).data[Bit("srcip", k)] == BitColumn(d.data[SrcBin], k)
  {
    if k < n - 1 {
      WithBitsHas(d, n - 1, k);
    }
  }

  /** Bit k of each address of `col`, as the integer `int(ip_to_bin(ip)[k])`. */
  function AddressBits(col: seq<Cell>, k: nat): (r: seq<Cell>)
    requires (forall row :: 0 <= row < |col| ==> IpCellReady(col[row])) && k < BitWidth
    ensures |r| == |col|
  {
    seq(|col|, row requires 0 <= row < |col| && IpCellReady(col[row]) => IntCell(DigitValue(IpToBin(col[row].s).value[k])))
  }

  /** Reading bit k of the bit-string column is reading bit k of each address. */
  lemma BitsOfBins(col: seq<Cell>, k: nat)
    requires (forall row :: 0 <= row < |col| ==> IpCellReady(col[row])) && k < BitWidth
    ensures BitColumn(BinColumn(col), k) == AddressBits(col, k)
  {
  }

  const TemporaryColumns: seq<Column> := [DstBin, SrcBin, DstIp, SrcIp]

  /** The frame `bitwise` returns: the bit-string columns added, the 64 bit
      columns added, then the addresses and bit strings dropped. */
  function Expanded(f: Frame): (r: Frame)
    requires BitwiseReady(f)
    ensures WellFormed(r) && r.height == f.height
  {
    var b := Binned(f);
    WithBitsColumn(b, BitWidth, DstIp);
    WithBitsColumn(b, BitWidth, SrcIp);
    DropColumns(WithBits(b, BitWidth), TemporaryColumns)
  }

  /** After `bitwise` the columns are the original ones other than the
      addresses, plus the 64 bit columns. */
  lemma ExpandedColumn(f: Frame, c: Column)
    requires BitwiseReady(f)
    ensures c in Expanded(f).data <==> (c in f.data && c !in TemporaryColumns) || BitBelow(c, BitWidth)
  {
    WithBitsColumn(Binned(f), BitWidth, c);
  }

  /** Column `dstip_bit_k` holds bit k of each destination address, and
      `srcip_bit_k` bit k of each source address. */
  lemma ExpandedBits(f: Frame, k: nat)
    requires BitwiseReady(f) && k < BitWidth
    ensures Bit("dstip", k) in Expanded(f).data && Expanded(f).data[Bit("dstip", k)] == AddressBits(f.data[DstIp], k)
    ensures Bit("srcip", k) in Expanded(f).data && Expanded(f).data[Bit("srcip", k)] == AddressBits(f.data[SrcIp], k)
  {
    WithBitsHas(Binned(f), BitWidth, k);
    BitsOfBins(f.data[DstIp], k);
    BitsOfBins(f.data[SrcIp], k);
  }

  /** Every other column passes through `bitwise` unchanged. */
  lemma ExpandedKeeps(f: Frame, c: Column)
    requires BitwiseReady(f) && c in f.data && c !in TemporaryColumns && !BitBelow(c, BitWidth)
    ensures c in Expanded(f).data && Expanded(f).data[c] == f.data[c]
  {
    WithBitsColumn(Binned(f), BitWidth, c);
  }

  /** The 2n labels of the bit columns of positions below n, destination and
      source alternating. */
  function BitNames(n: nat): (r: seq<Column>)
    ensures |r| == 2 * n
  {
    seq(2 * n, j requires 0 <= j < 2 * n => Bit(if j % 2 == 0 then "dstip" else "srcip", j / 2))
  }

  /** Each round of the name loop appends the two names of its position. */
  lemma BitNamesStep(n: nat)
    ensures BitNames(n + 1) == BitNames(n) + [Bit("dstip", n), Bit("srcip", n)]
  {
    var a, b := BitNames(n + 1), BitNames(n) + [Bit("dstip", n), Bit("srcip", n)];
    forall j | 0 <= j < 2 * n + 2
      ensures a[j] == b[j]
    {
      if j < 2 * n {
        assert a[j] == Bit(if j % 2 == 0 then "dstip" else "srcip", j / 2);
      } else {
        assert j / 2 == n;
      }
    }
  }

  /** The names appended to the categorical columns are exactly the bit columns. */
  lemma BitNamesMembers(n: nat, c: Column)
    ensures c in BitNames(n) <==> BitBelow(c, n)
  {
    if BitBelow(c, n) {
      var j := 2 * c.position + (if c.address == "dstip" then 0 else 1);
      assert BitNames(n)[j] == c;
    }
  }

  /** What `load_data` needs of the raw frame. */
  ghost predicate LoadReady(raw: Frame, unwanted: seq<Column>)
  {
    && PreprocessReady(raw, unwanted)
    && LabelColumn in raw.data && LabelColumn !in unwanted
  }

  /** Cutting keeps every column, so a frame ready to load stays ready. */
  lemma CutDataReady(raw: Frame, nrows: nat, fixImbalance: bool, unwanted: seq<Column>)
    requires LoadReady(raw, unwanted)
    ensures LoadReady(CutData(raw, nrows, fixImbalance), unwanted)
  {
    var r := CutData(raw, nrows, fixImbalance);
    assert r.data.Keys == raw.data.Keys;
  }

  /** The frame `load_data` builds before splitting off the labels: the cut,
      then the preprocessing. */
  function Loaded(raw: Frame, nrows: nat, fixImbalance: bool, unwanted: seq<Column>): (r: Frame)
    requires LoadReady(raw, unwanted)
    ensures WellFormed(r) && LabelColumn in r.data
  {
    CutDataReady(raw, nrows, fixImbalance, unwanted);
    PreprocessedColumns(CutData(raw, nrows, fixImbalance), unwanted, LabelColumn);
    Preprocessed(CutData(raw, nrows, fixImbalance), unwanted)
  }

  // ---------------------------------------------------------------------------
  // The loader object

  class UnswNb15 {
    const nrows: nat
    const unwantedColumns: seq<Column>
    const fixImbalance: bool
    var categoricalColumns: seq<Column>
    var data: Frame
    var labels: seq<Cell>

    /** Reads the configuration values and loads the (already read) CSV frame. */
    constructor (nrows: nat, categoricalColumns: seq<Column>, unwantedColumns: seq<Column>, fixImbalance: bool, raw: Frame)
      requires LoadReady(raw, unwantedColumns)
      ensures this.nrows == nrows && this.unwantedColumns == unwantedColumns && this.fixImbalance == fixImbalance
      ensures this.categoricalColumns == categoricalColumns
      ensures var pre := Loaded(raw, this.nrows, this.fixImbalance, this.unwantedColumns);
        && labels == pre.data[LabelColumn]
        && data == DropColumns(pre, [LabelColumn])
    {
      this.nrows := nrows;
      this.unwantedColumns := unwantedColumns;
      this.fixImbalance := fixImbalance;
      new;
      LoadData(raw);
      this.categoricalColumns := categoricalColumns;
    }

    /** `load_data`: cut, preprocess, then split the `Label` column off. */
    method LoadData(raw: Frame)
      requires LoadReady(raw, unwantedColumns)
      modifies this`data, this`labels
      ensures var pre := Loaded(raw, nrows, fixImbalance, unwantedColumns);
        && labels == pre.data[LabelColumn]
        && data == DropColumns(pre, [LabelColumn])
      ensures WellFormed(data) && |labels| == data.height && LabelColumn !in data.data
    {
      var cut := CutData(raw, nrows, fixImbalance);
      CutDataReady(raw, nrows, fixImbalance, unwantedColumns);
      var pre := Preprocess(cut);
      assert pre == Loaded(raw, nrows, fixImbalance, unwantedColumns);
      labels := pre.data[LabelColumn];
      data := DropColumns(pre, [LabelColumn]);
    }

    /** `preprocess`: drop the unwanted columns and apply the three row filters.
        The statements follow the method's reassignments of `data` one by one;
        `Preprocessed` is the specification they are proved to compute. */
    method Preprocess(f: Frame) returns (out: Frame)
      requires PreprocessReady(f, unwantedColumns)
      ensures out == Preprocessed(f, unwantedColumns)
    {
      out := DropColumns(f, unwantedColumns);
      out := ConvertDsport(out);
      out := DropInvalidDsport(out);
      out := KeepIntSport(out);
      out := KeepTopSrcip(out);
    }

    /** `bitwise`: expands both addresses into 32 integer bit columns each and
        records the new columns as categorical. The statements follow the
        method step by step, running its loops; `Expanded` is the
        specification they are proved to compute. */
    method Bitwise(f: Frame) returns (out: Frame)
      requires BitwiseReady(f)
      modifies this
      ensures out == Expanded(f)
      ensures categoricalColumns == old(categoricalColumns) + BitNames(BitWidth)
      ensures data == old(data) && labels == old(labels)
    {
      var d := SetColumn(f, DstBin, BinColumn(f.data[DstIp]));
      d := SetColumn(d, SrcBin, BinColumn(f.data[SrcIp]));
      d := AddBitColumns(d);
      WithBitsColumn(Binned(f), BitWidth, DstIp);
      WithBitsColumn(Binned(f), BitWidth, SrcIp);
      out := DropColumns(d, TemporaryColumns);
      categoricalColumns := AppendBitNames(categoricalColumns);
    }
  }

  /** The second `for i in range(32)` loop of `bitwise`: appends the names of
      the bit columns to the categorical columns. */
  method AppendBitNames(names: seq<Column>) returns (r: seq<Column>)
    ensures r == names + BitNames(BitWidth)
  {
    r := names;
    var j := 0;
    while j < BitWidth
      invariant 0 <= j <= BitWidth
      invariant r == names + BitNames(j)
    {
      BitNamesStep(j);
      r := r + [Bit("dstip", j)];
      r := r + [Bit("srcip", j)];
      j := j + 1;
    }
  }

  /** The first `for i in range(32)` loop of `bitwise`. */
  method AddBitColumns(binned: Frame) returns (d: Frame)
    requires WellFormed(binned) && BinsReady(binned)
    ensures d == WithBits(binned, BitWidth)
  {
    d := binned;
    var i := 0;
    while i < BitWidth
      invariant 0 <= i <= BitWidth
      invariant d == WithBits(binned, i)
    {
      d := SetColumn(d, Bit("dstip", i), BitColumn(d.data[DstBin], i));
      d := SetColumn(d, Bit("srcip", i), BitColumn(d.data[SrcBin], i));
      i := i + 1;
    }
  }
}
