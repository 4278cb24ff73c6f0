/** Sequence helpers shared by the detector and the dataset loader: NumPy's
    `np.where`, fancy indexing, and pandas' boolean-mask row selection. */
module Common {

  datatype Option<T> = None | Some(value: T)

  function Min(a: int, b: int): int
  {
    if a <= b then a else b
  }

  /** The positions of `xs` that hold `v`, in increasing order (`np.where(xs == v)[0]`). */
  function Where<T(==)>(xs: seq<T>, v: T): (r: seq<nat>)
    ensures forall j :: 0 <= j < |r| ==> r[j] < |xs| && xs[r[j]] == v
    ensures forall j, j' :: 0 <= j < j' < |r| ==> r[j] < r[j']
    ensures |r| <= |xs|
  {
    if |xs| == 0 then []
    else
      var prev := Where(xs[..|xs| - 1], v);
      if xs[|xs| - 1] == v then prev + [|xs| - 1] else prev
  }

  /** Every position that holds `v` is found. */
  lemma {:induction false} WhereComplete<T>(xs: seq<T>, v: T, i: nat)
    requires i < |xs| && xs[i] == v
    ensures i in Where(xs, v)
  {
    var n := |xs| - 1;
    if i < n {
      assert xs[..n][i] == xs[i];
      WhereComplete(xs[..n], v, i);
    }
  }

  predicate IndicesBelow(idx: seq<nat>, n: nat)
  {
    forall j :: 0 <= j < |idx| ==> idx[j] < n
  }

  /** The elements of `xs` at the positions `idx`, in that order (`xs[idx]`). */
  function Gather<T>(xs: seq<T>, idx: seq<nat>): (r: seq<T>)
    requires IndicesBelow(idx, |xs|)
    ensures |r| == |idx|
  {
    seq(|idx|, j requires 0 <= j < |idx| => xs[idx[j]])
  }

  /** Indexing with `idx` and then with `jdx` is indexing once with the
      positions `idx[jdx]`. */
  lemma GatherGather<T>(xs: seq<T>, idx: seq<nat>, jdx: seq<nat>)
    requires IndicesBelow(idx, |xs|) && IndicesBelow(jdx, |idx|)
    ensures IndicesBelow(Gather(idx, jdx), |xs|)
    ensures Gather(Gather(xs, idx), jdx) == Gather(xs, Gather(idx, jdx))
  {
  }

  /** The elements of `xs` whose mask entry is true, in order (`xs[mask]`):
      the elements at the positions where the mask is true. */
  function Keep<T>(xs: seq<T>, mask: seq<bool>): (r: seq<T>)
    requires |mask| == |xs|
    ensures |r| == CountTrue(mask)
  {
    WhereCount(mask);
    Gather(xs, Where(mask, true))
  }

  function CountTrue(mask: seq<bool>): (n: nat)
    ensures n <= |mask|
  {
    if |mask| == 0 then 0
    else CountTrue(mask[..|mask| - 1]) + (if mask[|mask| - 1] then 1 else 0)
  }

  /** A mask is true at exactly as many positions as it counts. */
  lemma {:induction false} WhereCount(mask: seq<bool>)
    ensures |Where(mask, true)| == CountTrue(mask)
  {
    if |mask| > 0 {
      WhereCount(mask[..|mask| - 1]);
    }
  }

  /** Each element a mask selection keeps is the element at a position where
      the mask is true. */
  lemma KeepAt<T>(xs: seq<T>, mask: seq<bool>)
    requires |mask| == |xs|
    ensures |Where(mask, true)| == |Keep(xs, mask)|
    ensures forall j :: 0 <= j < |Keep(xs, mask)| ==>
      Where(mask, true)[j] < |xs| && mask[Where(mask, true)[j]] && Keep(xs, mask)[j] == xs[Where(mask, true)[j]]
  {
  }

  /** `np.where` on a longer mask finds the positions of the shorter one and,
      when the new last entry is true, its position. */
  lemma WhereLast(mask: seq<bool>)
    requires |mask| > 0
    ensures Where(mask, true) ==
      Where(mask[..|mask| - 1], true) + (if mask[|mask| - 1] then [|mask| - 1] else [])
  {
  }

  /** A position where the mask is true is found, after as many positions as
      the mask is true before it. */
  lemma {:induction false} WhereAt(mask: seq<bool>, p: nat)
    requires p < |mask| && mask[p]
    ensures CountTrue(mask[..p]) < |Where(mask, true)|
    ensures Where(mask, true)[CountTrue(mask[..p])] == p
  {
    var n := |mask| - 1;
    var c := CountTrue(mask[..p]);
    WhereLast(mask);
    if p == n {
      WhereCount(mask[..n]);
    } else {
      assert mask[..n][..p] == mask[..p] && mask[..n][p];
      WhereAt(mask[..n], p);
      assert Where(mask, true)[c] == Where(mask[..n], true)[c];
    }
  }

  /** An element whose mask entry is true survives a mask selection, at the
      index that counts the true entries before it. */
  lemma KeepHas<T>(xs: seq<T>, mask: seq<bool>, p: nat)
    requires |mask| == |xs| && p < |xs| && mask[p]
    ensures CountTrue(mask[..p]) < |Keep(xs, mask)|
    ensures Keep(xs, mask)[CountTrue(mask[..p])] == xs[p]
  {
    WhereAt(mask, p);
    WhereCount(mask);
  }

  /** The positions, in the original sequence, of the elements that three
      successive mask selections keep: `m2` selects among what `m1` kept and
      `m3` among what `m2` kept. */
  function Selected3(m1: seq<bool>, m2: seq<bool>, m3: seq<bool>): (pos: seq<nat>)
    requires |m2| == CountTrue(m1) && |m3| == CountTrue(m2)
    ensures |pos| == CountTrue(m3)
  {
    WhereCount(m1);
    WhereCount(m2);
    WhereCount(m3);
    Gather(Gather(Where(m1, true), Where(m2, true)), Where(m3, true))
  }

  predicate Increasing(s: seq<nat>)
  {
    forall j, j' :: 0 <= j < j' < |s| ==> s[j] < s[j']
  }

  /** Picking increasing positions out of an increasing sequence gives an
      increasing sequence. */
  lemma GatherIncreasing(xs: seq<nat>, idx: seq<nat>)
    requires IndicesBelow(idx, |xs|) && Increasing(xs) && Increasing(idx)
    ensures Increasing(Gather(xs, idx))
  {
  }

  /** The positions increase: the three selections keep the original order. */
  lemma Selected3Increasing(m1: seq<bool>, m2: seq<bool>, m3: seq<bool>)
    requires |m2| == CountTrue(m1) && |m3| == CountTrue(m2)
    ensures Increasing(Selected3(m1, m2, m3))
  {
    var w1, w2, w3 := Where(m1, true), Where(m2, true), Where(m3, true);
    WhereCount(m1);
    WhereCount(m2);
    assert Increasing(w1) && Increasing(w2) && Increasing(w3);
    GatherIncreasing(w1, w2);
    GatherIncreasing(Gather(w1, w2), w3);
  }

  /** An element every selection marks, counting positions as each selection
      renumbers them, is kept. */
  lemma Selected3Has(m1: seq<bool>, m2: seq<bool>, m3: seq<bool>, p: nat, a: nat, b: nat)
    requires |m2| == CountTrue(m1) && |m3| == CountTrue(m2)
    requires p < |m1| && m1[p] && a == CountTrue(m1[..p])
    requires a < |m2| && m2[a] && b == CountTrue(m2[..a])
    requires b < |m3| && m3[b]
    ensures CountTrue(m3[..b]) < |Selected3(m1, m2, m3)|
    ensures Selected3(m1, m2, m3)[CountTrue(m3[..b])] == p
  {
    WhereAt(m1, p);
    WhereAt(m2, a);
    WhereAt(m3, b);
    WhereCount(m1);
    WhereCount(m2);
    WhereCount(m3);
  }

  /** Number of occurrences of `v` in `xs`. */
  function Occurrences<T(==)>(xs: seq<T>, v: T): nat
  {
    if |xs| == 0 then 0
    else Occurrences(xs[..|xs| - 1], v) + (if xs[|xs| - 1] == v then 1 else 0)
  }

  /** The distinct values of `xs` in order of first occurrence. */
  function DistinctValues<T(==)>(xs: seq<T>): (r: seq<T>)
    ensures forall j :: 0 <= j < |r| ==> r[j] in xs
    ensures forall i :: 0 <= i < |xs| ==> xs[i] in r
    ensures forall j, j' :: 0 <= j < j' < |r| ==> r[j] != r[j']
  {
    if |xs| == 0 then []
    else
      var prev := DistinctValues(xs[..|xs| - 1]);
      var last := xs[|xs| - 1];
      assert xs == xs[..|xs| - 1] + [last];
      if last in prev then prev else prev + [last]
  }

  /** A duplicate-free sequence whose elements all occur in `b` is no longer than `b`. */
  lemma {:induction false} DistinctWithin<T>(a: seq<T>, b: seq<T>)
    requires forall j, j' :: 0 <= j < j' < |a| ==> a[j] != a[j']
    requires forall j :: 0 <= j < |a| ==> a[j] in b
    ensures |a| <= |b|
  {
    if |a| > 0 {
      var n := |a| - 1;
      var x := a[n];
      var i :| 0 <= i < |b| && b[i] == x;
      var b' := b[..i] + b[i + 1..];
      forall j | 0 <= j < n
        ensures a[..n][j] in b'
      {
        var k :| 0 <= k < |b| && b[k] == a[j];
        if k < i {
          assert b'[k] == b[k];
        } else {
          assert b'[k - 1] == b[k];
        }
      }
      DistinctWithin(a[..n], b');
    }
  }
}
