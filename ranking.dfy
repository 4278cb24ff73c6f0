/** Ordering positions by a score, highest first: the shape of
    `np.argsort(scores)[::-1]` (feature importances) and of the index of
    `value_counts()` (value frequencies). Among equal scores the later position
    comes first, which is what reversing a stable ascending sort gives; no
    property below depends on that choice. */
module Ranking {

  predicate InRange(keys: seq<real>, r: seq<nat>)
  {
    forall j :: 0 <= j < |r| ==> r[j] < |keys|
  }

  predicate Distinct(r: seq<nat>)
  {
    forall j, j' :: 0 <= j < j' < |r| ==> r[j] != r[j']
  }

  /** Scores never increase along `r`. */
  predicate NonIncreasing(keys: seq<real>, r: seq<nat>)
    requires InRange(keys, r)
  {
    forall j, j' :: 0 <= j < j' < |r| ==> keys[r[j]] >= keys[r[j']]
  }

  /** Puts position `i` into the ranking `r` in front of the first position
      whose score does not exceed that of `i`. */
  function InsertByKey(keys: seq<real>, i: nat, r: seq<nat>): (r': seq<nat>)
    requires i < |keys| && InRange(keys, r)
    ensures |r'| == |r| + 1
  {
    if r == [] then [i]
    else if keys[r[0]] <= keys[i] then [i] + r
    else [r[0]] + InsertByKey(keys, i, r[1..])
  }

  /** Inserting adds exactly `i`. */
  lemma {:induction false} InsertByKeyMembers(keys: seq<real>, i: nat, r: seq<nat>)
    requires i < |keys| && InRange(keys, r)
    ensures InRange(keys, InsertByKey(keys, i, r))
    ensures forall x :: x in InsertByKey(keys, i, r) <==> x == i || x in r
  {
    if r != [] && keys[r[0]] > keys[i] {
      InsertByKeyMembers(keys, i, r[1..]);
      assert InsertByKey(keys, i, r) == [r[0]] + InsertByKey(keys, i, r[1..]);
      assert r == [r[0]] + r[1..];
    }
  }

  /** Inserting keeps a ranking sorted. */
  lemma {:induction false} InsertByKeySorted(keys: seq<real>, i: nat, r: seq<nat>)
    requires i < |keys| && InRange(keys, r) && NonIncreasing(keys, r)
    ensures InRange(keys, InsertByKey(keys, i, r))
    ensures NonIncreasing(keys, InsertByKey(keys, i, r))
  {
    InsertByKeyMembers(keys, i, r);
    if r != [] && keys[r[0]] > keys[i] {
      var rest := InsertByKey(keys, i, r[1..]);
      InsertByKeySorted(keys, i, r[1..]);
      InsertByKeyMembers(keys, i, r[1..]);
      assert InsertByKey(keys, i, r) == [r[0]] + rest;
      HeadDominates(keys, i, r, rest);
    }
  }

  /** Inserting a new position keeps a ranking free of duplicates. */
  lemma {:induction false} InsertByKeyDistinct(keys: seq<real>, i: nat, r: seq<nat>)
    requires i < |keys| && InRange(keys, r) && Distinct(r) && i !in r
    ensures Distinct(InsertByKey(keys, i, r))
  {
    if r != [] && keys[r[0]] > keys[i] {
      var rest := InsertByKey(keys, i, r[1..]);
      assert r == [r[0]] + r[1..];
      InsertByKeyDistinct(keys, i, r[1..]);
      InsertByKeyMembers(keys, i, r[1..]);
      assert InsertByKey(keys, i, r) == [r[0]] + rest;
      assert r[0] !in r[1..];
    }
  }

  /** When `i` goes behind the head of a ranking, the head still scores at
      least as high as everything after it. */
  lemma HeadDominates(keys: seq<real>, i: nat, r: seq<nat>, rest: seq<nat>)
    requires i < |keys| && InRange(keys, r) && InRange(keys, rest) && r != []
    requires keys[r[0]] > keys[i]
    requires forall x :: x in rest <==> x == i || x in r[1..]
    ensures NonIncreasing(keys, r) ==>
      forall j :: 0 <= j < |rest| ==> keys[rest[j]] <= keys[r[0]]
  {
    if NonIncreasing(keys, r) {
      forall j | 0 <= j < |rest|
        ensures keys[rest[j]] <= keys[r[0]]
      {
        if rest[j] != i {
          assert rest[j] in r[1..];
          var q :| 0 <= q < |r[1..]| && r[1..][q] == rest[j];
          assert r[q + 1] == rest[j];
        }
      }
    }
  }

  /** The positions 0 .. n-1 ranked by score. */
  function RankFirst(keys: seq<real>, n: nat): (r: seq<nat>)
    requires n <= |keys|
    ensures |r| == n && InRange(keys, r)
    ensures forall j :: 0 <= j < |r| ==> r[j] < n
    ensures forall i :: 0 <= i < n ==> i in r
    ensures NonIncreasing(keys, r) && Distinct(r)
  {
    if n == 0 then []
    else
      var prev := RankFirst(keys, n - 1);
      InsertByKeyMembers(keys, n - 1, prev);
      InsertByKeySorted(keys, n - 1, prev);
      InsertByKeyDistinct(keys, n - 1, prev);
      var r := InsertByKey(keys, n - 1, prev);
      assert forall j :: 0 <= j < |r| ==> r[j] in r;
      r
  }

  /** Every position of `keys` exactly once, highest score first. */
  function RankDescending(keys: seq<real>): (r: seq<nat>)
    ensures |r| == |keys| && InRange(keys, r)
    ensures forall i :: 0 <= i < |keys| ==> i in r
    ensures NonIncreasing(keys, r) && Distinct(r)
  {
    RankFirst(keys, |keys|)
  }

  /** The first m entries of the ranking are a top-m selection: no position left
      out scores higher than any position kept. */
  lemma TopOfRanking(keys: seq<real>, m: nat, c: nat)
    requires m <= |keys| && c < |keys|
    requires c !in RankDescending(keys)[..m]
    ensures forall j :: 0 <= j < m ==> keys[c] <= keys[RankDescending(keys)[j]]
  {
    var r := RankDescending(keys);
    assert c in r;
    var p :| 0 <= p < |r| && r[p] == c;
  }
}
