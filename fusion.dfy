/** The verdict handling of `AnomalyDetector_FI.predict`. IsolationForest
    answers +1 for an inlier and -1 for an outlier; each answer becomes an
    inlier flag 1 or 0, the normal model's flags are kept inverted for
    reporting, and every row's pair of flags is fused into a label: 1 attack,
    0 normal, -1 unknown. */
module Fusion {

  predicate IsFlag(b: int)
  {
    b == 0 || b == 1
  }

  predicate IsLabel(v: int)
  {
    v == -1 || v == 0 || v == 1
  }

  /** `[1 if result == 1 else 0 for result in results]`. */
  function Flags(results: seq<int>): (flags: seq<int>)
    ensures |flags| == |results|
    ensures forall i :: 0 <= i < |flags| ==> IsFlag(flags[i]) && (flags[i] == 1 <==> results[i] == 1)
  {
    seq(|results|, i requires 0 <= i < |results| => if results[i] == 1 then 1 else 0)
  }

  /** `[0 if x == 1 else 1 for x in flags]`: the list stored for reporting,
      which marks the rows the normal model rejects. */
  function Complement(flags: seq<int>): (r: seq<int>)
    ensures |r| == |flags|
    ensures forall i :: 0 <= i < |r| ==> IsFlag(r[i]) && (r[i] == 1 <==> flags[i] != 1)
  {
    seq(|flags|, i requires 0 <= i < |flags| => if flags[i] == 1 then 0 else 1)
  }

  /** Inverting twice gives back the flags: the stored list determines the
      flags the fusion used. */
  lemma ComplementInvolution(flags: seq<int>)
    requires forall i :: 0 <= i < |flags| ==> IsFlag(flags[i])
    ensures Complement(Complement(flags)) == flags
  {
    var c := Complement(Complement(flags));
    forall i | 0 <= i < |flags|
      ensures c[i] == flags[i]
    {
      assert Complement(flags)[i] == 1 <==> flags[i] != 1;
    }
  }

  /** The label of one row from the attack model's and the normal model's
      inlier flags (the normal flags before inversion). */
  function Decide(attack: int, normal: int): (v: int)
    ensures IsLabel(v)
    ensures attack != 0 ==> v == 1
  {
    if attack == 0 && normal == 1 then 0
    else if attack == 0 && normal == 0 then -1
    else 1
  }

  /** On flags the label reads: attack exactly when the attack model accepts
      the row, normal exactly when only the normal model accepts it, unknown
      exactly when neither does. */
  lemma DecideMeaning(attack: int, normal: int)
    requires IsFlag(attack) && IsFlag(normal)
    ensures Decide(attack, normal) == 1 <==> attack == 1
    ensures Decide(attack, normal) == 0 <==> attack == 0 && normal == 1
    ensures Decide(attack, normal) == -1 <==> attack == 0 && normal == 0
  {
  }

  /** The same labels read from the stored (inverted) normal list: a row is
      normal exactly when the attack model rejects it and the stored list
      does not mark it. */
  lemma DecideFromReported(attackFlags: seq<int>, normalFlags: seq<int>, i: nat)
    requires |attackFlags| == |normalFlags| && i < |attackFlags|
    requires IsFlag(attackFlags[i]) && IsFlag(normalFlags[i])
    ensures Decide(attackFlags[i], normalFlags[i]) == 0 <==>
      attackFlags[i] == 0 && Complement(normalFlags)[i] == 0
    ensures Decide(attackFlags[i], normalFlags[i]) == -1 <==>
      attackFlags[i] == 0 && Complement(normalFlags)[i] == 1
  {
  }

  /** The `for i in range(total_points)` loop of `predict`: one label per row. */
  method FuseVerdicts(attackPrd: seq<int>, normalPrd: seq<int>, totalPoints: nat) returns (predictions: seq<int>)
    requires |attackPrd| == totalPoints && |normalPrd| == totalPoints
    ensures |predictions| == totalPoints
    ensures forall i :: 0 <= i < totalPoints ==> predictions[i] == Decide(attackPrd[i], normalPrd[i])
    ensures forall i :: 0 <= i < totalPoints ==> IsLabel(predictions[i])
  {
    predictions := [];
    var i := 0;
    while i < totalPoints
      invariant 0 <= i <= totalPoints
      invariant |predictions| == i
      invariant forall j :: 0 <= j < i ==> predictions[j] == Decide(attackPrd[j], normalPrd[j])
    {
      if attackPrd[i] == 0 && normalPrd[i] == 1 {
        predictions := predictions + [0];
      } else if attackPrd[i] == 0 && normalPrd[i] == 0 {
        predictions := predictions + [-1];
      } else {
        predictions := predictions + [1];
      }
      i := i + 1;
    }
  }
}
