/** Finite sums over sequences of naturals, as the counting arguments of the other modules need them. */
module Sums {

  ghost function Sum(s: seq<nat>): nat {
    if s == [] then 0 else s[0] + Sum(s[1..])
  }

  /** Changing one entry changes the sum by exactly that entry's difference. */
  lemma {:induction false} SumUpdate(s: seq<nat>, k: nat, v: nat)
    requires k < |s|
    ensures Sum(s[k := v]) + s[k] == Sum(s) + v
  {
    if k == 0 {
      assert s[0 := v][1..] == s[1..];
    } else {
      assert s[k := v][1..] == s[1..][k - 1 := v];
      SumUpdate(s[1..], k - 1, v);
    }
  }

  /** A pointwise bound bounds the sums, and equal sums force equal entries. */
  lemma {:induction false} SumBound(s: seq<nat>, t: seq<nat>)
    requires |s| == |t|
    requires forall i :: 0 <= i < |s| ==> s[i] <= t[i]
    ensures Sum(s) <= Sum(t)
    ensures Sum(s) == Sum(t) ==> s == t
  {
    if s != [] {
      SumBound(s[1..], t[1..]);
      assert s == [s[0]] + s[1..] && t == [t[0]] + t[1..];
    }
  }

  /** One entry never exceeds the sum, and neither do two different entries together. */
  lemma {:induction false} SumAtLeast(s: seq<nat>, i: nat, j: nat)
    requires i < |s| && j < |s|
    ensures s[i] <= Sum(s)
    ensures i != j ==> s[i] + s[j] <= Sum(s)
  {
    SumUpdate(s, i, 0);
    SumUpdate(s[i := 0], j, 0);
  }

  /** A sum with a single non-zero entry is that entry. */
  lemma {:induction false} SumSingle(s: seq<nat>, i: nat)
    requires i < |s|
    requires forall k :: 0 <= k < |s| && k != i ==> s[k] == 0
    ensures Sum(s) == s[i]
  {
    SumUpdate(s, i, 0);
    SumZero(s[i := 0]);
  }

  lemma {:induction false} SumZero(s: seq<nat>)
    requires forall k :: 0 <= k < |s| ==> s[k] == 0
    ensures Sum(s) == 0
  {
    if s != [] { SumZero(s[1..]); }
  }

  lemma {:induction false} SumAppend(s: seq<nat>, v: nat)
    ensures Sum(s + [v]) == Sum(s) + v
  {
    if s == [] {
      assert s + [v] == [v] && [v][1..] == [];
    } else {
      assert (s + [v])[1..] == s[1..] + [v];
      SumAppend(s[1..], v);
    }
  }
}
