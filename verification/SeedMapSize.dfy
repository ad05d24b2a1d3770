/**
 How many codes a seed map has: the compiler allocates the right number of them.
 */
module SeedMapSize {
  import opened Bits
  import opened Sequences
  import opened Schedules
  import opened Combinations
  import opened ShareSets

  /** The share sets of all codes and generators, code by code. */
  function AllShareSets(seeds: seq<int>, n: nat): (r: seq<seq<int>>)
    requires n > 0
    ensures |r| == |seeds| * n
  {
    seq(|seeds| * n, e requires 0 <= e < |seeds| * n =>
      var at := RowParts(e, n, |seeds|);
      ShareSet(seeds[at.0], n, at.1 + 1))
  }

  function Shifted(c: seq<nat>): (T: seq<int>)
    ensures |T| == |c|
  {
    seq(|c|, i requires 0 <= i < |c| => c[i] + 1)
  }

  /** All sets of `t` parties. */
  function AllSubsets(n: nat, t: nat): (r: seq<seq<int>>)
  {
    var choices := Choices(n, t, 0);
    seq(|choices|, i requires 0 <= i < |choices| => Shifted(choices[i]))
  }

  lemma ShareSetAt(seeds: seq<int>, n: nat, s: nat, p: nat)
    requires s < |seeds| && 1 <= p <= n
    ensures s * n + (p - 1) < |AllShareSets(seeds, n)|
    ensures AllShareSets(seeds, n)[s * n + (p - 1)] == ShareSet(seeds[s], n, p)
  {
    hide ShareSet, RowParts;
    PartsOf(s, n, p - 1, |seeds|);
  }

  lemma ShareSetsListed(seeds: seq<int>, n: nat, t: nat)
    requires IsSeedMap(seeds, n, t) && n == 2 * t + 1
    ensures Distinct(AllShareSets(seeds, n))
    ensures forall T: seq<int> | T in AllShareSets(seeds, n) :: IsSubset(T, n, t)
  {
    hide ShareSet, IsSeedMap, IsSubset, RowParts;
    var all := AllShareSets(seeds, n);
    forall e, e' | 0 <= e < e' < |all| ensures all[e] != all[e'] {
      var at, at' := RowParts(e, n, |seeds|), RowParts(e', n, |seeds|);
      if all[e] == all[e'] {
        ShareSetsDistinct(seeds, n, t, at.0, at.1 + 1, at'.0, at'.1 + 1);
        assert false;
      }
    }
    forall e | 0 <= e < |all| ensures IsSubset(all[e], n, t) {
      var at := RowParts(e, n, |seeds|);
      ShareSetIsSubset(seeds, n, t, at.0, at.1 + 1);
    }
  }

  lemma SubsetsListed(n: nat, t: nat)
    ensures Distinct(AllSubsets(n, t)) && |AllSubsets(n, t)| == Binomial(n, t)
    ensures forall T: seq<int> :: T in AllSubsets(n, t) <==> IsSubset(T, n, t)
  {
    hide Choices, Binomial, Shifted;
    var choices, all := Choices(n, t, 0), AllSubsets(n, t);
    EveryChoiceOnce(n, t);
    forall i, j | 0 <= i < j < |all| ensures all[i] != all[j] {
      ShiftedInjective(choices[i], choices[j]);
    }
    forall T: seq<int> ensures T in all <==> IsSubset(T, n, t) {
      if T in all {
        var i :| 0 <= i < |all| && all[i] == T;
        assert choices[i] in choices;
        ShiftedChoice(choices[i], n, t);
      }
      if IsSubset(T, n, t) {
        var c := Unshifted(T, n, t);
        assert c in choices;
        var i :| 0 <= i < |choices| && choices[i] == c;
        assert all[i] == T;
      }
    }
  }

  lemma ShiftedInjective(c: seq<nat>, d: seq<nat>)
    requires c != d
    ensures Shifted(c) != Shifted(d)
  {
    if |c| == |d| {
      var i :| 0 <= i < |c| && c[i] != d[i];
      assert Shifted(c)[i] != Shifted(d)[i];
    }
  }

  lemma ShiftedChoice(c: seq<nat>, n: nat, t: nat)
    requires IsChoice(c, n, t, 0)
    ensures IsSubset(Shifted(c), n, t)
  {
  }

  lemma Unshifted(T: seq<int>, n: nat, t: nat) returns (c: seq<nat>)
    requires IsSubset(T, n, t)
    ensures IsChoice(c, n, t, 0) && Shifted(c) == T
  {
    c := seq(|T|, i requires 0 <= i < |T| => T[i] - 1);
  }

  /** A complete seed map has one code for every `n` sets of `t` parties. */
  lemma CompleteMapSize(seeds: seq<int>, n: nat, t: nat)
    requires n == 2 * t + 1 && t > 0 && IsSeedMap(seeds, n, t) && Complete(seeds, n, t)
    ensures |seeds| * n == Binomial(n, t)
  {
    hide AllShareSets, AllSubsets, IsSubset, IsSeedMap, Complete, Binomial, ShareSet;
    ShareSetsListed(seeds, n, t);
    SubsetsListed(n, t);
    var all := AllShareSets(seeds, n);
    forall T: seq<int> ensures T in all <==> T in AllSubsets(n, t) {
      if IsSubset(T, n, t) {
        var s, p := EverySubsetReached(seeds, n, t, T);
        ShareSetAt(seeds, n, s, p);
      }
    }
    SameMembersSameLength(all, AllSubsets(n, t));
  }

  /** The number of words that pass the compiler's test is what it allocates room for. */
  lemma CompilerMapSize(seeds: seq<nat>, n: nat, t: nat)
    requires n == 2 * t + 1 && t > 0 && IsCompilerMap(seeds, n, t)
    ensures |seeds| == Binomial(n, t) / n
  {
    hide Binomial, IsCompilerMap;
    CompilerMapComplete(seeds, n, t);
    CompleteMapSize(seeds, n, t);
    DivModUnique(|seeds| * n, n, |seeds|, 0);
  }

  // ----- there is such a map

  /** The words below `limit` that pass the test, in increasing order. */
  ghost function PassingBelow(n: nat, t: nat, limit: nat): (r: seq<nat>) {
    if limit == 0 then []
    else
      PassingBelow(n, t, limit - 1) +
      if LeastOfTurns(limit - 1, n) && Weight(limit - 1, n) == t + 1 then [limit - 1] else []
  }

  lemma {:induction false} PassingWords(n: nat, t: nat, limit: nat)
    ensures Distinct(PassingBelow(n, t, limit))
    ensures forall v: nat :: v in PassingBelow(n, t, limit) <==>
              v < limit && LeastOfTurns(v, n) && Weight(v, n) == t + 1
    decreases limit
  {
    hide LeastOfTurns, Weight;
    if limit > 0 {
      PassingWords(n, t, limit - 1);
      assert limit - 1 !in PassingBelow(n, t, limit - 1);
    }
  }

  lemma CompilerMapExists(n: nat, t: nat)
    ensures IsCompilerMap(PassingBelow(n, t, Pow2(n)), n, t)
  {
    hide Weight, PassingBelow, Pow2, TurnRight;
    PassingWords(n, t, Pow2(n));
  }
}
