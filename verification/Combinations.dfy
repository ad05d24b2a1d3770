/**
 The enumeration of all k-element choices by backtracking over one shared position vector.
 */
module Combinations {

  /** Choices of `k` increasing indices from `lo..n`, in lexicographic order. */
  function Choices(n: nat, k: nat, lo: nat): (r: seq<seq<nat>>)
    decreases n - lo, k
  {
    if k == 0 then [[]]
    else if lo >= n then []
    else Prepend(lo, Choices(n, k - 1, lo + 1)) + Choices(n, k, lo + 1)
  }

  function Prepend<T>(x: T, xss: seq<seq<T>>): (r: seq<seq<T>>)
    ensures |r| == |xss|
    ensures forall i | 0 <= i < |xss| :: r[i] == [x] + xss[i]
  {
    seq(|xss|, i requires 0 <= i < |xss| => [x] + xss[i])
  }

  predicate IsChoice(c: seq<nat>, n: nat, k: nat, lo: nat) {
    && |c| == k
    && (forall i | 0 <= i < |c| :: lo <= c[i] < n)
    && (forall i, j | 0 <= i < j < |c| :: c[i] < c[j])
  }

  lemma {:induction false} ChoicesSound(n: nat, k: nat, lo: nat, i: nat)
    requires i < |Choices(n, k, lo)|
    ensures IsChoice(Choices(n, k, lo)[i], n, k, lo)
    decreases n - lo, k
  {
    if k > 0 && lo < n {
      var first := Choices(n, k - 1, lo + 1);
      if i < |first| {
        ChoicesSound(n, k - 1, lo + 1, i);
      } else {
        ChoicesSound(n, k, lo + 1, i - |first|);
      }
    }
  }

  lemma ChoiceTail(c: seq<nat>, n: nat, k: nat, lo: nat)
    requires IsChoice(c, n, k, lo) && k > 0
    ensures lo <= c[0] < n
    ensures if c[0] == lo then IsChoice(c[1..], n, k - 1, lo + 1) else IsChoice(c, n, k, lo + 1)
  {
  }

  lemma {:induction false} ChoicesComplete(n: nat, k: nat, lo: nat, c: seq<nat>) returns (i: nat)
    requires IsChoice(c, n, k, lo)
    ensures i < |Choices(n, k, lo)| && Choices(n, k, lo)[i] == c
    decreases n - lo, k
  {
    if k == 0 {
      i := 0;
    } else {
      ChoiceTail(c, n, k, lo);
      var first := Choices(n, k - 1, lo + 1);
      assert Choices(n, k, lo) == Prepend(lo, first) + Choices(n, k, lo + 1);
      hide Choices, IsChoice;
      if c[0] == lo {
        i := ChoicesComplete(n, k - 1, lo + 1, c[1..]);
        assert c == [lo] + c[1..];
      } else {
        i := ChoicesComplete(n, k, lo + 1, c);
        i := |first| + i;
      }
    }
  }

  /** Lexicographic order on sequences of one length. */
  predicate Before(a: seq<nat>, b: seq<nat>)
    decreases |a|
  {
    a != [] && b != [] && (a[0] < b[0] || (a[0] == b[0] && Before(a[1..], b[1..])))
  }

  lemma {:induction false} ChoicesOrdered(n: nat, k: nat, lo: nat, i: nat, j: nat)
    requires i < j < |Choices(n, k, lo)|
    ensures Before(Choices(n, k, lo)[i], Choices(n, k, lo)[j])
    decreases n - lo, k
  {
    if k > 0 {
      var first := Choices(n, k - 1, lo + 1);
      var a, b := Choices(n, k, lo)[i], Choices(n, k, lo)[j];
      if j < |first| {
        ChoicesOrdered(n, k - 1, lo + 1, i, j);
        assert a[1..] == first[i] && b[1..] == first[j];
      } else if i < |first| {
        ChoicesSound(n, k, lo + 1, j - |first|);
        assert a[0] == lo < b[0];
      } else {
        ChoicesOrdered(n, k, lo + 1, i - |first|, j - |first|);
      }
    }
  }

  lemma {:induction false} BeforeIrreflexive(a: seq<nat>)
    ensures !Before(a, a)
    decreases |a|
  {
    if a != [] {
      BeforeIrreflexive(a[1..]);
    }
  }

  function Binomial(n: nat, k: nat): nat {
    if k == 0 then 1 else if n == 0 then 0 else Binomial(n - 1, k - 1) + Binomial(n - 1, k)
  }

  lemma {:induction false} ChoicesCount(n: nat, k: nat, lo: nat)
    requires lo <= n
    ensures |Choices(n, k, lo)| == Binomial(n - lo, k)
    decreases n - lo, k
  {
    if k > 0 && lo < n {
      ChoicesCount(n, k - 1, lo + 1);
      ChoicesCount(n, k, lo + 1);
    }
  }

  /** Every increasing choice occurs at exactly one place, earlier ones first. */
  lemma EveryChoiceOnce(n: nat, k: nat)
    ensures |Choices(n, k, 0)| == Binomial(n, k)
    ensures forall c: seq<nat> :: IsChoice(c, n, k, 0) <==> c in Choices(n, k, 0)
    ensures forall i, j | 0 <= i < j < |Choices(n, k, 0)| ::
              Before(Choices(n, k, 0)[i], Choices(n, k, 0)[j]) && Choices(n, k, 0)[i] != Choices(n, k, 0)[j]
  {
    hide Choices;
    ChoicesCount(n, k, 0);
    forall c: seq<nat> ensures IsChoice(c, n, k, 0) <==> c in Choices(n, k, 0) {
      if IsChoice(c, n, k, 0) {
        var i := ChoicesComplete(n, k, 0, c);
      }
      if c in Choices(n, k, 0) {
        var i :| 0 <= i < |Choices(n, k, 0)| && Choices(n, k, 0)[i] == c;
        ChoicesSound(n, k, 0, i);
      }
    }
    forall i, j | 0 <= i < j < |Choices(n, k, 0)|
      ensures Before(Choices(n, k, 0)[i], Choices(n, k, 0)[j]) && Choices(n, k, 0)[i] != Choices(n, k, 0)[j]
    {
      ChoicesOrdered(n, k, 0, i, j);
      BeforeIrreflexive(Choices(n, k, 0)[i]);
    }
  }

  /** The early return cuts off nothing. */
  lemma {:induction false} TooFewLeft(n: nat, k: nat, lo: nat)
    requires lo <= n && n - lo < k
    ensures Choices(n, k, lo) == []
    decreases n - lo, k
  {
    if lo < n {
      TooFewLeft(n, k - 1, lo + 1);
      TooFewLeft(n, k, lo + 1);
    }
  }

  // ----- the backtracking search

  /** The elements at the given positions. */
  function Pick(elements: seq<int>, at: seq<nat>): (r: seq<int>)
    requires forall i | 0 <= i < |at| :: at[i] < |elements|
    ensures |r| == |at| && forall i | 0 <= i < |at| :: r[i] == elements[at[i]]
  {
    seq(|at|, i requires 0 <= i < |at| => elements[at[i]])
  }

  /** What the search appends below a partly filled position vector. */
  ghost function Found(elements: seq<int>, chosen: seq<nat>, k: nat, lo: nat): (r: seq<seq<int>>)
    requires forall i | 0 <= i < |chosen| :: chosen[i] < |elements|
  {
    PickAll(elements, chosen, Choices(|elements|, k, lo))
  }

  ghost function PickAll(elements: seq<int>, chosen: seq<nat>, cs: seq<seq<nat>>): (r: seq<seq<int>>)
    requires forall i | 0 <= i < |chosen| :: chosen[i] < |elements|
    ensures |r| == |cs|
  {
    seq(|cs|, i requires 0 <= i < |cs| =>
      if forall j | 0 <= j < |cs[i]| :: cs[i][j] < |elements| then Pick(elements, chosen + cs[i]) else [])
  }

  /** A whole search finds one list for each choice: the elements at the chosen places, in order. */
  lemma FoundElements(elements: seq<int>, k: nat, i: nat, j: nat)
    requires i < |Choices(|elements|, k, 0)| && j < k
    ensures var c := Choices(|elements|, k, 0)[i];
            && i < |Found(elements, [], k, 0)| && j < |Found(elements, [], k, 0)[i]|
            && j < |c| && c[j] < |elements| && Found(elements, [], k, 0)[i][j] == elements[c[j]]
  {
    ChoicesSound(|elements|, k, 0, i);
    hide Choices;
    var c := Choices(|elements|, k, 0)[i];
    assert [] + c == c;
  }

  lemma PickAllConcat(elements: seq<int>, chosen: seq<nat>, cs: seq<seq<nat>>, ds: seq<seq<nat>>)
    requires forall i | 0 <= i < |chosen| :: chosen[i] < |elements|
    ensures PickAll(elements, chosen, cs + ds) == PickAll(elements, chosen, cs) + PickAll(elements, chosen, ds)
  {
  }

  lemma PickAllPrepend(elements: seq<int>, chosen: seq<nat>, x: nat, cs: seq<seq<nat>>)
    requires x < |elements| && forall i | 0 <= i < |chosen| :: chosen[i] < |elements|
    requires forall i, j | 0 <= i < |cs| && 0 <= j < |cs[i]| :: cs[i][j] < |elements|
    ensures PickAll(elements, chosen, Prepend(x, cs)) == PickAll(elements, chosen + [x], cs)
  {
    forall i | 0 <= i < |cs|
      ensures PickAll(elements, chosen, Prepend(x, cs))[i] == PickAll(elements, chosen + [x], cs)[i]
    {
      assert chosen + ([x] + cs[i]) == (chosen + [x]) + cs[i];
    }
  }

  lemma FoundSplit(elements: seq<int>, chosen: seq<nat>, k: nat, lo: nat)
    requires forall i | 0 <= i < |chosen| :: chosen[i] < |elements|
    requires k > 0 && lo < |elements|
    ensures Found(elements, chosen, k, lo)
         == Found(elements, chosen + [lo], k - 1, lo + 1) + Found(elements, chosen, k, lo + 1)
  {
    hide PickAll;
    var n := |elements|;
    var first := Choices(n, k - 1, lo + 1);
    forall i, j | 0 <= i < |first| && 0 <= j < |first[i]| ensures first[i][j] < n {
      ChoicesSound(n, k - 1, lo + 1, i);
    }
    PickAllPrepend(elements, chosen, lo, first);
    PickAllConcat(elements, chosen, Prepend(lo, first), Choices(n, k, lo + 1));
  }

  lemma FoundLeaf(elements: seq<int>, chosen: seq<nat>, lo: nat)
    requires forall i | 0 <= i < |chosen| :: chosen[i] < |elements|
    ensures Found(elements, chosen, 0, lo) == [Pick(elements, chosen)]
  {
    assert chosen + [] == chosen;
    assert Choices(|elements|, 0, lo) == [[]];
  }

  lemma FoundNone(elements: seq<int>, chosen: seq<nat>, k: nat, lo: nat)
    requires forall i | 0 <= i < |chosen| :: chosen[i] < |elements|
    requires lo <= |elements| && |elements| - lo < k
    ensures Found(elements, chosen, k, lo) == []
  {
    TooFewLeft(|elements|, k, lo);
  }

  /** The vectors that the search receives by reference. */
  class Search {
    var pos: seq<nat>
    var result: seq<seq<int>>

    constructor (reqLen: nat)
      ensures |pos| == reqLen && result == []
    {
      pos := seq(reqLen, i => 0);
      result := [];
    }

    /** `getCombinations`. Slots of `pos` from `depth` on may hold anything left by earlier calls. */
    method GetCombinations(elements: seq<int>, reqLen: nat, depth: nat, margin: nat)
      requires |pos| == reqLen && depth <= reqLen && margin <= |elements|
      requires forall i | 0 <= i < depth :: pos[i] < |elements|
      modifies this
      ensures |pos| == reqLen && pos[..depth] == old(pos)[..depth]
      ensures result == old(result) + Found(elements, old(pos)[..depth], reqLen - depth, margin)
      decreases reqLen - depth
    {
      hide Found;
      ghost var chosen := pos[..depth];
      if depth >= reqLen {
        var temp := [];
        for i := 0 to |pos|
          invariant temp == Pick(elements, pos[..i])
        {
          assert pos[..i + 1] == pos[..i] + [pos[i]];
          temp := temp + [elements[pos[i]]];
        }
        assert pos[..|pos|] == chosen;
        FoundLeaf(elements, chosen, margin);
        result := result + [temp];
        return;
      }
      if |elements| - margin < reqLen - depth {
        FoundNone(elements, chosen, reqLen - depth, margin);
        return;
      }
      ghost var start := result;
      ghost var all := Found(elements, chosen, reqLen - depth, margin);
      for i := margin to |elements|
        invariant |pos| == reqLen && pos[..depth] == chosen
        invariant result + Found(elements, chosen, reqLen - depth, i) == start + all
      {
        FoundSplit(elements, chosen, reqLen - depth, i);
        pos := pos[depth := i];
        assert pos[..depth + 1] == chosen + [i];
        ghost var rest := Found(elements, chosen, reqLen - depth, i + 1);
        ghost var below := Found(elements, chosen + [i], reqLen - (depth + 1), i + 1);
        ghost var before := result;
        GetCombinations(elements, reqLen, depth + 1, i + 1);
        assert pos[..depth] == pos[..depth + 1][..depth];
        Associate(before, below, rest);
      }
      FoundNone(elements, chosen, reqLen - depth, |elements|);
      assert result + [] == result;
    }
  }

  lemma Associate<T>(a: seq<T>, b: seq<T>, c: seq<T>)
    ensures (a + b) + c == a + (b + c)
  {
  }
}
