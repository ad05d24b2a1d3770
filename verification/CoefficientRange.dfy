/**
 For which numbers of parties the coefficients of all share sets are machine integers: for n = 2t + 1
 parties, exactly when t is at most 8.
 */
module CoefficientRange {
  import opened Sequences
  import opened Combinations
  import opened Polynomials
  import opened ShareSets

  /** The entries that the loop stores are those of the polynomial. */
  predicate EntriesExact(T: seq<int>, t: nat) {
    InMachine(Coefficients(Negated(T), t)) == Coefficients(Negated(T), t)
  }

  // ----- at most seventeen parties

  /** The product of the `k` numbers up to `top + 1`. */
  function Rising(top: nat, k: nat): (r: nat)
    requires k <= top + 1
  {
    if k == 0 then 1
    else
      NaturalProduct(top + 2 - k, Rising(top, k - 1));
      (top + 2 - k) * Rising(top, k - 1)
  }

  lemma NaturalProduct(a: nat, b: nat)
    ensures a * b >= 0
  {
  }

  lemma {:induction false} MagnitudeOfSubset(T: seq<int>, top: nat)
    requires Increasing(T) && forall i | 0 <= i < |T| :: 1 <= T[i] <= top
    ensures |T| <= top && 0 <= Magnitude(T) <= Rising(top, |T|)
  {
    if T != [] {
      var rest := T[1..];
      MagnitudeOfSubset(rest, top);
      HeadBelow(T, top);
      Scaled(1 + T[0], top + 2 - |T|, Magnitude(rest), Rising(top, |rest|));
    }
  }

  lemma {:induction false} HeadBelow(T: seq<int>, top: nat)
    requires T != [] && Increasing(T) && forall i | 0 <= i < |T| :: 1 <= T[i] <= top
    ensures T[0] + |T| <= top + 1
  {
    if |T| > 1 {
      HeadBelow(T[1..], top);
      assert T[0] < T[1] == T[1..][0];
    }
  }

  lemma Scaled(a: nat, b: nat, x: nat, y: nat)
    requires a <= b && x <= y
    ensures 0 <= a * x <= b * y
  {
    ScaledMonotone(a, x, y);
    ScaledMonotone(y, a, b);
  }

  /** The largest product is that of 11 to 18. */
  lemma SmallProducts(t: nat)
    requires t <= 8
    ensures Rising(2 * t + 1, t) <= 1764322560
  {
    assert Rising(1, 0) == 1;
    assert Rising(3, 1) == 4;
    assert Rising(5, 2) == 30;
    assert Rising(7, 3) == 336;
    assert Rising(9, 4) == 5040;
    assert Rising(11, 5) == 95040;
    assert Rising(13, 6) == 2162160;
    assert Rising(15, 7) == 57657600;
    assert Rising(17, 8) == 1764322560;
  }

  lemma SubsetsFit(T: seq<int>, n: nat, t: nat)
    requires n == 2 * t + 1 && t <= 8 && IsSubset(T, n, t)
    ensures AllFit(T, t) && EntriesExact(T, t)
  {
    hide Rising, AllFit, Elementary, Magnitude, InInt;
    MagnitudeOfSubset(T, n);
    SmallProducts(t);
    MagnitudeFits(T, t);
    AbsoluteMagnitude(T);
    forall j: nat | j <= t ensures ToInt(Elementary(Negated(T), j)) == Elementary(Negated(T), j) {
      EntriesBounded(Negated(T), j);
      BoundedInInt(Elementary(Negated(T), j), Magnitude(T));
    }
  }

  lemma BoundedInInt(x: int, bound: int)
    requires Abs(x) <= bound < 0x8000_0000
    ensures InInt(x)
  {
  }

  // ----- nineteen parties and more

  /** Members that are at least 10, 11, and so on. */
  predicate Large(T: seq<int>) {
    |T| >= 9 && forall i | 0 <= i < |T| :: T[i] >= 10 + i
  }

  lemma ProductGrows(T: seq<int>, k: nat, a: int)
    requires Large(T) && k < |T| && Product(T[..k]) >= a >= 1
    ensures Product(T[..k + 1]) >= a * (10 + k) >= a
  {
    hide Product;
    assert T[..k + 1] == T[..k] + [T[k]];
    ProductSnoc(T[..k], T[k]);
    Scaled(a, Product(T[..k]), 10 + k, T[k]);
    ScaledMonotone(a, 1, 10 + k);
  }

  /** Nine such members are enough: 10 times 11 up to 18 is beyond the range. */
  lemma NineFactors(T: seq<int>)
    requires Large(T)
    ensures Product(T[..9]) >= 17643225600
  {
    assert Product(T[..0]) == 1;
    hide Product, Large;
    ProductGrows(T, 0, 1);
    ProductGrows(T, 1, 10);
    ProductGrows(T, 2, 110);
    ProductGrows(T, 3, 1320);
    ProductGrows(T, 4, 17160);
    ProductGrows(T, 5, 240240);
    ProductGrows(T, 6, 3603600);
    ProductGrows(T, 7, 57657600);
    ProductGrows(T, 8, 980179200);
  }

  lemma {:induction false} ManyFactors(T: seq<int>, k: nat)
    requires Large(T) && 9 <= k <= |T|
    ensures Product(T[..k]) >= 17643225600
    decreases k
  {
    hide Product;
    if k == 9 {
      NineFactors(T);
    } else {
      ManyFactors(T, k - 1);
      ProductGrows(T, k - 1, 17643225600);
    }
  }

  lemma {:induction false} LastEntry(ys: seq<int>)
    ensures Elementary(ys, |ys|) == Product(ys)
  {
    if ys != [] {
      LastEntry(ys[1..]);
      ElementaryTooHigh(ys[1..], |ys|);
    }
  }

  lemma NegatedProduct(T: seq<int>, k: nat)
    requires k <= |T|
    ensures Abs(Product(Negated(T)[..k])) == Abs(Product(T[..k]))
  {
    ProductOfAbsolutes(Negated(T)[..k]);
    ProductOfAbsolutes(T[..k]);
    assert Absolutes(Negated(T)[..k]) == Absolutes(T[..k]);
  }

  /** The whole set is one of the combinations that are multiplied out. */
  lemma WholeSetChosen(ys: seq<int>) returns (i: nat)
    ensures i < |Found(ys, [], |ys|, 0)| && Found(ys, [], |ys|, 0)[i] == ys
  {
    hide Choices, Found;
    var c := seq(|ys|, k => k);
    i := ChoicesComplete(|ys|, |ys|, 0, c);
    FoundAt(ys, |ys|, i);
    assert Pick(ys, c) == ys;
  }

  /** Both a product that the loop forms and the last entry are out of range. */
  lemma LargeOverflows(T: seq<int>)
    requires Large(T)
    ensures !AllFit(T, |T|) && !InInt(Elementary(Negated(T), |T|)) && !EntriesExact(T, |T|)
  {
    hide Product, Elementary, Found, Large;
    var ys := Negated(T);
    ManyFactors(T, |T|) by { assert |T| >= 9 by { LargeLong(T); } }
    NegatedProduct(T, |T|);
    assert T[..|T|] == T && ys[..|T|] == ys;
    assert !InInt(Product(ys));
    LastEntry(ys);
    assert InMachine(Coefficients(ys, |T|))[|T|] == ToInt(Elementary(ys, |T|));
    var i := WholeSetChosen(ys);
    assert !ProductFits(Found(ys, [], |T|, 0)[i]) by { assert ys[..|ys|] == ys; }
    LargeLong(T);
    assert !SumFits(Found(ys, [], |T|, 0));
  }

  lemma LargeLong(T: seq<int>)
    requires Large(T)
    ensures |T| >= 9
  {
  }

  /** The `t` largest parties besides `q`. */
  function LargestWithout(t: nat, q: int): (T: seq<int>)
    ensures |T| == t
  {
    seq(t, i => if t + 1 + i >= q then t + 2 + i else t + 1 + i)
  }

  lemma LargestIsSubset(n: nat, t: nat, q: int)
    requires n == 2 * t + 1
    ensures IsSubset(LargestWithout(t, q), n, t) && q !in LargestWithout(t, q)
    ensures t >= 9 ==> Large(LargestWithout(t, q))
  {
  }

  // ----- the exact bound

  /** All sets of `t` parties that `q` is not in. */
  ghost predicate AllSetsFit(n: nat, t: nat, q: int) {
    forall T: seq<int> | IsSubset(T, n, t) && q !in T :: AllFit(T, t)
  }

  ghost predicate AllSetsExact(n: nat, t: nat, q: int) {
    forall T: seq<int> | IsSubset(T, n, t) && q !in T :: EntriesExact(T, t)
  }

  /** For every party, no coefficient of the sets it files keys under overflows, and what is stored is
      the polynomial, exactly with at most 17 parties. */
  lemma CoefficientsFitIff(n: nat, t: nat, q: int)
    requires n == 2 * t + 1
    ensures AllSetsFit(n, t, q) <==> t <= 8
    ensures AllSetsExact(n, t, q) <==> t <= 8
  {
    hide AllFit, EntriesExact, Large, IsSubset;
    if t <= 8 {
      forall T: seq<int> | IsSubset(T, n, t) && q !in T ensures AllFit(T, t) && EntriesExact(T, t) {
        SubsetsFit(T, n, t);
      }
    } else {
      LargestIsSubset(n, t, q);
      LargeOverflows(LargestWithout(t, q));
    }
  }

  /** With nineteen parties the set of 11 to 19 has the last coefficient -33522128640. */
  lemma OverflowAtNineteen()
    ensures var T := [11, 12, 13, 14, 15, 16, 17, 18, 19];
            && IsSubset(T, 19, 9) && Coefficients(Negated(T), 9)[9] == -33522128640
            && InMachine(Coefficients(Negated(T), 9))[9] == 837609728 && !AllFit(T, 9)
  {
    hide AllFit, EntriesExact, Large, Product, Elementary;
    var T := [11, 12, 13, 14, 15, 16, 17, 18, 19];
    assert T == LargestWithout(9, 1);
    hide LargestWithout;
    LargestIsSubset(19, 9, 1);
    hide IsSubset;
    LargeOverflows(T);
    LastEntry(Negated(T));
    assert Negated(T) == [-11, -12, -13, -14, -15, -16, -17, -18, -19];
    ElevenToNineteen();
    assert Coefficients(Negated(T), 9)[9] == -33522128640;
  }

  lemma ElevenToNineteen()
    ensures Product([-11, -12, -13, -14, -15, -16, -17, -18, -19]) == -33522128640
  {
  }
}
