/**
 The compiler's choice of access codes, `generateSeedMap`: among the words with t + 1 bits set it keeps
 those of which no turn is smaller.
 */
module SeedGeneration {
  import opened Bits
  import opened Words
  import opened NextWords
  import opened Schedules
  import opened Combinations
  import opened ShareSets
  import opened SeedMapSize

  /** The width of `unsigned int`. */
  const WIDTH: nat := 32

  // ----- the number of codes

  lemma {:induction false} TooMany(n: nat, k: nat)
    requires k > n
    ensures Binomial(n, k) == 0
  {
    if n > 0 {
      TooMany(n - 1, k - 1);
      TooMany(n - 1, k);
    }
  }

  lemma {:induction false} BinomialSymmetric(n: nat, k: nat)
    requires k <= n
    ensures Binomial(n, k) == Binomial(n, n - k)
    decreases n
  {
    if 0 < k < n {
      BinomialSymmetric(n - 1, k - 1);
      BinomialSymmetric(n - 1, k);
    } else if n > 0 {
      OneWay(n);
    }
  }

  lemma {:induction false} OneWay(n: nat)
    ensures Binomial(n, n) == 1
  {
    if n > 0 {
      OneWay(n - 1);
      TooMany(n - 1, n);
    }
  }

  /** The step of the loop: the division in it leaves no remainder. */
  lemma {:induction false} BinomialStep(n: nat, i: nat)
    requires 0 < i <= n
    ensures Binomial(n, i) * i == Binomial(n, i - 1) * (n - i + 1)
    decreases n
  {
    var b := Binomial(n - 1, i - 1);
    if i == n {
      TooMany(n - 1, n);
    } else {
      BinomialStep(n - 1, i);
    }
    assert Binomial(n - 1, i) * i == b * (n - i);
    if i > 1 {
      BinomialStep(n - 1, i - 1);
      StepSum(Binomial(n - 1, i - 2), b, n, i);
    }
    Distribute(b, Binomial(n - 1, i), i);
    Gather(b, n, i);
  }

  lemma Gather(b: nat, n: nat, i: nat)
    requires 0 < i <= n
    ensures b * i + b * (n - i) == b * n
  {
  }

  lemma StepSum(a: nat, b: nat, n: nat, i: nat)
    requires 1 < i <= n && b * (i - 1) == a * (n - i + 1)
    ensures (a + b) * (n - i + 1) == b * n
  {
    Distribute(a, b, n - i + 1);
    assert b * (i - 1) + b * (n - i + 1) == b * n;
  }

  /** What the loop forms before it divides is a machine integer. */
  predicate StepFits(n: nat, i: nat) {
    Binomial(n, i) * i < 0x8000_0000
  }

  lemma ExactStep(n: nat, i: nat)
    requires 0 < i <= n
    ensures Binomial(n, i - 1) * (n - i + 1) / i == Binomial(n, i)
    ensures StepFits(n, i) <==> Binomial(n, i - 1) * (n - i + 1) < 0x8000_0000
  {
    hide Binomial;
    BinomialStep(n, i);
    DivModUnique(Binomial(n, i) * i, i, Binomial(n, i), 0);
  }

  /** `nChoosek`; `fits` tells whether all values it forms are machine integers. */
  method NChoosek(n: nat, k: nat) returns (result: nat, fits: bool)
    ensures result == Binomial(n, k)
    ensures fits <==> forall i: nat | 2 <= i <= k && i <= n - k :: StepFits(n, i)
  {
    hide Binomial, StepFits;
    fits := true;
    if k > n {
      TooMany(n, k);
      return 0, true;
    }
    var j := k;
    if j * 2 > n {
      BinomialSymmetric(n, k);
      j := n - k;
    }
    FirstBinomials(n);
    if j == 0 {
      return 1, true;
    }
    result := n;
    for i := 2 to j + 1
      invariant result == Binomial(n, i - 1)
      invariant fits <==> forall l: nat | 2 <= l < i :: StepFits(n, l)
    {
      ExactStep(n, i);
      result := result * (n - i + 1);
      fits := fits && result < 0x8000_0000;
      result := result / i;
    }
  }

  lemma {:induction false} BinomialGrows(n: nat, m: nat, i: nat)
    requires n <= m
    ensures Binomial(n, i) <= Binomial(m, i)
    decreases m
  {
    if n < m {
      BinomialGrows(n, m - 1, i);
    }
  }

  lemma RowStep(n: nat, i: nat, a: nat, b: nat)
    requires 0 < i <= n && Binomial(n, i - 1) == a && b * i == a * (n - i + 1)
    ensures Binomial(n, i) == b
  {
    hide Binomial;
    BinomialStep(n, i);
    DivModUnique(b * i, i, b, 0);
    DivModUnique(b * i, i, Binomial(n, i), 0);
  }

  lemma LargestRow(i: nat)
    requires 2 <= i <= 14
    ensures StepFits(29, i)
  {
    hide Binomial;
    FirstBinomials(29);
    RowStep(29, 2, 29, 406);
    RowStep(29, 3, 406, 3654);
    RowStep(29, 4, 3654, 23751);
    RowStep(29, 5, 23751, 118755);
    RowStep(29, 6, 118755, 475020);
    RowStep(29, 7, 475020, 1560780);
    RowStep(29, 8, 1560780, 4292145);
    RowStep(29, 9, 4292145, 10015005);
    RowStep(29, 10, 10015005, 20030010);
    RowStep(29, 11, 20030010, 34597290);
    RowStep(29, 12, 34597290, 51895935);
    RowStep(29, 13, 51895935, 67863915);
    RowStep(29, 14, 67863915, 77558760);
  }

  /** For up to 29 parties no step leaves the machine integers. */
  lemma StepsFit(n: nat, i: nat)
    requires n <= 29 && 2 <= i && 2 * i <= n
    ensures StepFits(n, i)
  {
    hide Binomial;
    LargestRow(i);
    BinomialGrows(n, 29, i);
    ProductMonotone(i, Binomial(n, i), Binomial(29, i));
  }

  lemma {:induction false} FirstBinomials(n: nat)
    ensures Binomial(n, 0) == 1 && (n > 0 ==> Binomial(n, 1) == n)
  {
    if n > 0 {
      FirstBinomials(n - 1);
    }
  }

  // ----- the turns of a word

  /** What the masks and shifts of the test make of a word. */
  function TurnedWord(v: nat, n: nat, i: nat, width: nat): (permutation: nat)
    requires i <= n
  {
    var mask2 := Wrapped((Pow2(n - i) - 1) * Pow2(i), width);
    var mask1 := And(Not(mask2, width), Pow2(n) - 1);
    var b1 := And(v, mask1);
    var b2 := And(v, mask2);
    Or(Wrapped(b1 * Pow2(n - i), width), ShiftRight(b2, i))
  }

  /** The word turned right by `i` places, as the masks and shifts compute it. */
  lemma TurnedWordIs(v: nat, n: nat, i: nat, width: nat)
    requires i < n <= width && v < Pow2(n)
    ensures TurnedWord(v, n, i, width) == TurnRight(v, n, i)
  {
    hide And, Or, Wrapped, Not, ShiftRight, Pow2, TurnRight;
    HighMask(n, i, width);
    LowMaskOf(n, i, width);
    Masked(v, i);
    UpperPart(v, n, i);
    Reassembled(v, n, i, width);
  }

  lemma Masked(v: nat, k: nat)
    ensures And(v, Pow2(k) - 1) == Wrapped(v, k)
  {
    AndMask(v, k);
  }

  lemma HighMask(n: nat, i: nat, width: nat)
    requires i <= n <= width
    ensures Wrapped((Pow2(n - i) - 1) * Pow2(i), width) == Pow2(n) - Pow2(i) == Join(Pow2(n - i) - 1, 0, i)
  {
    Pow2Add(n - i, i);
    Pow2Below(n, width);
    Pow2Below(i, n);
    hide Pow2;
    Distribute(Pow2(n - i), 1, Pow2(i));
    WrappedSame(Pow2(n) - Pow2(i), width);
  }

  lemma LowMaskOf(n: nat, i: nat, width: nat)
    requires i < n <= width
    ensures Pow2(n) >= Pow2(i) && And(Not(Pow2(n) - Pow2(i), width), Pow2(n) - 1) == Pow2(i) - 1
  {
    hide And, Pow2, Not, Wrapped;
    Pow2Add(width - n, n);
    Pow2Below(i, n);
    AndMask(Not(Pow2(n) - Pow2(i), width), n);
    NotIs(Pow2(n) - Pow2(i), width, Pow2(width - n) * Pow2(n));
    ComplementLow(Pow2(width - n), Pow2(n), Pow2(i));
  }

  lemma NotIs(x: nat, width: nat, m: nat)
    requires m == Pow2(width)
    ensures Not(x, width) == (-1 - x) % m
  {
  }

  lemma ComplementLow(p: nat, q: nat, r: nat)
    requires p >= 1 && 0 < r <= q
    ensures p * q > 0 && (-1 - (q - r)) % (p * q) % q == r - 1
  {
    Distribute(p, 1, q);
    ProductMonotone(q, 1, p);
    var x := (p - 1) * q + (r - 1);
    DivModUnique(-1 - (q - r), p * q, -1, x);
    DivModUnique(x, q, p - 1, r - 1);
  }

  lemma UpperPart(v: nat, n: nat, i: nat)
    requires i < n && v < Pow2(n)
    ensures ShiftRight(And(v, Join(Pow2(n - i) - 1, 0, i)), i) == ShiftRight(v, i) < Pow2(n - i)
  {
    hide And;
    var p, q := Pow2(n - i), Pow2(i);
    Pow2Add(n - i, i);
    QuotientBelowPower(v, p, q);
    var high, low := ShiftRight(v, i), Wrapped(v, i);
    WordParts(v, i);
    AndJoin(high, low, p - 1, 0, i);
    AndMask(high, n - i);
    AndNothing(low);
    hide Pow2;
    DivModUnique(high, p, 0, high);
    DivModUnique(Join(high, 0, i), q, high, 0);
  }

  lemma AndNothing(x: nat)
    ensures And(x, 0) == 0
  {
  }

  lemma QuotientBelowPower(v: nat, p: nat, q: nat)
    requires q > 0 && v < p * q
    ensures v / q < p
  {
    if v / q >= p {
      ProductMonotone(q, p, v / q);
      assert false;
    }
  }

  lemma WordParts(v: nat, i: nat)
    ensures v == Join(ShiftRight(v, i), Wrapped(v, i), i) && Wrapped(v, i) < Pow2(i)
  {
  }

  lemma Reassembled(v: nat, n: nat, i: nat, width: nat)
    requires i < n <= width && v < Pow2(n) && ShiftRight(v, i) < Pow2(n - i)
    ensures Or(Wrapped(Wrapped(v, i) * Pow2(n - i), width), ShiftRight(v, i)) == TurnRight(v, n, i)
  {
    var low, high := Wrapped(v, i), ShiftRight(v, i);
    assert TurnRight(v, n, i) == low * Pow2(n - i) + high;
    WordParts(v, i);
    Pow2Add(i, n - i);
    Pow2Below(n, width);
    JoinZero(low, n - i);
    JoinNone(high, n - i);
    assert TurnRight(v, n, i) == Join(low, high, n - i);
    hide Or, Pow2, Wrapped, ShiftRight, TurnRight, Join;
    ProductBelow(low, Pow2(i), Pow2(n - i));
    WrappedSame(low * Pow2(n - i), width);
    OrJoin(low, 0, 0, high, n - i);
    OrZero(low);
    OrZero(high);
  }

  lemma ProductBelow(low: nat, q: nat, p: nat)
    requires low < q && p > 0
    ensures low * p < q * p
  {
    ProductMonotone(p, low + 1, q);
    Distribute(low, 1, p);
  }

  /** The loop over all turns, which stops at a smaller one. */
  method IsLeast(v: nat, n: nat) returns (cond: bool)
    requires n <= WIDTH && v < Pow2(n)
    ensures cond <==> LeastOfTurns(v, n)
  {
    hide Pow2, TurnRight, TurnedWord;
    cond := true;
    for i := 0 to n
      invariant cond && forall j: nat | j < i :: v <= TurnRight(v, n, j)
    {
      TurnedWordIs(v, n, i, WIDTH);
      var permutation := TurnedWord(v, n, i, WIDTH);
      if v > permutation {
        cond := false;
        break;
      }
    }
  }

  // ----- the enumeration

  lemma {:induction false} WeightIsOnes(v: nat, n: nat)
    requires v < Pow2(n)
    ensures Weight(v, n) == Ones(v)
    decreases n
  {
    if n > 0 {
      HalfBelow(v, n);
      WeightIsOnes(v / 2, n - 1);
      OnesStep(v);
      hide Ones, Bit;
      forall j: nat | j + 1 < n ensures Bit(v / 2, j) == Bit(v, j + 1) {
        BitHalf(v, j + 1);
      }
      ShiftedWeight(v, v / 2, n);
      BitHalf(v, 1);
    }
  }

  lemma {:induction false} PassingGrows(n: nat, t: nat, a: nat, b: nat)
    requires a <= b
    ensures |PassingBelow(n, t, a)| <= |PassingBelow(n, t, b)|
    decreases b
  {
    hide LeastOfTurns, Weight;
    if a < b {
      PassingGrows(n, t, a, b - 1);
    }
  }

  /** Words with another number of bits set do not count. */
  lemma {:induction false} PassingGap(n: nat, t: nat, a: nat, b: nat)
    requires a <= b && forall u: nat | a <= u < b :: Ones(u) != t + 1
    ensures PassingBelow(n, t, b) == PassingBelow(n, t, a)
    decreases b
  {
    hide Weight, Ones;
    if a < b {
      PassingGap(n, t, a, b - 1);
      if LeastOfTurns(b - 1, n) {
        WeightIsOnes(b - 1, n);
      }
    }
  }

  lemma PassingNext(n: nat, t: nat, v: nat)
    requires v < Pow2(n) && Ones(v) == t + 1
    ensures PassingBelow(n, t, v + 1) == PassingBelow(n, t, v) + if LeastOfTurns(v, n) then [v] else []
  {
    hide Weight, Ones, LeastOfTurns, Pow2;
    WeightIsOnes(v, n);
  }

  lemma FirstWord(n: nat, t: nat)
    requires n == 2 * t + 1
    ensures var v := Pow2(n - t) - 1; 0 < v < Pow2(n) && Ones(v) == t + 1 && PassingBelow(n, t, v) == []
  {
    hide Ones;
    OnesOfMask(t + 1);
    Pow2Below(t + 1, n);
    assert PassingBelow(n, t, 0) == [];
    forall u: nat | u < Pow2(t + 1) - 1 ensures Ones(u) != t + 1 {
      SmallestWord(u);
    }
    PassingGap(n, t, 0, Pow2(t + 1) - 1);
  }

  /** The next word of as many bits is the next that can count; it never is the bound itself. */
  lemma NextCandidate(n: nat, t: nat, v: nat)
    requires n <= WIDTH - 2 && t > 0 && 0 < v < Pow2(n) && Ones(v) == t + 1
    ensures var w := NextWord(v, WIDTH);
            && w > v && Ones(w) == t + 1 && w != Pow2(n)
            && PassingBelow(n, t, if w > Pow2(n) then Pow2(n) else w) == PassingBelow(n, t, v + 1)
  {
    hide Ones, NextWord, PassingBelow, Pow2;
    Pow2Below(n, WIDTH - 2);
    NextWordNext(v, WIDTH);
    OneBit(n);
    var w := NextWord(v, WIDTH);
    PassingGap(n, t, v + 1, if w > Pow2(n) then Pow2(n) else w);
  }

  lemma {:induction false} OneBit(n: nat)
    ensures Ones(Pow2(n)) == 1
  {
    hide Ones;
    OnesStep(Pow2(n));
    if n > 0 {
      Pow2Step(n - 1);
      OneBit(n - 1);
    } else {
      NoOnes();
    }
  }

  /** `generateSeedMap`: it finds exactly the words that pass the test, in increasing order, and there
      are exactly as many as it has allocated room for. `fits` tells whether that number was formed in
      machine integers. */
  method GenerateSeedMap(n: nat, t: nat) returns (solutions: array<nat>, fits: bool)
    requires n == 2 * t + 1 && t > 0 && n <= WIDTH - 2
    ensures fresh(solutions) && solutions[..] == PassingBelow(n, t, Pow2(n))
    ensures IsCompilerMap(solutions[..], n, t) && fits
    ensures forall i, j | 0 <= i < j < solutions.Length :: solutions[i] < solutions[j] < Pow2(n)
  {
    hide Pow2, Ones, NextWord, PassingBelow, LeastOfTurns, Binomial, IsCompilerMap, StepFits;
    CompilerMapExists(n, t);
    CompilerMapSize(PassingBelow(n, t, Pow2(n)), n, t);
    FirstWord(n, t);
    var ways;
    ways, fits := NChoosek(n, t);
    forall i: nat | 2 <= i <= t ensures StepFits(n, i) {
      StepsFit(n, i);
    }
    solutions := new nat[ways / n];
    var v := Pow2(n - t) - 1;
    var upper_bound := Pow2(n);
    var ctr := 0;
    while v <= upper_bound
      invariant 0 < v < upper_bound && Ones(v) == t + 1 && ctr <= solutions.Length
      invariant fresh(solutions) && solutions.Length == |PassingBelow(n, t, upper_bound)|
      invariant solutions[..ctr] == PassingBelow(n, t, v)
      decreases upper_bound - v
    {
      PassingNext(n, t, v);
      PassingGrows(n, t, v + 1, upper_bound);
      NextCandidate(n, t, v);
      var cond := IsLeast(v, n);
      if cond {
        solutions[ctr] := v;
        ctr := ctr + 1;
      }
      var w := NextWord(v, WIDTH);
      if w > upper_bound {
        break;
      }
      v := w;
    }
    assert solutions[..ctr] == solutions[..];
    PassingOrdered(n, t, upper_bound);
    assert forall i | 0 <= i < solutions.Length :: solutions[i] == solutions[..][i];
  }

  predicate OrderedBelow(xs: seq<nat>, limit: nat) {
    (forall i | 0 <= i < |xs| :: xs[i] < limit) && (forall i, j | 0 <= i < j < |xs| :: xs[i] < xs[j])
  }

  lemma {:induction false} PassingOrdered(n: nat, t: nat, limit: nat)
    ensures OrderedBelow(PassingBelow(n, t, limit), limit)
  {
    hide LeastOfTurns, Weight, OrderedBelow;
    if limit > 0 {
      PassingOrdered(n, t, limit - 1);
      OrderedSnoc(PassingBelow(n, t, limit - 1), limit - 1);
    } else {
      NothingOrdered();
    }
  }

  lemma NothingOrdered()
    ensures OrderedBelow([], 0)
  {
  }

  lemma OrderedSnoc(xs: seq<nat>, x: nat)
    requires OrderedBelow(xs, x)
    ensures OrderedBelow(xs + [x], x + 1) && OrderedBelow(xs + [], x + 1)
  {
    assert xs + [] == xs;
  }
}
