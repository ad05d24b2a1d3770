/**
 The word operations by which `generateSeedMap` goes from one word to the next with as many bits set.
 */
module NextWords {
  import opened Bits
  import opened Words

  /** The two statements that compute the next word, in words of `width` bits. */
  function NextWord(v: nat, width: nat): (w: nat)
    requires v > 0
  {
    var x := Or(v, v - 1);
    var low := And(Not(x, width), Negate(Not(x, width), width));
    Or(Wrapped(x + 1, width), ShiftRight(Wrapped(low - 1, width), Ctz(v) + 1))
  }

  // ----- the parts of a word: trailing zeros, a block of ones above them, a zero, and the rest

  lemma {:induction false} TrailingOnes(u: nat) returns (h: nat, m: nat)
    ensures u == Join(h, Pow2(m) - 1, m + 1) && (u % 2 == 1 ==> m > 0)
  {
    if u % 2 == 0 {
      h, m := u / 2, 0;
    } else {
      var m';
      h, m' := TrailingOnes(u / 2);
      m := m' + 1;
      JoinTwice(h, Pow2(m') - 1, 1, m + 1);
    }
  }

  lemma {:induction false} Parts(v: nat) returns (h: nat, c: nat, m: nat)
    requires v > 0
    ensures m > 0 && c == Ctz(v) && v == Join(Join(h, Pow2(m) - 1, m + 1), 0, c)
  {
    if v % 2 == 1 {
      h, m := TrailingOnes(v);
      c := 0;
    } else {
      var c';
      h, c', m := Parts(v / 2);
      c := c' + 1;
      JoinTwice(Join(h, Pow2(m) - 1, m + 1), 0, 0, c);
    }
  }

  /** With `k` bits up to the block, the word lies `2^c` below an odd multiple of `2^k`. */
  lemma BelowMultiple(h: nat, c: nat, m: nat)
    ensures Join(Join(h, Pow2(m) - 1, m + 1), 0, c) + Pow2(c) == (2 * h + 1) * Pow2(c + m)
  {
    var p, q := Pow2(c), Pow2(m);
    assert Pow2(m + 1) == 2 * q;
    Pow2Add(c, m);
    hide Pow2;
    var u := Join(h, q - 1, m + 1);
    assert u + 1 == (2 * h + 1) * q by {
      Regrouped(h, 2, q);
      Distribute(2 * h, 1, q);
    }
    Distribute(u, 1, p);
    Regrouped(2 * h + 1, q, p);
    Regrouped(p, q, 1);
  }

  lemma OddMinusOne(u: nat)
    requires u % 2 == 1
    ensures Or(u, u - 1) == u
  {
    OrStep(u, u - 1);
    OrSame(u / 2);
  }

  lemma FillZeros(u: nat, c: nat)
    requires u % 2 == 1
    ensures Join(u, 0, c) > 0 && Or(Join(u, 0, c), Join(u, 0, c) - 1) == Join(u, 0, c) + Pow2(c) - 1
  {
    hide Or, Pow2;
    Distribute(u - 1, 1, Pow2(c));
    assert Join(u, 0, c) - 1 == Join(u - 1, Pow2(c) - 1, c);
    OrJoin(u, 0, u - 1, Pow2(c) - 1, c);
    OddMinusOne(u);
    OrZero(Pow2(c) - 1);
  }

  lemma OrZero(y: nat)
    ensures Or(0, y) == y && Or(y, 0) == y && And(0, 0) == 0
  {
  }

  /** The lowest bit of an odd multiple of `2^k`, found by and-ing with the negated word. */
  lemma LowestBit(o: nat, k: nat, j: nat)
    requires o % 2 == 1 && o < Pow2(j)
    ensures And(Join(Pow2(j) - o, 0, k), Join(o, 0, k)) == Pow2(k)
  {
    hide And;
    AndJoin(Pow2(j) - o, 0, o, 0, k);
    AndStep(Pow2(j) - o, o);
    OrZero(0);
    assert j > 0;
    OddHalves(Pow2(j - 1), o);
    AndComplement(o / 2, j - 1);
    hide Pow2;
    assert 1 * Pow2(k) == Pow2(k);
  }

  lemma OddHalves(m: nat, o: nat)
    requires o % 2 == 1 && o < 2 * m
    ensures (2 * m - o) % 2 == 1 && (2 * m - o) / 2 == m - 1 - o / 2 && o / 2 < m
  {
  }

  lemma MaskShifted(c: nat, m: nat)
    requires m > 0
    ensures ShiftRight(Pow2(c + m) - 1, c + 1) == Pow2(m - 1) - 1
  {
    Pow2Add(c + 1, m - 1);
    hide Pow2;
    var p, q := Pow2(c + 1), Pow2(m - 1);
    Distribute(q, 1, p);
    Regrouped(p, q, 1);
    DivModUnique(p * q - 1, p, q - 1, p - 1);
  }

  /** The next word has the lowest block's highest bit moved up by one, and the rest of that block
      moved to the bottom. */
  lemma NextWordIs(v: nat, h: nat, c: nat, m: nat, width: nat)
    requires m > 0 && v > 0 && c == Ctz(v) && v == Join(Join(h, Pow2(m) - 1, m + 1), 0, c)
    requires c + m < width && 2 * h + 1 < Pow2(width - (c + m))
    ensures NextWord(v, width) == Join(2 * h + 1, Pow2(m - 1) - 1, c + m)
  {
    hide And, Or, Ctz, Wrapped, Not, Negate, ShiftRight, Join, Pow2;
    var o, k, u := 2 * h + 1, c + m, Join(h, Pow2(m) - 1, m + 1);
    OddBlock(h, m);
    FillZeros(u, c);
    BelowMultiple(h, c, m);
    JoinZero(o, k);
    MaskShifted(c, m);
    MaskInRange(k, width);
    LowMask(o, m, k);
    LowestBit(o, k, width - k);
    Complements(Or(v, v - 1), o, k, width);
  }

  lemma MaskInRange(k: nat, width: nat)
    requires k <= width
    ensures Wrapped(Pow2(k) - 1, width) == Pow2(k) - 1
  {
    Pow2Below(k, width);
    WrappedSame(Pow2(k) - 1, width);
  }

  lemma OddBlock(h: nat, m: nat)
    requires m > 0
    ensures Join(h, Pow2(m) - 1, m + 1) % 2 == 1
  {
    JoinHalf(h, Pow2(m) - 1, m + 1);
    MaskHalf(Pow2(m - 1));
  }

  lemma JoinZero(o: nat, k: nat)
    ensures Join(o, 0, k) == o * Pow2(k)
  {
  }

  lemma Complements(x: nat, o: nat, k: nat, width: nat)
    requires k < width && 0 < o < Pow2(width - k) && x + 1 == Join(o, 0, k)
    ensures Wrapped(x + 1, width) == Join(o, 0, k)
    ensures Not(x, width) == Join(Pow2(width - k) - o, 0, k)
    ensures Negate(Not(x, width), width) == Join(o, 0, k)
  {
    var p, q := Pow2(width - k), Pow2(k);
    Pow2Add(width - k, k);
    JoinZero(o, k);
    JoinZero(p - o, k);
    hide Pow2, Join;
    Distribute(p, o, q);
    PositiveProduct(o, q);
    PositiveProduct(p - o, q);
    DivModUnique(o * q, p * q, 0, o * q);
    DivModUnique(-(o * q), p * q, -1, (p - o) * q);
    DivModUnique(-((p - o) * q), p * q, -1, o * q);
  }

  lemma PositiveProduct(a: nat, b: nat)
    requires a > 0 && b > 0
    ensures a * b > 0
  {
  }

  lemma LowMask(o: nat, m: nat, k: nat)
    requires 0 < m <= k
    ensures Or(Join(o, 0, k), Pow2(m - 1) - 1) == Join(o, Pow2(m - 1) - 1, k)
  {
    hide Or;
    Pow2Below(m - 1, k);
    JoinNone(Pow2(m - 1) - 1, k);
    OrJoin(o, 0, 0, Pow2(m - 1) - 1, k);
    OrZero(o);
    OrZero(Pow2(m - 1) - 1);
  }

  lemma JoinNone(y: nat, k: nat)
    ensures Join(0, y, k) == y
  {
  }

  // ----- it is the next one

  /** A word two bits shorter than the width has its parts, and the next word, in range. */
  lemma PartsInRange(v: nat, h: nat, c: nat, m: nat, width: nat)
    requires v == Join(Join(h, Pow2(m) - 1, m + 1), 0, c) && m > 0 && width >= 2 && v < Pow2(width - 2)
    ensures c + m < width && 2 * h + 1 < Pow2(width - (c + m))
  {
    BelowMultiple(h, c, m);
    var k := c + m;
    hide Join, Pow2;
    Pow2Below(c, k - 1);
    Pow2Step(k - 1);
    Pow2Step(width - 2);
    var o := 2 * h + 1;
    ProductMonotone(Pow2(k), 1, o);
    if k >= width - 1 {
      Pow2Below(width - 2, k - 1);
      assert false;
    }
    Pow2Add(width - 1 - k, k);
    Pow2Step(width - 1 - k);
    Cancel(o, Pow2(width - 1 - k), Pow2(k));
  }

  lemma Cancel(o: nat, q: nat, p: nat)
    requires q >= 1 && p > 0 && o * p < q * p + p
    ensures o < 2 * q
  {
    if o > q {
      Distribute(q, 1, p);
      ProductMonotone(p, q + 1, o);
      assert false;
    }
  }

  lemma NextOnes(h: nat, c: nat, m: nat)
    requires m > 0
    ensures Ones(Join(Join(h, Pow2(m) - 1, m + 1), 0, c)) == Ones(h) + m
    ensures Ones(Join(2 * h + 1, Pow2(m - 1) - 1, c + m)) == Ones(h) + m
  {
    hide Join, Ones, Pow2;
    Pow2Step(m);
    OnesJoin(Join(h, Pow2(m) - 1, m + 1), 0, c);
    OnesJoin(h, Pow2(m) - 1, m + 1);
    Pow2Below(m - 1, c + m);
    OnesJoin(2 * h + 1, Pow2(m - 1) - 1, c + m);
    OnesOfMask(m);
    OnesOfMask(m - 1);
    OnesStep(2 * h + 1);
    NoOnes();
  }

  /** No word in between has as many bits set. */
  lemma NothingBetween(h: nat, c: nat, m: nat, u: nat)
    requires m > 0
    requires Join(Join(h, Pow2(m) - 1, m + 1), 0, c) < u < Join(2 * h + 1, Pow2(m - 1) - 1, c + m)
    ensures Ones(u) != Ones(h) + m
  {
    var k := c + m;
    var p, q, s := Pow2(k), Pow2(c), Pow2(m - 1);
    BelowMultiple(h, c, m);
    Pow2Below(c, k);
    Pow2Below(m - 1, k);
    assert Pow2(k + 1) == 2 * p;
    hide Pow2, Ones;
    assert (2 * h + 1) * p == h * (2 * p) + p by {
      Distribute(2 * h, 1, p);
      Regrouped(h, 2, p);
    }
    var r := u - h * (2 * p);
    assert p - q < r < p + s - 1;
    assert u == Join(h, r, k + 1);
    OnesJoin(h, r, k + 1);
    hide Join;
    RestNotBetween(c, m, r);
  }

  lemma RestNotBetween(c: nat, m: nat, r: nat)
    requires m > 0 && Pow2(c + m) - Pow2(c) < r < Pow2(c + m) + Pow2(m - 1) - 1
    ensures Ones(r) != m
  {
    var k := c + m;
    Pow2Below(m - 1, k);
    hide Join, Ones;
    if r < Pow2(k) {
      LargestWord(r, k);
    } else {
      var s := r - Pow2(k);
      JoinOne(s, k);
      OnesJoin(1, s, k);
      OnesStep(1);
      NoOnes();
      SmallestWord(s);
    }
  }

  lemma JoinOne(s: nat, k: nat)
    ensures Join(1, s, k) == Pow2(k) + s
  {
  }

  /** The word operations give the next larger word with as many bits set. */
  lemma NextWordNext(v: nat, width: nat)
    requires width >= 2 && 0 < v < Pow2(width - 2)
    ensures NextWord(v, width) > v && Ones(NextWord(v, width)) == Ones(v)
    ensures forall u: nat | v < u < NextWord(v, width) :: Ones(u) != Ones(v)
  {
    var h, c, m := Parts(v);
    hide Ctz;
    PartsInRange(v, h, c, m, width);
    NextWordIs(v, h, c, m, width);
    NextOnes(h, c, m);
    hide NextWord, Ones;
    NextLarger(h, c, m);
    hide Join;
    forall u: nat | v < u < NextWord(v, width) ensures Ones(u) != Ones(v) {
      NothingBetween(h, c, m, u);
    }
  }

  lemma NextLarger(h: nat, c: nat, m: nat)
    requires m > 0
    ensures Join(Join(h, Pow2(m) - 1, m + 1), 0, c) < Join(2 * h + 1, Pow2(m - 1) - 1, c + m)
  {
    BelowMultiple(h, c, m);
    hide Pow2;
  }
}
