/** Unsigned machine words: their bitwise operations, and how many bits are set. */
module Words {
  import opened Bits

  /** Arithmetic modulo 2^width. */
  function Wrapped(v: int, width: nat): (r: nat) {
    v % Pow2(width)
  }

  lemma WrappedSame(v: int, width: nat)
    requires 0 <= v < Pow2(width)
    ensures Wrapped(v, width) == v
  {
    DivModUnique(v, Pow2(width), 0, v);
  }

  function And(a: nat, b: nat): (r: nat)
    decreases a + b
  {
    if a == 0 || b == 0 then 0 else a % 2 * (b % 2) + 2 * And(a / 2, b / 2)
  }

  function Or(a: nat, b: nat): (r: nat)
    decreases a + b
  {
    if a == 0 then b else if b == 0 then a
    else (if a % 2 == 1 || b % 2 == 1 then 1 else 0) + 2 * Or(a / 2, b / 2)
  }

  function ShiftRight(x: nat, k: nat): (r: nat) {
    QuotientNatural(x, Pow2(k));
    x / Pow2(k)
  }

  lemma QuotientNatural(x: nat, d: nat)
    requires d > 0
    ensures x / d >= 0
  {
  }

  /** Bitwise complement in words of `width` bits. */
  function Not(x: nat, width: nat): (r: nat) {
    Wrapped(-1 - x, width)
  }

  function Negate(x: int, width: nat): (r: nat) {
    Wrapped(-x, width)
  }

  /** Number of trailing zeros. */
  function Ctz(v: nat): (r: nat)
    requires v > 0
  {
    if v % 2 == 1 then 0 else 1 + Ctz(v / 2)
  }

  /** Number of bits set. */
  function Ones(v: nat): (r: nat) {
    if v == 0 then 0 else v % 2 + Ones(v / 2)
  }

  /** Masking with k ones keeps the value modulo 2^k. */
  lemma {:induction false} AndMask(a: nat, k: nat)
    ensures And(a, Pow2(k) - 1) == a % Pow2(k)
    decreases k
  {
    if k == 0 {
      DivModUnique(a, 1, a, 0);
    } else {
      var m := Pow2(k - 1);
      assert Pow2(k) == 2 * m;
      AndMask(a / 2, k - 1);
      hide Pow2;
      MaskHalf(m);
      HalfMod(a, m);
      if a == 0 {
        DivModUnique(0, 2 * m, 0, 0);
      }
    }
  }

  lemma MaskHalf(m: nat)
    requires m > 0
    ensures (2 * m - 1) % 2 == 1 && (2 * m - 1) / 2 == m - 1
  {
  }

  lemma HalfMod(a: nat, m: nat)
    requires m > 0
    ensures a % (2 * m) == a % 2 + 2 * (a / 2 % m)
  {
    var q, r := a / 2 / m, a / 2 % m;
    Twice(m, q);
    DivModUnique(a, 2 * m, q, a % 2 + 2 * r);
  }

  lemma Twice(m: int, q: int)
    ensures 2 * (m * q) == (2 * m) * q
  {
  }

  lemma {:induction false} Pow2Below(i: nat, k: nat)
    requires i <= k
    ensures Pow2(i) <= Pow2(k)
    decreases k
  {
    if i < k {
      Pow2Below(i, k - 1);
    }
  }

  lemma Distribute(a: int, b: int, c: int)
    ensures (a + b) * c == a * c + b * c && (a - b) * c == a * c - b * c
  {
  }

  lemma Regrouped(a: int, b: int, c: int)
    ensures (a * b) * c == a * (b * c) == b * (a * c)
  {
  }

  lemma Pow2Step(k: nat)
    ensures Pow2(k + 1) == 2 * Pow2(k)
  {
  }

  // ----- words cut into a low and a high part

  /** The word with `b` in its lowest `k` bits and `a` above them. */
  function Join(a: nat, b: nat, k: nat): (r: nat) {
    a * Pow2(k) + b
  }

  lemma JoinHalf(a: nat, b: nat, k: nat)
    requires k > 0
    ensures Join(a, b, k) % 2 == b % 2 && Join(a, b, k) / 2 == Join(a, b / 2, k - 1)
  {
    var h := a * Pow2(k - 1);
    assert a * Pow2(k) == 2 * h;
    EvenPlus(h, b);
  }

  lemma EvenPlus(h: nat, b: nat)
    ensures (2 * h + b) % 2 == b % 2 && (2 * h + b) / 2 == h + b / 2
  {
  }

  lemma AndStep(x: nat, y: nat)
    ensures And(x, y) == x % 2 * (y % 2) + 2 * And(x / 2, y / 2)
  {
  }

  lemma OrStep(x: nat, y: nat)
    ensures Or(x, y) == (if x % 2 == 1 || y % 2 == 1 then 1 else 0) + 2 * Or(x / 2, y / 2)
  {
  }

  lemma OnesStep(x: nat)
    ensures Ones(x) == x % 2 + Ones(x / 2)
  {
  }

  lemma HalfBelow(b: nat, k: nat)
    requires k > 0 && b < Pow2(k)
    ensures b / 2 < Pow2(k - 1)
  {
  }

  lemma {:induction false} AndJoin(a: nat, b: nat, c: nat, d: nat, k: nat)
    requires b < Pow2(k) && d < Pow2(k)
    ensures And(Join(a, b, k), Join(c, d, k)) == Join(And(a, c), And(b, d), k)
    decreases k
  {
    hide And, Join;
    if k == 0 {
      JoinNothing(a, c);
    } else {
      HalfBelow(b, k);
      HalfBelow(d, k);
      AndJoin(a, b / 2, c, d / 2, k - 1);
      JoinHalf(a, b, k);
      JoinHalf(c, d, k);
      AndStep(Join(a, b, k), Join(c, d, k));
      AndStep(b, d);
      JoinTwice(And(a, c), And(b / 2, d / 2), b % 2 * (d % 2), k);
    }
  }

  lemma JoinNothing(a: nat, c: nat)
    ensures Join(a, 0, 0) == a && Join(c, 0, 0) == c && Join(And(a, c), And(0, 0), 0) == And(a, c)
    ensures Join(Or(a, c), Or(0, 0), 0) == Or(a, c)
  {
  }

  lemma JoinTwice(a: nat, b: nat, bit: nat, k: nat)
    requires k > 0
    ensures Join(a, bit + 2 * b, k) == bit + 2 * Join(a, b, k - 1)
  {
    assert a * Pow2(k) == 2 * (a * Pow2(k - 1));
  }

  lemma {:induction false} OrJoin(a: nat, b: nat, c: nat, d: nat, k: nat)
    requires b < Pow2(k) && d < Pow2(k)
    ensures Or(Join(a, b, k), Join(c, d, k)) == Join(Or(a, c), Or(b, d), k)
    decreases k
  {
    hide Or, Join;
    if k == 0 {
      JoinNothing(a, c);
    } else {
      HalfBelow(b, k);
      HalfBelow(d, k);
      OrJoin(a, b / 2, c, d / 2, k - 1);
      JoinHalf(a, b, k);
      JoinHalf(c, d, k);
      OrStep(Join(a, b, k), Join(c, d, k));
      OrStep(b, d);
      JoinTwice(Or(a, c), Or(b / 2, d / 2), if b % 2 == 1 || d % 2 == 1 then 1 else 0, k);
    }
  }

  lemma {:induction false} OnesJoin(a: nat, b: nat, k: nat)
    requires b < Pow2(k)
    ensures Ones(Join(a, b, k)) == Ones(a) + Ones(b)
    decreases k
  {
    hide Ones, Join;
    if k == 0 {
      JoinNothing(a, 0);
      assert Ones(0) == 0 by { NoOnes(); }
    } else {
      HalfBelow(b, k);
      OnesJoin(a, b / 2, k - 1);
      JoinHalf(a, b, k);
      OnesStep(Join(a, b, k));
      OnesStep(b);
    }
  }

  lemma NoOnes()
    ensures Ones(0) == 0
  {
  }

  lemma {:induction false} AndSame(x: nat)
    ensures And(x, x) == x
  {
    if x > 0 {
      AndSame(x / 2);
    }
  }

  lemma {:induction false} OrSame(x: nat)
    ensures Or(x, x) == x
  {
    if x > 0 {
      OrSame(x / 2);
    }
  }

  /** A word and its complement have no bit in common. */
  lemma {:induction false} AndComplement(h: nat, j: nat)
    requires h < Pow2(j)
    ensures And(Pow2(j) - 1 - h, h) == 0
    decreases j
  {
    hide And;
    if j == 0 {
      assert And(0, 0) == 0 by { AndSame(0); }
    } else {
      HalfBelow(h, j);
      AndComplement(h / 2, j - 1);
      AndStep(Pow2(j) - 1 - h, h);
      ComplementHalf(Pow2(j - 1), h);
    }
  }

  lemma ComplementHalf(m: nat, h: nat)
    requires h < 2 * m
    ensures (2 * m - 1 - h) % 2 * (h % 2) == 0 && (2 * m - 1 - h) / 2 == m - 1 - h / 2
  {
  }

  // ----- bit by bit

  lemma {:induction false} AndBit(a: nat, b: nat, i: nat)
    ensures Bit(And(a, b), i) <==> Bit(a, i) && Bit(b, i)
    decreases i
  {
    hide And, Bit;
    AndStep(a, b);
    HalfAndBit(a, b, And(a / 2, b / 2));
    if i == 0 {
      LowBit(a);
      LowBit(b);
      LowBit(And(a, b));
    } else {
      AndBit(a / 2, b / 2, i - 1);
      BitHalf(a, i);
      BitHalf(b, i);
      BitHalf(And(a, b), i);
    }
  }

  lemma {:induction false} OrBit(a: nat, b: nat, i: nat)
    ensures Bit(Or(a, b), i) <==> Bit(a, i) || Bit(b, i)
    decreases i
  {
    hide Or, Bit;
    OrStep(a, b);
    if i == 0 {
      LowBit(a);
      LowBit(b);
      LowBit(Or(a, b));
    } else {
      OrBit(a / 2, b / 2, i - 1);
      BitHalf(a, i);
      BitHalf(b, i);
      BitHalf(Or(a, b), i);
    }
  }

  lemma LowBit(x: nat)
    ensures Bit(x, 0) <==> x % 2 == 1
  {
    BitHalf(x, 1);
  }

  lemma HalfAndBit(a: nat, b: nat, rest: nat)
    ensures 0 <= a % 2 * (b % 2) <= 1 && (a % 2 * (b % 2) == 1 <==> a % 2 == 1 && b % 2 == 1)
    ensures (a % 2 * (b % 2) + 2 * rest) / 2 == rest && (a % 2 * (b % 2) + 2 * rest) % 2 == a % 2 * (b % 2)
  {
  }

  /** The complement has exactly the other bits of the word. */
  lemma {:induction false} NotBit(x: nat, width: nat, i: nat)
    requires x < Pow2(width) && i < width
    ensures Not(x, width) == Pow2(width) - 1 - x
    ensures Bit(Pow2(width) - 1 - x, i) <==> !Bit(x, i)
    decreases i
  {
    DivModUnique(-1 - x, Pow2(width), -1, Pow2(width) - 1 - x);
    hide Bit;
    ComplementHalf(Pow2(width - 1), x);
    HalfBelow(x, width);
    if i == 0 {
      LowBit(x);
      LowBit(Pow2(width) - 1 - x);
      OppositeParity(Pow2(width - 1), x);
    } else {
      NotBit(x / 2, width - 1, i - 1);
      BitHalf(x, i);
      BitHalf(Pow2(width) - 1 - x, i);
    }
  }

  lemma OppositeParity(m: nat, x: nat)
    ensures (2 * m - 1 - x) % 2 == 1 <==> x % 2 == 0
  {
  }

  // ----- the smallest and the largest word with a given number of bits set

  lemma {:induction false} SmallestWord(r: nat)
    ensures Pow2(Ones(r)) - 1 <= r
  {
    if r > 0 {
      SmallestWord(r / 2);
    }
  }

  lemma {:induction false} LargestWord(r: nat, k: nat)
    requires r < Pow2(k)
    ensures Ones(r) <= k && r <= Pow2(k) - Pow2(k - Ones(r))
    decreases k
  {
    hide Ones, Join;
    if k == 0 {
      NoOnes();
    } else {
      var m := Pow2(k - 1);
      var top, rest := if r < m then 0 else 1, if r < m then r else r - m;
      LargestWord(rest, k - 1);
      OnesJoin(top, rest, k - 1);
      TopBit(top, rest, k - 1);
      assert Ones(top) == top by { OnesStep(top); NoOnes(); }
      Pow2Below(k - Ones(r), k);
      if top == 0 && Ones(r) < k {
        Pow2Below(k - 1 - Ones(r), k - 1);
      }
    }
  }

  lemma TopBit(top: nat, rest: nat, k: nat)
    requires top <= 1
    ensures Join(top, rest, k) == if top == 0 then rest else Pow2(k) + rest
  {
  }

  lemma {:induction false} OnesOfMask(k: nat)
    ensures Ones(Pow2(k) - 1) == k
  {
    if k > 0 {
      OnesOfMask(k - 1);
      MaskHalf(Pow2(k - 1));
    }
  }
}
