/** Bits of an access code, and facts about products and division that the other modules share. */
module Bits {

  function Pow2(k: nat): (r: nat)
    ensures r >= 1
  {
    if k == 0 then 1 else 2 * Pow2(k - 1)
  }

  /** Bit `i` of `x`: the arithmetic shift and mask of a signed word. */
  predicate Bit(x: int, i: nat) {
    (x / Pow2(i)) % 2 == 1
  }

  /** Quotient and remainder are the only pair that fits. */
  lemma DivModUnique(a: int, n: int, q: int, r: int)
    requires 0 <= r < n && a == n * q + r
    ensures a / n == q && a % n == r
  {
    assert a == n * (a / n) + a % n;
    var d := a / n - q;
    assert n * d == r - a % n by {
      assert n * (a / n) - n * q == n * d;
    }
    MulGap(n, d);
  }

  lemma MulGap(n: int, d: int)
    requires n > 0
    ensures d >= 1 ==> n * d >= n
    ensures d <= -1 ==> n * d <= -n
  {
  }

  lemma {:induction false} Pow2Add(a: nat, b: nat)
    ensures Pow2(a + b) == Pow2(a) * Pow2(b)
  {
    if a > 0 {
      Pow2Add(a - 1, b);
      assert Pow2(a + b) == 2 * (Pow2(a - 1) * Pow2(b)) == (2 * Pow2(a - 1)) * Pow2(b);
    }
  }

  /** The lowest bit of a word, and its other bits as those of the half. */
  lemma BitHalf(x: int, i: nat)
    requires i > 0
    ensures Bit(x, i) <==> Bit(x / 2, i - 1)
    ensures Bit(x, 0) <==> x % 2 == 1
  {
    DivDiv(x, 2, Pow2(i - 1));
  }

  lemma DivDiv(x: int, a: nat, b: nat)
    requires a > 0 && b > 0
    ensures a * b > 0 && (x / a) / b == x / (a * b)
  {
    var q := (x / a) / b;
    var r := (x / a) % b;
    var s := x % a;
    assert x == a * (b * q + r) + s;
    assert a * (b * q + r) == (a * b) * q + a * r by {
      assert a * (b * q) == (a * b) * q;
    }
    assert 0 <= a * r + s < a * b by {
      assert a * r <= a * (b - 1);
      assert a * (b - 1) == a * b - a;
    }
    DivModUnique(x, a * b, q, a * r + s);
  }

  /** Words of `n` bits are determined by their bits. */
  lemma {:induction false} SameBits(x: nat, y: nat, n: nat)
    requires x < Pow2(n) && y < Pow2(n)
    requires forall i: nat | i < n :: Bit(x, i) == Bit(y, i)
    ensures x == y
    decreases n
  {
    if n > 0 {
      forall i: nat | i < n - 1 ensures Bit(x / 2, i) == Bit(y / 2, i) {
        BitHalf(x, i + 1);
        BitHalf(y, i + 1);
        assert Bit(x, i + 1) == Bit(y, i + 1);
      }
      SameBits(x / 2, y / 2, n - 1);
      BitHalf(x, n);
      BitHalf(y, n);
      assert Bit(x, 0) == Bit(y, 0);
    }
  }

  /** Bits of a word glued together from `k` low bits and a high part. */
  lemma {:induction false} BitJoin(low: nat, high: nat, k: nat, i: nat)
    requires low < Pow2(k)
    ensures Bit(low + Pow2(k) * high, i) == if i < k then Bit(low, i) else Bit(high, i - k)
    decreases k
  {
    var x := low + Pow2(k) * high;
    if k > 0 {
      assert Pow2(k) * high == 2 * (Pow2(k - 1) * high);
      assert x / 2 == low / 2 + Pow2(k - 1) * high;
      if i > 0 {
        BitHalf(x, i);
        BitHalf(low, i);
        BitJoin(low / 2, high, k - 1, i - 1);
      } else {
        BitHalf(x, 1);
        BitHalf(low, 1);
      }
    }
  }

  lemma ProductMonotone(k: int, a: int, b: int)
    requires k >= 0 && a <= b
    ensures k * a <= k * b
  {
    assert k * (b - a) >= 0;
  }

  // ----- row-major numbering

  /** `outer * width + inner`, the position of an item in row-major order. */
  lemma RowMajor(outer: nat, width: nat, inner: nat)
    requires inner < width
    ensures (outer * width + inner) / width == outer && (outer * width + inner) % width == inner
  {
    DivModUnique(outer * width + inner, width, outer, inner);
  }

  lemma RowMajorInRange(outer: nat, width: nat, inner: nat, rows: nat)
    requires inner < width && outer < rows
    ensures outer * width + inner < rows * width
  {
    ProductMonotone(width, outer + 1, rows);
    assert (outer + 1) * width == outer * width + width;
  }

  lemma RowOf(j: nat, width: nat, rows: nat)
    requires width > 0 && j < rows * width
    ensures j / width < rows && j % width < width && j == (j / width) * width + j % width
  {
    if j / width >= rows {
      ProductMonotone(width, rows, j / width);
      assert false;
    }
  }

  /** Row and place within the row. */
  function RowParts(i: nat, width: nat, rows: nat): (at: (nat, nat))
    requires width > 0 && i < rows * width
    ensures at.0 < rows && at.1 < width && i == at.0 * width + at.1
  {
    RowOf(i, width, rows);
    (i / width, i % width)
  }

  lemma PartsOf(k: nat, width: nat, r: nat, rows: nat)
    requires r < width && k < rows
    ensures k * width + r < rows * width && RowParts(k * width + r, width, rows) == (k, r)
  {
    RowMajor(k, width, r);
    RowMajorInRange(k, width, r, rows);
  }
}
