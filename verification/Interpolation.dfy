/** A polynomial is determined by its values at as many different points as it has coefficients. */
module Interpolation {
  import opened Sequences
  import opened Polynomials

  /** The quotient of the polynomial by `x - a`. */
  function Quotient(c: seq<int>, a: int): (r: seq<int>)
    requires c != []
    ensures |r| == |c| - 1
  {
    seq(|c| - 1, i requires 0 <= i < |c| - 1 => Eval(c[..i + 1], a))
  }

  lemma {:induction false} Divided(c: seq<int>, a: int, x: int)
    requires c != []
    ensures Eval(c, x) == (x - a) * Eval(Quotient(c, a), x) + Eval(c, a)
    decreases |c|
  {
    var m := |c| - 1;
    var front := c[..m];
    if m == 0 {
      assert Eval(front, x) == Eval(front, a) == 0;
      assert Eval(Quotient(c, a), x) == 0;
    } else {
      var q := Quotient(c, a);
      forall i | 0 <= i < m - 1 ensures q[i] == Quotient(front, a)[i] {
        assert front[..i + 1] == c[..i + 1];
      }
      assert q[..m - 1] == Quotient(front, a);
      assert q[m - 1] == Eval(front, a);
      Divided(front, a, x);
      HornerDivided(x, a, Eval(Quotient(front, a), x), Eval(front, a), c[m]);
    }
  }

  lemma HornerDivided(x: int, a: int, q: int, e: int, last: int)
    ensures ((x - a) * q + e) * x + last == (x - a) * (q * x + e) + (e * a + last)
  {
    var d := x - a;
    assert (d * q + e) * x == d * (q * x) + e * x by { Spread(d, q, e, x); }
    assert d * (q * x + e) == d * (q * x) + d * e;
    assert d * e == x * e - a * e;
  }

  lemma Spread(d: int, q: int, e: int, x: int)
    ensures (d * q + e) * x == d * (q * x) + e * x
  {
    assert (d * q + e) * x == (d * q) * x + e * x;
    assert (d * q) * x == d * (q * x);
  }

  /** Only the zero polynomial has as many roots as coefficients. */
  lemma {:induction false} TooManyRoots(c: seq<int>, xs: seq<int>)
    requires |xs| == |c| && Distinct(xs) && forall i | 0 <= i < |xs| :: Eval(c, xs[i]) == 0
    ensures forall i | 0 <= i < |c| :: c[i] == 0
    decreases |c|
  {
    if c != [] {
      var m := |c| - 1;
      var a, q := xs[m], Quotient(c, xs[m]);
      forall i | 0 <= i < m ensures Eval(q, xs[..m][i]) == 0 {
        Divided(c, a, xs[i]);
        ProductZero(xs[i] - a, Eval(q, xs[i]));
      }
      TooManyRoots(q, xs[..m]);
      forall i | 0 <= i < |c| ensures c[i] == 0 {
        PrefixZero(c, a, i);
        PrefixZero(c, a, i + 1);
        assert c[..i + 1][..i] == c[..i];
      }
    }
  }

  lemma PrefixZero(c: seq<int>, a: int, i: nat)
    requires c != [] && i <= |c| && Eval(c, a) == 0 && forall k | 0 <= k < |c| - 1 :: Quotient(c, a)[k] == 0
    ensures Eval(c[..i], a) == 0
  {
    if i == |c| {
      assert c[..i] == c;
    } else if i > 0 {
      assert Quotient(c, a)[i - 1] == Eval(c[..i], a);
    }
  }

  lemma Determined(c: seq<int>, d: seq<int>, xs: seq<int>)
    requires |c| == |d| == |xs| && Distinct(xs) && forall i | 0 <= i < |xs| :: Eval(c, xs[i]) == Eval(d, xs[i])
    ensures c == d
  {
    hide Eval;
    var e := seq(|c|, i requires 0 <= i < |c| => c[i] - d[i]);
    forall i | 0 <= i < |xs| ensures Eval(e, xs[i]) == 0 {
      EvalShifted(e, c, d, -1, xs[i]);
    }
    TooManyRoots(e, xs);
    forall i | 0 <= i < |c| ensures c[i] == d[i] {
      assert e[i] == 0;
    }
  }

  /** With the same leading coefficient one point less is enough. */
  lemma DeterminedMonic(c: seq<int>, d: seq<int>, xs: seq<int>)
    requires |c| == |d| == |xs| + 1 && c[0] == d[0]
    requires Distinct(xs) && forall i | 0 <= i < |xs| :: Eval(c, xs[i]) == Eval(d, xs[i])
    ensures c == d
  {
    hide Eval;
    var e := seq(|c|, i requires 0 <= i < |c| => c[i] - d[i]);
    assert e == [0] + e[1..];
    forall i | 0 <= i < |xs| ensures Eval(e[1..], xs[i]) == 0 {
      EvalShifted(e, c, d, -1, xs[i]);
      EvalLeadingZero(e[1..], xs[i]);
    }
    TooManyRoots(e[1..], xs);
    forall i | 0 < i < |c| ensures c[i] == d[i] {
      assert e[1..][i - 1] == e[i];
    }
  }
}
