/**
 The polynomial filed under a share set: monic, with the members of the set as its only roots.
 A polynomial is its coefficients, highest degree first.
 */
module Polynomials {
  import opened Combinations

  function Eval(coefs: seq<int>, x: int): int {
    if coefs == [] then 0 else Eval(coefs[..|coefs| - 1], x) * x + coefs[|coefs| - 1]
  }

  function Product(xs: seq<int>): int {
    if xs == [] then 1 else xs[0] * Product(xs[1..])
  }

  function Sum(xs: seq<int>): int {
    if xs == [] then 0 else Sum(xs[..|xs| - 1]) + xs[|xs| - 1]
  }

  function Products(xss: seq<seq<int>>): (r: seq<int>)
    ensures |r| == |xss|
  {
    seq(|xss|, i requires 0 <= i < |xss| => Product(xss[i]))
  }

  function Negated(xs: seq<int>): (r: seq<int>)
    ensures |r| == |xs|
  {
    seq(|xs|, i requires 0 <= i < |xs| => -xs[i])
  }

  /** The `j`-th elementary symmetric sum. */
  function Elementary(ys: seq<int>, j: nat): int {
    if j == 0 then 1
    else if ys == [] then 0
    else ys[0] * Elementary(ys[1..], j - 1) + Elementary(ys[1..], j)
  }

  function Coefficients(ys: seq<int>, degree: nat): (r: seq<int>)
    ensures |r| == degree + 1
  {
    seq(degree + 1, j requires 0 <= j => Elementary(ys, j))
  }

  /** The product of `x - s` over the members of `roots`. */
  function RootProduct(roots: seq<int>, x: int): int {
    if roots == [] then 1 else (x - roots[0]) * RootProduct(roots[1..], x)
  }

  // ----- sums over choices are elementary symmetric sums

  lemma {:induction false} SumConcat(xs: seq<int>, ys: seq<int>)
    ensures Sum(xs + ys) == Sum(xs) + Sum(ys)
  {
    if ys == [] {
      assert xs + ys == xs;
    } else {
      SumConcat(xs, ys[..|ys| - 1]);
      assert (xs + ys)[..|xs + ys| - 1] == xs + ys[..|ys| - 1];
    }
  }

  lemma {:induction false} ProductSnoc(xs: seq<int>, y: int)
    ensures Product(xs + [y]) == Product(xs) * y
  {
    if xs == [] {
      assert [y][1..] == [];
    } else {
      ProductSnoc(xs[1..], y);
      assert (xs + [y])[1..] == xs[1..] + [y];
      assert xs[0] * (Product(xs[1..]) * y) == (xs[0] * Product(xs[1..])) * y;
    }
  }

  /** The sum, over all completions of a partial choice, of the products of the chosen elements. */
  lemma {:induction false} ChoiceProducts(elements: seq<int>, chosen: seq<nat>, k: nat, lo: nat)
    requires lo <= |elements| && forall i | 0 <= i < |chosen| :: chosen[i] < |elements|
    ensures Sum(Products(Found(elements, chosen, k, lo)))
         == Product(Pick(elements, chosen)) * Elementary(elements[lo..], k)
    decreases |elements| - lo, k
  {
    hide Found, Product, Pick;
    if k == 0 {
      FoundLeaf(elements, chosen, lo);
      assert Products([Pick(elements, chosen)]) == [Product(Pick(elements, chosen))];
    } else if lo == |elements| {
      FoundNone(elements, chosen, k, lo);
    } else {
      var heads := Found(elements, chosen + [lo], k - 1, lo + 1);
      var rest := Found(elements, chosen, k, lo + 1);
      FoundSplit(elements, chosen, k, lo);
      assert Products(heads + rest) == Products(heads) + Products(rest);
      SumConcat(Products(heads), Products(rest));
      ChoiceProducts(elements, chosen + [lo], k - 1, lo + 1);
      ChoiceProducts(elements, chosen, k, lo + 1);
      assert elements[lo..][1..] == elements[lo + 1..];
      PickSnoc(elements, chosen, lo);
      Distribute(Product(Pick(elements, chosen)), elements[lo],
                 Elementary(elements[lo + 1..], k - 1), Elementary(elements[lo + 1..], k));
    }
  }

  lemma PickSnoc(elements: seq<int>, chosen: seq<nat>, lo: nat)
    requires lo < |elements| && forall i | 0 <= i < |chosen| :: chosen[i] < |elements|
    ensures Product(Pick(elements, chosen + [lo])) == Product(Pick(elements, chosen)) * elements[lo]
  {
    assert Pick(elements, chosen + [lo]) == Pick(elements, chosen) + [elements[lo]];
    ProductSnoc(Pick(elements, chosen), elements[lo]);
  }

  lemma Distribute(p: int, e: int, a: int, b: int)
    ensures (p * e) * a + p * b == p * (e * a + b)
  {
  }

  // ----- the coefficients expand the product

  lemma {:induction false} EvalShifted(c: seq<int>, d: seq<int>, e: seq<int>, y: int, x: int)
    requires |c| == |d| == |e| && forall i | 0 <= i < |c| :: c[i] == d[i] + y * e[i]
    ensures Eval(c, x) == Eval(d, x) + y * Eval(e, x)
  {
    if c != [] {
      var m := |c| - 1;
      EvalShifted(c[..m], d[..m], e[..m], y, x);
      HornerShift(Eval(d[..m], x), Eval(e[..m], x), y, x, d[m], e[m]);
    }
  }

  lemma HornerShift(p: int, q: int, y: int, x: int, d: int, e: int)
    ensures (p + y * q) * x + (d + y * e) == (p * x + d) + y * (q * x + e)
  {
  }

  function Power(x: int, k: nat): int {
    if k == 0 then 1 else x * Power(x, k - 1)
  }

  /** The first coefficient is that of the highest power. */
  lemma {:induction false} EvalLeading(a: int, c: seq<int>, x: int)
    ensures Eval([a] + c, x) == a * Power(x, |c|) + Eval(c, x)
  {
    if c == [] {
      assert [a] + c == [a];
      assert Eval([a][..0], x) == 0;
    } else {
      var m := |c| - 1;
      EvalLeading(a, c[..m], x);
      assert ([a] + c)[..|c|] == [a] + c[..m];
      assert (a * Power(x, m) + Eval(c[..m], x)) * x == a * (x * Power(x, m)) + Eval(c[..m], x) * x by {
        PowerUp(a, Power(x, m), Eval(c[..m], x), x);
      }
    }
  }

  lemma PowerUp(a: int, p: int, e: int, x: int)
    ensures (a * p + e) * x == a * (x * p) + e * x
  {
    assert (a * p + e) * x == (a * p) * x + e * x;
    assert (a * p) * x == a * (x * p);
  }

  lemma {:induction false} EvalLeadingZero(c: seq<int>, x: int)
    ensures Eval([0] + c, x) == Eval(c, x)
  {
    if c == [] {
      assert [0] + c == [0];
      assert Eval([0][..0], x) == 0;
    } else {
      EvalLeadingZero(c[..|c| - 1], x);
      assert ([0] + c)[..|c|] == [0] + c[..|c| - 1];
    }
  }

  lemma {:induction false} ElementaryTooHigh(ys: seq<int>, j: nat)
    requires j > |ys|
    ensures Elementary(ys, j) == 0
  {
    if ys != [] {
      ElementaryTooHigh(ys[1..], j - 1);
      ElementaryTooHigh(ys[1..], j);
    }
  }

  /** Read from the highest degree down, the elementary symmetric sums of the negated roots expand
      the product of `x - s` over the roots. */
  lemma {:induction false} CoefficientsExpandProduct(roots: seq<int>, x: int)
    ensures Eval(Coefficients(Negated(roots), |roots|), x) == RootProduct(roots, x)
    decreases |roots|
  {
    if roots == [] {
      NoRoots(x);
    } else {
      var ys, m := Negated(roots), |roots| - 1;
      assert Negated(roots[1..]) == ys[1..];
      assert RootProduct(roots, x) == (x - roots[0]) * RootProduct(roots[1..], x);
      hide Coefficients, Elementary, Eval, RootProduct;
      var inner := Coefficients(ys[1..], m);
      CoefficientsExpandProduct(roots[1..], x);
      EntriesShift(ys, m);
      EvalShifted(Coefficients(ys, m + 1), inner + [0], [0] + inner, ys[0], x);
      EvalLeadingZero(inner, x);
      EvalRaised(inner, x);
      RootFactor(x, roots[0], RootProduct(roots[1..], x));
    }
  }

  lemma NoRoots(x: int)
    ensures Eval(Coefficients(Negated([]), 0), x) == RootProduct([], x)
  {
    assert Coefficients(Negated([]), 0)[..0] == [];
  }

  lemma EvalRaised(c: seq<int>, x: int)
    ensures Eval(c + [0], x) == Eval(c, x) * x
  {
    assert (c + [0])[..|c|] == c;
  }

  /** One more root: the coefficients moved up, plus its multiple of the coefficients as they were. */
  lemma EntriesShift(ys: seq<int>, m: nat)
    requires |ys| == m + 1
    ensures var inner := Coefficients(ys[1..], m);
            forall j | 0 <= j < m + 2 ::
              Coefficients(ys, m + 1)[j] == (inner + [0])[j] + ys[0] * ([0] + inner)[j]
  {
    var inner := Coefficients(ys[1..], m);
    ElementaryTooHigh(ys[1..], m + 1);
    forall j | 0 <= j < m + 2
      ensures Coefficients(ys, m + 1)[j] == (inner + [0])[j] + ys[0] * ([0] + inner)[j]
    {
      assert j <= m ==> (inner + [0])[j] == Elementary(ys[1..], j);
      assert j > 0 ==> ([0] + inner)[j] == Elementary(ys[1..], j - 1);
    }
  }

  lemma RootFactor(x: int, s: int, p: int)
    ensures p * x + 0 + (-s) * p == (x - s) * p
  {
  }

  lemma {:induction false} RootProductZero(roots: seq<int>, x: int)
    ensures RootProduct(roots, x) == 0 <==> x in roots
  {
    if roots != [] {
      RootProductZero(roots[1..], x);
      assert x in roots <==> x == roots[0] || x in roots[1..];
      ProductZero(x - roots[0], RootProduct(roots[1..], x));
    }
  }

  lemma ProductZero(a: int, b: int)
    ensures a * b == 0 <==> a == 0 || b == 0
  {
  }

  /** The polynomial of a share set is zero at exactly the parties of the set. */
  lemma ZeroExactlyOnRoots(roots: seq<int>, x: int)
    ensures Eval(Coefficients(Negated(roots), |roots|), x) == 0 <==> x in roots
  {
    CoefficientsExpandProduct(roots, x);
    RootProductZero(roots, x);
  }

  // ----- size of the entries

  function Abs(a: int): (r: int)
    ensures r >= 0
  {
    if a < 0 then -a else a
  }

  function Magnitude(xs: seq<int>): int {
    if xs == [] then 1 else (1 + Abs(xs[0])) * Magnitude(xs[1..])
  }

  /** No entry exceeds the product of `1 + |s|` over the set, so the machine `int` holds every entry
      as soon as it holds that product. */
  lemma {:induction false} EntriesBounded(ys: seq<int>, j: nat)
    ensures Abs(Elementary(ys, j)) <= Magnitude(ys)
    ensures Magnitude(ys) >= 1
  {
    if ys != [] {
      EntriesBounded(ys[1..], j);
      if j > 0 {
        EntriesBounded(ys[1..], j - 1);
        ScaledBound(ys[0], Elementary(ys[1..], j - 1), Elementary(ys[1..], j), Magnitude(ys[1..]));
      } else {
        ScaledBound(ys[0], 0, 1, Magnitude(ys[1..]));
      }
    }
  }

  lemma ScaledBound(a: int, b: int, c: int, m: int)
    requires Abs(b) <= m && Abs(c) <= m
    ensures Abs(a * b + c) <= (1 + Abs(a)) * m
    ensures (1 + Abs(a)) * m >= m
  {
    var a' := Abs(a);
    var b' := if a >= 0 then b else -b;
    MulMonotone(a', b', m);
    assert a' * b' == a * b by { SignsCancel(a, b); }
    assert (1 + a') * m == m + a' * m;
  }

  lemma SignsCancel(a: int, b: int)
    ensures (-a) * (-b) == a * b
  {
  }

  lemma MulMonotone(a: int, b: int, m: int)
    requires a >= 0 && -m <= b <= m
    ensures -(a * m) <= a * b <= a * m
    ensures a * m >= 0
  {
    assert a * (m - b) >= 0;
    assert a * (m + b) >= 0;
  }

  // ----- the machine integers

  predicate InInt(x: int) { -0x8000_0000 <= x < 0x8000_0000 }

  /** What a 32-bit `int` in two's complement holds of a result. */
  function ToInt(x: int): (r: int)
    ensures InInt(r) && (InInt(x) <==> r == x)
  {
    (x + 0x8000_0000) % 0x1_0000_0000 - 0x8000_0000
  }

  function InMachine(xs: seq<int>): (r: seq<int>)
    ensures |r| == |xs|
  {
    seq(|xs|, i requires 0 <= i < |xs| => ToInt(xs[i]))
  }

  /** Words with the same image differ by a multiple of the range. */
  lemma ToIntMultiple(x: int, y: int) returns (k: int)
    requires ToInt(x) == ToInt(y)
    ensures x == y + 0x1_0000_0000 * k
  {
    k := (x + 0x8000_0000) / 0x1_0000_0000 - (y + 0x8000_0000) / 0x1_0000_0000;
  }

  lemma ToIntShifted(x: int, k: int)
    ensures ToInt(x + 0x1_0000_0000 * k) == ToInt(x)
  {
  }

  /** Additions and multiplications may be cut to the machine range at any time. */
  lemma ToIntOperations(x: int, y: int, x': int, y': int)
    requires ToInt(x) == ToInt(x') && ToInt(y) == ToInt(y')
    ensures ToInt(x + y) == ToInt(x' + y') && ToInt(x * y) == ToInt(x' * y')
  {
    var k := ToIntMultiple(x, x');
    var l := ToIntMultiple(y, y');
    ToIntShifted(x' + y', k + l);
    ToIntShifted(x' * y', k * y + x' * l);
    ProductShifted(x', y', k, l, 0x1_0000_0000);
  }

  lemma ProductShifted(x: int, y: int, k: int, l: int, m: int)
    ensures (x + m * k) * (y + m * l) == x * y + m * (k * (y + m * l) + x * l)
  {
    var z := y + m * l;
    assert (x + m * k) * z == x * z + m * (k * z) by { SplitFirst(x, m, k, z); }
    assert x * z == x * y + m * (x * l) by { SplitFirst(y, m, l, x); }
    assert m * (k * z) + m * (x * l) == m * (k * z + x * l);
  }

  lemma SplitFirst(a: int, m: int, k: int, z: int)
    ensures (a + m * k) * z == a * z + m * (k * z) && z * (a + m * k) == z * a + m * (z * k)
  {
  }

  /** Every running product of the multiplication loop is in range. */
  predicate ProductFits(temp: seq<int>) {
    forall n | 0 <= n <= |temp| :: InInt(Product(temp[..n]))
  }

  /** So is every running sum, and every product that is added. */
  predicate SumFits(result: seq<seq<int>>) {
    && (forall i | 0 <= i < |result| :: ProductFits(result[i]))
    && (forall m | 0 <= m <= |result| :: InInt(Sum(Products(result[..m]))))
  }

  /** Every value that `generateCoefficients` forms is in range. */
  ghost predicate AllFit(T_set: seq<int>, threshold: nat) {
    && (forall i | 0 <= i < |T_set| :: InInt(Negated(T_set)[i]))
    && (forall j: nat | 1 <= j <= threshold :: SumFits(Found(Negated(T_set), [], j, 0)))
  }

  function Absolutes(xs: seq<int>): (r: seq<int>)
    ensures |r| == |xs|
  {
    seq(|xs|, i requires 0 <= i < |xs| => Abs(xs[i]))
  }

  lemma {:induction false} AbsoluteMagnitude(xs: seq<int>)
    ensures Magnitude(Absolutes(xs)) == Magnitude(xs) >= 1
    ensures Magnitude(Negated(xs)) == Magnitude(xs)
  {
    if xs != [] {
      AbsoluteMagnitude(xs[1..]);
      assert Absolutes(xs)[1..] == Absolutes(xs[1..]);
      assert Negated(xs)[1..] == Negated(xs[1..]);
      MulMonotone(Abs(xs[0]), Magnitude(xs[1..]), Magnitude(xs[1..]));
      assert (1 + Abs(xs[0])) * Magnitude(xs[1..]) == Magnitude(xs[1..]) + Abs(xs[0]) * Magnitude(xs[1..]);
    }
  }

  lemma AbsProduct(a: int, b: int)
    ensures Abs(a * b) == Abs(a) * Abs(b)
  {
    SignsCancel(a, b);
    if a >= 0 && b >= 0 {
      MulMonotone(a, b, b);
    } else if a >= 0 {
      MulMonotone(a, -b, -b);
    } else if b >= 0 {
      MulMonotone(-a, b, b);
    } else {
      MulMonotone(-a, -b, -b);
    }
  }

  lemma {:induction false} ProductOfAbsolutes(xs: seq<int>)
    ensures Product(Absolutes(xs)) == Abs(Product(xs))
  {
    if xs != [] {
      ProductOfAbsolutes(xs[1..]);
      assert Absolutes(xs)[1..] == Absolutes(xs[1..]);
      AbsProduct(xs[0], Product(xs[1..]));
    }
  }

  /** A running product stays below the product of `1 + |x|` over the whole list. */
  lemma {:induction false} PrefixProduct(xs: seq<int>, n: nat)
    requires n <= |xs|
    ensures Abs(Product(xs[..n])) <= Magnitude(xs)
    decreases n
  {
    AbsoluteMagnitude(xs);
    if n > 0 {
      PrefixProduct(xs[1..], n - 1);
      assert xs[..n][1..] == xs[1..][..n - 1];
      ScaledBound(xs[0], Product(xs[1..][..n - 1]), 0, Magnitude(xs[1..]));
    }
  }

  /** Choosing only some of the members does not raise the bound. */
  lemma {:induction false} PickedMagnitude(ys: seq<int>, c: seq<nat>, lo: nat)
    requires lo <= |ys| && IsChoice(c, |ys|, |c|, lo)
    ensures Magnitude(Pick(ys, c)) <= Magnitude(ys[lo..])
    decreases |ys| - lo
  {
    AbsoluteMagnitude(ys[lo..]);
    if c != [] {
      assert lo <= c[0] < |ys|;
      var rest := ys[lo + 1..];
      assert ys[lo..][1..] == rest;
      AbsoluteMagnitude(rest);
      ScaledBound(ys[lo], 0, 0, Magnitude(rest));
      if c[0] == lo {
        PickedMagnitude(ys, c[1..], lo + 1);
        assert Pick(ys, c)[1..] == Pick(ys, c[1..]);
        ScaledMonotone(1 + Abs(ys[lo]), Magnitude(Pick(ys, c[1..])), Magnitude(rest));
      } else {
        PickedMagnitude(ys, c, lo + 1);
      }
    }
  }

  lemma ScaledMonotone(k: int, a: int, b: int)
    requires k >= 0 && a <= b
    ensures k * a <= k * b
  {
    assert k * (b - a) >= 0;
  }

  /** A running sum stays below the sum of the absolute values. */
  lemma {:induction false} PrefixSum(xs: seq<int>, m: nat)
    requires m <= |xs|
    ensures Abs(Sum(xs[..m])) <= Sum(Absolutes(xs))
    decreases |xs|
  {
    if xs != [] {
      var front := xs[..|xs| - 1];
      assert Absolutes(xs)[..|xs| - 1] == Absolutes(front);
      if m < |xs| {
        PrefixSum(front, m);
        assert front[..m] == xs[..m];
      } else {
        PrefixSum(front, m - 1);
        assert front[..m - 1] == front && xs[..m] == xs;
      }
    }
  }

  lemma FoundAt(ys: seq<int>, j: nat, i: nat)
    requires i < |Choices(|ys|, j, 0)|
    ensures var c := Choices(|ys|, j, 0)[i];
            IsChoice(c, |ys|, j, 0) && i < |Found(ys, [], j, 0)| && Found(ys, [], j, 0)[i] == Pick(ys, c)
  {
    hide Choices;
    var c := Choices(|ys|, j, 0)[i];
    EveryChoiceOnce(|ys|, j);
    assert c in Choices(|ys|, j, 0);
    assert [] + c == c;
  }

  /** The products of the absolute values are the absolute values of the products. */
  lemma FoundAbsolutes(ys: seq<int>, j: nat)
    ensures Products(Found(Absolutes(ys), [], j, 0)) == Absolutes(Products(Found(ys, [], j, 0)))
  {
    hide Choices, Product;
    var a, b := Found(Absolutes(ys), [], j, 0), Found(ys, [], j, 0);
    assert |a| == |b| == |Choices(|ys|, j, 0)|;
    forall i | 0 <= i < |a| ensures Product(a[i]) == Abs(Product(b[i])) {
      FoundAt(ys, j, i);
      FoundAt(Absolutes(ys), j, i);
      assert a[i] == Absolutes(b[i]);
      ProductOfAbsolutes(b[i]);
    }
  }

  /** No running sum of products exceeds the product of `1 + |s|` over the set. */
  lemma RunningSums(ys: seq<int>, j: nat, m: nat)
    requires m <= |Found(ys, [], j, 0)|
    ensures Abs(Sum(Products(Found(ys, [], j, 0)[..m]))) <= Magnitude(ys)
  {
    hide Found, Product, Elementary;
    var result := Found(ys, [], j, 0);
    assert Products(result[..m]) == Products(result)[..m];
    PrefixSum(Products(result), m);
    FoundAbsolutes(ys, j);
    ChoiceProducts(Absolutes(ys), [], j, 0);
    NothingPicked(Absolutes(ys));
    assert Absolutes(ys)[0..] == Absolutes(ys);
    EntriesBounded(Absolutes(ys), j);
    AbsoluteMagnitude(ys);
  }

  lemma NothingPicked(ys: seq<int>)
    ensures Product(Pick(ys, [])) == 1
  {
  }

  /** When the product of `1 + |s|` over the set is in range, so is every value that is formed. */
  lemma MagnitudeFits(T_set: seq<int>, threshold: nat)
    requires Magnitude(T_set) < 0x8000_0000
    ensures AllFit(T_set, threshold)
  {
    hide Found, Product, Sum, Magnitude, Choices;
    var ys := Negated(T_set);
    AbsoluteMagnitude(T_set);
    forall i | 0 <= i < |T_set| ensures InInt(ys[i]) {
      MemberBelow(T_set, i);
    }
    forall j: nat | 1 <= j <= threshold ensures SumFits(Found(ys, [], j, 0)) {
      SumsFit(ys, j);
    }
  }

  lemma SumsFit(ys: seq<int>, j: nat)
    requires Magnitude(ys) < 0x8000_0000
    ensures SumFits(Found(ys, [], j, 0))
  {
    hide Product, Sum, Magnitude, Choices;
    var result := Found(ys, [], j, 0);
    forall i | 0 <= i < |result| ensures ProductFits(result[i]) {
      FoundAt(ys, j, i);
      var c := Choices(|ys|, j, 0)[i];
      assert ys[0..] == ys;
      PickedMagnitude(ys, c, 0);
      forall n | 0 <= n <= |result[i]| ensures InInt(Product(result[i][..n])) {
        PrefixProduct(result[i], n);
      }
    }
    forall m | 0 <= m <= |result| ensures InInt(Sum(Products(result[..m]))) {
      RunningSums(ys, j, m);
    }
  }

  lemma {:induction false} MemberBelow(xs: seq<int>, i: nat)
    requires i < |xs|
    ensures Abs(xs[i]) < Magnitude(xs)
  {
    AbsoluteMagnitude(xs[1..]);
    ScaledBound(xs[0], Magnitude(xs[1..]), 0, Magnitude(xs[1..]));
    ScaledMonotone(1 + Abs(xs[0]), 1, Magnitude(xs[1..]));
    if i > 0 {
      MemberBelow(xs[1..], i - 1);
    }
  }

  // ----- the coefficient loop

  lemma {:induction false} ElementaryInMachine(ys: seq<int>, j: nat)
    ensures ToInt(Elementary(InMachine(ys), j)) == ToInt(Elementary(ys, j))
  {
    hide ToInt;
    if j > 0 && ys != [] {
      var rest := ys[1..];
      assert InMachine(ys)[1..] == InMachine(rest);
      ElementaryInMachine(rest, j - 1);
      ElementaryInMachine(rest, j);
      ToIntOperations(InMachine(ys)[0], Elementary(InMachine(rest), j - 1), ys[0], Elementary(rest, j - 1));
      ToIntOperations(InMachine(ys)[0] * Elementary(InMachine(rest), j - 1), Elementary(InMachine(rest), j),
                      ys[0] * Elementary(rest, j - 1), Elementary(rest, j));
    }
  }

  /** `generateCoefficients` on machine integers; `fits` tells whether no operation overflows. */
  method GenerateCoefficients(T_set: seq<int>, threshold: nat) returns (coefficients: seq<int>, fits: bool)
    ensures coefficients == InMachine(Coefficients(Negated(T_set), threshold))
    ensures fits <==> AllFit(T_set, threshold)
  {
    hide Found, Elementary, Sum, SumFits, ToInt;
    var exact := Negated(T_set);
    var negated := InMachine(exact);
    coefficients := [1];
    ElementaryZero(exact);
    fits := forall i | 0 <= i < |T_set| :: InInt(exact[i]);
    assert fits ==> negated == exact;
    for j := 1 to threshold + 1
      invariant coefficients == InMachine(Coefficients(exact, j - 1))
      invariant fits ==> negated == exact
      invariant fits <==>
                  (forall i | 0 <= i < |T_set| :: InInt(exact[i])) &&
                  (forall l: nat | 1 <= l < j :: SumFits(Found(exact, [], l, 0)))
    {
      var search := new Search(j);
      search.GetCombinations(negated, j, 0, 0);
      var coef, inRange := SumOfProducts(search.result);
      assert search.pos[..0] == [];
      assert search.result == Found(negated, [], j, 0);
      ChoiceProducts(negated, [], j, 0);
      NothingPicked(negated);
      assert negated[0..] == negated;
      ElementaryInMachine(exact, j);
      coefficients := coefficients + [coef];
      fits := fits && inRange;
    }
  }

  lemma ElementaryZero(ys: seq<int>)
    ensures Elementary(ys, 0) == 1 && ToInt(1) == 1
  {
  }

  method SumOfProducts(result: seq<seq<int>>) returns (coef: int, fits: bool)
    ensures coef == ToInt(Sum(Products(result)))
    ensures fits <==> SumFits(result)
  {
    hide Product, ProductFits, ToInt, Sum, Products;
    NoSum(result[..0]);
    coef, fits := 0, true;
    for m := 0 to |result|
      invariant coef == ToInt(Sum(Products(result[..m])))
      invariant fits <==>
                  (forall i | 0 <= i < m :: ProductFits(result[i])) &&
                  (forall l | 0 <= l <= m :: InInt(Sum(Products(result[..l]))))
    {
      var tmp, inRange := MultiplyOut(result[m]);
      ghost var sum, product := Sum(Products(result[..m])), Product(result[m]);
      SumNext(result, m);
      ToIntOperations(coef, tmp, sum, product);
      FitProduct(result[m]);
      assert fits && inRange ==> coef == sum && tmp == product;
      fits := fits && inRange && InInt(coef + tmp);
      coef := ToInt(coef + tmp);
    }
    assert result[..|result|] == result;
  }

  lemma SumNext(result: seq<seq<int>>, m: nat)
    requires m < |result|
    ensures Sum(Products(result[..m + 1])) == Sum(Products(result[..m])) + Product(result[m])
  {
    hide Product;
    assert Products(result[..m + 1])[..m] == Products(result[..m]);
  }

  lemma NoSum(result: seq<seq<int>>)
    requires result == []
    ensures Sum(Products(result)) == 0 && ToInt(0) == 0
  {
  }

  lemma FitProduct(temp: seq<int>)
    ensures ProductFits(temp) ==> InInt(Product(temp))
  {
    assert temp[..|temp|] == temp;
  }

  method MultiplyOut(temp: seq<int>) returns (tmp: int, fits: bool)
    ensures tmp == ToInt(Product(temp))
    ensures fits <==> ProductFits(temp)
  {
    hide ToInt;
    tmp, fits := 1, true;
    for n := 0 to |temp|
      invariant tmp == ToInt(Product(temp[..n]))
      invariant fits <==> forall l | 0 <= l <= n :: InInt(Product(temp[..l]))
    {
      assert temp[..n + 1] == temp[..n] + [temp[n]];
      ProductSnoc(temp[..n], temp[n]);
      ToIntOperations(tmp, temp[n], Product(temp[..n]), temp[n]);
      assert fits ==> tmp == Product(temp[..n]);
      fits := fits && InInt(tmp * temp[n]);
      tmp := ToInt(tmp * temp[n]);
    }
    assert temp[..|temp|] == temp;
  }
}
