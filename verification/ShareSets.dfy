/**
 The share sets under which keys are filed: the sorted parties that do not get a key. Different
 generators and rotation-inequivalent codes file under different sets.
 */
module ShareSets {
  import opened Bits
  import opened Sequences
  import opened Schedules
  import opened Polynomials

  // ----- sorting

  function Insert(x: int, xs: seq<int>): (r: seq<int>)
    ensures multiset(r) == multiset(xs) + multiset{x}
  {
    if xs == [] || xs[|xs| - 1] <= x then xs + [x]
    else
      assert xs == xs[..|xs| - 1] + [xs[|xs| - 1]];
      Insert(x, xs[..|xs| - 1]) + [xs[|xs| - 1]]
  }

  /** `std::sort`. */
  function Sort(xs: seq<int>): (r: seq<int>)
    ensures multiset(r) == multiset(xs)
  {
    if xs == [] then []
    else
      assert xs == xs[..|xs| - 1] + [xs[|xs| - 1]];
      Insert(xs[|xs| - 1], Sort(xs[..|xs| - 1]))
  }

  predicate Ordered(xs: seq<int>) {
    forall i, j | 0 <= i < j < |xs| :: xs[i] <= xs[j]
  }

  lemma {:induction false} InsertOrdered(x: int, xs: seq<int>)
    requires Ordered(xs)
    ensures Ordered(Insert(x, xs))
  {
    if xs != [] && x < xs[|xs| - 1] {
      var m := |xs| - 1;
      InsertOrdered(x, xs[..m]);
      var r := Insert(x, xs[..m]);
      InsertBelow(x, xs[..m], xs[m]);
      AppendOrdered(r, xs[m]);
    } else {
      AppendOrdered(xs, x);
    }
  }

  lemma InsertBelow(x: int, xs: seq<int>, top: int)
    requires x <= top && forall i | 0 <= i < |xs| :: xs[i] <= top
    ensures forall i | 0 <= i < |Insert(x, xs)| :: Insert(x, xs)[i] <= top
  {
    hide Insert;
    forall i | 0 <= i < |Insert(x, xs)| ensures Insert(x, xs)[i] <= top {
      assert Insert(x, xs)[i] in multiset(xs) + multiset{x};
    }
  }

  lemma AppendOrdered(xs: seq<int>, x: int)
    requires Ordered(xs) && (xs != [] ==> xs[|xs| - 1] <= x)
    ensures Ordered(xs + [x])
  {
  }

  lemma {:induction false} InsertSum(x: int, xs: seq<int>)
    ensures Sum(Insert(x, xs)) == Sum(xs) + x
  {
    if xs == [] || xs[|xs| - 1] <= x {
      assert (xs + [x])[..|xs|] == xs;
    } else {
      var m := |xs| - 1;
      InsertSum(x, xs[..m]);
      var r := Insert(x, xs[..m]);
      assert (r + [xs[m]])[..|r|] == r;
    }
  }

  lemma {:induction false} SortFacts(xs: seq<int>)
    ensures Ordered(Sort(xs)) && Sum(Sort(xs)) == Sum(xs) && |Sort(xs)| == |xs|
    ensures forall x :: x in Sort(xs) <==> x in xs
  {
    if xs != [] {
      SortFacts(xs[..|xs| - 1]);
      InsertOrdered(xs[|xs| - 1], Sort(xs[..|xs| - 1]));
      InsertSum(xs[|xs| - 1], Sort(xs[..|xs| - 1]));
    }
    SameMembers(Sort(xs), xs);
  }

  lemma SameMembers(xs: seq<int>, ys: seq<int>)
    requires multiset(xs) == multiset(ys)
    ensures |xs| == |ys| && forall x :: x in xs <==> x in ys
  {
    assert |multiset(xs)| == |xs| && |multiset(ys)| == |ys|;
    forall x ensures x in xs <==> x in ys {
      assert x in xs <==> x in multiset(xs);
      assert x in ys <==> x in multiset(ys);
    }
  }

  // ----- share sets

  /** The key of the map `rss_share_seeds`: the sorted parties without the key that `p` generates. */
  function ShareSet(code: int, n: nat, p: int): (r: seq<int>)
    requires n > 0
  {
    Sort(WithoutAccess(code, n, p))
  }

  lemma ShareSetMembers(code: int, n: nat, p: int)
    requires n > 0
    ensures forall x :: x in ShareSet(code, n, p) <==> x in WithoutAccess(code, n, p)
    ensures |ShareSet(code, n, p)| == |Positions(code, n, false)|
    ensures Sum(ShareSet(code, n, p)) == Sum(WithoutAccess(code, n, p))
  {
    SortFacts(WithoutAccess(code, n, p));
  }

  // ----- one code: different generators have different share sets

  /** Moving every member of a list around the ring from the same start adds the start once per
      member, up to whole turns. */
  lemma {:induction false} RingSum(zs: seq<int>, ws: seq<int>, p: int, n: nat) returns (turns: int)
    requires 1 <= p <= n && |zs| == |ws|
    requires forall k | 0 <= k < |zs| :: 0 <= zs[k] <= n && ws[k] == Ring(p, zs[k], n)
    ensures Sum(ws) == |zs| * p + Sum(zs) - n * turns
  {
    if zs == [] {
      turns := 0;
    } else {
      var m := |zs| - 1;
      turns := RingSum(zs[..m], ws[..m], p, n);
      RingLinear(p, zs[m], n);
      assert (m + 1) * p == m * p + p;
      if p + zs[m] > n {
        assert n * (turns + 1) == n * turns + n;
        turns := turns + 1;
      }
    }
  }

  function Backwards(xs: seq<int>): (r: seq<int>)
    ensures |r| == |xs|
  {
    seq(|xs|, k requires 0 <= k < |xs| => xs[|xs| - 1 - k])
  }

  lemma SameCodeSameGenerator(code: int, n: nat, t: nat, p: int, p': int)
    requires IsCode(code, n, t) && 1 <= p <= n && 1 <= p' <= n
    requires ShareSet(code, n, p) == ShareSet(code, n, p')
    ensures p == p'
  {
    hide Positions, Ring, Sort;
    PositionsSplit(code, n);
    ShareSetMembers(code, n, p);
    ShareSetMembers(code, n, p');
    var zeros := Backwards(Positions(code, n, false));
    var turns := RingSum(zeros, WithoutAccess(code, n, p), p, n);
    var turns' := RingSum(zeros, WithoutAccess(code, n, p'), p', n);
    WholeTurns(n, t, p, p', turns, turns');
  }

  /** With `n = 2t + 1` the factor `t` is invertible modulo `n`. */
  lemma WholeTurns(n: int, t: int, p: int, p': int, turns: int, turns': int)
    requires n == 2 * t + 1 && 1 <= p <= n && 1 <= p' <= n
    requires t * p - n * turns == t * p' - n * turns'
    ensures p == p'
  {
    var d, c := p - p', turns - turns';
    Differences(t, p, p');
    Differences(n, turns, turns');
    assert t * d == n * c;
    Differences(n, d, 2 * c);
    assert n * d == 2 * (t * d) + d by { Doubled(t, d); }
    assert n * (2 * c) == 2 * (n * c);
    MulGap(n, d - 2 * c);
  }

  lemma Differences(a: int, x: int, y: int)
    ensures a * (x - y) == a * x - a * y
  {
  }

  lemma Doubled(t: int, d: int)
    ensures (2 * t + 1) * d == 2 * (t * d) + d
  {
  }

  // ----- different codes: a shared share set makes them rotations of each other

  function Wrap(i: nat, n: nat): nat {
    if i < n then i else i - n
  }

  /** `code'` is `code` turned by `d` places. */
  ghost predicate Rotated(code: int, code': int, n: nat, d: nat) {
    forall i: nat | i < n :: Bit(code', i) == Bit(code, Wrap(i + d, n))
  }

  lemma SameShareSetRotates(code: int, code': int, n: nat, p: int, p': int)
    requires Bit(code, 0) && Bit(code', 0) && 1 <= p <= n && 1 <= p' <= n
    requires ShareSet(code, n, p) == ShareSet(code', n, p')
    ensures Rotated(code, code', n, Distance(p, p', n))
  {
    hide WithoutAccess, ShareSet;
    forall i: nat | i < n ensures Bit(code', i) == Bit(code, Wrap(i + Distance(p, p', n), n)) {
      var q := if p' + i <= n then p' + i else p' + i - n;
      ShareSetMembers(code, n, p);
      ShareSetMembers(code', n, p');
      OutsideByBit(code, n, p, q);
      OutsideByBit(code', n, p', q);
    }
  }

  /** Rotating the code and the generator against each other leaves the share set alone. */
  lemma RotatedSameMembers(code: int, code': int, n: nat, d: nat, p: int, p': int)
    requires Bit(code, 0) && Bit(code', 0) && 1 <= p <= n && 1 <= p' <= n
    requires Rotated(code, code', n, d) && d == Distance(p, p', n)
    ensures forall q | 1 <= q <= n :: q in ShareSet(code, n, p) <==> q in ShareSet(code', n, p')
  {
    hide WithoutAccess, ShareSet;
    forall q | 1 <= q <= n ensures q in ShareSet(code, n, p) <==> q in ShareSet(code', n, p') {
      ShareSetMembers(code, n, p);
      ShareSetMembers(code', n, p');
      OutsideByBit(code, n, p, q);
      OutsideByBit(code', n, p', q);
      assert Wrap(Distance(p', q, n) + d, n) == Distance(p, q, n);
    }
  }

  // ----- the seed map

  /** Codes that the runtime accepts, no two of them rotations of each other. */
  ghost predicate IsSeedMap(seeds: seq<int>, n: nat, t: nat) {
    && (forall s | 0 <= s < |seeds| :: IsCode(seeds[s], n, t))
    && (forall s, s', d: nat | 0 <= s < |seeds| && 0 <= s' < |seeds| && s != s' && d < n ::
          !Rotated(seeds[s], seeds[s'], n, d))
  }

  /** No two keys of one set-up are filed under the same share set. */
  lemma ShareSetsDistinct(seeds: seq<int>, n: nat, t: nat, s: nat, p: int, s': nat, p': int)
    requires IsSeedMap(seeds, n, t) && s < |seeds| && s' < |seeds| && 1 <= p <= n && 1 <= p' <= n
    requires ShareSet(seeds[s], n, p) == ShareSet(seeds[s'], n, p')
    ensures s == s' && p == p'
  {
    hide ShareSet, IsCode, Rotated;
    assert IsCode(seeds[s], n, t) && IsCode(seeds[s'], n, t);
    CodeHasGenerator(seeds[s], n, t);
    CodeHasGenerator(seeds[s'], n, t);
    SameShareSetRotates(seeds[s], seeds[s'], n, p, p');
    SameCodeSameGenerator(seeds[s], n, t, p, p') by {
      assert s == s';
    }
  }

  lemma CodeHasGenerator(code: int, n: nat, t: nat)
    requires IsCode(code, n, t)
    ensures Bit(code, 0)
  {
  }

  // ----- the compiler's choice of codes

  /** The word turned right by `i` places. */
  function TurnRight(v: nat, n: nat, i: nat): int
    requires i <= n
  {
    (v % Pow2(i)) * Pow2(n - i) + v / Pow2(i)
  }

  /** The test that keeps a word in the seed map: no turn of it is smaller. */
  ghost predicate LeastOfTurns(v: nat, n: nat) {
    v < Pow2(n) && forall i: nat | i < n :: v <= TurnRight(v, n, i)
  }

  lemma JoinRange(low: int, high: int, a: int, b: int)
    requires 0 <= low < a && 0 <= high < b
    ensures 0 <= low * b + high < a * b
  {
    ProductMonotone(b, 0, low);
    ProductMonotone(b, low, a - 1);
    Differences(b, a, 1);
  }

  lemma SplitWord(v: nat, n: nat, i: nat)
    requires v < Pow2(n) && i <= n
    ensures v == v % Pow2(i) + Pow2(i) * (v / Pow2(i))
    ensures 0 <= v % Pow2(i) < Pow2(i) && 0 <= v / Pow2(i) < Pow2(n - i)
  {
    hide Pow2;
    var k, high := Pow2(i), v / Pow2(i);
    Pow2Add(i, n - i);
    DivModUnique(v, k, high, v % k);
    if high >= Pow2(n - i) {
      ProductMonotone(k, Pow2(n - i), high);
      assert false;
    }
  }

  lemma TurnRightBits(v: nat, n: nat, i: nat)
    requires v < Pow2(n) && i <= n
    ensures 0 <= TurnRight(v, n, i) < Pow2(n)
    ensures forall j: nat | j < n :: Bit(TurnRight(v, n, i), j) == Bit(v, Wrap(j + i, n))
  {
    hide Pow2, Bit;
    var low, high := v % Pow2(i), v / Pow2(i);
    SplitWord(v, n, i);
    Pow2Add(i, n - i);
    JoinRange(low, high, Pow2(i), Pow2(n - i));
    forall j: nat | j < n ensures Bit(TurnRight(v, n, i), j) == Bit(v, Wrap(j + i, n)) {
      JoinTurned(low, high, i, n - i, j);
    }
  }

  /** Gluing two parts together the other way round turns the word. */
  lemma JoinTurned(low: nat, high: nat, i: nat, k: nat, j: nat)
    requires low < Pow2(i) && high < Pow2(k) && j < i + k
    ensures Bit(low * Pow2(k) + high, j) == Bit(low + Pow2(i) * high, Wrap(j + i, i + k))
  {
    hide Pow2, Bit;
    BitJoin(high, low, k, j);
    BitJoin(low, high, i, Wrap(j + i, i + k));
  }

  lemma RotatedIsTurn(v: nat, w: nat, n: nat, d: nat)
    requires v < Pow2(n) && w < Pow2(n) && d < n && Rotated(v, w, n, d)
    ensures w == TurnRight(v, n, d)
  {
    TurnRightBits(v, n, d);
    SameBits(w, TurnRight(v, n, d), n);
  }

  lemma RotatedBack(v: int, w: int, n: nat, d: nat)
    requires d < n && Rotated(v, w, n, d)
    ensures Rotated(w, v, n, Wrap(n - d, n))
  {
    forall i: nat | i < n ensures Bit(v, i) == Bit(w, Wrap(i + Wrap(n - d, n), n)) {
      var j := Wrap(i + Wrap(n - d, n), n);
      assert Wrap(j + d, n) == i;
    }
  }

  /** Two different words that both pass the test are not rotations of each other. */
  lemma LeastTurnsInequivalent(v: nat, w: nat, n: nat, d: nat)
    requires LeastOfTurns(v, n) && LeastOfTurns(w, n) && d < n && Rotated(v, w, n, d)
    ensures v == w
  {
    RotatedIsTurn(v, w, n, d);
    RotatedBack(v, w, n, d);
    RotatedIsTurn(w, v, n, Wrap(n - d, n));
  }

  lemma EvenTurn(v: nat, n: nat)
    requires v % 2 == 0 && n > 1
    ensures TurnRight(v, n, 1) == v / 2
  {
    assert Pow2(1) == 2;
  }

  /** A nonzero word that passes the test has its lowest bit set. */
  lemma LeastTurnIsOdd(v: nat, n: nat)
    requires LeastOfTurns(v, n) && v > 0 && n > 1
    ensures Bit(v, 0)
  {
    BitHalf(v, 1);
    assert Pow2(1) == 2;
    if v % 2 == 0 {
      EvenTurn(v, n);
      assert false;
    }
  }

  /** Bits set among the lowest `n`. */
  function Weight(v: int, n: nat): nat {
    |Positions(v, n, true)| + if n > 0 && Bit(v, 0) then 1 else 0
  }

  /** Distinct words of weight `t + 1` that pass the compiler's test form a seed map. */
  lemma CompilerSeedMap(seeds: seq<nat>, n: nat, t: nat)
    requires n == 2 * t + 1 && t > 0
    requires forall s | 0 <= s < |seeds| :: LeastOfTurns(seeds[s], n) && Weight(seeds[s], n) == t + 1
    requires forall s, s' | 0 <= s < s' < |seeds| :: seeds[s] != seeds[s']
    ensures IsSeedMap(seeds, n, t)
  {
    forall s | 0 <= s < |seeds| ensures IsCode(seeds[s], n, t) {
      if seeds[s] == 0 {
        ZeroHasNoBits(n);
        assert false;
      }
      LeastTurnIsOdd(seeds[s], n);
    }
    forall s, s', d: nat | 0 <= s < |seeds| && 0 <= s' < |seeds| && s != s' && d < n
      ensures !Rotated(seeds[s], seeds[s'], n, d)
    {
      if Rotated(seeds[s], seeds[s'], n, d) {
        LeastTurnsInequivalent(seeds[s], seeds[s'], n, d);
        assert false;
      }
    }
  }

  /** With seven parties the compiler keeps code 0011011, and for it the older schedule has party 1
      wait for its second key from party 6, while the party that sends it is party 5. */
  lemma OlderScheduleWrongForSeven()
    ensures LeastOfTurns(27, 7) && Weight(27, 7) == 4 && IsCode(27, 7, 3) && !Mirrored(27, 7)
    ensures WithoutAccess(27, 7, 1)[1] == 6 && Sources(27, 7, 1)[1] == 5 && WithAccess(27, 7, 5)[1] == 1
  {
    PositionsOf27();
    TurnsOf27();
    hide Positions, Ring, TurnRight;
    assert Bit(27, 2) == Bit(27, 7 - 2);
    RingLinear(1, 5, 7);
    RingLinear(1, 3, 7);
    RingLinear(5, 3, 7);
    RingLinear(1, 4, 7);
  }

  lemma PositionsOf27()
    ensures Bit(27, 0) && !Bit(27, 2) && !Bit(27, 5)
    ensures Positions(27, 7, true) == [1, 3, 4] && Positions(27, 7, false) == [2, 5, 6]
  {
    BitsOf27();
    assert Positions(27, 2, true) == [1];
    assert Positions(27, 4, true) == [1, 3];
    assert Positions(27, 6, true) == [1, 3, 4];
    assert Positions(27, 2, false) == [];
    assert Positions(27, 4, false) == [2];
    assert Positions(27, 6, false) == [2, 5];
  }

  lemma SmallPowers()
    ensures Pow2(0) == 1 && Pow2(1) == 2 && Pow2(2) == 4 && Pow2(3) == 8
    ensures Pow2(4) == 16 && Pow2(5) == 32 && Pow2(6) == 64 && Pow2(7) == 128
  {
    assert Pow2(2) == 4;
    assert Pow2(4) == 16;
    assert Pow2(6) == 64;
  }

  lemma BitsOf27()
    ensures Bit(27, 0) && Bit(27, 1) && !Bit(27, 2) && Bit(27, 3) && Bit(27, 4) && !Bit(27, 5) && !Bit(27, 6)
  {
    SmallPowers();
  }

  lemma TurnsOf27()
    ensures LeastOfTurns(27, 7)
  {
    SmallPowers();
    hide Pow2;
    assert TurnRight(27, 7, 0) == 27 && TurnRight(27, 7, 1) == 77 && TurnRight(27, 7, 2) == 102;
    assert TurnRight(27, 7, 3) == 51 && TurnRight(27, 7, 4) == 89 && TurnRight(27, 7, 5) == 108;
    assert TurnRight(27, 7, 6) == 54;
  }

  lemma {:induction false} ZeroHasNoBits(n: nat)
    ensures Positions(0, n, true) == [] && !Bit(0, 0)
  {
    if n > 1 {
      ZeroHasNoBits(n - 1);
    }
  }

  // ----- a complete seed map reaches every share set

  function FromBits(bits: seq<bool>): nat {
    if bits == [] then 0 else (if bits[0] then 1 else 0) + 2 * FromBits(bits[1..])
  }

  lemma {:induction false} FromBitsBit(bits: seq<bool>, i: nat)
    requires i < |bits|
    ensures Bit(FromBits(bits), i) <==> bits[i]
    decreases |bits|
  {
    var x := FromBits(bits);
    assert x / 2 == FromBits(bits[1..]);
    if i > 0 {
      BitHalf(x, i);
      FromBitsBit(bits[1..], i - 1);
    } else {
      BitHalf(x, 1);
    }
  }

  lemma {:induction false} FromBitsRange(bits: seq<bool>)
    ensures FromBits(bits) < Pow2(|bits|)
  {
    if bits != [] {
      FromBitsRange(bits[1..]);
    }
  }

  /** Every code of `t + 1` holders is a rotation of one in the map. */
  ghost predicate Complete(seeds: seq<int>, n: nat, t: nat) {
    forall code: nat | code < Pow2(n) && IsCode(code, n, t) ::
      exists s: nat, d: nat :: s < |seeds| && d < n && Rotated(seeds[s], code, n, d)
  }

  /** The words that pass the compiler's test, each once. */
  ghost predicate IsCompilerMap(seeds: seq<nat>, n: nat, t: nat) {
    Distinct(seeds) && forall v: nat :: v in seeds <==> LeastOfTurns(v, n) && Weight(v, n) == t + 1
  }

  lemma {:induction false} ShiftedWeight(v: int, w: int, limit: nat)
    requires limit >= 1 && forall j: nat | j + 1 < limit :: Bit(w, j) == Bit(v, j + 1)
    ensures |Positions(v, limit, true)| == Weight(w, limit - 1)
    decreases limit
  {
    hide Bit;
    if limit > 1 {
      ShiftedWeight(v, w, limit - 1);
      assert Bit(w, limit - 2) == Bit(v, limit - 2 + 1);
    }
  }

  lemma TurnedOnce(v: int, w: int, n: nat)
    requires n >= 1 && Rotated(v, w, n, 1)
    ensures Weight(w, n) == Weight(v, n)
  {
    hide Bit;
    forall j: nat | j + 1 < n ensures Bit(w, j) == Bit(v, j + 1) {
      assert Wrap(j + 1, n) == j + 1;
    }
    ShiftedWeight(v, w, n);
    if n > 1 {
      assert Bit(w, n - 1) == Bit(v, Wrap(n - 1 + 1, n));
    } else {
      assert Bit(w, 0) == Bit(v, Wrap(0 + 1, n));
    }
  }

  lemma TurnTwice(v: nat, n: nat, i: nat, j: nat)
    requires v < Pow2(n) && i < n && j < n
    ensures 0 <= TurnRight(v, n, i) < Pow2(n)
    ensures TurnRight(TurnRight(v, n, i), n, j) == TurnRight(v, n, Wrap(i + j, n))
  {
    hide Pow2, Bit, TurnRight;
    var w := TurnRight(v, n, i);
    TurnRightBits(v, n, i);
    TurnRightBits(w, n, j);
    TurnRightBits(v, n, Wrap(i + j, n));
    forall k: nat | k < n
      ensures Bit(TurnRight(w, n, j), k) == Bit(TurnRight(v, n, Wrap(i + j, n)), k)
    {
      assert Wrap(Wrap(k + j, n) + i, n) == Wrap(k + Wrap(i + j, n), n);
    }
    SameBits(TurnRight(w, n, j), TurnRight(v, n, Wrap(i + j, n)), n);
  }

  lemma {:induction false} TurnKeepsWeight(v: nat, n: nat, i: nat)
    requires v < Pow2(n) && i < n
    ensures Weight(TurnRight(v, n, i), n) == Weight(v, n)
    decreases i
  {
    hide Pow2, Bit, TurnRight, Weight;
    TurnRightBits(v, n, i);
    if i == 0 {
      forall k: nat | k < n ensures Bit(TurnRight(v, n, 0), k) == Bit(v, k) {
        assert Wrap(k, n) == k;
      }
      SameBits(TurnRight(v, n, 0), v, n);
    } else {
      TurnKeepsWeight(v, n, i - 1);
      TurnTwice(v, n, i - 1, 1);
      TurnRightBits(TurnRight(v, n, i - 1), n, 1);
      TurnedOnce(TurnRight(v, n, i - 1), TurnRight(v, n, i), n);
    }
  }

  /** The smallest of the first `k` turns of a word. */
  lemma {:induction false} SmallestTurn(v: nat, n: nat, k: nat) returns (i: nat)
    requires 1 <= k <= n
    ensures i < k && forall j: nat | j < k :: TurnRight(v, n, i) <= TurnRight(v, n, j)
    decreases k
  {
    hide TurnRight;
    if k == 1 {
      i := 0;
    } else {
      i := SmallestTurn(v, n, k - 1);
      if TurnRight(v, n, k - 1) < TurnRight(v, n, i) {
        i := k - 1;
      }
    }
  }

  /** The smallest turn of any word passes the compiler's test. */
  lemma SmallestTurnPasses(v: nat, n: nat) returns (i: nat)
    requires n >= 1 && v < Pow2(n)
    ensures i < n && TurnRight(v, n, i) >= 0 && LeastOfTurns(TurnRight(v, n, i), n)
  {
    hide Pow2, TurnRight;
    i := SmallestTurn(v, n, n);
    TurnRightBits(v, n, i);
    forall j: nat | j < n ensures TurnRight(v, n, i) <= TurnRight(TurnRight(v, n, i), n, j) {
      TurnTwice(v, n, i, j);
    }
  }

  /** The words that pass the compiler's test are a seed map for which every code of `t + 1` holders
      is a rotation of one in it. */
  lemma CompilerMapComplete(seeds: seq<nat>, n: nat, t: nat)
    requires n == 2 * t + 1 && t > 0 && IsCompilerMap(seeds, n, t)
    ensures IsSeedMap(seeds, n, t) && Complete(seeds, n, t)
  {
    hide Pow2, TurnRight, LeastOfTurns, Weight;
    forall s | 0 <= s < |seeds| ensures LeastOfTurns(seeds[s], n) && Weight(seeds[s], n) == t + 1 {
      assert seeds[s] in seeds;
    }
    CompilerSeedMap(seeds, n, t);
    forall code: nat | code < Pow2(n) && IsCode(code, n, t)
      ensures exists s: nat, d: nat :: s < |seeds| && d < n && Rotated(seeds[s], code, n, d)
    {
      var s, d := RotationInMap(seeds, n, t, code);
    }
  }

  lemma RotationInMap(seeds: seq<nat>, n: nat, t: nat, code: nat) returns (s: nat, d: nat)
    requires n == 2 * t + 1 && t > 0 && IsCompilerMap(seeds, n, t) && code < Pow2(n) && IsCode(code, n, t)
    ensures s < |seeds| && d < n && Rotated(seeds[s], code, n, d)
  {
    hide Pow2, TurnRight, LeastOfTurns;
    var i := SmallestTurnPasses(code, n);
    var v: nat := TurnRight(code, n, i);
    TurnKeepsWeight(code, n, i);
    assert v in seeds;
    s :| s < |seeds| && seeds[s] == v;
    TurnRightBits(code, n, i);
    RotatedBack(code, v, n, i);
    d := Wrap(n - i, n);
  }

  /** `t` different parties, in increasing order. */
  predicate IsSubset(T: seq<int>, n: nat, t: nat) {
    |T| == t && Increasing(T) && forall i | 0 <= i < |T| :: 1 <= T[i] <= n
  }

  lemma FirstGap(T: seq<int>, n: nat, t: nat) returns (q: nat)
    requires IsSubset(T, n, t) && t < n
    ensures 1 <= q <= n && q !in T
  {
    var k := 0;
    while k < |T| && T[k] == k + 1
      invariant k <= |T| && forall j | 0 <= j < k :: T[j] == j + 1
    {
      k := k + 1;
    }
    q := k + 1;
    assert forall j | k <= j < |T| :: T[j] >= T[k];
    assert k > 0 && k < |T| ==> T[k] > T[k - 1];
  }

  /** The code under which generator `q` files a key for `T`. */
  function CodeOf(T: seq<int>, n: nat, q: int): nat {
    FromBits(seq(n, j requires 0 <= j < n => Ring(q, j, n) !in T))
  }

  lemma CodeOfMembers(T: seq<int>, n: nat, q: int, x: int)
    requires 1 <= q <= n && 1 <= x <= n && q !in T
    ensures Bit(CodeOf(T, n, q), 0)
    ensures x in ShareSet(CodeOf(T, n, q), n, q) <==> x in T
  {
    hide Ring, Bit, WithoutAccess, Sort, FromBits;
    var code := CodeOf(T, n, q);
    var bits := seq(n, j requires 0 <= j < n => Ring(q, j, n) !in T);
    FromBitsBit(bits, 0);
    RingDistance(q, q, n);
    ShareSetMembers(code, n, q);
    OutsideByBit(code, n, q, x);
    FromBitsBit(bits, Distance(q, x, n));
    RingDistance(q, x, n);
  }

  lemma {:induction false} CountOnce(xs: seq<int>, x: int)
    ensures Distinct(xs) ==> multiset(xs)[x] <= 1
    ensures forall i, j | 0 <= i < j < |xs| && xs[i] == x && xs[j] == x :: multiset(xs)[x] >= 2
  {
    if xs != [] {
      var m := |xs| - 1;
      CountOnce(xs[..m], x);
      assert xs == xs[..m] + [xs[m]];
      if multiset(xs[..m])[x] > 0 {
        assert x in xs[..m];
      }
      forall i, j | 0 <= i < j < |xs| && xs[i] == x && xs[j] == x ensures multiset(xs)[x] >= 2 {
        if j == m {
          assert xs[..m][i] in multiset(xs[..m]);
        }
      }
    }
  }

  lemma ShareSetIncreasing(code: int, n: nat, p: int)
    requires 1 <= p <= n
    ensures Increasing(ShareSet(code, n, p))
    ensures forall i | 0 <= i < |ShareSet(code, n, p)| :: 1 <= ShareSet(code, n, p)[i] <= n
  {
    hide Positions, Ring, Sort;
    var out, sorted := WithoutAccess(code, n, p), ShareSet(code, n, p);
    var zeros := Positions(code, n, false);
    forall i | 0 <= i < |out| ensures 1 <= out[i] <= n {
      RingLinear(p, zeros[|zeros| - 1 - i], n);
    }
    forall i, j | 0 <= i < j < |out| ensures out[i] != out[j] {
      RingLinear(p, zeros[|zeros| - 1 - i], n);
      RingLinear(p, zeros[|zeros| - 1 - j], n);
    }
    SortFacts(out);
    forall i | 0 <= i < |sorted| ensures 1 <= sorted[i] <= n {
      assert sorted[i] in out;
    }
    forall i, j | 0 <= i < j < |sorted| ensures sorted[i] < sorted[j] {
      CountOnce(out, sorted[i]);
      CountOnce(sorted, sorted[i]);
    }
  }

  lemma ShareSetIsSubset(seeds: seq<int>, n: nat, t: nat, s: nat, p: nat)
    requires IsSeedMap(seeds, n, t) && s < |seeds| && 1 <= p <= n
    ensures IsSubset(ShareSet(seeds[s], n, p), n, t)
  {
    hide Rotated, Positions, ShareSet;
    assert IsCode(seeds[s], n, t);
    ShareSetIncreasing(seeds[s], n, p);
    ShareSetMembers(seeds[s], n, p);
    PositionsSplit(seeds[s], n);
  }

  lemma SameSet(T: seq<int>, T': seq<int>, n: nat)
    requires Increasing(T) && Increasing(T')
    requires forall i | 0 <= i < |T| :: 1 <= T[i] <= n
    requires forall i | 0 <= i < |T'| :: 1 <= T'[i] <= n
    requires forall x | 1 <= x <= n :: x in T <==> x in T'
    ensures T == T'
  {
    forall x ensures x in T <==> x in T' {
    }
    SortedUnique(T, T');
  }

  lemma CodeOfSubset(T: seq<int>, n: nat, t: nat, q: int)
    requires IsSubset(T, n, t) && n == 2 * t + 1 && t > 0 && 1 <= q <= n && q !in T
    ensures var code := CodeOf(T, n, q);
            code < Pow2(n) && IsCode(code, n, t) && ShareSet(code, n, q) == T
  {
    hide Ring, Bit, Positions, Sort, FromBits, WithoutAccess;
    var code := CodeOf(T, n, q);
    FromBitsRange(seq(n, j requires 0 <= j < n => Ring(q, j, n) !in T));
    ShareSetIncreasing(code, n, q);
    forall x | 1 <= x <= n ensures x in ShareSet(code, n, q) <==> x in T {
      CodeOfMembers(T, n, q, x);
    }
    CodeOfMembers(T, n, q, q);
    SameSet(ShareSet(code, n, q), T, n);
    ShareSetMembers(code, n, q);
    PositionsSplit(code, n);
  }

  /** With a complete seed map, every set of `t` parties is the share set of some key. */
  lemma EverySubsetReached(seeds: seq<int>, n: nat, t: nat, T: seq<int>) returns (s: nat, p: nat)
    requires IsSeedMap(seeds, n, t) && Complete(seeds, n, t) && n == 2 * t + 1 && t > 0
    requires IsSubset(T, n, t)
    ensures s < |seeds| && 1 <= p <= n && ShareSet(seeds[s], n, p) == T
  {
    hide ShareSet, CodeOf, IsSubset, IsCode;
    var q := FirstGap(T, n, t);
    CodeOfSubset(T, n, t, q);
    var code := CodeOf(T, n, q);
    var d: nat;
    s, d :| s < |seeds| && d < n && Rotated(seeds[s], code, n, d);
    p := if q > d then q - d else q - d + n;
    assert IsCode(seeds[s], n, t);
    CodeHasGenerator(seeds[s], n, t);
    CodeHasGenerator(code, n, t);
    RotatedSameMembers(seeds[s], code, n, d, p, q);
    ShareSetIncreasing(seeds[s], n, p);
    ShareSetIncreasing(code, n, q);
    SameSet(ShareSet(seeds[s], n, p), ShareSet(code, n, q), n);
  }
}
