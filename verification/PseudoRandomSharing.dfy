/**
 Pseudo-random sharing over the exchanged keys. A party adds up, over the keys it holds, the value
 derived from the key times the key's polynomial at the party's own number. Together the parties'
 sums are the values of one polynomial of degree at most `t`.
 */
module PseudoRandomSharing {
  import opened Bits
  import opened Sequences
  import opened Maps
  import opened Schedules
  import opened Polynomials
  import opened ShareSets
  import opened CoefficientRange
  import opened FifoNetwork
  import opened SeedSetup
  import opened SharedKeys

  // ----- sums over a table of polynomials

  /** The sum of `v(key)` times the polynomial of `key` at `x`, over all entries. */
  ghost function TableSum(m: map<Key, seq<int>>, v: Key -> int, x: int): int
    decreases |m|
  {
    if m == map[] then 0
    else
      var k :| k in m;
      RemoveSmaller(m, k);
      v(k) * Eval(m[k], x) + TableSum(m - {k}, v, x)
  }

  lemma RemoveSmaller<K, V>(m: map<K, V>, k: K)
    requires k in m
    ensures |m - {k}| == |m| - 1
  {
    assert (m - {k}).Keys == m.Keys - {k};
  }

  lemma {:induction false} TableSumSplit(m: map<Key, seq<int>>, k: Key, v: Key -> int, x: int)
    requires k in m
    ensures TableSum(m, v, x) == v(k) * Eval(m[k], x) + TableSum(m - {k}, v, x)
    decreases |m|
  {
    var k0 :| k0 in m && TableSum(m, v, x) == v(k0) * Eval(m[k0], x) + TableSum(m - {k0}, v, x);
    if k0 != k {
      RemoveSmaller(m, k0);
      RemoveSmaller(m, k);
      TableSumSplit(m - {k0}, k, v, x);
      TableSumSplit(m - {k}, k0, v, x);
      assert m - {k0} - {k} == m - {k} - {k0};
    }
  }

  /** Entries whose polynomial is zero at `x` do not matter for the sum at `x`. */
  lemma {:induction false} TableSumRestrict(held: map<Key, seq<int>>, all: map<Key, seq<int>>, v: Key -> int, x: int)
    requires forall k | k in held :: k in all && all[k] == held[k]
    requires forall k | k in all && k !in held :: Eval(all[k], x) == 0
    ensures TableSum(held, v, x) == TableSum(all, v, x)
    decreases |all|
  {
    if all == map[] {
      assert held == map[];
    } else {
      var k :| k in all;
      RemoveSmaller(all, k);
      TableSumSplit(all, k, v, x);
      if k in held {
        TableSumSplit(held, k, v, x);
        TableSumRestrict(held - {k}, all - {k}, v, x);
      } else {
        TableSumRestrict(held, all - {k}, v, x);
        assert v(k) * Eval(all[k], x) == 0;
      }
    }
  }

  /** The same sum taken coefficient by coefficient. */
  ghost function CombinedPolynomial(m: map<Key, seq<int>>, v: Key -> int, size: nat): (r: seq<int>)
    requires forall k | k in m :: |m[k]| == size
    ensures |r| == size
    decreases |m|
  {
    if m == map[] then seq(size, i => 0)
    else
      var k :| k in m;
      RemoveSmaller(m, k);
      var rest := CombinedPolynomial(m - {k}, v, size);
      seq(size, i requires 0 <= i < size => rest[i] + v(k) * m[k][i])
  }

  lemma {:induction false} EvalZeros(size: nat, x: int)
    ensures Eval(seq(size, i => 0), x) == 0
  {
    if size > 0 {
      EvalZeros(size - 1, x);
      assert seq(size, i => 0)[..size - 1] == seq(size - 1, i => 0);
    }
  }

  /** The entry that the coefficient sum takes out first. */
  lemma CombinedStep(m: map<Key, seq<int>>, v: Key -> int, size: nat) returns (k: Key)
    requires m != map[] && forall k | k in m :: |m[k]| == size
    ensures k in m
    ensures forall i | 0 <= i < size ::
              CombinedPolynomial(m, v, size)[i] == CombinedPolynomial(m - {k}, v, size)[i] + v(k) * m[k][i]
  {
    k :| k in m && CombinedPolynomial(m, v, size)
                == seq(size, i requires 0 <= i < size => CombinedPolynomial(m - {k}, v, size)[i] + v(k) * m[k][i]);
  }

  lemma {:induction false} CombinedEval(m: map<Key, seq<int>>, v: Key -> int, size: nat, x: int)
    requires forall k | k in m :: |m[k]| == size
    ensures Eval(CombinedPolynomial(m, v, size), x) == TableSum(m, v, x)
    decreases |m|
  {
    hide Eval, TableSum;
    if m == map[] {
      EvalZeros(size, x);
      TableSumEmpty(m, v, x);
    } else {
      var k := CombinedStep(m, v, size);
      hide CombinedPolynomial;
      RemoveSmaller(m, k);
      CombinedEval(m - {k}, v, size, x);
      EvalShifted(CombinedPolynomial(m, v, size), CombinedPolynomial(m - {k}, v, size), m[k], v(k), x);
      TableSumSplit(m, k, v, x);
    }
  }

  lemma TableSumEmpty(m: map<Key, seq<int>>, v: Key -> int, x: int)
    requires m == map[]
    ensures TableSum(m, v, x) == 0
  {
  }

  // ----- the tables of the parties

  /** No two drawn keys coincide. */
  ghost predicate KeysDistinct(seeds: seq<int>, n: nat, keys: seq<seq<Key>>)
    requires Drawn(seeds, n, keys)
  {
    forall p: nat, c: nat, p': nat, c': nat |
      1 <= p <= n && 1 <= p' <= n && c < |seeds| && c' < |seeds| && keys[p][c] == keys[p'][c'] ::
      p == p' && c == c'
  }

  /** The polynomial of the share set of `p` and code `c`. */
  function KeyPolynomial(seeds: seq<int>, n: nat, t: nat, c: nat, p: nat): (r: seq<int>)
    requires c < |seeds| && n > 0
    ensures |r| == t + 1
  {
    Coefficients(Negated(ShareSet(seeds[c], n, p)), t)
  }

  /** The table `shamir_seeds_coefs` that the loop of `q` leaves behind, given what arrived. */
  function ShamirTable(seeds: seq<int>, n: nat, t: nat, q: nat, own: seq<Key>, arrived: seq<Key>): map<Key, seq<int>>
    requires Shapes(seeds, n, t) && |own| == |seeds| && |arrived| == |own| * t
  {
    InsertAll(map[], FiledKeys(t, own, arrived), FiledPolynomials(seeds, n, t, q))
  }

  /** No polynomial is discarded exactly when the party files no key twice. */
  lemma TableFull(seeds: seq<int>, n: nat, t: nat, q: nat, own: seq<Key>, arrived: seq<Key>)
    requires Shapes(seeds, n, t) && |own| == |seeds| && |arrived| == |seeds| * t
    ensures |ShamirTable(seeds, n, t, q, own, arrived)| == |seeds| * (t + 1) <==> Distinct(FiledKeys(t, own, arrived))
  {
    hide Shapes, FiledKeys, FiledPolynomials, Distinct, InsertAll;
    InsertedIffDistinct(FiledKeys(t, own, arrived), FiledPolynomials(seeds, n, t, q));
  }

  ghost predicate IsKeyOf(seeds: seq<int>, n: nat, keys: seq<seq<Key>>, key: Key, p: nat, c: nat)
    requires Drawn(seeds, n, keys)
  {
    1 <= p <= n && c < |seeds| && key == keys[p][c]
  }

  ghost function AllKeys(seeds: seq<int>, n: nat, keys: seq<seq<Key>>): (r: set<Key>)
    requires Drawn(seeds, n, keys)
    ensures forall p: nat, c: nat | 1 <= p <= n && c < |seeds| :: keys[p][c] in r
    ensures forall key | key in r :: exists p: nat, c: nat :: IsKeyOf(seeds, n, keys, key, p, c)
  {
    var r := set p: nat, c: nat | 1 <= p <= n && c < |seeds| :: keys[p][c];
    assert forall key | key in r :: exists p: nat, c: nat :: IsKeyOf(seeds, n, keys, key, p, c) by {
      forall key | key in r ensures exists p: nat, c: nat :: IsKeyOf(seeds, n, keys, key, p, c) {
        var p: nat, c: nat :| 1 <= p <= n && c < |seeds| && key == keys[p][c];
        assert IsKeyOf(seeds, n, keys, key, p, c);
      }
    }
    r
  }

  ghost function PolynomialOf(seeds: seq<int>, n: nat, t: nat, keys: seq<seq<Key>>, key: Key): (r: seq<int>)
    requires Drawn(seeds, n, keys) && n > 0
    requires exists p: nat, c: nat :: IsKeyOf(seeds, n, keys, key, p, c)
    ensures |r| == t + 1
  {
    var p: nat, c: nat :| IsKeyOf(seeds, n, keys, key, p, c);
    KeyPolynomial(seeds, n, t, c, p)
  }

  /** All keys of all parties. */
  ghost function AllPolynomials(seeds: seq<int>, n: nat, t: nat, keys: seq<seq<Key>>): (r: map<Key, seq<int>>)
    requires Drawn(seeds, n, keys) && n > 0
    ensures forall k | k in r :: |r[k]| == t + 1
  {
    map key | key in AllKeys(seeds, n, keys) :: PolynomialOf(seeds, n, t, keys, key)
  }

  lemma AllPolynomialsAt(seeds: seq<int>, n: nat, t: nat, keys: seq<seq<Key>>, p: nat, c: nat)
    requires Drawn(seeds, n, keys) && KeysDistinct(seeds, n, keys) && 1 <= p <= n && c < |seeds|
    ensures var all := AllPolynomials(seeds, n, t, keys);
            keys[p][c] in all && all[keys[p][c]] == KeyPolynomial(seeds, n, t, c, p)
  {
    hide KeyPolynomial, AllKeys;
    assert IsKeyOf(seeds, n, keys, keys[p][c], p, c);
  }

  lemma FiledKeysDistinct(seeds: seq<int>, n: nat, t: nat, keys: seq<seq<Key>>, q: nat, arrived: seq<Key>)
    requires IsSeedMap(seeds, n, t) && Shapes(seeds, n, t) && Drawn(seeds, n, keys) && 1 <= q <= n
    requires KeysDistinct(seeds, n, keys) && ArrivedRight(seeds, n, t, keys, q, arrived)
    ensures Distinct(FiledKeys(t, keys[q], arrived))
  {
    hide IsSeedMap, Shapes, ShareSet, Generator, FiledSets, FiledKeys, FiledPolynomials, IsCode, ExpectedKey;
    var filed := FiledKeys(t, keys[q], arrived);
    forall e, e' | 0 <= e < e' < |filed| ensures filed[e] != filed[e'] {
      var c, k := EntryOf(seeds, n, t, q, e);
      var c', k' := EntryOf(seeds, n, t, q, e');
      var i := FiledPair(seeds, n, t, keys, q, arrived, c, k);
      var i' := FiledPair(seeds, n, t, keys, q, arrived, c', k');
      if filed[e] == filed[e'] {
        GeneratorsDistinct(seeds[c], n, t, q, k, k') by {
          assert c == c';
        }
        assert false;
      }
    }
  }

  /** `q` holds the key of `p` for code `c`, with what the machine made of the polynomial, when it is
      outside the set. */
  lemma PolynomialFiled(seeds: seq<int>, n: nat, t: nat, keys: seq<seq<Key>>, q: nat, arrived: seq<Key>, c: nat, p: nat)
    requires IsSeedMap(seeds, n, t) && Shapes(seeds, n, t) && Drawn(seeds, n, keys) && 1 <= q <= n
    requires KeysDistinct(seeds, n, keys) && ArrivedRight(seeds, n, t, keys, q, arrived)
    requires c < |seeds| && 1 <= p <= n && q !in ShareSet(seeds[c], n, p)
    ensures var table := ShamirTable(seeds, n, t, q, keys[q], arrived);
            keys[p][c] in table && table[keys[p][c]] == InMachine(KeyPolynomial(seeds, n, t, c, p))
  {
    hide ShareSet, FiledSets, FiledKeys, FiledPolynomials, Generator, InsertAll, IsCode, Distinct;
    hide IsSeedMap, Shapes, ExpectedKey, Coefficients, KeysDistinct;
    FiledKeysDistinct(seeds, n, t, keys, q, arrived);
    DistinctAllInserted(FiledKeys(t, keys[q], arrived), FiledPolynomials(seeds, n, t, q));
    CodeAt(seeds, n, t, c);
    var k := GeneratorFound(seeds[c], n, t, p, q);
    var e := FiledPair(seeds, n, t, keys, q, arrived, c, k);
  }

  /** Whatever `q` holds is the key of some generator whose share set does not contain `q`. */
  lemma PolynomialHeld(seeds: seq<int>, n: nat, t: nat, keys: seq<seq<Key>>, q: nat, arrived: seq<Key>, key: Key)
    returns (c: nat, p: nat)
    requires IsSeedMap(seeds, n, t) && Shapes(seeds, n, t) && Drawn(seeds, n, keys) && 1 <= q <= n
    requires KeysDistinct(seeds, n, keys) && ArrivedRight(seeds, n, t, keys, q, arrived)
    requires key in ShamirTable(seeds, n, t, q, keys[q], arrived)
    ensures c < |seeds| && 1 <= p <= n && key == keys[p][c]
    ensures q !in ShareSet(seeds[c], n, p)
    ensures ShamirTable(seeds, n, t, q, keys[q], arrived)[key] == InMachine(KeyPolynomial(seeds, n, t, c, p))
  {
    hide ShareSet, FiledSets, FiledKeys, FiledPolynomials, Generator, InsertAll, IsCode, Distinct;
    hide IsSeedMap, Shapes, ExpectedKey, Coefficients, KeysDistinct;
    FiledKeysDistinct(seeds, n, t, keys, q, arrived);
    DistinctAllInserted(FiledKeys(t, keys[q], arrived), FiledPolynomials(seeds, n, t, q));
    var e: nat :| e < |FiledKeys(t, keys[q], arrived)| && FiledKeys(t, keys[q], arrived)[e] == key;
    var k;
    c, k := EntryOf(seeds, n, t, q, e);
    var i := FiledPair(seeds, n, t, keys, q, arrived, c, k);
    assert |Positions(seeds[c], n, true)| == t by { CodeCount(seeds[c], n, t); }
    p := Generator(seeds[c], n, t, q, k);
    GeneratorFacts(seeds[c], n, t, q, k);
  }

  lemma CodeCount(code: int, n: nat, t: nat)
    requires IsCode(code, n, t)
    ensures |Positions(code, n, true)| == t && n > 0
  {
  }

  lemma PolynomialZeroInside(seeds: seq<int>, n: nat, t: nat, c: nat, p: nat, q: nat)
    requires IsSeedMap(seeds, n, t) && c < |seeds| && 1 <= p <= n && q in ShareSet(seeds[c], n, p)
    ensures Eval(KeyPolynomial(seeds, n, t, c, p), q) == 0
  {
    hide IsSeedMap, Positions, Coefficients, Eval, Sort;
    CodeAt(seeds, n, t, c);
    PositionsSplit(seeds[c], n);
    ShareSetMembers(seeds[c], n, p);
    ZeroExactlyOnRoots(ShareSet(seeds[c], n, p), q);
  }

  // ----- consistency

  /** For all keys the machine stores the polynomial itself. */
  ghost predicate StoredExact(seeds: seq<int>, n: nat, t: nat)
    requires n > 0
  {
    forall c: nat, p: nat | c < |seeds| && 1 <= p <= n :: EntriesExact(ShareSet(seeds[c], n, p), t)
  }

  /** So it does when there are at most seventeen parties. */
  lemma SmallStoredExact(seeds: seq<int>, n: nat, t: nat)
    requires IsSeedMap(seeds, n, t) && n == 2 * t + 1 && t <= 8
    ensures StoredExact(seeds, n, t)
  {
    hide IsSeedMap, ShareSet, EntriesExact, AllFit, IsSubset;
    forall c: nat, p: nat | c < |seeds| && 1 <= p <= n ensures EntriesExact(ShareSet(seeds[c], n, p), t) {
      ShareSetIsSubset(seeds, n, t, c, p);
      SubsetsFit(ShareSet(seeds[c], n, p), n, t);
    }
  }

  lemma HeldAgainstAll(seeds: seq<int>, n: nat, t: nat, keys: seq<seq<Key>>, q: nat, arrived: seq<Key>, key: Key)
    requires IsSeedMap(seeds, n, t) && Shapes(seeds, n, t) && Drawn(seeds, n, keys) && 1 <= q <= n
    requires KeysDistinct(seeds, n, keys) && ArrivedRight(seeds, n, t, keys, q, arrived) && StoredExact(seeds, n, t)
    ensures var held, all := ShamirTable(seeds, n, t, q, keys[q], arrived), AllPolynomials(seeds, n, t, keys);
            && (key in held ==> key in all && all[key] == held[key])
            && (key in all && key !in held ==> Eval(all[key], q) == 0)
  {
    hide ShareSet, KeyPolynomial, ShamirTable, IsSeedMap, Shapes, ExpectedKey, Eval, KeysDistinct;
    var held := ShamirTable(seeds, n, t, q, keys[q], arrived);
    if key in held {
      var c, p := PolynomialHeld(seeds, n, t, keys, q, arrived, key);
      AllPolynomialsAt(seeds, n, t, keys, p, c);
      StoredIs(seeds, n, t, c, p);
    } else if key in AllPolynomials(seeds, n, t, keys) {
      hide AllKeys;
      var p: nat, c: nat :| IsKeyOf(seeds, n, keys, key, p, c);
      AllPolynomialsAt(seeds, n, t, keys, p, c);
      if q in ShareSet(seeds[c], n, p) {
        PolynomialZeroInside(seeds, n, t, c, p, q);
      } else {
        PolynomialFiled(seeds, n, t, keys, q, arrived, c, p);
        assert false;
      }
    }
  }

  lemma StoredIs(seeds: seq<int>, n: nat, t: nat, c: nat, p: nat)
    requires n > 0 && c < |seeds| && 1 <= p <= n && StoredExact(seeds, n, t)
    ensures InMachine(KeyPolynomial(seeds, n, t, c, p)) == KeyPolynomial(seeds, n, t, c, p)
  {
    hide ShareSet, Coefficients, InMachine;
    assert EntriesExact(ShareSet(seeds[c], n, p), t);
  }

  /** The polynomial that the parties share: it depends on the keys, not on the party. */
  ghost function CommonPolynomial(seeds: seq<int>, n: nat, t: nat, keys: seq<seq<Key>>, v: Key -> int): (r: seq<int>)
    requires Drawn(seeds, n, keys) && n > 0
    ensures |r| == t + 1
  {
    CombinedPolynomial(AllPolynomials(seeds, n, t, keys), v, t + 1)
  }

  /** What `q` adds up in a completed run. */
  ghost function SumOf(seeds: seq<int>, n: nat, t: nat, keys: seq<seq<Key>>, s: State<Key>, q: nat, v: Key -> int): int
    requires Completed(seeds, n, t, keys, s) && 1 <= q <= n
  {
    CompletedArrivals(seeds, n, t, keys, s, q);
    TableSum(ShamirTable(seeds, n, t, q, keys[q], Arrived(seeds, n, t, s, q)), v, q)
  }

  /** In every completed run with distinct keys, for every way to derive values from keys, each
      party's sum over the entries it holds is the common polynomial at the party's number, as long
      as the machine stores the polynomials. */
  lemma SharesOfOnePolynomial(seeds: seq<int>, n: nat, t: nat, keys: seq<seq<Key>>, s: State<Key>, q: nat,
                              v: Key -> int)
    requires Completed(seeds, n, t, keys, s) && KeysDistinct(seeds, n, keys) && 1 <= q <= n
    ensures t <= 8 ==> StoredExact(seeds, n, t)
    ensures StoredExact(seeds, n, t) ==>
              SumOf(seeds, n, t, keys, s, q, v) == Eval(CommonPolynomial(seeds, n, t, keys, v), q)
  {
    hide Reachable, IsSeedMap, SeedSystem, Finished, ArrivedRight, ShamirTable, AllPolynomials, Eval;
    hide TableSum, KeysDistinct, StoredExact;
    if t <= 8 {
      SmallStoredExact(seeds, n, t);
    }
    hide Shapes;
    CompletedArrivals(seeds, n, t, keys, s, q);
    if StoredExact(seeds, n, t) {
      var arrived := Arrived(seeds, n, t, s, q);
      var held, all := ShamirTable(seeds, n, t, q, keys[q], arrived), AllPolynomials(seeds, n, t, keys);
      forall key
        ensures key in held ==> key in all && all[key] == held[key]
        ensures key in all && key !in held ==> Eval(all[key], q) == 0
      {
        HeldAgainstAll(seeds, n, t, keys, q, arrived, key);
      }
      TableSumRestrict(held, all, v, q);
      CombinedEval(all, v, t + 1, q);
    }
  }
}
