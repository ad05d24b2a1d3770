/**
 What the parties hold after the key exchange: each share set's key is with exactly the parties
 outside the set, and the values derived from the keys are shares of one polynomial.
 */
module SharedKeys {
  import opened Bits
  import opened Sequences
  import opened Maps
  import opened Schedules
  import opened Polynomials
  import opened ShareSets
  import opened FifoNetwork
  import opened SeedSetup

  // ----- which keys a party files

  lemma GeneratorFacts(code: int, n: nat, t: nat, q: nat, k: nat)
    requires IsCode(code, n, t) && 1 <= q <= n && k <= t
    ensures 1 <= Generator(code, n, t, q, k) <= n
    ensures q !in ShareSet(code, n, Generator(code, n, t, q, k))
  {
    hide Positions, Sort;
    var p := Generator(code, n, t, q, k);
    if k < t {
      SchedulesInverse(code, n, q, q, k);
      SchedulesInverse(code, n, p, q, k);
      assert q in WithAccess(code, n, p);
    }
    HoldersAreDestinations(code, n, p, q);
    ShareSetMembers(code, n, p);
  }

  /** Every party outside the share set of `p` files the key of `p`. */
  lemma GeneratorFound(code: int, n: nat, t: nat, p: nat, q: nat) returns (k: nat)
    requires IsCode(code, n, t) && 1 <= p <= n && 1 <= q <= n && q !in ShareSet(code, n, p)
    ensures k <= t && Generator(code, n, t, q, k) == p
  {
    hide Positions, Sort;
    HoldersAreDestinations(code, n, p, q);
    ShareSetMembers(code, n, p);
    if q == p {
      k := t;
    } else {
      var to := WithAccess(code, n, p);
      k :| k < |to| && to[k] == q;
      SchedulesInverse(code, n, p, q, k);
    }
  }

  lemma GeneratorsDistinct(code: int, n: nat, t: nat, q: nat, k: nat, k': nat)
    requires IsCode(code, n, t) && 1 <= q <= n && k <= t && k' <= t
    requires Generator(code, n, t, q, k) == Generator(code, n, t, q, k')
    ensures k == k'
  {
    hide Positions;
    if k < t {
      RingLinear(q, n - Positions(code, n, true)[k], n);
    }
    if k' < t {
      RingLinear(q, n - Positions(code, n, true)[k'], n);
    }
  }

  /** The keys that have arrived at `q` by the end. */
  function Arrived(seeds: seq<int>, n: nat, t: nat, s: State<Key>, q: nat): (r: seq<Key>)
    requires q < |s.log| && |s.log[q]| == 2 * (|seeds| * t)
    ensures |r| == |seeds| * t
  {
    seq(|seeds| * t, j requires 0 <= j < |seeds| * t => s.log[q][2 * j + 1])
  }

  /** A completed run of the key exchange among the parties. */
  ghost predicate Completed(seeds: seq<int>, n: nat, t: nat, keys: seq<seq<Key>>, s: State<Key>) {
    && IsSeedMap(seeds, n, t) && n == 2 * t + 1 && t > 0
    && Shapes(seeds, n, t) && Drawn(seeds, n, keys)
    && Finished(SeedSystem(seeds, n, t, keys), s)
    && exists steps :: Reachable(SeedSystem(seeds, n, t, keys), s, steps)
  }

  /** There is one, whatever the codes and the drawn keys are. */
  lemma CompletedRunExists(seeds: seq<int>, n: nat, t: nat, keys: seq<seq<Key>>) returns (s: State<Key>)
    requires IsSeedMap(seeds, n, t) && n == 2 * t + 1 && t > 0 && Drawn(seeds, n, keys)
    ensures Completed(seeds, n, t, keys, s)
  {
    hide IsSeedMap, Shapes, Drawn, SeedSystem, Matched, Finished, Reachable;
    SeedMapShapes(seeds, n, t);
    var sys := SeedSystem(seeds, n, t, keys);
    SeedSystemMatched(seeds, n, t, keys);
    StartReachable(sys);
    var total: nat;
    s, total := EveryRunExtends(sys, Init(sys), 0);
  }

  lemma StartReachable(sys: System<Key>)
    ensures Reachable(sys, Init(sys), 0)
  {
  }

  /** `arrived` lists what the sources of `q` drew, exchange by exchange. */
  ghost predicate ArrivedRight(seeds: seq<int>, n: nat, t: nat, keys: seq<seq<Key>>, q: nat, arrived: seq<Key>)
    requires Shapes(seeds, n, t) && Drawn(seeds, n, keys) && 1 <= q <= n
  {
    && |arrived| == |seeds| * t
    && forall j: nat | j < |seeds| * t :: arrived[j] == ExpectedKey(seeds, n, t, keys, q, j)
  }

  lemma ArrivedAt(seeds: seq<int>, n: nat, t: nat, keys: seq<seq<Key>>, q: nat, arrived: seq<Key>, c: nat, k: nat)
    requires Shapes(seeds, n, t) && Drawn(seeds, n, keys) && 1 <= q <= n && c < |seeds| && k < t
    requires ArrivedRight(seeds, n, t, keys, q, arrived)
    ensures |Sources(seeds[c], n, q)| == t && 1 <= Sources(seeds[c], n, q)[k] <= n
    ensures c * t + k < |arrived| && arrived[c * t + k] == keys[Sources(seeds[c], n, q)[k]][c]
  {
    hide Sources, Positions;
    ShapesAt(seeds, n, t, c);
    MapSizes(seeds[c], n, t, q);
    RowMajorInRange(c, t, k, |seeds|);
    RowMajor(c, t, k);
    PartnersInRange(seeds, n, t, q, c * t + k);
    assert arrived[c * t + k] == ExpectedKey(seeds, n, t, keys, q, c * t + k);
  }

  /** Entry `k` for code `c` is the share set and the key of one generator. */
  lemma FiledPair(seeds: seq<int>, n: nat, t: nat, keys: seq<seq<Key>>, q: nat, arrived: seq<Key>, c: nat, k: nat)
    returns (e: nat)
    requires IsSeedMap(seeds, n, t) && Shapes(seeds, n, t) && Drawn(seeds, n, keys) && 1 <= q <= n
    requires ArrivedRight(seeds, n, t, keys, q, arrived) && c < |seeds| && k <= t
    ensures IsCode(seeds[c], n, t)
    ensures 1 <= Generator(seeds[c], n, t, q, k) <= n
    ensures e < |FiledSets(seeds, n, t, q)| && e == c * (t + 1) + k
    ensures FiledSets(seeds, n, t, q)[e] == ShareSet(seeds[c], n, Generator(seeds[c], n, t, q, k))
    ensures FiledKeys(t, keys[q], arrived)[e] == keys[Generator(seeds[c], n, t, q, k)][c]
    ensures FiledPolynomials(seeds, n, t, q)[e]
         == InMachine(Coefficients(Negated(ShareSet(seeds[c], n, Generator(seeds[c], n, t, q, k))), t))
  {
    hide IsSeedMap, FiledSets, FiledKeys, FiledPolynomials, ShareSet, Positions, Sources, ExpectedKey;
    CodeAt(seeds, n, t, c);
    GeneratorFacts(seeds[c], n, t, q, k);
    SetAt(seeds, n, t, q, c, k);
    KeyAt(t, keys[q], arrived, c, k);
    e := c * (t + 1) + k;
    if k < t {
      ArrivedAt(seeds, n, t, keys, q, arrived, c, k);
    }
  }

  lemma CodeAt(seeds: seq<int>, n: nat, t: nat, c: nat)
    requires IsSeedMap(seeds, n, t) && c < |seeds|
    ensures IsCode(seeds[c], n, t)
  {
  }

  lemma SameEntry(seeds: seq<int>, n: nat, t: nat, q: nat, c: nat, k: nat, c': nat, k': nat)
    requires IsSeedMap(seeds, n, t) && 1 <= q <= n && c < |seeds| && c' < |seeds| && k <= t && k' <= t
    requires IsCode(seeds[c], n, t) && IsCode(seeds[c'], n, t)
    requires ShareSet(seeds[c], n, Generator(seeds[c], n, t, q, k))
          == ShareSet(seeds[c'], n, Generator(seeds[c'], n, t, q, k'))
    ensures c == c' && k == k'
  {
    hide IsSeedMap, ShareSet, Positions, Generator;
    GeneratorFacts(seeds[c], n, t, q, k);
    GeneratorFacts(seeds[c'], n, t, q, k');
    ShareSetsDistinct(seeds, n, t, c, Generator(seeds[c], n, t, q, k), c', Generator(seeds[c'], n, t, q, k'));
    GeneratorsDistinct(seeds[c], n, t, q, k, k');
  }

  lemma EntryOf(seeds: seq<int>, n: nat, t: nat, q: nat, e: nat) returns (c: nat, k: nat)
    requires IsSeedMap(seeds, n, t) && Shapes(seeds, n, t) && 1 <= q <= n && e < |FiledSets(seeds, n, t, q)|
    ensures c < |seeds| && k <= t && e == c * (t + 1) + k
    ensures IsCode(seeds[c], n, t)
    ensures FiledSets(seeds, n, t, q)[e] == ShareSet(seeds[c], n, Generator(seeds[c], n, t, q, k))
  {
    hide IsSeedMap, ShareSet, Positions, Generator, FiledSets;
    RowOf(e, t + 1, |seeds|);
    c, k := e / (t + 1), e % (t + 1);
    CodeAt(seeds, n, t, c);
    SetAt(seeds, n, t, q, c, k);
  }

  lemma FiledSetsDistinct(seeds: seq<int>, n: nat, t: nat, q: nat)
    requires IsSeedMap(seeds, n, t) && Shapes(seeds, n, t) && 1 <= q <= n
    ensures Distinct(FiledSets(seeds, n, t, q))
  {
    hide IsSeedMap, Shapes, ShareSet, Generator, FiledSets, IsCode, Positions;
    var sets := FiledSets(seeds, n, t, q);
    forall e, e' | 0 <= e < e' < |sets| ensures sets[e] != sets[e'] {
      var c, k := EntryOf(seeds, n, t, q, e);
      var c', k' := EntryOf(seeds, n, t, q, e');
      if sets[e] == sets[e'] {
        SameEntry(seeds, n, t, q, c, k, c', k');
        assert false;
      }
    }
  }

  // ----- replicated sharing: the table by share set

  /** The table `rss_share_seeds` that the loop of `q` leaves behind, given what arrived. */
  function RssTable(seeds: seq<int>, n: nat, t: nat, q: nat, own: seq<Key>, arrived: seq<Key>): map<seq<int>, Key>
    requires Shapes(seeds, n, t) && |own| == |seeds| && |arrived| == |own| * t
  {
    InsertAll(map[], FiledSets(seeds, n, t, q), FiledKeys(t, own, arrived))
  }

  ghost predicate OneShareSetEach(seeds: seq<int>, n: nat, t: nat, keys: seq<seq<Key>>, q: nat, table: map<seq<int>,
                                  Key>)
    requires Drawn(seeds, n, keys) && n > 0
  {
    && |table| == |seeds| * (t + 1)
    && (forall c: nat, p: nat | c < |seeds| && 1 <= p <= n ::
          KeyFiledRight(ShareSet(seeds[c], n, p), keys[p][c], q, table))
    && (forall T | T in table ::
          IsShareSet(seeds, n, T))
  }

  /** `q` holds `key` under `T` when it is outside `T`, and nothing otherwise. */
  predicate KeyFiledRight(T: seq<int>, key: Key, q: nat, table: map<seq<int>, Key>) {
    if q in T then T !in table else T in table && table[T] == key
  }

  ghost predicate IsShareSet(seeds: seq<int>, n: nat, T: seq<int>)
    requires n > 0
  {
    exists c: nat, p: nat :: c < |seeds| && 1 <= p <= n && T == ShareSet(seeds[c], n, p)
  }

  lemma FiledOutside(seeds: seq<int>, n: nat, t: nat, keys: seq<seq<Key>>, q: nat, arrived: seq<Key>, T: seq<int>)
    requires IsSeedMap(seeds, n, t) && Shapes(seeds, n, t) && Drawn(seeds, n, keys) && 1 <= q <= n
    requires ArrivedRight(seeds, n, t, keys, q, arrived) && T in RssTable(seeds, n, t, q, keys[q], arrived)
    ensures q !in T && IsShareSet(seeds, n, T)
  {
    hide ShareSet, FiledSets, FiledKeys, Generator, InsertAll, IsCode, Distinct, IsSeedMap, Shapes, ExpectedKey;
    FiledSetsDistinct(seeds, n, t, q);
    DistinctAllInserted(FiledSets(seeds, n, t, q), FiledKeys(t, keys[q], arrived));
    var e: nat :| e < |FiledSets(seeds, n, t, q)| && FiledSets(seeds, n, t, q)[e] == T;
    var c, k := EntryOf(seeds, n, t, q, e);
    GeneratorFacts(seeds[c], n, t, q, k);
  }

  lemma FiledEvery(seeds: seq<int>, n: nat, t: nat, keys: seq<seq<Key>>, q: nat, arrived: seq<Key>, c: nat, p: nat)
    requires IsSeedMap(seeds, n, t) && Shapes(seeds, n, t) && Drawn(seeds, n, keys) && 1 <= q <= n
    requires ArrivedRight(seeds, n, t, keys, q, arrived)
    requires c < |seeds| && 1 <= p <= n && q !in ShareSet(seeds[c], n, p)
    ensures var table := RssTable(seeds, n, t, q, keys[q], arrived);
            ShareSet(seeds[c], n, p) in table && table[ShareSet(seeds[c], n, p)] == keys[p][c]
  {
    hide ShareSet, FiledSets, FiledKeys, Generator, InsertAll, IsCode, Distinct, IsSeedMap, Shapes, ExpectedKey;
    FiledSetsDistinct(seeds, n, t, q);
    DistinctAllInserted(FiledSets(seeds, n, t, q), FiledKeys(t, keys[q], arrived));
    CodeAt(seeds, n, t, c);
    var k := GeneratorFound(seeds[c], n, t, p, q);
    var e := FiledPair(seeds, n, t, keys, q, arrived, c, k);
  }

  lemma TableOfArrivals(seeds: seq<int>, n: nat, t: nat, keys: seq<seq<Key>>, q: nat, arrived: seq<Key>)
    requires IsSeedMap(seeds, n, t) && Shapes(seeds, n, t) && Drawn(seeds, n, keys) && 1 <= q <= n
    requires ArrivedRight(seeds, n, t, keys, q, arrived)
    ensures OneShareSetEach(seeds, n, t, keys, q, RssTable(seeds, n, t, q, keys[q], arrived))
  {
    hide ShareSet, IsSeedMap, RssTable, Shapes, ExpectedKey, IsShareSet;
    var table := RssTable(seeds, n, t, q, keys[q], arrived);
    TableSize(seeds, n, t, keys, q, arrived);
    forall T | T in table ensures q !in T && IsShareSet(seeds, n, T) {
      FiledOutside(seeds, n, t, keys, q, arrived, T);
    }
    forall c: nat, p: nat | c < |seeds| && 1 <= p <= n
      ensures KeyFiledRight(ShareSet(seeds[c], n, p), keys[p][c], q, table)
    {
      if q !in ShareSet(seeds[c], n, p) {
        FiledEvery(seeds, n, t, keys, q, arrived, c, p);
      }
    }
  }

  lemma TableSize(seeds: seq<int>, n: nat, t: nat, keys: seq<seq<Key>>, q: nat, arrived: seq<Key>)
    requires IsSeedMap(seeds, n, t) && Shapes(seeds, n, t) && Drawn(seeds, n, keys) && 1 <= q <= n
    requires |arrived| == |keys[q]| * t
    ensures |RssTable(seeds, n, t, q, keys[q], arrived)| == |seeds| * (t + 1)
  {
    hide FiledSets, FiledKeys, InsertAll, Distinct, IsSeedMap, Shapes;
    FiledSetsDistinct(seeds, n, t, q);
    DistinctAllInserted(FiledSets(seeds, n, t, q), FiledKeys(t, keys[q], arrived));
  }

  /** What arrives at `q` in a completed run is right, so the loop of `q` runs with it. */
  lemma CompletedArrivals(seeds: seq<int>, n: nat, t: nat, keys: seq<seq<Key>>, s: State<Key>, q: nat)
    requires Completed(seeds, n, t, keys, s) && 1 <= q <= n
    ensures q < |s.log| && |s.log[q]| == 2 * (|seeds| * t)
    ensures ArrivedRight(seeds, n, t, keys, q, Arrived(seeds, n, t, s, q))
  {
    hide Reachable, Outcome, IsSeedMap, Shapes, ExpectedKey, Program;
    var sys := SeedSystem(seeds, n, t, keys);
    var steps :| Reachable(sys, s, steps);
    KeyExchangeCorrect(seeds, n, t, keys, s, steps);
    assert !Unfinished(sys, s, q);
    assert sys[q] == Program(seeds, n, t, keys[q], q);
  }

  /** After any completed run, `q` holds a key for the share set of generator `p` and code `c`
      exactly when `q` is not in the set; it is the key `p` drew, so all holders agree; and none of
      the insertions was discarded. */
  lemma KeyWithExactlyTheOutsiders(seeds: seq<int>, n: nat, t: nat, keys: seq<seq<Key>>, s: State<Key>, q: nat)
    requires Completed(seeds, n, t, keys, s) && 1 <= q <= n
    ensures q < |s.log| && |s.log[q]| == 2 * (|seeds| * t)
    ensures OneShareSetEach(seeds, n, t, keys, q,
              RssTable(seeds, n, t, q, keys[q], Arrived(seeds, n, t, s, q)))
  {
    hide Reachable, IsSeedMap, Shapes, ArrivedRight, OneShareSetEach, RssTable, SeedSystem, Finished;
    CompletedArrivals(seeds, n, t, keys, s, q);
    TableOfArrivals(seeds, n, t, keys, q, Arrived(seeds, n, t, s, q));
  }

  /** With a complete seed map, `q` holds a key for every set of `t` parties without `q`, and for
      nothing else. */
  lemma EverySubsetHeld(seeds: seq<int>, n: nat, t: nat, keys: seq<seq<Key>>, s: State<Key>, q: nat, T: seq<int>)
    requires Completed(seeds, n, t, keys, s) && Complete(seeds, n, t) && 1 <= q <= n
    ensures q < |s.log| && |s.log[q]| == 2 * (|seeds| * t)
    ensures T in RssTable(seeds, n, t, q, keys[q], Arrived(seeds, n, t, s, q))
       <==> IsSubset(T, n, t) && q !in T
  {
    hide Reachable, IsSeedMap, Shapes, RssTable, SeedSystem, Finished, ShareSet, IsSubset, Complete;
    KeyWithExactlyTheOutsiders(seeds, n, t, keys, s, q);
    var table := RssTable(seeds, n, t, q, keys[q], Arrived(seeds, n, t, s, q));
    if T in table {
      var c: nat, p: nat :| c < |seeds| && 1 <= p <= n && T == ShareSet(seeds[c], n, p);
      ShareSetIsSubset(seeds, n, t, c, p);
      assert KeyFiledRight(ShareSet(seeds[c], n, p), keys[p][c], q, table);
    }
    if IsSubset(T, n, t) && q !in T {
      var c, p := EverySubsetReached(seeds, n, t, T);
      assert KeyFiledRight(ShareSet(seeds[c], n, p), keys[p][c], q, table);
    }
  }

  /** With the compiler's map, then, `q` holds a key for every set of `t` other parties. */
  lemma CompilerMapServesAll(seeds: seq<nat>, n: nat, t: nat, keys: seq<seq<Key>>, s: State<Key>, q: nat, T: seq<int>)
    requires IsCompilerMap(seeds, n, t) && Completed(seeds, n, t, keys, s) && 1 <= q <= n
    ensures q < |s.log| && |s.log[q]| == 2 * (|seeds| * t)
    ensures T in RssTable(seeds, n, t, q, keys[q], Arrived(seeds, n, t, s, q))
       <==> IsSubset(T, n, t) && q !in T
  {
    CompilerMapComplete(seeds, n, t);
    hide IsCompilerMap, Complete, Shapes, Drawn, RssTable, Arrived, IsSubset, Finished, IsSeedMap;
    EverySubsetHeld(seeds, n, t, keys, s, q, T);
  }
}
