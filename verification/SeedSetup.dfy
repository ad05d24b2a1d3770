/**
 The key exchange of `seedSetup`. For every access code each party draws a key, sends it to the
 parties the code names and collects the keys meant for it, one exchange after the other. All
 parties run at their own pace over FIFO channels.
 */
module SeedSetup {
  import opened Bits
  import opened Sequences
  import opened Maps
  import opened Schedules
  import opened Polynomials
  import opened ShareSets
  import opened CoefficientRange
  import opened FifoNetwork

  /** The 2 * KEYSIZE bytes drawn for one access code. */
  type Key = seq<bv8>

  // ----- what one party does

  predicate Shapes(seeds: seq<int>, n: nat, t: nat) {
    n == 2 * t + 1 && t > 0 && forall s | 0 <= s < |seeds| :: |Positions(seeds[s], n, true)| == t
  }

  lemma SeedMapShapes(seeds: seq<int>, n: nat, t: nat)
    requires IsSeedMap(seeds, n, t) && n == 2 * t + 1 && t > 0
    ensures Shapes(seeds, n, t)
  {
    hide Rotated;
    forall s | 0 <= s < |seeds| ensures |Positions(seeds[s], n, true)| == t {
      assert IsCode(seeds[s], n, t);
    }
  }

  /** Exchange `j` of party `p`: its destination and its source. */
  function Destination(seeds: seq<int>, n: nat, t: nat, p: nat, j: nat): int
    requires Shapes(seeds, n, t) && j < |seeds| * t
  {
    RowOf(j, t, |seeds|);
    WithAccess(seeds[j / t], n, p)[j % t]
  }

  function Source(seeds: seq<int>, n: nat, t: nat, p: nat, j: nat): int
    requires Shapes(seeds, n, t) && j < |seeds| * t
  {
    RowOf(j, t, |seeds|);
    Sources(seeds[j / t], n, p)[j % t]
  }

  lemma PartnersInRange(seeds: seq<int>, n: nat, t: nat, p: nat, j: nat)
    requires Shapes(seeds, n, t) && j < |seeds| * t && 1 <= p <= n
    ensures 1 <= Destination(seeds, n, t, p, j) <= n
    ensures 1 <= Source(seeds, n, t, p, j) <= n && Source(seeds, n, t, p, j) != p
  {
    hide Positions;
    RowOf(j, t, |seeds|);
    SchedulesInverse(seeds[j / t], n, p, p, j % t);
  }

  lemma PartnersInverse(seeds: seq<int>, n: nat, t: nat, p: nat, q: nat, j: nat)
    requires Shapes(seeds, n, t) && j < |seeds| * t && 1 <= p <= n && 1 <= q <= n
    ensures Destination(seeds, n, t, p, j) == q <==> Source(seeds, n, t, q, j) == p
  {
    hide Positions;
    RowOf(j, t, |seeds|);
    SchedulesInverse(seeds[j / t], n, p, q, j % t);
  }

  /** Operation `i` of party `p`: exchanges in order, each a send and then a receive. */
  function Operation(seeds: seq<int>, n: nat, t: nat, own: seq<Key>, p: nat, i: nat): Op<Key>
    requires Shapes(seeds, n, t) && |own| == |seeds| && i < 2 * (|seeds| * t) && 1 <= p <= n
  {
    var j := i / 2;
    PartnersInRange(seeds, n, t, p, j);
    RowOf(j, t, |seeds|);
    if i % 2 == 0 then Send(Destination(seeds, n, t, p, j), j, own[j / t])
    else Recv(Source(seeds, n, t, p, j), j)
  }

  function Program(seeds: seq<int>, n: nat, t: nat, own: seq<Key>, p: nat): (r: seq<Op<Key>>)
    requires Shapes(seeds, n, t) && |own| == |seeds| && 1 <= p <= n
    ensures |r| == 2 * (|seeds| * t)
  {
    seq(2 * (|seeds| * t), i requires 0 <= i < 2 * (|seeds| * t) => Operation(seeds, n, t, own, p, i))
  }

  predicate Drawn(seeds: seq<int>, n: nat, keys: seq<seq<Key>>) {
    |keys| == n + 1 && forall p | 1 <= p <= n :: |keys[p]| == |seeds|
  }

  /** All parties together; `keys[p][s]` is what `p` draws for code `s`. Number 0 is nobody. */
  function SeedSystem(seeds: seq<int>, n: nat, t: nat, keys: seq<seq<Key>>): (r: System<Key>)
    requires Shapes(seeds, n, t) && Drawn(seeds, n, keys)
    ensures |r| == n + 1
  {
    seq(n + 1, p requires 0 <= p <= n => if p == 0 then [] else Program(seeds, n, t, keys[p], p))
  }

  lemma OperationRank(seeds: seq<int>, n: nat, t: nat, own: seq<Key>, p: nat, i: nat)
    requires Shapes(seeds, n, t) && |own| == |seeds| && i < 2 * (|seeds| * t) && 1 <= p <= n
    ensures Rank(Operation(seeds, n, t, own, p, i)) == i
    ensures Operation(seeds, n, t, own, p, i).tag == i / 2
    ensures Operation(seeds, n, t, own, p, i).Send? <==> i % 2 == 0
  {
    hide Destination, Source;
  }

  lemma ProgramOrdered(seeds: seq<int>, n: nat, t: nat, own: seq<Key>, p: nat)
    requires Shapes(seeds, n, t) && |own| == |seeds| && 1 <= p <= n
    ensures RankOrdered(Program(seeds, n, t, own, p)) && TagsIncrease(Program(seeds, n, t, own, p))
  {
    hide Operation, Shapes;
    var ops := Program(seeds, n, t, own, p);
    forall i | 0 <= i < |ops|
      ensures Rank(ops[i]) == i && ops[i].tag == i / 2 && (ops[i].Send? <==> i % 2 == 0)
    {
      OperationRank(seeds, n, t, own, p, i);
    }
  }

  /** Tag `j` is sent by `p` to `q` when exchange `j` takes `p` to `q`. */
  lemma ProgramSends(seeds: seq<int>, n: nat, t: nat, own: seq<Key>, p: nat, q: nat, j: nat)
    requires Shapes(seeds, n, t) && |own| == |seeds| && 1 <= p <= n
    ensures SendsTag(Program(seeds, n, t, own, p), q, j)
       <==> j < |seeds| * t && Destination(seeds, n, t, p, j) == q
    ensures RecvsTag(Program(seeds, n, t, own, p), q, j)
       <==> j < |seeds| * t && Source(seeds, n, t, p, j) == q
  {
    hide Destination, Source, Shapes;
    var ops := Program(seeds, n, t, own, p);
    if j < |seeds| * t {
      assert ops[2 * j] == Operation(seeds, n, t, own, p, 2 * j);
      assert ops[2 * j + 1] == Operation(seeds, n, t, own, p, 2 * j + 1);
    }
    if SendsTag(ops, q, j) {
      var i :| 0 <= i < |ops| && ops[i].Send? && ops[i].to == q && ops[i].tag == j;
      assert ops[i] == Operation(seeds, n, t, own, p, i);
    }
    if RecvsTag(ops, q, j) {
      var i :| 0 <= i < |ops| && ops[i].Recv? && ops[i].from == q && ops[i].tag == j;
      assert ops[i] == Operation(seeds, n, t, own, p, i);
    }
  }

  lemma NobodySends(q: nat, j: nat)
    ensures !SendsTag<Key>([], q, j) && !RecvsTag<Key>([], q, j)
  {
  }

  /** Sends and receives of all parties answer each other one to one. */
  lemma SeedSystemMatched(seeds: seq<int>, n: nat, t: nat, keys: seq<seq<Key>>)
    requires Shapes(seeds, n, t) && Drawn(seeds, n, keys)
    ensures Matched(SeedSystem(seeds, n, t, keys))
  {
    hide Program, Shapes, Matched, SendsTag, RecvsTag, RankOrdered, TagsIncrease;
    var sys := SeedSystem(seeds, n, t, keys);
    forall p | 0 <= p < |sys| ensures RankOrdered(sys[p]) && TagsIncrease(sys[p]) {
      if p == 0 {
        NobodyOrdered();
      } else {
        ProgramOrdered(seeds, n, t, keys[p], p);
      }
    }
    forall p, i | 0 <= p < |sys| && 0 <= i < |sys[p]| && sys[p][i].Recv? ensures sys[p][i].from < |sys| {
      SourceInSystem(seeds, n, t, keys[p], p, i);
    }
    forall p: nat, q: nat, j: nat | p < |sys| && q < |sys|
      ensures SendsTag(sys[p], q, j) <==> RecvsTag(sys[q], p, j)
    {
      PairMatched(seeds, n, t, keys, p, q, j);
    }
    MatchedByTags(sys);
  }

  lemma NobodyOrdered()
    ensures RankOrdered<Key>([]) && TagsIncrease<Key>([])
  {
  }

  lemma SourceInSystem(seeds: seq<int>, n: nat, t: nat, own: seq<Key>, p: nat, i: nat)
    requires Shapes(seeds, n, t) && |own| == |seeds| && 1 <= p <= n
    requires i < |Program(seeds, n, t, own, p)| && Program(seeds, n, t, own, p)[i].Recv?
    ensures Program(seeds, n, t, own, p)[i].from <= n
  {
    hide Destination, Source;
    assert Program(seeds, n, t, own, p)[i] == Operation(seeds, n, t, own, p, i);
    PartnersInRange(seeds, n, t, p, i / 2);
  }

  lemma PairMatched(seeds: seq<int>, n: nat, t: nat, keys: seq<seq<Key>>, p: nat, q: nat, j: nat)
    requires Shapes(seeds, n, t) && Drawn(seeds, n, keys) && p <= n && q <= n
    ensures SendsTag(SeedSystem(seeds, n, t, keys)[p], q, j) <==> RecvsTag(SeedSystem(seeds, n, t, keys)[q], p, j)
  {
    hide Program, Shapes, SendsTag, RecvsTag, Destination, Source;
    NobodySends(q, j);
    NobodySends(p, j);
    if p > 0 {
      ProgramSends(seeds, n, t, keys[p], p, q, j);
      if j < |seeds| * t {
        PartnersInRange(seeds, n, t, p, j);
      }
    }
    if q > 0 {
      ProgramSends(seeds, n, t, keys[q], q, p, j);
      if j < |seeds| * t {
        PartnersInRange(seeds, n, t, q, j);
      }
    }
    if p > 0 && q > 0 && j < |seeds| * t {
      PartnersInverse(seeds, n, t, p, q, j);
    }
  }

  // ----- every interleaving

  /** Whatever a party has received in exchange `j` is the key its source drew for that code. */
  ghost predicate KeysDelivered(seeds: seq<int>, n: nat, t: nat, keys: seq<seq<Key>>, s: State<Key>)
    requires Shapes(seeds, n, t) && Drawn(seeds, n, keys) && Shaped(SeedSystem(seeds, n, t, keys), s)
  {
    forall q: nat, j: nat | 1 <= q <= n && j < |seeds| * t && 2 * j + 1 < |s.log[q]| ::
      s.log[q][2 * j + 1] == ExpectedKey(seeds, n, t, keys, q, j)
  }

  function ExpectedKey(seeds: seq<int>, n: nat, t: nat, keys: seq<seq<Key>>, q: nat, j: nat): Key
    requires Shapes(seeds, n, t) && Drawn(seeds, n, keys) && 1 <= q <= n && j < |seeds| * t
  {
    PartnersInRange(seeds, n, t, q, j);
    RowOf(j, t, |seeds|);
    keys[Source(seeds, n, t, q, j)][j / t]
  }

  lemma CarriedKey(seeds: seq<int>, n: nat, t: nat, keys: seq<seq<Key>>, q: nat, j: nat, key: Key)
    requires Shapes(seeds, n, t) && Drawn(seeds, n, keys) && 1 <= q <= n && j < |seeds| * t
    requires Carries(SeedSystem(seeds, n, t, keys), q, 2 * j + 1, key)
    ensures key == ExpectedKey(seeds, n, t, keys, q, j)
  {
    hide Destination, Source, Shapes, Operation;
    var sys := SeedSystem(seeds, n, t, keys);
    var p := Source(seeds, n, t, q, j);
    PartnersInRange(seeds, n, t, q, j);
    ReceiveOf(seeds, n, t, keys[q], q, j);
    assert sys[q][2 * j + 1] == Recv(p, j);
    var i :| 0 <= i < |sys[p]| && sys[p][i] == Send(q, j, key);
    SentKey(seeds, n, t, keys[p], p, i);
  }

  lemma ReceiveOf(seeds: seq<int>, n: nat, t: nat, own: seq<Key>, q: nat, j: nat)
    requires Shapes(seeds, n, t) && |own| == |seeds| && j < |seeds| * t && 1 <= q <= n
    ensures Source(seeds, n, t, q, j) >= 0
    ensures Operation(seeds, n, t, own, q, 2 * j + 1) == Recv(Source(seeds, n, t, q, j), j)
  {
    hide Source, Destination, Shapes;
    PartnersInRange(seeds, n, t, q, j);
    EvenOdd(j);
  }

  lemma SentKey(seeds: seq<int>, n: nat, t: nat, own: seq<Key>, p: nat, i: nat)
    requires Shapes(seeds, n, t) && |own| == |seeds| && i < 2 * (|seeds| * t) && 1 <= p <= n
    requires Operation(seeds, n, t, own, p, i).Send?
    ensures var op := Operation(seeds, n, t, own, p, i);
            op.tag < |seeds| * t && t > 0 && 0 <= op.tag / t < |own| && op.msg == own[op.tag / t]
  {
    hide Source, Destination;
    RowOf(i / 2, t, |seeds|);
  }

  /** Every interleaving of the key exchange ends, none gets stuck before every party is through,
      and every key received is the one its sender drew for that same code. */
  lemma KeyExchangeCorrect(seeds: seq<int>, n: nat, t: nat, keys: seq<seq<Key>>, s: State<Key>, steps: nat)
    requires Shapes(seeds, n, t) && Drawn(seeds, n, keys)
    requires Reachable(SeedSystem(seeds, n, t, keys), s, steps)
    ensures Outcome(SeedSystem(seeds, n, t, keys), s, steps)
    ensures KeysDelivered(seeds, n, t, keys, s)
  {
    hide SeedSystem, Shapes, Reachable, Matched, ChannelsExact, Finished, Stuck, ExpectedKey;
    var sys := SeedSystem(seeds, n, t, keys);
    SeedSystemMatched(seeds, n, t, keys);
    EveryRunCompletes(sys, s, steps);
    forall q: nat, j: nat | 1 <= q <= n && j < |seeds| * t && 2 * j + 1 < |s.log[q]|
      ensures s.log[q][2 * j + 1] == ExpectedKey(seeds, n, t, keys, q, j)
    {
      assert Carries(sys, q, 2 * j + 1, s.log[q][2 * j + 1]);
      CarriedKey(seeds, n, t, keys, q, j, s.log[q][2 * j + 1]);
    }
  }

  // ----- the tables a party builds

  /** The generators of the keys that `q` files for one code: its sources, then itself. */
  function Generator(code: int, n: nat, t: nat, q: nat, k: nat): int
    requires n > 0 && k <= t && |Positions(code, n, true)| == t
  {
    if k < t then Sources(code, n, q)[k] else q
  }

  /** The share sets that `q` files keys under, in order of insertion. */
  function FiledSets(seeds: seq<int>, n: nat, t: nat, q: nat): (r: seq<seq<int>>)
    requires Shapes(seeds, n, t)
    ensures |r| == |seeds| * (t + 1)
  {
    seq(|seeds| * (t + 1), e requires 0 <= e < |seeds| * (t + 1) =>
      RowOf(e, t + 1, |seeds|);
      ShareSet(seeds[e / (t + 1)], n, Generator(seeds[e / (t + 1)], n, t, q, e % (t + 1))))
  }

  /** The keys it files, in the same order, out of the keys that arrived and its own. */
  function FiledKeys(t: nat, own: seq<Key>, arrived: seq<Key>): (r: seq<Key>)
    requires |arrived| == |own| * t
    ensures |r| == |own| * (t + 1)
  {
    seq(|own| * (t + 1), e requires 0 <= e < |own| * (t + 1) =>
      RowOf(e, t + 1, |own|);
      if e % (t + 1) < t then
        RowMajorInRange(e / (t + 1), t, e % (t + 1), |own|);
        arrived[e / (t + 1) * t + e % (t + 1)]
      else own[e / (t + 1)])
  }

  /** The machine integers it files for the Shamir table. */
  function FiledPolynomials(seeds: seq<int>, n: nat, t: nat, q: nat): (r: seq<seq<int>>)
    requires Shapes(seeds, n, t)
    ensures |r| == |seeds| * (t + 1)
  {
    var sets := FiledSets(seeds, n, t, q);
    seq(|sets|, e requires 0 <= e < |sets| => InMachine(Coefficients(Negated(sets[e]), t)))
  }

  lemma SetAt(seeds: seq<int>, n: nat, t: nat, q: nat, s: nat, k: nat)
    requires Shapes(seeds, n, t) && s < |seeds| && k <= t
    ensures s * (t + 1) + k < |FiledSets(seeds, n, t, q)|
    ensures FiledSets(seeds, n, t, q)[s * (t + 1) + k] == ShareSet(seeds[s], n, Generator(seeds[s], n, t, q, k))
    ensures FiledPolynomials(seeds, n, t, q)[s * (t + 1) + k]
         == InMachine(Coefficients(Negated(ShareSet(seeds[s], n, Generator(seeds[s], n, t, q, k))), t))
  {
    hide ShareSet, Generator, Coefficients;
    RowMajorInRange(s, t + 1, k, |seeds|);
    RowMajor(s, t + 1, k);
  }

  lemma KeyAt(t: nat, own: seq<Key>, arrived: seq<Key>, s: nat, k: nat)
    requires s < |own| && k <= t && |arrived| == |own| * t
    ensures s * (t + 1) + k < |FiledKeys(t, own, arrived)|
    ensures k < t ==> s * t + k < |arrived|
    ensures FiledKeys(t, own, arrived)[s * (t + 1) + k] == if k < t then arrived[s * t + k] else own[s]
  {
    RowMajorInRange(s, t + 1, k, |own|);
    RowMajor(s, t + 1, k);
    if k < t {
      RowMajorInRange(s, t, k, |own|);
    }
  }

  lemma FiledSetIsSubset(seeds: seq<int>, n: nat, t: nat, q: nat, e: nat)
    requires Shapes(seeds, n, t) && 1 <= q <= n && e < |FiledSets(seeds, n, t, q)|
    ensures IsSubset(FiledSets(seeds, n, t, q)[e], n, t)
  {
    hide ShareSet, Positions, Sources, WithAccess;
    RowOf(e, t + 1, |seeds|);
    var code, k := seeds[e / (t + 1)], e % (t + 1);
    var p := Generator(code, n, t, q, k);
    if k < t {
      SchedulesInverse(code, n, q, q, k);
    }
    ShareSetIncreasing(code, n, p);
    ShareSetMembers(code, n, p);
    PositionsSplit(code, n);
  }

  /** Nothing overflows while the first `e` polynomials are computed. */
  ghost predicate FitUpTo(sets: seq<seq<int>>, t: nat, e: nat)
    requires e <= |sets|
  {
    forall i | 0 <= i < e :: AllFit(sets[i], t)
  }

  ghost predicate FiledFit(seeds: seq<int>, n: nat, t: nat, q: nat)
    requires Shapes(seeds, n, t)
  {
    FitUpTo(FiledSets(seeds, n, t, q), t, |FiledSets(seeds, n, t, q)|)
  }

  /** Nor for any polynomial, when there are at most seventeen parties. */
  lemma SmallSetupsFit(seeds: seq<int>, n: nat, t: nat, q: nat)
    requires Shapes(seeds, n, t) && 1 <= q <= n && t <= 8
    ensures FiledFit(seeds, n, t, q)
  {
    hide FiledSets, AllFit, IsSubset;
    forall e | 0 <= e < |FiledSets(seeds, n, t, q)| ensures AllFit(FiledSets(seeds, n, t, q)[e], t) {
      FiledSetIsSubset(seeds, n, t, q, e);
      SubsetsFit(FiledSets(seeds, n, t, q)[e], n, t);
    }
  }

  // ----- the loop of one party

  /** The first `e` entries have been inserted, and nothing else. */
  ghost predicate Filed<K, V>(before: map<K, V>, ks: seq<K>, vs: seq<V>, e: nat, now: map<K, V>)
    requires |ks| == |vs|
  {
    e <= |ks| && now == InsertAll(before, ks[..e], vs[..e])
  }

  lemma FiledStart<K, V>(m: map<K, V>, ks: seq<K>, vs: seq<V>)
    requires |ks| == |vs|
    ensures Filed(m, ks, vs, 0, m)
  {
  }

  lemma FiledNext<K, V>(before: map<K, V>, ks: seq<K>, vs: seq<V>, e: nat, now: map<K, V>)
    requires |ks| == |vs| && Filed(before, ks, vs, e, now) && e < |ks|
    ensures Filed(before, ks, vs, e + 1, InsertNew(now, ks[e], vs[e]))
  {
    assert ks[..e + 1][..e] == ks[..e] && vs[..e + 1][..e] == vs[..e];
  }

  lemma FiledEnd<K, V>(before: map<K, V>, ks: seq<K>, vs: seq<V>, now: map<K, V>)
    requires |ks| == |vs| && Filed(before, ks, vs, |ks|, now)
    ensures now == InsertAll(before, ks, vs)
  {
    assert ks[..|ks|] == ks && vs[..|vs|] == vs;
  }

  lemma FitNext(sets: seq<seq<int>>, t: nat, e: nat)
    requires e < |sets|
    ensures FitUpTo(sets, t, e + 1) <==> FitUpTo(sets, t, e) && AllFit(sets[e], t)
  {
  }

  /** What the loop has done after `e` entries: both tables and the range flag. */
  ghost predicate Built(rss0: map<seq<int>, Key>, shamir0: map<Key, seq<int>>, sets: seq<seq<int>>, filed: seq<Key>,
                        polys: seq<seq<int>>, t: nat, e: nat,
                        rss: map<seq<int>, Key>, shamir: map<Key, seq<int>>, fits: bool)
    requires |sets| == |filed| == |polys|
  {
    e <= |sets| && Filed(rss0, sets, filed, e, rss) && Filed(shamir0, filed, polys, e, shamir)
    && (fits <==> FitUpTo(sets, t, e))
  }

  lemma BuiltStart(rss0: map<seq<int>, Key>, shamir0: map<Key, seq<int>>, sets: seq<seq<int>>, filed: seq<Key>,
                   polys: seq<seq<int>>, t: nat)
    requires |sets| == |filed| == |polys|
    ensures Built(rss0, shamir0, sets, filed, polys, t, 0, rss0, shamir0, true)
  {
    FiledStart(rss0, sets, filed);
    FiledStart(shamir0, filed, polys);
  }

  lemma BuiltNext(rss0: map<seq<int>, Key>, shamir0: map<Key, seq<int>>, sets: seq<seq<int>>, filed: seq<Key>,
                  polys: seq<seq<int>>, t: nat, e: nat,
                  rss: map<seq<int>, Key>, shamir: map<Key, seq<int>>, fits: bool, inRange: bool)
    requires |sets| == |filed| == |polys| && e < |sets|
    requires Built(rss0, shamir0, sets, filed, polys, t, e, rss, shamir, fits) && (inRange <==> AllFit(sets[e], t))
    ensures Built(rss0, shamir0, sets, filed, polys, t, e + 1,
                  InsertNew(rss, sets[e], filed[e]), InsertNew(shamir, filed[e], polys[e]), fits && inRange)
  {
    hide Filed, FitUpTo, AllFit, InsertNew;
    FiledNext(rss0, sets, filed, e, rss);
    FiledNext(shamir0, filed, polys, e, shamir);
    FitNext(sets, t, e);
  }

  lemma BuiltEnd(rss0: map<seq<int>, Key>, shamir0: map<Key, seq<int>>, sets: seq<seq<int>>, filed: seq<Key>,
                 polys: seq<seq<int>>, t: nat, e: nat,
                 rss: map<seq<int>, Key>, shamir: map<Key, seq<int>>, fits: bool)
    requires |sets| == |filed| == |polys| == e
    requires Built(rss0, shamir0, sets, filed, polys, t, e, rss, shamir, fits)
    ensures rss == InsertAll(rss0, sets, filed) && shamir == InsertAll(shamir0, filed, polys)
    ensures fits <==> FitUpTo(sets, t, |sets|)
  {
    FiledEnd(rss0, sets, filed, rss);
    FiledEnd(shamir0, filed, polys, shamir);
  }

  class SmcUtils {
    const id: nat
    var rss_share_seeds: map<seq<int>, Key>
    var shamir_seeds_coefs: map<Key, seq<int>>

    constructor (id: nat)
      ensures this.id == id && rss_share_seeds == map[] && shamir_seeds_coefs == map[]
    {
      this.id := id;
      rss_share_seeds := map[];
      shamir_seeds_coefs := map[];
    }

    /** The two insertions; which of them is compiled in depends on the technique. */
    method File(T: seq<int>, coefficients: seq<int>, key: Key)
      modifies this
      ensures rss_share_seeds == InsertNew(old(rss_share_seeds), T, key)
      ensures shamir_seeds_coefs == InsertNew(old(shamir_seeds_coefs), key, coefficients)
    {
      if key !in shamir_seeds_coefs {
        shamir_seeds_coefs := shamir_seeds_coefs[key := coefficients];
      }
      if T !in rss_share_seeds {
        rss_share_seeds := rss_share_seeds[T := key];
      }
    }

    /** `seedSetup`, filling the table of either secret-sharing technique. `random` is what the
        random device yields and `arriving` what successive receives return; `ops` lists the
        network operations in the order they are made; `fits` tells whether the computation of the
        coefficients stays within machine integers. */
    method SeedSetup(seed_map: seq<int>, peers: nat, threshold: nat, random: seq<Key>, arriving: seq<Key>)
      returns (ops: seq<Op<Key>>, fits: bool)
      requires Shapes(seed_map, peers, threshold) && 1 <= id <= peers
      requires |random| == |seed_map| && |arriving| == |seed_map| * threshold
      modifies this
      ensures ops == Program(seed_map, peers, threshold, random, id)
      ensures (fits <==> FiledFit(seed_map, peers, threshold, id)) && (threshold <= 8 ==> fits)
      ensures rss_share_seeds == InsertAll(old(rss_share_seeds),
                FiledSets(seed_map, peers, threshold, id), FiledKeys(threshold, random, arriving))
      ensures shamir_seeds_coefs == InsertAll(old(shamir_seeds_coefs),
                FiledKeys(threshold, random, arriving), FiledPolynomials(seed_map, peers, threshold, id))
    {
      hide Shapes, FiledSets, FiledKeys, FiledPolynomials, Program, Built, FitUpTo, Operation, InsertAll;
      hide Positions, Sources, WithAccess, WithoutAccess, Sort, Coefficients, InMachine, InsertNew, AllFit, Negated;
      ghost var sets := FiledSets(seed_map, peers, threshold, id);
      ghost var filed := FiledKeys(threshold, random, arriving);
      ghost var polys := FiledPolynomials(seed_map, peers, threshold, id);
      ghost var program := Program(seed_map, peers, threshold, random, id);
      ghost var rss0, shamir0 := rss_share_seeds, shamir_seeds_coefs;
      BuiltStart(rss0, shamir0, sets, filed, polys, threshold);
      ops, fits := [], true;
      for s := 0 to |seed_map|
        invariant 2 * (s * threshold) <= |program| && ops == program[..2 * (s * threshold)]
        invariant Built(rss0, shamir0, sets, filed, polys, threshold, s * (threshold + 1),
                        rss_share_seeds, shamir_seeds_coefs, fits)
      {
        var seed := seed_map[s];
        ShapesAt(seed_map, peers, threshold, s);
        var send_map := ExtractShareWithAccess(seed, peers, id);
        var recv_map_original := ExtractShareWithoutAccess(seed, peers, id);
        var ok, recv_map := ExtractShareWithoutAccessNew(seed, peers, id, threshold);
        MapSizes(seed, peers, threshold, id);
        for i := 0 to |send_map|
          invariant 2 * (s * threshold + i) <= |program| && ops == program[..2 * (s * threshold + i)]
          invariant Built(rss0, shamir0, sets, filed, polys, threshold, s * (threshold + 1) + i,
                          rss_share_seeds, shamir_seeds_coefs, fits)
        {
          SetAt(seed_map, peers, threshold, id, s, i);
          KeyAt(threshold, random, arriving, s, i);
          ProgramAt(seed_map, peers, threshold, random, id, s, i);
          ops := ops + [Send(send_map[i], s * threshold + i, random[s])];
          ops := ops + [Recv(recv_map[i], s * threshold + i)];
          var key := arriving[s * threshold + i];
          var T_recv := ExtractShareWithoutAccess(seed, peers, recv_map[i]);
          T_recv := Sort(T_recv);
          var coefficients, inRange := GenerateCoefficients(T_recv, threshold);
          BuiltNext(rss0, shamir0, sets, filed, polys, threshold, s * (threshold + 1) + i,
                    rss_share_seeds, shamir_seeds_coefs, fits, inRange);
          fits := fits && inRange;
          File(T_recv, coefficients, key);
        }
        SetAt(seed_map, peers, threshold, id, s, threshold);
        KeyAt(threshold, random, arriving, s, threshold);
        recv_map_original := Sort(recv_map_original);
        var coefficients, inRange := GenerateCoefficients(recv_map_original, threshold);
        BuiltNext(rss0, shamir0, sets, filed, polys, threshold, s * (threshold + 1) + threshold,
                  rss_share_seeds, shamir_seeds_coefs, fits, inRange);
        fits := fits && inRange;
        File(recv_map_original, coefficients, random[s]);
        NextRow(s, threshold);
      }
      BuiltEnd(rss0, shamir0, sets, filed, polys, threshold, |sets|, rss_share_seeds, shamir_seeds_coefs, fits);
      if threshold <= 8 {
        SmallSetupsFit(seed_map, peers, threshold, id);
      }
    }
  }

  lemma NextRow(s: nat, t: nat)
    ensures s * (t + 1) + t + 1 == (s + 1) * (t + 1)
    ensures s * t + t == (s + 1) * t
  {
  }

  lemma ShapesAt(seeds: seq<int>, n: nat, t: nat, s: nat)
    requires Shapes(seeds, n, t) && s < |seeds|
    ensures n == 2 * t + 1 && t > 0 && |Positions(seeds[s], n, true)| == t
  {
  }

  lemma MapSizes(code: int, n: nat, t: nat, id: nat)
    requires |Positions(code, n, true)| == t && 1 <= id <= n
    ensures |WithAccess(code, n, id)| == |Sources(code, n, id)| == t
  {
  }

  /** The two operations of exchange `s * t + k`. */
  lemma OperationAt(seeds: seq<int>, n: nat, t: nat, own: seq<Key>, p: nat, s: nat, k: nat, j: nat)
    requires Shapes(seeds, n, t) && |own| == |seeds| && 1 <= p <= n && s < |seeds| && k < t
    requires j == s * t + k && j < |seeds| * t && j / t == s && j % t == k
    requires |WithAccess(seeds[s], n, p)| == |Sources(seeds[s], n, p)| == t
    ensures WithAccess(seeds[s], n, p)[k] >= 0 && Sources(seeds[s], n, p)[k] >= 0
    ensures Operation(seeds, n, t, own, p, 2 * j) == Send(WithAccess(seeds[s], n, p)[k], j, own[s])
    ensures Operation(seeds, n, t, own, p, 2 * j + 1) == Recv(Sources(seeds[s], n, p)[k], j)
  {
    hide WithAccess, Sources, Shapes;
    PartnersInRange(seeds, n, t, p, j);
    EvenOdd(j);
  }

  lemma EvenOdd(j: nat)
    ensures 2 * j / 2 == (2 * j + 1) / 2 == j && 2 * j % 2 == 0 && (2 * j + 1) % 2 == 1
  {
  }

  lemma TakeTwo<X>(xs: seq<X>, i: nat)
    requires i + 2 <= |xs|
    ensures xs[..i + 2] == xs[..i] + [xs[i]] + [xs[i + 1]]
  {
  }

  /** The `k`-th exchange of code `s` has number `s * t + k`: a send of the key drawn for the code to
      its `k`-th destination, then a receive from its `k`-th source. */
  lemma ProgramAt(seeds: seq<int>, n: nat, t: nat, own: seq<Key>, p: nat, s: nat, k: nat)
    requires Shapes(seeds, n, t) && |own| == |seeds| && 1 <= p <= n && s < |seeds| && k < t
    ensures s * t + k < |seeds| * t
    ensures |WithAccess(seeds[s], n, p)| == |Sources(seeds[s], n, p)| == t
    ensures WithAccess(seeds[s], n, p)[k] >= 0 && Sources(seeds[s], n, p)[k] >= 0
    ensures var program, j := Program(seeds, n, t, own, p), s * t + k;
            && program[..2 * (j + 1)] == program[..2 * j] + [program[2 * j]] + [program[2 * j + 1]]
            && program[2 * j] == Send(WithAccess(seeds[s], n, p)[k], j, own[s])
            && program[2 * j + 1] == Recv(Sources(seeds[s], n, p)[k], j)
  {
    RowMajorInRange(s, t, k, |seeds|);
    RowMajor(s, t, k);
    ShapesAt(seeds, n, t, s);
    MapSizes(seeds[s], n, t, p);
    hide WithAccess, Sources, Shapes, Operation;
    var j := s * t + k;
    OperationAt(seeds, n, t, own, p, s, k, j);
    TakeTwo(Program(seeds, n, t, own, p), 2 * j);
  }
}
