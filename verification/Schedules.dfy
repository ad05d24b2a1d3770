/**
 Who sends a key to whom. Parties are numbered 1..n around a ring. An access code is a word whose
 set bits are the distances, clockwise from the party that generates a key, of the parties that
 get it; bit 0 stands for the generator itself.
 */
module Schedules {
  import opened Bits
  import opened Sequences

  /** The party `i` places clockwise of `id`. */
  function Ring(id: int, i: int, n: int): (r: int)
    requires n > 0
  {
    (id + i - 1) % n + 1
  }

  /** How far clockwise of `p` party `q` sits. */
  function Distance(p: int, q: int, n: int): (d: int)
    requires 1 <= p <= n && 1 <= q <= n
    ensures 0 <= d < n
  {
    if q >= p then q - p else q - p + n
  }

  lemma RingLinear(id: int, i: int, n: int)
    requires 1 <= id <= n && 0 <= i <= n
    ensures Ring(id, i, n) == if id + i <= n then id + i else id + i - n
  {
    var a := id + i - 1;
    if a < n {
      DivModUnique(a, n, 0, a);
    } else if a < 2 * n {
      DivModUnique(a, n, 1, a - n);
    }
  }

  lemma RingDistance(p: int, q: int, n: int)
    requires 1 <= p <= n && 1 <= q <= n
    ensures Ring(p, Distance(p, q, n), n) == q
    ensures forall i | 0 <= i < n :: Ring(p, i, n) == q ==> i == Distance(p, q, n)
  {
    RingLinear(p, Distance(p, q, n), n);
    forall i | 0 <= i < n && Ring(p, i, n) == q ensures i == Distance(p, q, n) {
      RingLinear(p, i, n);
    }
  }

  /** The positions below `limit`, without 0, whose bit in `code` equals `value`, in increasing order. */
  function Positions(code: int, limit: nat, value: bool): (r: seq<nat>)
    ensures forall k | 0 <= k < |r| :: 1 <= r[k] < limit && Bit(code, r[k]) == value
    ensures forall i, k | 0 <= i < k < |r| :: r[i] < r[k]
  {
    if limit <= 1 then []
    else Positions(code, limit - 1, value) + if Bit(code, limit - 1) == value then [limit - 1] else []
  }

  lemma {:induction false} PositionsComplete(code: int, limit: nat, value: bool, i: nat)
    requires 1 <= i < limit && Bit(code, i) == value
    ensures i in Positions(code, limit, value)
  {
    if i < limit - 1 {
      PositionsComplete(code, limit - 1, value, i);
    }
  }

  /** All places below `limit`, without 0, whose bit is `value`, from the lowest up. */
  ghost predicate BitPlaces(at: seq<nat>, code: int, limit: nat, value: bool) {
    && (forall i, k | 0 <= i < k < |at| :: at[i] < at[k])
    && (forall i: nat :: i in at <==> 1 <= i < limit && Bit(code, i) == value)
  }

  lemma PositionsArePlaces(code: int, limit: nat, value: bool)
    ensures BitPlaces(Positions(code, limit, value), code, limit, value)
    ensures forall at: seq<nat> | BitPlaces(at, code, limit, value) :: at == Positions(code, limit, value)
  {
    hide Bit;
    var positions := Positions(code, limit, value);
    forall i: nat ensures i in positions <==> 1 <= i < limit && Bit(code, i) == value {
      if 1 <= i < limit && Bit(code, i) == value {
        PositionsComplete(code, limit, value, i);
      }
    }
    hide Positions;
    forall at: seq<nat> | BitPlaces(at, code, limit, value) ensures at == positions {
      forall x: int ensures x in at <==> x in positions {
        if x >= 0 {
          var i: nat := x;
          assert i in at <==> i in positions;
        }
      }
      SortedUnique(at, positions);
    }
  }

  lemma {:induction false} PositionsSplit(code: int, limit: nat)
    ensures limit > 0 ==> |Positions(code, limit, true)| + |Positions(code, limit, false)| == limit - 1
  {
    if limit > 1 {
      PositionsSplit(code, limit - 1);
    }
  }

  lemma {:induction false} PositionsPrefix(code: int, small: nat, limit: nat, value: bool)
    requires small <= limit
    ensures Positions(code, small, value) <= Positions(code, limit, value)
    decreases limit
  {
    if small < limit {
      PositionsPrefix(code, small, limit - 1, value);
    }
  }

  /** The destinations of the key that `id` generates, in sending order. */
  function WithAccess(code: int, n: nat, id: int): (r: seq<int>)
    requires n > 0
  {
    var ones := Positions(code, n, true);
    seq(|ones|, k requires 0 <= k < |ones| => Ring(id, ones[k], n))
  }

  /** The parties that do not get the key that `id` generates: the share set it is filed under. */
  function WithoutAccess(code: int, n: nat, id: int): (r: seq<int>)
    requires n > 0
  {
    var zeros := Positions(code, n, false);
    seq(|zeros|, k requires 0 <= k < |zeros| => Ring(id, zeros[|zeros| - 1 - k], n))
  }

  /** The parties whose keys reach `id`, in receiving order. */
  function Sources(code: int, n: nat, id: int): (r: seq<int>)
    requires n > 0
  {
    var ones := Positions(code, n, true);
    seq(|ones|, k requires 0 <= k < |ones| => Ring(id, n - ones[k], n))
  }

  lemma RingIs(id: int, i: int, n: int)
    requires n > 0
    ensures Ring(id, i, n) == (id + i - 1) % n + 1
  {
  }

  /** The destinations are the parties at the distances whose bit is set, the nearest first. */
  lemma DestinationsByPlace(code: int, n: nat, id: int)
    requires n > 0
    ensures forall at: seq<nat> | BitPlaces(at, code, n, true) ::
              |WithAccess(code, n, id)| == |at| &&
              forall k | 0 <= k < |at| :: WithAccess(code, n, id)[k] == (id + at[k] - 1) % n + 1
  {
    PositionsArePlaces(code, n, true);
    hide BitPlaces, Positions;
  }

  /** The parties of the share set are those at the distances whose bit is clear, the farthest first. */
  lemma OutsidersByPlace(code: int, n: nat, id: int)
    requires n > 0
    ensures forall at: seq<nat> | BitPlaces(at, code, n, false) ::
              |WithoutAccess(code, n, id)| == |at| &&
              forall k | 0 <= k < |at| :: WithoutAccess(code, n, id)[k] == (id + at[|at| - 1 - k] - 1) % n + 1
  {
    PositionsArePlaces(code, n, false);
    hide BitPlaces, Positions, Ring;
    forall at: seq<nat> | BitPlaces(at, code, n, false)
      ensures |WithoutAccess(code, n, id)| == |at|
      ensures forall k | 0 <= k < |at| :: WithoutAccess(code, n, id)[k] == (id + at[|at| - 1 - k] - 1) % n + 1
    {
      forall k | 0 <= k < |at| ensures WithoutAccess(code, n, id)[k] == (id + at[|at| - 1 - k] - 1) % n + 1 {
        RingIs(id, at[|at| - 1 - k], n);
      }
    }
  }

  /** What the runtime demands of a code for `n` parties: `t` bits set besides bit 0. */
  predicate IsCode(code: int, n: nat, t: nat) {
    n == 2 * t + 1 && t > 0 && Bit(code, 0) && |Positions(code, n, true)| == t
  }

  // ----- sends and receives answer each other

  /** In exchange `k`, `p` sends to `q` exactly when `q` receives from `p`, and never to itself. */
  lemma SchedulesInverse(code: int, n: nat, p: int, q: int, k: nat)
    requires 1 <= p <= n && 1 <= q <= n && k < |Positions(code, n, true)|
    ensures WithAccess(code, n, p)[k] == q <==> Sources(code, n, q)[k] == p
    ensures 1 <= WithAccess(code, n, p)[k] <= n && WithAccess(code, n, p)[k] != p
    ensures 1 <= Sources(code, n, q)[k] <= n
  {
    var i := Positions(code, n, true)[k];
    RingLinear(p, i, n);
    RingLinear(q, n - i, n);
  }

  /** Every exchange is a permutation of the parties: no destination repeats, none is missed. */
  lemma ExchangePermutes(code: int, n: nat, k: nat)
    requires n > 0 && k < |Positions(code, n, true)|
    ensures forall p, q | 1 <= p <= n && 1 <= q <= n && p != q ::
              WithAccess(code, n, p)[k] != WithAccess(code, n, q)[k]
    ensures forall q | 1 <= q <= n ::
              1 <= Sources(code, n, q)[k] <= n && WithAccess(code, n, Sources(code, n, q)[k])[k] == q
  {
    hide Positions;
    forall p, q | 1 <= p <= n && 1 <= q <= n && p != q
      ensures WithAccess(code, n, p)[k] != WithAccess(code, n, q)[k]
    {
      SchedulesInverse(code, n, p, WithAccess(code, n, q)[k], k) by {
        SchedulesInverse(code, n, q, q, k);
      }
      SchedulesInverse(code, n, q, WithAccess(code, n, q)[k], k);
    }
    forall q | 1 <= q <= n
      ensures 1 <= Sources(code, n, q)[k] <= n && WithAccess(code, n, Sources(code, n, q)[k])[k] == q
    {
      SchedulesInverse(code, n, q, q, k);
      SchedulesInverse(code, n, Sources(code, n, q)[k], q, k);
    }
  }

  // ----- who is outside a share set

  /** `q` is left out of the key of `p` exactly when the bit at its distance is clear. */
  lemma OutsideByBit(code: int, n: nat, p: int, q: int)
    requires Bit(code, 0) && 1 <= p <= n && 1 <= q <= n
    ensures q in WithoutAccess(code, n, p) <==> !Bit(code, Distance(p, q, n))
  {
    hide Positions;
    var d := Distance(p, q, n);
    var zeros := Positions(code, n, false);
    var out := WithoutAccess(code, n, p);
    RingDistance(p, q, n);
    if q in out {
      var k :| 0 <= k < |out| && out[k] == q;
      assert zeros[|zeros| - 1 - k] == d;
    }
    if !Bit(code, d) {
      PositionsComplete(code, n, false, d);
      var k :| 0 <= k < |zeros| && zeros[k] == d;
      assert out[|zeros| - 1 - k] == q;
    }
  }

  /** The parties outside the share set are the generator and its destinations. */
  lemma HoldersAreDestinations(code: int, n: nat, p: int, q: int)
    requires Bit(code, 0) && 1 <= p <= n && 1 <= q <= n
    ensures q !in WithoutAccess(code, n, p) <==> q == p || q in WithAccess(code, n, p)
  {
    hide Positions;
    OutsideByBit(code, n, p, q);
    var d := Distance(p, q, n);
    var ones := Positions(code, n, true);
    var to := WithAccess(code, n, p);
    RingDistance(p, q, n);
    if q in to {
      var k :| 0 <= k < |to| && to[k] == q;
      assert ones[k] == d;
    }
    if Bit(code, d) && d > 0 {
      PositionsComplete(code, n, true, d);
      var k :| 0 <= k < |ones| && ones[k] == d;
      assert to[k] == q;
    }
  }

  // ----- the older receiving schedule

  /** Clear bits are the mirror images of set bits. */
  ghost predicate Mirrored(code: int, n: nat) {
    forall i: nat | 1 <= i < n :: Bit(code, i) != Bit(code, n - i)
  }

  /** Where the two schedules agree. */
  lemma OlderAgreesAt(code: int, n: nat, t: nat, id: int, k: nat)
    requires IsCode(code, n, t) && 1 <= id <= n && k < t
    ensures |Positions(code, n, false)| == t
    ensures WithoutAccess(code, n, id)[k] == Sources(code, n, id)[k]
       <==> Positions(code, n, false)[t - 1 - k] == n - Positions(code, n, true)[k]
  {
    hide Positions;
    PositionsSplit(code, n);
    RingLinear(id, Positions(code, n, false)[t - 1 - k], n);
    RingLinear(id, n - Positions(code, n, true)[k], n);
  }

  /** The clear positions are the mirror images of the set ones, in reverse. */
  ghost predicate ZerosMirrorOnes(code: int, n: nat, t: nat) {
    && |Positions(code, n, true)| == |Positions(code, n, false)| == t
    && forall k: nat | k < t :: Positions(code, n, false)[t - 1 - k] == n - Positions(code, n, true)[k]
  }

  /** Used as a receiving schedule, the share set names the right senders in the right order
      exactly when no two mirrored bits of the code are equal. */
  lemma OlderScheduleRightWhenMirrored(code: int, n: nat, t: nat, id: int)
    requires IsCode(code, n, t) && 1 <= id <= n
    ensures WithoutAccess(code, n, id) == Sources(code, n, id) <==> Mirrored(code, n)
  {
    hide Positions;
    var older, newer := WithoutAccess(code, n, id), Sources(code, n, id);
    PositionsSplit(code, n);
    forall k: nat | k < t
      ensures older[k] == newer[k] <==> Positions(code, n, false)[t - 1 - k] == n - Positions(code, n, true)[k]
    {
      OlderAgreesAt(code, n, t, id, k);
    }
    assert |older| == |newer| == t;
    assert older == newer <==> forall k: nat | k < t :: older[k] == newer[k];
    ZerosMirrorOnesIff(code, n, t);
  }

  lemma ZerosMirrorOnesIff(code: int, n: nat, t: nat)
    requires IsCode(code, n, t)
    ensures ZerosMirrorOnes(code, n, t) <==> Mirrored(code, n)
  {
    hide Positions;
    PositionsSplit(code, n);
    if Mirrored(code, n) {
      MirrorPositions(code, n, t);
    }
    if ZerosMirrorOnes(code, n, t) {
      forall i: nat | 1 <= i < n ensures Bit(code, i) != Bit(code, n - i) {
        var ps := Positions(code, n, Bit(code, i));
        PositionsComplete(code, n, Bit(code, i), i);
        var k: nat :| k < t && ps[k] == i;
        if Bit(code, i) {
          assert Positions(code, n, false)[t - 1 - k] == n - i;
        } else {
          assert Positions(code, n, false)[t - 1 - (t - 1 - k)] == n - Positions(code, n, true)[t - 1 - k];
        }
      }
    }
  }

  lemma MirrorMember(code: int, n: nat, t: nat, mirror: seq<int>, i: int)
    requires IsCode(code, n, t) && Mirrored(code, n) && |mirror| == t
    requires forall k | 0 <= k < t :: mirror[k] == n - Positions(code, n, true)[t - 1 - k]
    ensures i in mirror <==> i in Positions(code, n, false)
  {
    hide Positions;
    var ones := Positions(code, n, true);
    if i in mirror {
      var k: nat :| k < t && mirror[k] == i;
      assert Bit(code, ones[t - 1 - k]);
      PositionsComplete(code, n, false, i);
    }
    if i in Positions(code, n, false) {
      PositionsComplete(code, n, true, n - i);
      var k: nat :| k < t && ones[k] == n - i;
      assert mirror[t - 1 - k] == i;
    }
  }

  lemma MirrorPositions(code: int, n: nat, t: nat)
    requires IsCode(code, n, t) && Mirrored(code, n)
    ensures ZerosMirrorOnes(code, n, t)
  {
    hide Positions;
    var ones, zeros := Positions(code, n, true), Positions(code, n, false);
    PositionsSplit(code, n);
    var mirror := seq(t, k requires 0 <= k < t => n - ones[t - 1 - k]);
    forall i: int ensures i in mirror <==> i in zeros {
      MirrorMember(code, n, t, mirror, i);
    }
    SortedUnique(mirror, zeros);
  }

  // ----- the three extraction loops

  /** `extract_share_WITH_ACCESS`. */
  method ExtractShareWithAccess(binary_rep: int, peers: nat, id: int) returns (result: seq<int>)
    requires peers > 0
    ensures result == WithAccess(binary_rep, peers, id)
  {
    hide Ring;
    result := [];
    for i := 1 to peers
      invariant |result| == |Positions(binary_rep, i, true)|
      invariant forall k | 0 <= k < |result| :: result[k] == Ring(id, Positions(binary_rep, i, true)[k], peers)
    {
      if Bit(binary_rep, i) {
        result := result + [Ring(id, i, peers)];
      }
    }
  }

  /** `extract_share_WITHOUT_ACCESS`, which scans from the highest bit down. */
  method ExtractShareWithoutAccess(binary_rep: int, peers: nat, id: int) returns (result: seq<int>)
    requires peers > 0
    ensures result == WithoutAccess(binary_rep, peers, id)
  {
    hide Ring;
    result := [];
    ghost var zeros := Positions(binary_rep, peers, false);
    var i := peers - 1;
    while i > 0
      invariant 0 <= i < peers
      invariant |result| == |zeros| - |Positions(binary_rep, i + 1, false)|
      invariant forall k | 0 <= k < |result| :: result[k] == Ring(id, zeros[|zeros| - 1 - k], peers)
    {
      PositionsPrefix(binary_rep, i + 1, peers, false);
      if !Bit(binary_rep, i) {
        result := result + [Ring(id, i, peers)];
      }
      i := i - 1;
    }
  }

  /** `extract_share_WITHOUT_ACCESS_new`. Slot `k` ends up with the party whose `k`-th destination
      is `id`. A code with more set bits than slots makes `result.at` throw. */
  method ExtractShareWithoutAccessNew(binary_rep: int, peers: nat, id: int, threshold: nat)
    returns (ok: bool, result: seq<int>)
    requires 1 <= id <= peers
    ensures ok <==> |Positions(binary_rep, peers, true)| <= threshold
    ensures ok ==> |result| == threshold
    ensures ok ==> forall k | 0 <= k < threshold ::
              result[k] == if k < |Sources(binary_rep, peers, id)| then Sources(binary_rep, peers, id)[k] else 0
  {
    ghost var ones := Positions(binary_rep, peers, true);
    ghost var sources := Sources(binary_rep, peers, id);
    result := seq(threshold, k => 0);
    for peer := 1 to peers + 1
      invariant |result| == threshold
      invariant forall k | 0 <= k < |ones| && sources[k] < peer :: k < threshold
      invariant forall k | 0 <= k < threshold ::
                  result[k] == if k < |ones| && sources[k] < peer then sources[k] else 0
    {
      ghost var d := Distance(peer, id, peers);
      RingDistance(peer, id, peers);
      ghost var before := result;
      var idx, i := 0, 1;
      var searching := true;
      while searching && i < peers
        invariant searching ==> 1 <= i <= peers && idx == |Positions(binary_rep, i, true)| && result == before
        invariant searching ==> d == 0 || i <= d || !Bit(binary_rep, d)
        invariant !searching ==> d > 0 && Bit(binary_rep, d) && idx == |Positions(binary_rep, d, true)| < threshold
        invariant !searching ==> result == before[idx := peer]
        decreases searching, peers - i
      {
        var tmp := Ring(peer, i, peers);
        if Bit(binary_rep, i) {
          if tmp == id {
            if idx >= threshold {
              SlotOverflow(binary_rep, peers, i, threshold);
              return false, result;
            }
            result := result[idx := peer];
            searching := false;
          } else {
            idx := idx + 1;
          }
        }
        if searching {
          i := i + 1;
        }
      }
      SourceSlot(binary_rep, peers, id, peer);
    }
    AllSlotsFit(binary_rep, peers, id, threshold);
    ok := true;
  }

  lemma SlotOverflow(code: int, n: nat, i: nat, threshold: nat)
    requires 1 <= i < n && Bit(code, i) && |Positions(code, i, true)| >= threshold
    ensures |Positions(code, n, true)| > threshold
  {
    PositionsPrefix(code, i + 1, n, true);
  }

  lemma AllSlotsFit(code: int, n: nat, id: int, threshold: nat)
    requires 1 <= id <= n
    requires forall k | 0 <= k < |Sources(code, n, id)| && Sources(code, n, id)[k] < n + 1 :: k < threshold
    ensures |Positions(code, n, true)| <= threshold
    ensures forall k | 0 <= k < |Sources(code, n, id)| :: Sources(code, n, id)[k] < n + 1
  {
    hide Positions;
    if threshold < |Positions(code, n, true)| {
      SchedulesInverse(code, n, id, id, threshold);
      assert false;
    }
    forall k | 0 <= k < |Sources(code, n, id)| ensures Sources(code, n, id)[k] < n + 1 {
      SchedulesInverse(code, n, id, id, k);
    }
  }

  /** `peer` fills a slot exactly when the bit at its distance to `id` is set, and then the slot
      whose number is the count of set bits below that distance. */
  lemma SourceSlot(code: int, n: nat, id: int, peer: int)
    requires 1 <= id <= n && 1 <= peer <= n
    ensures var d := Distance(peer, id, n);
            forall k | 0 <= k < |Sources(code, n, id)| ::
              Sources(code, n, id)[k] == peer <==> d > 0 && Bit(code, d) && k == |Positions(code, d, true)|
    ensures var d := Distance(peer, id, n);
            d > 0 && Bit(code, d) ==> |Positions(code, d, true)| < |Sources(code, n, id)|
  {
    var d := Distance(peer, id, n);
    var ones, sources := Positions(code, n, true), Sources(code, n, id);
    RingDistance(peer, id, n);
    if d > 0 && Bit(code, d) {
      PositionsPrefix(code, d + 1, n, true);
      assert ones[|Positions(code, d, true)|] == d;
    }
    forall k | 0 <= k < |sources|
      ensures sources[k] == peer <==> d > 0 && Bit(code, d) && k == |Positions(code, d, true)|
    {
      RingLinear(id, n - ones[k], n);
      assert sources[k] == peer <==> ones[k] == d;
    }
  }
}
