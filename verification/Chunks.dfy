/**
 Cutting a message into chunks that fit the send buffer.
 */
module Chunks {
  import opened Bits

  const MAX_BUFFER_SIZE := 262144
  const UINT_RANGE := 0x1_0000_0000

  /** Bytes of one transmitted value of `bits` bits. */
  function UnitSize(bits: nat): (r: nat)
    ensures 8 * r - 8 < bits <= 8 * r || bits == r == 0
  {
    (bits + 7) / 8
  }

  /** Values that fit into one chunk; `peers` counts the other parties. */
  function ChunkCount(peers: nat, unit: nat): int
    requires unit > 0
  {
    MAX_BUFFER_SIZE / (peers + 1) / unit
  }

  /** Number of the last chunk, -1 when there is none. */
  function LastChunk(size: nat, count: nat): int
    requires count > 0
  {
    if size % count != 0 then size / count else size / count - 1
  }

  function Start(k: nat, count: nat): nat {
    k * count
  }

  /** The end clamping of `getBufferSize` and of the ring and byte variants. */
  function Amount(start: nat, count: nat, size: nat): int {
    if start + count > size then size - start else count
  }

  /** The chunks `0..last` are non-empty, follow each other without gap from 0, and end at `size`; all
      but the last are full. */
  ghost predicate Covers(size: nat, count: nat, last: int) {
    && (size == 0 <==> last < 0) && Start(0, count) == 0
    && (forall k: nat | k <= last :: 0 < Amount(Start(k, count), count, size) <= count)
    && (forall k: nat | k < last :: Amount(Start(k, count), count, size) == count)
    && (forall k: nat | k < last :: Start(k, count) + Amount(Start(k, count), count, size) == Start(k + 1, count))
    && (last >= 0 ==> Start(last, count) + Amount(Start(last, count), count, size) == size)
  }

  lemma DivisionFacts(size: nat, count: nat)
    requires count > 0
    ensures size == 0 ==> LastChunk(size, count) == -1
    ensures size > 0 ==> LastChunk(size, count) >= 0
    ensures size > 0 ==> LastChunk(size, count) * count < size <= (LastChunk(size, count) + 1) * count
  {
    QuotientFacts(size, count, size / count, size % count);
  }

  lemma QuotientFacts(size: int, count: int, q: int, r: int)
    requires size >= 0 && 0 <= r < count && size == q * count + r
    ensures q >= 0 && (size == 0 ==> q == 0 && r == 0) && (size > 0 && r == 0 ==> q >= 1)
    ensures r > 0 ==> q * count < size <= (q + 1) * count
    ensures r == 0 && size > 0 ==> (q - 1) * count < size <= q * count
  {
    ProductSign(q, count);
    assert (q - 1) * count == q * count - count;
    assert (q + 1) * count == q * count + count;
  }

  lemma ProductSign(q: int, count: int)
    requires count >= 1
    ensures q >= 1 ==> q * count >= count
    ensures q <= -1 ==> q * count <= -count
  {
    MulGap(count, q);
  }

  lemma EarlierStarts(k: nat, last: nat, count: nat)
    requires k < last
    ensures k * count + count <= last * count
  {
    assert (last - k - 1) * count >= 0;
    assert last * count == k * count + count + (last - k - 1) * count;
  }

  lemma FullChunk(k: nat, last: nat, count: nat, size: nat)
    requires count > 0 && k < last && last * count < size
    ensures Amount(Start(k, count), count, size) == count
    ensures Start(k, count) + count == Start(k + 1, count)
  {
    EarlierStarts(k, last, count);
    assert (k + 1) * count == k * count + count;
  }

  lemma FinalChunk(last: nat, count: nat, size: nat)
    requires count > 0 && last * count < size <= (last + 1) * count
    ensures 0 < Amount(Start(last, count), count, size) <= count
    ensures Start(last, count) + Amount(Start(last, count), count, size) == size
  {
    assert (last + 1) * count == last * count + count;
  }

  /** With the last chunk number that the round counter computes, the chunks cover the message. */
  lemma ChunksCover(size: nat, count: nat)
    requires count > 0
    ensures Covers(size, count, LastChunk(size, count))
  {
    var last := LastChunk(size, count);
    DivisionFacts(size, count);
    assert Start(0, count) == 0;
    hide LastChunk, Start, Amount;
    if last >= 0 {
      FinalChunk(last, count, size);
    }
    forall k: nat | k < last
      ensures Amount(Start(k, count), count, size) == count
      ensures Start(k, count) + count == Start(k + 1, count)
    {
      FullChunk(k, last, count, size);
    }
  }

  /** Every chunk fits into the share of the buffer that one party gets. */
  lemma ChunkFits(size: nat, peers: nat, unit: nat, k: nat)
    requires unit > 0 && ChunkCount(peers, unit) > 0
    requires k <= LastChunk(size, ChunkCount(peers, unit))
    ensures var count := ChunkCount(peers, unit);
            0 < unit * Amount(Start(k, count), count, size) <= MAX_BUFFER_SIZE / (peers + 1)
  {
    var count := ChunkCount(peers, unit);
    ChunksCover(size, count);
    ShareHolds(unit, Amount(Start(k, count), count, size), MAX_BUFFER_SIZE / (peers + 1));
  }

  lemma ShareHolds(unit: int, a: int, share: int)
    requires unit > 0 && 0 < a <= share / unit
    ensures 0 < unit * a <= share
  {
    assert unit * (share / unit - a) >= 0;
    assert unit * (a - 1) >= 0;
  }

  /** The largest number of units that fit into the share of one party. */
  predicate LargestFitting(count: int, peers: nat, unit: nat) {
    count * unit <= MAX_BUFFER_SIZE / (peers + 1) < (count + 1) * unit
  }

  lemma ShareSplit(share: nat, unit: nat)
    requires unit > 0
    ensures share / unit * unit <= share < (share / unit + 1) * unit
  {
    assert (share / unit + 1) * unit == share / unit * unit + unit;
  }

  /** The count is the largest number of units that fit. */
  lemma CountIsLargest(peers: nat, unit: nat, count: int)
    requires unit > 0
    ensures count == ChunkCount(peers, unit) <==> LargestFitting(count, peers, unit)
  {
    var share := MAX_BUFFER_SIZE / (peers + 1);
    ShareSplit(share, unit);
    OneQuotient(share, unit, count, ChunkCount(peers, unit));
  }

  lemma OneQuotient(share: nat, unit: nat, a: int, b: int)
    requires unit > 0 && b * unit <= share < (b + 1) * unit
    ensures a * unit <= share < (a + 1) * unit ==> a == b
  {
    if a * unit <= share < (a + 1) * unit {
      if a < b {
        ProductMonotone(unit, a + 1, b);
      } else if a > b {
        ProductMonotone(unit, b + 1, a);
      }
    }
  }

  // ----- the round counters

  /** `getRounds`, on signed integers. */
  method GetRounds(size: int, peers: nat, unit_size: nat) returns (count: int, rounds: int)
    requires unit_size > 0 && ChunkCount(peers, unit_size) > 0 && size >= 0
    ensures count == ChunkCount(peers, unit_size) && Covers(size, count, rounds) && rounds == LastChunk(size, count)
    ensures count * unit_size <= MAX_BUFFER_SIZE / (peers + 1) < (count + 1) * unit_size
  {
    CountIsLargest(peers, unit_size, ChunkCount(peers, unit_size));
    count := MAX_BUFFER_SIZE / (peers + 1) / unit_size;
    if size % count != 0 {
      rounds := size / count;
    } else {
      rounds := size / count - 1;
    }
    ChunksCover(size, count);
  }

  /** `getRounds_RSS`: the counters are unsigned, so `size / count - 1` wraps around below zero. */
  method GetRoundsRss(size: int, peers: nat, ring_size: nat) returns (count: nat, rounds: nat)
    requires ring_size > 0 && ChunkCount(peers, UnitSize(ring_size)) > 0 && 0 <= size < UINT_RANGE / 2
    ensures count == ChunkCount(peers, UnitSize(ring_size)) && rounds == LastChunk(size, count) % UINT_RANGE
    ensures count * ((ring_size + 7) / 8) <= MAX_BUFFER_SIZE / (peers + 1) < (count + 1) * ((ring_size + 7) / 8)
    ensures size > 0 ==> Covers(size, count, rounds)
  {
    CountIsLargest(peers, UnitSize(ring_size), ChunkCount(peers, UnitSize(ring_size)));
    var unit_size := (ring_size + 7) / 8;
    count := MAX_BUFFER_SIZE / (peers + 1) / unit_size;
    rounds := UnsignedRounds(size, count);
    UnsignedCoversNonEmpty(size, count);
  }

  /** `getRounds_bit`: chunks of plain bytes. */
  method GetRoundsBit(size: int, peers: nat) returns (count: nat, rounds: nat)
    requires peers < MAX_BUFFER_SIZE && 0 <= size < UINT_RANGE / 2
    ensures count == ChunkCount(peers, 1) > 0 && rounds == LastChunk(size, count) % UINT_RANGE
    ensures count <= MAX_BUFFER_SIZE / (peers + 1) < count + 1
    ensures size > 0 ==> Covers(size, count, rounds)
  {
    count := MAX_BUFFER_SIZE / (peers + 1);
    SharePositive(peers);
    rounds := UnsignedRounds(size, count);
    UnsignedCoversNonEmpty(size, count);
  }

  lemma SharePositive(peers: nat)
    requires peers < MAX_BUFFER_SIZE
    ensures MAX_BUFFER_SIZE / (peers + 1) > 0
  {
    if MAX_BUFFER_SIZE / (peers + 1) <= 0 {
      DivModUnique(MAX_BUFFER_SIZE, peers + 1, 0, MAX_BUFFER_SIZE % (peers + 1));
      assert false;
    }
  }

  method UnsignedRounds(size: nat, count: nat) returns (rounds: nat)
    requires count > 0
    ensures rounds == LastChunk(size, count) % UINT_RANGE
  {
    if size % count != 0 {
      rounds := size / count % UINT_RANGE;
    } else {
      rounds := (size / count - 1) % UINT_RANGE;
    }
  }

  /** The unsigned counters give a cover exactly when there is something to send; for an empty
      message the loop bound becomes the largest unsigned value. */
  lemma UnsignedCoversNonEmpty(size: nat, count: nat)
    requires count > 0 && size < UINT_RANGE / 2
    ensures Covers(size, count, LastChunk(size, count) % UINT_RANGE) <==> size > 0
    ensures size == 0 ==> LastChunk(size, count) % UINT_RANGE == UINT_RANGE - 1
  {
    hide LastChunk, Amount, Start;
    DivisionFacts(size, count);
    ChunksCover(size, count);
    if size > 0 {
      ScaleUp(LastChunk(size, count), count);
    }
  }

  lemma ScaleUp(k: int, count: int)
    requires k >= 0 && count >= 1
    ensures k <= k * count
  {
    assert k * (count - 1) >= 0;
  }

  // ----- positions as machine integers

  /** `start + amount` is a machine integer for every chunk. */
  ghost predicate PositionsFit(size: nat, count: nat)
    requires count > 0
  {
    forall k: nat | k <= LastChunk(size, count) :: Start(k, count) + count < UINT_RANGE / 2
  }

  /** The size rounded up to whole chunks. */
  function RoundedUp(size: nat, count: nat): int
    requires count > 0
  {
    (size + count - 1) / count * count
  }

  lemma RoundedUpIs(size: nat, count: nat)
    requires count > 0
    ensures RoundedUp(size, count) == (LastChunk(size, count) + 1) * count
  {
    var q, r := size / count, size % count;
    if r == 0 {
      DivModUnique(size + count - 1, count, q, count - 1);
    } else {
      DivModUnique(size + count - 1, count, q + 1, r - 1);
    }
  }

  /** That is so exactly when the size, rounded up to whole chunks, is one. */
  lemma PositionsFitIff(size: nat, count: nat)
    requires count > 0
    ensures PositionsFit(size, count) <==> RoundedUp(size, count) < UINT_RANGE / 2
  {
    hide LastChunk;
    var last := LastChunk(size, count);
    DivisionFacts(size, count);
    RoundedUpIs(size, count);
    hide RoundedUp;
    if last >= 0 {
      assert (last + 1) * count == last * count + count;
      assert Start(last, count) + count == RoundedUp(size, count);
      forall k: nat | k <= last ensures Start(k, count) + count <= RoundedUp(size, count) {
        if k < last {
          EarlierStarts(k, last, count);
        }
      }
    }
  }

  // ----- chunks put together again

  function Chunk<T>(data: seq<T>, count: nat, k: nat): seq<T>
    requires count > 0 && k <= LastChunk(|data|, count)
  {
    ChunksCover(|data|, count);
    data[Start(k, count)..Start(k, count) + Amount(Start(k, count), count, |data|)]
  }

  /** The first `k` chunks make up the message up to where chunk `k` starts. */
  lemma ChunkBounds<T>(data: seq<T>, count: nat, k: nat)
    requires count > 0 && k <= LastChunk(|data|, count)
    ensures var from, to := Start(k, count), Start(k, count) + |Chunk(data, count, k)|;
            && from < to <= |data|
            && data[..to] == data[..from] + Chunk(data, count, k)
            && (k < LastChunk(|data|, count) ==> to == Start(k + 1, count))
            && (k == LastChunk(|data|, count) ==> to == |data|)
  {
    ChunksCover(|data|, count);
  }
}
