/**
 The chunked all-to-all exchanges. In every round each party sends one chunk to every other party
 and then takes one chunk from every other party, in the order of their numbers. A chunk stands for
 the message it is packed into; module Wire shows that packing and partial transfers keep it.

 Parties are numbered from 0 here, one less than their identifiers.
 */
module AllToAll {
  import opened Bits
  import opened Sequences
  import opened Chunks
  import opened FifoNetwork

  /** `data[p][q]` is what `p` sends to `q`; `data[p][p]` is what it keeps. */
  datatype Exchange = Exchange(n: nat, size: nat, count: nat, data: seq<seq<seq<nat>>>)

  predicate Valid(x: Exchange) {
    && x.n >= 2 && x.count > 0 && |x.data| == x.n
    && forall p | 0 <= p < x.n :: Sized(x.data[p], x.n, x.size)
  }

  predicate Sized(rows: seq<seq<nat>>, n: nat, size: nat) {
    |rows| == n && forall q | 0 <= q < n :: |rows[q]| == size
  }

  /** Every party gets the same data from `p`. */
  function Broadcast(n: nat, size: nat, count: nat, own: seq<seq<nat>>): (x: Exchange)
    requires n >= 2 && count > 0 && Sized(own, n, size)
    ensures Valid(x)
  {
    Exchange(n, size, count, seq(n, p requires 0 <= p < n => seq(n, q => own[p])))
  }

  /** Number of rounds: one more than the number of the last chunk. */
  function Rounds(size: nat, count: nat): (r: nat)
    requires count > 0
  {
    DivisionFacts(size, count);
    LastChunk(size, count) + 1
  }

  /** The peers of `p` in the order of the loops, and the place of a peer in that order. */
  function Other(p: nat, r: nat): nat {
    if r < p then r else r + 1
  }

  function Place(p: nat, q: nat): nat
    requires p != q
  {
    if q < p then q else q - 1
  }

  /** Party `p` goes through the others in the order of their numbers, each once. */
  lemma OthersInOrder(n: nat, p: nat)
    requires p < n
    ensures forall r: nat, r': nat | r < r' < n - 1 :: Other(p, r) < Other(p, r') < n
    ensures forall r: nat | r < n - 1 :: Other(p, r) < n && Other(p, r) != p && Place(p, Other(p, r)) == r
    ensures forall q: nat | q < n && q != p :: Place(p, q) < n - 1 && Other(p, Place(p, q)) == q
  {
  }

  /** Operation `r` of round `k`. */
  function RoundOp(rows: seq<seq<nat>>, n: nat, size: nat, count: nat, p: nat, k: nat, r: nat): (op: Op<seq<nat>>)
    requires Sized(rows, n, size) && count > 0 && p < n && k < Rounds(size, count) && r < 2 * (n - 1)
    ensures op.tag == k
  {
    var m := n - 1;
    if r < m then Send(Other(p, r), k, Chunk(rows[Other(p, r)], count, k)) else Recv(Other(p, r - m), k)
  }

  /** Operation `i` of the whole exchange. */
  function Operation(rows: seq<seq<nat>>, n: nat, size: nat, count: nat, p: nat, i: nat): (op: Op<seq<nat>>)
    requires Sized(rows, n, size) && count > 0 && p < n && n >= 2
    requires i < Rounds(size, count) * (2 * (n - 1))
  {
    var at := RowParts(i, 2 * (n - 1), Rounds(size, count));
    RoundOp(rows, n, size, count, p, at.0, at.1)
  }

  function ExchangeProgram(rows: seq<seq<nat>>, n: nat, size: nat, count: nat, p: nat): (ops: seq<Op<seq<nat>>>)
    requires Sized(rows, n, size) && count > 0 && p < n && n >= 2
    ensures |ops| == Rounds(size, count) * (2 * (n - 1))
  {
    var length := Rounds(size, count) * (2 * (n - 1));
    seq(length, i requires 0 <= i < length => Operation(rows, n, size, count, p, i))
  }

  function ExchangeSystem(x: Exchange): (sys: System<seq<nat>>)
    requires Valid(x)
    ensures |sys| == x.n
  {
    seq(x.n, p requires 0 <= p < x.n => ExchangeProgram(x.data[p], x.n, x.size, x.count, p))
  }

  lemma OpAt(rows: seq<seq<nat>>, n: nat, size: nat, count: nat, p: nat, k: nat, r: nat)
    requires Sized(rows, n, size) && count > 0 && p < n && n >= 2 && k < Rounds(size, count) && r < 2 * (n - 1)
    ensures k * (2 * (n - 1)) + r < Rounds(size, count) * (2 * (n - 1))
    ensures ExchangeProgram(rows, n, size, count, p)[k * (2 * (n - 1)) + r] == RoundOp(rows, n, size, count, p, k, r)
  {
    hide RowParts, RoundOp, Rounds;
    PartsOf(k, 2 * (n - 1), r, Rounds(size, count));
  }

  /** Every operation is one of a round. */
  lemma OpRound(rows: seq<seq<nat>>, n: nat, size: nat, count: nat, p: nat, i: nat) returns (k: nat, r: nat)
    requires Sized(rows, n, size) && count > 0 && p < n && n >= 2
    requires i < Rounds(size, count) * (2 * (n - 1))
    ensures k < Rounds(size, count) && r < 2 * (n - 1) && i == k * (2 * (n - 1)) + r
    ensures ExchangeProgram(rows, n, size, count, p)[i] == RoundOp(rows, n, size, count, p, k, r)
  {
    hide RowParts, RoundOp, Rounds;
    var at := RowParts(i, 2 * (n - 1), Rounds(size, count));
    k, r := at.0, at.1;
  }

  lemma LaterRound(k: nat, r: nat, k': nat, r': nat, width: nat)
    requires r < width && k < k'
    ensures k * width + r < k' * width + r'
  {
    ProductMonotone(width, k + 1, k');
    assert (k + 1) * width == k * width + width;
  }

  lemma ProgramOrdered(rows: seq<seq<nat>>, n: nat, size: nat, count: nat, p: nat)
    requires Sized(rows, n, size) && count > 0 && p < n && n >= 2
    ensures RankOrdered(ExchangeProgram(rows, n, size, count, p))
    ensures TagsIncrease(ExchangeProgram(rows, n, size, count, p))
  {
    hide ExchangeProgram, Chunk, Rounds, Sized;
    var ops := ExchangeProgram(rows, n, size, count, p);
    forall i, j | 0 <= i < j < |ops|
      ensures Rank(ops[i]) <= Rank(ops[j])
      ensures ops[i].Send? && ops[j].Send? && ops[i].to == ops[j].to ==> ops[i].tag < ops[j].tag
      ensures ops[i].Recv? && ops[j].Recv? && ops[i].from == ops[j].from ==> ops[i].tag < ops[j].tag
    {
      var k, r := OpRound(rows, n, size, count, p, i);
      var k', r' := OpRound(rows, n, size, count, p, j);
      if k' < k {
        LaterRound(k', r', k, r, 2 * (n - 1));
        assert false;
      }
    }
  }

  // ----- sends and receives answer each other

  /** What `p` sends to another party carries every round number once, and so does what it takes. */
  lemma ProgramTags(rows: seq<seq<nat>>, n: nat, size: nat, count: nat, p: nat, q: nat, k: nat)
    requires Sized(rows, n, size) && count > 0 && p < n && q < n && n >= 2
    ensures SendsTag(ExchangeProgram(rows, n, size, count, p), q, k) <==> q != p && k < Rounds(size, count)
    ensures RecvsTag(ExchangeProgram(rows, n, size, count, p), q, k) <==> q != p && k < Rounds(size, count)
  {
    hide ExchangeProgram, Chunk, Rounds, Sized;
    var ops := ExchangeProgram(rows, n, size, count, p);
    var m := n - 1;
    if q != p && k < Rounds(size, count) {
      OpAt(rows, n, size, count, p, k, Place(p, q));
      OpAt(rows, n, size, count, p, k, m + Place(p, q));
      assert ops[k * (2 * m) + Place(p, q)].to == q;
      assert ops[k * (2 * m) + (m + Place(p, q))].from == q;
    }
    if SendsTag(ops, q, k) {
      var i :| 0 <= i < |ops| && ops[i].Send? && ops[i].to == q && ops[i].tag == k;
      var k', r := OpRound(rows, n, size, count, p, i);
    }
    if RecvsTag(ops, q, k) {
      var i :| 0 <= i < |ops| && ops[i].Recv? && ops[i].from == q && ops[i].tag == k;
      var k', r := OpRound(rows, n, size, count, p, i);
    }
  }

  lemma ExchangeMatched(x: Exchange)
    requires Valid(x)
    ensures Matched(ExchangeSystem(x))
  {
    hide ExchangeProgram, Matched, SendsTag, RecvsTag, RankOrdered, TagsIncrease, Sized;
    var sys := ExchangeSystem(x);
    forall p | 0 <= p < |sys| ensures RankOrdered(sys[p]) && TagsIncrease(sys[p]) {
      ProgramOrdered(x.data[p], x.n, x.size, x.count, p);
    }
    forall p, i | 0 <= p < |sys| && 0 <= i < |sys[p]| && sys[p][i].Recv? ensures sys[p][i].from < |sys| {
      var k, r := OpRound(x.data[p], x.n, x.size, x.count, p, i);
    }
    forall p: nat, q: nat, k: nat | p < |sys| && q < |sys|
      ensures SendsTag(sys[p], q, k) <==> RecvsTag(sys[q], p, k)
    {
      ProgramTags(x.data[p], x.n, x.size, x.count, p, q, k);
      ProgramTags(x.data[q], x.n, x.size, x.count, q, p, k);
    }
    MatchedByTags(sys);
  }

  // ----- what every interleaving delivers

  /** Position of the receive from `q` in round `k` of `p`. */
  function RecvIndex(n: nat, p: nat, q: nat, k: nat): nat
    requires n >= 2 && p != q && p < n && q < n
  {
    k * (2 * (n - 1)) + (n - 1 + Place(p, q))
  }

  lemma CarriedChunk(x: Exchange, p: nat, q: nat, k: nat, msg: seq<nat>)
    requires Valid(x) && p < x.n && q < x.n && p != q && k < Rounds(x.size, x.count)
    requires RecvIndex(x.n, p, q, k) < |ExchangeSystem(x)[p]|
    requires Carries(ExchangeSystem(x), p, RecvIndex(x.n, p, q, k), msg)
    ensures msg == Chunk(x.data[q][p], x.count, k)
  {
    hide ExchangeProgram, Chunk, Rounds;
    var sys := ExchangeSystem(x);
    OpAt(x.data[p], x.n, x.size, x.count, p, k, x.n - 1 + Place(p, q));
    assert Send(p, k, msg) in sys[q];
    var i :| 0 <= i < |sys[q]| && sys[q][i] == Send(p, k, msg);
    var k', r := OpRound(x.data[q], x.n, x.size, x.count, q, i);
  }

  /** Whatever `p` has taken from `q` in round `k` is chunk `k` of what `q` has for `p`. */
  ghost predicate ChunksDelivered(x: Exchange, s: State<seq<nat>>)
    requires Valid(x) && Shaped(ExchangeSystem(x), s)
  {
    forall p: nat, q: nat, k: nat | p < x.n && q < x.n && p != q && k < Rounds(x.size, x.count) ::
      ChunkDelivered(x, s, p, q, k)
  }

  ghost predicate ChunkDelivered(x: Exchange, s: State<seq<nat>>, p: nat, q: nat, k: nat)
    requires Valid(x) && Shaped(ExchangeSystem(x), s)
    requires p < x.n && q < x.n && p != q && k < Rounds(x.size, x.count)
  {
    RecvIndex(x.n, p, q, k) < |s.log[p]| ==>
      s.log[p][RecvIndex(x.n, p, q, k)] == Chunk(x.data[q][p], x.count, k)
  }

  lemma InvDelivers(x: Exchange, s: State<seq<nat>>)
    requires Valid(x) && Inv(ExchangeSystem(x), s)
    ensures ChunksDelivered(x, s)
  {
    hide ExchangeSystem, Sized, ChannelsExact, Chunk, RecvIndex;
    forall p: nat, q: nat, k: nat | p < x.n && q < x.n && p != q && k < Rounds(x.size, x.count)
      ensures ChunkDelivered(x, s, p, q, k)
    {
      var i := RecvIndex(x.n, p, q, k);
      if i < |s.log[p]| {
        assert Carries(ExchangeSystem(x), p, i, s.log[p][i]);
        CarriedChunk(x, p, q, k, s.log[p][i]);
      }
    }
  }

  // ----- no channel holds more than two chunks

  lemma {:induction false} IncreasingBound(xs: seq<nat>, bound: nat)
    requires Increasing(xs) && forall x: nat | x in xs :: x < bound
    ensures |xs| <= bound
    decreases bound
  {
    if xs != [] {
      var last := xs[|xs| - 1];
      assert last in xs;
      IncreasingBound(xs[..|xs| - 1], last);
    }
  }

  lemma {:induction false} IncreasingHolds(xs: seq<nat>, count: nat)
    requires Increasing(xs) && forall x: nat | x < count :: x in xs
    ensures |xs| >= count
    decreases count
  {
    if count > 0 {
      assert count - 1 in xs;
      var i :| 0 <= i < |xs| && xs[i] == count - 1;
      forall x: nat | x < count - 1 ensures x in xs[..i] {
        assert x in xs;
        var j :| 0 <= j < |xs| && xs[j] == x;
        assert xs[..i][j] == x;
      }
      IncreasingHolds(xs[..i], count - 1);
    }
  }

  lemma PrefixIncreases<M>(ops: seq<Op<M>>, a: nat)
    requires TagsIncrease(ops) && a <= |ops|
    ensures TagsIncrease(ops[..a])
  {
  }

  /** Within its first `k` rounds `p` sends at most `k` chunks to a peer. */
  lemma SentAtMost(x: Exchange, p: nat, q: nat, a: nat, k: nat)
    requires Valid(x) && p < x.n && q < x.n && a <= |ExchangeSystem(x)[p]| && a <= k * (2 * (x.n - 1))
    ensures |Sends(ExchangeSystem(x)[p][..a], q)| <= k
  {
    hide ExchangeProgram, Chunk, Rounds, RankOrdered, TagsIncrease, Sends, Sized, Increasing;
    var w := 2 * (x.n - 1);
    var all := ExchangeSystem(x)[p];
    var ops := all[..a];
    ProgramOrdered(x.data[p], x.n, x.size, x.count, p);
    PrefixIncreases(all, a);
    SendTags(ops, q);
    var tags := Tags(Sends(ops, q));
    forall tag: nat | tag in tags ensures tag < k {
      assert SendsTag(ops, q, tag);
      var i :| 0 <= i < |ops| && ops[i].Send? && ops[i].to == q && ops[i].tag == tag;
      var k', r := OpRound(x.data[p], x.n, x.size, x.count, p, i);
      RowBefore(k', r, k, w);
    }
    IncreasingBound(tags, k);
  }

  lemma RowBefore(k': nat, r: nat, k: nat, w: nat)
    requires k' * w + r < k * w
    ensures k' < k
  {
    if k' >= k {
      ProductMonotone(w, k, k');
    }
  }

  /** Once it is through with `k` rounds it has taken at least `k` chunks from each peer. */
  lemma TakenAtLeast(x: Exchange, p: nat, q: nat, a: nat, k: nat)
    requires Valid(x) && p < x.n && q < x.n && p != q && a <= |ExchangeSystem(x)[p]| && k * (2 * (x.n - 1)) <= a
    ensures |Recvs(ExchangeSystem(x)[p][..a], q)| >= k
  {
    hide ExchangeProgram, Chunk, Rounds, RankOrdered, TagsIncrease, Recvs, Sized, Increasing;
    var w, place := 2 * (x.n - 1), x.n - 1 + Place(p, q);
    var all := ExchangeSystem(x)[p];
    var ops := all[..a];
    ProgramOrdered(x.data[p], x.n, x.size, x.count, p);
    PrefixIncreases(all, a);
    RecvTags(ops, q);
    forall tag: nat | tag < k ensures tag in Recvs(ops, q) {
      LaterRound(tag, place, k, 0, w);
      RowBefore(tag, place, Rounds(x.size, x.count), w);
      OpAt(x.data[p], x.n, x.size, x.count, p, tag, place);
      assert ops[tag * w + place] == all[tag * w + place];
      assert ops[tag * w + place].from == q;
      assert RecvsTag(ops, q, tag);
    }
    IncreasingHolds(Recvs(ops, q), k);
  }

  /** In no interleaving does a channel ever hold more than two chunks: a party starts a round only
      after taking what its peers sent in the round before. */
  lemma TwoChunksAtMost(x: Exchange, s: State<seq<nat>>, p: nat, q: nat)
    requires Valid(x) && Inv(ExchangeSystem(x), s) && p < x.n && q < x.n && p != q
    ensures |Chan(s, p, q)| <= 2
  {
    hide ExchangeSystem, Sends, Recvs, Chan, Valid, LogsRight;
    var sys := ExchangeSystem(x);
    var w := 2 * (x.n - 1);
    var a, b := |s.log[p]|, |s.log[q]|;
    var k := a / w;
    assert k * w <= a < (k + 1) * w by {
      Quotient(a, w);
    }
    assert ChannelExact(sys, s, p, q) && ChannelExact(sys, s, q, p);
    SentAtMost(x, p, q, a, k + 1);
    TakenAtLeast(x, p, q, a, k);
    if k > 0 {
      if b < (k - 1) * w {
        SentAtMost(x, q, p, b, k - 1);
        assert false;
      }
      TakenAtLeast(x, q, p, b, k - 1);
    }
  }

  lemma Quotient(a: nat, w: nat)
    requires w > 0
    ensures a / w * w <= a < (a / w + 1) * w
  {
  }

  // ----- the buffers of one party

  /** `arriving[k][r]` is the message taken in round `k` from the peer in place `r`. */
  function Joined(arriving: seq<seq<seq<nat>>>, r: nat, k: nat): (whole: seq<nat>)
    requires k <= |arriving| && forall i | 0 <= i < k :: r < |arriving[i]|
  {
    if k == 0 then [] else Joined(arriving, r, k - 1) + arriving[k - 1][r]
  }

  /** Each message has as many values as its chunk; a receive waits for exactly that many. */
  predicate ChunkSized(arriving: seq<seq<seq<nat>>>, n: nat, size: nat, count: nat)
    requires count > 0
  {
    |arriving| == Rounds(size, count) &&
    forall k: nat | k < |arriving| :: RoundSized(arriving[k], n, k, size, count)
  }

  predicate RoundSized(messages: seq<seq<nat>>, n: nat, k: nat, size: nat, count: nat) {
    |messages| + 1 == n && forall r | 0 <= r < |messages| :: |messages[r]| == Amount(Start(k, count), count, size)
  }

  /** Where the first `k` chunks end. */
  function EndOf(k: nat, size: nat, count: nat): nat
    requires count > 0
  {
    if k < Rounds(size, count) then Start(k, count) else size
  }

  lemma EndNext(k: nat, size: nat, count: nat)
    requires count > 0 && k < Rounds(size, count)
    ensures EndOf(k, size, count) == Start(k, count)
    ensures EndOf(k + 1, size, count) == Start(k, count) + Amount(Start(k, count), count, size) <= size
    ensures Amount(Start(k, count), count, size) > 0
    ensures EndOf(0, size, count) == 0
  {
    ChunksCover(size, count);
    hide Start, Amount, LastChunk;
    EndsInside(k, size, count);
  }

  lemma EndsInside(k: nat, size: nat, count: nat)
    requires count > 0 && k < Rounds(size, count)
    ensures Start(k, count) + Amount(Start(k, count), count, size) <= size && Start(0, count) == 0
  {
    hide LastChunk;
  }

  lemma {:induction false} JoinedLength(arriving: seq<seq<seq<nat>>>, n: nat, size: nat, count: nat, r: nat, k: nat)
    requires count > 0 && ChunkSized(arriving, n, size, count) && r + 1 < n && k <= |arriving|
    ensures |Joined(arriving, r, k)| == EndOf(k, size, count)
    decreases k
  {
    hide Rounds, EndOf;
    if k > 0 {
      JoinedLength(arriving, n, size, count, r, k - 1);
      EndNext(k - 1, size, count);
      assert RoundSized(arriving[k - 1], n, k - 1, size, count);
    } else {
      NoEnd(size, count);
    }
  }

  lemma NoEnd(size: nat, count: nat)
    requires count > 0
    ensures EndOf(0, size, count) == 0 && EndOf(Rounds(size, count), size, count) == size
  {
    DivisionFacts(size, count);
  }

  /** When every message is the chunk of that round, the messages joined are the data. */
  lemma {:induction false} JoinedChunks(arriving: seq<seq<seq<nat>>>, r: nat, data: seq<nat>, count: nat, k: nat)
    requires count > 0 && k <= |arriving| && k <= Rounds(|data|, count)
    requires forall j: nat | j < k :: r < |arriving[j]| && arriving[j][r] == Chunk(data, count, j)
    ensures EndOf(k, |data|, count) <= |data|
    ensures Joined(arriving, r, k) == data[..EndOf(k, |data|, count)]
    decreases k
  {
    hide EndOf, Start, Amount, LastChunk;
    NoEnd(|data|, count);
    if k > 0 {
      JoinedChunks(arriving, r, data, count, k - 1);
      EndNext(k - 1, |data|, count);
      ChunkBounds(data, count, k - 1);
    }
  }

  function Row(buffers: array2<nat>, j: nat): (row: seq<nat>)
    requires j < buffers.Length0
    reads buffers
    ensures |row| == buffers.Length1 && forall i | 0 <= i < |row| :: row[i] == buffers[j, i]
  {
    seq(buffers.Length1, i requires 0 <= i < buffers.Length1 reads buffers => buffers[j, i])
  }

  method StoreChunk(buffers: array2<nat>, j: nat, start: nat, decrypted: seq<nat>)
    requires j < buffers.Length0 && start + |decrypted| <= buffers.Length1
    modifies buffers
    ensures forall l | start <= l < start + |decrypted| :: buffers[j, l] == decrypted[l - start]
    ensures forall j', l | 0 <= j' < buffers.Length0 && 0 <= l < buffers.Length1
                           && !(j' == j && start <= l < start + |decrypted|) :: buffers[j', l] == old(buffers[j', l])
    ensures Row(buffers, j)[..start + |decrypted|] == old(Row(buffers, j)[..start]) + decrypted
    ensures forall j': nat | j' < buffers.Length0 && j' != j :: Row(buffers, j') == old(Row(buffers, j'))
  {
    for i := start to start + |decrypted|
      invariant forall l | start <= l < i :: buffers[j, l] == decrypted[l - start]
      invariant forall j', l | 0 <= j' < buffers.Length0 && 0 <= l < buffers.Length1
                               && !(j' == j && start <= l < i) :: buffers[j', l] == old(buffers[j', l])
    {
      buffers[j, i] := decrypted[i - start];
    }
  }

  /** The first `k` chunks from the peer in place `r` are at the front of its row. */
  ghost predicate Filled(row: seq<nat>, arriving: seq<seq<seq<nat>>>, r: nat, k: nat) {
    k <= |arriving| && (forall i | 0 <= i < k :: r < |arriving[i]|) && Joined(arriving, r, k) <= row
  }

  /** The peers before `j` are through with round `k`, the others with the rounds before it. */
  ghost predicate FilledUpTo(buffers: array2<nat>, arriving: seq<seq<seq<nat>>>, id: nat, j: nat, k: nat)
    reads buffers
  {
    forall j': nat | j' < buffers.Length0 && j' != id ::
      Filled(Row(buffers, j'), arriving, Place(id, j'), if j' < j then k + 1 else k)
  }

  /** The second inner loop of a round. */
  method TakeRound(buffers: array2<nat>, arriving: seq<seq<seq<nat>>>, n: nat, size: nat, count: nat, id: nat, k: nat)
    requires count > 0 && ChunkSized(arriving, n, size, count) && id < n && n >= 2 && k < |arriving|
    requires buffers.Length0 == n && buffers.Length1 == size
    requires FilledUpTo(buffers, arriving, id, 0, k)
    modifies buffers
    ensures FilledUpTo(buffers, arriving, id, 0, k + 1)
    ensures Row(buffers, id) == old(Row(buffers, id))
  {
    hide Row, Filled, RoundSized, Amount, Start, Rounds;
    var place := 0;
    for j := 0 to n
      invariant place == if j <= id then j else j - 1
      invariant FilledUpTo(buffers, arriving, id, j, k)
      invariant Row(buffers, id) == old(Row(buffers, id))
    {
      if j != id {
        assert Filled(Row(buffers, j), arriving, place, k);
        ghost var row := Row(buffers, j);
        NextFits(row, arriving, n, size, count, place, k);
        StoreChunk(buffers, j, Start(k, count), arriving[k][place]);
        NextFilled(row, Row(buffers, j), arriving, n, size, count, place, k);
        place := place + 1;
      }
    }
  }

  lemma NextFits(row: seq<nat>, arriving: seq<seq<seq<nat>>>, n: nat, size: nat, count: nat, r: nat, k: nat)
    requires count > 0 && ChunkSized(arriving, n, size, count) && r + 1 < n && k < |arriving|
    requires Filled(row, arriving, r, k)
    ensures r < |arriving[k]| && Start(k, count) + |arriving[k][r]| <= size
  {
    hide Start, Amount, Joined, EndOf;
    assert RoundSized(arriving[k], n, k, size, count);
    EndNext(k, size, count);
  }

  lemma NextFilled(row: seq<nat>, row': seq<nat>, arriving: seq<seq<seq<nat>>>, n: nat, size: nat, count: nat, r: nat,
                   k: nat)
    requires count > 0 && ChunkSized(arriving, n, size, count) && r + 1 < n && k < |arriving|
    requires Filled(row, arriving, r, k) && r < |arriving[k]|
    requires Start(k, count) + |arriving[k][r]| <= |row'| && Start(k, count) <= |row|
    requires row'[..Start(k, count) + |arriving[k][r]|] == row[..Start(k, count)] + arriving[k][r]
    ensures Filled(row', arriving, r, k + 1)
  {
    JoinedLength(arriving, n, size, count, r, k);
    EndNext(k, size, count);
    hide Start, Amount, EndOf, Rounds;
    assert RoundSized(arriving[k], n, k, size, count);
  }

  /** The first inner loop of a round: the sends, as operations. */
  method SendRound(data: seq<seq<nat>>, n: nat, size: nat, count: nat, id: nat, k: nat) returns (ops: seq<Op<seq<nat>>>)
    requires Sized(data, n, size) && count > 0 && id < n && n >= 2 && k < Rounds(size, count)
    ensures |ops| == n - 1 && forall r | 0 <= r < n - 1 :: ops[r] == RoundOp(data, n, size, count, id, k, r)
    ensures forall j: nat | j < n && j != id ::
              Place(id, j) < n - 1 && ops[Place(id, j)] == Send(j, k, Chunk(data[j], count, k))
  {
    hide Chunk;
    ops := [];
    for j := 0 to n
      invariant |ops| == if j <= id then j else j - 1
      invariant forall r | 0 <= r < |ops| :: ops[r] == RoundOp(data, n, size, count, id, k, r)
    {
      if j != id {
        ops := ops + [Send(j, k, Chunk(data[j], count, k))];
      }
    }
  }

  function Takes(n: nat, id: nat, k: nat): (ops: seq<Op<seq<nat>>>)
    requires n >= 2
  {
    seq(n - 1, r requires 0 <= r < n - 1 => Recv(Other(id, r), k))
  }

  /** The operations of rounds before `k`, in order. */
  lemma ProgramRound(data: seq<seq<nat>>, n: nat, size: nat, count: nat, id: nat, k: nat, sends: seq<Op<seq<nat>>>)
    requires Sized(data, n, size) && count > 0 && id < n && n >= 2 && k < Rounds(size, count)
    requires |sends| == n - 1 && forall r | 0 <= r < n - 1 :: sends[r] == RoundOp(data, n, size, count, id, k, r)
    ensures var w, ops := 2 * (n - 1), ExchangeProgram(data, n, size, count, id);
            && k * w <= (k + 1) * w <= |ops|
            && ops[..(k + 1) * w] == ops[..k * w] + sends + Takes(n, id, k)
  {
    hide ExchangeProgram, Rounds, Chunk;
    var w, ops := 2 * (n - 1), ExchangeProgram(data, n, size, count, id);
    ProductMonotone(w, k + 1, Rounds(size, count));
    assert (k + 1) * w == k * w + w;
    var row := sends + Takes(n, id, k);
    forall r | 0 <= r < w ensures ops[k * w + r] == row[r] {
      OpAt(data, n, size, count, id, k, r);
    }
    assert ops[k * w..k * w + w] == row;
    assert ops[..k * w + w] == ops[..k * w] + ops[k * w..k * w + w];
  }

  /** The part that the two exchanges share: `data[j]` goes to `j`, and row `j` of the buffers is
      filled with what arrives from `j`. */
  method RunRounds(data: seq<seq<nat>>, buffers: array2<nat>, size: nat, count: nat, id: nat,
                   rounds: int, arriving: seq<seq<seq<nat>>>) returns (ops: seq<Op<seq<nat>>>)
    requires buffers.Length0 >= 2 && buffers.Length1 == size && id < buffers.Length0
    requires count > 0 && rounds == LastChunk(size, count)
    requires Sized(data, buffers.Length0, size) && ChunkSized(arriving, buffers.Length0, size, count)
    modifies buffers
    ensures ops == ExchangeProgram(data, buffers.Length0, size, count, id)
    ensures FilledUpTo(buffers, arriving, id, 0, |arriving|)
  {
    hide ExchangeProgram, Filled, RoundOp, Chunk, Row, Joined;
    var n := buffers.Length0;
    ops := [];
    ghost var program := ExchangeProgram(data, n, size, count, id);
    NothingFilled(buffers, arriving, id);
    for k := 0 to rounds + 1
      invariant k * (2 * (n - 1)) <= |program|
      invariant ops == program[..k * (2 * (n - 1))]
      invariant FilledUpTo(buffers, arriving, id, 0, k)
    {
      var sends := SendRound(data, n, size, count, id, k);
      ProgramRound(data, n, size, count, id, k, sends);
      ops := ops + sends + Takes(n, id, k);
      TakeRound(buffers, arriving, n, size, count, id, k);
    }
    assert program[..|program|] == program;
  }

  lemma NothingFilled(buffers: array2<nat>, arriving: seq<seq<seq<nat>>>, id: nat)
    ensures FilledUpTo(buffers, arriving, id, 0, 0)
  {
    hide Row;
  }

  /** Row `j` of the buffers of party `id` after the exchange. */
  function Result(arriving: seq<seq<seq<nat>>>, n: nat, size: nat, count: nat, own: seq<nat>, id: nat, j: nat): seq<nat>
    requires count > 0 && ChunkSized(arriving, n, size, count) && id < n && j < n && n >= 2
  {
    if j == id then own else Joined(arriving, Place(id, j), |arriving|)
  }

  lemma FilledIsResult(buffers: array2<nat>, arriving: seq<seq<seq<nat>>>, size: nat, count: nat, own: seq<nat>,
                       id: nat, j: nat)
    requires buffers.Length0 >= 2 && buffers.Length1 == size && count > 0 && id < buffers.Length0
    requires ChunkSized(arriving, buffers.Length0, size, count) && FilledUpTo(buffers, arriving, id, 0, |arriving|)
    requires j < buffers.Length0 && j != id
    ensures Row(buffers, j) == Result(arriving, buffers.Length0, size, count, own, id, j)
  {
    hide Row, Joined, RoundSized;
    assert Filled(Row(buffers, j), arriving, Place(id, j), |arriving|);
    JoinedLength(arriving, buffers.Length0, size, count, Place(id, j), |arriving|);
    NoEnd(size, count);
  }

  lemma {:induction false} JoinedAt(arriving: seq<seq<seq<nat>>>, n: nat, size: nat, count: nat, r: nat, m: nat,
                                    k: nat, l: nat)
    requires count > 0 && ChunkSized(arriving, n, size, count) && r + 1 < n
    requires k < m <= |arriving| && r < |arriving[k]| && l < |arriving[k][r]|
    ensures forall i | 0 <= i < |arriving| :: r < |arriving[i]|
    ensures k * count + l < |Joined(arriving, r, m)| && Joined(arriving, r, m)[k * count + l] == arriving[k][r][l]
    decreases m
  {
    ArrivingShape(arriving, n, size, count);
    JoinedLength(arriving, n, size, count, r, m - 1);
    hide ChunkSized, Rounds, EndOf;
    if k < m - 1 {
      JoinedAt(arriving, n, size, count, r, m - 1, k, l);
    } else {
      EndsAt(k, size, count, |arriving|);
    }
  }

  lemma ArrivingShape(arriving: seq<seq<seq<nat>>>, n: nat, size: nat, count: nat)
    requires count > 0 && ChunkSized(arriving, n, size, count)
    ensures |arriving| == Rounds(size, count) && forall i | 0 <= i < |arriving| :: |arriving[i]| + 1 == n
  {
    hide Rounds, Amount, Start;
    forall i | 0 <= i < |arriving| ensures |arriving[i]| + 1 == n {
      assert RoundSized(arriving[i], n, i, size, count);
    }
  }

  lemma EndsAt(k: nat, size: nat, count: nat, rounds: nat)
    requires count > 0 && k < rounds == Rounds(size, count)
    ensures EndOf(k, size, count) == k * count
  {
  }

  /** Value `l` of chunk `k` from `j` is in cell `k * count + l` of row `j`, and the own data fill row
      `id`. */
  lemma ResultCells(buffers: array2<nat>, arriving: seq<seq<seq<nat>>>, size: nat, count: nat, own: seq<nat>, id: nat)
    requires buffers.Length0 >= 2 && buffers.Length1 == size == |own| && count > 0 && id < buffers.Length0
    requires ChunkSized(arriving, buffers.Length0, size, count)
    requires forall j: nat | j < buffers.Length0 ::
               Row(buffers, j) == Result(arriving, buffers.Length0, size, count, own, id, j)
    ensures forall i | 0 <= i < size :: buffers[id, i] == own[i]
    ensures forall j: nat, k: nat, l: nat | j < buffers.Length0 && j != id && k < |arriving|
              && Place(id, j) < |arriving[k]| && l < |arriving[k][Place(id, j)]| ::
              k * count + l < size && buffers[j, k * count + l] == arriving[k][Place(id, j)][l]
  {
    hide ChunkSized, Joined;
    var ownRow := Row(buffers, id);
    assert ownRow == own;
    forall i | 0 <= i < size ensures buffers[id, i] == own[i] {
      assert ownRow[i] == buffers[id, i];
    }
    forall j: nat, k: nat, l: nat | j < buffers.Length0 && j != id && k < |arriving|
      && Place(id, j) < |arriving[k]| && l < |arriving[k][Place(id, j)]|
      ensures k * count + l < size && buffers[j, k * count + l] == arriving[k][Place(id, j)][l]
    {
      JoinedAt(arriving, buffers.Length0, size, count, Place(id, j), |arriving|, k, l);
      var row := Row(buffers, j);
      assert row == Joined(arriving, Place(id, j), |arriving|);
      assert row[k * count + l] == buffers[j, k * count + l];
    }
  }

  /** The copy of a party's own data at the end of either exchange. */
  method KeepOwn(buffers: array2<nat>, own: seq<nat>, id: nat)
    requires id < buffers.Length0 && |own| == buffers.Length1
    modifies buffers
    ensures forall i | 0 <= i < |own| :: buffers[id, i] == own[i]
    ensures forall j, i | 0 <= j < buffers.Length0 && 0 <= i < |own| && j != id :: buffers[j, i] == old(buffers[j, i])
    ensures Row(buffers, id) == own
    ensures forall j: nat | j < buffers.Length0 && j != id :: Row(buffers, j) == old(Row(buffers, j))
  {
    for i := 0 to |own|
      invariant forall l | 0 <= l < i :: buffers[id, l] == own[l]
      invariant forall j: nat, l | j < buffers.Length0 && 0 <= l < buffers.Length1 && j != id ::
                  buffers[j, l] == old(buffers[j, l])
    {
      buffers[id, i] := own[i];
    }
  }

  /** `multicastToPeers` of party `id`; `arriving` is what its receives return. */
  method MulticastToPeers(data: seq<seq<nat>>, buffers: array2<nat>, size: nat, unit_size: nat, id: nat,
                          ghost count: nat, arriving: seq<seq<seq<nat>>>) returns (ops: seq<Op<seq<nat>>>)
    requires buffers.Length0 >= 2 && buffers.Length1 == size && id < buffers.Length0
    requires unit_size > 0 && ChunkCount(buffers.Length0 - 1, unit_size) == count > 0
    requires Sized(data, buffers.Length0, size) && ChunkSized(arriving, buffers.Length0, size, count)
    modifies buffers
    ensures ops == ExchangeProgram(data, buffers.Length0, size, count, id)
    ensures forall j: nat | j < buffers.Length0 ::
              Row(buffers, j) == Result(arriving, buffers.Length0, size, count, data[id], id, j)
    ensures forall i | 0 <= i < size :: buffers[id, i] == data[id][i]
    ensures forall j: nat, k: nat, l: nat | j < buffers.Length0 && j != id && k < |arriving|
              && Place(id, j) < |arriving[k]| && l < |arriving[k][Place(id, j)]| ::
              k * count + l < size && buffers[j, k * count + l] == arriving[k][Place(id, j)][l]
  {
    hide ExchangeProgram, Row, FilledUpTo, Result, ChunkSized;
    var chunk, rounds := GetRounds(size, buffers.Length0 - 1, unit_size);
    ops := RunRounds(data, buffers, size, chunk, id, rounds, arriving);
    Finish(buffers, size, count, data[id], id, arriving);
    ResultCells(buffers, arriving, size, count, data[id], id);
  }

  method Finish(buffers: array2<nat>, size: nat, ghost count: nat, own: seq<nat>, id: nat,
                ghost arriving: seq<seq<seq<nat>>>)
    requires buffers.Length0 >= 2 && buffers.Length1 == size == |own| && count > 0 && id < buffers.Length0
    requires ChunkSized(arriving, buffers.Length0, size, count) && FilledUpTo(buffers, arriving, id, 0, |arriving|)
    modifies buffers
    ensures forall j: nat | j < buffers.Length0 ::
              Row(buffers, j) == Result(arriving, buffers.Length0, size, count, own, id, j)
  {
    hide Row, FilledUpTo, Joined, ChunkSized;
    forall j: nat | j < buffers.Length0 && j != id
      ensures Row(buffers, j) == Result(arriving, buffers.Length0, size, count, own, id, j)
    {
      FilledIsResult(buffers, arriving, size, count, own, id, j);
    }
    KeepOwn(buffers, own, id);
  }

  /** `broadcastToPeers` of party `id`. */
  method BroadcastToPeers(data: seq<nat>, buffers: array2<nat>, size: nat, unit_size: nat, id: nat,
                          ghost count: nat, arriving: seq<seq<seq<nat>>>) returns (ops: seq<Op<seq<nat>>>)
    requires buffers.Length0 >= 2 && buffers.Length1 == size == |data| && id < buffers.Length0
    requires unit_size > 0 && ChunkCount(buffers.Length0 - 1, unit_size) == count > 0
    requires ChunkSized(arriving, buffers.Length0, size, count)
    modifies buffers
    ensures ops == ExchangeProgram(seq(buffers.Length0, j => data), buffers.Length0, size, count, id)
    ensures forall j: nat | j < buffers.Length0 ::
              Row(buffers, j) == Result(arriving, buffers.Length0, size, count, data, id, j)
    ensures forall i | 0 <= i < size :: buffers[id, i] == data[i]
    ensures forall j: nat, k: nat, l: nat | j < buffers.Length0 && j != id && k < |arriving|
              && Place(id, j) < |arriving[k]| && l < |arriving[k][Place(id, j)]| ::
              k * count + l < size && buffers[j, k * count + l] == arriving[k][Place(id, j)][l]
  {
    hide ExchangeProgram, Row, FilledUpTo, Result, ChunkSized;
    var chunk, rounds := GetRounds(size, buffers.Length0 - 1, unit_size);
    ops := RunRounds(seq(buffers.Length0, j => data), buffers, size, chunk, id, rounds, arriving);
    Finish(buffers, size, count, data, id, arriving);
    ResultCells(buffers, arriving, size, count, data, id);
  }

  // ----- the exchange as a whole

  /** The messages that party `p` has taken when it is through, by round and place. */
  function Arrived(x: Exchange, s: State<seq<nat>>, p: nat): (r: seq<seq<seq<nat>>>)
    requires Valid(x) && p < x.n && p < |s.log| && |s.log[p]| == |ExchangeSystem(x)[p]|
  {
    seq(Rounds(x.size, x.count), k requires 0 <= k < Rounds(x.size, x.count) => ArrivedIn(x, s, p, k))
  }

  function ArrivedIn(x: Exchange, s: State<seq<nat>>, p: nat, k: nat): (r: seq<seq<nat>>)
    requires Valid(x) && p < x.n && p < |s.log| && |s.log[p]| == |ExchangeSystem(x)[p]| && k < Rounds(x.size, x.count)
    ensures |r| == x.n - 1
  {
    seq(x.n - 1, r requires 0 <= r < x.n - 1 =>
      PartsOf(k, 2 * (x.n - 1), x.n - 1 + r, Rounds(x.size, x.count));
      s.log[p][k * (2 * (x.n - 1)) + (x.n - 1 + r)])
  }

  lemma ArrivedChunk(x: Exchange, s: State<seq<nat>>, p: nat, q: nat, k: nat)
    requires Valid(x) && Inv(ExchangeSystem(x), s) && p < x.n && q < x.n && p != q
    requires |s.log[p]| == |ExchangeSystem(x)[p]| && k < Rounds(x.size, x.count)
    ensures ArrivedIn(x, s, p, k)[Place(p, q)] == Chunk(x.data[q][p], x.count, k)
  {
    hide Chunk, Rounds, Sized, LogsRight, ChannelsExact;
    PartsOf(k, 2 * (x.n - 1), x.n - 1 + Place(p, q), Rounds(x.size, x.count));
    InvDelivers(x, s);
    assert ChunkDelivered(x, s, p, q, k);
  }

  lemma ArrivedSized(x: Exchange, s: State<seq<nat>>, p: nat)
    requires Valid(x) && Inv(ExchangeSystem(x), s) && p < x.n && |s.log[p]| == |ExchangeSystem(x)[p]|
    ensures ChunkSized(Arrived(x, s, p), x.n, x.size, x.count)
  {
    hide LogsRight, ChannelsExact, ArrivedIn, Amount, Start;
    forall k: nat, r: nat | k < Rounds(x.size, x.count) && r < x.n - 1
      ensures |ArrivedIn(x, s, p, k)[r]| == Amount(Start(k, x.count), x.count, x.size)
    {
      ArrivedChunk(x, s, p, Other(p, r), k);
      EndNext(k, x.size, x.count);
    }
  }

  /** A party that is through has, for every peer, the whole of what the peer had for it. */
  lemma WholeDataArrived(x: Exchange, s: State<seq<nat>>, p: nat, q: nat)
    requires Valid(x) && Inv(ExchangeSystem(x), s) && p < x.n && q < x.n
    requires |s.log[p]| == |ExchangeSystem(x)[p]|
    ensures ChunkSized(Arrived(x, s, p), x.n, x.size, x.count)
    ensures Result(Arrived(x, s, p), x.n, x.size, x.count, x.data[p][p], p, q) == x.data[q][p]
  {
    hide LogsRight, ChannelsExact, ArrivedIn, Chunk, ExchangeSystem, ChunkSized;
    ArrivedSized(x, s, p);
    if p != q {
      var arriving := Arrived(x, s, p);
      forall k: nat | k < |arriving|
        ensures Place(p, q) < |arriving[k]| && arriving[k][Place(p, q)] == Chunk(x.data[q][p], x.count, k)
      {
        ArrivedChunk(x, s, p, q, k);
      }
      JoinedChunks(arriving, Place(p, q), x.data[q][p], x.count, |arriving|);
      NoEnd(x.size, x.count);
    }
  }

  ghost predicate Exchanged(x: Exchange, s: State<seq<nat>>, p: nat)
    requires Valid(x) && p < x.n && Shaped(ExchangeSystem(x), s)
  {
    |s.log[p]| == |ExchangeSystem(x)[p]| ==>
      && ChunkSized(Arrived(x, s, p), x.n, x.size, x.count)
      && forall q: nat | q < x.n :: Result(Arrived(x, s, p), x.n, x.size, x.count, x.data[p][p], p, q) == x.data[q][p]
  }

  lemma DataExchanged(x: Exchange, s: State<seq<nat>>, p: nat)
    requires Valid(x) && Inv(ExchangeSystem(x), s) && p < x.n
    ensures Exchanged(x, s, p)
  {
    hide ExchangeSystem, LogsRight, ChannelsExact, Arrived, Result, ChunkSized;
    if |s.log[p]| == |ExchangeSystem(x)[p]| {
      WholeDataArrived(x, s, p, p);
      forall q: nat | q < x.n
        ensures Result(Arrived(x, s, p), x.n, x.size, x.count, x.data[p][p], p, q) == x.data[q][p]
      {
        WholeDataArrived(x, s, p, q);
      }
    }
  }

  /** Every interleaving of the exchange ends with all parties through and never gets stuck before;
      a party that is through holds the data of every peer; no channel ever holds three chunks. */
  lemma AllToAllCorrect(x: Exchange, s: State<seq<nat>>, steps: nat)
    requires Valid(x) && Reachable(ExchangeSystem(x), s, steps)
    ensures Outcome(ExchangeSystem(x), s, steps)
    ensures forall p: nat | p < x.n :: Exchanged(x, s, p)
    ensures forall p: nat, q: nat | p < x.n && q < x.n && p != q :: |Chan(s, p, q)| <= 2
  {
    hide Sized, ExchangeSystem, Reachable, Matched, LogsRight, ChannelsExact, Finished, Stuck, Arrived, Result, Chan;
    ExchangeMatched(x);
    EveryRunCompletes(ExchangeSystem(x), s, steps);
    forall p: nat | p < x.n ensures Exchanged(x, s, p) {
      DataExchanged(x, s, p);
    }
    forall p: nat, q: nat | p < x.n && q < x.n && p != q ensures |Chan(s, p, q)| <= 2 {
      TwoChunksAtMost(x, s, p, q);
    }
  }

  /** For a broadcast, what every party ends with is what each peer broadcast. */
  lemma BroadcastCorrect(n: nat, size: nat, count: nat, own: seq<seq<nat>>, s: State<seq<nat>>, steps: nat, p: nat,
                         q: nat)
    requires n >= 2 && count > 0 && Sized(own, n, size) && p < n && q < n
    requires Reachable(ExchangeSystem(Broadcast(n, size, count, own)), s, steps)
    requires |s.log| == n && |s.log[p]| == |ExchangeSystem(Broadcast(n, size, count, own))[p]|
    ensures ChunkSized(Arrived(Broadcast(n, size, count, own), s, p), n, size, count)
    ensures Result(Arrived(Broadcast(n, size, count, own), s, p), n, size, count, own[p], p, q) == own[q]
  {
    hide ExchangeSystem, Reachable, LogsRight, ChannelsExact, Finished, Stuck, Arrived, Result, ChunkSized;
    var x := Broadcast(n, size, count, own);
    AllToAllCorrect(x, s, steps);
    assert Exchanged(x, s, p);
    assert x.data[p][p] == own[p] && x.data[q][p] == own[q];
    assert Result(Arrived(x, s, p), x.n, x.size, x.count, x.data[p][p], p, q) == x.data[q][p];
  }
}
