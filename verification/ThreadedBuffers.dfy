/**
 What the buffers of a call hold when the call returns in the threaded phase: the chunks stored for
 the call, put one after the other into the buffer of a peer, are the whole of the peer's data.
 */
module ThreadedBuffers {
  import opened Chunks
  import opened AllToAll
  import opened ThreadLane
  import opened ThreadedManager

  type Values = seq<nat>

  /** A chunk written over part of a buffer. */
  function Put(buffer: Values, start: nat, body: Values): (r: Values)
    ensures |r| == |buffer|
    ensures start + |body| <= |buffer| ==>
              forall i | 0 <= i < |r| :: r[i] == if start <= i < start + |body| then body[i - start] else buffer[i]
  {
    if start + |body| <= |buffer| then buffer[..start] + body + buffer[start + |body|..] else buffer
  }

  /** The buffer of call `c` after the writes that concern it. */
  function Replay(written: seq<Write<Values>>, c: nat, buffer: Values): (r: Values)
    ensures |r| == |buffer|
  {
    if written == [] then buffer
    else
      var before := Replay(written[..|written| - 1], c, buffer);
      var w := written[|written| - 1];
      if w.call == c then Put(before, w.start, w.body) else before
  }

  /** Where the pieces of call `c` start in the plan. */
  function CallStart(sizes: seq<nat>, count: nat, c: nat): (i: nat)
    requires count > 0 && c <= |sizes|
  {
    |PlanOf(sizes[..c], count)|
  }

  lemma CallEnd(sizes: seq<nat>, count: nat, c: nat)
    requires count > 0 && c < |sizes|
    ensures CallStart(sizes, count, c + 1) == CallStart(sizes, count, c) + Rounds(sizes[c], count)
    ensures CallStart(sizes, count, c + 1) <= |PlanOf(sizes, count)|
    decreases |sizes|
  {
    assert sizes[..c + 1][..c] == sizes[..c];
    if c + 1 == |sizes| {
      assert sizes[..c + 1] == sizes;
    } else {
      var front := sizes[..|sizes| - 1];
      CallEnd(front, count, c);
      assert front[..c + 1] == sizes[..c + 1];
    }
  }

  /** Pieces before the call belong to earlier calls, pieces after it to later ones. */
  lemma CallsApart(sizes: seq<nat>, count: nat, c: nat, i: nat)
    requires count > 0 && (forall k | 0 <= k < |sizes| :: sizes[k] > 0) && c < |sizes| && i < |PlanOf(sizes, count)|
    ensures i < CallStart(sizes, count, c) ==> CallOf(PlanOf(sizes, count), i) < c
    ensures i >= CallStart(sizes, count, c + 1) ==> CallOf(PlanOf(sizes, count), i) > c
  {
    hide CallOf, Rounds, PlanOf;
    CallEnd(sizes, count, c);
    if i < CallStart(sizes, count, c) && c > 0 {
      SomeRounds(sizes[c - 1], count);
      CallEnd(sizes, count, c - 1);
      ChunkOfCall(sizes, count, c - 1, Rounds(sizes[c - 1], count) - 1);
      CallMonotone(PlanOf(sizes, count), i, CallStart(sizes, count, c) - 1);
    } else if i < CallStart(sizes, count, c) {
      NoPieces(sizes, count);
    }
    if i >= CallStart(sizes, count, c + 1) {
      CallsEnded(sizes, count, c + 1);
      CallMonotone(PlanOf(sizes, count), CallStart(sizes, count, c + 1), i);
    }
  }

  lemma NoPieces(sizes: seq<nat>, count: nat)
    requires count > 0
    ensures CallStart(sizes, count, 0) == 0
  {
  }

  /** When the pieces of `c` calls are through, `c` calls have ended. */
  lemma CallsEnded(sizes: seq<nat>, count: nat, c: nat)
    requires count > 0 && (forall k | 0 <= k < |sizes| :: sizes[k] > 0) && c <= |sizes|
    ensures CallStart(sizes, count, c) <= |PlanOf(sizes, count)|
    ensures CallOf(PlanOf(sizes, count), CallStart(sizes, count, c)) == c
    decreases |sizes|
  {
    hide CallOf, CallPieces;
    if c == |sizes| {
      assert sizes[..c] == sizes;
      PlanCalls(sizes, count);
    } else {
      var front := sizes[..|sizes| - 1];
      CallsEnded(front, count, c);
      assert front[..c] == sizes[..c];
      CallOfPrefix(PlanOf(front, count), CallPieces(sizes[|sizes| - 1], count), CallStart(sizes, count, c));
    }
  }

  /** Peer `j` has `data` for `p` in call `c`. */
  ghost predicate HasData(x: Setup<Values>, sizes: seq<nat>, count: nat, j: nat, p: nat, c: nat, data: Values)
    requires count > 0 && c < |sizes|
  {
    |data| == sizes[c] &&
    forall k: nat | k < Rounds(sizes[c], count) ::
      x.body(j, p, CallStart(sizes, count, c) + k) == Chunk(data, count, k)
  }

  /** The records of a peer's chunks are right as far as they go. */
  predicate Recorded(x: Setup<Values>, p: nat, j: nat, written: seq<Write<Values>>) {
    |written| <= |x.plan| && forall i | 0 <= i < |written| :: written[i] == WriteOf(x, p, j, i)
  }

  /** The first `k` chunks of the call fill the front of its buffer. */
  lemma {:induction false} Replayed(x: Setup<Values>, sizes: seq<nat>, count: nat, p: nat, j: nat, c: nat, data: Values,
                                    buffer: Values, written: seq<Write<Values>>, k: nat)
    requires count > 0 && (forall i | 0 <= i < |sizes| :: sizes[i] > 0) && c < |sizes| && x.plan == PlanOf(sizes, count)
    requires HasData(x, sizes, count, j, p, c, data) && |buffer| == |data| && Recorded(x, p, j, written)
    requires k <= Rounds(sizes[c], count) && |written| == CallStart(sizes, count, c) + k
    ensures EndOf(k, |data|, count) <= |data|
    ensures Replay(written, c, buffer)[..EndOf(k, |data|, count)] == data[..EndOf(k, |data|, count)]
    decreases k
  {
    hide CallOf, PlanOf, LastChunk, Chunk, EndOf, Start, Amount, CallStart;
    NoEnd(|data|, count);
    if k > 0 {
      var front := written[..|written| - 1];
      Replayed(x, sizes, count, p, j, c, data, buffer, front, k - 1);
      NextReplayed(x, sizes, count, p, j, c, data, written, k - 1);
      EndNext(k - 1, |data|, count);
      ChunkBounds(data, count, k - 1);
      PutBehind(Replay(front, c, buffer), data, Start(k - 1, count), Chunk(data, count, k - 1));
    }
  }

  lemma NextReplayed(x: Setup<Values>, sizes: seq<nat>, count: nat, p: nat, j: nat, c: nat, data: Values,
                     written: seq<Write<Values>>, k: nat)
    requires count > 0 && (forall i | 0 <= i < |sizes| :: sizes[i] > 0) && c < |sizes| && x.plan == PlanOf(sizes, count)
    requires HasData(x, sizes, count, j, p, c, data) && Recorded(x, p, j, written)
    requires k < Rounds(sizes[c], count) && |written| == CallStart(sizes, count, c) + k + 1
    ensures written[|written| - 1] == Write(c, Start(k, count), Chunk(data, count, k))
    ensures |Chunk(data, count, k)| == Amount(Start(k, count), count, |data|)
  {
    hide CallOf, PlanOf;
    ChunkOfCall(sizes, count, c, k);
    EndNext(k, |data|, count);
  }

  lemma PutBehind(before: Values, data: Values, start: nat, body: Values)
    requires |before| == |data| && start + |body| <= |data|
    requires before[..start] == data[..start] && data[..start + |body|] == data[..start] + body
    ensures Put(before, start, body)[..start + |body|] == data[..start + |body|]
  {
  }

  /** Writes of other calls leave the buffer alone. */
  lemma {:induction false} LaterWrites(x: Setup<Values>, sizes: seq<nat>, count: nat, p: nat, j: nat, c: nat,
                                       buffer: Values, written: seq<Write<Values>>, n: nat)
    requires count > 0 && (forall i | 0 <= i < |sizes| :: sizes[i] > 0) && c < |sizes| && x.plan == PlanOf(sizes, count)
    requires Recorded(x, p, j, written) && CallStart(sizes, count, c + 1) <= n <= |written|
    ensures Replay(written, c, buffer) == Replay(written[..n], c, buffer)
    decreases |written|
  {
    hide CallOf, PlanOf, CallStart, Put;
    if n == |written| {
      assert written[..n] == written;
    } else {
      var front := written[..|written| - 1];
      LaterWrites(x, sizes, count, p, j, c, buffer, front, n);
      assert front[..n] == written[..n];
      CallsApart(sizes, count, c, |written| - 1);
    }
  }

  /** Once all chunks of the call are stored, the buffer holds the data, whatever came after. */
  lemma BufferComplete(x: Setup<Values>, sizes: seq<nat>, count: nat, p: nat, j: nat, c: nat, data: Values,
                       buffer: Values, written: seq<Write<Values>>)
    requires count > 0 && (forall i | 0 <= i < |sizes| :: sizes[i] > 0) && c < |sizes| && x.plan == PlanOf(sizes, count)
    requires HasData(x, sizes, count, j, p, c, data) && |buffer| == |data| && Recorded(x, p, j, written)
    requires CallStart(sizes, count, c + 1) <= |written|
    ensures Replay(written, c, buffer) == data
  {
    hide CallOf, PlanOf, Rounds, Chunk, EndOf, CallStart, Replay;
    CallEnd(sizes, count, c);
    var n := CallStart(sizes, count, c + 1);
    LaterWrites(x, sizes, count, p, j, c, buffer, written, n);
    Replayed(x, sizes, count, p, j, c, data, buffer, written[..n], Rounds(sizes[c], count));
    NoEnd(|data|, count);
    var r := Replay(written[..n], c, buffer);
    assert r[..|data|] == r && data[..|data|] == data;
  }

  // ----- one store

  /** What the receiver writes of a piece. */
  function WriteAmount(x: Piece): int {
    if Last(x) then x.size - x.start else x.amount
  }

  /** Calls of these sizes; each chunk has as many values as its header says. */
  ghost predicate SizedCalls(x: Setup<Values>, sizes: seq<nat>, count: nat) {
    && count > 0 && (forall c | 0 <= c < |sizes| :: sizes[c] > 0) && x.plan == PlanOf(sizes, count)
    && forall j: nat, p: nat, i: nat | i < |x.plan| :: |x.body(j, p, i)| == WriteAmount(x.plan[i])
  }

  /** What is written of a piece is as long as the chunk that is sent for it. */
  lemma PieceWritten(data: Values, count: nat, k: nat)
    requires count > 0 && k < Rounds(|data|, count)
    ensures WriteAmount(CallPieces(|data|, count)[k]) == |Chunk(data, count, k)|
  {
    LastOnlyAtEnd(|data|, count, k);
    ChunksCover(|data|, count);
    hide LastChunk;
  }

  /** A piece lies within the data of its call. */
  lemma {:induction false} PieceInCall(sizes: seq<nat>, count: nat, i: nat)
    requires count > 0 && (forall c | 0 <= c < |sizes| :: sizes[c] > 0) && i < |PlanOf(sizes, count)|
    ensures var plan := PlanOf(sizes, count);
            && CallOf(plan, i) < |sizes| && plan[i].size == sizes[CallOf(plan, i)]
            && 0 < WriteAmount(plan[i]) && plan[i].start + WriteAmount(plan[i]) <= plan[i].size
    decreases |sizes|
  {
    hide CallOf, CallPieces;
    var front := sizes[..|sizes| - 1];
    if i < |PlanOf(front, count)| {
      PieceInCall(front, count, i);
      CallOfPrefix(PlanOf(front, count), CallPieces(sizes[|sizes| - 1], count), i);
    } else {
      var k := i - |PlanOf(front, count)|;
      ChunkOfCall(sizes, count, |front|, k);
      assert sizes[..|front|] == front;
      EndNext(k, sizes[|front|], count);
    }
  }

  /** As many calls have ended as have all their pieces behind them. */
  lemma CallsThrough(sizes: seq<nat>, count: nat, c: nat, i: nat)
    requires count > 0 && (forall k | 0 <= k < |sizes| :: sizes[k] > 0) && c <= |sizes| && i <= |PlanOf(sizes, count)|
    requires CallOf(PlanOf(sizes, count), i) >= c
    ensures i >= CallStart(sizes, count, c)
  {
    hide CallOf, PlanOf, CallStart, Rounds;
    if c == 0 {
      NoPieces(sizes, count);
    } else if i < CallStart(sizes, count, c) {
      SomeRounds(sizes[c - 1], count);
      CallEnd(sizes, count, c - 1);
      LastOfCall(sizes, count, c - 1);
      CallMonotone(PlanOf(sizes, count), i, CallStart(sizes, count, c) - 1);
    }
  }

  lemma LastOfCall(sizes: seq<nat>, count: nat, c: nat)
    requires count > 0 && (forall k | 0 <= k < |sizes| :: sizes[k] > 0) && c < |sizes|
    ensures 0 < CallStart(sizes, count, c + 1) <= |PlanOf(sizes, count)|
    ensures CallOf(PlanOf(sizes, count), CallStart(sizes, count, c + 1) - 1) == c
  {
    hide CallOf, PlanOf, Rounds;
    SomeRounds(sizes[c], count);
    CallEnd(sizes, count, c);
    ChunkOfCall(sizes, count, c, Rounds(sizes[c], count) - 1);
  }

  /** The next chunk of a peer whose buffer is open: its place is inside the buffers of the running call. */
  lemma StoredFits(x: Setup<Values>, sizes: seq<nat>, count: nat, p: nat, s: Party<Values>, j: nat, m: Message<Values>)
    requires PartyRight(x, p, s) && SizedCalls(x, sizes, count) && j < x.n && j != p && s.comm[j]
    requires |s.written[j]| < |x.plan| && m == MessageOf(x, j, p, |s.written[j]|)
    ensures s.inCall && s.handler < |sizes|
    ensures |m.body| == WriteAmount(m.info) && m.info.start + |m.body| <= sizes[s.handler]
  {
    hide StageRight, CallOf, PlanOf;
    CallsWithin(x, p, s, j);
    RoundsBounds(x, p, s, j);
    assert PeerRight(x, p, s, j);
    CallMonotone(x.plan, s.next, |s.written[j]|);
    PieceInCall(sizes, count, |s.written[j]|);
  }

  /** The buffers that a call begins with are as the caller left them. */
  lemma {:induction false} NothingReplayed(written: seq<Write<Values>>, c: nat, buffer: Values)
    requires forall i | 0 <= i < |written| :: written[i].call < c
    ensures Replay(written, c, buffer) == buffer
  {
    if written != [] {
      NothingReplayed(written[..|written| - 1], c, buffer);
    }
  }

  lemma ReplayNext(written: seq<Write<Values>>, c: nat, buffer: Values, start: nat, body: Values)
    ensures Replay(written + [Write(c, start, body)], c, buffer) == Put(Replay(written, c, buffer), start, body)
  {
    assert (written + [Write(c, start, body)])[..|written|] == written;
  }

  /** A worker that has returned from its call has stored all of it. */
  lemma ReturnedReplay(x: Setup<Values>, sizes: seq<nat>, count: nat, p: nat, s: Party<Values>, j: nat, data: Values,
                       buffer: Values)
    requires PartyRight(x, p, s) && SizedCalls(x, sizes, count) && j < x.n && j != p
    requires !s.inCall && s.calls > 0 && s.handler < |sizes|
    requires HasData(x, sizes, count, j, p, s.handler, data) && |buffer| == |data|
    ensures Replay(s.written[j], s.handler, buffer) == data
  {
    hide StageRight, CallOf, PlanOf, CallStart, Replay, HasData;
    RoundsBounds(x, p, s, j);
    assert PeerRight(x, p, s, j);
    CallsThrough(sizes, count, s.calls, s.next);
    BufferComplete(x, sizes, count, p, j, s.handler, data, buffer, s.written[j]);
  }

  /** In every run, when a worker has returned from a call, its buffer for each peer holds the whole
      of the data that the peer passed to the same call. */
  lemma ReturnedCallComplete(n: nat, xs: seq<Setup<Values>>, net: Net<Values>, steps: nat, t: nat, p: nat, j: nat,
                             sizes: seq<nat>, count: nat, c: nat, data: Values, buffer: Values)
    requires ValidSetups(n, xs) && Reachable(n, xs, net, steps) && t < |xs| && p < n && j < n && j != p
    requires count > 0 && (forall i | 0 <= i < |sizes| :: sizes[i] > 0) && c < |sizes|
    requires xs[t].plan == PlanOf(sizes, count)
    requires HasData(xs[t], sizes, count, j, p, c, data) && |buffer| == |data|
    ensures Shaped(n, xs, net)
    ensures net.threads[t][p].next >= CallStart(sizes, count, c + 1) ==>
              Replay(net.threads[t][p].written[j], c, buffer) == data
  {
    hide Reachable, ChannelsRight, ManagersRight, TagsRight, StageRight, WorkerRight, CallOf, PlanOf, CallStart;
    hide Replay, HasData;
    ReachableRight(n, xs, net, steps);
    var s := net.threads[t][p];
    assert PartyRight(xs[t], p, s);
    RoundsBounds(xs[t], p, s, j);
    assert PeerRight(xs[t], p, s, j);
    if s.next >= CallStart(sizes, count, c + 1) {
      BufferComplete(xs[t], sizes, count, p, j, c, data, buffer, s.written[j]);
    }
  }
}
