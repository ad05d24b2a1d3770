/**
 The code of one party for one thread number, between the waits for condition variables. Each method
 says that its waiting is over in a precondition; what happens while it waits is the subject of
 modules ThreadLane and ThreadedManager, whose steps these methods carry out.
 */
module ManagerThread {
  import opened AllToAll
  import opened ThreadLane
  import opened ThreadedManager
  import opened ThreadedBuffers

  /** The fields are the entries of one thread in the tables that all threads share. The ghost fields
      number the calls, record the chunks stored, and keep what the buffers of the running call held
      when it began. */
  class Node {
    const id: nat
    const n: nat
    var next: nat
    var sent: nat
    var inCall: bool
    var buffer_handlers: seq<array<nat>>
    var comm_flags: seq<bool>
    var unit_flags: bool
    var finished_socks: seq<bool>
    var temp_buffers: seq<Option<Message<Values>>>
    var read_socks: nat
    var stage: Stage
    ghost var calls: nat
    ghost var handler: nat
    ghost var stored: seq<seq<Write<Values>>>
    ghost var initial: seq<Values>

    ghost function State(): Party<Values>
      reads this
    {
      Party(next, sent, inCall, calls, handler, comm_flags, unit_flags, finished_socks, temp_buffers,
            read_socks, stage, stored)
    }

    ghost predicate Valid()
      reads this
    {
      Shape(n, State()) && id < n && n >= 2
    }

    /** The party is right in its protocol, in which every call has the sizes given, and during a call
        its buffers are right too. */
    ghost predicate Right(x: Setup<Values>, sizes: seq<nat>, count: nat)
      reads this, buffer_handlers
    {
      && Valid() && x.n == n && SizedCalls(x, sizes, count) && PartyRight(x, id, State())
      && (inCall ==> Hold(buffer_handlers, n, id, sizes, handler, stored, initial))
    }

    constructor (id: nat, ghost x: Setup<Values>, ghost sizes: seq<nat>, ghost count: nat, n: nat)
      requires id < n && n == x.n && ValidSetup(x) && SizedCalls(x, sizes, count)
      ensures this.id == id && this.n == n && Right(x, sizes, count) && State() == Fresh(n)
    {
      this.id := id;
      this.n := n;
      next, sent, inCall, calls := 0, 0, false, 0;
      buffer_handlers, handler, initial := [], 0, [];
      comm_flags, unit_flags := seq(n, j => false), false;
      finished_socks, temp_buffers := seq(n, j => false), seq(n, j => None);
      read_socks, stage, stored := 0, Idle, seq(n, j => []);
      new;
      FreshRight(x, id);
    }

    /** The start of a call: the handlers are set to the caller's buffers, then all are initial. */
    method OpenBuffers(ghost x: Setup<Values>, ghost sizes: seq<nat>, ghost count: nat, buffers: seq<array<nat>>)
      requires Right(x, sizes, count) && !inCall && next < |x.plan|
      requires |buffers| == n && Apart(buffers) && forall j | 0 <= j < n :: buffers[j].Length >= x.plan[next].size
      modifies this
      ensures Right(x, sizes, count) && State() == Started(n, old(State())) && buffer_handlers == buffers
    {
      hide PartyRight, SizedCalls, Replay;
      StartedRight(x, id, State());
      CallStarts(x, sizes, count, id, State());
      NewCall(x, id, State());
      HoldAtStart(buffers, n, id, sizes, calls, stored);
      hide Hold;
      SetHandlers(buffers);
      handler, calls, initial := calls, calls + 1, Contents(buffers, x.plan[next].size);
      inCall := true;
      OpenFlags();
    }

    method SetHandlers(buffers: seq<array<nat>>)
      requires |buffers| == n
      modifies this`buffer_handlers
      ensures buffer_handlers == buffers
    {
      buffer_handlers := [];
      for i := 0 to n
        invariant buffer_handlers == buffers[..i]
      {
        buffer_handlers := buffer_handlers + [buffers[i]];
      }
    }

    method OpenFlags()
      requires |comm_flags| == n
      modifies this`comm_flags
      ensures comm_flags == seq(n, j => true)
    {
      for i := 0 to n
        invariant |comm_flags| == n && forall j | 0 <= j < i :: comm_flags[j]
      {
        comm_flags := comm_flags[i := true];
      }
    }

    /** One turn of the sending loop: the peer that is served and what it is sent. */
    method SendChunk(x: Setup<Values>, ghost sizes: seq<nat>, ghost count: nat) returns (to: nat, m: Message<Values>)
      requires Right(x, sizes, count) && inCall && sent + 1 < n
      modifies this
      ensures Right(x, sizes, count) && State() == SentOne(old(State()))
      ensures to == Other(id, old(sent)) && next < |x.plan| && m == MessageOf(x, id, to, next)
    {
      SentRight(x, id, State());
      hide PartyRight, SizedCalls, Replay;
      to := if sent < id then sent else sent + 1;
      m := MessageOf(x, id, to, next);
      sent := sent + 1;
    }

    /** The worker goes on when the flag has been raised. When it returns from the call, every buffer
        holds the data of its peer. */
    method PassFlag(x: Setup<Values>, ghost sizes: seq<nat>, ghost count: nat)
      requires Right(x, sizes, count) && inCall && sent + 1 == n && unit_flags
      modifies this
      ensures Right(x, sizes, count) && old(next) < |x.plan| && State() == Passed(x, old(State()))
      ensures buffer_handlers == old(buffer_handlers)
      ensures !inCall ==> handler < |sizes| && |buffer_handlers| == n
      ensures !inCall ==> forall j: nat | j < n :: buffer_handlers[j].Length >= sizes[handler]
      ensures !inCall ==> forall j: nat, data: Values | j < n && j != id ::
                HasData(x, sizes, count, j, id, handler, data) ==> buffer_handlers[j][..sizes[handler]] == data
    {
      PassedRight(x, id, State());
      hide PartyRight, SizedCalls, Replay;
      unit_flags := false;
      if x.plan[next].start + x.plan[next].amount >= x.plan[next].size {
        inCall := false;
      } else {
        inCall := true;
      }
      next := next + 1;
      sent := 0;
      if !inCall {
        forall j: nat, data: Values | j < n && j != id && HasData(x, sizes, count, j, id, handler, data)
          ensures buffer_handlers[j][..sizes[handler]] == data
        {
          ReturnedReplay(x, sizes, count, id, State(), j, data, initial[j]);
        }
      }
    }

    /** The manager has read a thread number from the peer: a chunk for a round that the peer has
        already served goes to the slot, any other to its buffer. */
    method ReadThread(peer: nat, ghost x: Setup<Values>, ghost sizes: seq<nat>, ghost count: nat) returns (ahead: bool)
      requires Right(x, sizes, count) && stage.Idle? && peer < n && peer != id
      modifies this
      ensures Right(x, sizes, count) && ahead == old(finished_socks[peer])
      ensures State() == if ahead then old(State()) else old(State()).(stage := Reading(peer))
    {
      ahead := finished_socks[peer];
      if !ahead {
        BegunRight(x, id, State(), peer);
        stage := Reading(peer);
      }
    }

    /** `getDataFromPeerToBuffer`, for a chunk that comes before its round. */
    method GetDataFromPeerToBuffer(peer: nat, m: Message<Values>,
                                   ghost x: Setup<Values>, ghost sizes: seq<nat>, ghost count: nat)
      requires Right(x, sizes, count) && stage.Idle? && peer < n && peer != id
      requires finished_socks[peer] && temp_buffers[peer].None?
      requires |stored[peer]| < |x.plan| && m == MessageOf(x, peer, id, |stored[peer]|)
      modifies this
      ensures Right(x, sizes, count) && State() == TookAhead(old(State()), peer, m)
    {
      TookAheadRight(x, id, State(), peer, m);
      hide PartyRight, SizedCalls, Replay;
      temp_buffers := temp_buffers[peer := Some(m)];
    }

    /** The common part of the two ways to store a chunk, after it has been written to its buffer. */
    method CountChunk(peer: nat, m: Message<Values>)
      requires Valid() && peer < n
      modifies this
      ensures Valid() && State() == StoredIn(old(State()), peer, m)
      ensures buffer_handlers == old(buffer_handlers) && initial == old(initial)
      ensures stored == Extended(old(stored), peer, handler, m) && handler == old(handler) && inCall == old(inCall)
    {
      stored := stored[peer := stored[peer] + [Write(handler, m.info.start, m.body)]];
      if m.info.start + m.info.amount >= m.info.size {
        comm_flags := comm_flags[peer := false];
      }
      read_socks := read_socks + 1;
    }

    /** `getDataFromPeer` once the buffer of the peer is open, up to the wait for the flag, and the
        rest of the turn when there is no such wait. */
    method GetDataFromPeer(peer: nat, m: Message<Values>, ghost x: Setup<Values>, ghost sizes: seq<nat>,
                           ghost count: nat)
      requires Right(x, sizes, count) && stage == Reading(peer) && peer < n && peer != id && comm_flags[peer]
      requires |stored[peer]| < |x.plan| && m == MessageOf(x, peer, id, |stored[peer]|)
      modifies this, buffer_handlers
      ensures Right(x, sizes, count) && State() == Stored(n, old(State()), id, peer, m)
    {
      StoredFits(x, sizes, count, id, State(), peer, m);
      StoredRight(x, id, State(), m);
      InBuffers(buffer_handlers, n, id, sizes, handler, stored, initial);
      hide PartyRight, SizedCalls, Hold, Put, Stored;
      WriteChunk(buffer_handlers, peer, m, n, id, sizes, handler, stored, initial);
      EndTurn(peer, m);
    }

    method EndTurn(peer: nat, m: Message<Values>)
      requires Valid() && peer < n && peer != id
      modifies this
      ensures Valid() && State() == Stored(n, old(State()), id, peer, m)
      ensures buffer_handlers == old(buffer_handlers) && initial == old(initial)
      ensures stored == Extended(old(stored), peer, handler, m) && handler == old(handler) && inCall == old(inCall)
    {
      hide StoredIn, Marked;
      CountChunk(peer, m);
      if read_socks == n - 1 {
        stage := Raising(peer);
      } else {
        FinishPeer(peer);
      }
    }

    /** The flag is raised once the worker has lowered it. */
    method RaiseFlag(ghost x: Setup<Values>, ghost sizes: seq<nat>, ghost count: nat)
      requires Right(x, sizes, count) && stage.Raising? && !unit_flags
      modifies this
      ensures Right(x, sizes, count) && old(stage.peer) < n && State() == Raised(old(State()), id)
    {
      RaisedRight(x, id, State());
      assert stage.peer < n;
      hide PartyRight, SizedCalls, Replay;
      unit_flags := true;
      read_socks := 0;
      FinishPeer(stage.peer);
    }

    /** The peer is marked; the manager looks whether that completed the round. */
    method FinishPeer(peer: nat)
      requires Valid() && peer < n
      modifies this
      ensures Valid() && State() == Marked(old(State()), id, peer)
      ensures stored == old(stored) && handler == old(handler) && inCall == old(inCall)
      ensures buffer_handlers == old(buffer_handlers) && initial == old(initial)
    {
      finished_socks := finished_socks[peer := true];
      var read_buffered_socks := true;
      for j := 0 to n
        invariant read_buffered_socks <==> forall i | 0 <= i < j && i != id :: finished_socks[i]
      {
        if j != id && !finished_socks[j] {
          read_buffered_socks := false;
          break;
        }
      }
      stage := if read_buffered_socks then Restoring(0, peer) else Idle;
    }

    /** One turn of the pass over the peers, with `restoreDataToBuffer` when the slot is full. */
    method RestorePeer(ghost x: Setup<Values>, ghost sizes: seq<nat>, ghost count: nat)
      requires Right(x, sizes, count) && stage.Restoring? && Other(id, stage.place) < n
      requires temp_buffers[Other(id, stage.place)].Some? ==> comm_flags[Other(id, stage.place)]
      modifies this, buffer_handlers
      ensures Right(x, sizes, count) && State() == Restored(n, old(State()), id)
    {
      RestoredRight(x, id, State());
      var peer := Other(id, stage.place);
      if temp_buffers[peer].Some? {
        HeldMessage(x, id, State(), peer);
        StoredFits(x, sizes, count, id, State(), peer, temp_buffers[peer].value);
        InBuffers(buffer_handlers, n, id, sizes, handler, stored, initial);
      }
      hide PartyRight, SizedCalls, Hold, Restored, Other, Put;
      if temp_buffers[peer].Some? {
        WriteChunk(buffer_handlers, peer, temp_buffers[peer].value, n, id, sizes, handler, stored, initial);
      }
      RestoreFlags(peer);
    }

    method RestoreFlags(peer: nat)
      requires Valid() && stage.Restoring? && peer == Other(id, stage.place) < n
      modifies this
      ensures Valid() && State() == Restored(n, old(State()), id)
      ensures buffer_handlers == old(buffer_handlers) && initial == old(initial)
      ensures handler == old(handler) && inCall == old(inCall)
      ensures stored == match old(temp_buffers[peer])
                        case Some(m) => Extended(old(stored), peer, handler, m)
                        case None => old(stored)
    {
      var place, last := stage.place, stage.peer;
      finished_socks := finished_socks[peer := false];
      if temp_buffers[peer].Some? {
        CountChunk(peer, temp_buffers[peer].value);
        if read_socks == n - 1 {
          stage := RaisingRestored(place, last);
          return;
        }
        temp_buffers := temp_buffers[peer := None];
        finished_socks := finished_socks[peer := true];
      }
      stage := if place + 2 < n then Restoring(place + 1, last) else Idle;
    }
  }

  /** The chunk lies inside buffers of that size. */
  predicate Fits(m: Message<Values>, size: nat) {
    |m.body| == WriteAmount(m.info) && m.info.start + |m.body| <= size
  }

  /** The buffers of call `c` are what the chunks stored for the call have made of them. */
  ghost predicate Hold(buffers: seq<array<nat>>, n: nat, id: nat, sizes: seq<nat>, c: nat,
                       stored: seq<seq<Write<Values>>>, initial: seq<Values>)
    reads buffers
  {
    && c < |sizes| && |buffers| == |initial| == |stored| == n && Apart(buffers)
    && (forall j | 0 <= j < n :: buffers[j].Length >= sizes[c])
    && (forall j | 0 <= j < n && j != id :: buffers[j][..sizes[c]] == Replay(stored[j], c, initial[j]))
  }

  lemma InBuffers(buffers: seq<array<nat>>, n: nat, id: nat, sizes: seq<nat>, c: nat,
                  stored: seq<seq<Write<Values>>>, initial: seq<Values>)
    requires Hold(buffers, n, id, sizes, c, stored, initial)
    ensures c < |sizes| && |buffers| == n
  {
  }

  ghost function Contents(buffers: seq<array<nat>>, size: nat): (r: seq<Values>)
    requires forall j | 0 <= j < |buffers| :: buffers[j].Length >= size
    reads buffers
    ensures |r| == |buffers|
  {
    seq(|buffers|, j requires 0 <= j < |buffers| && buffers[j].Length >= size reads buffers => buffers[j][..size])
  }

  lemma HoldAtStart(buffers: seq<array<nat>>, n: nat, id: nat, sizes: seq<nat>, c: nat, stored: seq<seq<Write<Values>>>)
    requires c < |sizes| && |buffers| == |stored| == n && Apart(buffers)
    requires forall j | 0 <= j < n :: buffers[j].Length >= sizes[c]
    requires forall j, i | 0 <= j < n && j != id && 0 <= i < |stored[j]| :: stored[j][i].call < c
    ensures Hold(buffers, n, id, sizes, c, stored, Contents(buffers, sizes[c]))
  {
    hide Replay;
    var now := Contents(buffers, sizes[c]);
    forall j | 0 <= j < n && j != id ensures now[j] == Replay(stored[j], c, now[j]) {
      NothingReplayed(stored[j], c, now[j]);
    }
  }

  predicate Apart(buffers: seq<array<nat>>) {
    forall i, j | 0 <= i < j < |buffers| :: buffers[i] != buffers[j]
  }

  /** A chunk is written to its place in the buffer of its peer. */
  method WriteChunk(buffers: seq<array<nat>>, peer: nat, m: Message<Values>, ghost n: nat, ghost id: nat,
                    ghost sizes: seq<nat>, ghost c: nat, ghost stored: seq<seq<Write<Values>>>,
                    ghost initial: seq<Values>)
    requires Hold(buffers, n, id, sizes, c, stored, initial) && peer < n && peer != id && Fits(m, sizes[c])
    modifies buffers[peer]
    ensures buffers[peer][..] == Put(old(buffers[peer][..]), m.info.start, m.body)
    ensures Hold(buffers, n, id, sizes, c, Extended(stored, peer, c, m), initial)
  {
    hide Put, Replay;
    ReplayNext(stored[peer], c, initial[peer], m.info.start, m.body);
    PutInFront(buffers[peer][..], sizes[c], m.info.start, m.body);
    var start, amount, size := m.info.start, m.info.amount, m.info.size;
    var write_amount := if start + amount >= size then size - start else amount;
    ghost var before := buffers[peer][..];
    assert before[..sizes[c]] == buffers[peer][..sizes[c]];
    CopyChunk(buffers[peer], start, write_amount, m.body);
    assert buffers[peer][..][..sizes[c]] == buffers[peer][..sizes[c]];
  }

  lemma PutInFront(buffer: Values, size: nat, start: nat, body: Values)
    requires start + |body| <= size <= |buffer|
    ensures Put(buffer, start, body)[..size] == Put(buffer[..size], start, body)
  {
  }

  function Extended(stored: seq<seq<Write<Values>>>, peer: nat, c: nat, m: Message<Values>): seq<seq<Write<Values>>>
    requires peer < |stored|
  {
    stored[peer := stored[peer] + [Write(c, m.info.start, m.body)]]
  }

  method CopyChunk(buffer: array<nat>, start: nat, write_amount: nat, body: Values)
    requires |body| == write_amount && start + write_amount <= buffer.Length
    modifies buffer
    ensures buffer[..] == Put(old(buffer[..]), start, body)
  {
    for i := start to start + write_amount
      invariant forall k | start <= k < i :: buffer[k] == body[k - start]
      invariant forall k | 0 <= k < buffer.Length && !(start <= k < i) :: buffer[k] == old(buffer[k])
    {
      buffer[i] := body[i - start];
    }
  }

  /** The call that begins is the one its first piece belongs to. */
  lemma CallStarts(x: Setup<Values>, sizes: seq<nat>, count: nat, p: nat, s: Party<Values>)
    requires PartyRight(x, p, s) && SizedCalls(x, sizes, count) && !s.inCall && s.next < |x.plan|
    ensures s.calls < |sizes| && sizes[s.calls] == x.plan[s.next].size
  {
    hide StageRight, CallOf, PlanOf, PeerRight;
    PieceInCall(sizes, count, s.next);
  }

  /** Nothing has been stored for a call that has not begun. */
  lemma NewCall(x: Setup<Values>, p: nat, s: Party<Values>)
    requires PartyRight(x, p, s)
    ensures forall j, i | 0 <= j < x.n && j != p && 0 <= i < |s.written[j]| :: s.written[j][i].call < s.calls
  {
    hide StageRight, CallOf, WorkerRight;
    forall j: nat, i | j < x.n && j != p && 0 <= i < |s.written[j]| ensures s.written[j][i].call < s.calls {
      assert PeerRight(x, p, s, j);
      assert s.written[j][i] == WriteOf(x, p, j, i);
    }
  }
}
