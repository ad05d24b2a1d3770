/**
 The threaded exchange as one thread number sees it: in every party a worker that sends its chunks
 and waits for a flag, and the manager that stores what arrives and raises the flag when a chunk of
 every peer has been stored. A chunk that comes early waits in the single temporary slot of its
 peer. Workers and managers of all parties take their steps in any order; a message is taken whole.

 Parties are numbered from 0 here. The parties make the same calls with the same sizes.
 */
module ThreadLane {
  import opened Chunks
  import opened AllToAll

  /** The three numbers sent ahead of a chunk. */
  datatype Piece = Piece(start: nat, amount: nat, size: nat)

  datatype Option<T> = None | Some(value: T)

  datatype Message<B> = Message(info: Piece, body: B)

  /** `plan` lists the pieces of all calls one after the other; `body(p, q, c)` is what `p` has for
      `q` as chunk number `c`. */
  datatype Setup<!B> = Setup(n: nat, plan: seq<Piece>, body: (nat, nat, nat) -> B)

  /** The test by which sender and receiver recognise the last piece of a call. */
  predicate Last(x: Piece) {
    x.start + x.amount >= x.size
  }

  /** At least two parties, and calls that are complete. */
  predicate ValidSetup<B>(x: Setup<B>) {
    x.n >= 2 && (x.plan != [] ==> Last(x.plan[|x.plan| - 1]))
  }

  /** Calls that end within the first `c` pieces: the number of the call that piece `c` belongs to. */
  function CallOf(plan: seq<Piece>, c: nat): (k: nat)
    requires c <= |plan|
  {
    if c == 0 then 0 else CallOf(plan, c - 1) + if Last(plan[c - 1]) then 1 else 0
  }

  function MessageOf<B>(x: Setup<B>, p: nat, q: nat, c: nat): Message<B>
    requires c < |x.plan|
  {
    Message(x.plan[c], x.body(p, q, c))
  }

  // ----- the state of one party

  /** Where the manager is: between messages; with a message of `peer` for which the buffer is not
      yet open; about to raise the flag after storing a chunk of `peer`; or going through the peers
      after a complete round that `peer` completed. */
  datatype Stage =
    | Idle
    | Reading(peer: nat)
    | Raising(peer: nat)
    | Restoring(place: nat, peer: nat)
    | RaisingRestored(place: nat, peer: nat)

  /** One chunk stored at `start` of the buffer that the peer's data have in call number `call`. */
  datatype Write<B> = Write(call: nat, start: nat, body: B)

  /** `comm`, `unit`, `finished`, `read` and `handler` are `comm_flags`, `unit_flags`,
      `finished_socks`, `read_socks` and `buffer_handlers`; `held` is `temp_buffers` where
      `temp_buffer_flags` is set. `written[j]` records what was stored of peer `j`. */
  datatype Party<B> = Party(
    next: nat, sent: nat, inCall: bool, calls: nat,
    handler: nat, comm: seq<bool>, unit: bool,
    finished: seq<bool>, held: seq<Option<Message<B>>>, read: nat, stage: Stage,
    written: seq<seq<Write<B>>>)

  predicate Shape<B>(n: nat, s: Party<B>) {
    |s.comm| == |s.finished| == |s.held| == |s.written| == n
  }

  function Fresh<B>(n: nat): (s: Party<B>)
    ensures Shape(n, s)
  {
    Party(0, 0, false, 0, 0, seq(n, j => false), false, seq(n, j => false), seq(n, j => None), 0, Idle, seq(n, j => []))
  }

  // ----- the worker

  /** A call opens the buffers of all peers. */
  function Started<B>(n: nat, s: Party<B>): Party<B> {
    s.(inCall := true, handler := s.calls, calls := s.calls + 1, comm := seq(n, j => true))
  }

  function SentOne<B>(s: Party<B>): Party<B> {
    s.(sent := s.sent + 1)
  }

  function Passed<B>(x: Setup<B>, s: Party<B>): Party<B>
    requires s.next < |x.plan|
  {
    s.(unit := false, next := s.next + 1, sent := 0, inCall := !Last(x.plan[s.next]))
  }

  // ----- the manager

  function TookAhead<B>(s: Party<B>, j: nat, m: Message<B>): Party<B>
    requires j < |s.held|
  {
    s.(held := s.held[j := Some(m)])
  }

  /** A chunk of `j` stored in the open buffer, which the last piece closes. */
  function StoredIn<B>(s: Party<B>, j: nat, m: Message<B>): Party<B>
    requires j < |s.comm| && j < |s.written|
  {
    s.(written := s.written[j := s.written[j] + [Write(s.handler, m.info.start, m.body)]],
       comm := if Last(m.info) then s.comm[j := false] else s.comm,
       read := s.read + 1)
  }

  predicate AllFinished(finished: seq<bool>, p: nat) {
    forall j | 0 <= j < |finished| && j != p :: finished[j]
  }

  /** `finished_socks` is set for `j`; a complete round is followed by the pass over the peers. */
  function Marked<B>(s: Party<B>, p: nat, j: nat): Party<B>
    requires j < |s.finished|
  {
    var finished := s.finished[j := true];
    s.(finished := finished, stage := if AllFinished(finished, p) then Restoring(0, j) else Idle)
  }

  function Stored<B>(n: nat, s: Party<B>, p: nat, j: nat, m: Message<B>): Party<B>
    requires j < |s.comm| && j < |s.written| && j < |s.finished|
  {
    var t := StoredIn(s, j, m);
    if t.read + 1 == n then t.(stage := Raising(j)) else Marked(t, p, j)
  }

  function Raised<B>(s: Party<B>, p: nat): Party<B>
    requires s.stage.Raising? && s.stage.peer < |s.finished|
  {
    Marked(s.(unit := true, read := 0), p, s.stage.peer)
  }

  /** After the peer in place `s.stage.place` the pass goes on, or ends. */
  function NextPlace<B>(n: nat, s: Party<B>, place: nat, peer: nat): Party<B> {
    s.(stage := if place + 2 < n then Restoring(place + 1, peer) else Idle)
  }

  function Restored<B>(n: nat, s: Party<B>, p: nat): Party<B>
    requires Shape(n, s) && s.stage.Restoring? && Other(p, s.stage.place) < n
  {
    var j := Other(p, s.stage.place);
    var t := s.(finished := s.finished[j := false]);
    match s.held[j]
    case None => NextPlace(n, t, s.stage.place, s.stage.peer)
    case Some(m) =>
      var u := StoredIn(t, j, m);
      if u.read + 1 == n then u.(stage := RaisingRestored(s.stage.place, s.stage.peer))
      else NextPlace(n, u.(held := u.held[j := None], finished := u.finished[j := true]), s.stage.place, s.stage.peer)
  }

  function RaisedRestored<B>(n: nat, s: Party<B>, p: nat): Party<B>
    requires Shape(n, s) && s.stage.RaisingRestored? && Other(p, s.stage.place) < n
  {
    var j := Other(p, s.stage.place);
    NextPlace(n, s.(unit := true, read := 0, held := s.held[j := None], finished := s.finished[j := true]),
              s.stage.place, s.stage.peer)
  }

  // ----- what each party keeps

  function Count(flags: seq<bool>): (k: nat)
    ensures k <= |flags|
  {
    if flags == [] then 0 else Count(flags[..|flags| - 1]) + if flags[|flags| - 1] then 1 else 0
  }

  /** Rounds for which the flag was raised: those the worker passed, and one more while it is up. */
  function RoundsRaised<B>(s: Party<B>): nat {
    s.next + if s.unit then 1 else 0
  }

  function Taken<B>(s: Party<B>, j: nat): nat
    requires j < |s.written| && j < |s.held|
  {
    |s.written[j]| + if s.held[j].Some? then 1 else 0
  }

  function SentTo<B>(s: Party<B>, p: nat, j: nat): nat
    requires p != j
  {
    s.next + if Place(p, j) < s.sent then 1 else 0
  }

  predicate WorkerRight<B>(x: Setup<B>, s: Party<B>) {
    && s.next <= |x.plan| && s.sent + 1 <= x.n
    && (s.inCall ==> s.next < |x.plan|) && (!s.inCall ==> s.sent == 0)
    && s.calls == CallOf(x.plan, s.next) + (if s.inCall then 1 else 0)
    && (s.calls > 0 ==> s.handler == s.calls - 1)
  }

  /** What was stored of peer `j` are its chunks in order, each in the buffers of its own call; the
      slot holds the chunk after them; the buffer is open while the call is not stored completely. */
  predicate PeerRight<B(==)>(x: Setup<B>, p: nat, s: Party<B>, j: nat)
    requires Shape(x.n, s) && j < x.n
  {
    StoreRight(x, p, j, s.calls, s.comm[j], s.written[j], s.held[j])
  }

  predicate StoreRight<B(==)>(x: Setup<B>, p: nat, j: nat, calls: nat, open: bool, written: seq<Write<B>>,
                              held: Option<Message<B>>)
  {
    && |written| + (if held.Some? then 1 else 0) <= |x.plan|
    && CallOf(x.plan, |written|) <= calls
    && (open <==> CallOf(x.plan, |written|) < calls)
    && (forall c | 0 <= c < |written| :: written[c] == WriteOf(x, p, j, c) && CallOf(x.plan, c) < calls)
    && (held.Some? ==> held.value == MessageOf(x, j, p, |written|))
  }

  function WriteOf<B>(x: Setup<B>, p: nat, j: nat, c: nat): Write<B>
    requires c < |x.plan|
  {
    Write(CallOf(x.plan, c), x.plan[c].start, x.body(j, p, c))
  }

  /** Peer `j` has been heard in the round being collected, or not. */
  predicate Heard<B>(s: Party<B>, j: nat)
    requires j < |s.written| && j < |s.held| && j < |s.finished|
  {
    if s.finished[j] then |s.written[j]| == RoundsRaised(s) + 1
    else |s.written[j]| == RoundsRaised(s) && s.held[j].None?
  }

  ghost predicate StageRight<B>(n: nat, p: nat, s: Party<B>)
    requires Shape(n, s)
  {
    match s.stage
    case Idle =>
      s.read == Count(s.finished) && s.read + 1 < n && forall j: nat | j < n && j != p :: Heard(s, j)
    case Reading(i) =>
      s.read == Count(s.finished) && s.read + 1 < n && i < n && i != p && !s.finished[i]
      && forall j: nat | j < n && j != p :: Heard(s, j)
    case Raising(i) =>
      s.read == n - 1 && i < n && i != p && s.held[i].None?
      && forall j: nat | j < n && j != p :: |s.written[j]| == RoundsRaised(s) + 1 && (s.finished[j] <==> j != i)
    case Restoring(place, i) =>
      place + 1 < n && i < n && i != p && s.held[i].None? && (Place(p, i) < place ==> !s.finished[i])
      && s.read == Count(Cut(s.finished, p, place))
      && forall j: nat | j < n && j != p :: PassRight(s, p, j, place)
    case RaisingRestored(_, _) => false
  }

  /** During the pass, the peers before `place` are done. */
  predicate PassRight<B>(s: Party<B>, p: nat, j: nat, place: nat)
    requires j < |s.written| && j < |s.held| && j < |s.finished| && p != j
  {
    if Place(p, j) < place then Heard(s, j) && s.held[j].None?
    else s.finished[j] && |s.written[j]| == RoundsRaised(s)
  }

  /** The flags of the peers before `place`. */
  function Cut(flags: seq<bool>, p: nat, place: nat): (r: seq<bool>)
    ensures |r| == |flags|
  {
    seq(|flags|, j requires 0 <= j < |flags| => j != p && Place(p, j) < place && flags[j])
  }

  ghost predicate PartyRight<B>(x: Setup<B>, p: nat, s: Party<B>) {
    && ValidSetup(x)
    && Shape(x.n, s) && p < x.n && !s.finished[p]
    && WorkerRight(x, s)
    && (forall j: nat | j < x.n && j != p :: PeerRight(x, p, s, j))
    && StageRight(x.n, p, s)
  }

  lemma {:induction false} CallMonotone(plan: seq<Piece>, a: nat, b: nat)
    requires a <= b <= |plan|
    ensures CallOf(plan, a) <= CallOf(plan, b)
    decreases b
  {
    if a < b {
      CallMonotone(plan, a, b - 1);
    }
  }

  // ----- counting flags

  lemma {:induction false} CountSet(flags: seq<bool>, j: nat)
    requires j < |flags|
    ensures Count(flags[j := true]) == Count(flags) + if flags[j] then 0 else 1
    ensures Count(flags[j := false]) == Count(flags) - if flags[j] then 1 else 0
  {
    var front := flags[..|flags| - 1];
    if j < |front| {
      CountSet(front, j);
      assert flags[j := true][..|flags| - 1] == front[j := true];
      assert flags[j := false][..|flags| - 1] == front[j := false];
    } else {
      assert flags[j := true][..|flags| - 1] == front;
      assert flags[j := false][..|flags| - 1] == front;
    }
  }

  lemma {:induction false} CountAll(flags: seq<bool>)
    requires forall j | 0 <= j < |flags| :: flags[j]
    ensures Count(flags) == |flags|
  {
    if flags != [] {
      CountAll(flags[..|flags| - 1]);
    }
  }

  lemma {:induction false} CountNone(flags: seq<bool>)
    requires forall j | 0 <= j < |flags| :: !flags[j]
    ensures Count(flags) == 0
  {
    if flags != [] {
      CountNone(flags[..|flags| - 1]);
    }
  }

  lemma {:induction false} CountMissing(flags: seq<bool>, j: nat)
    requires j < |flags| && !flags[j]
    ensures Count(flags) < |flags|
  {
    CountSet(flags, j);
  }

  /** With the flag of `p` itself down, all others are up exactly when the count is the number of peers. */
  lemma CountPeers(flags: seq<bool>, p: nat)
    requires p < |flags| && !flags[p]
    ensures AllFinished(flags, p) <==> Count(flags) == |flags| - 1
  {
    CountSet(flags, p);
    var all := flags[p := true];
    if AllFinished(flags, p) {
      CountAll(all);
    } else {
      var j :| 0 <= j < |flags| && j != p && !flags[j];
      CountMissing(all, j);
    }
  }

  // ----- every step of a party keeps what is right about it

  lemma RoundsBounds<B>(x: Setup<B>, p: nat, s: Party<B>, j: nat)
    requires PartyRight(x, p, s) && j < x.n && j != p
    ensures s.next <= RoundsRaised(s) <= |s.written[j]| <= RoundsRaised(s) + 1
  {
    match s.stage
    case Idle => assert Heard(s, j);
    case Reading(_) => assert Heard(s, j);
    case Raising(_) =>
    case Restoring(place, _) => assert PassRight(s, p, j, place);
  }

  lemma StartedRight<B>(x: Setup<B>, p: nat, s: Party<B>)
    requires PartyRight(x, p, s) && !s.inCall && s.next < |x.plan|
    ensures PartyRight(x, p, Started(x.n, s))
  {
    hide CallOf, Count, Cut;
    var t := Started(x.n, s);
    forall j: nat | j < x.n && j != p ensures PeerRight(x, p, t, j) {
      assert PeerRight(x, p, s, j);
    }
    StageKept(x.n, p, s, t);
  }

  /** The manager's part does not depend on how the worker's rounds are split into flag and count. */
  lemma StageKept<B>(n: nat, p: nat, s: Party<B>, t: Party<B>)
    requires Shape(n, s) && Shape(n, t) && StageRight(n, p, s)
    requires t.finished == s.finished && t.held == s.held && t.read == s.read && t.stage == s.stage
    requires t.written == s.written
    requires RoundsRaised(t) == RoundsRaised(s)
    ensures StageRight(n, p, t)
  {
    hide Count, Cut;
    forall j: nat | j < n && j != p
      ensures Heard(s, j) == Heard(t, j)
      ensures s.stage.Restoring? ==> PassRight(s, p, j, s.stage.place) == PassRight(t, p, j, s.stage.place)
    {
    }
  }

  lemma SentRight<B>(x: Setup<B>, p: nat, s: Party<B>)
    requires PartyRight(x, p, s) && s.inCall && s.sent + 1 < x.n
    ensures PartyRight(x, p, SentOne(s))
  {
    hide CallOf, Count, Cut;
    var t := SentOne(s);
    forall j: nat | j < x.n && j != p ensures PeerRight(x, p, t, j) {
      assert PeerRight(x, p, s, j);
    }
    StageKept(x.n, p, s, t);
  }

  lemma PassedRight<B>(x: Setup<B>, p: nat, s: Party<B>)
    requires PartyRight(x, p, s) && s.inCall && s.unit
    ensures PartyRight(x, p, Passed(x, s))
  {
    hide Count, Cut;
    var t := Passed(x, s);
    forall j: nat | j < x.n && j != p ensures PeerRight(x, p, t, j) {
      assert PeerRight(x, p, s, j);
    }
    StageKept(x.n, p, s, t);
  }

  lemma BegunRight<B>(x: Setup<B>, p: nat, s: Party<B>, j: nat)
    requires PartyRight(x, p, s) && s.stage.Idle? && j < x.n && j != p && !s.finished[j]
    ensures PartyRight(x, p, s.(stage := Reading(j)))
  {
    hide CallOf, Count, Cut;
    var t := s.(stage := Reading(j));
    forall i: nat | i < x.n && i != p ensures PeerRight(x, p, t, i) && Heard(t, i) {
      assert PeerRight(x, p, s, i) && Heard(s, i);
    }
  }

  lemma TookAheadRight<B>(x: Setup<B>, p: nat, s: Party<B>, j: nat, m: Message<B>)
    requires PartyRight(x, p, s) && s.stage.Idle? && j < x.n && j != p && s.finished[j] && s.held[j].None?
    requires |s.written[j]| < |x.plan| && m == MessageOf(x, j, p, |s.written[j]|)
    ensures PartyRight(x, p, TookAhead(s, j, m)) && Taken(TookAhead(s, j, m), j) == Taken(s, j) + 1
  {
    hide CallOf, Count, Cut;
    var t := TookAhead(s, j, m);
    forall i: nat | i < x.n && i != p ensures PeerRight(x, p, t, i) && Heard(t, i) {
      assert PeerRight(x, p, s, i) && Heard(s, i);
    }
  }

  lemma CallsWithin<B>(x: Setup<B>, p: nat, s: Party<B>, j: nat)
    requires PartyRight(x, p, s) && j < x.n && j != p
    ensures |s.written[j]| <= |x.plan| && s.calls <= CallOf(x.plan, |s.written[j]|) + 1
    ensures s.comm[j] ==> s.calls > 0 && s.handler == CallOf(x.plan, |s.written[j]|)
  {
    hide StageRight;
    RoundsBounds(x, p, s, j);
    assert PeerRight(x, p, s, j);
    CallMonotone(x.plan, s.next, |s.written[j]|);
  }

  /** Storing the next chunk of `j` in the open buffer. */
  lemma StoredNext<B>(x: Setup<B>, p: nat, j: nat, calls: nat, handler: nat, written: seq<Write<B>>,
                      held: Option<Message<B>>, m: Message<B>)
    requires StoreRight(x, p, j, calls, true, written, held) && |written| < |x.plan|
    requires calls <= CallOf(x.plan, |written|) + 1 && handler == CallOf(x.plan, |written|)
    requires m == MessageOf(x, j, p, |written|)
    ensures StoreRight(x, p, j, calls, !Last(m.info), written + [Write(handler, m.info.start, m.body)], None)
  {
    var c := |written|;
    assert CallOf(x.plan, c + 1) == CallOf(x.plan, c) + if Last(m.info) then 1 else 0;
    hide CallOf;
    assert Write(handler, m.info.start, m.body) == WriteOf(x, p, j, c);
  }

  /** The part of storing a chunk that both the direct way and the pass share. */
  lemma StoredPeers<B>(x: Setup<B>, p: nat, s: Party<B>, j: nat, m: Message<B>, t: Party<B>)
    requires PartyRight(x, p, s) && j < x.n && j != p && s.comm[j] && Shape(x.n, t)
    requires |s.written[j]| < |x.plan| && m == MessageOf(x, j, p, |s.written[j]|)
    requires t.calls == s.calls && t.held == s.held[j := None]
    requires t.written == s.written[j := s.written[j] + [Write(s.handler, m.info.start, m.body)]]
    requires t.comm == s.comm[j := !Last(m.info)]
    ensures forall i: nat | i < x.n && i != p :: PeerRight(x, p, t, i)
  {
    hide StageRight, StoreRight, WorkerRight, CallOf;
    CallsWithin(x, p, s, j);
    assert PeerRight(x, p, s, j);
    StoredNext(x, p, j, s.calls, s.handler, s.written[j], s.held[j], m);
    forall i: nat | i < x.n && i != p ensures PeerRight(x, p, t, i) {
      assert PeerRight(x, p, s, i);
    }
  }

  lemma StoredRight<B>(x: Setup<B>, p: nat, s: Party<B>, m: Message<B>)
    requires PartyRight(x, p, s) && s.stage.Reading? && s.comm[s.stage.peer]
    requires |s.written[s.stage.peer]| < |x.plan| && m == MessageOf(x, s.stage.peer, p, |s.written[s.stage.peer]|)
    ensures PartyRight(x, p, Stored(x.n, s, p, s.stage.peer, m))
    ensures Taken(Stored(x.n, s, p, s.stage.peer, m), s.stage.peer) == Taken(s, s.stage.peer) + 1
  {
    hide CallOf, StoreRight, Count, Cut, WorkerRight;
    var j := s.stage.peer;
    var t := Stored(x.n, s, p, j, m);
    assert Heard(s, j);
    assert s.held[j := None] == s.held && s.comm[j := true] == s.comm;
    StoredPeers(x, p, s, j, m, t);
    StoredStage(x, p, s, m);
    WorkerKept(x, s, t);
  }

  lemma WorkerKept<B>(x: Setup<B>, s: Party<B>, t: Party<B>)
    requires WorkerRight(x, s) && t.next == s.next && t.sent == s.sent && t.inCall == s.inCall
    requires t.calls == s.calls && t.handler == s.handler
    ensures WorkerRight(x, t)
  {
    hide CallOf;
  }

  lemma StoredStage<B>(x: Setup<B>, p: nat, s: Party<B>, m: Message<B>)
    requires PartyRight(x, p, s) && s.stage.Reading?
    ensures StageRight(x.n, p, Stored(x.n, s, p, s.stage.peer, m))
  {
    hide CallOf, StoreRight, Count, Cut, WorkerRight;
    var j := s.stage.peer;
    var t := Stored(x.n, s, p, j, m);
    CountSet(s.finished, j);
    CountPeers(s.finished[j := true], p);
    CountPeers(s.finished, p);
    assert Heard(s, j);
    assert t.stage == (if s.read + 2 == x.n then Raising(j) else Idle);
    forall i: nat | i < x.n && i != p
      ensures t.stage.Raising? ==> |t.written[i]| == RoundsRaised(t) + 1 && (t.finished[i] <==> i != j)
      ensures t.stage.Idle? ==> Heard(t, i)
    {
      assert Heard(s, i);
      if i != j {
        assert s.finished[j := true][i] == s.finished[i];
      }
    }
  }

  lemma RaisedRight<B>(x: Setup<B>, p: nat, s: Party<B>)
    requires PartyRight(x, p, s) && s.stage.Raising? && !s.unit
    ensures PartyRight(x, p, Raised(s, p))
  {
    hide CallOf, StoreRight, WorkerRight, Count;
    var i := s.stage.peer;
    var t := Raised(s, p);
    WorkerKept(x, s, t);
    forall j: nat | j < x.n && j != p ensures PeerRight(x, p, t, j) && PassRight(t, p, j, 0) {
      assert PeerRight(x, p, s, j);
    }
    CountNone(Cut(t.finished, p, 0));
  }

  // ----- the pass over the peers

  lemma CutNext(flags: seq<bool>, p: nat, place: nat)
    requires Other(p, place) < |flags|
    ensures var j := Other(p, place);
            && !Cut(flags, p, place)[j]
            && Cut(flags, p, place + 1) == Cut(flags, p, place)[j := flags[j]]
            && Cut(flags[j := true], p, place) == Cut(flags[j := false], p, place) == Cut(flags, p, place)
  {
  }

  lemma CutEnd(flags: seq<bool>, p: nat)
    requires p < |flags| && !flags[p]
    ensures Cut(flags, p, |flags| - 1) == flags
  {
  }

  lemma CountTwoMissing(flags: seq<bool>, i: nat, j: nat)
    requires i < |flags| && j < |flags| && i != j && !flags[i] && !flags[j]
    ensures Count(flags) + 2 <= |flags|
  {
    CountSet(flags, i);
    CountMissing(flags[i := true], j);
  }

  /** The peer that completed the round has nothing waiting, so the pass never completes another. */
  lemma PassIncomplete<B>(x: Setup<B>, p: nat, s: Party<B>)
    requires PartyRight(x, p, s) && s.stage.Restoring?
    requires s.held[Other(p, s.stage.place)].Some?
    ensures s.read + 2 < x.n
  {
    hide CallOf, StoreRight, WorkerRight, Count;
    var j := Other(p, s.stage.place);
    var flags := Cut(s.finished, p, s.stage.place);
    CutNext(s.finished, p, s.stage.place);
    CountSet(flags, j);
    CountTwoMissing(flags[j := true], p, s.stage.peer);
  }

  lemma RestoredRight<B>(x: Setup<B>, p: nat, s: Party<B>)
    requires PartyRight(x, p, s) && s.stage.Restoring?
    requires var j := Other(p, s.stage.place);
             s.held[j].Some? ==> s.comm[j]
    ensures PartyRight(x, p, Restored(x.n, s, p))
    ensures forall j: nat | j < x.n :: Taken(Restored(x.n, s, p), j) == Taken(s, j)
  {
    hide CallOf, StoreRight, WorkerRight, Count, Cut, PassRight;
    var t := Restored(x.n, s, p);
    RestoredFields(x, p, s);
    PassedStage(x.n, p, s, t);
    WorkerKept(x, s, t);
    RestoredPeers(x, p, s);
    hide Restored;
    assert Other(p, s.stage.place) != p;
  }

  lemma RestoredPeers<B>(x: Setup<B>, p: nat, s: Party<B>)
    requires PartyRight(x, p, s) && s.stage.Restoring?
    requires var j := Other(p, s.stage.place);
             s.held[j].Some? ==> s.comm[j]
    ensures forall i: nat | i < x.n && i != p :: PeerRight(x, p, Restored(x.n, s, p), i)
  {
    hide CallOf, StoreRight, WorkerRight, Count, Cut, PassRight;
    var j := Other(p, s.stage.place);
    var t := Restored(x.n, s, p);
    assert PeerRight(x, p, s, j);
    if s.held[j].Some? {
      HeldMessage(x, p, s, j);
      PassIncomplete(x, p, s);
      assert s.comm[j := true] == s.comm;
      StoredPeers(x, p, s, j, s.held[j].value, t);
    } else {
      forall i: nat | i < x.n && i != p ensures PeerRight(x, p, t, i) {
        assert PeerRight(x, p, s, i);
      }
    }
  }

  lemma HeldMessage<B>(x: Setup<B>, p: nat, s: Party<B>, j: nat)
    requires PartyRight(x, p, s) && j < x.n && j != p && s.held[j].Some?
    ensures |s.written[j]| < |x.plan| && s.held[j].value == MessageOf(x, j, p, |s.written[j]|)
  {
    hide CallOf, StageRight, WorkerRight;
    assert PeerRight(x, p, s, j);
  }

  /** What a step of the pass changes: the flag of its peer becomes what the slot was. */
  ghost predicate PassStep<B>(n: nat, p: nat, s: Party<B>, t: Party<B>)
    requires Shape(n, s) && s.stage.Restoring? && Other(p, s.stage.place) < n
  {
    var j := Other(p, s.stage.place);
    && Shape(n, t)
    && t.finished == s.finished[j := s.held[j].Some?] && t.held == s.held[j := None]
    && t.stage == (if s.stage.place + 2 < n then Restoring(s.stage.place + 1, s.stage.peer) else Idle)
    && t.read == s.read + (if s.held[j].Some? then 1 else 0)
    && |t.written[j]| == |s.written[j]| + (if s.held[j].Some? then 1 else 0)
    && RoundsRaised(t) == RoundsRaised(s)
    && forall k: nat | k < n && k != j :: t.written[k] == s.written[k]
  }

  lemma RestoredFields<B>(x: Setup<B>, p: nat, s: Party<B>)
    requires PartyRight(x, p, s) && s.stage.Restoring?
    ensures PassStep(x.n, p, s, Restored(x.n, s, p))
  {
    hide CallOf, StoreRight, WorkerRight, Count, Cut, PeerRight;
    if s.held[Other(p, s.stage.place)].Some? {
      PassIncomplete(x, p, s);
    }
  }

  lemma PassedPeer<B>(n: nat, p: nat, s: Party<B>, t: Party<B>, k: nat)
    requires p < n && Shape(n, s) && StageRight(n, p, s) && s.stage.Restoring? && PassStep(n, p, s, t)
    requires k < n && k != p
    ensures PassRight(t, p, k, s.stage.place + 1)
  {
    hide Count, Cut;
    assert PassRight(s, p, k, s.stage.place);
  }

  lemma PassedCount<B>(n: nat, p: nat, s: Party<B>, t: Party<B>)
    requires p < n && Shape(n, s) && StageRight(n, p, s) && s.stage.Restoring? && PassStep(n, p, s, t)
    ensures t.read == Count(Cut(t.finished, p, s.stage.place + 1))
  {
    hide Count, Cut, PassRight;
    var place := s.stage.place;
    var j := Other(p, place);
    CutNext(s.finished, p, place);
    CutNext(t.finished, p, place);
    CountSet(Cut(s.finished, p, place), j);
  }

  lemma PassGoesOn<B>(n: nat, p: nat, t: Party<B>, place: nat, i: nat)
    requires Shape(n, t) && t.stage == Restoring(place, i) && place + 1 < n && i < n && i != p
    requires t.held[i].None? && (Place(p, i) < place ==> !t.finished[i])
    requires t.read == Count(Cut(t.finished, p, place))
    requires forall k: nat | k < n && k != p :: PassRight(t, p, k, place)
    ensures StageRight(n, p, t)
  {
    hide Count, Cut, PassRight;
  }

  lemma PassEnds<B>(n: nat, p: nat, t: Party<B>, place: nat, i: nat)
    requires place + 1 == n && Shape(n, t) && t.stage == Idle && p < n && i < n && i != p && !t.finished[p]
    requires !t.finished[i]
    requires t.read == Count(Cut(t.finished, p, place))
    requires forall k: nat | k < n && k != p :: PassRight(t, p, k, place)
    ensures StageRight(n, p, t)
  {
    hide Count, Cut;
    CutEnd(t.finished, p);
    CountPeers(t.finished, p);
    CountMissing(t.finished, p);
    forall k: nat | k < n && k != p ensures Heard(t, k) {
      assert PassRight(t, p, k, place);
    }
  }

  lemma PassedStage<B>(n: nat, p: nat, s: Party<B>, t: Party<B>)
    requires p < n && Shape(n, s) && !s.finished[p] && StageRight(n, p, s) && s.stage.Restoring?
    requires PassStep(n, p, s, t)
    ensures StageRight(n, p, t)
  {
    hide Count, Cut, PassRight;
    var place, i := s.stage.place + 1, s.stage.peer;
    assert Place(p, i) < place ==> !t.finished[i];
    forall k: nat | k < n && k != p ensures PassRight(t, p, k, place) {
      PassedPeer(n, p, s, t, k);
    }
    PassedCount(n, p, s, t);
    if place + 1 == n {
      PassEnds(n, p, t, place, i);
    } else {
      PassGoesOn(n, p, t, place, i);
    }
  }

  // ----- the pieces of real calls

  /** What a call sends to each peer, chunk after chunk. */
  function CallPieces(size: nat, count: nat): (r: seq<Piece>)
    requires count > 0
    ensures |r| == Rounds(size, count)
  {
    seq(Rounds(size, count), k requires 0 <= k < Rounds(size, count) => Piece(Start(k, count), count, size))
  }

  function PlanOf(sizes: seq<nat>, count: nat): (r: seq<Piece>)
    requires count > 0
  {
    if sizes == [] then [] else PlanOf(sizes[..|sizes| - 1], count) + CallPieces(sizes[|sizes| - 1], count)
  }

  /** The receiver's test holds for the last chunk of a call and for no other. */
  lemma LastOnlyAtEnd(size: nat, count: nat, k: nat)
    requires count > 0 && k < Rounds(size, count)
    ensures Last(CallPieces(size, count)[k]) <==> k + 1 == Rounds(size, count)
  {
    hide LastChunk, Amount;
    ChunksCover(size, count);
    DivisionFacts(size, count);
    var last := LastChunk(size, count);
    if k < last {
      EarlierStarts(k, last, count);
    } else {
      SameStart(k, last, count);
    }
  }

  lemma SameStart(k: nat, last: int, count: nat)
    requires k == last
    ensures Start(k, count) + count == (last + 1) * count
  {
  }

  lemma CallOfPrefix(plan: seq<Piece>, more: seq<Piece>, c: nat)
    requires c <= |plan|
    ensures CallOf(plan + more, c) == CallOf(plan, c)
  {
    if c > 0 {
      CallOfPrefix(plan, more, c - 1);
    }
  }

  /** Within a call the number of ended calls does not change until its last piece. */
  lemma {:induction false} CallOfPieces(plan: seq<Piece>, size: nat, count: nat, k: nat)
    requires count > 0 && k <= Rounds(size, count)
    ensures CallOf(plan + CallPieces(size, count), |plan| + k)
         == CallOf(plan, |plan|) + if 0 < k == Rounds(size, count) then 1 else 0
    decreases k
  {
    hide CallPieces, Rounds, Last;
    var whole := plan + CallPieces(size, count);
    if k == 0 {
      CallOfPrefix(plan, CallPieces(size, count), |plan|);
    } else {
      CallOfPieces(plan, size, count, k - 1);
      LastOnlyAtEnd(size, count, k - 1);
      assert whole[|plan| + k - 1] == CallPieces(size, count)[k - 1];
    }
  }

  /** Calls of any positive sizes: as many calls end as were made, chunk `k` of call `c` belongs to
      call `c`, and the plan ends with a complete call. */
  lemma {:induction false} PlanCalls(sizes: seq<nat>, count: nat)
    requires count > 0 && forall c | 0 <= c < |sizes| :: sizes[c] > 0
    ensures CallOf(PlanOf(sizes, count), |PlanOf(sizes, count)|) == |sizes|
    ensures PlanOf(sizes, count) != [] ==> Last(PlanOf(sizes, count)[|PlanOf(sizes, count)| - 1])
  {
    hide CallPieces, Rounds, Last, CallOf;
    if sizes == [] {
      NoCalls();
    } else {
      var size := sizes[|sizes| - 1];
      var before := PlanOf(sizes[..|sizes| - 1], count);
      PlanCalls(sizes[..|sizes| - 1], count);
      SomeRounds(size, count);
      CallOfPieces(before, size, count, Rounds(size, count));
      LastOnlyAtEnd(size, count, Rounds(size, count) - 1);
    }
  }

  lemma NoCalls()
    ensures CallOf([], 0) == 0
  {
  }

  lemma SomeRounds(size: nat, count: nat)
    requires count > 0 && size > 0
    ensures Rounds(size, count) > 0
  {
    DivisionFacts(size, count);
  }

  lemma ChunkOfCall(sizes: seq<nat>, count: nat, c: nat, k: nat)
    requires count > 0 && (forall i | 0 <= i < |sizes| :: sizes[i] > 0)
    requires c < |sizes| && k < Rounds(sizes[c], count)
    ensures var plan, i := PlanOf(sizes, count), |PlanOf(sizes[..c], count)| + k;
            i < |plan| && plan[i] == Piece(Start(k, count), count, sizes[c]) && CallOf(plan, i) == c
    decreases |sizes|
  {
    hide Rounds, CallOf, Last;
    var front := sizes[..|sizes| - 1];
    if c < |front| {
      ChunkOfCall(front, count, c, k);
      assert front[..c] == sizes[..c];
      CallOfPrefix(PlanOf(front, count), CallPieces(sizes[|sizes| - 1], count), |PlanOf(sizes[..c], count)| + k);
    } else {
      assert sizes[..c] == front;
      PlanCalls(front, count);
      CallOfPieces(PlanOf(front, count), sizes[c], count, k);
    }
  }
}
