/**
 Connection start-up of all parties. Each party dials every higher number in order, reading a key
 after each dial, and only then listens and accepts as many connections as there are lower numbers.
 Nobody says who it is: the acceptor labels the k-th connection by its position alone.
 */
module Startup {
  import opened NodeTables

  /** `dialed` counts finished requests; `waiting` means the next one is connected but its key is
      not read yet; `backlog` holds the parties whose connections wait to be accepted. */
  datatype Party = Party(dialed: nat, waiting: bool, listening: bool, backlog: seq<nat>, accepted: nat, tables: Tables)

  /** `wire` holds the key material written into a connection by its acceptor. */
  datatype State = State(parties: seq<Party>, wire: map<Socket, KeyIV>)

  datatype Event = Connect(p: nat) | ReadKey(p: nat) | Listen(p: nat) | Accept(p: nat)

  /** The material that party `m` draws for its k-th connection. */
  type Draw = (nat, nat) -> KeyIV

  function Init(peers: nat): State {
    State(seq(peers + 2, p => Party(0, false, false, [], 0, EmptyTables(peers))), map[])
  }

  predicate Shaped(peers: nat, s: State) {
    && peers % 2 == 0
    && |s.parties| == peers + 2
    && forall p | 0 <= p < |s.parties| :: |s.parties[p].tables.prgSeeds| == peers
  }

  /** The party that `p` dials next. */
  function Target(s: State, p: nat): nat
    requires p < |s.parties|
  {
    p + s.parties[p].dialed + 1
  }

  predicate Enabled(peers: nat, s: State, e: Event)
    requires Shaped(peers, s)
  {
    1 <= e.p <= peers + 1 &&
    var x := s.parties[e.p];
    match e
    case Connect(p) =>
      // the dial is repeated until the target listens
      Target(s, p) <= peers + 1 && !x.waiting && s.parties[Target(s, p)].listening
    case ReadKey(p) =>
      Target(s, p) <= peers + 1 && x.waiting && Socket(p, Target(s, p)) in s.wire
    case Listen(p) =>
      p != 1 && Target(s, p) == peers + 2 && !x.listening
    case Accept(p) =>
      x.listening && x.accepted < p - 1 && x.backlog != [] && x.backlog[0] <= peers + 1
  }

  function Next(peers: nat, draw: Draw, s: State, e: Event): State
    requires Shaped(peers, s) && Enabled(peers, s, e)
  {
    var x := s.parties[e.p];
    match e
    case Connect(p) =>
      var m := Target(s, p);
      var tables := WithSocket(x.tables, m, Socket(p, m));
      var t := s.parties[m];
      s.(parties := s.parties[p := x.(waiting := true, tables := tables)][m := t.(backlog := t.backlog + [p])])
    case ReadKey(p) =>
      var m := Target(s, p);
      var tables := WithKeys(x.tables, p, m, peers, s.wire[Socket(p, m)]);
      s.(parties := s.parties[p := x.(dialed := x.dialed + 1, waiting := false, tables := tables)])
    case Listen(p) =>
      s.(parties := s.parties[p := x.(listening := true)])
    case Accept(p) =>
      var peer := p - (x.accepted + 1);
      var sock := Socket(x.backlog[0], p);
      var material := draw(p, x.accepted);
      var tables := WithKeys(WithSocket(x.tables, peer, sock), p, peer, peers, material);
      State(s.parties[p := x.(backlog := x.backlog[1..], accepted := x.accepted + 1, tables := tables)],
            s.wire[sock := material])
  }

  ghost predicate StepBy(peers: nat, draw: Draw, s: State, s': State, e: Event) {
    Shaped(peers, s) && Enabled(peers, s, e) && s' == Next(peers, draw, s, e)
  }

  /** Some interleaving leads to `s` in exactly `steps` steps. */
  ghost predicate Reachable(peers: nat, draw: Draw, s: State, steps: nat)
    decreases steps
  {
    if steps == 0 then peers % 2 == 0 && s == Init(peers)
    else exists s0, e :: Reachable(peers, draw, s0, steps - 1) && StepBy(peers, draw, s0, s, e)
  }

  // ----- the invariant

  /** `d` has connected to `m`, whether or not it has the key yet. */
  predicate Attempted(s: State, d: nat, m: nat)
    requires d < |s.parties|
  {
    s.parties[d].dialed >= m - d || (s.parties[d].waiting && Target(s, d) == m)
  }

  /** Party `m` has accepted the connection of `d`, if it accepts from `m - 1` down to 1. */
  predicate Taken(s: State, d: nat, m: nat)
    requires m < |s.parties|
  {
    s.parties[m].accepted >= m - d
  }

  /** The life of the connection from `d` to `m`. */
  ghost predicate PairOk(peers: nat, draw: Draw, s: State, d: nat, m: nat)
    requires d < m < |s.parties|
  {
    var x, y := s.parties[d], s.parties[m];
    var sock := Socket(d, m);
    && (x.dialed >= m - d ==> Taken(s, d, m))
    && (Taken(s, d, m) ==> Attempted(s, d, m))
    && (Attempted(s, d, m) && !Taken(s, d, m) ==> y.backlog == [d] && y.accepted == m - 1 - d)
    && (Taken(s, d, m) <==> sock in s.wire)
    && (Taken(s, d, m) ==> s.wire[sock] == draw(m, m - 1 - d))
    && (Taken(s, d, m) ==> HasPeer(y.tables, m, d, peers, sock, draw(m, m - 1 - d)))
    && (!Taken(s, d, m) ==> LacksPeer(y.tables, d))
    && (Attempted(s, d, m) ==> m in x.tables.peer2sock && x.tables.peer2sock[m] == sock)
    && (!Attempted(s, d, m) ==> m !in x.tables.peer2sock)
    && (x.dialed >= m - d ==> HasPeer(x.tables, d, m, peers, sock, draw(m, m - 1 - d)))
    && (x.dialed < m - d ==> m !in x.tables.ciphers)
  }

  /** All tables of `id` have the right entries for `peer`. */
  predicate HasPeer(x: Tables, id: nat, peer: nat, peers: nat, sock: Socket, k: KeyIV)
  {
    && peer in x.peer2sock && x.peer2sock[peer] == sock
    && peer in x.ciphers && x.ciphers[peer] == CipherKey(k)
    && 0 <= PrgSlot(id, peer, peers) < |x.prgSeeds|
    && x.prgSeeds[PrgSlot(id, peer, peers)] == PrgSeed(k)
  }

  predicate LacksPeer(x: Tables, peer: nat) {
    peer !in x.peer2sock && peer !in x.ciphers
  }

  predicate PartyOk(peers: nat, s: State, m: nat)
    requires 1 <= m < |s.parties|
  {
    var y := s.parties[m];
    && Target(s, m) <= peers + 2
    && (y.waiting ==> Target(s, m) <= peers + 1)
    && (y.listening ==> m > 1 && Target(s, m) == peers + 2)
    && (!y.listening ==> y.accepted == 0 && y.backlog == [])
    && y.accepted <= m - 1
    && |y.backlog| <= 1
    && (y.backlog != [] ==> y.accepted < m - 1 && y.backlog[0] == m - 1 - y.accepted)
    && (y.backlog != [] ==> Attempted(s, y.backlog[0], m))
  }

  /** Steps that a party has taken part in as the one that moves. */
  function Work(x: Party): nat {
    2 * x.dialed + (if x.waiting then 1 else 0) + (if x.listening then 1 else 0) + x.accepted
  }

  /** Number 0 is nobody. */
  ghost predicate Inv(peers: nat, draw: Draw, s: State) {
    && Shaped(peers, s)
    && Work(s.parties[0]) == 0
    && (forall m: nat | 1 <= m <= peers + 1 :: PartyOk(peers, s, m))
    && (forall d: nat, m: nat | 1 <= d < m <= peers + 1 :: PairOk(peers, draw, s, d, m))
  }

  lemma InitInv(peers: nat, draw: Draw)
    requires peers % 2 == 0
    ensures Inv(peers, draw, Init(peers))
  {
  }

  /** When `p` gets to dial `m`, exactly the parties between them have been accepted by `m`: the
      next one listens, so it has finished with everybody above it. */
  lemma DialedInTurn(peers: nat, draw: Draw, s: State, p: nat)
    requires Inv(peers, draw, s) && Enabled(peers, s, Connect(p))
    ensures var m := Target(s, p); s.parties[m].accepted == m - 1 - p && s.parties[m].backlog == []
    ensures !Attempted(s, p, Target(s, p)) && !Taken(s, p, Target(s, p))
  {
    var m := Target(s, p);
    assert PartyOk(peers, s, p) && PartyOk(peers, s, m);
    assert PairOk(peers, draw, s, p, m);
    if p + 1 < m {
      assert PairOk(peers, draw, s, p, p + 1);
      assert PartyOk(peers, s, p + 1);
      assert PairOk(peers, draw, s, p + 1, m);
    }
  }

  // ----- one step

  /** The entries for peer `r` are the same in both tables. */
  predicate SamePeer(x: Tables, x': Tables, id: nat, r: nat, peers: nat) {
    var slot := PrgSlot(id, r, peers);
    && (r in x.peer2sock <==> r in x'.peer2sock) && (r in x.peer2sock ==> x.peer2sock[r] == x'.peer2sock[r])
    && (r in x.ciphers <==> r in x'.ciphers) && (r in x.ciphers ==> x.ciphers[r] == x'.ciphers[r])
    && |x.prgSeeds| == |x'.prgSeeds| && (0 <= slot < |x.prgSeeds| ==> x.prgSeeds[slot] == x'.prgSeeds[slot])
  }

  lemma OtherPeerKept(x: Tables, id: nat, peers: nat, r: nat, peer: nat, k: KeyIV, sock: Socket)
    requires |x.prgSeeds| == peers && peers % 2 == 0 && Parties(id, peer, peers) && Parties(id, r, peers)
    requires peer != r
    ensures SamePeer(x, WithKeys(x, id, peer, peers, k), id, r, peers)
    ensures SamePeer(x, WithSocket(x, peer, sock), id, r, peers)
    ensures SamePeer(x, WithKeys(WithSocket(x, peer, sock), id, peer, peers, k), id, r, peers)
  {
    SlotBijection(id, peers);
  }

  lemma PeerAdded(x: Tables, id: nat, peers: nat, peer: nat, k: KeyIV, sock: Socket)
    requires |x.prgSeeds| == peers && peers % 2 == 0 && Parties(id, peer, peers)
    requires peer !in x.ciphers && (peer in x.peer2sock ==> x.peer2sock[peer] == sock)
    ensures peer in x.peer2sock ==> HasPeer(WithKeys(x, id, peer, peers, k), id, peer, peers, sock, k)
    ensures HasPeer(WithKeys(WithSocket(x, peer, sock), id, peer, peers, k), id, peer, peers, sock, k)
  {
    SlotBijection(id, peers);
  }

  lemma ConnectPair(peers: nat, draw: Draw, s: State, s': State, p: nat, d: nat, m: nat)
    requires Inv(peers, draw, s) && StepBy(peers, draw, s, s', Connect(p)) && 1 <= d < m <= peers + 1
    ensures PairOk(peers, draw, s', d, m)
  {
    hide Inv, WithSocket, HasPeer, SamePeer;
    var q := Target(s, p);
    DialedInTurn(peers, draw, s, p);
    assert PairOk(peers, draw, s, d, m) && PartyOk(peers, s, p) by { InvAt(peers, draw, s, d, m, p); }
    var x := s.parties[p].tables;
    if d == p && m != q {
      SocketKept(x, p, peers, m, q, Socket(p, q), draw(m, m - 1 - d), Socket(d, m));
    }
    if m == p {
      SocketKept(x, p, peers, d, q, Socket(p, q), draw(m, m - 1 - d), Socket(d, m));
    }
    InvAt(peers, draw, s, p, q, p);
    SocketAdded(x, q, Socket(p, q));
  }

  /** A new socket for another peer leaves the entries of `r` alone. */
  lemma SocketKept(x: Tables, id: nat, peers: nat, r: nat, peer: nat, sock: Socket, k: KeyIV, sock': Socket)
    requires |x.prgSeeds| == peers && peers % 2 == 0 && Parties(id, peer, peers) && Parties(id, r, peers)
    requires peer != r
    ensures var x' := WithSocket(x, peer, sock);
            && (r in x'.peer2sock <==> r in x.peer2sock) && (r in x.ciphers <==> r in x'.ciphers)
            && (r in x.peer2sock ==> x'.peer2sock[r] == x.peer2sock[r])
            && (HasPeer(x, id, r, peers, sock', k) ==> HasPeer(x', id, r, peers, sock', k))
            && (LacksPeer(x, r) ==> LacksPeer(x', r))
  {
    OtherPeerKept(x, id, peers, r, peer, k, sock);
  }

  lemma SocketAdded(x: Tables, peer: nat, sock: Socket)
    requires peer !in x.peer2sock
    ensures var x' := WithSocket(x, peer, sock);
            peer in x'.peer2sock && x'.peer2sock[peer] == sock && x'.ciphers == x.ciphers && x'.prgSeeds == x.prgSeeds
  {
  }

  lemma InvAt(peers: nat, draw: Draw, s: State, d: nat, m: nat, p: nat)
    requires Inv(peers, draw, s) && 1 <= d < m <= peers + 1 && 1 <= p <= peers + 1
    ensures PairOk(peers, draw, s, d, m) && PartyOk(peers, s, p) && Shaped(peers, s)
  {
  }

  lemma PartyAt(peers: nat, draw: Draw, s: State, p: nat)
    requires Inv(peers, draw, s) && 1 <= p <= peers + 1
    ensures PartyOk(peers, s, p) && Shaped(peers, s)
  {
  }

  lemma ReadKeyPair(peers: nat, draw: Draw, s: State, s': State, p: nat, d: nat, m: nat)
    requires Inv(peers, draw, s) && StepBy(peers, draw, s, s', ReadKey(p)) && 1 <= d < m <= peers + 1
    ensures PairOk(peers, draw, s', d, m)
  {
    hide Inv, WithKeys, HasPeer, SamePeer;
    var q := Target(s, p);
    InvAt(peers, draw, s, d, m, p);
    InvAt(peers, draw, s, p, q, p);
    var x := s.parties[p].tables;
    if d == p && m != q {
      KeysKept(x, p, peers, m, q, s.wire[Socket(p, q)], draw(m, m - 1 - d), Socket(d, m));
    }
    if m == p {
      KeysKept(x, p, peers, d, q, s.wire[Socket(p, q)], draw(m, m - 1 - d), Socket(d, m));
    }
    PeerAdded(x, p, peers, q, s.wire[Socket(p, q)], Socket(p, q));
  }

  /** Key material for another peer leaves the entries of `r` alone. */
  lemma KeysKept(x: Tables, id: nat, peers: nat, r: nat, peer: nat, k: KeyIV, k': KeyIV, sock: Socket)
    requires |x.prgSeeds| == peers && peers % 2 == 0 && Parties(id, peer, peers) && Parties(id, r, peers)
    requires peer != r
    ensures var x' := WithKeys(x, id, peer, peers, k);
            && x'.peer2sock == x.peer2sock && (r in x'.ciphers <==> r in x.ciphers)
            && (HasPeer(x, id, r, peers, sock, k') ==> HasPeer(x', id, r, peers, sock, k'))
            && (LacksPeer(x, r) ==> LacksPeer(x', r))
  {
    OtherPeerKept(x, id, peers, r, peer, k, sock);
  }

  lemma ListenPair(peers: nat, draw: Draw, s: State, s': State, p: nat, d: nat, m: nat)
    requires Inv(peers, draw, s) && StepBy(peers, draw, s, s', Listen(p)) && 1 <= d < m <= peers + 1
    ensures PairOk(peers, draw, s', d, m)
  {
    hide Inv, HasPeer;
    InvAt(peers, draw, s, d, m, p);
  }

  lemma AcceptPair(peers: nat, draw: Draw, s: State, s': State, p: nat, d: nat, m: nat)
    requires Inv(peers, draw, s) && StepBy(peers, draw, s, s', Accept(p)) && 1 <= d < m <= peers + 1
    ensures PairOk(peers, draw, s', d, m)
  {
    hide Inv, WithKeys, WithSocket, HasPeer, SamePeer;
    var x := s.parties[p];
    InvAt(peers, draw, s, d, m, p);
    var q := x.backlog[0];
    InvAt(peers, draw, s, q, p, p);
    if m == p && d != q {
      BothKept(x.tables, p, peers, d, q, draw(p, x.accepted), draw(m, m - 1 - d), Socket(q, p), Socket(d, m));
    }
    if d == p {
      BothKept(x.tables, p, peers, m, q, draw(p, x.accepted), draw(m, m - 1 - d), Socket(q, p), Socket(d, m));
    }
    PeerAdded(x.tables, p, peers, q, draw(p, x.accepted), Socket(q, p));
  }

  /** A whole new peer leaves the entries of `r` alone. */
  lemma BothKept(x: Tables, id: nat, peers: nat, r: nat, peer: nat, k: KeyIV, k': KeyIV, sock: Socket, sock': Socket)
    requires |x.prgSeeds| == peers && peers % 2 == 0 && Parties(id, peer, peers) && Parties(id, r, peers)
    requires peer != r
    ensures var x' := WithKeys(WithSocket(x, peer, sock), id, peer, peers, k);
            && (r in x'.peer2sock <==> r in x.peer2sock) && (r in x.ciphers <==> r in x'.ciphers)
            && (r in x.peer2sock ==> x'.peer2sock[r] == x.peer2sock[r])
            && (HasPeer(x, id, r, peers, sock', k') ==> HasPeer(x', id, r, peers, sock', k'))
            && (LacksPeer(x, r) ==> LacksPeer(x', r))
  {
    OtherPeerKept(x, id, peers, r, peer, k, sock);
  }

  lemma StepParty(peers: nat, draw: Draw, s: State, s': State, e: Event, m: nat)
    requires Inv(peers, draw, s) && StepBy(peers, draw, s, s', e) && 1 <= m <= peers + 1
    ensures PartyOk(peers, s', m)
  {
    hide Inv, WithKeys, WithSocket, HasPeer;
    PartyAt(peers, draw, s, m);
    PartyAt(peers, draw, s, e.p);
    var y := s.parties[m];
    if e.Connect? {
      DialedInTurn(peers, draw, s, e.p);
    }
  }

  lemma StepInv(peers: nat, draw: Draw, s: State, s': State, e: Event)
    requires Inv(peers, draw, s) && StepBy(peers, draw, s, s', e)
    ensures Inv(peers, draw, s')
  {
    hide PairOk, PartyOk, WithKeys, WithSocket;
    StepShape(peers, draw, s, s', e);
    forall m: nat | 1 <= m <= peers + 1 ensures PartyOk(peers, s', m) {
      StepParty(peers, draw, s, s', e, m);
    }
    forall d: nat, m: nat | 1 <= d < m <= peers + 1 ensures PairOk(peers, draw, s', d, m) {
      match e
      case Connect(p) => ConnectPair(peers, draw, s, s', p, d, m);
      case ReadKey(p) => ReadKeyPair(peers, draw, s, s', p, d, m);
      case Listen(p) => ListenPair(peers, draw, s, s', p, d, m);
      case Accept(p) => AcceptPair(peers, draw, s, s', p, d, m);
    }
  }

  lemma StepShape(peers: nat, draw: Draw, s: State, s': State, e: Event)
    requires StepBy(peers, draw, s, s', e)
    ensures Shaped(peers, s')
  {
  }

  lemma {:induction false} ReachableInv(peers: nat, draw: Draw, s: State, steps: nat)
    requires Reachable(peers, draw, s, steps)
    ensures Inv(peers, draw, s)
    decreases steps
  {
    hide Inv, StepBy;
    if steps == 0 {
      InitInv(peers, draw);
    } else {
      var s0, e :| Reachable(peers, draw, s0, steps - 1) && StepBy(peers, draw, s0, s, e);
      ReachableInv(peers, draw, s0, steps - 1);
      StepInv(peers, draw, s0, s, e);
    }
  }

  // ----- labels and keys are right in every interleaving

  /** Whatever label an accepted connection got, it leads to the party of that number: the k-th
      connection that `m` accepts, from 0, is the one dialed by `m - (k + 1)`. */
  lemma LabelsRight(peers: nat, draw: Draw, s: State, steps: nat, m: nat, k: nat)
    requires Reachable(peers, draw, s, steps) && 1 <= m <= peers + 1 && k < s.parties[m].accepted
    ensures var peer := m - (k + 1);
            && 1 <= peer && peer in s.parties[m].tables.peer2sock
            && s.parties[m].tables.peer2sock[peer] == Socket(peer, m)
            && m in s.parties[peer].tables.peer2sock && s.parties[peer].tables.peer2sock[m] == Socket(peer, m)
  {
    hide Reachable, Inv, PrgSlot;
    ReachableInv(peers, draw, s, steps);
    PartyAt(peers, draw, s, m);
    InvAt(peers, draw, s, m - (k + 1), m, m);
  }

  predicate Done(peers: nat, s: State) {
    Shaped(peers, s) && forall p: nat | 1 <= p <= peers + 1 ::
      s.parties[p].dialed == peers + 1 - p && s.parties[p].accepted == p - 1
  }

  /** At the end every party has a socket to every other, both ends agree on the connection and on
      the cipher, and the pairwise seeds sit in mirrored slots. */
  lemma TablesAgree(peers: nat, draw: Draw, s: State, steps: nat, p: nat, q: nat)
    requires Reachable(peers, draw, s, steps) && Done(peers, s) && 1 <= p < q <= peers + 1
    ensures var x, y := s.parties[p].tables, s.parties[q].tables;
            && q in x.peer2sock && p in y.peer2sock && x.peer2sock[q] == y.peer2sock[p] == Socket(p, q)
            && q in x.ciphers && p in y.ciphers && x.ciphers[q] == y.ciphers[p]
            && 0 <= PrgSlot(p, q, peers) < |x.prgSeeds| == peers == |y.prgSeeds|
            && y.prgSeeds[peers - 1 - PrgSlot(p, q, peers)] == x.prgSeeds[PrgSlot(p, q, peers)]
    ensures var m := draw(q, q - 1 - p);
            && s.parties[p].tables.ciphers[q] == CipherContext(m[..16], m[16..32])
            && s.parties[p].tables.prgSeeds[PrgSlot(p, q, peers)] == m[32..48]
  {
    hide Reachable, Inv, PrgSlot;
    ReachableInv(peers, draw, s, steps);
    InvAt(peers, draw, s, p, q, p);
    SlotsMirror(p, q, peers);
    SlotBijection(p, peers);
  }

  // ----- some step is always possible, and every run ends

  ghost predicate CanMove(peers: nat, s: State)
    requires Shaped(peers, s)
  {
    exists e :: Enabled(peers, s, e)
  }

  /** A party whose higher parties all listen is never blocked before it has dialed them all. */
  lemma DialerMoves(peers: nat, draw: Draw, s: State, p: nat)
    requires Inv(peers, draw, s) && 1 <= p <= peers + 1 < |s.parties| && Target(s, p) <= peers + 1
    requires forall m: nat | p < m <= peers + 1 :: s.parties[m].listening
    ensures CanMove(peers, s)
  {
    hide Inv, HasPeer;
    var m := Target(s, p);
    InvAt(peers, draw, s, p, m, p);
    InvAt(peers, draw, s, p, m, m);
    if !s.parties[p].waiting {
      assert Enabled(peers, s, Connect(p));
    } else if Socket(p, m) in s.wire {
      assert Enabled(peers, s, ReadKey(p));
    } else {
      assert Enabled(peers, s, Accept(m));
    }
  }

  /** Looks down from the highest party for one that can move. */
  lemma {:induction false} MoverFrom(peers: nat, draw: Draw, s: State, p: nat)
    requires Inv(peers, draw, s) && p <= peers + 1 < |s.parties|
    requires forall m: nat | p < m <= peers + 1 :: s.parties[m].listening
    ensures CanMove(peers, s)
         || forall m: nat | 1 <= m <= peers + 1 :: Target(s, m) == peers + 2
  {
    hide Inv;
    if p > 0 {
      PartyAt(peers, draw, s, p);
      if Target(s, p) <= peers + 1 {
        DialerMoves(peers, draw, s, p);
      } else if s.parties[p].listening {
        MoverFrom(peers, draw, s, p - 1);
      } else if p != 1 {
        assert Enabled(peers, s, Listen(p));
      } else {
        assert forall m: nat | 1 < m <= peers + 1 :: Target(s, m) == peers + 2 by {
          AllListen(peers, draw, s);
        }
      }
    } else {
      AllListen(peers, draw, s);
    }
  }

  lemma AllListen(peers: nat, draw: Draw, s: State)
    requires Inv(peers, draw, s)
    ensures forall m: nat | 1 <= m <= peers + 1 && s.parties[m].listening :: Target(s, m) == peers + 2
  {
    forall m: nat | 1 <= m <= peers + 1 && s.parties[m].listening ensures Target(s, m) == peers + 2 {
      assert PartyOk(peers, s, m);
    }
  }

  /** When all requests are finished, all connections have been accepted. */
  lemma AllDialedAllAccepted(peers: nat, draw: Draw, s: State)
    requires Inv(peers, draw, s)
    requires forall m: nat | 1 <= m <= peers + 1 :: Target(s, m) == peers + 2
    ensures Done(peers, s)
  {
    forall m: nat | 1 <= m <= peers + 1
      ensures s.parties[m].dialed == peers + 1 - m && s.parties[m].accepted == m - 1
    {
      assert PartyOk(peers, s, m);
      if m > 1 {
        assert PairOk(peers, draw, s, 1, m);
        assert Target(s, 1) == peers + 2;
      }
    }
  }

  lemma NeverBlocked(peers: nat, draw: Draw, s: State, steps: nat)
    requires Reachable(peers, draw, s, steps) && !Done(peers, s)
    ensures Shaped(peers, s) && CanMove(peers, s)
  {
    hide Reachable, Enabled;
    ReachableInv(peers, draw, s, steps);
    MoverFrom(peers, draw, s, peers + 1);
    if !CanMove(peers, s) {
      AllDialedAllAccepted(peers, draw, s);
      assert false;
    }
  }

  function TotalWork(parties: seq<Party>): nat {
    if parties == [] then 0 else TotalWork(parties[..|parties| - 1]) + Work(parties[|parties| - 1])
  }

  lemma {:induction false} WorkUpdated(parties: seq<Party>, p: nat, x: Party)
    requires p < |parties|
    ensures TotalWork(parties[p := x]) == TotalWork(parties) - Work(parties[p]) + Work(x)
  {
    var i := |parties| - 1;
    if p < i {
      WorkUpdated(parties[..i], p, x);
      assert parties[p := x][..i] == parties[..i][p := x];
    } else {
      assert parties[p := x][..i] == parties[..i];
    }
  }

  lemma StepWork(peers: nat, draw: Draw, s: State, s': State, e: Event)
    requires StepBy(peers, draw, s, s', e)
    ensures TotalWork(s'.parties) == TotalWork(s.parties) + 1
  {
    hide TotalWork, WithKeys, WithSocket;
    var p := e.p;
    WorkUpdated(s.parties, p, s'.parties[p]);
    if e.Connect? {
      WorkUpdated(s.parties[p := s'.parties[p]], Target(s, p), s'.parties[Target(s, p)]);
    }
  }

  lemma {:induction false} IdleWork(parties: seq<Party>)
    requires forall p | 0 <= p < |parties| :: Work(parties[p]) == 0
    ensures TotalWork(parties) == 0
  {
    if parties != [] {
      IdleWork(parties[..|parties| - 1]);
    }
  }

  lemma {:induction false} ReachableWork(peers: nat, draw: Draw, s: State, steps: nat)
    requires Reachable(peers, draw, s, steps)
    ensures TotalWork(s.parties) == steps
    decreases steps
  {
    hide StepBy, TotalWork;
    if steps == 0 {
      IdleWork(s.parties);
    } else {
      var s0, e :| Reachable(peers, draw, s0, steps - 1) && StepBy(peers, draw, s0, s, e);
      ReachableWork(peers, draw, s0, steps - 1);
      StepWork(peers, draw, s0, s, e);
    }
  }

  /** A dial and a key for each higher party, an accept for each lower one, and one listen. */
  function PartyBound(peers: nat, p: nat): nat
    requires p <= peers + 1
  {
    if p == 0 then 0 else 2 * (peers + 1 - p) + (p - 1) + if p == 1 then 0 else 1
  }

  function WorkBound(peers: nat, count: nat): nat
    requires count <= peers + 2
  {
    if count == 0 then 0 else WorkBound(peers, count - 1) + PartyBound(peers, count - 1)
  }

  lemma {:induction false} WorkBounded(peers: nat, draw: Draw, s: State, count: nat)
    requires Inv(peers, draw, s) && count <= peers + 2 == |s.parties|
    ensures TotalWork(s.parties[..count]) <= WorkBound(peers, count)
    ensures TotalWork(s.parties[..count]) == WorkBound(peers, count) ==>
              forall p: nat | 1 <= p < count :: Work(s.parties[p]) == PartyBound(peers, p)
    decreases count
  {
    hide Inv;
    if count > 0 {
      WorkBounded(peers, draw, s, count - 1);
      assert s.parties[..count][..count - 1] == s.parties[..count - 1];
      if count > 1 {
        PartyWork(peers, draw, s, count - 1);
      } else {
        NobodyWorks(peers, draw, s);
      }
    }
  }

  lemma PartyWork(peers: nat, draw: Draw, s: State, p: nat)
    requires Inv(peers, draw, s) && 1 <= p <= peers + 1 < |s.parties|
    ensures Work(s.parties[p]) <= PartyBound(peers, p)
  {
    assert PartyOk(peers, s, p);
  }

  lemma NobodyWorks(peers: nat, draw: Draw, s: State)
    requires Inv(peers, draw, s)
    ensures Work(s.parties[0]) == 0
  {
  }

  /** Three steps a connection and one listen for each party that accepts. */
  lemma {:induction false} BoundClosedForm(peers: nat, count: nat)
    requires 2 <= count <= peers + 2
    ensures 2 * WorkBound(peers, count) == (count - 1) * (4 * peers + 4 - count) - 2
  {
    if count == 2 {
      assert WorkBound(peers, 2) == WorkBound(peers, 1) + PartyBound(peers, 1);
      assert WorkBound(peers, 1) == 0;
    } else {
      BoundClosedForm(peers, count - 1);
      var a, b := count - 2, 4 * peers + 5 - count;
      assert (a + 1) * (b - 1) == a * b - a + b - 1;
    }
  }

  /** Every interleaving of the start-up ends after at most three steps a connection and one listen
      for each party but the first, and until every party has all its connections and keys some
      step is possible. */
  lemma EveryRunConnects(peers: nat, draw: Draw, s: State, steps: nat)
    requires Reachable(peers, draw, s, steps)
    ensures Shaped(peers, s)
    ensures 2 * steps <= 3 * (peers * (peers + 1)) + 2 * peers
    ensures Done(peers, s) || CanMove(peers, s)
    ensures 2 * steps == 3 * (peers * (peers + 1)) + 2 * peers ==> Done(peers, s)
  {
    hide Reachable, Inv, Enabled, Done;
    ReachableInv(peers, draw, s, steps);
    ReachableWork(peers, draw, s, steps);
    assert Shaped(peers, s) by { PartyAt(peers, draw, s, 1); }
    WorkBounded(peers, draw, s, peers + 2);
    assert s.parties[..peers + 2] == s.parties;
    BoundClosedForm(peers, peers + 2);
    BoundExpanded(peers);
    if !Done(peers, s) {
      NeverBlocked(peers, draw, s, steps);
      if 2 * steps == 3 * (peers * (peers + 1)) + 2 * peers {
        FullWorkDone(peers, draw, s);
      }
    }
  }

  lemma BoundExpanded(peers: nat)
    ensures (peers + 1) * (3 * peers + 2) - 2 == 3 * (peers * (peers + 1)) + 2 * peers
  {
  }

  lemma FullWorkDone(peers: nat, draw: Draw, s: State)
    requires Inv(peers, draw, s)
    requires forall p: nat | 1 <= p < peers + 2 :: Work(s.parties[p]) == PartyBound(peers, p)
    ensures Done(peers, s)
  {
    forall p: nat | 1 <= p <= peers + 1
      ensures s.parties[p].dialed == peers + 1 - p && s.parties[p].accepted == p - 1
    {
      assert PartyOk(peers, s, p);
    }
  }

  /** Every run of the start-up can be continued until everybody is connected. */
  lemma {:induction false} EveryRunExtends(peers: nat, draw: Draw, s: State, steps: nat)
    returns (end: State, total: nat)
    requires Reachable(peers, draw, s, steps)
    ensures Reachable(peers, draw, end, total) && Done(peers, end)
    decreases 3 * (peers * (peers + 1)) + 2 * peers - 2 * steps
  {
    hide Reachable, Done, Enabled, Next;
    EveryRunConnects(peers, draw, s, steps);
    if Done(peers, s) {
      end, total := s, steps;
    } else {
      var e :| Enabled(peers, s, e);
      RunGoesOn(peers, draw, s, Next(peers, draw, s, e), e, steps);
      EveryRunConnects(peers, draw, Next(peers, draw, s, e), steps + 1);
      end, total := EveryRunExtends(peers, draw, Next(peers, draw, s, e), steps + 1);
    }
  }

  lemma RunGoesOn(peers: nat, draw: Draw, s: State, s': State, e: Event, steps: nat)
    requires Reachable(peers, draw, s, steps) && StepBy(peers, draw, s, s', e)
    ensures Reachable(peers, draw, s', steps + 1)
  {
  }
}
