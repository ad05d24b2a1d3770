/**
 The tables in the states of the start-up are those that the code of `connectToPeers` computes, given
 the connections it opens or takes and the key material it reads or draws.
 */
module StartupTables {
  import opened NodeTables
  import opened Startup

  function DialedSockets(p: nat, d: nat): (r: seq<Socket>)
    ensures |r| == d
  {
    seq(d, i requires 0 <= i < d => Socket(p, p + i + 1))
  }

  function ReadKeys(draw: Draw, p: nat, d: nat): (r: seq<KeyIV>)
    ensures |r| == d
  {
    seq(d, i requires 0 <= i < d => draw(p + i + 1, i))
  }

  function AcceptedSockets(p: nat, k: nat): (r: seq<Socket>)
    requires k <= p
    ensures |r| == k
  {
    seq(k, i requires 0 <= i < k => Socket(p - (i + 1), p))
  }

  function DrawnKeys(draw: Draw, p: nat, k: nat): (r: seq<KeyIV>)
    ensures |r| == k
  {
    seq(k, i requires 0 <= i < k => draw(p, i))
  }

  function Requested(peers: nat, draw: Draw, p: nat, d: nat): (r: Tables)
    requires peers % 2 == 0 && 1 <= p && p + d <= peers + 1
    ensures |r.prgSeeds| == peers
  {
    AfterRequests(EmptyTables(peers), p, peers, DialedSockets(p, d), ReadKeys(draw, p, d))
  }

  function Accepted(peers: nat, draw: Draw, p: nat, x: Tables, k: nat): (r: Tables)
    requires peers % 2 == 0 && |x.prgSeeds| == peers && k < p <= peers + 1
    ensures |r.prgSeeds| == peers
  {
    AfterAccepts(x, p, peers, AcceptedSockets(p, k), DrawnKeys(draw, p, k))
  }

  predicate InCode(peers: nat, p: nat, x: Party) {
    peers % 2 == 0 && 1 <= p && p + x.dialed <= peers + 1 && x.accepted < p
  }

  /** The tables at the point of the code that a party has reached. */
  function Coded(peers: nat, draw: Draw, p: nat, x: Party): Tables
    requires InCode(peers, p, x)
  {
    var requested := Requested(peers, draw, p, x.dialed);
    if x.waiting then WithSocket(requested, p + x.dialed + 1, Socket(p, p + x.dialed + 1))
    else Accepted(peers, draw, p, requested, x.accepted)
  }

  ghost predicate TablesCoded(peers: nat, draw: Draw, s: State, p: nat)
    requires p < |s.parties|
  {
    InCode(peers, p, s.parties[p]) && s.parties[p].tables == Coded(peers, draw, p, s.parties[p])
  }

  lemma RequestedNext(peers: nat, draw: Draw, p: nat, d: nat)
    requires peers % 2 == 0 && 1 <= p && p + d + 1 <= peers + 1
    ensures Requested(peers, draw, p, d + 1) ==
              WithKeys(WithSocket(Requested(peers, draw, p, d), p + d + 1, Socket(p, p + d + 1)),
                       p, p + d + 1, peers, draw(p + d + 1, d))
  {
    hide WithKeys, WithSocket, EmptyTables;
    assert DialedSockets(p, d + 1)[..d] == DialedSockets(p, d);
    assert ReadKeys(draw, p, d + 1)[..d] == ReadKeys(draw, p, d);
  }

  lemma AcceptedNext(peers: nat, draw: Draw, p: nat, x: Tables, k: nat)
    requires peers % 2 == 0 && |x.prgSeeds| == peers && k + 1 < p <= peers + 1
    ensures Accepted(peers, draw, p, x, k + 1) ==
              WithKeys(WithSocket(Accepted(peers, draw, p, x, k), p - (k + 1), Socket(p - (k + 1), p)),
                       p, p - (k + 1), peers, draw(p, k))
  {
    hide WithKeys, WithSocket;
    assert AcceptedSockets(p, k + 1)[..k] == AcceptedSockets(p, k);
    assert DrawnKeys(draw, p, k + 1)[..k] == DrawnKeys(draw, p, k);
  }

  lemma NothingAccepted(peers: nat, draw: Draw, p: nat, x: Tables)
    requires peers % 2 == 0 && |x.prgSeeds| == peers && 0 < p <= peers + 1
    ensures Accepted(peers, draw, p, x, 0) == x
  {
  }

  lemma MoverCoded(peers: nat, draw: Draw, s: State, s': State, e: Event)
    requires Inv(peers, draw, s) && StepBy(peers, draw, s, s', e) && e.p < |s.parties|
    requires TablesCoded(peers, draw, s, e.p)
    ensures e.p < |s'.parties| && TablesCoded(peers, draw, s', e.p)
  {
    hide Inv, WithKeys, WithSocket, Requested, Accepted, HasPeer;
    var x := s.parties[e.p];
    PartyAt(peers, draw, s, e.p);
    NothingAccepted(peers, draw, e.p, Requested(peers, draw, e.p, x.dialed));
    match e
    case Connect(p) =>
    case ReadKey(p) =>
      InvAt(peers, draw, s, p, Target(s, p), p);
      RequestedNext(peers, draw, p, x.dialed);
      NothingAccepted(peers, draw, p, Requested(peers, draw, p, x.dialed + 1));
    case Listen(p) =>
    case Accept(p) =>
      AcceptedNext(peers, draw, p, Requested(peers, draw, p, x.dialed), x.accepted);
  }

  lemma {:induction false} AllCoded(peers: nat, draw: Draw, s: State, steps: nat)
    requires Reachable(peers, draw, s, steps)
    ensures |s.parties| == peers + 2
    ensures forall p: nat | 1 <= p <= peers + 1 :: TablesCoded(peers, draw, s, p)
    decreases steps
  {
    hide Inv, TablesCoded, StepBy;
    if steps == 0 {
      forall p: nat | 1 <= p <= peers + 1 ensures TablesCoded(peers, draw, s, p) {
        StartCoded(peers, draw, p);
      }
    } else {
      var s0, e :| Reachable(peers, draw, s0, steps - 1) && StepBy(peers, draw, s0, s, e);
      AllCoded(peers, draw, s0, steps - 1);
      ReachableInv(peers, draw, s0, steps - 1);
      StepCoded(peers, draw, s0, s, e);
    }
  }

  lemma StartCoded(peers: nat, draw: Draw, p: nat)
    requires peers % 2 == 0 && 1 <= p <= peers + 1
    ensures TablesCoded(peers, draw, Init(peers), p)
  {
  }

  lemma StepCoded(peers: nat, draw: Draw, s: State, s': State, e: Event)
    requires Inv(peers, draw, s) && StepBy(peers, draw, s, s', e) && |s.parties| == peers + 2
    requires forall p: nat | 1 <= p <= peers + 1 :: TablesCoded(peers, draw, s, p)
    ensures |s'.parties| == peers + 2
    ensures forall p: nat | 1 <= p <= peers + 1 :: TablesCoded(peers, draw, s', p)
  {
    hide Inv, Coded, WithKeys, WithSocket;
    assert 1 <= e.p <= peers + 1;
    assert TablesCoded(peers, draw, s, e.p);
    MoverCoded(peers, draw, s, s', e);
    forall p: nat | 1 <= p <= peers + 1 ensures TablesCoded(peers, draw, s', p) {
      assert TablesCoded(peers, draw, s, p);
      if p != e.p {
        OtherCoded(peers, draw, s, s', e, p);
      }
    }
  }

  /** A step changes no more than the backlog of another party. */
  lemma OtherCoded(peers: nat, draw: Draw, s: State, s': State, e: Event, p: nat)
    requires StepBy(peers, draw, s, s', e) && p != e.p && p < |s.parties| && TablesCoded(peers, draw, s, p)
    ensures p < |s'.parties| && TablesCoded(peers, draw, s', p)
  {
    hide WithKeys, WithSocket, Requested, Accepted;
  }

  // ----- the order of events

  /** What an event is to the party that takes the step. */
  function OperationOf(draw: Draw, s: State, e: Event): Operation
    requires e.p < |s.parties| && s.parties[e.p].accepted < e.p
  {
    match e
    case Connect(p) => Dial(Target(s, p))
    case ReadKey(p) => Read(Target(s, p))
    case Listen(_) => Bind
    case Accept(p) => Take(p - (s.parties[p].accepted + 1), draw(p, s.parties[p].accepted))
  }

  /** The three parts of the list. */
  lemma ListEntries(peers: nat, id: nat, random: seq<KeyIV>, d: nat, k: nat)
    requires 1 <= id <= peers + 1 && |random| == id - 1
    ensures var ops, m := ConnectOperations(id, peers, random), peers + 1 - id;
            && |ops| == PartyBound(peers, id)
            && (d < m ==> ops[2 * d] == Dial(id + d + 1) && ops[2 * d + 1] == Read(id + d + 1))
            && (id > 1 ==> ops[2 * m] == Bind)
            && (k < id - 1 ==> ops[2 * m + 1 + k] == Take(id - (k + 1), random[k]))
  {
  }

  lemma WorkDone(peers: nat, draw: Draw, s: State, e: Event)
    requires Inv(peers, draw, s) && Shaped(peers, s) && Enabled(peers, s, e)
    ensures Work(Next(peers, draw, s, e).parties[e.p]) == Work(s.parties[e.p]) + 1
  {
    hide Inv, WithKeys, WithSocket;
    PartyAt(peers, draw, s, e.p);
  }

  /** Whatever a party can do next is the next entry of the list that its own code works off. */
  lemma EventsInOrder(peers: nat, draw: Draw, s: State, steps: nat, e: Event)
    requires Reachable(peers, draw, s, steps)
    ensures Shaped(peers, s)
    ensures Enabled(peers, s, e) ==>
              var ops := ConnectOperations(e.p, peers, DrawnKeys(draw, e.p, e.p - 1));
              && s.parties[e.p].accepted < e.p && Work(s.parties[e.p]) < |ops|
              && OperationOf(draw, s, e) == ops[Work(s.parties[e.p])]
              && Work(Next(peers, draw, s, e).parties[e.p]) == Work(s.parties[e.p]) + 1
  {
    hide Reachable, Inv, Next, ConnectOperations;
    ReachableInv(peers, draw, s, steps);
    assert Shaped(peers, s) by { PartyAt(peers, draw, s, 1); }
    if Enabled(peers, s, e) {
      PartyAt(peers, draw, s, e.p);
      WorkDone(peers, draw, s, e);
      var x := s.parties[e.p];
      ListEntries(peers, e.p, DrawnKeys(draw, e.p, e.p - 1), x.dialed, x.accepted);
    }
  }

  /** At the end every party has worked off its whole list. */
  lemma ListsWorkedOff(peers: nat, draw: Draw, s: State, steps: nat, p: nat)
    requires Reachable(peers, draw, s, steps) && Done(peers, s) && 1 <= p <= peers + 1
    ensures Work(s.parties[p]) == |ConnectOperations(p, peers, DrawnKeys(draw, p, p - 1))|
  {
    hide Reachable, Inv;
    ReachableInv(peers, draw, s, steps);
    PartyAt(peers, draw, s, p);
    if p > 1 {
      InvAt(peers, draw, s, 1, p, 1);
      PartyAt(peers, draw, s, 1);
    }
  }

  // ----- the two socket tables

  /** Peers and sockets are filed one to one. */
  ghost predicate SocketsInverse(x: Tables) {
    && (forall q | q in x.peer2sock :: x.peer2sock[q] in x.sock2peer && x.sock2peer[x.peer2sock[q]] == q)
    && (forall sock | sock in x.sock2peer ::
          x.sock2peer[sock] in x.peer2sock && x.peer2sock[x.sock2peer[sock]] == sock)
  }

  lemma SocketFiled(x: Tables, peer: nat, sock: Socket)
    requires SocketsInverse(x) && peer !in x.peer2sock && sock !in x.sock2peer
    ensures SocketsInverse(WithSocket(x, peer, sock))
    ensures WithSocket(x, peer, sock).peer2sock.Keys == x.peer2sock.Keys + {peer}
    ensures WithSocket(x, peer, sock).sock2peer.Keys == x.sock2peer.Keys + {sock}
  {
  }

  /** The tables of `p` name the parties from `lo` to `hi`, each by its own connection. */
  ghost predicate Named(x: Tables, p: nat, lo: nat, hi: nat) {
    && SocketsInverse(x)
    && (forall q :: q in x.peer2sock <==> lo <= q <= hi && q != p)
    && (forall sock | sock in x.sock2peer ::
          (sock.dialer == p < sock.acceptor <= hi) || (sock.acceptor == p && lo <= sock.dialer < p))
  }

  lemma NamedAbove(x: Tables, p: nat, lo: nat, hi: nat, peers: nat, k: KeyIV)
    requires Named(x, p, lo, hi) && lo <= p <= hi && |x.prgSeeds| == peers && peers % 2 == 0
    requires Parties(p, hi + 1, peers)
    ensures Named(WithKeys(WithSocket(x, hi + 1, Socket(p, hi + 1)), p, hi + 1, peers, k), p, lo, hi + 1)
  {
    hide SocketsInverse;
    var y := WithSocket(x, hi + 1, Socket(p, hi + 1));
    SocketFiled(x, hi + 1, Socket(p, hi + 1));
    assert |y.prgSeeds| == peers;
    hide WithSocket;
    assert forall q :: q in y.peer2sock <==> q in x.peer2sock || q == hi + 1;
    assert forall sock :: sock in y.sock2peer <==> sock in x.sock2peer || sock == Socket(p, hi + 1);
    InverseKept(y, WithKeys(y, p, hi + 1, peers, k));
  }

  lemma NamedBelow(x: Tables, p: nat, lo: nat, hi: nat, peers: nat, k: KeyIV)
    requires Named(x, p, lo, hi) && 1 < lo <= p <= hi && |x.prgSeeds| == peers && peers % 2 == 0
    requires Parties(p, lo - 1, peers)
    ensures Named(WithKeys(WithSocket(x, lo - 1, Socket(lo - 1, p)), p, lo - 1, peers, k), p, lo - 1, hi)
  {
    hide SocketsInverse;
    var y := WithSocket(x, lo - 1, Socket(lo - 1, p));
    SocketFiled(x, lo - 1, Socket(lo - 1, p));
    assert |y.prgSeeds| == peers;
    hide WithSocket;
    assert forall q :: q in y.peer2sock <==> q in x.peer2sock || q == lo - 1;
    assert forall sock :: sock in y.sock2peer <==> sock in x.sock2peer || sock == Socket(lo - 1, p);
    InverseKept(y, WithKeys(y, p, lo - 1, peers, k));
  }

  lemma InverseKept(x: Tables, y: Tables)
    requires SocketsInverse(x) && x.peer2sock == y.peer2sock && x.sock2peer == y.sock2peer
    ensures SocketsInverse(y)
  {
  }

  lemma {:induction false} RequestedNamed(peers: nat, draw: Draw, p: nat, d: nat)
    requires peers % 2 == 0 && 1 <= p && p + d <= peers + 1
    ensures Named(Requested(peers, draw, p, d), p, p, p + d)
    decreases d
  {
    hide WithKeys, WithSocket, Named, Requested;
    if d == 0 {
      NothingRequested(peers, draw, p);
    } else {
      RequestedNamed(peers, draw, p, d - 1);
      RequestedNext(peers, draw, p, d - 1);
      NamedAbove(Requested(peers, draw, p, d - 1), p, p, p + d - 1, peers, draw(p + d, d - 1));
    }
  }

  lemma NothingRequested(peers: nat, draw: Draw, p: nat)
    requires peers % 2 == 0 && 1 <= p <= peers + 1
    ensures Named(Requested(peers, draw, p, 0), p, p, p)
  {
  }

  lemma {:induction false} AcceptedNamed(peers: nat, draw: Draw, p: nat, x: Tables, k: nat)
    requires peers % 2 == 0 && |x.prgSeeds| == peers && k < p <= peers + 1 && Named(x, p, p, peers + 1)
    ensures Named(Accepted(peers, draw, p, x, k), p, p - k, peers + 1)
    decreases k
  {
    hide WithKeys, WithSocket, Named, Accepted;
    if k == 0 {
      NothingAccepted(peers, draw, p, x);
    } else {
      AcceptedNamed(peers, draw, p, x, k - 1);
      AcceptedNext(peers, draw, p, x, k - 1);
      NamedBelow(Accepted(peers, draw, p, x, k - 1), p, p - (k - 1), peers + 1, peers, draw(p, k - 1));
    }
  }

  /** In a completed start-up both socket tables of every party name all other parties, and each is
      the inverse of the other. */
  lemma SocketTablesInverse(peers: nat, draw: Draw, s: State, steps: nat, p: nat)
    requires Reachable(peers, draw, s, steps) && Done(peers, s) && 1 <= p <= peers + 1
    ensures SocketsInverse(s.parties[p].tables)
    ensures forall q: nat :: q in s.parties[p].tables.peer2sock <==> Parties(p, q, peers)
  {
    hide Reachable, AfterRequests, AfterAccepts, EmptyTables, DialedSockets, ReadKeys, AcceptedSockets, DrawnKeys;
    RunMatchesCode(peers, draw, s, steps, p);
    RequestedNamed(peers, draw, p, peers + 1 - p);
    AcceptedNamed(peers, draw, p, Requested(peers, draw, p, peers + 1 - p), p - 1);
    hide SocketsInverse;
  }

  /** In a completed start-up every party has the tables that its own code leaves behind when the
      i-th dial reaches the i-th higher party, the i-th accept takes the i-th lower one, and both
      ends of a connection use what the accepting side drew. */
  lemma RunMatchesCode(peers: nat, draw: Draw, s: State, steps: nat, p: nat)
    requires Reachable(peers, draw, s, steps) && Done(peers, s) && 1 <= p <= peers + 1
    ensures s.parties[p].tables
         == AfterAccepts(
              AfterRequests(EmptyTables(peers), p, peers, DialedSockets(p, peers + 1 - p),
                            ReadKeys(draw, p, peers + 1 - p)),
              p, peers, AcceptedSockets(p, p - 1), DrawnKeys(draw, p, p - 1))
  {
    hide Reachable, Inv;
    AllCoded(peers, draw, s, steps);
    ReachableInv(peers, draw, s, steps);
    PartyAt(peers, draw, s, p);
    assert TablesCoded(peers, draw, s, p);
    hide AfterRequests, AfterAccepts, EmptyTables, DialedSockets, ReadKeys, AcceptedSockets, DrawnKeys;
  }
}
