/**
 All threads of all parties. Each party has one manager for all its threads and one socket per peer
 that the threads share, so the messages of different threads follow each other in one channel.
 */
module ThreadedManager {
  import opened AllToAll
  import opened ThreadLane

  /** `threads[t][p]` is what party `p` keeps for thread `t`; `chan[(p, q)]` holds what `p` sent and
      the manager of `q` has not taken, each message with its thread number. */
  datatype Net<B> = Net(threads: seq<seq<Party<B>>>, chan: map<(nat, nat), seq<(nat, Message<B>)>>)

  function Wire<B>(net: Net<B>, p: nat, q: nat): seq<(nat, Message<B>)> {
    if (p, q) in net.chan then net.chan[(p, q)] else []
  }

  /** The same parties in every thread; each thread has its own calls. */
  predicate ValidSetups<B>(n: nat, xs: seq<Setup<B>>) {
    forall t | 0 <= t < |xs| :: xs[t].n == n && ValidSetup(xs[t])
  }

  predicate Shaped<B>(n: nat, xs: seq<Setup<B>>, net: Net<B>) {
    && ValidSetups(n, xs) && |net.threads| == |xs|
    && forall t | 0 <= t < |xs| :: RowShaped(n, net.threads[t])
  }

  predicate RowShaped<B>(n: nat, row: seq<Party<B>>) {
    |row| == n && forall p | 0 <= p < n :: Shape(n, row[p])
  }

  function Init<B>(n: nat, xs: seq<Setup<B>>): (net: Net<B>)
    requires ValidSetups(n, xs)
    ensures Shaped(n, xs, net)
  {
    Net(seq(|xs|, t => seq(n, p => Fresh(n))), map[])
  }

  // ----- steps

  datatype Step =
    | StartCall | SendNext | Pass
    | TakeAhead(from: nat) | Begin(from: nat) | Store | Raise | Restore | RaiseAgain

  /** The manager of `p` is between messages. */
  predicate Free<B>(net: Net<B>, p: nat) {
    forall t | 0 <= t < |net.threads| && p < |net.threads[t]| :: net.threads[t][p].stage.Idle?
  }

  predicate HeadOf<B>(net: Net<B>, j: nat, p: nat, t: nat) {
    Wire(net, j, p) != [] && Wire(net, j, p)[0].0 == t
  }

  /** When party `p` can take the step in thread `t`; waiting for a condition variable is not being
      enabled. The manager takes up a message only when it is free. */
  predicate Enabled<B>(n: nat, xs: seq<Setup<B>>, net: Net<B>, t: nat, p: nat, step: Step)
    requires Shaped(n, xs, net)
  {
    t < |xs| && p < n &&
    var s := net.threads[t][p];
    match step
    case StartCall => !s.inCall && s.next < |xs[t].plan|
    case SendNext => s.inCall && s.sent + 1 < n && s.next < |xs[t].plan|
    case Pass => s.inCall && s.sent + 1 == n && s.next < |xs[t].plan| && s.unit
    case TakeAhead(j) => Free(net, p) && j < n && j != p && HeadOf(net, j, p, t) && s.finished[j]
    case Begin(j) => Free(net, p) && j < n && j != p && HeadOf(net, j, p, t) && !s.finished[j]
    case Store =>
      && s.stage.Reading? && s.stage.peer < n && s.stage.peer != p && s.comm[s.stage.peer]
      && HeadOf(net, s.stage.peer, p, t)
    case Raise => s.stage.Raising? && s.stage.peer < n && !s.unit
    case Restore =>
      s.stage.Restoring? && Other(p, s.stage.place) < n
      && (s.held[Other(p, s.stage.place)].Some? ==> s.comm[Other(p, s.stage.place)])
    case RaiseAgain => s.stage.RaisingRestored? && Other(p, s.stage.place) < n && !s.unit
  }

  function NextParty<B>(n: nat, xs: seq<Setup<B>>, net: Net<B>, t: nat, p: nat, step: Step): Party<B>
    requires Shaped(n, xs, net) && Enabled(n, xs, net, t, p, step)
  {
    var s := net.threads[t][p];
    match step
    case StartCall => Started(n, s)
    case SendNext => SentOne(s)
    case Pass => Passed(xs[t], s)
    case TakeAhead(j) => TookAhead(s, j, Wire(net, j, p)[0].1)
    case Begin(j) => s.(stage := Reading(j))
    case Store => Stored(n, s, p, s.stage.peer, Wire(net, s.stage.peer, p)[0].1)
    case Raise => Raised(s, p)
    case Restore => Restored(n, s, p)
    case RaiseAgain => RaisedRestored(n, s, p)
  }

  function NextChan<B>(n: nat, xs: seq<Setup<B>>, net: Net<B>, t: nat, p: nat, step: Step):
      map<(nat, nat), seq<(nat, Message<B>)>>
    requires Shaped(n, xs, net) && Enabled(n, xs, net, t, p, step)
  {
    var s := net.threads[t][p];
    match step
    case SendNext =>
      var q := Other(p, s.sent);
      net.chan[(p, q) := Wire(net, p, q) + [(t, MessageOf(xs[t], p, q, s.next))]]
    case TakeAhead(j) => net.chan[(j, p) := Wire(net, j, p)[1..]]
    case Store => net.chan[(s.stage.peer, p) := Wire(net, s.stage.peer, p)[1..]]
    case _ => net.chan
  }

  function Next<B>(n: nat, xs: seq<Setup<B>>, net: Net<B>, t: nat, p: nat, step: Step): (net': Net<B>)
    requires Shaped(n, xs, net) && Enabled(n, xs, net, t, p, step)
  {
    Net(net.threads[t := net.threads[t][p := NextParty(n, xs, net, t, p, step)]], NextChan(n, xs, net, t, p, step))
  }

  ghost predicate StepBy<B>(n: nat, xs: seq<Setup<B>>, net: Net<B>, net': Net<B>, t: nat, p: nat, step: Step) {
    Shaped(n, xs, net) && Enabled(n, xs, net, t, p, step) && net' == Next(n, xs, net, t, p, step)
  }

  ghost predicate AnyStep<B>(n: nat, xs: seq<Setup<B>>, net: Net<B>, net': Net<B>) {
    exists t: nat, p: nat, step: Step :: StepBy(n, xs, net, net', t, p, step)
  }

  ghost predicate Reachable<B(!new)>(n: nat, xs: seq<Setup<B>>, net: Net<B>, steps: nat)
    requires ValidSetups(n, xs)
    decreases steps
  {
    if steps == 0 then net == Init(n, xs)
    else exists before :: Reachable(n, xs, before, steps - 1) && AnyStep(n, xs, before, net)
  }

  // ----- the messages of one thread in a channel

  function Of<B>(queue: seq<(nat, Message<B>)>, t: nat): (r: seq<Message<B>>) {
    if queue == [] then []
    else Of(queue[..|queue| - 1], t) + if queue[|queue| - 1].0 == t then [queue[|queue| - 1].1] else []
  }

  lemma OfAppend<B>(queue: seq<(nat, Message<B>)>, t: nat, m: Message<B>, u: nat)
    ensures Of(queue + [(t, m)], u) == if t == u then Of(queue, u) + [m] else Of(queue, u)
  {
    assert (queue + [(t, m)])[..|queue|] == queue;
  }

  lemma {:induction false} OfPop<B>(queue: seq<(nat, Message<B>)>, u: nat)
    requires queue != []
    ensures queue[0].0 == u ==> Of(queue, u) == [queue[0].1] + Of(queue[1..], u)
    ensures queue[0].0 != u ==> Of(queue, u) == Of(queue[1..], u)
    decreases |queue|
  {
    var front := queue[..|queue| - 1];
    if front != [] {
      OfPop(front, u);
      assert queue[1..][..|queue| - 2] == front[1..];
    } else {
      assert queue[1..] == [];
    }
  }

  /** Chunks `a` to `b` of what `j` sends to `p`. */
  function Messages<B>(x: Setup<B>, j: nat, p: nat, a: nat, b: nat): (r: seq<Message<B>>)
    requires a <= b <= |x.plan|
    ensures |r| == b - a
  {
    seq(b - a, i requires 0 <= i < b - a => MessageOf(x, j, p, a + i))
  }

  // ----- what every reachable state keeps

  /** Between `j` and `p`, thread `t`: what was sent and not taken is in the channel, in order. */
  ghost predicate ChannelRight<B>(x: Setup<B>, row: seq<Party<B>>, queue: seq<(nat, Message<B>)>, t: nat, j: nat,
                                  p: nat)
    requires RowShaped(x.n, row) && j < x.n && p < x.n && j != p
  {
    && Taken(row[p], j) <= SentTo(row[j], j, p) <= |x.plan|
    && Of(queue, t) == Messages(x, j, p, Taken(row[p], j), SentTo(row[j], j, p))
  }

  ghost predicate ChannelsRight<B>(n: nat, xs: seq<Setup<B>>, net: Net<B>)
    requires Shaped(n, xs, net)
  {
    forall t: nat, j: nat, p: nat | t < |xs| && j < n && p < n && j != p ::
      ChannelRight(xs[t], net.threads[t], Wire(net, j, p), t, j, p)
  }

  ghost predicate PartiesRight<B>(n: nat, xs: seq<Setup<B>>, net: Net<B>)
    requires Shaped(n, xs, net)
  {
    forall t: nat, p: nat | t < |xs| && p < n :: PartyRight(xs[t], p, net.threads[t][p])
  }

  /** A busy manager is busy in one thread; the message it is reading stays at the head. */
  ghost predicate ManagersRight<B>(n: nat, xs: seq<Setup<B>>, net: Net<B>)
    requires Shaped(n, xs, net)
  {
    forall t: nat, p: nat | t < |xs| && p < n && !net.threads[t][p].stage.Idle? :: BusyRight(net, t, p)
  }

  ghost predicate BusyRight<B>(net: Net<B>, t: nat, p: nat)
    requires t < |net.threads| && p < |net.threads[t]|
  {
    && (forall u | 0 <= u < |net.threads| && p < |net.threads[u]| && u != t :: net.threads[u][p].stage.Idle?)
    && (net.threads[t][p].stage.Reading? ==> HeadOf(net, net.threads[t][p].stage.peer, p, t))
  }

  /** Only threads that exist send. */
  ghost predicate TagsRight<B>(n: nat, xs: seq<Setup<B>>, net: Net<B>) {
    forall p: nat, q: nat, i | p < n && q < n && 0 <= i < |Wire(net, p, q)| :: Wire(net, p, q)[i].0 < |xs|
  }

  ghost predicate NetRight<B>(n: nat, xs: seq<Setup<B>>, net: Net<B>) {
    && Shaped(n, xs, net)
    && PartiesRight(n, xs, net)
    && ChannelsRight(n, xs, net)
    && ManagersRight(n, xs, net)
    && TagsRight(n, xs, net)
  }

  lemma FreshRight<B>(x: Setup<B>, p: nat)
    requires ValidSetup(x) && p < x.n
    ensures PartyRight(x, p, Fresh(x.n))
    ensures forall j: nat | j < x.n && j != p :: Taken(Fresh<B>(x.n), j) == 0 && SentTo(Fresh<B>(x.n), p, j) == 0
  {
    hide Count, Cut;
    var s := Fresh<B>(x.n);
    CountNone(s.finished);
    forall j: nat | j < x.n && j != p ensures PeerRight(x, p, s, j) && Heard(s, j) {
    }
  }

  lemma InitRight<B>(n: nat, xs: seq<Setup<B>>)
    requires ValidSetups(n, xs)
    ensures NetRight(n, xs, Init(n, xs))
  {
    hide PartyRight, Shape;
    var net := Init(n, xs);
    forall t: nat, p: nat | t < |xs| && p < n ensures PartyRight(xs[t], p, net.threads[t][p]) {
      FreshRight(xs[t], p);
    }
    forall t: nat, j: nat, p: nat | t < |xs| && j < n && p < n && j != p
      ensures ChannelRight(xs[t], net.threads[t], Wire(net, j, p), t, j, p)
    {
      FreshRight(xs[t], p);
      FreshRight(xs[t], j);
    }
    forall t: nat, p: nat | t < |xs| && p < n ensures net.threads[t][p].stage.Idle? {
    }
  }

  // ----- one chunk ahead

  /** A peer never gets further ahead of the rounds that `p` has collected than one chunk: the chunk
      of the round being collected and the one after it are the last it can have sent. */
  lemma OneAhead<B>(x: Setup<B>, row: seq<Party<B>>, queue: seq<(nat, Message<B>)>, back: seq<(nat, Message<B>)>,
                    t: nat, j: nat, p: nat)
    requires RowShaped(x.n, row) && j < x.n && p < x.n && j != p
    requires PartyRight(x, p, row[p]) && PartyRight(x, j, row[j])
    requires ChannelRight(x, row, queue, t, j, p) && ChannelRight(x, row, back, t, p, j)
    ensures SentTo(row[j], j, p) <= row[p].next + 2
    ensures SentTo(row[j], j, p) <= RoundsRaised(row[p]) + 2
  {
    hide PartyRight, Of, Messages;
    RoundsBounds(x, j, row[j], p);
  }

  /** What the manager finds at the head of a channel for thread `t`. */
  lemma HeadMessage<B>(x: Setup<B>, row: seq<Party<B>>, queue: seq<(nat, Message<B>)>, t: nat, j: nat, p: nat)
    requires RowShaped(x.n, row) && j < x.n && p < x.n && j != p
    requires ChannelRight(x, row, queue, t, j, p) && queue != [] && queue[0].0 == t
    ensures Taken(row[p], j) < SentTo(row[j], j, p) <= |x.plan|
    ensures queue[0].1 == MessageOf(x, j, p, Taken(row[p], j))
    ensures Of(queue[1..], t) == Messages(x, j, p, Taken(row[p], j) + 1, SentTo(row[j], j, p))
  {
    hide Taken, SentTo;
    OfPop(queue, t);
    var a, b := Taken(row[p], j), SentTo(row[j], j, p);
    assert Of(queue, t)[0] == queue[0].1;
    assert Of(queue, t)[1..] == Of(queue[1..], t);
    assert a < b;
    assert Messages(x, j, p, a, b)[1..] == Messages(x, j, p, a + 1, b);
  }

  /** The single slot of a peer is empty whenever the manager is about to fill it. */
  lemma SlotEmpty<B>(n: nat, xs: seq<Setup<B>>, net: Net<B>, t: nat, p: nat, j: nat)
    requires NetRight(n, xs, net) && Enabled(n, xs, net, t, p, TakeAhead(j))
    ensures net.threads[t][p].held[j].None?
  {
    hide PartyRight, ChannelRight, ManagersRight, TagsRight;
    var row := net.threads[t];
    assert PartyRight(xs[t], p, row[p]) && PartyRight(xs[t], j, row[j]);
    assert ChannelRight(xs[t], row, Wire(net, j, p), t, j, p) && ChannelRight(xs[t], row, Wire(net, p, j), t, p, j);
    OneAhead(xs[t], row, Wire(net, j, p), Wire(net, p, j), t, j, p);
    HeadMessage(xs[t], row, Wire(net, j, p), t, j, p);
    IdleHeard(xs[t], p, row[p], j);
  }

  lemma IdleHeard<B>(x: Setup<B>, p: nat, s: Party<B>, j: nat)
    requires PartyRight(x, p, s) && (s.stage.Idle? || s.stage.Reading?) && j < x.n && j != p
    ensures Heard(s, j)
  {
  }

  // ----- a step keeps what is right about the party that takes it

  /** The peer whose message a step takes, if any. */
  predicate TakesFrom<B>(s: Party<B>, step: Step, j: nat) {
    step == TakeAhead(j) || (step == Store && s.stage == Reading(j))
  }

  predicate SendsTo<B>(s: Party<B>, p: nat, step: Step, q: nat) {
    step == SendNext && q == Other(p, s.sent)
  }

  ghost predicate Effect<B>(x: Setup<B>, p: nat, s: Party<B>, step: Step, s': Party<B>) {
    && Shape(x.n, s)
    && PartyRight(x, p, s')
    && (forall j: nat | j < x.n && j != p :: Taken(s', j) == Taken(s, j) + if TakesFrom(s, step, j) then 1 else 0)
    && (forall q: nat | q < x.n && q != p ::
          SentTo(s', p, q) == SentTo(s, p, q) + if SendsTo(s, p, step, q) then 1 else 0)
  }

  lemma WorkerEffect<B>(n: nat, xs: seq<Setup<B>>, net: Net<B>, t: nat, p: nat, step: Step)
    requires NetRight(n, xs, net) && Enabled(n, xs, net, t, p, step)
    requires step.StartCall? || step.SendNext? || step.Pass?
    ensures Effect(xs[t], p, net.threads[t][p], step, NextParty(n, xs, net, t, p, step))
  {
    hide PartyRight, ChannelsRight, ManagersRight, TagsRight;
    var s := net.threads[t][p];
    assert PartyRight(xs[t], p, s);
    match step
    case StartCall => StartedRight(xs[t], p, s);
    case SendNext => SentRight(xs[t], p, s);
    case Pass => PassedRight(xs[t], p, s);
  }

  lemma TakeAheadEffect<B>(n: nat, xs: seq<Setup<B>>, net: Net<B>, t: nat, p: nat, j: nat)
    requires NetRight(n, xs, net) && Enabled(n, xs, net, t, p, TakeAhead(j))
    ensures Effect(xs[t], p, net.threads[t][p], TakeAhead(j), NextParty(n, xs, net, t, p, TakeAhead(j)))
  {
    hide PartyRight, ChannelRight, ManagersRight, TagsRight;
    var s := net.threads[t][p];
    assert PartyRight(xs[t], p, s);
    SlotEmpty(n, xs, net, t, p, j);
    assert ChannelRight(xs[t], net.threads[t], Wire(net, j, p), t, j, p);
    HeadMessage(xs[t], net.threads[t], Wire(net, j, p), t, j, p);
    assert s.stage.Idle?;
    TookAheadRight(xs[t], p, s, j, Wire(net, j, p)[0].1);
  }

  lemma StoreEffect<B>(n: nat, xs: seq<Setup<B>>, net: Net<B>, t: nat, p: nat)
    requires NetRight(n, xs, net) && Enabled(n, xs, net, t, p, Store)
    ensures Effect(xs[t], p, net.threads[t][p], Store, NextParty(n, xs, net, t, p, Store))
  {
    hide PartyRight, ChannelRight, ManagersRight, TagsRight;
    var s := net.threads[t][p];
    var j := s.stage.peer;
    var m := Wire(net, j, p)[0].1;
    assert PartyRight(xs[t], p, s);
    assert ChannelRight(xs[t], net.threads[t], Wire(net, j, p), t, j, p);
    HeadMessage(xs[t], net.threads[t], Wire(net, j, p), t, j, p);
    IdleHeard(xs[t], p, s, j);
    ReadingUnfinished(xs[t], p, s);
    StoredRight(xs[t], p, s, m);
    StoredCounts(n, s, p, j, m);
    hide Stored, Taken, SentTo;
  }

  lemma StoredCounts<B>(n: nat, s: Party<B>, p: nat, j: nat, m: Message<B>)
    requires Shape(n, s) && j < n
    ensures Shape(n, Stored(n, s, p, j, m))
    ensures forall i: nat | i < n :: Taken(Stored(n, s, p, j, m), i) == Taken(s, i) + if i == j then 1 else 0
    ensures forall q: nat | q < n && q != p :: SentTo(Stored(n, s, p, j, m), p, q) == SentTo(s, p, q)
  {
  }

  lemma ReadingUnfinished<B>(x: Setup<B>, p: nat, s: Party<B>)
    requires PartyRight(x, p, s) && s.stage.Reading?
    ensures s.stage.peer < x.n && s.stage.peer != p && !s.finished[s.stage.peer]
  {
  }

  lemma ManagerEffect<B>(n: nat, xs: seq<Setup<B>>, net: Net<B>, t: nat, p: nat, step: Step)
    requires NetRight(n, xs, net) && Enabled(n, xs, net, t, p, step)
    requires step.Begin? || step.Raise? || step.Restore? || step.RaiseAgain?
    ensures Effect(xs[t], p, net.threads[t][p], step, NextParty(n, xs, net, t, p, step))
  {
    hide PartyRight, ChannelsRight, ManagersRight, TagsRight;
    var s := net.threads[t][p];
    assert PartyRight(xs[t], p, s);
    match step
    case Begin(j) =>
      assert s.stage.Idle?;
      BegunRight(xs[t], p, s, j);
    case Raise => RaisedRight(xs[t], p, s);
    case Restore => RestoredRight(xs[t], p, s);
    case RaiseAgain => NeverRaisesAgain(xs[t], p, s);
  }

  /** The pass never completes a second round. */
  lemma NeverRaisesAgain<B>(x: Setup<B>, p: nat, s: Party<B>)
    requires PartyRight(x, p, s)
    ensures !s.stage.RaisingRestored?
  {
  }

  lemma StepEffect<B>(n: nat, xs: seq<Setup<B>>, net: Net<B>, t: nat, p: nat, step: Step)
    requires NetRight(n, xs, net) && Enabled(n, xs, net, t, p, step)
    ensures Effect(xs[t], p, net.threads[t][p], step, NextParty(n, xs, net, t, p, step))
  {
    hide Effect, NextParty, NetRight;
    match step
    case TakeAhead(j) => TakeAheadEffect(n, xs, net, t, p, j);
    case Store => StoreEffect(n, xs, net, t, p);
    case StartCall => WorkerEffect(n, xs, net, t, p, step);
    case SendNext => WorkerEffect(n, xs, net, t, p, step);
    case Pass => WorkerEffect(n, xs, net, t, p, step);
    case _ => ManagerEffect(n, xs, net, t, p, step);
  }

  // ----- a step keeps the channels right

  lemma ChannelUntouched<B>(x: Setup<B>, row: seq<Party<B>>, row': seq<Party<B>>, queue: seq<(nat, Message<B>)>,
                            queue': seq<(nat, Message<B>)>, t: nat, j: nat, p: nat)
    requires RowShaped(x.n, row) && RowShaped(x.n, row') && j < x.n && p < x.n && j != p
    requires ChannelRight(x, row, queue, t, j, p) && Of(queue', t) == Of(queue, t)
    requires Taken(row'[p], j) == Taken(row[p], j) && SentTo(row'[j], j, p) == SentTo(row[j], j, p)
    ensures ChannelRight(x, row', queue', t, j, p)
  {
  }

  lemma ChannelSent<B>(x: Setup<B>, row: seq<Party<B>>, row': seq<Party<B>>, queue: seq<(nat, Message<B>)>, t: nat,
                       j: nat, p: nat)
    requires RowShaped(x.n, row) && RowShaped(x.n, row') && j < x.n && p < x.n && j != p
    requires ChannelRight(x, row, queue, t, j, p) && SentTo(row[j], j, p) < |x.plan|
    requires Taken(row'[p], j) == Taken(row[p], j) && SentTo(row'[j], j, p) == SentTo(row[j], j, p) + 1
    ensures ChannelRight(x, row', queue + [(t, MessageOf(x, j, p, SentTo(row[j], j, p)))], t, j, p)
  {
    hide Taken, SentTo;
    var a, b := Taken(row[p], j), SentTo(row[j], j, p);
    OfAppend(queue, t, MessageOf(x, j, p, b), t);
    assert Messages(x, j, p, a, b + 1) == Messages(x, j, p, a, b) + [MessageOf(x, j, p, b)];
  }

  lemma ChannelTaken<B>(x: Setup<B>, row: seq<Party<B>>, row': seq<Party<B>>, queue: seq<(nat, Message<B>)>, t: nat,
                        j: nat, p: nat)
    requires RowShaped(x.n, row) && RowShaped(x.n, row') && j < x.n && p < x.n && j != p
    requires ChannelRight(x, row, queue, t, j, p) && queue != [] && queue[0].0 == t
    requires Taken(row'[p], j) == Taken(row[p], j) + 1 && SentTo(row'[j], j, p) == SentTo(row[j], j, p)
    ensures ChannelRight(x, row', queue[1..], t, j, p)
  {
    HeadMessage(x, row, queue, t, j, p);
  }

  /** What a step does to one channel. */
  lemma WireNext<B>(n: nat, xs: seq<Setup<B>>, net: Net<B>, t: nat, p: nat, step: Step, j: nat, q: nat)
    requires Shaped(n, xs, net) && Enabled(n, xs, net, t, p, step) && j != q
    ensures var s, net' := net.threads[t][p], Next(n, xs, net, t, p, step);
            Wire(net', j, q) ==
              if j == p && SendsTo(s, p, step, q) then Wire(net, j, q) + [(t, MessageOf(xs[t], p, q, s.next))]
              else if q == p && TakesFrom(s, step, j) && Wire(net, j, q) != [] then Wire(net, j, q)[1..]
              else Wire(net, j, q)
  {
    hide NextParty;
  }

  lemma NextShaped<B>(n: nat, xs: seq<Setup<B>>, net: Net<B>, t: nat, p: nat, step: Step)
    requires NetRight(n, xs, net) && Enabled(n, xs, net, t, p, step)
    ensures Shaped(n, xs, Next(n, xs, net, t, p, step))
    ensures PartiesRight(n, xs, Next(n, xs, net, t, p, step))
  {
    hide NextParty, NextChan, ChannelsRight, ManagersRight, TagsRight;
    StepEffect(n, xs, net, t, p, step);
    var s' := NextParty(n, xs, net, t, p, step);
    assert Shape(n, s') by {
      EffectShape(xs[t], p, net.threads[t][p], step, s');
    }
    hide PartyRight;
    var net' := Next(n, xs, net, t, p, step);
    forall u: nat, q: nat | u < |xs| && q < n ensures PartyRight(xs[u], q, net'.threads[u][q]) {
      assert PartyRight(xs[u], q, net.threads[u][q]);
    }
  }

  lemma EffectShape<B>(x: Setup<B>, p: nat, s: Party<B>, step: Step, s': Party<B>)
    requires Effect(x, p, s, step, s')
    ensures Shape(x.n, s')
  {
  }

  lemma SendsNext<B>(s: Party<B>, p: nat, step: Step, q: nat)
    requires SendsTo(s, p, step, q)
    ensures p != q && SentTo(s, p, q) == s.next
  {
  }

  /** The receiver's side of a step: `p` takes in thread `t`. */
  lemma ChannelIn<B>(n: nat, xs: seq<Setup<B>>, net: Net<B>, t: nat, p: nat, step: Step, j: nat)
    requires NetRight(n, xs, net) && Enabled(n, xs, net, t, p, step) && j < n && j != p
    requires Shaped(n, xs, Next(n, xs, net, t, p, step))
    ensures var net' := Next(n, xs, net, t, p, step);
            ChannelRight(xs[t], net'.threads[t], Wire(net', j, p), t, j, p)
  {
    StepEffect(n, xs, net, t, p, step);
    WireNext(n, xs, net, t, p, step, j, p);
    hide PartyRight, NextParty, NextChan, ManagersRight, TagsRight, Of, Taken, SentTo, Messages;
    var net' := Next(n, xs, net, t, p, step);
    var row, row' := net.threads[t], net'.threads[t];
    assert ChannelRight(xs[t], row, Wire(net, j, p), t, j, p);
    if TakesFrom(row[p], step, j) {
      ChannelTaken(xs[t], row, row', Wire(net, j, p), t, j, p);
    } else {
      ChannelUntouched(xs[t], row, row', Wire(net, j, p), Wire(net', j, p), t, j, p);
    }
  }

  /** The sender's side: `p` sends in thread `t`. */
  lemma ChannelOut<B>(n: nat, xs: seq<Setup<B>>, net: Net<B>, t: nat, p: nat, step: Step, q: nat)
    requires NetRight(n, xs, net) && Enabled(n, xs, net, t, p, step) && q < n && q != p
    requires Shaped(n, xs, Next(n, xs, net, t, p, step))
    ensures var net' := Next(n, xs, net, t, p, step);
            ChannelRight(xs[t], net'.threads[t], Wire(net', p, q), t, p, q)
  {
    StepEffect(n, xs, net, t, p, step);
    WireNext(n, xs, net, t, p, step, p, q);
    hide PartyRight, NextParty, NextChan, ManagersRight, TagsRight, Of, Taken, SentTo, Messages;
    var net' := Next(n, xs, net, t, p, step);
    var row, row' := net.threads[t], net'.threads[t];
    assert ChannelRight(xs[t], row, Wire(net, p, q), t, p, q);
    if SendsTo(row[p], p, step, q) {
      SendsNext(row[p], p, step, q);
      ChannelSent(xs[t], row, row', Wire(net, p, q), t, p, q);
    } else {
      ChannelUntouched(xs[t], row, row', Wire(net, p, q), Wire(net', p, q), t, p, q);
    }
  }

  /** Every other thread's part of every channel stays. */
  lemma OtherThreads<B>(n: nat, xs: seq<Setup<B>>, net: Net<B>, t: nat, p: nat, step: Step, u: nat, j: nat, q: nat)
    requires Shaped(n, xs, net) && Enabled(n, xs, net, t, p, step) && j != q
    requires u != t || (j != p && q != p)
    ensures Of(Wire(Next(n, xs, net, t, p, step), j, q), u) == Of(Wire(net, j, q), u)
  {
    WireNext(n, xs, net, t, p, step, j, q);
    hide NextParty, NextChan, Of;
    var queue := Wire(net, j, q);
    var s := net.threads[t][p];
    if j == p && SendsTo(s, p, step, q) {
      OfAppend(queue, t, MessageOf(xs[t], p, q, s.next), u);
    } else if q == p && TakesFrom(s, step, j) && queue != [] {
      OfPop(queue, u);
    }
  }

  lemma NextChannels<B>(n: nat, xs: seq<Setup<B>>, net: Net<B>, t: nat, p: nat, step: Step)
    requires NetRight(n, xs, net) && Enabled(n, xs, net, t, p, step)
    requires Shaped(n, xs, Next(n, xs, net, t, p, step))
    ensures ChannelsRight(n, xs, Next(n, xs, net, t, p, step))
  {
    hide NextParty, NextChan, Enabled, PartiesRight, ManagersRight, TagsRight, Of, Taken, SentTo;
    var net' := Next(n, xs, net, t, p, step);
    forall u: nat, j: nat, q: nat | u < |xs| && j < n && q < n && j != q
      ensures ChannelRight(xs[u], net'.threads[u], Wire(net', j, q), u, j, q)
    {
      if u == t && q == p {
        ChannelIn(n, xs, net, t, p, step, j);
      } else if u == t && j == p {
        ChannelOut(n, xs, net, t, p, step, q);
      } else {
        OtherThreads(n, xs, net, t, p, step, u, j, q);
        assert ChannelRight(xs[u], net.threads[u], Wire(net, j, q), u, j, q);
        ChannelUntouched(xs[u], net.threads[u], net'.threads[u], Wire(net, j, q), Wire(net', j, q), u, j, q);
      }
    }
  }

  // ----- a step keeps the managers right

  /** The stage only leaves Idle by taking up a message, which needs the manager free. */
  lemma StageEffect<B>(n: nat, xs: seq<Setup<B>>, net: Net<B>, t: nat, p: nat, step: Step)
    requires Shaped(n, xs, net) && Enabled(n, xs, net, t, p, step)
    ensures var stage, stage' := net.threads[t][p].stage, NextParty(n, xs, net, t, p, step).stage;
            && (step.StartCall? || step.SendNext? || step.Pass? ==> stage' == stage)
            && (step.TakeAhead? || step.Begin? ==> Free(net, p) && stage.Idle?)
            && (step.TakeAhead? ==> stage'.Idle?) && (step.Begin? ==> stage' == Reading(step.from))
            && (step.Store? || step.Raise? || step.Restore? || step.RaiseAgain? ==> !stage.Idle? && !stage'.Reading?)
  {
    hide Count, Cut, Shape;
    assert RowShaped(n, net.threads[t]);
  }

  /** Only the manager of `q` takes from its channels; what others do leaves the head where it is. */
  lemma HeadKept<B>(n: nat, xs: seq<Setup<B>>, net: Net<B>, t: nat, p: nat, step: Step, j: nat, q: nat, u: nat)
    requires Shaped(n, xs, net) && Enabled(n, xs, net, t, p, step) && j != q && HeadOf(net, j, q, u)
    requires !(q == p && TakesFrom(net.threads[t][p], step, j))
    ensures HeadOf(Next(n, xs, net, t, p, step), j, q, u)
  {
    WireNext(n, xs, net, t, p, step, j, q);
    hide NextParty, NextChan;
  }

  lemma NextManagers<B>(n: nat, xs: seq<Setup<B>>, net: Net<B>, t: nat, p: nat, step: Step)
    requires NetRight(n, xs, net) && Enabled(n, xs, net, t, p, step)
    requires Shaped(n, xs, Next(n, xs, net, t, p, step))
    ensures ManagersRight(n, xs, Next(n, xs, net, t, p, step))
  {
    hide NextParty, NextChan, PartyRight, ChannelsRight, TagsRight, Shape;
    var net' := Next(n, xs, net, t, p, step);
    StageEffect(n, xs, net, t, p, step);
    forall u: nat, q: nat | u < |xs| && q < n && !net'.threads[u][q].stage.Idle?
      ensures BusyRight(net', u, q)
    {
      BusyNext(n, xs, net, t, p, step, u, q);
    }
  }

  lemma BusyNext<B>(n: nat, xs: seq<Setup<B>>, net: Net<B>, t: nat, p: nat, step: Step, u: nat, q: nat)
    requires NetRight(n, xs, net) && Enabled(n, xs, net, t, p, step)
    requires Shaped(n, xs, Next(n, xs, net, t, p, step))
    requires u < |xs| && q < n && !Next(n, xs, net, t, p, step).threads[u][q].stage.Idle?
    ensures BusyRight(Next(n, xs, net, t, p, step), u, q)
  {
    hide NextParty, NextChan, ChannelsRight, TagsRight, Enabled, PartiesRight;
    var net' := Next(n, xs, net, t, p, step);
    StageEffect(n, xs, net, t, p, step);
    OthersIdle(n, xs, net, t, p, step, u, q);
    if net'.threads[u][q].stage.Reading? && net.threads[u][q].stage == net'.threads[u][q].stage {
      assert BusyRight(net, u, q);
      BusyPeer(n, xs, net, u, q);
      InRange(n, xs, net, t, p, step);
      if q == p && TakesFrom(net.threads[t][p], step, net.threads[u][q].stage.peer) {
        assert false;
      }
      HeadKept(n, xs, net, t, p, step, net.threads[u][q].stage.peer, q, u);
    } else if net'.threads[u][q].stage.Reading? {
      BeginHead(n, xs, net, t, p, step);
      HeadKept(n, xs, net, t, p, step, step.from, q, u);
    }
  }

  lemma InRange<B>(n: nat, xs: seq<Setup<B>>, net: Net<B>, t: nat, p: nat, step: Step)
    requires Shaped(n, xs, net) && Enabled(n, xs, net, t, p, step)
    ensures t < |xs| && p < n
  {
  }

  lemma BeginHead<B>(n: nat, xs: seq<Setup<B>>, net: Net<B>, t: nat, p: nat, step: Step)
    requires Shaped(n, xs, net) && Enabled(n, xs, net, t, p, step)
    ensures step.Begin? ==> HeadOf(net, step.from, p, t) && step.from != p
  {
  }

  lemma BusyPeer<B>(n: nat, xs: seq<Setup<B>>, net: Net<B>, u: nat, q: nat)
    requires NetRight(n, xs, net) && u < |xs| && q < n && net.threads[u][q].stage.Reading?
    ensures net.threads[u][q].stage.peer != q
  {
    hide ChannelsRight, TagsRight, ManagersRight;
    assert PartyRight(xs[u], q, net.threads[u][q]);
  }

  lemma OthersIdle<B>(n: nat, xs: seq<Setup<B>>, net: Net<B>, t: nat, p: nat, step: Step, u: nat, q: nat)
    requires NetRight(n, xs, net) && Enabled(n, xs, net, t, p, step)
    requires Shaped(n, xs, Next(n, xs, net, t, p, step))
    requires u < |xs| && q < n && !Next(n, xs, net, t, p, step).threads[u][q].stage.Idle?
    ensures forall v | 0 <= v < |xs| && v != u :: Next(n, xs, net, t, p, step).threads[v][q].stage.Idle?
  {
    hide NextParty, NextChan, ChannelsRight, TagsRight, Enabled, PartiesRight;
    StageEffect(n, xs, net, t, p, step);
    InRange(n, xs, net, t, p, step);
    if !net.threads[u][q].stage.Idle? {
      assert BusyRight(net, u, q);
    }
    if !net.threads[t][p].stage.Idle? {
      assert BusyRight(net, t, p);
    }
  }

  lemma NextTags<B>(n: nat, xs: seq<Setup<B>>, net: Net<B>, t: nat, p: nat, step: Step)
    requires NetRight(n, xs, net) && Enabled(n, xs, net, t, p, step)
    requires Shaped(n, xs, Next(n, xs, net, t, p, step))
    ensures TagsRight(n, xs, Next(n, xs, net, t, p, step))
  {
    hide NextParty, NextChan, PartiesRight, ChannelsRight, ManagersRight, Shape;
    var net' := Next(n, xs, net, t, p, step);
    InRange(n, xs, net, t, p, step);
    forall j: nat, q: nat, i | j < n && q < n && 0 <= i < |Wire(net', j, q)|
      ensures Wire(net', j, q)[i].0 < |xs|
    {
      WireTag(n, xs, net, t, p, step, j, q, i);
    }
  }

  lemma WireTag<B>(n: nat, xs: seq<Setup<B>>, net: Net<B>, t: nat, p: nat, step: Step, j: nat, q: nat, i: int)
    requires NetRight(n, xs, net) && Enabled(n, xs, net, t, p, step) && j < n && q < n
    requires 0 <= i < |Wire(Next(n, xs, net, t, p, step), j, q)|
    ensures Wire(Next(n, xs, net, t, p, step), j, q)[i].0 < |xs|
  {
    hide NextParty, PartiesRight, ChannelsRight, ManagersRight, Shape, MessageOf;
    var queue, queue' := Wire(net, j, q), Wire(Next(n, xs, net, t, p, step), j, q);
    if |queue'| > |queue| {
      assert queue'[|queue|].0 == t;
    }
  }

  lemma StepRight<B>(n: nat, xs: seq<Setup<B>>, net: Net<B>, t: nat, p: nat, step: Step)
    requires NetRight(n, xs, net) && Enabled(n, xs, net, t, p, step)
    ensures NetRight(n, xs, Next(n, xs, net, t, p, step))
  {
    NextShaped(n, xs, net, t, p, step);
    NextChannels(n, xs, net, t, p, step);
    NextManagers(n, xs, net, t, p, step);
    NextTags(n, xs, net, t, p, step);
    hide Next, Shaped, PartiesRight, ChannelsRight, ManagersRight, TagsRight, Enabled;
  }

  lemma AnyStepRight<B(!new)>(n: nat, xs: seq<Setup<B>>, net: Net<B>, net': Net<B>)
    requires NetRight(n, xs, net) && AnyStep(n, xs, net, net')
    ensures NetRight(n, xs, net')
  {
    hide NetRight, Shaped, Enabled, Next;
    var t: nat, p: nat, step: Step :| StepBy(n, xs, net, net', t, p, step);
    StepRight(n, xs, net, t, p, step);
  }

  lemma {:induction false} ReachableRight<B(!new)>(n: nat, xs: seq<Setup<B>>, net: Net<B>, steps: nat)
    requires ValidSetups(n, xs) && Reachable(n, xs, net, steps)
    ensures NetRight(n, xs, net)
    decreases steps
  {
    hide NetRight, AnyStep, ValidSetups;
    if steps == 0 {
      InitRight(n, xs);
    } else {
      var before :| Reachable(n, xs, before, steps - 1) && AnyStep(n, xs, before, net);
      ReachableRight(n, xs, before, steps - 1);
      AnyStepRight(n, xs, before, net);
    }
  }

  // ----- what holds in every run

  /** Between messages the counter of a thread is the number of peers heard in this round. */
  predicate CountersRight<B>(n: nat, xs: seq<Setup<B>>, net: Net<B>)
    requires Shaped(n, xs, net)
  {
    forall t: nat, p: nat | t < |xs| && p < n && net.threads[t][p].stage.Idle? ::
      net.threads[t][p].read == Count(net.threads[t][p].finished)
  }

  /** Chunk `c` of peer `j` is in the buffers of its own call, at its own place. */
  predicate ChunkStored<B(==)>(x: Setup<B>, s: Party<B>, p: nat, j: nat, c: nat)
    requires Shape(x.n, s) && j < x.n
  {
    c < |s.written[j]| && c < |x.plan| && s.written[j][c] == WriteOf(x, p, j, c)
  }

  /** The flag is up only when the chunk the worker waits for has been stored of every peer. */
  lemma PassHasChunks<B>(n: nat, xs: seq<Setup<B>>, net: Net<B>, t: nat, p: nat)
    requires NetRight(n, xs, net) && t < |xs| && p < n && net.threads[t][p].unit
    ensures forall j: nat | j < n && j != p :: ChunkStored(xs[t], net.threads[t][p], p, j, net.threads[t][p].next)
  {
    hide ChannelsRight, ManagersRight, TagsRight, StageRight, WorkerRight, CallOf;
    var s := net.threads[t][p];
    assert PartyRight(xs[t], p, s);
    forall j: nat | j < n && j != p ensures ChunkStored(xs[t], s, p, j, s.next) {
      RoundsBounds(xs[t], p, s, j);
      assert PeerRight(xs[t], p, s, j);
    }
  }

  lemma CountersAlwaysRight<B>(n: nat, xs: seq<Setup<B>>, net: Net<B>)
    requires NetRight(n, xs, net)
    ensures CountersRight(n, xs, net)
  {
    hide ChannelsRight, ManagersRight, TagsRight, WorkerRight, PeerRight, Count, Cut;
    forall t: nat, p: nat | t < |xs| && p < n && net.threads[t][p].stage.Idle?
      ensures net.threads[t][p].read == Count(net.threads[t][p].finished)
    {
      assert PartyRight(xs[t], p, net.threads[t][p]);
    }
  }

  /** A worker that is through with its calls has every chunk of every peer. */
  predicate Through<B(==)>(x: Setup<B>, s: Party<B>, p: nat)
    requires Shape(x.n, s)
  {
    s.next == |x.plan| ==> forall j: nat, c: nat | j < x.n && j != p && c < |x.plan| :: ChunkStored(x, s, p, j, c)
  }

  lemma ThroughHasAll<B>(n: nat, xs: seq<Setup<B>>, net: Net<B>, t: nat, p: nat)
    requires NetRight(n, xs, net) && t < |xs| && p < n
    ensures Through(xs[t], net.threads[t][p], p)
  {
    hide ChannelsRight, ManagersRight, TagsRight, StageRight, WorkerRight, CallOf;
    var s := net.threads[t][p];
    assert PartyRight(xs[t], p, s);
    if s.next == |xs[t].plan| {
      forall j: nat, c: nat | j < n && j != p && c < |xs[t].plan| ensures ChunkStored(xs[t], s, p, j, c) {
        RoundsBounds(xs[t], p, s, j);
        assert PeerRight(xs[t], p, s, j);
      }
    }
  }

  // ----- no run gets stuck

  /** A worker that is not through can move unless it waits for the flag. */
  predicate Waiting<B>(n: nat, s: Party<B>) {
    s.inCall && s.sent + 1 == n && !s.unit
  }

  lemma WorkerMoves<B>(n: nat, xs: seq<Setup<B>>, net: Net<B>, t: nat, p: nat) returns (step: Step)
    requires NetRight(n, xs, net) && t < |xs| && p < n
    requires net.threads[t][p].next < |xs[t].plan| && !Waiting(n, net.threads[t][p])
    ensures Enabled(n, xs, net, t, p, step)
  {
    hide ChannelsRight, ManagersRight, TagsRight, StageRight, PeerRight, CallOf;
    var s := net.threads[t][p];
    assert PartyRight(xs[t], p, s);
    step := if !s.inCall then StartCall else if s.sent + 1 < n then SendNext else Pass;
  }

  /** The worker is through or waits for the flag. */
  predicate Resting<B>(n: nat, x: Setup<B>, s: Party<B>) {
    s.next == |x.plan| || Waiting(n, s)
  }

  /** Then the buffer that the manager waits for is open. */
  lemma RestOpens<B>(x: Setup<B>, p: nat, s: Party<B>, j: nat)
    requires PartyRight(x, p, s) && Resting(x.n, x, s) && j < x.n && j != p
    ensures !s.unit
    ensures |s.written[j]| == s.next < |x.plan| ==> s.comm[j]
    ensures |s.written[j]| >= |x.plan| ==> s.held[j].None? && Taken(s, j) == |x.plan|
  {
    hide StageRight;
    RoundsBounds(x, p, s, j);
    assert PeerRight(x, p, s, j);
  }

  /** A manager in the middle of its work is then not kept waiting. */
  lemma ManagerMoves<B>(n: nat, xs: seq<Setup<B>>, net: Net<B>, t: nat, p: nat) returns (step: Step)
    requires NetRight(n, xs, net) && t < |xs| && p < n
    requires Resting(n, xs[t], net.threads[t][p]) && !net.threads[t][p].stage.Idle?
    ensures Enabled(n, xs, net, t, p, step)
  {
    hide TagsRight, WorkerRight, PeerRight, ChannelRight, Count, Cut, Resting;
    var s := net.threads[t][p];
    assert PartyRight(xs[t], p, s) && BusyRight(net, t, p);
    match s.stage
    case Reading(j) =>
      assert Heard(s, j);
      RestOpens(xs[t], p, s, j);
      assert ChannelRight(xs[t], net.threads[t], Wire(net, j, p), t, j, p);
      HeadMessage(xs[t], net.threads[t], Wire(net, j, p), t, j, p);
      step := Store;
    case Raising(j) =>
      RestOpens(xs[t], p, s, j);
      step := Raise;
    case Restoring(place, i) =>
      var j := Other(p, place);
      assert PassRight(s, p, j, place);
      RestOpens(xs[t], p, s, j);
      step := Restore;
  }

  /** A free manager takes whatever has arrived. */
  lemma FreeTakes<B>(n: nat, xs: seq<Setup<B>>, net: Net<B>, j: nat, p: nat) returns (t: nat, step: Step)
    requires NetRight(n, xs, net) && j < n && p < n && j != p && Free(net, p) && Wire(net, j, p) != []
    ensures Enabled(n, xs, net, t, p, step)
  {
    hide ChannelsRight, ManagersRight, PartiesRight;
    t := Wire(net, j, p)[0].0;
    step := if net.threads[t][p].finished[j] then TakeAhead(j) else Begin(j);
  }

  /** With nothing on the way, a worker that waits does so for a peer that is further behind. */
  lemma WaitsForSlower<B>(x: Setup<B>, row: seq<Party<B>>, t: nat, p: nat) returns (j: nat)
    requires RowShaped(x.n, row) && p < x.n
    requires forall q: nat | q < x.n :: PartyRight(x, q, row[q]) && Resting(x.n, x, row[q]) && row[q].stage.Idle?
    requires forall q: nat, r: nat | q < x.n && r < x.n && q != r :: ChannelRight(x, row, [], t, q, r)
    requires row[p].next < |x.plan|
    ensures j < x.n && row[j].next < row[p].next
  {
    hide PartyRight, ChannelRight, Resting;
    var s := row[p];
    assert PartyRight(x, p, s) && Resting(x.n, x, s);
    j := UnheardPeer(x, p, s);
    assert ChannelRight(x, row, [], t, j, p);
    assert PartyRight(x, j, row[j]) && Resting(x.n, x, row[j]);
    NothingOnTheWay(x, row, t, j, p);
    IdleHeard(x, p, s, j);
    RestOpens(x, p, s, j);
    RestSent(x, row[j], j, p);
  }

  lemma UnheardPeer<B>(x: Setup<B>, p: nat, s: Party<B>) returns (j: nat)
    requires PartyRight(x, p, s) && s.stage.Idle?
    ensures j < x.n && j != p && !s.finished[j]
  {
    CountPeers(s.finished, p);
    j :| j < x.n && j != p && !s.finished[j];
  }

  lemma NothingOnTheWay<B>(x: Setup<B>, row: seq<Party<B>>, t: nat, j: nat, p: nat)
    requires RowShaped(x.n, row) && j < x.n && p < x.n && j != p && ChannelRight(x, row, [], t, j, p)
    ensures Taken(row[p], j) == SentTo(row[j], j, p)
  {
    assert |Messages(x, j, p, Taken(row[p], j), SentTo(row[j], j, p))| == 0;
  }

  lemma RestSent<B>(x: Setup<B>, s: Party<B>, j: nat, p: nat)
    requires PartyRight(x, j, s) && Resting(x.n, x, s) && j < x.n && p < x.n && j != p
    ensures if s.next == |x.plan| then SentTo(s, j, p) == |x.plan| else SentTo(s, j, p) == s.next + 1
  {
    hide StageRight, PeerRight, CallOf;
  }

  /** So among workers at rest with nothing on the way, all are through. */
  lemma {:induction false} RestMeansThrough<B>(x: Setup<B>, row: seq<Party<B>>, t: nat, p: nat)
    requires RowShaped(x.n, row) && p < x.n
    requires forall q: nat | q < x.n :: PartyRight(x, q, row[q]) && Resting(x.n, x, row[q]) && row[q].stage.Idle?
    requires forall q: nat, r: nat | q < x.n && r < x.n && q != r :: ChannelRight(x, row, [], t, q, r)
    ensures row[p].next >= |x.plan|
    decreases row[p].next
  {
    hide PartyRight, ChannelRight, Resting, Shape;
    if row[p].next < |x.plan| {
      var j := WaitsForSlower(x, row, t, p);
      RestMeansThrough(x, row, t, j);
    }
  }

  ghost predicate SomeStep<B>(n: nat, xs: seq<Setup<B>>, net: Net<B>)
    requires Shaped(n, xs, net)
  {
    exists t: nat, p: nat, step: Step :: Enabled(n, xs, net, t, p, step)
  }

  /** While a worker has calls to make, some step of some party is enabled: threads that wait never
      wait for each other in a circle, although they share managers and channels. */
  lemma NeverStuck<B>(n: nat, xs: seq<Setup<B>>, net: Net<B>, t: nat, p: nat)
    requires NetRight(n, xs, net) && t < |xs| && p < n && net.threads[t][p].next < |xs[t].plan|
    ensures SomeStep(n, xs, net)
  {
    hide PartyRight, ChannelRight, BusyRight, TagsRight, Enabled, Resting;
    if u: nat, q: nat :| u < |xs| && q < n && !Resting(n, xs[u], net.threads[u][q]) {
      NotResting(n, xs[u], q, net.threads[u][q]);
      assert PartyRight(xs[u], q, net.threads[u][q]);
      PlanBound(xs[u], q, net.threads[u][q]);
      var step := WorkerMoves(n, xs, net, u, q);
    } else if u: nat, q: nat :| u < |xs| && q < n && !net.threads[u][q].stage.Idle? {
      var step := ManagerMoves(n, xs, net, u, q);
    } else if j: nat, q: nat :| j < n && q < n && j != q && Wire(net, j, q) != [] {
      var u, step := FreeTakes(n, xs, net, j, q);
    } else {
      forall q: nat, r: nat | q < n && r < n && q != r
        ensures ChannelRight(xs[t], net.threads[t], [], t, q, r)
      {
        assert ChannelRight(xs[t], net.threads[t], Wire(net, q, r), t, q, r);
      }
      RestMeansThrough(xs[t], net.threads[t], t, p);
    }
  }

  lemma NotResting<B>(n: nat, x: Setup<B>, p: nat, s: Party<B>)
    requires !Resting(n, x, s)
    ensures s.next != |x.plan| && !Waiting(n, s)
  {
  }

  lemma PlanBound<B>(x: Setup<B>, p: nat, s: Party<B>)
    requires PartyRight(x, p, s)
    ensures s.next <= |x.plan|
  {
  }

  /** Every reachable state of the threaded phase: the temporary slot is empty whenever it is filled,
      the counters are right, a raised flag means the awaited chunk of every peer is stored, workers
      that are through have everything, and while one is not, something can happen. */
  lemma ThreadedPhaseCorrect<B(!new)>(n: nat, xs: seq<Setup<B>>, net: Net<B>, steps: nat)
    requires ValidSetups(n, xs) && Reachable(n, xs, net, steps)
    ensures Shaped(n, xs, net) && CountersRight(n, xs, net)
    ensures forall t: nat, p: nat, j: nat | Enabled(n, xs, net, t, p, TakeAhead(j)) :: net.threads[t][p].held[j].None?
    ensures forall t: nat, p: nat | Enabled(n, xs, net, t, p, Pass) :: forall j: nat | j < n && j != p ::
              ChunkStored(xs[t], net.threads[t][p], p, j, net.threads[t][p].next)
    ensures forall t: nat, p: nat | t < |xs| && p < n :: Through(xs[t], net.threads[t][p], p)
    ensures forall t: nat, p: nat | t < |xs| && p < n && net.threads[t][p].next < |xs[t].plan| :: SomeStep(n, xs, net)
  {
    hide Reachable, PartiesRight, ChannelsRight, ManagersRight, TagsRight, SomeStep, Through, CountersRight;
    hide ChunkStored;
    ReachableRight(n, xs, net, steps);
    CountersAlwaysRight(n, xs, net);
    forall t: nat, p: nat, j: nat | Enabled(n, xs, net, t, p, TakeAhead(j))
      ensures net.threads[t][p].held[j].None?
    {
      SlotEmpty(n, xs, net, t, p, j);
    }
    forall t: nat, p: nat | Enabled(n, xs, net, t, p, Pass)
      ensures forall j: nat | j < n && j != p :: ChunkStored(xs[t], net.threads[t][p], p, j, net.threads[t][p].next)
    {
      PassHasChunks(n, xs, net, t, p);
    }
    forall t: nat, p: nat | t < |xs| && p < n ensures Through(xs[t], net.threads[t][p], p) {
      ThroughHasAll(n, xs, net, t, p);
    }
    forall t: nat, p: nat | t < |xs| && p < n && net.threads[t][p].next < |xs[t].plan|
      ensures SomeStep(n, xs, net)
    {
      NeverStuck(n, xs, net, t, p);
    }
  }
}
