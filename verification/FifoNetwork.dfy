/**
 Parties that exchange messages over one unbounded FIFO channel per ordered pair.

 Each party runs a fixed list of operations: put a message into the channel to a peer, or take
 the oldest message out of the channel from a peer, waiting while that channel is empty. A `tag`
 numbers the logical message an operation belongs to; it is never transmitted. The parties are
 interleaved arbitrarily. What holds of every interleaving is proved here once, for every system
 whose sends and receives match pairwise, and is used for the key exchange and for the chunked
 all-to-all exchanges.
 */
module FifoNetwork {
  import opened Sequences

  datatype Op<M> = Send(to: nat, tag: nat, msg: M) | Recv(from: nat, tag: nat)

  /** One program per party; the index is the party's number. */
  type System<M> = seq<seq<Op<M>>>

  /** `log[p][i]` is the message that operation `i` of party `p` sent or received, so `|log[p]|` is
      the program counter of `p`. `chan[(p, q)]` holds what `p` sent and `q` has not yet taken. */
  datatype State<M> = State(log: seq<seq<M>>, chan: map<(nat, nat), seq<M>>)

  function Chan<M>(s: State<M>, p: nat, q: nat): seq<M> {
    if (p, q) in s.chan then s.chan[(p, q)] else []
  }

  function Init<M>(sys: System<M>): State<M> {
    State(seq(|sys|, p => []), map[])
  }

  predicate Shaped<M>(sys: System<M>, s: State<M>) {
    |s.log| == |sys| && forall p | 0 <= p < |sys| :: |s.log[p]| <= |sys[p]|
  }

  predicate Unfinished<M>(sys: System<M>, s: State<M>, p: nat)
    requires Shaped(sys, s)
  {
    p < |sys| && |s.log[p]| < |sys[p]|
  }

  function NextOp<M>(sys: System<M>, s: State<M>, p: nat): Op<M>
    requires Shaped(sys, s) && Unfinished(sys, s, p)
  {
    sys[p][|s.log[p]|]
  }

  /** A send never waits; a receive waits for a message. */
  predicate Enabled<M>(sys: System<M>, s: State<M>, p: nat)
    requires Shaped(sys, s)
  {
    Unfinished(sys, s, p) && (NextOp(sys, s, p).Recv? ==> Chan(s, NextOp(sys, s, p).from, p) != [])
  }

  function Next<M>(sys: System<M>, s: State<M>, p: nat): State<M>
    requires Shaped(sys, s) && Enabled(sys, s, p)
  {
    match NextOp(sys, s, p)
    case Send(q, _, m) =>
      State(s.log[p := s.log[p] + [m]], s.chan[(p, q) := Chan(s, p, q) + [m]])
    case Recv(q, _) =>
      State(s.log[p := s.log[p] + [Chan(s, q, p)[0]]], s.chan[(q, p) := Chan(s, q, p)[1..]])
  }

  predicate StepBy<M(==)>(sys: System<M>, s: State<M>, s': State<M>, p: nat) {
    Shaped(sys, s) && Enabled(sys, s, p) && s' == Next(sys, s, p)
  }

  ghost predicate Step<M>(sys: System<M>, s: State<M>, s': State<M>) {
    exists p: nat :: StepBy(sys, s, s', p)
  }

  /** Some interleaving of the parties leads to `s` in exactly `steps` steps. */
  ghost predicate Reachable<M(!new)>(sys: System<M>, s: State<M>, steps: nat)
    decreases steps
  {
    if steps == 0 then s == Init(sys)
    else exists s0 :: Reachable(sys, s0, steps - 1) && Step(sys, s0, s)
  }

  predicate Finished<M>(sys: System<M>, s: State<M>) {
    Shaped(sys, s) && forall p: nat | p < |sys| :: !Unfinished(sys, s, p)
  }

  ghost predicate Stuck<M>(sys: System<M>, s: State<M>)
    requires Shaped(sys, s)
  {
    forall p: nat | p < |sys| :: !Enabled(sys, s, p)
  }

  // ----- which systems match

  function Sends<M>(ops: seq<Op<M>>, q: nat): (r: seq<(nat, M)>)
  {
    if ops == [] then [] else
      var op := ops[|ops| - 1];
      Sends(ops[..|ops| - 1], q) + if op.Send? && op.to == q then [(op.tag, op.msg)] else []
  }

  function Recvs<M>(ops: seq<Op<M>>, p: nat): (r: seq<nat>)
  {
    if ops == [] then [] else
      var op := ops[|ops| - 1];
      Recvs(ops[..|ops| - 1], p) + if op.Recv? && op.from == p then [op.tag] else []
  }

  function Tags<M>(sends: seq<(nat, M)>): (r: seq<nat>)
  {
    seq(|sends|, i requires 0 <= i < |sends| => sends[i].0)
  }

  /** Sends of a tag come before receives of it, and before everything of a later tag. */
  function Rank<M>(op: Op<M>): nat {
    2 * op.tag + if op.Send? then 0 else 1
  }

  predicate RankOrdered<M>(ops: seq<Op<M>>) {
    forall i, j | 0 <= i < j < |ops| :: Rank(ops[i]) <= Rank(ops[j])
  }

  /** Every program follows the ranks, and what `p` sends to `q` is what `q` takes from `p`. */
  ghost predicate Matched<M>(sys: System<M>) {
    && (forall p | 0 <= p < |sys| :: RankOrdered(sys[p]))
    && (forall p, i | 0 <= p < |sys| && 0 <= i < |sys[p]| && sys[p][i].Recv? :: sys[p][i].from < |sys|)
    && (forall p: nat, q: nat | p < |sys| && q < |sys| :: Tags(Sends(sys[p], q)) == Recvs(sys[q], p))
  }

  // ----- the message every operation must carry

  predicate Carries<M(==)>(sys: System<M>, q: nat, i: nat, m: M)
    requires q < |sys| && i < |sys[q]|
  {
    match sys[q][i]
    case Send(_, _, m') => m == m'
    case Recv(p, tag) => p < |sys| && Send(q, tag, m) in sys[p]
  }

  /** Nothing was lost, reordered or mixed up so far: every logged message is the one its own
      operation names, and a channel holds exactly the sends that have not been taken. */
  ghost predicate Inv<M>(sys: System<M>, s: State<M>) {
    Shaped(sys, s) && LogsRight(sys, s) && ChannelsExact(sys, s)
  }

  ghost predicate LogsRight<M>(sys: System<M>, s: State<M>)
    requires Shaped(sys, s)
  {
    forall q: nat, i: nat | q < |sys| && i < |s.log[q]| :: Carries(sys, q, i, s.log[q][i])
  }

  ghost predicate ChannelsExact<M>(sys: System<M>, s: State<M>)
    requires Shaped(sys, s)
  {
    forall p: nat, q: nat | p < |sys| && q < |sys| :: ChannelExact(sys, s, p, q)
  }

  ghost predicate ChannelExact<M>(sys: System<M>, s: State<M>, p: nat, q: nat)
    requires Shaped(sys, s) && p < |sys| && q < |sys|
  {
    var sent := Sends(sys[p][..|s.log[p]|], q);
    var taken := |Recvs(sys[q][..|s.log[q]|], p)|;
    taken <= |sent| && Chan(s, p, q) == Payloads(sent)[taken..]
  }

  function Payloads<M>(sends: seq<(nat, M)>): (r: seq<M>)
    ensures |r| == |sends|
  {
    seq(|sends|, i requires 0 <= i < |sends| => sends[i].1)
  }

  lemma {:induction false} SendsPrefix<M>(ops: seq<Op<M>>, k: nat, q: nat)
    requires k <= |ops|
    ensures Sends(ops[..k], q) <= Sends(ops, q)
    decreases |ops|
  {
    if k == |ops| {
      assert ops[..k] == ops;
    } else {
      SendsPrefix(ops[..|ops| - 1], k, q);
      assert ops[..|ops| - 1][..k] == ops[..k];
    }
  }

  lemma {:induction false} RecvsPrefix<M>(ops: seq<Op<M>>, k: nat, p: nat)
    requires k <= |ops|
    ensures Recvs(ops[..k], p) <= Recvs(ops, p)
    decreases |ops|
  {
    if k == |ops| {
      assert ops[..k] == ops;
    } else {
      RecvsPrefix(ops[..|ops| - 1], k, p);
      assert ops[..|ops| - 1][..k] == ops[..k];
    }
  }

  lemma {:induction false} SendsAreOps<M>(ops: seq<Op<M>>, q: nat, i: nat)
    requires i < |Sends(ops, q)|
    ensures Send(q, Sends(ops, q)[i].0, Sends(ops, q)[i].1) in ops
  {
    var front := ops[..|ops| - 1];
    if i < |Sends(front, q)| {
      SendsAreOps(front, q, i);
    } else {
      assert ops[|ops| - 1] == Send(q, Sends(ops, q)[i].0, Sends(ops, q)[i].1);
    }
  }

  /** The send with number `i` is still to come when only `i` or fewer have been made. */
  lemma {:induction false} PendingSend<M>(ops: seq<Op<M>>, k: nat, q: nat, i: nat) returns (at: nat)
    requires k <= |ops| && |Sends(ops[..k], q)| <= i < |Sends(ops, q)|
    ensures k <= at < |ops| && ops[at] == Send(q, Sends(ops, q)[i].0, Sends(ops, q)[i].1)
    decreases |ops|
  {
    var front := ops[..|ops| - 1];
    assert ops[..|ops|] == ops;
    if i < |Sends(front, q)| {
      assert front[..k] == ops[..k];
      at := PendingSend(front, k, q, i);
    } else {
      at := |ops| - 1;
    }
  }

  /** The next receive takes the send whose number is the count of receives made so far. */
  lemma NextRecvIndex<M>(sys: System<M>, s: State<M>, q: nat)
    requires Matched(sys) && Shaped(sys, s) && Unfinished(sys, s, q) && NextOp(sys, s, q).Recv?
    ensures var p := NextOp(sys, s, q).from;
            var k := |Recvs(sys[q][..|s.log[q]|], p)|;
            p < |sys| && k < |Sends(sys[p], q)| && Sends(sys[p], q)[k].0 == NextOp(sys, s, q).tag
  {
    var n := |s.log[q]|;
    var op := sys[q][n];
    assert op.from < |sys|;
    assert sys[q][..n + 1][..n] == sys[q][..n];
    assert Recvs(sys[q][..n + 1], op.from) == Recvs(sys[q][..n], op.from) + [op.tag];
    RecvsPrefix(sys[q], n + 1, op.from);
    var tags := Tags(Sends(sys[op.from], q));
    assert tags == Recvs(sys[q], op.from);
    assert tags[|Recvs(sys[q][..n], op.from)|] == op.tag;
  }

  lemma InitInv<M>(sys: System<M>)
    ensures Inv(sys, Init(sys))
  {
  }

  lemma SendStep<M>(sys: System<M>, s: State<M>, s': State<M>, p: nat, a: nat, b: nat)
    requires Shaped(sys, s) && ChannelsExact(sys, s) && StepBy(sys, s, s', p)
    requires NextOp(sys, s, p).Send? && a < |sys| && b < |sys|
    ensures ChannelExact(sys, s', a, b)
  {
    var n := |s.log[p]|;
    assert sys[p][..n + 1][..n] == sys[p][..n];
    assert ChannelExact(sys, s, a, b);
    var sent := Sends(sys[a][..|s.log[a]|], b);
    var sent' := Sends(sys[a][..|s'.log[a]|], b);
    assert Recvs(sys[b][..|s'.log[b]|], a) == Recvs(sys[b][..|s.log[b]|], a);
    if a == p && NextOp(sys, s, p).to == b {
      assert Payloads(sent') == Payloads(sent) + [NextOp(sys, s, p).msg];
    } else {
      assert sent' == sent;
    }
  }

  /** What a receive finds in the channel is the message its own operation names. */
  lemma RecvHead<M>(sys: System<M>, s: State<M>, p: nat)
    requires Matched(sys) && Shaped(sys, s) && ChannelsExact(sys, s)
    requires Enabled(sys, s, p) && NextOp(sys, s, p).Recv?
    ensures Carries(sys, p, |s.log[p]|, Chan(s, NextOp(sys, s, p).from, p)[0])
  {
    var q := NextOp(sys, s, p).from;
    NextRecvIndex(sys, s, p);
    var k := |Recvs(sys[p][..|s.log[p]|], q)|;
    assert ChannelExact(sys, s, q, p);
    SendsPrefix(sys[q], |s.log[q]|, p);
    SendsAreOps(sys[q], p, k);
  }

  lemma RecvStep<M>(sys: System<M>, s: State<M>, s': State<M>, p: nat, a: nat, b: nat)
    requires Shaped(sys, s) && ChannelsExact(sys, s) && StepBy(sys, s, s', p)
    requires NextOp(sys, s, p).Recv? && a < |sys| && b < |sys|
    ensures ChannelExact(sys, s', a, b)
  {
    var n := |s.log[p]|;
    assert sys[p][..n + 1][..n] == sys[p][..n];
    assert ChannelExact(sys, s, a, b);
    assert Sends(sys[a][..|s'.log[a]|], b) == Sends(sys[a][..|s.log[a]|], b);
    var taken := |Recvs(sys[b][..|s.log[b]|], a)|;
    if b == p && NextOp(sys, s, p).from == a {
      assert |Recvs(sys[b][..|s'.log[b]|], a)| == taken + 1;
    } else {
      assert |Recvs(sys[b][..|s'.log[b]|], a)| == taken;
    }
  }

  lemma StepInv<M>(sys: System<M>, s: State<M>, s': State<M>, p: nat)
    requires Matched(sys) && Inv(sys, s) && StepBy(sys, s, s', p)
    ensures Inv(sys, s')
  {
    if NextOp(sys, s, p).Recv? {
      RecvHead(sys, s, p);
    }
    forall a: nat, b: nat | a < |sys| && b < |sys|
      ensures ChannelExact(sys, s', a, b)
    {
      if NextOp(sys, s, p).Send? {
        SendStep(sys, s, s', p, a, b);
      } else {
        RecvStep(sys, s, s', p, a, b);
      }
    }
    forall r: nat, i: nat | r < |sys| && i < |s'.log[r]|
      ensures Carries(sys, r, i, s'.log[r][i])
    {
      if i < |s.log[r]| {
        assert Carries(sys, r, i, s.log[r][i]);
      }
    }
  }

  lemma AnyStepInv<M(!new)>(sys: System<M>, s: State<M>, s': State<M>)
    requires Matched(sys) && Inv(sys, s) && Step(sys, s, s')
    ensures Inv(sys, s')
  {
    var p: nat :| StepBy(sys, s, s', p);
    StepInv(sys, s, s', p);
  }

  // ----- safety of every run

  lemma {:induction false} ReachableInv<M(!new)>(sys: System<M>, s: State<M>, steps: nat)
    requires Matched(sys) && Reachable(sys, s, steps)
    ensures Inv(sys, s)
    decreases steps
  {
    hide Inv, Step, Matched;
    if steps == 0 {
      InitInv(sys);
    } else {
      var s0 :| Reachable(sys, s0, steps - 1) && Step(sys, s0, s);
      ReachableInv(sys, s0, steps - 1);
      AnyStepInv(sys, s0, s);
    }
  }

  // ----- no run gets stuck

  lemma {:induction false} LeastRank<M>(sys: System<M>, s: State<M>, bound: nat) returns (p: nat)
    requires Shaped(sys, s) && bound <= |sys|
    requires exists r: nat :: r < bound && Unfinished(sys, s, r)
    ensures p < bound && Unfinished(sys, s, p)
    ensures forall r: nat | r < bound && Unfinished(sys, s, r) ::
              Rank(NextOp(sys, s, p)) <= Rank(NextOp(sys, s, r))
  {
    var last := bound - 1;
    if exists r: nat :: r < last && Unfinished(sys, s, r) {
      p := LeastRank(sys, s, last);
      if Unfinished(sys, s, last) && Rank(NextOp(sys, s, last)) < Rank(NextOp(sys, s, p)) {
        p := last;
      }
    } else {
      p := last;
    }
  }

  /** A party that waits does so for a send that its peer has still to make. */
  lemma WaitsForPendingSend<M>(sys: System<M>, s: State<M>, p: nat)
    requires Matched(sys) && Shaped(sys, s) && ChannelsExact(sys, s)
    requires Unfinished(sys, s, p) && !Enabled(sys, s, p)
    ensures var q := NextOp(sys, s, p).from;
            Unfinished(sys, s, q) && Rank(NextOp(sys, s, q)) < Rank(NextOp(sys, s, p))
  {
    var q := NextOp(sys, s, p).from;
    NextRecvIndex(sys, s, p);
    assert ChannelExact(sys, s, q, p);
    var at := PendingSend(sys[q], |s.log[q]|, p, |Recvs(sys[p][..|s.log[p]|], q)|);
    assert RankOrdered(sys[q]);
  }

  /** Whenever some party has work left, some party can move: the one whose next operation has the
      least rank never waits. */
  lemma NeverStuck<M>(sys: System<M>, s: State<M>)
    requires Matched(sys) && Inv(sys, s) && !Finished(sys, s)
    ensures !Stuck(sys, s)
  {
    var p := LeastRank(sys, s, |sys|);
    if !Enabled(sys, s, p) {
      WaitsForPendingSend(sys, s, p);
      assert false;
    }
  }

  // ----- every run ends

  function TotalLength<T>(xs: seq<seq<T>>): nat {
    if xs == [] then 0 else TotalLength(xs[..|xs| - 1]) + |xs[|xs| - 1]|
  }

  lemma {:induction false} LengthGrows<T>(xs: seq<seq<T>>, p: nat, x: T)
    requires p < |xs|
    ensures TotalLength(xs[p := xs[p] + [x]]) == TotalLength(xs) + 1
  {
    var ys := xs[p := xs[p] + [x]];
    if p < |xs| - 1 {
      LengthGrows(xs[..|xs| - 1], p, x);
      assert ys[..|ys| - 1] == xs[..|xs| - 1][p := xs[p] + [x]];
    } else {
      assert ys[..|ys| - 1] == xs[..|xs| - 1];
    }
  }

  lemma {:induction false} LengthMonotone<S, T>(xs: seq<seq<S>>, ys: seq<seq<T>>)
    requires |xs| == |ys| && forall p | 0 <= p < |xs| :: |xs[p]| <= |ys[p]|
    ensures TotalLength(xs) <= TotalLength(ys)
    ensures TotalLength(xs) == TotalLength(ys) ==> forall p | 0 <= p < |xs| :: |xs[p]| == |ys[p]|
  {
    if xs != [] {
      LengthMonotone(xs[..|xs| - 1], ys[..|ys| - 1]);
    }
  }

  lemma StepLength<M>(sys: System<M>, s: State<M>, s': State<M>)
    requires Step(sys, s, s')
    ensures TotalLength(s'.log) == TotalLength(s.log) + 1
  {
    var p: nat :| StepBy(sys, s, s', p);
    LengthGrows(s.log, p, s'.log[p][|s.log[p]|]);
  }

  lemma {:induction false} ReachableLength<M(!new)>(sys: System<M>, s: State<M>, steps: nat)
    requires Reachable(sys, s, steps)
    ensures TotalLength(s.log) == steps
    decreases steps
  {
    if steps == 0 {
      EmptyLogs<M>(|sys|);
    } else {
      var s0 :| Reachable(sys, s0, steps - 1) && Step(sys, s0, s);
      ReachableLength(sys, s0, steps - 1);
      StepLength(sys, s0, s);
    }
  }

  lemma {:induction false} EmptyLogs<M>(n: nat)
    ensures TotalLength(seq<seq<M>>(n, p => [])) == 0
  {
    if n > 0 {
      EmptyLogs<M>(n - 1);
      assert seq<seq<M>>(n, p => [])[..n - 1] == seq<seq<M>>(n - 1, p => []);
    }
  }

  lemma FinishedIsFull<M>(sys: System<M>, s: State<M>)
    requires Shaped(sys, s)
    ensures TotalLength(s.log) <= TotalLength(sys)
    ensures Finished(sys, s) <==> TotalLength(s.log) == TotalLength(sys)
  {
    LengthMonotone(s.log, sys);
    if Finished(sys, s) {
      forall p | 0 <= p < |sys| ensures |s.log[p]| == |sys[p]| {
        assert !Unfinished(sys, s, p);
      }
      LengthMonotone(sys, s.log);
    }
  }

  /** What is known of a party's position after any number of steps of any interleaving. */
  ghost predicate Outcome<M>(sys: System<M>, s: State<M>, steps: nat) {
    && Inv(sys, s)
    && steps <= TotalLength(sys)
    && (Stuck(sys, s) ==> Finished(sys, s))
    && (Finished(sys, s) <==> steps == TotalLength(sys))
  }

  lemma InvOutcome<M>(sys: System<M>, s: State<M>)
    requires Matched(sys) && Inv(sys, s)
    ensures Outcome(sys, s, TotalLength(s.log))
  {
    FinishedIsFull(sys, s);
    if !Finished(sys, s) {
      NeverStuck(sys, s);
    }
  }

  /** No interleaving is longer than the programs together, and one that cannot be extended has
      run every program to its end, with the right message at every operation. */
  lemma EveryRunCompletes<M(!new)>(sys: System<M>, s: State<M>, steps: nat)
    requires Matched(sys) && Reachable(sys, s, steps)
    ensures Outcome(sys, s, steps)
  {
    hide Inv, Matched, Reachable;
    ReachableInv(sys, s, steps);
    ReachableLength(sys, s, steps);
    InvOutcome(sys, s);
  }

  /** Every run can be continued to one in which all programs are through. */
  lemma {:induction false} EveryRunExtends<M(!new)>(sys: System<M>, s: State<M>, steps: nat)
    returns (end: State<M>, total: nat)
    requires Matched(sys) && Reachable(sys, s, steps)
    ensures Reachable(sys, end, total) && Finished(sys, end)
    decreases TotalLength(sys) - steps
  {
    hide Matched, Reachable, LogsRight, ChannelsExact, TotalLength;
    EveryRunCompletes(sys, s, steps);
    if Finished(sys, s) {
      end, total := s, steps;
    } else {
      var p: nat :| p < |sys| && Enabled(sys, s, p);
      RunGoesOn(sys, s, Next(sys, s, p), p, steps);
      EveryRunCompletes(sys, Next(sys, s, p), steps + 1);
      end, total := EveryRunExtends(sys, Next(sys, s, p), steps + 1);
    }
  }

  lemma RunGoesOn<M(!new)>(sys: System<M>, s: State<M>, s': State<M>, p: nat, steps: nat)
    requires Reachable(sys, s, steps) && StepBy(sys, s, s', p)
    ensures Reachable(sys, s', steps + 1)
  {
    assert Step(sys, s, s');
  }

  // ----- matching by tags

  lemma SameTags(xs: seq<nat>, ys: seq<nat>)
    requires Increasing(xs) && Increasing(ys) && forall x: nat :: x in xs <==> x in ys
    ensures xs == ys
  {
    hide Increasing;
    forall x: int ensures x in xs <==> x in ys {
      if x >= 0 {
        var tag: nat := x;
        assert tag in xs <==> tag in ys;
      }
    }
    SortedUnique(xs, ys);
  }

  /** The sends to a peer carry increasing tags, and so do the receives from a peer. */
  predicate TagsIncrease<M>(ops: seq<Op<M>>) {
    && (forall i, j | 0 <= i < j < |ops| && ops[i].Send? && ops[j].Send? && ops[i].to == ops[j].to ::
          ops[i].tag < ops[j].tag)
    && (forall i, j | 0 <= i < j < |ops| && ops[i].Recv? && ops[j].Recv? && ops[i].from == ops[j].from ::
          ops[i].tag < ops[j].tag)
  }

  ghost predicate SendsTag<M>(ops: seq<Op<M>>, q: nat, tag: nat) {
    exists i :: 0 <= i < |ops| && ops[i].Send? && ops[i].to == q && ops[i].tag == tag
  }

  predicate RecvsTag<M>(ops: seq<Op<M>>, p: nat, tag: nat) {
    exists i :: 0 <= i < |ops| && ops[i].Recv? && ops[i].from == p && ops[i].tag == tag
  }

  lemma {:induction false} SendTags<M>(ops: seq<Op<M>>, q: nat)
    requires TagsIncrease(ops)
    ensures Increasing(Tags(Sends(ops, q)))
    ensures forall tag: nat :: tag in Tags(Sends(ops, q)) <==> SendsTag(ops, q, tag)
  {
    if ops != [] {
      var front, op := ops[..|ops| - 1], ops[|ops| - 1];
      SendTags(front, q);
      var before := Tags(Sends(front, q));
      if op.Send? && op.to == q {
        forall k | 0 <= k < |before| ensures before[k] < op.tag {
          assert before[k] in before;
          assert SendsTag(front, q, before[k]);
        }
      }
      forall tag: nat
        ensures SendsTag(ops, q, tag) <==> SendsTag(front, q, tag) || (op.Send? && op.to == q && op.tag == tag)
      {
        if SendsTag(front, q, tag) {
          var i :| 0 <= i < |front| && front[i].Send? && front[i].to == q && front[i].tag == tag;
          assert ops[i] == front[i];
        }
      }
      if op.Send? && op.to == q {
        assert Tags(Sends(ops, q)) == before + [op.tag];
      } else {
        assert Tags(Sends(ops, q)) == before;
      }
    }
  }

  lemma {:induction false} RecvTags<M>(ops: seq<Op<M>>, p: nat)
    requires TagsIncrease(ops)
    ensures Increasing(Recvs(ops, p))
    ensures forall tag: nat :: tag in Recvs(ops, p) <==> RecvsTag(ops, p, tag)
  {
    if ops != [] {
      var front, op := ops[..|ops| - 1], ops[|ops| - 1];
      RecvTags(front, p);
      var before := Recvs(front, p);
      if op.Recv? && op.from == p {
        forall k | 0 <= k < |before| ensures before[k] < op.tag {
          assert before[k] in before;
          assert RecvsTag(front, p, before[k]);
        }
      }
      forall tag: nat
        ensures RecvsTag(ops, p, tag) <==> RecvsTag(front, p, tag) || (op.Recv? && op.from == p && op.tag == tag)
      {
        if RecvsTag(front, p, tag) {
          var i :| 0 <= i < |front| && front[i].Recv? && front[i].from == p && front[i].tag == tag;
          assert ops[i] == front[i];
        }
      }
    }
  }

  /** Programs whose tagged sends and receives answer each other one to one are matched. */
  lemma MatchedByTags<M>(sys: System<M>)
    requires forall p | 0 <= p < |sys| :: RankOrdered(sys[p]) && TagsIncrease(sys[p])
    requires forall p, i | 0 <= p < |sys| && 0 <= i < |sys[p]| && sys[p][i].Recv? :: sys[p][i].from < |sys|
    requires forall p: nat, q: nat, tag: nat | p < |sys| && q < |sys| ::
               SendsTag(sys[p], q, tag) <==> RecvsTag(sys[q], p, tag)
    ensures Matched(sys)
  {
    forall p: nat, q: nat | p < |sys| && q < |sys|
      ensures Tags(Sends(sys[p], q)) == Recvs(sys[q], p)
    {
      SendTags(sys[p], q);
      RecvTags(sys[q], p);
      SameTags(Tags(Sends(sys[p], q)), Recvs(sys[q], p));
    }
  }
}
