/**
 Every run of the threaded phase ends: each step makes progress by a measure that is bounded by the
 sizes of the calls.
 */
module ThreadedRuns {
  import opened Bits
  import opened AllToAll
  import opened ThreadLane
  import opened ThreadedManager

  /** Messages that the manager of `p` has taken, of the peers below `k`. */
  function TakenBelow<B>(s: Party<B>, p: nat, k: nat): (r: nat)
    requires k <= |s.written| && k <= |s.held|
  {
    if k == 0 then 0 else TakenBelow(s, p, k - 1) + if k - 1 == p then 0 else Taken(s, k - 1)
  }

  /** How far the manager is with the pass, counted back from its end. */
  function Position(n: nat, stage: Stage): int {
    match stage
    case Reading(_) => 1
    case Restoring(place, _) => place + 1 - n
    case _ => 0
  }

  function Product(a: nat, b: int): int { a * b }

  function Measure<B>(n: nat, p: nat, s: Party<B>): int
    requires Shape(n, s)
  {
    s.calls + s.next + Product(s.next, n) + s.sent + 2 * TakenBelow(s, p, n) + Product(RoundsRaised(s), n)
    + Position(n, s.stage)
  }

  function Limit(n: nat, pieces: nat): int {
    4 + 2 * pieces + Product(pieces, n) + n + 2 * Product(n, pieces) + Product(pieces + 1, n)
  }

  lemma ProductNext(a: nat, b: int)
    ensures Product(a + 1, b) == Product(a, b) + b && Product(0, b) == 0
  {
  }

  lemma ProductGrows(a: nat, a': nat, b: nat)
    requires a <= a'
    ensures Product(a, b) <= Product(a', b)
  {
    ProductMonotone(b, a, a');
  }

  lemma {:induction false} TakenAtMost<B>(x: Setup<B>, p: nat, s: Party<B>, k: nat)
    requires PartyRight(x, p, s) && k <= x.n
    ensures TakenBelow(s, p, k) <= Product(k, |x.plan|)
    decreases k
  {
    hide StageRight, WorkerRight, CallOf;
    if k == 0 {
      ProductNext(0, |x.plan|);
    } else {
      TakenAtMost(x, p, s, k - 1);
      ProductNext(k - 1, |x.plan|);
      if k - 1 != p {
        assert PeerRight(x, p, s, k - 1);
      }
    }
  }

  lemma {:induction false} CallsAtMost(plan: seq<Piece>, c: nat)
    requires c <= |plan|
    ensures CallOf(plan, c) <= c
  {
    if c > 0 {
      CallsAtMost(plan, c - 1);
    }
  }

  lemma PositionAtMost<B>(x: Setup<B>, p: nat, s: Party<B>)
    requires PartyRight(x, p, s)
    ensures Position(x.n, s.stage) <= 1
  {
  }

  lemma MeasureBounded<B>(x: Setup<B>, p: nat, s: Party<B>)
    requires PartyRight(x, p, s)
    ensures Measure(x.n, p, s) <= Limit(x.n, |x.plan|)
  {
    TakenAtMost(x, p, s, x.n);
    PositionAtMost(x, p, s);
    CallsAtMost(x.plan, s.next);
    ProductGrows(s.next, |x.plan|, x.n);
    ProductGrows(RoundsRaised(s), |x.plan| + 1, x.n);
    hide StageRight, PeerRight, Product, Position;
  }

  lemma {:induction false} TakenSame<B>(s: Party<B>, s': Party<B>, p: nat, k: nat)
    requires k <= |s.written| && k <= |s.held| && k <= |s'.written| && k <= |s'.held|
    requires forall j: nat | j < k && j != p :: Taken(s', j) == Taken(s, j)
    ensures TakenBelow(s', p, k) == TakenBelow(s, p, k)
  {
    hide Taken;
    if k > 0 {
      TakenSame(s, s', p, k - 1);
    }
  }

  lemma {:induction false} TakenMore<B>(s: Party<B>, s': Party<B>, p: nat, k: nat, i: nat)
    requires k <= |s.written| && k <= |s.held| && k <= |s'.written| && k <= |s'.held| && i < k && i != p
    requires forall j: nat | j < k && j != p :: Taken(s', j) == Taken(s, j) + if j == i then 1 else 0
    ensures TakenBelow(s', p, k) == TakenBelow(s, p, k) + 1
  {
    hide Taken;
    if i < k - 1 {
      TakenMore(s, s', p, k - 1, i);
    } else {
      TakenSame(s, s', p, k - 1);
    }
  }

  // ----- every step makes progress

  /** The change in the parts of the measure other than what was taken. */
  function Rest<B>(n: nat, s: Party<B>): int {
    s.calls + s.next + Product(s.next, n) + s.sent + Product(RoundsRaised(s), n) + Position(n, s.stage)
  }

  lemma WorkerGains<B>(n: nat, xs: seq<Setup<B>>, net: Net<B>, t: nat, p: nat, step: Step)
    requires NetRight(n, xs, net) && Enabled(n, xs, net, t, p, step)
    requires step.StartCall? || step.SendNext? || step.Pass?
    ensures Rest(n, NextParty(n, xs, net, t, p, step)) > Rest(n, net.threads[t][p])
  {
    hide PartiesRight, ChannelsRight, ManagersRight, TagsRight, Position;
    var s := net.threads[t][p];
    ProductNext(s.next, n);
    hide Product;
  }

  lemma ManagerGains<B>(n: nat, xs: seq<Setup<B>>, net: Net<B>, t: nat, p: nat, step: Step)
    requires NetRight(n, xs, net) && Enabled(n, xs, net, t, p, step)
    requires step.Begin? || step.Raise? || step.Restore? || step.RaiseAgain?
    ensures Rest(n, NextParty(n, xs, net, t, p, step)) > Rest(n, net.threads[t][p])
  {
    hide ChannelsRight, ManagersRight, TagsRight, PartyRight, Count, Cut;
    var s := net.threads[t][p];
    assert PartyRight(xs[t], p, s);
    match step
    case Begin(j) =>
      assert s.stage.Idle?;
    case Raise =>
      ProductNext(RoundsRaised(s), n);
      hide Product;
    case Restore => RestoreGains(xs[t], p, s);
    case RaiseAgain => NeverRaisesAgain(xs[t], p, s);
  }

  lemma RestoreGains<B>(x: Setup<B>, p: nat, s: Party<B>)
    requires PartyRight(x, p, s) && s.stage.Restoring? && Other(p, s.stage.place) < x.n
    ensures Rest(x.n, Restored(x.n, s, p)) == Rest(x.n, s) + 1
  {
    RestoredFields(x, p, s);
    RestoringPlace(x, p, s);
    hide PartyRight, Product;
    var s' := Restored(x.n, s, p);
    assert s'.next == s.next && s'.sent == s.sent && s'.calls == s.calls;
  }

  lemma RestoringPlace<B>(x: Setup<B>, p: nat, s: Party<B>)
    requires PartyRight(x, p, s) && s.stage.Restoring?
    ensures s.stage.place + 1 < x.n
  {
  }

  lemma StoreLosesLittle<B>(n: nat, xs: seq<Setup<B>>, net: Net<B>, t: nat, p: nat)
    requires NetRight(n, xs, net) && Enabled(n, xs, net, t, p, Store)
    ensures Rest(n, NextParty(n, xs, net, t, p, Store)) == Rest(n, net.threads[t][p]) - 1
  {
    hide ChannelsRight, ManagersRight, TagsRight, PartyRight, Product;
    var s := net.threads[t][p];
    assert PartyRight(xs[t], p, s);
    StoredNotComplete(xs[t], p, s, Wire(net, s.stage.peer, p)[0].1);
  }

  lemma StoredNotComplete<B>(x: Setup<B>, p: nat, s: Party<B>, m: Message<B>)
    requires PartyRight(x, p, s) && s.stage.Reading?
    ensures var t := Stored(x.n, s, p, s.stage.peer, m);
            t.stage == if s.read + 2 == x.n then Raising(s.stage.peer) else Idle
  {
    hide CallOf, StoreRight, Count, Cut, WorkerRight;
    CountSet(s.finished, s.stage.peer);
    CountPeers(s.finished[s.stage.peer := true], p);
  }

  lemma TakingCounts<B>(x: Setup<B>, p: nat, s: Party<B>, step: Step, s': Party<B>, i: nat)
    requires Effect(x, p, s, step, s') && i < x.n && i != p && TakesFrom(s, step, i)
    ensures Shape(x.n, s') && TakenBelow(s', p, x.n) == TakenBelow(s, p, x.n) + 1
  {
    hide PartyRight, Taken, SentTo;
    assert forall j: nat | j < x.n && j != i :: !TakesFrom(s, step, j);
    ShapeOf(x, p, s');
    TakenMore(s, s', p, x.n, i);
  }

  lemma NotTakingCounts<B>(x: Setup<B>, p: nat, s: Party<B>, step: Step, s': Party<B>)
    requires Effect(x, p, s, step, s') && !step.TakeAhead? && !step.Store?
    ensures Shape(x.n, s') && TakenBelow(s', p, x.n) == TakenBelow(s, p, x.n)
  {
    hide PartyRight, Taken, SentTo;
    ShapeOf(x, p, s');
    TakenSame(s, s', p, x.n);
  }

  lemma ShapeOf<B>(x: Setup<B>, p: nat, s: Party<B>)
    requires PartyRight(x, p, s)
    ensures Shape(x.n, s)
  {
  }

  lemma StepGains<B>(n: nat, xs: seq<Setup<B>>, net: Net<B>, t: nat, p: nat, step: Step)
    requires NetRight(n, xs, net) && Enabled(n, xs, net, t, p, step)
    ensures t < |xs| && p < n && Shape(n, NextParty(n, xs, net, t, p, step)) && Shape(n, net.threads[t][p])
    ensures Measure(n, p, NextParty(n, xs, net, t, p, step)) > Measure(n, p, net.threads[t][p])
  {
    InRange(n, xs, net, t, p, step);
    var s := net.threads[t][p];
    assert Shape(n, s) && xs[t].n == n;
    StepEffect(n, xs, net, t, p, step);
    if step.TakeAhead? {
      TakeAheadRest(n, xs, net, t, p, step.from);
      hide NetRight, Enabled, NextParty, Rest;
      TakingCounts(xs[t], p, s, step, NextParty(n, xs, net, t, p, step), step.from);
    } else if step.Store? {
      StoreLosesLittle(n, xs, net, t, p);
      TakesStored(n, xs, net, t, p);
      hide NetRight, Enabled, NextParty, Rest;
      TakingCounts(xs[t], p, s, step, NextParty(n, xs, net, t, p, step), s.stage.peer);
    } else {
      if step.StartCall? || step.SendNext? || step.Pass? {
        WorkerGains(n, xs, net, t, p, step);
      } else {
        ManagerGains(n, xs, net, t, p, step);
      }
      hide NetRight, Enabled, NextParty, Rest;
      NotTakingCounts(xs[t], p, s, step, NextParty(n, xs, net, t, p, step));
    }
    MeasureParts(n, p, s);
    MeasureParts(n, p, NextParty(n, xs, net, t, p, step));
    hide Measure, TakenBelow, Effect, NetRight, Enabled, NextParty, Rest;
  }

  lemma MeasureParts<B>(n: nat, p: nat, s: Party<B>)
    requires Shape(n, s)
    ensures Measure(n, p, s) == Rest(n, s) + 2 * TakenBelow(s, p, n)
  {
  }

  lemma TakeAheadRest<B>(n: nat, xs: seq<Setup<B>>, net: Net<B>, t: nat, p: nat, j: nat)
    requires Shaped(n, xs, net) && Enabled(n, xs, net, t, p, TakeAhead(j))
    ensures Rest(n, NextParty(n, xs, net, t, p, TakeAhead(j))) == Rest(n, net.threads[t][p])
    ensures j < n && j != p && TakesFrom(net.threads[t][p], TakeAhead(j), j)
  {
    hide Product, Position;
  }

  lemma TakesStored<B>(n: nat, xs: seq<Setup<B>>, net: Net<B>, t: nat, p: nat)
    requires Shaped(n, xs, net) && Enabled(n, xs, net, t, p, Store)
    ensures var s := net.threads[t][p];
            s.stage.Reading? && s.stage.peer < n && s.stage.peer != p
            && forall j: nat :: TakesFrom(s, Store, j) <==> j == s.stage.peer
  {
  }

  // ----- all parties and threads together

  function RowTotal<B>(n: nat, row: seq<Party<B>>, k: nat): int
    requires RowShaped(n, row) && k <= n
  {
    if k == 0 then 0 else RowTotal(n, row, k - 1) + Measure(n, k - 1, row[k - 1])
  }

  function Total<B>(n: nat, rows: seq<seq<Party<B>>>, k: nat): int
    requires k <= |rows| && forall t | 0 <= t < |rows| :: RowShaped(n, rows[t])
  {
    if k == 0 then 0 else Total(n, rows, k - 1) + RowTotal(n, rows[k - 1], n)
  }

  function TotalLimit<B>(n: nat, xs: seq<Setup<B>>, k: nat): int
    requires k <= |xs|
  {
    if k == 0 then 0 else TotalLimit(n, xs, k - 1) + Product(n, Limit(n, |xs[k - 1].plan|))
  }

  lemma {:induction false} RowRaised<B>(n: nat, row: seq<Party<B>>, p: nat, s: Party<B>, k: nat)
    requires RowShaped(n, row) && p < n && Shape(n, s) && k <= n
    ensures RowShaped(n, row[p := s])
    ensures RowTotal(n, row[p := s], k)
         == RowTotal(n, row, k) + if p < k then Measure(n, p, s) - Measure(n, p, row[p]) else 0
  {
    hide Measure;
    if k > 0 {
      RowRaised(n, row, p, s, k - 1);
    }
  }

  lemma {:induction false} TotalRaised<B>(n: nat, rows: seq<seq<Party<B>>>, t: nat, row: seq<Party<B>>, k: nat)
    requires k <= |rows| && t < |rows| && RowShaped(n, row) && forall u | 0 <= u < |rows| :: RowShaped(n, rows[u])
    ensures Total(n, rows[t := row], k)
         == Total(n, rows, k) + if t < k then RowTotal(n, row, n) - RowTotal(n, rows[t], n) else 0
  {
    hide RowTotal, RowShaped;
    if k > 0 {
      TotalRaised(n, rows, t, row, k - 1);
    }
  }

  lemma StepRaisesTotal<B>(n: nat, xs: seq<Setup<B>>, net: Net<B>, t: nat, p: nat, step: Step)
    requires NetRight(n, xs, net) && Enabled(n, xs, net, t, p, step)
    requires Shaped(n, xs, Next(n, xs, net, t, p, step))
    ensures Total(n, Next(n, xs, net, t, p, step).threads, |xs|) > Total(n, net.threads, |xs|)
  {
    StepGains(n, xs, net, t, p, step);
    hide PartiesRight, ChannelsRight, ManagersRight, TagsRight, Enabled, NextParty, NextChan, Measure, RowTotal, Total;
    var row := net.threads[t];
    var s' := NextParty(n, xs, net, t, p, step);
    RowRaised(n, row, p, s', n);
    TotalRaised(n, net.threads, t, row[p := s'], |xs|);
  }

  lemma {:induction false} FreshRow<B>(n: nat, k: nat)
    requires k <= n
    ensures RowShaped(n, seq(n, p => Fresh<B>(n)))
    ensures RowTotal(n, seq(n, p => Fresh<B>(n)), k) == 0
  {
    if k > 0 {
      FreshRow<B>(n, k - 1);
      FreshMeasure<B>(n, k - 1, n);
    }
  }

  lemma {:induction false} FreshMeasure<B>(n: nat, p: nat, k: nat)
    requires k <= n
    ensures TakenBelow(Fresh<B>(n), p, k) == 0
    ensures k == n ==> Measure(n, p, Fresh<B>(n)) == 0
  {
    ProductNext(0, n);
    hide Product;
    if k > 0 {
      FreshMeasure<B>(n, p, k - 1);
    }
  }

  lemma {:induction false} InitTotal<B>(n: nat, xs: seq<Setup<B>>, k: nat)
    requires ValidSetups(n, xs) && k <= |xs|
    ensures Total(n, Init(n, xs).threads, k) == 0
  {
    hide RowTotal, ValidSetups, Fresh;
    if k > 0 {
      InitTotal(n, xs, k - 1);
      FreshRow<B>(n, n);
    }
  }

  lemma {:induction false} RowBounded<B>(x: Setup<B>, row: seq<Party<B>>, k: nat)
    requires RowShaped(x.n, row) && k <= x.n && forall p: nat | p < x.n :: PartyRight(x, p, row[p])
    ensures RowTotal(x.n, row, k) <= Product(k, Limit(x.n, |x.plan|))
  {
    hide PartyRight, Limit, Measure;
    if k > 0 {
      RowBounded(x, row, k - 1);
      MeasureBounded(x, k - 1, row[k - 1]);
      ProductNext(k - 1, Limit(x.n, |x.plan|));
      hide Product;
    }
  }

  lemma {:induction false} TotalBounded<B>(n: nat, xs: seq<Setup<B>>, net: Net<B>, k: nat)
    requires NetRight(n, xs, net) && k <= |xs|
    ensures Total(n, net.threads, k) <= TotalLimit(n, xs, k)
  {
    hide RowTotal, Limit, ChannelsRight, ManagersRight, TagsRight, PartyRight, Product;
    if k > 0 {
      TotalBounded(n, xs, net, k - 1);
      RowBounded(xs[k - 1], net.threads[k - 1], n);
    }
  }

  lemma {:induction false} StepsAddUp<B(!new)>(n: nat, xs: seq<Setup<B>>, net: Net<B>, steps: nat)
    requires ValidSetups(n, xs) && Reachable(n, xs, net, steps)
    ensures NetRight(n, xs, net) && Total(n, net.threads, |xs|) >= steps
    decreases steps
  {
    hide NetRight, ValidSetups, Total, AnyStep;
    ReachableRight(n, xs, net, steps);
    NetShaped(n, xs, net);
    if steps == 0 {
      InitTotal(n, xs, |xs|);
    } else {
      var before :| Reachable(n, xs, before, steps - 1) && AnyStep(n, xs, before, net);
      StepsAddUp(n, xs, before, steps - 1);
      AnyStepRaises(n, xs, before, net);
    }
  }

  lemma NetShaped<B>(n: nat, xs: seq<Setup<B>>, net: Net<B>)
    requires NetRight(n, xs, net)
    ensures Shaped(n, xs, net)
  {
  }

  lemma AnyStepRaises<B(!new)>(n: nat, xs: seq<Setup<B>>, net: Net<B>, net': Net<B>)
    requires NetRight(n, xs, net) && AnyStep(n, xs, net, net') && Shaped(n, xs, net')
    ensures Shaped(n, xs, net) && Total(n, net'.threads, |xs|) > Total(n, net.threads, |xs|)
  {
    hide NetRight, Enabled, Next, Total;
    NetShaped(n, xs, net);
    var t: nat, p: nat, step: Step :| StepBy(n, xs, net, net', t, p, step);
    StepRaisesTotal(n, xs, net, t, p, step);
  }

  /** No run of the threaded phase is longer than a bound that depends only on the calls, and one that
      cannot be continued has every worker through with its calls. */
  lemma EveryRunEnds<B(!new)>(n: nat, xs: seq<Setup<B>>, net: Net<B>, steps: nat)
    requires ValidSetups(n, xs) && Reachable(n, xs, net, steps)
    ensures steps <= TotalLimit(n, xs, |xs|)
    ensures Shaped(n, xs, net)
    ensures !SomeStep(n, xs, net) ==>
              forall t: nat, p: nat | t < |xs| && p < n :: net.threads[t][p].next == |xs[t].plan|
  {
    hide PartiesRight, ChannelsRight, ManagersRight, TagsRight, Total, TotalLimit, SomeStep, Reachable;
    StepsAddUp(n, xs, net, steps);
    TotalBounded(n, xs, net, |xs|);
    if !SomeStep(n, xs, net) {
      forall t: nat, p: nat | t < |xs| && p < n ensures net.threads[t][p].next == |xs[t].plan| {
        PlanEnd(n, xs, net, t, p);
        if net.threads[t][p].next < |xs[t].plan| {
          NeverStuck(n, xs, net, t, p);
        }
      }
    }
  }

  lemma PlanEnd<B>(n: nat, xs: seq<Setup<B>>, net: Net<B>, t: nat, p: nat)
    requires NetRight(n, xs, net) && t < |xs| && p < n
    ensures net.threads[t][p].next <= |xs[t].plan|
  {
    hide ChannelsRight, ManagersRight, TagsRight, PartyRight;
    PlanBound(xs[t], p, net.threads[t][p]);
  }

  predicate AllThrough<B>(n: nat, xs: seq<Setup<B>>, net: Net<B>)
    requires Shaped(n, xs, net)
  {
    forall t: nat, p: nat | t < |xs| && p < n :: net.threads[t][p].next == |xs[t].plan|
  }

  /** Every run can be continued until all workers are through. */
  lemma {:induction false} EveryRunExtends<B(!new)>(n: nat, xs: seq<Setup<B>>, net: Net<B>, steps: nat)
      returns (end: Net<B>, total: nat)
    requires ValidSetups(n, xs) && Reachable(n, xs, net, steps)
    ensures Reachable(n, xs, end, total) && Shaped(n, xs, end) && AllThrough(n, xs, end)
    decreases TotalLimit(n, xs, |xs|) - steps
  {
    hide Reachable, Shaped, Enabled, Next, TotalLimit, ValidSetups;
    EveryRunEnds(n, xs, net, steps);
    if SomeStep(n, xs, net) {
      var t: nat, p: nat, step: Step :| Enabled(n, xs, net, t, p, step);
      RunGoesOn(n, xs, net, Next(n, xs, net, t, p, step), t, p, step, steps);
      EveryRunEnds(n, xs, Next(n, xs, net, t, p, step), steps + 1);
      end, total := EveryRunExtends(n, xs, Next(n, xs, net, t, p, step), steps + 1);
    } else {
      end, total := net, steps;
    }
  }

  lemma RunGoesOn<B(!new)>(n: nat, xs: seq<Setup<B>>, net: Net<B>, net': Net<B>, t: nat, p: nat, step: Step, steps: nat)
    requires ValidSetups(n, xs) && Reachable(n, xs, net, steps) && StepBy(n, xs, net, net', t, p, step)
    ensures Reachable(n, xs, net', steps + 1)
  {
    assert AnyStep(n, xs, net, net');
  }
}
