/** What the order of one Reconcile means: every Reconcile is a short run of the protocol, and two consequences of
    returning early, or not, after the fencing pass. */
module ReconcileOrder {
  import opened Selection
  import opened AgModel
  import opened AgRuns
  import opened Convergence

  predicate Timed(w: World, io: ReconcileIO) {
    && w.now <= io.fencing.checkAt <= io.fencing.fenceAt <= io.fencing.recordAt
    && w.now <= io.failover.cooldownAt <= io.failover.lease.readAt <= io.failover.lease.checkAt <= io.failover.recordAt
  }

  /** The steps of the protocol that one Reconcile takes. */
  function StepsOf(spec: Spec, autoFailover: bool, w: World, io: ReconcileIO): seq<Step>
    requires Knows(spec, w) && |spec.order| > 0
  {
    match ReconcilePass(spec, autoFailover, w, io).outcome
    case NoCredentials => if io.conditionLands then [Complain(SecretReason(io.contact))] else []
    case Unreachable => []
    case FailoverRan => [AutoFailover(io.failover)]
    case FencingRan => [FencingPass(io.fencing)]
    case PrimaryMoved => [FencingPass(io.fencing)]
    case Observed =>
      if w.stored.primary == "" then [Observe(io.observe)] else [FencingPass(io.fencing), Observe(io.observe)]
  }

  lemma RunOne(spec: Spec, w: World, step: Step)
    requires spec.Valid() && Knows(spec, w)
    ensures Run(spec, w, [step]) == Apply(spec, w, step)
  {
    ApplyKnows(spec, w, step);
  }

  lemma RunTwo(spec: Spec, w: World, first: Step, second: Step)
    requires spec.Valid() && Knows(spec, w)
    ensures Knows(spec, Apply(spec, w, first))
    ensures Run(spec, w, [first, second]) == Apply(spec, Apply(spec, w, first), second)
  {
    ApplyKnows(spec, w, first);
    assert [first, second][1..] == [second];
    RunOne(spec, Apply(spec, w, first), second);
  }

  lemma ApplyPass(spec: Spec, w: World, io: FencingIO)
    requires spec.Valid() && Knows(spec, w) && w.now <= io.checkAt <= io.fenceAt <= io.recordAt
    ensures Apply(spec, w, FencingPass(io)) == FencePass(spec, w, io).world.(now := io.recordAt)
  {
  }

  lemma ApplyObserve(spec: Spec, w: World, io: ObserveIO)
    requires spec.Valid() && Knows(spec, w)
    ensures Apply(spec, w, Observe(io)) == ObservePass(spec, w, io)
  {
  }

  /** The last case: the pass, which fences nothing, and then the observation. */
  lemma ObservedIsARun(spec: Spec, w: World, io: ReconcileIO, mid: World)
    requires spec.Valid() && Knows(spec, w) && Knows(spec, mid)
    requires mid == Apply(spec, w, FencingPass(io.fencing))
    ensures Run(spec, w, [FencingPass(io.fencing), Observe(io.observe)]) == ObservePass(spec, mid, io.observe)
  {
    RunTwo(spec, w, FencingPass(io.fencing), Observe(io.observe));
    ApplyObserve(spec, mid, io.observe);
  }

  lemma ObserveIgnoresClock(spec: Spec, w: World, at: int, io: ObserveIO)
    ensures ObservePass(spec, w.(now := at), io) == ObservePass(spec, w, io).(now := at)
  {
  }

  /** The same state up to the clock, which has not gone back. */
  ghost predicate SameUpToClock(w: World, end: World, after: World) {
    end.(now := w.now) == after.(now := w.now) && w.now <= end.now
  }

  lemma FailoverIsARun(spec: Spec, w: World, io: ReconcileIO)
    requires spec.Valid() && Knows(spec, w) && Timed(w, io)
    ensures SameUpToClock(w, Run(spec, w, [AutoFailover(io.failover)]), FailoverPass(spec, w, io.failover).world)
  {
    RunOne(spec, w, AutoFailover(io.failover));
  }

  lemma FencingIsARun(spec: Spec, w: World, io: ReconcileIO)
    requires spec.Valid() && Knows(spec, w) && Timed(w, io)
    ensures SameUpToClock(w, Run(spec, w, [FencingPass(io.fencing)]), FencePass(spec, w, io.fencing).world)
  {
    RunOne(spec, w, FencingPass(io.fencing));
  }

  lemma FencingThenObservation(spec: Spec, w: World, io: ReconcileIO)
    requires spec.Valid() && Knows(spec, w) && Timed(w, io)
    ensures SameUpToClock(w, Run(spec, w, [FencingPass(io.fencing), Observe(io.observe)]),
                          ObservePass(spec, FencePass(spec, w, io.fencing).world, io.observe))
  {
    ApplyPass(spec, w, io.fencing);
    ApplyKnows(spec, w, FencingPass(io.fencing));
    ObservedIsARun(spec, w, io, Apply(spec, w, FencingPass(io.fencing)));
    ObserveIgnoresClock(spec, FencePass(spec, w, io.fencing).world, io.fencing.recordAt, io.observe);
  }

  lemma OneStepIsARun(spec: Spec, w: World, step: Step)
    requires spec.Valid() && Knows(spec, w) && (step.Observe? || step.Complain?)
    ensures SameUpToClock(w, Run(spec, w, [step]), Apply(spec, w, step))
  {
    RunOne(spec, w, step);
  }

  /** A Reconcile is a run of at most two steps, up to the clock, so everything proved of runs holds of Reconciles. */
  lemma ReconcileIsARun(spec: Spec, autoFailover: bool, w: World, io: ReconcileIO)
    requires spec.Valid() && Knows(spec, w) && Timed(w, io)
    ensures SameUpToClock(w, Run(spec, w, StepsOf(spec, autoFailover, w, io)),
                          ReconcilePass(spec, autoFailover, w, io).world)
    ensures |StepsOf(spec, autoFailover, w, io)| <= 2
  {
    match ReconcilePass(spec, autoFailover, w, io).outcome
    case NoCredentials => OneStepIsARun(spec, w, Complain(SecretReason(io.contact)));
    case Unreachable =>
    case FailoverRan => FailoverIsARun(spec, w, io);
    case FencingRan => FencingIsARun(spec, w, io);
    case PrimaryMoved => FencingIsARun(spec, w, io);
    case Observed =>
      if w.stored.primary == "" {
        OneStepIsARun(spec, w, Observe(io.observe));
      } else {
        FencingThenObservation(spec, w, io);
      }
  }

  /** The one primary that answers is not the stored one. */
  predicate Stale(spec: Spec, w: World, p: Name) {
    Primaries(spec, w) == [p] && w.stored.primary != p
  }

  function Reconciles(spec: Spec, autoFailover: bool, w: World, ios: seq<ReconcileIO>): World
    requires Knows(spec, w) && |spec.order| > 0
    decreases |ios|
  {
    if ios == [] then w
    else Reconciles(spec, autoFailover, ReconcilePass(spec, autoFailover, w, ios[0]).world, ios[1..])
  }

  /** The observation of a Reconcile is stored. */
  predicate Lands(io: ObserveIO) {
    io.statusOk && io.statusLands
  }

  /** Automatic failover comes to `p`, finds it PRIMARY, and stores what it reports: every candidate before it in spec
      order refuses the command. */
  predicate Adopts(spec: Spec, w: World, io: FailoverIO, p: Name)
    requires |spec.order| > 0
  {
    && !CoolingDown(spec, w.stored, io.cooldownAt) && TryAcquire(w.lease, io.lease).ok
    && p != KnownPrimary(spec, w.stored)
    && (forall j :: 0 <= j < FirstIn(spec.order, {p}) && spec.order[j] in Candidates(spec, w) ==>
          spec.order[j] in io.commandFails)
    && io.observed == Some(p) && io.statusLands
  }

  lemma LoopAdopts(spec: Spec, w: World, io: FailoverIO, p: Name)
    requires spec.Valid() && Knows(spec, w) && Stale(spec, w, p)
    ensures FailoverLoop(spec, w, io).world.stored.primary == p <==>
            && p != KnownPrimary(spec, w.stored)
            && (forall j :: 0 <= j < FirstIn(spec.order, {p}) && spec.order[j] in Candidates(spec, w) ==>
                  spec.order[j] in io.commandFails)
            && io.observed == Some(p) && io.statusLands
  {
    assert p in Primaries(spec, w);
    forall n | n in Candidates(spec, w) && w.replicas[n].role.Primary?
      ensures n == p
    {
      assert n in Primaries(spec, w);
    }
    var i, k := FirstIn(spec.order, Stops(spec, w, io)), FirstIn(spec.order, {p});
    assert k < |spec.order| && spec.order[k] == p;
    if i < |spec.order| && i != k {
      assert spec.order[i] != p && spec.order[i] in Candidates(spec, w);
    }
  }

  /** Exactly when a Reconcile stores the primary that really answers. While the known primary is reached, the fencing
      pass must be held back by one of its guards, and the observation must report the primary and be written; when it
      is not, automatic failover must adopt it. */
  lemma StaleCorrected(spec: Spec, autoFailover: bool, w: World, io: ReconcileIO, p: Name)
    requires spec.Valid() && Knows(spec, w) && Stale(spec, w, p)
    ensures ReconcilePass(spec, autoFailover, w, io).world.stored.primary == p <==>
            match io.contact
            case Reached => !MayFence(spec, w, io.fencing.listOk) && Lands(io.observe) && io.observe.observed == p
            case Unreached => autoFailover && Adopts(spec, w, io.failover, p)
            case _ => false
  {
    if io.contact.Unreached? && autoFailover {
      var l := TryAcquire(w.lease, io.failover.lease);
      if !CoolingDown(spec, w.stored, io.failover.cooldownAt) && l.ok {
        var locked := w.(
          lease := l.lease,
          acquisitions := w.acquisitions +
            [Acquisition(io.failover.lease.holder, io.failover.lease.readAt, io.failover.lease.checkAt)]);
        assert Primaries(spec, locked) == Primaries(spec, w) && Candidates(spec, locked) == Candidates(spec, w);
        LoopAdopts(spec, locked, io.failover, p);
      }
    }
  }

  /** So a stale primary is corrected in the pass's own copy only: while no guard holds fencing back, no automatic
      failover runs and no replica changes, no number of Reconciles stores the new one. */
  lemma {:induction false} StaleStays(spec: Spec, autoFailover: bool, w: World, ios: seq<ReconcileIO>, p: Name)
    requires spec.Valid() && Knows(spec, w) && Unguarded(spec, w) && Stale(spec, w, p)
    requires forall i :: 0 <= i < |ios| ==> autoFailover ==> !ios[i].contact.Unreached?
    ensures Reconciles(spec, autoFailover, w, ios).stored.primary == w.stored.primary
    ensures Stale(spec, Reconciles(spec, autoFailover, w, ios), p)
    decreases |ios|
  {
    if ios != [] {
      var after := ReconcilePass(spec, autoFailover, w, ios[0]).world;
      StaleCorrected(spec, autoFailover, w, ios[0], p);
      assert after.stored.primary != p && after.replicas == w.replicas;
      StaleStays(spec, autoFailover, after, ios[1..], p);
    }
  }

  /** The alert of an open breaker outlives a Reconcile exactly when the observation that follows it fails to write. */
  lemma AlertOverwritten(spec: Spec, autoFailover: bool, w: World, io: ReconcileIO)
    requires spec.Valid() && Knows(spec, w) && SplitBrain(spec, w) && Unguarded(spec, w)
    requires io.contact.Reached? && io.fencing.statusLands && Blocked(spec, w, io.fencing.checkAt)
    ensures ReconcilePass(spec, autoFailover, w, io).world.stored.reason == FencingExhausted
            <==> !Lands(io.observe)
  {
    NothingToFence(spec, w, io.fencing.checkAt);
    BlockedPass(spec, w, io.fencing);
  }

  /** A replica whose group was dropped is back as a SECONDARY after a Reconcile that reports another replica as
      primary, reports this one as not connected, and whose calls succeed. */
  lemma DroppedReplicaRejoins(spec: Spec, autoFailover: bool, w: World, io: ReconcileIO, n: Name)
    requires spec.Valid() && Knows(spec, w) && n in spec.order && w.replicas[n].role.Gone?
    requires Settled(spec, w, w.stored.primary) && io.contact.Reached?
    requires Lands(io.observe) && io.observe.observed == w.stored.primary
    requires n !in io.observe.connected && n !in io.observe.joinFails
    ensures ReconcilePass(spec, autoFailover, w, io).world.replicas[n] == w.replicas[n].(role := Secondary)
    ensures Settled(spec, ReconcilePass(spec, autoFailover, w, io).world, w.stored.primary)
  {
    assert w.stored.primary in Primaries(spec, w);
    SettledPassIsSilent(spec, w, w.stored.primary, io.fencing);
    var after := ReconcilePass(spec, autoFailover, w, io).world;
    assert SeenPrimaries(spec, after.replicas) == SeenPrimaries(spec, w.replicas);
  }
}
