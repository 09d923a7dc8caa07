/** What one Reconcile of an availability group comes to, and what it leaves in the status, on the replicas and on every
    pod, in terms of the stored fields and of what the calls report. */
module ReconcileEffects {
  import opened Clock
  import opened Selection
  import opened AgModel
  import opened RoutingLabels
  import opened FencingEffects
  import opened FailoverEffects

  /** Exactly this replica answers PRIMARY. */
  ghost predicate OnlyPrimary(spec: Spec, w: World, p: Name) {
    AnswersPrimary(spec, w, p) && forall n :: AnswersPrimary(spec, w, n) ==> n == p
  }

  /** Fencing finds one primary, and it is not the stored one. */
  ghost predicate FindsStale(spec: Spec, w: World, io: FencingIO, p: Name) {
    GuardsOpen(spec, w, io.listOk) && OnlyPrimary(spec, w, p) && p != w.stored.primary
  }

  lemma OneIsOnly(spec: Spec, w: World, p: Name)
    requires spec.Valid() && Knows(spec, w)
    ensures Primaries(spec, w) == [p] <==> OnlyPrimary(spec, w, p)
  {
    var all := Primaries(spec, w);
    forall n
      ensures n in all <==> AnswersPrimary(spec, w, n)
    {
      SeenIsAnswering(spec, w, n);
    }
    if OnlyPrimary(spec, w, p) {
      KeepOne(spec.order, SeenPrimaries(spec, w.replicas), p);
    }
    if all == [p] {
      assert all[0] in all;
    }
  }

  lemma StaleExactly(spec: Spec, w: World, io: FencingIO)
    requires spec.Valid() && Knows(spec, w) && !FencePass(spec, w, io).fenced
    ensures FencePass(spec, w, io).working.primary != w.stored.primary <==> exists p :: FindsStale(spec, w, io, p)
    ensures forall p :: FindsStale(spec, w, io, p) ==>
              FencePass(spec, w, io).world == w.(pods := Labelled(spec.order, w.pods, p, io.podFails))
    ensures (forall p :: !FindsStale(spec, w, io, p)) ==>
              var after := FencePass(spec, w, io).world;
              after == w.(stored := w.stored.(reason := after.stored.reason))
  {
    GuardsAreOpen(spec, w, io.listOk);
    forall p
      ensures Primaries(spec, w) == [p] <==> OnlyPrimary(spec, w, p)
    {
      OneIsOnly(spec, w, p);
    }
    if FencePass(spec, w, io).working.primary != w.stored.primary {
      var p := Primaries(spec, w)[0];
      assert FindsStale(spec, w, io, p);
    }
  }

  /** Which way a Reconcile goes. */
  lemma OutcomeExactly(spec: Spec, autoFailover: bool, w: World, io: ReconcileIO)
    requires spec.Valid() && Knows(spec, w)
    ensures ReconcilePass(spec, autoFailover, w, io).outcome ==
            if io.contact == SecretMissing || io.contact == SecretUnusable then NoCredentials
            else if io.contact == Unreached then if autoFailover then FailoverRan else Unreachable
            else if exists n :: MustFence(spec, w, io.fencing, n) then FencingRan
            else if exists p :: FindsStale(spec, w, io.fencing, p) then PrimaryMoved
            else Observed
  {
    FencesExactly(spec, w, io.fencing);
    if io.contact == Reached && !FencePass(spec, w, io.fencing).fenced {
      StaleExactly(spec, w, io.fencing);
    }
  }

  // ----- Labels -----

  /** The label rule: a listed pod that can be patched says whether it is the primary; any other keeps its label. */
  predicate LabelsName(order: seq<Name>, before: map<Name, Label>, after: map<Name, Label>, primary: Name,
                       fails: set<Name>)
  {
    && after.Keys == before.Keys
    && forall n :: n in before ==>
         after[n] == if n !in order || n in fails then before[n]
                     else if n == primary then PrimaryLabel else SecondaryLabel
  }

  lemma LabelledNames(order: seq<Name>, pods: map<Name, Label>, primary: Name, fails: set<Name>)
    ensures LabelsName(order, pods, Labelled(order, pods, primary, fails), primary, fails)
  {
  }

  /** When every pod can be patched, writes are routed to the named primary and nowhere else. */
  lemma NamedIsRouted(order: seq<Name>, before: map<Name, Label>, after: map<Name, Label>, primary: Name)
    requires LabelsName(order, before, after, primary, {}) && primary in order && primary in before
    ensures Routed(order, after) == {primary}
  {
  }

  // ----- The observation -----

  /** The rest of the world in an observing Reconcile: the pass before it has changed at most the reason. */
  lemma ObservesFrom(spec: Spec, autoFailover: bool, w: World, io: ReconcileIO) returns (reason: Reason)
    requires spec.Valid() && Knows(spec, w) && ReconcilePass(spec, autoFailover, w, io).outcome == Observed
    ensures ReconcilePass(spec, autoFailover, w, io).world ==
            ObservePass(spec, w.(stored := w.stored.(reason := reason)), io.observe)
  {
    reason := w.stored.reason;
    if w.stored.primary != "" {
      FencesExactly(spec, w, io.fencing);
      StaleExactly(spec, w, io.fencing);
      reason := FencePass(spec, w, io.fencing).world.stored.reason;
    } else {
      assert w.(stored := w.stored.(reason := reason)) == w;
    }
  }

  /** What an observing Reconcile leaves, when its calls succeed: the reported primary and health in the status, its
      label on the pods, and every listed replica that lost the group and is neither that primary nor connected back in
      it. */
  lemma ObservationEffects(spec: Spec, autoFailover: bool, w: World, io: ReconcileIO)
    requires spec.Valid() && Knows(spec, w) && ReconcilePass(spec, autoFailover, w, io).outcome == Observed
    requires io.observe.statusOk && io.observe.statusLands
    ensures var after, o := ReconcilePass(spec, autoFailover, w, io).world, io.observe;
            && after.stored == w.stored.(primary := o.observed, reason := if o.healthy then Healthy else NotHealthy)
            && (if o.observed == "" then after.pods == w.pods
                else LabelsName(spec.order, w.pods, after.pods, o.observed, o.podFails))
            && after.replicas.Keys == w.replicas.Keys
            && (forall n :: n in w.replicas ==>
                  after.replicas[n] ==
                  if n in spec.order && n != o.observed && n !in o.connected && n !in o.joinFails
                     && w.replicas[n].role == Gone
                  then w.replicas[n].(role := Secondary) else w.replicas[n])
            && after.events == w.events && after.lease == w.lease
    ensures io.observe.podFails == {} && io.observe.observed in spec.order && io.observe.observed in w.pods ==>
              Routed(spec.order, ReconcilePass(spec, autoFailover, w, io).world.pods) == {io.observe.observed}
  {
    var reason := ObservesFrom(spec, autoFailover, w, io);
    LabelledNames(spec.order, w.pods, io.observe.observed, io.observe.podFails);
    var after := ReconcilePass(spec, autoFailover, w, io).world;
    if io.observe.podFails == {} && io.observe.observed in spec.order && io.observe.observed in w.pods {
      NamedIsRouted(spec.order, w.pods, after.pods, io.observe.observed);
    }
  }

  /** A failed call on the way leaves everything but the reason. */
  lemma FailedObservation(spec: Spec, autoFailover: bool, w: World, io: ReconcileIO)
    requires spec.Valid() && Knows(spec, w) && ReconcilePass(spec, autoFailover, w, io).outcome == Observed
    requires !(io.observe.statusOk && io.observe.statusLands)
    ensures var after := ReconcilePass(spec, autoFailover, w, io).world;
            after == w.(stored := w.stored.(reason := after.stored.reason))
  {
    var reason := ObservesFrom(spec, autoFailover, w, io);
  }

  lemma LonelyIsUnbeaten(spec: Spec, w: World, p: Name, n: Name)
    requires spec.Valid() && OnlyPrimary(spec, w, p)
    ensures AnswersPrimary(spec, w, n) ==> !Beaten(spec, w, n)
  {
    NotOverItself(spec, w, p);
  }

  /** A Reconcile that finds another single primary labels the pods for it and changes nothing else. */
  lemma StaleEffects(spec: Spec, autoFailover: bool, w: World, io: ReconcileIO, p: Name)
    requires spec.Valid() && Knows(spec, w) && io.contact == Reached && FindsStale(spec, w, io.fencing, p)
    ensures var after := ReconcilePass(spec, autoFailover, w, io).world;
            && LabelsName(spec.order, w.pods, after.pods, p, io.fencing.podFails)
            && after == w.(pods := after.pods)
    ensures io.fencing.podFails == {} && p in w.pods ==>
              Routed(spec.order, ReconcilePass(spec, autoFailover, w, io).world.pods) == {p}
  {
    OutcomeExactly(spec, autoFailover, w, io);
    FencesExactly(spec, w, io.fencing);
    forall n
      ensures !MustFence(spec, w, io.fencing, n)
    {
      LonelyIsUnbeaten(spec, w, p, n);
    }
    StaleExactly(spec, w, io.fencing);
    LabelledNames(spec.order, w.pods, p, io.fencing.podFails);
    if io.fencing.podFails == {} && p in w.pods {
      NamedIsRouted(spec.order, w.pods, Labelled(spec.order, w.pods, p, {}), p);
    }
  }

  /** A promotion routes writes to its target. */
  lemma PromotionRoutes(spec: Spec, w: World, io: FailoverIO, i: nat)
    requires spec.Valid() && Knows(spec, w) && MayPromote(spec, w, io)
    requires EndsAt(spec, w, io, i) && w.replicas[spec.order[i]].role != Primary
    requires io.podFails == {} && spec.order[i] in w.pods
    ensures Routed(spec.order, FailoverPass(spec, w, io).world.pods) == {spec.order[i]}
  {
    PromotionEffects(spec, w, io, i);
    var pods := FailoverPass(spec, w, io).world.pods;
    assert forall n :: n in spec.order && n in pods && pods[n] == PrimaryLabel ==> n in w.pods by {
      FailoverKeepsPods(spec, w, io);
    }
  }

  lemma FailoverKeepsPods(spec: Spec, w: World, io: FailoverIO)
    requires spec.Valid() && Knows(spec, w)
    ensures FailoverPass(spec, w, io).world.pods.Keys == w.pods.Keys
  {
  }

  /** The other outcomes: a condition, nothing, the fencing pass, the failover pass. */
  lemma OtherEffects(spec: Spec, autoFailover: bool, w: World, io: ReconcileIO)
    requires spec.Valid() && Knows(spec, w)
    ensures var r := ReconcilePass(spec, autoFailover, w, io);
            match r.outcome
            case NoCredentials =>
              r.world.stored == (if !io.conditionLands then w.stored
                                 else w.stored.(reason := if io.contact == SecretMissing then SecretNotFound
                                                          else InvalidCredentialsSecret))
              && r.world == w.(stored := r.world.stored)
            case Unreachable => r.world == w
            case FencingRan => r.world == FencePass(spec, w, io.fencing).world
            case FailoverRan => r.world == FailoverPass(spec, w, io.failover).world
            case _ => true
  {
  }
}
