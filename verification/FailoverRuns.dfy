/** Whole runs, second part: how often automatic failover fires, who holds the lease, and how manual failover and
    fencing keep out of each other's way. */
module FailoverRuns {
  import opened Clock
  import opened Selection
  import opened AgModel
  import opened AgRuns

  // ----- Rate of automatic failovers -----

  predicate GapAt(log: seq<int>, gap: int, k: nat)
    requires 0 < k < |log|
  {
    log[k] >= log[k - 1] + gap
  }

  predicate RateInvariant(spec: Spec, w: World) {
    && w.stored.autoFailoverCount == |w.autoFailovers|
    && (w.autoFailovers == [] ==> w.stored.lastAutoFailoverTime.None?)
    && (w.autoFailovers != [] ==>
          && w.stored.lastAutoFailoverTime == Some(w.autoFailovers[|w.autoFailovers| - 1])
          && w.autoFailovers[|w.autoFailovers| - 1] % SECOND == 0)
    && (forall k :: 0 < k < |w.autoFailovers| ==> GapAt(w.autoFailovers, ToSecond(spec.Cooldown()), k))
  }

  ghost predicate RateUntouched(w: World, after: World) {
    && after.autoFailovers == w.autoFailovers
    && after.stored.autoFailoverCount == w.stored.autoFailoverCount
    && after.stored.lastAutoFailoverTime == w.stored.lastAutoFailoverTime
  }

  /** A landed automatic failover: outside the cooldown, counted and timed. */
  ghost predicate RateRecorded(spec: Spec, w: World, after: World, cooldownAt: int, recordAt: int) {
    && !CoolingDown(spec, w.stored, cooldownAt)
    && after.autoFailovers == w.autoFailovers + [ToSecond(recordAt)]
    && after.stored.autoFailoverCount == w.stored.autoFailoverCount + 1
    && after.stored.lastAutoFailoverTime == Some(ToSecond(recordAt))
  }

  lemma FailoverRecords(spec: Spec, w: World, io: FailoverIO)
    requires spec.Valid() && Knows(spec, w)
    ensures var after := FailoverPass(spec, w, io).world;
            if FailoverPass(spec, w, io).fenced && io.statusLands
            then RateRecorded(spec, w, after, io.cooldownAt, io.recordAt)
            else RateUntouched(w, after)
  {
  }

  lemma RecordedKeepsRate(spec: Spec, w: World, after: World, cooldownAt: int, recordAt: int)
    requires RateInvariant(spec, w) && RateRecorded(spec, w, after, cooldownAt, recordAt) && cooldownAt <= recordAt
    ensures RateInvariant(spec, after)
  {
    var log := w.autoFailovers;
    if log != [] {
      StoredGap(log[|log| - 1], spec.Cooldown(), recordAt);
    }
    forall k | 0 < k < |after.autoFailovers|
      ensures GapAt(after.autoFailovers, ToSecond(spec.Cooldown()), k)
    {
      if k < |log| {
        assert GapAt(log, ToSecond(spec.Cooldown()), k);
      }
    }
  }

  lemma StepKeepsRate(spec: Spec, w: World, step: Step)
    requires spec.Valid() && Knows(spec, w) && RateInvariant(spec, w)
    ensures RateInvariant(spec, Apply(spec, w, step))
  {
    if Enabled(spec, w, step) && step.AutoFailover? {
      var io := step.failover;
      FailoverRecords(spec, w, io);
      if FailoverPass(spec, w, io).fenced && io.statusLands {
        RecordedKeepsRate(spec, w, Apply(spec, w, step), io.cooldownAt, io.recordAt);
      }
    } else {
      assert RateUntouched(w, Apply(spec, w, step));
    }
  }

  lemma {:induction false} RunKeepsRate(spec: Spec, w: World, steps: seq<Step>)
    requires spec.Valid() && Knows(spec, w) && RateInvariant(spec, w)
    ensures RateInvariant(spec, Run(spec, w, steps))
    decreases |steps|
  {
    if steps != [] {
      ApplyKnows(spec, w, steps[0]);
      StepKeepsRate(spec, w, steps[0]);
      RunKeepsRate(spec, Apply(spec, w, steps[0]), steps[1..]);
    }
  }

  lemma {:induction false} RateSpan(log: seq<int>, gap: int, i: nat, j: nat)
    requires forall k :: 0 < k < |log| ==> GapAt(log, gap, k)
    requires i <= j < |log|
    ensures log[j] - log[i] >= (j - i) * gap
    decreases j
  {
    if i < j {
      RateSpan(log, gap, i, j - 1);
      assert GapAt(log, gap, j);
      assert (j - i) * gap == (j - 1 - i) * gap + gap;
    } else {
      assert (j - i) * gap == 0;
    }
  }

  /** In every run the stored count is the number of recorded automatic failovers, and n of them span at least n - 1
      cooldowns, whatever fencing and status passes run in between. */
  lemma AutoFailoverRate(spec: Spec, w: World, steps: seq<Step>, i: nat, j: nat)
    requires spec.Valid() && Initial(spec, w)
    requires i <= j < |Run(spec, w, steps).autoFailovers|
    ensures var end := Run(spec, w, steps);
            && end.stored.autoFailoverCount == |end.autoFailovers|
            && end.autoFailovers[j] - end.autoFailovers[i] >= (j - i) * ToSecond(spec.Cooldown())
  {
    RunKeepsRate(spec, w, steps);
    RateSpan(Run(spec, w, steps).autoFailovers, ToSecond(spec.Cooldown()), i, j);
  }

  // ----- The failover lease -----

  /** Neighbouring acquisitions: readings in order, and a change of holder only after the lease ran out. */
  predicate HandoverAt(log: seq<Acquisition>, k: nat)
    requires 0 < k < |log|
  {
    && log[k - 1].checked <= log[k].renewed
    && (log[k].holder != log[k - 1].holder ==>
          log[k].checked > ToMicrosecond(log[k - 1].renewed) + LEASE_SECONDS * SECOND)
  }

  predicate LeaseInvariant(w: World) {
    && (w.acquisitions == [] ==> w.lease.None?)
    && (w.acquisitions != [] ==>
          var last := w.acquisitions[|w.acquisitions| - 1];
          && w.lease == Some(Lease(Some(last.holder), Some(LEASE_SECONDS), Some(ToMicrosecond(last.renewed))))
          && last.checked <= w.now)
    && (forall k :: 0 <= k < |w.acquisitions| ==> w.acquisitions[k].renewed <= w.acquisitions[k].checked)
    && (forall k :: 0 < k < |w.acquisitions| ==> HandoverAt(w.acquisitions, k))
  }

  lemma FailoverLeases(spec: Spec, w: World, io: FailoverIO)
    requires spec.Valid() && Knows(spec, w)
    ensures var after := FailoverPass(spec, w, io).world;
            var l := TryAcquire(w.lease, io.lease);
            if CoolingDown(spec, w.stored, io.cooldownAt) then
              after.lease == w.lease && after.acquisitions == w.acquisitions
            else
              && after.lease == l.lease
              && after.acquisitions == w.acquisitions +
                 if l.ok then [Acquisition(io.lease.holder, io.lease.readAt, io.lease.checkAt)] else []
  {
  }

  lemma AcquireKeeps(w: World, after: World, io: LeaseIO)
    requires LeaseInvariant(w) && w.now <= io.readAt <= io.checkAt <= after.now
    requires after.lease == TryAcquire(w.lease, io).lease
    requires after.acquisitions == w.acquisitions +
             if TryAcquire(w.lease, io).ok then [Acquisition(io.holder, io.readAt, io.checkAt)] else []
    ensures LeaseInvariant(after)
  {
    forall k | 0 < k < |after.acquisitions|
      ensures HandoverAt(after.acquisitions, k)
    {
      if k < |w.acquisitions| {
        assert HandoverAt(w.acquisitions, k);
      }
    }
  }

  lemma StepKeepsLease(spec: Spec, w: World, step: Step)
    requires spec.Valid() && Knows(spec, w) && LeaseInvariant(w)
    ensures LeaseInvariant(Apply(spec, w, step))
  {
    if Enabled(spec, w, step) && step.AutoFailover? {
      var io := step.failover;
      FailoverLeases(spec, w, io);
      if !CoolingDown(spec, w.stored, io.cooldownAt) {
        AcquireKeeps(w, Apply(spec, w, step), io.lease);
      }
    } else {
      var after := Apply(spec, w, step);
      assert after.lease == w.lease && after.acquisitions == w.acquisitions && w.now <= after.now;
    }
  }

  lemma {:induction false} RunKeepsLease(spec: Spec, w: World, steps: seq<Step>)
    requires spec.Valid() && Knows(spec, w) && LeaseInvariant(w)
    ensures LeaseInvariant(Run(spec, w, steps))
    decreases |steps|
  {
    if steps != [] {
      ApplyKnows(spec, w, steps[0]);
      StepKeepsLease(spec, w, steps[0]);
      RunKeepsLease(spec, Apply(spec, w, steps[0]), steps[1..]);
    }
  }

  lemma {:induction false} LeaseSpan(log: seq<Acquisition>, i: nat, j: nat)
    requires forall k :: 0 <= k < |log| ==> log[k].renewed <= log[k].checked
    requires forall k :: 0 < k < |log| ==> HandoverAt(log, k)
    requires i < j < |log|
    ensures log[i].checked <= log[j].renewed
    ensures log[i].holder != log[j].holder ==> log[j].checked > ToMicrosecond(log[i].renewed) + LEASE_SECONDS * SECOND
    decreases j
  {
    assert HandoverAt(log, j);
    if i + 1 < j {
      LeaseSpan(log, i, j - 1);
      ToMicrosecondMonotone(log[i].renewed, log[j - 1].renewed);
    }
  }

  /** Lease exclusion: in every run with atomic calls, two successful acquisitions by different holders are more than
      the lease duration apart, counted from the stored RenewTime of the earlier one. */
  lemma LeaseExclusion(spec: Spec, w: World, steps: seq<Step>, i: nat, j: nat)
    requires spec.Valid() && Initial(spec, w)
    requires i < j < |Run(spec, w, steps).acquisitions|
    requires Run(spec, w, steps).acquisitions[i].holder != Run(spec, w, steps).acquisitions[j].holder
    ensures var log := Run(spec, w, steps).acquisitions;
            log[j].checked > ToMicrosecond(log[i].renewed) + LEASE_SECONDS * SECOND
  {
    RunKeepsLease(spec, w, steps);
    LeaseSpan(Run(spec, w, steps).acquisitions, i, j);
  }

  /** Counted in nanoseconds instead, the distance is 30 s exactly when the reading is a whole number of microseconds;
      otherwise it can fall short by the part that is not stored. */
  lemma LeaseShortfall(first: LeaseIO)
    requires TryAcquire(None, first).ok
    ensures (forall second: LeaseIO ::
               second.holder != first.holder && TryAcquire(TryAcquire(None, first).lease, second).ok ==>
                 second.checkAt > first.readAt + LEASE_SECONDS * SECOND)
            <==> first.readAt % MICROSECOND == 0
  {
    var lease, due := TryAcquire(None, first).lease, first.readAt + LEASE_SECONDS * SECOND;
    if first.readAt % MICROSECOND != 0 {
      var second := LeaseIO(first.holder + "'", true, due, due, true);
      assert second.holder != first.holder && TryAcquire(lease, second).ok;
    }
  }

  // ----- Manual failover and fencing -----

  /** The phase of the object as its stored phase events tell it, from creation on. */
  function StoredPhase(events: seq<Event>, id: Id): Phase {
    if events == [] then Pending
    else
      var last := events[|events| - 1];
      if last.PhaseStored? && last.id == id then last.phase else StoredPhase(events[..|events| - 1], id)
  }

  /** A phase other than Pending comes from the last phase event of that object. */
  lemma {:induction false} PhaseWitness(events: seq<Event>, id: Id) returns (i: nat)
    requires !StoredPhase(events, id).Pending?
    ensures i < |events| && events[i] == PhaseStored(id, StoredPhase(events, id))
    ensures forall k :: i < k < |events| ==> !(events[k].PhaseStored? && events[k].id == id)
  {
    var last := events[|events| - 1];
    if last.PhaseStored? && last.id == id {
      i := |events| - 1;
    } else {
      i := PhaseWitness(events[..|events| - 1], id);
    }
  }

  predicate OfObject(e: Event) {
    e.PhaseStored? || e.Removed? || e.FailoverCommand?
  }

  predicate Concerns(e: Event, id: Id) {
    OfObject(e) && e.id == id
  }

  /** Every stage of a reconcile relies on the phase that is stored. */
  predicate StageFits(f: Failover) {
    match f.stage
    case Idle => true
    case StoreRunning => f.phase.Pending?
    case StoreStart => f.phase.Running?
    case SendCommand => f.phase.Running?
    case StoreTerminal(outcome) => !f.phase.Terminal() && outcome.Terminal()
  }

  predicate ObjectInvariant(w: World) {
    && (forall id :: id in w.failovers ==>
          && StageFits(w.failovers[id])
          && w.failovers[id].phase == StoredPhase(w.events, id)
          && (w.failovers[id].present <==> Removed(id) !in w.events))
    && (forall e :: e in w.events && OfObject(e) ==> e.id in w.failovers)
  }

  /** No listed fencing command falls between the stored Running phase of an object of this group and its terminal phase
      or its deletion; every failover command is sent in the stored phase Running. */
  predicate HistoryAt(spec: Spec, w: World, j: nat)
    requires j < |w.events|
  {
    var before := w.events[..j];
    && (w.events[j].Fenced? && w.events[j].listed ==>
          forall id :: id in w.failovers && w.failovers[id].agName == spec.agName ==>
            !StoredPhase(before, id).Running? || Removed(id) in before)
    && (w.events[j].FailoverCommand? ==> StoredPhase(before, w.events[j].id).Running?)
    && (w.events[j].PhaseStored? ==>
          && !StoredPhase(before, w.events[j].id).Terminal() && !w.events[j].phase.Pending?
          && Removed(w.events[j].id) !in before)
  }

  predicate ExclusionInvariant(spec: Spec, w: World) {
    && ObjectInvariant(w)
    && (forall j :: 0 <= j < |w.events| ==> HistoryAt(spec, w, j))
  }

  lemma {:induction false} PhaseSkips(events: seq<Event>, more: seq<Event>, id: Id)
    requires forall e :: e in more ==> !(e.PhaseStored? && e.id == id)
    ensures StoredPhase(events + more, id) == StoredPhase(events, id)
    decreases |more|
  {
    if more == [] {
      assert events + more == events;
    } else {
      var all, front := events + more, more[..|more| - 1];
      assert all[|all| - 1] == more[|more| - 1] && more[|more| - 1] in more;
      assert all[..|all| - 1] == events + front;
      PhaseSkips(events, front, id);
    }
  }

  /** Passes of the availability-group controller add events that concern no AGFailover object. */
  ghost predicate Detached(spec: Spec, w: World, after: World) {
    && after.failovers == w.failovers
    && w.events <= after.events
    && (forall k :: |w.events| <= k < |after.events| ==>
          && (after.events[k].Fenced? || after.events[k].ForcedFailover?)
          && (after.events[k].Fenced? && after.events[k].listed ==> !FailoverRunning(spec, w.failovers)))
  }

  lemma DetachedKeeps(spec: Spec, w: World, after: World)
    requires ExclusionInvariant(spec, w) && Detached(spec, w, after)
    ensures ExclusionInvariant(spec, after)
  {
    var more := after.events[|w.events|..];
    assert after.events == w.events + more;
    assert forall e :: e in more ==> e.Fenced? || e.ForcedFailover?;
    forall id | id in w.failovers
      ensures w.failovers[id].phase == StoredPhase(after.events, id)
    {
      PhaseSkips(w.events, more, id);
    }
    forall j | 0 <= j < |after.events|
      ensures HistoryAt(spec, after, j)
    {
      DetachedHistory(spec, w, after, j);
    }
  }

  lemma DetachedHistory(spec: Spec, w: World, after: World, j: nat)
    requires ExclusionInvariant(spec, w) && Detached(spec, w, after) && j < |after.events|
    ensures HistoryAt(spec, after, j)
  {
    var before := after.events[..j];
    if j < |w.events| {
      assert before == w.events[..j] && HistoryAt(spec, w, j);
    } else {
      var more := before[|w.events|..];
      assert before == w.events + more;
      assert forall e :: e in more ==> e.Fenced? || e.ForcedFailover?;
      forall id | && id in w.failovers && w.failovers[id].agName == spec.agName
                  && after.events[j].Fenced? && after.events[j].listed
        ensures !StoredPhase(before, id).Running? || Removed(id) in before
      {
        PhaseSkips(w.events, more, id);
        assert !RunsHere(w.failovers[id], spec.agName);
      }
    }
  }

  lemma FencingDetached(spec: Spec, w: World, io: FencingIO)
    requires Knows(spec, w)
    ensures Detached(spec, w, FencePass(spec, w, io).world)
  {
  }

  lemma LoopDetached(spec: Spec, w: World, io: FailoverIO)
    requires spec.Valid() && Knows(spec, w)
    ensures Detached(spec, w, FailoverLoop(spec, w, io).world)
  {
    var tried := LoopAppends(spec, w, io);
  }

  lemma FailoverDetached(spec: Spec, w: World, io: FailoverIO)
    requires spec.Valid() && Knows(spec, w)
    ensures Detached(spec, w, FailoverPass(spec, w, io).world)
  {
    var l := TryAcquire(w.lease, io.lease);
    if !CoolingDown(spec, w.stored, io.cooldownAt) && l.ok {
      LoopDetached(spec,
                   w.(lease := l.lease,
                      acquisitions := w.acquisitions +
                        [Acquisition(io.lease.holder, io.lease.readAt, io.lease.checkAt)]), io);
    }
  }

  /** A step of one object that adds at most one event about it. */
  ghost predicate ObjectStep(w: World, after: World, id: Id) {
    && id in w.failovers && id in after.failovers
    && after.failovers == w.failovers[id := after.failovers[id]]
    && after.failovers[id].agName == w.failovers[id].agName
    && StageFits(after.failovers[id])
    && (after.events == w.events ==>
          after.failovers[id].phase == w.failovers[id].phase && after.failovers[id].present == w.failovers[id].present)
    && (after.events != w.events ==>
          && |after.events| == |w.events| + 1 && w.events <= after.events
          && var e := after.events[|w.events|];
             || (&& e.PhaseStored? && e.id == id && e.phase == after.failovers[id].phase && !e.phase.Pending?
                 && !w.failovers[id].phase.Terminal() && w.failovers[id].present
                 && after.failovers[id].present == w.failovers[id].present)
             || (&& e == FailoverCommand(id) && w.failovers[id].phase.Running?
                 && after.failovers[id].phase == w.failovers[id].phase
                 && after.failovers[id].present == w.failovers[id].present)
             || (&& e == Removed(id) && !after.failovers[id].present
                 && after.failovers[id].phase == w.failovers[id].phase))
  }

  lemma ObjectStepKeeps(spec: Spec, w: World, after: World, id: Id)
    requires ExclusionInvariant(spec, w) && ObjectStep(w, after, id)
    ensures ExclusionInvariant(spec, after)
  {
    if after.events != w.events {
      var e := after.events[|w.events|];
      assert after.events == w.events + [e];
      assert after.events[..|w.events|] == w.events;
    }
    forall j | 0 <= j < |after.events|
      ensures HistoryAt(spec, after, j)
    {
      if j < |w.events| {
        assert after.events[..j] == w.events[..j] && HistoryAt(spec, w, j);
        assert after.events[j] == w.events[j];
      }
    }
  }

  lemma StageSteps(w: World, id: Id, io: StageIO)
    requires id in w.failovers && StageFits(w.failovers[id])
    ensures ObjectStep(w, NextStage(w, id, io), id)
  {
  }

  lemma SubmitKeeps(spec: Spec, w: World, id: Id, f: Failover)
    requires ExclusionInvariant(spec, w) && id !in w.failovers && f.phase.Pending? && f.present && f.stage.Idle?
    ensures ExclusionInvariant(spec, w.(failovers := w.failovers[id := f]))
  {
    var after := w.(failovers := w.failovers[id := f]);
    assert forall e :: e in w.events ==> !Concerns(e, id);
    NeverStored(w.events, id);
    assert !Concerns(Removed(id), id) || Removed(id) !in w.events;
    forall j | 0 <= j < |after.events|
      ensures HistoryAt(spec, after, j)
    {
      assert HistoryAt(spec, w, j);
      NeverStored(w.events[..j], id);
    }
  }

  lemma {:induction false} NeverStored(events: seq<Event>, id: Id)
    requires forall e :: e in events ==> !Concerns(e, id)
    ensures StoredPhase(events, id).Pending?
  {
    if events != [] {
      assert events[|events| - 1] in events;
      NeverStored(events[..|events| - 1], id);
    }
  }

  lemma StepKeepsExclusion(spec: Spec, w: World, step: Step)
    requires spec.Valid() && Knows(spec, w) && ExclusionInvariant(spec, w)
    ensures ExclusionInvariant(spec, Apply(spec, w, step))
  {
    if Enabled(spec, w, step) {
      match step
      case FencingPass(io) =>
        FencingDetached(spec, w, io);
        DetachedKeeps(spec, w, Apply(spec, w, step));
      case AutoFailover(io) =>
        FailoverDetached(spec, w, io);
        DetachedKeeps(spec, w, Apply(spec, w, step));
      case Submit(id, f) => SubmitKeeps(spec, w, id, f);
      case Withdraw(id) =>
        ObjectStepKeeps(spec, w, Apply(spec, w, step), id);
      case Crash(id) =>
        ObjectStepKeeps(spec, w, Apply(spec, w, step), id);
      case ManualFailover(id, io) =>
        StageSteps(w, id, io);
        ObjectStepKeeps(spec, w, Apply(spec, w, step), id);
      case _ =>
        DetachedKeeps(spec, w, Apply(spec, w, step));
    }
  }

  lemma {:induction false} RunKeepsExclusion(spec: Spec, w: World, steps: seq<Step>)
    requires spec.Valid() && Knows(spec, w) && ExclusionInvariant(spec, w)
    ensures ExclusionInvariant(spec, Run(spec, w, steps))
    decreases |steps|
  {
    if steps != [] {
      ApplyKnows(spec, w, steps[0]);
      StepKeepsExclusion(spec, w, steps[0]);
      RunKeepsExclusion(spec, Apply(spec, w, steps[0]), steps[1..]);
    }
  }

  /** The event ends the interval in which the object is running. */
  predicate Closes(e: Event, id: Id) {
    (e.PhaseStored? && e.id == id && e.phase.Terminal()) || e == Removed(id)
  }

  /** Exclusion: in every run, a fencing command of a pass whose List call succeeded never comes between the stored
      Running phase of an AGFailover of this group and its terminal phase or its deletion. */
  lemma FencingWaits(spec: Spec, w: World, steps: seq<Step>, i: nat, j: nat, id: Id)
    requires spec.Valid() && Initial(spec, w)
    requires i < j < |Run(spec, w, steps).events|
    requires Run(spec, w, steps).events[i] == PhaseStored(id, Running)
    requires Run(spec, w, steps).events[j].Fenced? && Run(spec, w, steps).events[j].listed
    requires id in Run(spec, w, steps).failovers && Run(spec, w, steps).failovers[id].agName == spec.agName
    ensures exists k :: i < k < j && Closes(Run(spec, w, steps).events[k], id)
  {
    RunKeepsExclusion(spec, w, steps);
    var end := Run(spec, w, steps);
    var before := end.events[..j];
    assert HistoryAt(spec, end, j) && HistoryAt(spec, end, i);
    if Removed(id) in before {
      var k :| 0 <= k < j && end.events[k] == Removed(id);
      assert Closes(end.events[k], id);
    } else {
      PhasesNotPending(spec, end, j, id);
      PhaseSince(before, id, i);
      var k := PhaseWitness(before, id);
      assert k >= i;
      assert Closes(end.events[k], id);
    }
  }

  lemma PhasesNotPending(spec: Spec, w: World, j: nat, id: Id)
    requires j <= |w.events| && forall k :: 0 <= k < |w.events| ==> HistoryAt(spec, w, k)
    ensures forall k :: 0 <= k < j && w.events[k].PhaseStored? && w.events[k].id == id ==> !w.events[k].phase.Pending?
  {
    forall k | 0 <= k < j && w.events[k].PhaseStored? && w.events[k].id == id
      ensures !w.events[k].phase.Pending?
    {
      assert HistoryAt(spec, w, k);
    }
  }

  lemma {:induction false} PhaseSince(events: seq<Event>, id: Id, i: nat)
    requires i < |events| && events[i] == PhaseStored(id, Running)
    requires forall k :: 0 <= k < |events| && events[k].PhaseStored? && events[k].id == id ==> !events[k].phase.Pending?
    ensures !StoredPhase(events, id).Pending?
  {
    var last := events[|events| - 1];
    if !(last.PhaseStored? && last.id == id) {
      PhaseSince(events[..|events| - 1], id, i);
    }
  }

  /** Every failover command is preceded by the stored Running phase of its object, with no other phase in between. */
  lemma CommandAfterRunning(spec: Spec, w: World, steps: seq<Step>, j: nat) returns (i: nat)
    requires spec.Valid() && Initial(spec, w)
    requires j < |Run(spec, w, steps).events| && Run(spec, w, steps).events[j].FailoverCommand?
    ensures var events := Run(spec, w, steps).events;
            && i < j && events[i] == PhaseStored(events[j].id, Running)
            && forall k :: i < k < j ==> !(events[k].PhaseStored? && events[k].id == events[j].id)
  {
    RunKeepsExclusion(spec, w, steps);
    var end := Run(spec, w, steps);
    assert HistoryAt(spec, end, j);
    i := PhaseWitness(end.events[..j], end.events[j].id);
  }

  /** One shot: after a terminal phase is stored, no command is sent for that object and no phase is stored again. */
  lemma OneShot(spec: Spec, w: World, steps: seq<Step>, i: nat, j: nat)
    requires spec.Valid() && Initial(spec, w)
    requires i < j < |Run(spec, w, steps).events|
    requires Run(spec, w, steps).events[i].PhaseStored? && Run(spec, w, steps).events[i].phase.Terminal()
    ensures var events := Run(spec, w, steps).events;
            events[j] != FailoverCommand(events[i].id) && !(events[j].PhaseStored? && events[j].id == events[i].id)
  {
    RunKeepsExclusion(spec, w, steps);
    var end := Run(spec, w, steps);
    TerminalStays(spec, end, i, j);
    assert HistoryAt(spec, end, j);
  }

  lemma {:induction false} TerminalStays(spec: Spec, w: World, i: nat, j: nat)
    requires forall k :: 0 <= k < |w.events| ==> HistoryAt(spec, w, k)
    requires i < j <= |w.events| && w.events[i].PhaseStored? && w.events[i].phase.Terminal()
    ensures StoredPhase(w.events[..j], w.events[i].id).Terminal()
    decreases j
  {
    var before := w.events[..j];
    assert before[..j - 1] == w.events[..j - 1];
    if i + 1 < j {
      TerminalStays(spec, w, i, j - 1);
      assert HistoryAt(spec, w, j - 1);
    }
  }
}
