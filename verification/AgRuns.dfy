/** Whole runs of the availability-group protocol: operator passes, stages of manual failovers, and an environment that
    changes replicas, submits and deletes objects and lets time pass, in any order and with any failures. */
module AgRuns {
  import opened Clock
  import opened Selection
  import opened AgModel

  datatype Step =
    | Advance(to: int)
    | Drift(replica: Name, becomes: Replica)
    | FencingPass(fencing: FencingIO)
    | AutoFailover(failover: FailoverIO)
    | Observe(observe: ObserveIO)
    | Complain(reason: Reason)
    | Submit(id: Id, request: Failover)
    | Withdraw(id: Id)
    | ManualFailover(id: Id, stage: StageIO)
    | Crash(id: Id)

  /** Clock readings never go back; objects are created pending; everything else may happen at any time. */
  predicate Enabled(spec: Spec, w: World, step: Step) {
    match step
    case Advance(to) => w.now <= to
    case Drift(replica, _) => replica in w.replicas
    case FencingPass(io) => w.now <= io.checkAt <= io.fenceAt <= io.recordAt
    case AutoFailover(io) => w.now <= io.cooldownAt <= io.lease.readAt <= io.lease.checkAt <= io.recordAt
    case Observe(_) => true
    case Complain(reason) => reason.SecretNotFound? || reason.InvalidCredentialsSecret?
    case Submit(id, f) => id !in w.failovers && f.phase.Pending? && f.present && f.stage.Idle?
    case Withdraw(id) => id in w.failovers
    case ManualFailover(id, _) => id in w.failovers
    case Crash(id) => id in w.failovers
  }

  function Apply(spec: Spec, w: World, step: Step): World
    requires spec.Valid() && Knows(spec, w)
  {
    if !Enabled(spec, w, step) then w else
    match step
    case Advance(to) => w.(now := to)
    case Drift(replica, becomes) => w.(replicas := w.replicas[replica := becomes])
    case FencingPass(io) => FencePass(spec, w, io).world.(now := io.recordAt)
    case AutoFailover(io) => FailoverPass(spec, w, io).world.(now := io.recordAt)
    case Observe(io) => ObservePass(spec, w, io)
    case Complain(reason) => w.(stored := w.stored.(reason := reason))
    case Submit(id, f) => w.(failovers := w.failovers[id := f])
    case Withdraw(id) =>
      if w.failovers[id].present then
        w.(failovers := w.failovers[id := w.failovers[id].(present := false)], events := w.events + [Removed(id)])
      else w
    case ManualFailover(id, io) => NextStage(w, id, io)
    case Crash(id) => w.(failovers := w.failovers[id := w.failovers[id].(stage := Idle)])
  }

  lemma ApplyKnows(spec: Spec, w: World, step: Step)
    requires spec.Valid() && Knows(spec, w)
    ensures Knows(spec, Apply(spec, w, step))
  {
  }

  function Run(spec: Spec, w: World, steps: seq<Step>): World
    requires spec.Valid() && Knows(spec, w)
    decreases |steps|
  {
    if steps == [] then w
    else
      ApplyKnows(spec, w, steps[0]);
      Run(spec, Apply(spec, w, steps[0]), steps[1..])
  }

  /** A new availability group: no status, no lease, no failover objects, no history. */
  predicate Initial(spec: Spec, w: World) {
    && Knows(spec, w)
    && w.stored == Status("", NoReason, None, 0, 0, "", None, 0)
    && w.lease.None? && w.failovers == map[] && w.events == [] && w.fencings == []
    && w.autoFailovers == [] && w.acquisitions == []
  }

  // ----- The fencing log -----

  /** Length of the longest suffix of the log whose entries name the same replica as the last one. */
  function Streak(log: seq<Entry>): (n: nat)
    ensures n <= |log|
    ensures log != [] ==> n >= 1
  {
    if log == [] then 0
    else if |log| >= 2 && log[|log| - 2].replica == log[|log| - 1].replica then 1 + Streak(log[..|log| - 1])
    else 1
  }

  /** Streak is that length: the suffix is uniform, and no longer suffix is. */
  lemma {:induction false} StreakIsLongest(log: seq<Entry>)
    requires log != []
    ensures forall i :: |log| - Streak(log) <= i < |log| ==> log[i].replica == log[|log| - 1].replica
    ensures Streak(log) < |log| ==> log[|log| - Streak(log) - 1].replica != log[|log| - 1].replica
  {
    if |log| >= 2 && log[|log| - 2].replica == log[|log| - 1].replica {
      StreakIsLongest(log[..|log| - 1]);
    }
  }

  lemma StreakCovers(log: seq<Entry>, i: nat)
    requires i < |log|
    requires forall k :: i <= k < |log| ==> log[k].replica == log[|log| - 1].replica
    ensures Streak(log) >= |log| - i
  {
    StreakIsLongest(log);
  }

  /** From the sixth entry of a streak on, each entry is at least a cooldown, in whole seconds, after the previous. */
  predicate Spaced(log: seq<Entry>, gap: int) {
    forall k :: 0 < k < |log| ==> SpacedAt(log, gap, k)
  }

  predicate SpacedAt(log: seq<Entry>, gap: int, k: nat)
    requires 0 < k < |log|
  {
    log[k].replica == log[k - 1].replica && Streak(log[..k]) >= MAX_FENCING_ATTEMPTS
    ==> log[k].time >= log[k - 1].time + gap
  }

  predicate Ordered(log: seq<Entry>, now: int) {
    && (forall k :: 0 <= k < |log| ==> log[k].time % SECOND == 0 && log[k].time <= now)
    && (forall j, k :: 0 <= j < k < |log| ==> log[j].time <= log[k].time)
  }

  /** The stored counters are what the log says. */
  predicate CountersMatch(s: Status, log: seq<Entry>) {
    && s.fencingCount == |log|
    && s.consecutive == Streak(log)
    && if log == [] then s.lastFencingTime.None? && s.lastFenced == ""
       else s.lastFencingTime == Some(log[|log| - 1].time) && s.lastFenced == log[|log| - 1].replica
  }

  /** A DROP is sent less than one cooldown after the latest log entry, and that entry names the same replica. */
  predicate DropsJustified(spec: Spec, events: seq<Event>, log: seq<Entry>) {
    forall k :: 0 <= k < |events| && events[k].Fenced? && events[k].hard ==>
      var e := events[k];
      && 0 < e.recorded <= |log|
      && log[e.recorded - 1].replica == e.replica
      && e.at - log[e.recorded - 1].time < spec.Cooldown()
  }

  predicate FencingInvariant(spec: Spec, w: World) {
    && CountersMatch(w.stored, w.fencings)
    && Ordered(w.fencings, w.now)
    && Spaced(w.fencings, ToSecond(spec.Cooldown()))
    && DropsJustified(spec, w.events, w.fencings)
  }

  /** What a step does to the history of fencing: nothing, or a pass that fenced. */
  ghost predicate FencingUntouched(w: World, after: World) {
    && after.fencings == w.fencings
    && after.stored.fencingCount == w.stored.fencingCount
    && after.stored.consecutive == w.stored.consecutive
    && after.stored.lastFenced == w.stored.lastFenced
    && after.stored.lastFencingTime == w.stored.lastFencingTime
    && w.now <= after.now
    && w.events <= after.events
    && (forall k :: |w.events| <= k < |after.events| ==> !after.events[k].Fenced?)
  }

  lemma UntouchedKeepsFencing(spec: Spec, w: World, after: World)
    requires FencingInvariant(spec, w) && FencingUntouched(w, after)
    ensures FencingInvariant(spec, after)
  {
  }

  lemma LoopUntouched(spec: Spec, w: World, io: FailoverIO)
    requires spec.Valid() && Knows(spec, w)
    ensures FencingUntouched(w, FailoverLoop(spec, w, io).world)
  {
    var tried := LoopAppends(spec, w, io);
  }

  lemma FailoverUntouched(spec: Spec, w: World, io: FailoverIO)
    requires spec.Valid() && Knows(spec, w)
    ensures FencingUntouched(w, FailoverPass(spec, w, io).world)
  {
    var l := TryAcquire(w.lease, io.lease);
    if !CoolingDown(spec, w.stored, io.cooldownAt) && l.ok {
      LoopUntouched(spec,
                    w.(lease := l.lease,
                       acquisitions := w.acquisitions +
                         [Acquisition(io.lease.holder, io.lease.readAt, io.lease.checkAt)]), io);
    }
  }

  lemma PassUntouched(spec: Spec, w: World, io: FencingIO)
    requires Knows(spec, w) && !FencePass(spec, w, io).fenced
    ensures FencingUntouched(w, FencePass(spec, w, io).world)
  {
  }

  lemma StreakAppend(log: seq<Entry>, e: Entry)
    ensures Streak(log + [e]) == if log != [] && log[|log| - 1].replica == e.replica then Streak(log) + 1 else 1
  {
    assert (log + [e])[..|log|] == log;
  }

  lemma OrderedAppend(log: seq<Entry>, now: int, e: Entry, at: int)
    requires Ordered(log, now) && now <= at && e.time == ToSecond(at)
    ensures Ordered(log + [e], at)
  {
    if log != [] {
      var last := log[|log| - 1];
      StoredGap(last.time, 0, at);
    }
  }

  lemma SpacedAtPrefix(log: seq<Entry>, gap: int, e: Entry, k: nat)
    requires 0 < k < |log| && SpacedAt(log, gap, k)
    ensures SpacedAt(log + [e], gap, k)
  {
    var all := log + [e];
    assert all[..k] == log[..k] && all[k] == log[k] && all[k - 1] == log[k - 1];
  }

  lemma SpacedAtEnd(log: seq<Entry>, gap: int, e: Entry)
    requires log != []
    requires log[|log| - 1].replica == e.replica && Streak(log) >= MAX_FENCING_ATTEMPTS
             ==> e.time >= log[|log| - 1].time + gap
    ensures SpacedAt(log + [e], gap, |log|)
  {
    var all := log + [e];
    assert all[..|log|] == log && all[|log|] == e && all[|log| - 1] == log[|log| - 1];
  }

  lemma SpacedAppend(log: seq<Entry>, gap: int, e: Entry)
    requires Spaced(log, gap)
    requires log != [] && log[|log| - 1].replica == e.replica && Streak(log) >= MAX_FENCING_ATTEMPTS
             ==> e.time >= log[|log| - 1].time + gap
    ensures Spaced(log + [e], gap)
  {
    forall k | 0 < k < |log + [e]|
      ensures SpacedAt(log + [e], gap, k)
    {
      if k < |log| {
        SpacedAtPrefix(log, gap, e, k);
      } else {
        SpacedAtEnd(log, gap, e);
      }
    }
  }

  /** A pass records a replica only if the breaker is closed for it, which gives the new entry its distance. */
  lemma BreakerGap(spec: Spec, s: Status, log: seq<Entry>, now: int, n: Name, checkAt: int, recordAt: int)
    requires CountersMatch(s, log) && Ordered(log, now) && log != []
    requires log[|log| - 1].replica == n && Streak(log) >= MAX_FENCING_ATTEMPTS
    requires !Exhausted(spec, s, n, checkAt) && checkAt <= recordAt
    ensures ToSecond(recordAt) >= log[|log| - 1].time + ToSecond(spec.Cooldown())
  {
    StoredGap(log[|log| - 1].time, spec.Cooldown(), recordAt);
  }

  lemma EventsKeep(spec: Spec, w: World, rogues: seq<Name>, io: FencingIO, log: seq<Entry>)
    requires CountersMatch(w.stored, w.fencings) && DropsJustified(spec, w.events, w.fencings)
    requires w.fencings <= log
    ensures DropsJustified(spec, w.events + FencingEvents(spec, w.stored, |w.fencings|, rogues, io), log)
  {
    var events := w.events + FencingEvents(spec, w.stored, |w.fencings|, rogues, io);
    forall k | 0 <= k < |events| && events[k].Fenced? && events[k].hard
      ensures 0 < events[k].recorded <= |log|
      ensures log[events[k].recorded - 1].replica == events[k].replica
      ensures events[k].at - log[events[k].recorded - 1].time < spec.Cooldown()
    {
      if k >= |w.events| {
        assert events[k] == FencingEvents(spec, w.stored, |w.fencings|, rogues, io)[k - |w.events|];
        assert Recent(spec, w.stored, events[k].replica, io.fenceAt);
      }
    }
  }

  /** Recording a fencing of a replica for which the breaker is closed keeps the counters, the order and the spacing. */
  lemma RecordKeeps(spec: Spec, s: Status, log: seq<Entry>, now: int, winner: Name, last: Name,
                    checkAt: int, recordAt: int)
    requires CountersMatch(s, log) && Ordered(log, now) && Spaced(log, ToSecond(spec.Cooldown()))
    requires now <= checkAt <= recordAt && last != "" && !Exhausted(spec, s, last, checkAt)
    ensures var all := log + [Entry(last, ToSecond(recordAt))];
            && CountersMatch(FencedStatus(s, winner, last, recordAt), all)
            && Ordered(all, recordAt)
            && Spaced(all, ToSecond(spec.Cooldown()))
  {
    var entry := Entry(last, ToSecond(recordAt));
    StreakAppend(log, entry);
    OrderedAppend(log, now, entry, recordAt);
    if log != [] && log[|log| - 1].replica == last && Streak(log) >= MAX_FENCING_ATTEMPTS {
      BreakerGap(spec, s, log, now, last, checkAt, recordAt);
    }
    SpacedAppend(log, ToSecond(spec.Cooldown()), entry);
  }

  lemma LastRogue(spec: Spec, w: World, at: int) returns (last: Name)
    requires spec.Valid() && SeenPrimaries(spec, w.replicas) != {} && Rogues(spec, w, at) != []
    ensures last == Rogues(spec, w, at)[|Rogues(spec, w, at)| - 1]
    ensures last != "" && !Exhausted(spec, w.stored, last, at)
  {
    last := Rogues(spec, w, at)[|Rogues(spec, w, at)| - 1];
    assert last in Rogues(spec, w, at) && last in RogueSet(spec, w, at);
  }

  lemma FenceKeeps(spec: Spec, w: World, io: FencingIO)
    requires spec.Valid() && Knows(spec, w) && FencingInvariant(spec, w)
    requires w.now <= io.checkAt <= io.fenceAt <= io.recordAt
    requires SeenPrimaries(spec, w.replicas) != {} && Rogues(spec, w, io.checkAt) != []
    ensures FencingInvariant(spec, Fence(spec, w, io).(now := io.recordAt))
  {
    var last := LastRogue(spec, w, io.checkAt);
    var after := Fence(spec, w, io);
    EventsKeep(spec, w, Rogues(spec, w, io.checkAt), io, after.fencings);
    if io.statusLands {
      RecordKeeps(spec, w.stored, w.fencings, w.now, WinnerOf(spec, w), last, io.checkAt, io.recordAt);
    }
  }

  lemma FencingStepKeeps(spec: Spec, w: World, io: FencingIO)
    requires spec.Valid() && Knows(spec, w) && FencingInvariant(spec, w)
    requires w.now <= io.checkAt <= io.fenceAt <= io.recordAt
    ensures FencingInvariant(spec, FencePass(spec, w, io).world.(now := io.recordAt))
  {
    if FencePass(spec, w, io).fenced {
      assert Primaries(spec, w)[0] in SeenPrimaries(spec, w.replicas);
      FenceKeeps(spec, w, io);
    } else {
      PassUntouched(spec, w, io);
      UntouchedKeepsFencing(spec, w, FencePass(spec, w, io).world.(now := io.recordAt));
    }
  }

  lemma OtherStepUntouched(spec: Spec, w: World, step: Step)
    requires spec.Valid() && Knows(spec, w) && !step.FencingPass? && !step.AutoFailover?
    ensures FencingUntouched(w, Apply(spec, w, step))
  {
  }

  lemma StepKeepsFencing(spec: Spec, w: World, step: Step)
    requires spec.Valid() && Knows(spec, w) && FencingInvariant(spec, w)
    ensures FencingInvariant(spec, Apply(spec, w, step))
  {
    if Enabled(spec, w, step) {
      match step
      case FencingPass(io) => FencingStepKeeps(spec, w, io);
      case AutoFailover(io) =>
        FailoverUntouched(spec, w, io);
        UntouchedKeepsFencing(spec, w, Apply(spec, w, step));
      case _ =>
        OtherStepUntouched(spec, w, step);
        UntouchedKeepsFencing(spec, w, Apply(spec, w, step));
    }
  }

  lemma {:induction false} RunKeepsFencing(spec: Spec, w: World, steps: seq<Step>)
    requires spec.Valid() && Knows(spec, w) && FencingInvariant(spec, w)
    ensures FencingInvariant(spec, Run(spec, w, steps))
    decreases |steps|
  {
    if steps != [] {
      ApplyKnows(spec, w, steps[0]);
      StepKeepsFencing(spec, w, steps[0]);
      RunKeepsFencing(spec, Apply(spec, w, steps[0]), steps[1..]);
    }
  }

  lemma InitialFencing(spec: Spec, w: World)
    requires Initial(spec, w)
    ensures FencingInvariant(spec, w)
  {
  }

  /** In every reachable state the counters refine the log of landed fencing writes. */
  lemma CountersRefineLog(spec: Spec, w: World, steps: seq<Step>)
    requires spec.Valid() && Initial(spec, w)
    ensures var end := Run(spec, w, steps);
            && end.stored.fencingCount == |end.fencings|
            && end.stored.consecutive == Streak(end.fencings)
            && (end.fencings != [] ==>
                  && end.stored.lastFenced == end.fencings[|end.fencings| - 1].replica
                  && end.stored.lastFencingTime == Some(end.fencings[|end.fencings| - 1].time))
  {
    InitialFencing(spec, w);
    RunKeepsFencing(spec, w, steps);
  }

  lemma {:induction false} StreakSpan(log: seq<Entry>, gap: int, now: int, i: nat, j: nat)
    requires Ordered(log, now) && Spaced(log, gap)
    requires i + MAX_FENCING_ATTEMPTS - 1 <= j < |log|
    requires forall k :: i <= k <= j ==> log[k].replica == log[i].replica
    ensures log[j].time - log[i].time >= (j - i + 1 - MAX_FENCING_ATTEMPTS) * gap
    decreases j
  {
    var n := j - i + 1 - MAX_FENCING_ATTEMPTS;
    if n == 0 {
      assert n * gap == 0;
    } else {
      StreakSpan(log, gap, now, i, j - 1);
      StreakGap(log, gap, i, j);
      assert n * gap == (n - 1) * gap + gap;
    }
  }

  lemma StreakGap(log: seq<Entry>, gap: int, i: nat, j: nat)
    requires Spaced(log, gap)
    requires i + MAX_FENCING_ATTEMPTS <= j < |log|
    requires forall k :: i <= k <= j ==> log[k].replica == log[i].replica
    ensures log[j].time >= log[j - 1].time + gap
  {
    assert log[j].replica == log[j - 1].replica == log[i].replica;
    StreakCovers(log[..j], i);
    assert SpacedAt(log, gap, j);
  }

  /** Circuit breaker: in every run, n consecutive entries of the log for one replica span at least n - 5 cooldowns
      (each cut to whole seconds, the precision of the stored times). */
  lemma BreakerBound(spec: Spec, w: World, steps: seq<Step>, i: nat, j: nat)
    requires spec.Valid() && Initial(spec, w)
    requires i + MAX_FENCING_ATTEMPTS - 1 <= j < |Run(spec, w, steps).fencings|
    requires forall k :: i <= k <= j ==>
               Run(spec, w, steps).fencings[k].replica == Run(spec, w, steps).fencings[i].replica
    ensures var log := Run(spec, w, steps).fencings;
            log[j].time - log[i].time >= (j - i + 1 - MAX_FENCING_ATTEMPTS) * ToSecond(spec.Cooldown())
  {
    InitialFencing(spec, w);
    RunKeepsFencing(spec, w, steps);
    var end := Run(spec, w, steps);
    StreakSpan(end.fencings, ToSecond(spec.Cooldown()), end.now, i, j);
  }

  /** Escalation: in every run, a DROP AVAILABILITY GROUP sent by fencing comes less than one cooldown after the latest
      log entry of that moment, and that entry names the same replica. */
  lemma EscalationSafe(spec: Spec, w: World, steps: seq<Step>, k: nat)
    requires spec.Valid() && Initial(spec, w)
    requires k < |Run(spec, w, steps).events|
    requires Run(spec, w, steps).events[k].Fenced? && Run(spec, w, steps).events[k].hard
    ensures var end := Run(spec, w, steps);
            var e := end.events[k];
            && 0 < e.recorded <= |end.fencings|
            && end.fencings[e.recorded - 1].replica == e.replica
            && e.at - end.fencings[e.recorded - 1].time < spec.Cooldown()
  {
    InitialFencing(spec, w);
    RunKeepsFencing(spec, w, steps);
  }

  /** The replicas a pass fences, and the events it adds. */
  lemma PassEvents(spec: Spec, w: World, io: FencingIO) returns (rogues: seq<Name>)
    requires spec.Valid() && Knows(spec, w) && FencePass(spec, w, io).fenced
    ensures SeenPrimaries(spec, w.replicas) != {}
    ensures rogues == Rogues(spec, w, io.checkAt) && rogues != [] && Distinct(rogues)
    ensures forall i :: 0 <= i < |rogues| ==> rogues[i] in SeenPrimaries(spec, w.replicas) - {WinnerOf(spec, w)}
    ensures FencePass(spec, w, io).world.events ==
            w.events + FencingEvents(spec, w.stored, |w.fencings|, rogues, io)
  {
    assert Primaries(spec, w)[0] in SeenPrimaries(spec, w.replicas);
    rogues := Rogues(spec, w, io.checkAt);
    assert forall i :: 0 <= i < |rogues| ==> rogues[i] in rogues && rogues[i] in RogueSet(spec, w, io.checkAt);
  }

  /** Within a pass: commands go to distinct losers, so the winner gets none and at most one replica is dropped. */
  lemma CommandsOfPass(spec: Spec, w: World, io: FencingIO)
    requires spec.Valid() && Knows(spec, w) && FencePass(spec, w, io).fenced
    ensures SeenPrimaries(spec, w.replicas) != {}
    ensures var events := FencePass(spec, w, io).world.events;
            && w.events < events
            && (forall k :: |w.events| <= k < |events| ==>
                  events[k].Fenced? && events[k].replica in SeenPrimaries(spec, w.replicas) - {WinnerOf(spec, w)})
            && (forall j, k :: |w.events| <= j < k < |events| ==>
                  events[j].replica != events[k].replica && !(events[j].hard && events[k].hard))
            && (forall k :: |w.events| <= k < |events| ==> events[k].recorded == |w.fencings|)
  {
    var rogues := PassEvents(spec, w, io);
    var n, events := |w.events|, w.events + FencingEvents(spec, w.stored, |w.fencings|, rogues, io);
    forall k | n <= k < |events|
      ensures events[k] == Fenced(rogues[k - n], Recent(spec, w.stored, rogues[k - n], io.fenceAt), io.fenceAt,
                                  |w.fencings|, io.listOk)
    {
    }
  }

  /** The condition reason: in a reachable state, a landed fencing write says "hard" exactly when the last rogue is the
      replica recorded before, so always when that rogue was dropped. Reason and command agree exactly when the last
      rogue is another replica, or the recorded fencing is less than a cooldown old. */
  lemma HardReason(spec: Spec, w: World, io: FencingIO)
    requires spec.Valid() && Knows(spec, w) && FencingInvariant(spec, w)
    requires FencePass(spec, w, io).fenced && io.statusLands
    ensures var events := FencePass(spec, w, io).world.events;
            var last := events[|events| - 1];
            var hardReason := FencePass(spec, w, io).world.stored.reason == HardFencingExecuted;
            && (hardReason <==> w.fencings != [] && w.fencings[|w.fencings| - 1].replica == last.replica)
            && (last.hard ==> hardReason)
            && ((hardReason <==> last.hard) <==>
                  w.stored.lastFenced != last.replica || io.fenceAt - w.stored.lastFencingTime.value < spec.Cooldown())
  {
    var rogues := PassEvents(spec, w, io);
    var last := LastRogue(spec, w, io.checkAt);
    CommandsOfPass(spec, w, io);
  }

  /** Two replicas that both answer PRIMARY, the second with the higher LSN. */
  predicate LateLeader(spec: Spec, w: World) {
    && |spec.order| == 2 && Knows(spec, w)
    && w.replicas[spec.order[0]].SeenPrimary() && w.replicas[spec.order[1]].SeenPrimary()
    && w.replicas[spec.order[0]].SeenLsn() < w.replicas[spec.order[1]].SeenLsn()
  }

  lemma LateLeaderWins(spec: Spec, w: World, at: int)
    requires spec.Valid() && LateLeader(spec, w) && !Exhausted(spec, w.stored, spec.order[0], at)
    ensures SeenPrimaries(spec, w.replicas) != {} && |Primaries(spec, w)| == 2
    ensures WinnerOf(spec, w) == spec.order[1] && Rogues(spec, w, at) == [spec.order[0]]
  {
    var a, b := spec.order[0], spec.order[1];
    assert a in SeenPrimaries(spec, w.replicas) && b in SeenPrimaries(spec, w.replicas);
    KeepTwo(spec.order, SeenPrimaries(spec, w.replicas), a, b);
    forall n | n in spec.order
      ensures n == a || n == b
    {
    }
    var p := Primaries(spec, w);
    assert forall i :: 0 <= i < |p| ==> p[i] in p;
    if |p| > 2 {
      ThirdElement(p, a, b);
    }
    assert WinnerOf(spec, w) in Best(w.replicas, SeenPrimaries(spec, w.replicas));
    KeepOne(spec.order, RogueSet(spec, w, at), a);
  }

  /** A pass over such a pair fences the first replica. */
  lemma LateLeaderPass(spec: Spec, w: World, io: FencingIO)
    requires spec.Valid() && LateLeader(spec, w) && MayFence(spec, w, io.listOk)
    requires !Exhausted(spec, w.stored, spec.order[0], io.checkAt) && io.statusLands
    ensures var r, a := FencePass(spec, w, io), spec.order[0];
            && r.fenced && r.world.failovers == w.failovers
            && r.world.events == w.events +
               [Fenced(a, Recent(spec, w.stored, a, io.fenceAt), io.fenceAt, |w.fencings|, io.listOk)]
            && r.world.stored == FencedStatus(w.stored, spec.order[1], a, io.recordAt)
            && r.world.replicas[spec.order[1]] == w.replicas[spec.order[1]]
  {
    LateLeaderWins(spec, w, io.checkAt);
    assert spec.order[1] !in RogueSet(spec, w, io.checkAt);
  }

  /** The run of the counterexample below. */
  function SoftTwice(spec: Spec, w: World, observe: ObserveIO, first: FencingIO, second: FencingIO): seq<Step>
    requires spec.Valid() && Knows(spec, w)
  {
    [Observe(observe), FencingPass(first), Drift(spec.order[0], w.replicas[spec.order[0]]), FencingPass(second)]
  }

  /** Reason and command do differ in runs: a replica is demoted, reclaims PRIMARY, and is only demoted again when at
      least a cooldown has passed since it was recorded, but the reason says "hard". */
  lemma HardReasonWithoutDrop(spec: Spec, w: World, observe: ObserveIO, first: FencingIO, second: FencingIO)
    requires spec.Valid() && spec.Fenceable() && Initial(spec, w) && LateLeader(spec, w)
    requires observe.statusOk && observe.statusLands && observe.observed == spec.order[1]
    requires w.now <= first.checkAt <= first.fenceAt <= first.recordAt && first.statusLands
    requires first.recordAt <= second.checkAt <= second.fenceAt <= second.recordAt && second.statusLands
    requires second.fenceAt - ToSecond(first.recordAt) >= spec.Cooldown()
    ensures var end := Run(spec, w, SoftTwice(spec, w, observe, first, second));
            && end.stored.reason == HardFencingExecuted
            && |end.events| == 2 && forall k :: 0 <= k < 2 ==> end.events[k].Fenced? && !end.events[k].hard
  {
    var a, steps := spec.order[0], SoftTwice(spec, w, observe, first, second);
    var w1 := Apply(spec, w, steps[0]);
    RunFour(spec, w, steps);
    var w2, w3 := Apply(spec, w1, steps[1]), Apply(spec, Apply(spec, w1, steps[1]), steps[2]);
    SoftTwicePasses(spec, w1, w.replicas[a], first, second);
    assert Run(spec, w, steps) == Apply(spec, w3, steps[3]);
  }

  lemma RunFour(spec: Spec, w: World, steps: seq<Step>)
    requires spec.Valid() && Knows(spec, w) && |steps| == 4
    ensures Knows(spec, Apply(spec, w, steps[0]))
    ensures Knows(spec, Apply(spec, Apply(spec, w, steps[0]), steps[1]))
    ensures Knows(spec, Apply(spec, Apply(spec, Apply(spec, w, steps[0]), steps[1]), steps[2]))
    ensures Run(spec, w, steps) ==
            Apply(spec, Apply(spec, Apply(spec, Apply(spec, w, steps[0]), steps[1]), steps[2]), steps[3])
  {
    var w1 := Apply(spec, w, steps[0]);
    ApplyKnows(spec, w, steps[0]);
    ApplyKnows(spec, w1, steps[1]);
    var w2 := Apply(spec, w1, steps[1]);
    ApplyKnows(spec, w2, steps[2]);
    var w3 := Apply(spec, w2, steps[2]);
    ApplyKnows(spec, w3, steps[3]);
    assert steps == [steps[0]] + [steps[1], steps[2], steps[3]];
    assert Run(spec, w, steps) == Run(spec, w1, [steps[1], steps[2], steps[3]]) by {
      assert steps[1..] == [steps[1], steps[2], steps[3]];
    }
    assert [steps[1], steps[2], steps[3]][1..] == [steps[2], steps[3]];
    assert [steps[2], steps[3]][1..] == [steps[3]];
    assert Run(spec, w3, [steps[3]]) == Apply(spec, w3, steps[3]);
    assert Run(spec, w2, [steps[2], steps[3]]) == Run(spec, w3, [steps[3]]);
    assert Run(spec, w1, [steps[1], steps[2], steps[3]]) == Run(spec, w2, [steps[2], steps[3]]);
  }

  lemma SoftTwicePasses(spec: Spec, w: World, loser: Replica, first: FencingIO, second: FencingIO)
    requires spec.Valid() && LateLeader(spec, w) && w.stored.primary == spec.order[1] && spec.Fenceable()
    requires w.failovers == map[] && w.events == [] && w.stored.lastFenced == "" && loser == w.replicas[spec.order[0]]
    requires w.now <= first.checkAt <= first.fenceAt <= first.recordAt && first.statusLands
    requires first.recordAt <= second.checkAt <= second.fenceAt <= second.recordAt && second.statusLands
    requires second.fenceAt - ToSecond(first.recordAt) >= spec.Cooldown()
    requires w.stored.consecutive == 0
    ensures var w2 := Apply(spec, w, FencingPass(first));
            && Knows(spec, w2)
            && var w3 := Apply(spec, w2, Drift(spec.order[0], loser));
               && Knows(spec, w3)
               && var end := Apply(spec, w3, FencingPass(second));
                  && end.stored.reason == HardFencingExecuted
                  && |end.events| == 2 && forall k :: 0 <= k < 2 ==> end.events[k].Fenced? && !end.events[k].hard
  {
    var w2 := Apply(spec, w, FencingPass(first));
    ApplyKnows(spec, w, FencingPass(first));
    ApplyKnows(spec, w2, Drift(spec.order[0], loser));
    SoftOnce(spec, w, loser, first);
    SoftAgain(spec, Apply(spec, w2, Drift(spec.order[0], loser)), second);
  }

  /** Demoted once, recorded, and back. */
  predicate SoftlyRecorded(spec: Spec, w: World, at: int)
    requires |spec.order| == 2
  {
    && LateLeader(spec, w) && w.stored.primary == spec.order[1] && w.failovers == map[] && w.now == at
    && w.stored.lastFenced == spec.order[0] && w.stored.lastFencingTime == Some(ToSecond(at))
    && w.stored.consecutive == 1
    && |w.events| == 1 && w.events[0].Fenced? && !w.events[0].hard
  }

  lemma SoftOnce(spec: Spec, w: World, loser: Replica, io: FencingIO)
    requires spec.Valid() && LateLeader(spec, w) && w.stored.primary == spec.order[1] && spec.Fenceable()
    requires w.failovers == map[] && w.events == [] && w.stored.lastFenced == "" && loser == w.replicas[spec.order[0]]
    requires w.now <= io.checkAt <= io.fenceAt <= io.recordAt && io.statusLands && w.stored.consecutive == 0
    ensures SoftlyRecorded(spec, Apply(spec, Apply(spec, w, FencingPass(io)), Drift(spec.order[0], loser)), io.recordAt)
  {
    LateLeaderPass(spec, w, io);
    ApplyKnows(spec, w, FencingPass(io));
  }

  lemma SoftAgain(spec: Spec, w: World, io: FencingIO)
    requires spec.Valid() && |spec.order| == 2 && spec.Fenceable() && SoftlyRecorded(spec, w, w.now)
    requires w.now <= io.checkAt <= io.fenceAt <= io.recordAt && io.statusLands
    requires io.fenceAt - ToSecond(w.now) >= spec.Cooldown()
    ensures var end := Apply(spec, w, FencingPass(io));
            && end.stored.reason == HardFencingExecuted
            && |end.events| == 2 && forall k :: 0 <= k < 2 ==> end.events[k].Fenced? && !end.events[k].hard
  {
    LateLeaderPass(spec, w, io);
  }
}
