/** Whole runs of scheduled backups: scheduler passes, steps of the Backup controller, and an environment that lets time
    pass, deletes backups and creates others, in any order and with any failures. */
module BackupRuns {
  import opened Clock
  import opened Selection
  import opened Retention
  import opened Backups

  datatype Step =
    | Advance(to: int)
    | Scheduling(io: SchedulerIO, deleted: set<BackupName>)
    | Working(name: BackupName, work: WorkerIO)
    | Restart
    | Delete(name: BackupName)
    | Create(name: BackupName, owner: string)

  /** The clock does not go back, and nobody else labels a backup with this schedule. */
  ghost predicate Enabled(schedule: Schedule, w: World, step: Step) {
    match step
    case Advance(to) => w.now <= to
    case Scheduling(io, deleted) => Cleanup(schedule, w, io, deleted)
    case Working(_, _) => true
    case Restart => true
    case Delete(_) => true
    case Create(name, owner) => name !in w.backups && owner != schedule.name
  }

  ghost function Apply(schedule: Schedule, w: World, step: Step): World {
    if !Enabled(schedule, w, step) then w else
    match step
    case Advance(to) => w.(now := to)
    case Scheduling(io, deleted) => SchedulerPass(schedule, w, io, deleted)
    case Working(name, io) => WorkerStep(w, name, io)
    case Restart => w.(workers := map[])
    case Delete(name) => w.(backups := w.backups - {name})
    case Create(name, owner) => w.(backups := w.backups[name := Backup(owner, ToSecond(w.now), New)])
  }

  ghost function Run(schedule: Schedule, w: World, steps: seq<Step>): World
    decreases |steps|
  {
    if steps == [] then w else Run(schedule, Apply(schedule, w, steps[0]), steps[1..])
  }

  /** A new schedule: no status, no history, no backup of its own. */
  predicate Initial(schedule: Schedule, w: World) {
    && w.stored == Status(None, None, None, None, [], 0, 0, 0)
    && (forall n :: n in w.backups ==> w.backups[n].owner != schedule.name)
    && w.workers == map[] && w.creations == [] && w.outcomes == [] && w.cleared == 0 && !w.lost
    && w.created % SECOND == 0 && w.created <= w.now
  }

  // ----- Accounting -----

  function Count(log: seq<Entry>, phase: Phase): (n: nat)
    ensures n <= |log|
  {
    if log == [] then 0
    else Count(log[..|log| - 1], phase) + if log[|log| - 1].phase == phase then 1 else 0
  }

  /** The name in the last completed entry of the log. */
  function LatestCompleted(log: seq<Entry>): (r: Option<BackupName>)
    ensures r.None? ==> forall i :: 0 <= i < |log| ==> !log[i].phase.Completed?
    ensures r.Some? ==> exists i :: 0 <= i < |log| && log[i] == Entry(r.value, Completed) &&
                                    forall k :: i < k < |log| ==> !log[k].phase.Completed?
  {
    if log == [] then None
    else if log[|log| - 1].phase.Completed? then
      assert log[|log| - 1] == Entry(log[|log| - 1].name, Completed);
      Some(log[|log| - 1].name)
    else
      var front := log[..|log| - 1];
      assert forall i :: 0 <= i < |front| ==> front[i] == log[i];
      LatestCompleted(front)
  }

  /** The status is what the full log of outcomes says. */
  predicate StatusMatches(s: Status, log: seq<Entry>, cleared: nat) {
    && s.total == s.succeeded + s.failed + (if s.active.Some? then 1 else 0) + cleared
    && s.succeeded == Count(log, Completed) && s.failed == Count(log, Failed)
    && (forall e :: e in log ==> e.phase.Terminal())
    && s.history == LastEntries(log)
    && s.lastSuccessful == LatestCompleted(log)
  }

  lemma SettledMatches(s: Status, log: seq<Entry>, cleared: nat, e: Entry)
    requires StatusMatches(s, log, cleared) && s.active.Some? && e.phase.Terminal()
    ensures StatusMatches(Settled(s, e), log + [e], cleared)
  {
    assert (log + [e])[..|log|] == log;
    KeepsLast(log, e);
  }

  /** Cutting the history at every step keeps the same entries as cutting the full log once. */
  lemma KeepsLast(log: seq<Entry>, e: Entry)
    ensures LastEntries(LastEntries(log) + [e]) == LastEntries(log + [e])
  {
    var all := log + [e];
    if |all| > MAX_HISTORY {
      assert all[|all| - MAX_HISTORY..] == log[|all| - MAX_HISTORY..] + [e];
    }
  }

  lemma ActivePassMatches(w: World, name: BackupName, io: SchedulerIO, deleted: set<BackupName>)
    requires StatusMatches(w.stored, w.outcomes, w.cleared) && w.stored.active == Some(name)
    ensures var after := ActivePass(w, name, io, deleted); StatusMatches(after.stored, after.outcomes, after.cleared)
  {
    if name in w.backups && w.backups[name].phase.Terminal() {
      SettledMatches(w.stored, w.outcomes, w.cleared, Entry(name, w.backups[name].phase));
    }
  }

  lemma DuePassMatches(schedule: Schedule, w: World, io: SchedulerIO)
    requires StatusMatches(w.stored, w.outcomes, w.cleared) && w.stored.active.None?
    ensures var after := DuePass(schedule, w, io); StatusMatches(after.stored, after.outcomes, after.cleared)
  {
  }

  lemma StepMatches(schedule: Schedule, w: World, step: Step)
    requires StatusMatches(w.stored, w.outcomes, w.cleared)
    ensures var after := Apply(schedule, w, step); StatusMatches(after.stored, after.outcomes, after.cleared)
  {
    var after := Apply(schedule, w, step);
    if step.Scheduling? {
      if w.stored.active.Some? {
        ActivePassMatches(w, w.stored.active.value, step.io, step.deleted);
      } else {
        DuePassMatches(schedule, w, step.io);
      }
    } else {
      assert after.stored == w.stored && after.outcomes == w.outcomes && after.cleared == w.cleared;
    }
  }

  lemma {:induction false} RunMatches(schedule: Schedule, w: World, steps: seq<Step>)
    requires StatusMatches(w.stored, w.outcomes, w.cleared)
    ensures var after := Run(schedule, w, steps); StatusMatches(after.stored, after.outcomes, after.cleared)
    decreases |steps|
  {
    if steps != [] {
      StepMatches(schedule, w, steps[0]);
      RunMatches(schedule, Apply(schedule, w, steps[0]), steps[1..]);
    }
  }

  /** Accounting: in every reachable state, whatever was lost on the way, each counted backup is recorded, active, or
      was found deleted; the history is the tail of the full log, and the last success is the latest completed entry. */
  lemma BackupAccounting(schedule: Schedule, w: World, steps: seq<Step>)
    requires Initial(schedule, w)
    ensures var after := Run(schedule, w, steps);
            var s, log := after.stored, after.outcomes;
            && s.total == s.succeeded + s.failed + (if s.active.Some? then 1 else 0) + after.cleared
            && s.succeeded == Count(log, Completed) && s.failed == Count(log, Failed)
            && s.succeeded + s.failed == |log|
            && s.history == LastEntries(log)
            && s.lastSuccessful == LatestCompleted(log)
  {
    RunMatches(schedule, w, steps);
    CountsCover(Run(schedule, w, steps).outcomes);
  }

  lemma {:induction false} CountsCover(log: seq<Entry>)
    requires forall e :: e in log ==> e.phase.Terminal()
    ensures Count(log, Completed) + Count(log, Failed) == |log|
  {
    if log != [] {
      assert log[|log| - 1] in log;
      CountsCover(log[..|log| - 1]);
    }
  }

  // ----- Terminal phases -----

  /** A worker is busy only with a backup that has no outcome yet. */
  predicate BusyBeforeOutcome(w: World) {
    forall n :: n in w.workers && n in w.backups ==> !w.backups[n].phase.Terminal()
  }

  lemma StepKeepsBusy(schedule: Schedule, w: World, step: Step)
    requires BusyBeforeOutcome(w)
    ensures BusyBeforeOutcome(Apply(schedule, w, step))
    ensures forall n :: n in w.backups && w.backups[n].phase.Terminal() && n in Apply(schedule, w, step).backups ==>
              Apply(schedule, w, step).backups[n] == w.backups[n]
  {
  }

  /** The backup `n` exists in every state of the run. */
  ghost predicate Kept(schedule: Schedule, w: World, steps: seq<Step>, n: BackupName) {
    forall k :: 0 <= k <= |steps| ==> n in Run(schedule, w, steps[..k]).backups
  }

  /** Terminal phases are absorbing: a backup with an outcome keeps it as long as it exists. */
  lemma {:induction false} OutcomeStays(schedule: Schedule, w: World, steps: seq<Step>, n: BackupName)
    requires BusyBeforeOutcome(w) && n in w.backups && w.backups[n].phase.Terminal()
    requires Kept(schedule, w, steps, n)
    ensures n in Run(schedule, w, steps).backups && Run(schedule, w, steps).backups[n] == w.backups[n]
    decreases |steps|
  {
    if steps != [] {
      var next := Apply(schedule, w, steps[0]);
      StepKeepsBusy(schedule, w, steps[0]);
      forall k | 0 <= k < |steps|
        ensures n in Run(schedule, next, steps[1..][..k]).backups
      {
        assert steps[..k + 1][0] == steps[0] && steps[..k + 1][1..] == steps[1..][..k];
        assert n in Run(schedule, w, steps[..k + 1]).backups;
      }
      assert n in Run(schedule, next, steps[1..][..0]).backups;
      assert steps[1..][..0] == [];
      OutcomeStays(schedule, next, steps[1..], n);
    }
  }

  // ----- Overlap and rate -----

  /** Every backup of the schedule other than the active one has its outcome. */
  predicate NoOverlap(schedule: Schedule, w: World) {
    forall n :: n in w.backups && w.backups[n].owner == schedule.name && w.stored.active != Some(n) ==>
      w.backups[n].phase.Terminal()
  }

  /** What precedes creation `k`: the creation of the schedule, or the previous backup. */
  function Before(created: int, creations: seq<int>, k: nat): int
    requires k <= |creations|
  {
    if k == 0 then created else creations[k - 1]
  }

  ghost predicate SpacedAt(schedule: Schedule, w: World, k: nat)
    requires k < |w.creations|
  {
    schedule.next(Before(w.created, w.creations, k)) <= w.creations[k] <= w.now
  }

  ghost predicate ProducedBy(schedule: Schedule, w: World, n: BackupName) {
    exists i :: 0 <= i < |w.creations| && n == schedule.NameAt(w.creations[i])
  }

  /** The stored reference is the latest creation, and creations are spaced by fires. */
  ghost predicate RateInvariant(schedule: Schedule, w: World) {
    && w.created <= w.now && w.created % SECOND == 0
    && (if w.creations == [] then w.stored.lastSchedule.None?
        else w.stored.lastSchedule == Some(ToSecond(w.creations[|w.creations| - 1])))
    && (forall k :: 0 <= k < |w.creations| ==> SpacedAt(schedule, w, k))
    && (forall n :: n in w.backups && w.backups[n].owner == schedule.name ==> ProducedBy(schedule, w, n))
  }

  ghost predicate LandedInvariant(schedule: Schedule, w: World) {
    BusyBeforeOutcome(w) && NoOverlap(schedule, w) && RateInvariant(schedule, w)
  }

  /** The pass creates a backup. */
  predicate Produces(schedule: Schedule, w: World, io: SchedulerIO) {
    && io.parses && !io.suspended && w.stored.active.None? && schedule.next(Reference(w)) <= w.now
    && io.renders && io.creatable && schedule.NameAt(w.now) !in w.backups
  }

  lemma StepKeepsNoOverlap(schedule: Schedule, w: World, step: Step)
    requires BusyBeforeOutcome(w) && NoOverlap(schedule, w) && !Apply(schedule, w, step).lost
    ensures NoOverlap(schedule, Apply(schedule, w, step))
  {
    StepKeepsBusy(schedule, w, step);
  }

  /** A step other than a creation leaves the reference and the creations alone and adds no backup of the schedule. */
  ghost predicate RateUntouched(schedule: Schedule, w: World, after: World) {
    && after.creations == w.creations && after.created == w.created && w.now <= after.now
    && after.stored.lastSchedule == w.stored.lastSchedule
    && forall n :: n in after.backups && after.backups[n].owner == schedule.name ==>
         n in w.backups && w.backups[n].owner == schedule.name
  }

  lemma OtherStepUntouched(schedule: Schedule, w: World, step: Step)
    requires step.Scheduling? && Enabled(schedule, w, step) ==> !Produces(schedule, w, step.io)
    ensures RateUntouched(schedule, w, Apply(schedule, w, step))
  {
  }

  lemma UntouchedKeepsRate(schedule: Schedule, w: World, after: World)
    requires RateInvariant(schedule, w) && RateUntouched(schedule, w, after)
    ensures RateInvariant(schedule, after)
  {
    forall k | 0 <= k < |after.creations|
      ensures SpacedAt(schedule, after, k)
    {
      var spaced := SpacedAt(schedule, w, k);
    }
    forall n | n in after.backups && after.backups[n].owner == schedule.name
      ensures ProducedBy(schedule, after, n)
    {
      var produced := ProducedBy(schedule, w, n);
    }
  }

  lemma CreationKeepsRate(schedule: Schedule, w: World, io: SchedulerIO)
    requires schedule.Valid() && RateInvariant(schedule, w) && Produces(schedule, w, io) && io.statusLands
    ensures RateInvariant(schedule, DuePass(schedule, w, io))
  {
    var after := DuePass(schedule, w, io);
    var n := |w.creations|;
    assert after.creations[n] == w.now;
    if n > 0 {
      NextOfStored(schedule, w.creations[n - 1]);
    }
    forall k | 0 <= k < |after.creations|
      ensures SpacedAt(schedule, after, k)
    {
      if k < n {
        var spaced := SpacedAt(schedule, w, k);
      }
    }
    forall b | b in after.backups && after.backups[b].owner == schedule.name
      ensures ProducedBy(schedule, after, b)
    {
      if b != schedule.NameAt(w.now) {
        assert ProducedBy(schedule, w, b);
        var i :| 0 <= i < n && b == schedule.NameAt(w.creations[i]);
        assert after.creations[i] == w.creations[i];
      }
    }
  }

  lemma StepKeepsLanded(schedule: Schedule, w: World, step: Step)
    requires schedule.Valid() && LandedInvariant(schedule, w) && !Apply(schedule, w, step).lost
    ensures LandedInvariant(schedule, Apply(schedule, w, step))
  {
    StepKeepsBusy(schedule, w, step);
    StepKeepsNoOverlap(schedule, w, step);
    if step.Scheduling? && Enabled(schedule, w, step) && Produces(schedule, w, step.io) {
      CreationKeepsRate(schedule, w, step.io);
    } else {
      OtherStepUntouched(schedule, w, step);
      UntouchedKeepsRate(schedule, w, Apply(schedule, w, step));
    }
  }

  lemma {:induction false} LostStays(schedule: Schedule, w: World, steps: seq<Step>)
    requires w.lost
    ensures Run(schedule, w, steps).lost
    decreases |steps|
  {
    if steps != [] {
      LostStays(schedule, Apply(schedule, w, steps[0]), steps[1..]);
    }
  }

  lemma {:induction false} RunKeepsLanded(schedule: Schedule, w: World, steps: seq<Step>)
    requires schedule.Valid() && LandedInvariant(schedule, w) && !Run(schedule, w, steps).lost
    ensures LandedInvariant(schedule, Run(schedule, w, steps)) && Run(schedule, w, steps).created == w.created
    decreases |steps|
  {
    if steps != [] {
      var next := Apply(schedule, w, steps[0]);
      if next.lost {
        LostStays(schedule, next, steps[1..]);
      }
      StepKeepsLanded(schedule, w, steps[0]);
      RunKeepsLanded(schedule, next, steps[1..]);
    }
  }

  /** No overlap: while the status write after each creation lands, every backup of the schedule other than the active
      one is completed or failed, in every state that both controllers and the environment can reach. */
  lemma NoOverlappingBackups(schedule: Schedule, w: World, steps: seq<Step>)
    requires schedule.Valid() && Initial(schedule, w)
    ensures var after := Run(schedule, w, steps); !after.lost ==> NoOverlap(schedule, after)
  {
    if !Run(schedule, w, steps).lost {
      RunKeepsLanded(schedule, w, steps);
    }
  }

  /** The fires in an interval, open at its start. */
  ghost function Fires(schedule: Schedule, from: int, to: int): set<int> {
    set t | from < t <= to && schedule.fires(t)
  }

  lemma Subset<T>(a: set<T>, b: set<T>)
    requires a <= b
    ensures |a| <= |b|
  {
    assert b == a + (b - a);
  }

  /** The first `k` creations used up at least `k` fires. */
  lemma {:induction false} FiresUsed(schedule: Schedule, w: World, k: nat, to: int)
    requires schedule.Valid() && RateInvariant(schedule, w)
    requires 0 < k <= |w.creations| && w.creations[k - 1] <= to
    ensures k <= |Fires(schedule, w.created, to)| && w.created < w.creations[k - 1]
  {
    var prior := Before(w.created, w.creations, k - 1);
    var fire := schedule.next(prior);
    assert SpacedAt(schedule, w, k - 1);
    if k > 1 {
      FiresUsed(schedule, w, k - 1, prior);
    }
    var earlier := Fires(schedule, w.created, prior);
    assert fire !in earlier;
    assert k - 1 <= |earlier|;
    Subset(earlier + {fire}, Fires(schedule, w.created, to));
  }

  /** The scheduler never over-produces: while status writes land, the backups created up to any instant are at most the
      fires since the schedule's creation, because each creation waits for the first fire after the previous one. */
  lemma NeverOverproduces(schedule: Schedule, w: World, steps: seq<Step>, k: nat, to: int)
    requires schedule.Valid() && Initial(schedule, w)
    requires !Run(schedule, w, steps).lost && k <= |Run(schedule, w, steps).creations|
    requires k > 0 ==> Run(schedule, w, steps).creations[k - 1] <= to
    ensures k <= |Fires(schedule, w.created, to)|
    ensures var c := Run(schedule, w, steps).creations;
            && (c != [] ==> schedule.next(w.created) <= c[0])
            && forall i :: 0 < i < |c| ==> schedule.next(Before(w.created, c, i)) <= c[i] < schedule.next(c[i])
  {
    var after := Run(schedule, w, steps);
    RunKeepsLanded(schedule, w, steps);
    if k > 0 {
      FiresUsed(schedule, after, k, to);
    }
    forall i | 0 <= i < |after.creations|
      ensures schedule.next(Before(w.created, after.creations, i)) <= after.creations[i]
    {
      var spaced := SpacedAt(schedule, after, i);
    }
  }

  lemma {:induction false} NamesIncrease(schedule: Schedule, w: World, i: nat, j: nat)
    requires schedule.Valid() && RateInvariant(schedule, w) && i < j < |w.creations|
    ensures ToSecond(w.creations[i]) < ToSecond(w.creations[j])
  {
    var spaced := SpacedAt(schedule, w, j);
    NameAfterFire(schedule, w.creations[j - 1], w.creations[j]);
    if i < j - 1 {
      NamesIncrease(schedule, w, i, j - 1);
    }
  }

  /** Generated names never collide, although they only carry the second: neither two created backups, nor a backup that
      is due and one that exists. */
  lemma NamesNeverCollide(schedule: Schedule, w: World, steps: seq<Step>)
    requires schedule.Valid() && Initial(schedule, w) && !Run(schedule, w, steps).lost
    ensures var after := Run(schedule, w, steps);
            && (forall i, j :: 0 <= i < j < |after.creations| ==>
                  schedule.NameAt(after.creations[i]) != schedule.NameAt(after.creations[j]))
            && (var name := schedule.NameAt(after.now);
                schedule.next(Reference(after)) <= after.now && name in after.backups ==>
                  after.backups[name].owner != schedule.name)
  {
    var after := Run(schedule, w, steps);
    RunKeepsLanded(schedule, w, steps);
    forall i, j | 0 <= i < j < |after.creations|
      ensures schedule.NameAt(after.creations[i]) != schedule.NameAt(after.creations[j])
    {
      NamesIncrease(schedule, after, i, j);
    }
    var name := schedule.NameAt(after.now);
    if schedule.next(Reference(after)) <= after.now && name in after.backups
       && after.backups[name].owner == schedule.name {
      assert ProducedBy(schedule, after, name);
      var i :| 0 <= i < |after.creations| && name == schedule.NameAt(after.creations[i]);
      var last := |after.creations| - 1;
      NextOfStored(schedule, after.creations[last]);
      NameAfterFire(schedule, after.creations[last], after.now);
      if i < last {
        NamesIncrease(schedule, after, i, last);
      }
    }
  }

  /** Missed fires collapse into one: a landed creation puts the next fire into the future, however many had been
      missed. */
  lemma MissedFiresCollapse(schedule: Schedule, w: World, io: SchedulerIO, next: SchedulerIO, to: int)
    requires schedule.Valid() && Produces(schedule, w, io) && io.statusLands
    ensures var after := SchedulerPass(schedule, w, io, {});
            && schedule.NameAt(w.now) in after.backups && after.stored.active == Some(schedule.NameAt(w.now))
            && w.now < schedule.next(Reference(after))
            && (w.now <= to < schedule.next(w.now) ==>
                  !Produces(schedule, after.(now := to, stored := after.stored.(active := None)), next))
  {
    NextOfStored(schedule, w.now);
  }

  // ----- A lost status write -----

  /** A scheduler pass whose every call succeeds. */
  const ALL_WELL: SchedulerIO := SchedulerIO(true, false, None, true, true, true, true, true, true, {})

  /** When the status write after a creation is lost, the backup is not known as active: from the next second on, the
      same fire yields a second backup beside the first. Before a further fire has come, that is more than there are
      fires. */
  lemma LostWriteOverproduces(schedule: Schedule, w: World, io: SchedulerIO, again: SchedulerIO, to: int)
    requires schedule.Valid() && Produces(schedule, w, io) && !io.statusLands
    requires ToSecond(w.now) < ToSecond(to) && schedule.NameAt(to) !in w.backups
    requires again.parses && !again.suspended && again.renders && again.creatable && again.statusLands
    ensures var first := Apply(schedule, w, Scheduling(io, {}));
            var after := Run(schedule, first, [Advance(to), Scheduling(again, {})]);
            && !NoOverlap(schedule, after)
            && after.creations == w.creations + [w.now, to]
            && (to < schedule.next(schedule.next(Reference(w))) ==> |Fires(schedule, Reference(w), to)| == 1)
  {
    var first := Apply(schedule, w, Scheduling(io, {}));
    var waited := Apply(schedule, first, Advance(to));
    var after := Apply(schedule, waited, Scheduling(again, {}));
    ToSecondOrder(w.now, to);
    assert Reference(waited) == Reference(w) && waited.stored.active.None?;
    assert after.stored.active == Some(schedule.NameAt(to));
    assert schedule.NameAt(w.now) in after.backups && !after.backups[schedule.NameAt(w.now)].phase.Terminal();
    assert [Advance(to), Scheduling(again, {})][1..] == [Scheduling(again, {})];
    assert Run(schedule, waited, [Scheduling(again, {})]) == after;
    if to < schedule.next(schedule.next(Reference(w))) {
      assert Fires(schedule, Reference(w), to) == {schedule.next(Reference(w))};
    }
  }

  /** Every creation of the run has its status write landed. */
  ghost predicate CreationsLand(schedule: Schedule, w: World, steps: seq<Step>)
    decreases |steps|
  {
    steps == [] ||
    (&& (steps[0].Scheduling? && Enabled(schedule, w, steps[0]) && Produces(schedule, w, steps[0].io) ==>
           steps[0].io.statusLands)
     && CreationsLand(schedule, Apply(schedule, w, steps[0]), steps[1..]))
  }

  lemma {:induction false} NothingLost(schedule: Schedule, w: World, steps: seq<Step>)
    requires !w.lost && CreationsLand(schedule, w, steps)
    ensures !Run(schedule, w, steps).lost
    decreases |steps|
  {
    if steps != [] {
      NothingLost(schedule, Apply(schedule, w, steps[0]), steps[1..]);
    }
  }

  lemma {:induction false} LatestSecond(names: set<BackupName>) returns (m: int)
    ensures forall n :: n in names ==> n.second <= m
  {
    m := 0;
    if names != {} {
      var x :| x in names;
      m := LatestSecond(names - {x});
      m := if m < x.second then x.second else m;
    }
  }

  /** There is always a later second whose name is free. */
  lemma FreeSecond(schedule: Schedule, w: World) returns (to: int)
    ensures ToSecond(w.now) < ToSecond(to) && schedule.NameAt(to) !in w.backups
  {
    var m := LatestSecond(w.backups.Keys);
    to := (if m < w.now then w.now else m) + SECOND;
    assert to - SECOND < ToSecond(to);
  }

  /** A creation is safe exactly when its own status write lands: then no continuation in which creations land overlaps,
      and otherwise there is one that does. */
  lemma CreationSafe(schedule: Schedule, w: World, io: SchedulerIO)
    requires schedule.Valid() && LandedInvariant(schedule, w) && !w.lost && Produces(schedule, w, io)
    ensures io.statusLands <==>
            forall steps :: CreationsLand(schedule, Apply(schedule, w, Scheduling(io, {})), steps) ==>
              NoOverlap(schedule, Run(schedule, Apply(schedule, w, Scheduling(io, {})), steps))
  {
    var first := Apply(schedule, w, Scheduling(io, {}));
    if io.statusLands {
      StepKeepsLanded(schedule, w, Scheduling(io, {}));
      forall steps | CreationsLand(schedule, first, steps)
        ensures NoOverlap(schedule, Run(schedule, first, steps))
      {
        NothingLost(schedule, first, steps);
        RunKeepsLanded(schedule, first, steps);
      }
    } else {
      var to := FreeSecond(schedule, w);
      var steps := [Advance(to), Scheduling(ALL_WELL, {})];
      LostWriteOverproduces(schedule, w, io, ALL_WELL, to);
      assert steps[1..] == [Scheduling(ALL_WELL, {})] && steps[1..][1..] == [];
      var waited := Apply(schedule, first, Advance(to));
      assert CreationsLand(schedule, waited, [Scheduling(ALL_WELL, {})]);
      assert CreationsLand(schedule, first, steps);
    }
  }

  /** Every state of a run in which creations land meets the premise of CreationSafe. */
  lemma ReachableIsLanded(schedule: Schedule, w: World, steps: seq<Step>)
    requires schedule.Valid() && Initial(schedule, w) && CreationsLand(schedule, w, steps)
    ensures LandedInvariant(schedule, Run(schedule, w, steps)) && !Run(schedule, w, steps).lost
  {
    NothingLost(schedule, w, steps);
    RunKeepsLanded(schedule, w, steps);
  }

  lemma ToSecondOrder(t: int, u: int)
    requires ToSecond(t) < ToSecond(u)
    ensures t < u
  {
    if u <= t {
      ToSecondMonotone(u, t);
    }
  }
}
