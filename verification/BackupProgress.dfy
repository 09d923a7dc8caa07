/** What one pass of the scheduler does to the stored fields, and that the schedule goes on: every outcome is recorded
    and frees the schedule, and every due pass creates. The pieces of the pass do not occur in these statements. */
module BackupProgress {
  import opened Clock
  import opened Selection
  import opened Retention
  import opened Backups
  import opened BackupRuns

  /** The newest ten entries. */
  function NewestTen(log: seq<Entry>): seq<Entry> {
    if |log| > 10 then log[|log| - 10..] else log
  }

  /** The pass gets as far as its active backup, or as the due check. */
  predicate Proceeds(io: SchedulerIO) {
    io.parses && !io.suspended
  }

  /** The outcome of the active backup is recorded: it is no longer active, is in the log and at the end of the history,
      and is counted; the schedule's own times stay. */
  ghost predicate Records(w: World, after: World, name: BackupName, phase: Phase) {
    && after.stored.active == None
    && after.outcomes == w.outcomes + [Entry(name, phase)]
    && after.stored.history == NewestTen(w.stored.history + [Entry(name, phase)])
    && (phase == Completed ==>
          && after.stored.succeeded == w.stored.succeeded + 1 && after.stored.failed == w.stored.failed
          && after.stored.lastSuccessful == Some(name))
    && (phase == Failed ==>
          && after.stored.failed == w.stored.failed + 1 && after.stored.succeeded == w.stored.succeeded
          && after.stored.lastSuccessful == w.stored.lastSuccessful)
    && after.stored.total == w.stored.total && after.cleared == w.cleared
    && after.stored.lastSchedule == w.stored.lastSchedule && after.stored.nextSchedule == w.stored.nextSchedule
    && after.creations == w.creations && after.workers == w.workers && after.now == w.now && after.created == w.created
    && after.lost == w.lost
  }

  /** A pass over an active backup: a completed or failed one is recorded, a deleted one is cleared, a new or running
      one is waited for; a failed read or write changes nothing. */
  lemma ActiveExactly(schedule: Schedule, w: World, io: SchedulerIO, deleted: set<BackupName>, name: BackupName)
    requires Cleanup(schedule, w, io, deleted) && w.stored.active == Some(name)
    ensures var after := SchedulerPass(schedule, w, io, deleted);
            if !Proceeds(io) || !io.readable || !io.statusLands then after == w
            else if name !in w.backups then
              after == w.(stored := w.stored.(active := None), cleared := w.cleared + 1)
            else if w.backups[name].phase == New || w.backups[name].phase == Running then after == w
            else
              && Records(w, after, name, w.backups[name].phase)
              && after.backups == w.backups - deleted
              && (w.backups[name].phase == Failed ==> after.backups == w.backups)
  {
    assert w.backups - {} == w.backups;
  }

  // ----- The due check -----

  /** The instant of the latest recorded creation, or of the schedule's own. */
  function Since(w: World): int {
    match w.stored.lastSchedule
    case Some(t) => t
    case None => w.created
  }

  /** A fire has come since then. */
  ghost predicate Due(schedule: Schedule, w: World) {
    exists t :: Since(w) < t <= w.now && schedule.fires(t)
  }

  lemma DueIsNext(schedule: Schedule, w: World)
    requires schedule.Valid()
    ensures Due(schedule, w) <==> schedule.next(Since(w)) <= w.now
  {
    if schedule.next(Since(w)) <= w.now {
      assert schedule.fires(schedule.next(Since(w)));
    }
  }

  /** The pass has to create a backup. */
  ghost predicate MustCreate(schedule: Schedule, w: World, io: SchedulerIO) {
    && Proceeds(io) && w.stored.active == None && Due(schedule, w) && io.renders && io.creatable
    && BackupName(schedule.name, ToSecond(w.now)) !in w.backups
  }

  /** `t` is the first fire after `since`. */
  ghost predicate FirstFire(schedule: Schedule, since: int, t: int) {
    since < t && schedule.fires(t) && forall u :: since < u < t ==> !schedule.fires(u)
  }

  lemma NextIsFirstFire(schedule: Schedule, since: int)
    requires schedule.Valid()
    ensures FirstFire(schedule, since, schedule.next(since))
  {
  }

  /** A pass creates a backup exactly when a fire has come since the latest recorded creation, nothing is active, the
      name of the second is free and the calls succeed; then the new backup exists, waiting, under the schedule's label,
      and if the write lands it is the active one and counted. */
  lemma CreatesExactly(schedule: Schedule, w: World, io: SchedulerIO, deleted: set<BackupName>)
    requires schedule.Valid() && Cleanup(schedule, w, io, deleted)
    ensures var after, name := SchedulerPass(schedule, w, io, deleted), BackupName(schedule.name, ToSecond(w.now));
            if MustCreate(schedule, w, io) then
              && after.creations == w.creations + [w.now]
              && after.backups == w.backups[name := Backup(schedule.name, ToSecond(w.now), New)]
              && after.lost == (w.lost || !io.statusLands)
              && after.stored.active == (if io.statusLands then Some(name) else None)
              && after.stored.lastSchedule == (if io.statusLands then Some(ToSecond(w.now)) else w.stored.lastSchedule)
              && after.stored.total == w.stored.total + (if io.statusLands then 1 else 0)
              && after.outcomes == w.outcomes && after.stored.history == w.stored.history
            else
              after.creations == w.creations && forall n :: n in after.backups ==> n in w.backups
  {
    DueIsNext(schedule, w);
  }

  /** A pass without an active backup notes the first fire since the latest recorded creation, when that write lands. */
  lemma NotesNextFire(schedule: Schedule, w: World, io: SchedulerIO)
    requires schedule.Valid() && Proceeds(io) && w.stored.active == None && io.nextLands
    ensures var s := SchedulerPass(schedule, w, io, {}).stored;
            s.nextSchedule.Some? && FirstFire(schedule, Since(w), s.nextSchedule.value)
  {
    NextIsFirstFire(schedule, Since(w));
  }

  // ----- The schedule goes on -----

  /** From any state whose active backup is over or gone, a pass whose calls succeed frees the schedule, and the first
      due pass after it creates the next backup. */
  lemma ScheduleGoesOn(schedule: Schedule, w: World, io: SchedulerIO, deleted: set<BackupName>, to: int,
                       next: SchedulerIO)
    requires schedule.Valid() && Cleanup(schedule, w, io, deleted) && Proceeds(io) && io.readable && io.statusLands
    requires w.stored.active.Some?
    requires w.stored.active.value in w.backups ==>
               var phase := w.backups[w.stored.active.value].phase; phase == Completed || phase == Failed
    requires Proceeds(next) && next.renders && next.creatable && next.statusLands
    requires exists t :: Since(w) < t <= to && schedule.fires(t)
    requires BackupName(schedule.name, ToSecond(to)) !in w.backups
    ensures var freed := SchedulerPass(schedule, w, io, deleted).(now := to);
            var after := SchedulerPass(schedule, freed, next, {});
            && after.creations == w.creations + [to]
            && after.stored.active == Some(BackupName(schedule.name, ToSecond(to)))
            && after.stored.total == w.stored.total + 1
  {
    ActiveExactly(schedule, w, io, deleted, w.stored.active.value);
    var freed := SchedulerPass(schedule, w, io, deleted).(now := to);
    assert Since(freed) == Since(w) && Due(schedule, freed);
    CreatesExactly(schedule, freed, next, {});
  }

  /** Four steps of a worker whose calls succeed. */
  function WorkedOff(w: World, name: BackupName, work: WorkerIO): World {
    WorkerStep(WorkerStep(WorkerStep(WorkerStep(w, name, work), name, work), name, work), name, work)
  }

  /** A waiting backup that nobody works on is over after four steps whose calls succeed, with the outcome of its
      command. */
  lemma BackupGoesOn(w: World, name: BackupName, work: WorkerIO)
    requires name in w.backups && name !in w.workers && w.backups[name].phase == New
    requires work.found && work.secretOk && work.connects && work.writeOk && work.refetchOk
    ensures WorkedOff(w, name, work) ==
            w.(backups := w.backups[name := w.backups[name].(phase := if work.commandOk then Completed else Failed)])
  {
    var w1 := WorkerStep(w, name, work);
    var w2 := WorkerStep(w1, name, work);
    assert w2.workers == w.workers[name := Execute];
    var w3 := WorkerStep(w2, name, work);
    assert w3.workers - {name} == w.workers;
    assert WorkerStep(w3, name, work).workers == w.workers;
  }

  // ----- Retention in a pass -----

  /** After a pass that records a completed backup under a policy, and whose list and deletes succeed, at most
      `maxCount` completed backups of the schedule are left when that is positive, and none is older than `maxAge`. */
  lemma PassKeepsLimits(schedule: Schedule, w: World, io: SchedulerIO, deleted: set<BackupName>, name: BackupName)
    requires Cleanup(schedule, w, io, deleted) && Proceeds(io) && io.readable && io.statusLands && io.listable
    requires w.stored.active == Some(name) && name in w.backups && w.backups[name].phase == Completed
    requires io.policy.Some? && io.stuck == {}
    ensures var after, policy := SchedulerPass(schedule, w, io, deleted), io.policy.value;
            && (policy.maxCount.Some? && policy.maxCount.value > 0 ==>
                  |CompletedNames(schedule, after)| <= policy.maxCount.value)
            && (policy.maxAge.Parsed? ==> forall n :: n in CompletedNames(schedule, after) ==>
                  w.now - after.backups[n].created <= policy.maxAge.d)
  {
    CleanupKeepsNewest(schedule, w, io, deleted);
    var after := SchedulerPass(schedule, w, io, deleted);
    assert CompletedNames(schedule, after) == CompletedNames(schedule, w) - deleted;
  }

  lemma BehindInList(schedule: Schedule, w: World, order: seq<Item>, i: nat) returns (behind: set<BackupName>)
    requires SortedList(schedule, w.backups, order) && i < |order|
    ensures order[i].name in CompletedNames(schedule, w) && |behind| == |order| - i - 1
    ensures behind <= CompletedNames(schedule, w) - {order[i].name}
    ensures forall y :: y in behind ==> w.backups[order[i].name].created <= w.backups[y].created
  {
    ListedNames(schedule, w, order);
    behind := Members(Names(order[i + 1..]));
    NamesSize(order[i + 1..]);
    assert Names(order)[i] in Names(order);
    forall y | y in behind
      ensures y in CompletedNames(schedule, w) - {order[i].name}
      ensures w.backups[order[i].name].created <= w.backups[y].created
    {
      var j :| 0 <= j < |order| - i - 1 && Names(order[i + 1..])[j] == y;
      assert Names(order)[i + 1 + j] == y && order[i + 1 + j].name == y;
    }
  }

  /** A completed backup goes only when it is older than `maxAge`, or `maxCount` others of the schedule are not older.
      */
  lemma DeletedForCause(schedule: Schedule, w: World, io: SchedulerIO, deleted: set<BackupName>, x: BackupName)
    returns (newer: set<BackupName>)
    requires Cleanup(schedule, w, io, deleted) && x in deleted
    ensures x in CompletedNames(schedule, w) && io.policy.Some?
    ensures newer <= CompletedNames(schedule, w) - {x}
    ensures forall y :: y in newer ==> w.backups[x].created <= w.backups[y].created
    ensures var policy := io.policy.value;
            || (policy.maxAge.Parsed? && w.now - w.backups[x].created > policy.maxAge.d)
            || (policy.maxCount.Some? && policy.maxCount.value > 0 && |newer| >= policy.maxCount.value)
  {
    var policy := io.policy.value;
    var order: seq<Item> :| && SortedList(schedule, w.backups, order)
                            && deleted == Deleted(order[..Cut(policy, w.now, order)], io.stuck);
    ListedNames(schedule, w, order);
    var n := DeletedPrefix(order, Cut(policy, w.now, order), io.stuck);
    var i :| 0 <= i < n && Names(order[..n])[i] == x;
    assert order[i].name == x;
    CutMeans(policy, w.now, order, i);
    newer := BehindInList(schedule, w, order, i);
  }
}
