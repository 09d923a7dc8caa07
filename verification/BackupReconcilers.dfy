/** The two controllers of scheduled backups, working on stored objects in place; each reconcile is the pass, or the run
    of worker steps, that the value model gives. */
module BackupReconcilers {
  import opened Clock
  import opened Selection
  import opened Retention
  import opened Backups

  class BackupStore {
    var now: int
    var created: int
    var status: Status
    var backups: map<BackupName, Backup>
    var workers: map<BackupName, Stage>
    ghost var creations: seq<int>
    ghost var outcomes: seq<Entry>
    ghost var cleared: nat
    ghost var lost: bool

    ghost function View(): World
      reads this
    {
      World(now, created, status, backups, workers, creations, outcomes, cleared, lost)
    }

    constructor (now: int, backups: map<BackupName, Backup>)
      ensures View() == World(now, ToSecond(now), Status(None, None, None, None, [], 0, 0, 0), backups, map[],
                              [], [], 0, false)
    {
      this.now, created := now, ToSecond(now);
      status := Status(None, None, None, None, [], 0, 0, 0);
      this.backups, workers := backups, map[];
      creations, outcomes, cleared, lost := [], [], 0, false;
    }
  }

  class ScheduledBackupReconciler {
    const store: BackupStore
    const schedule: Schedule

    constructor (store: BackupStore, schedule: Schedule)
      ensures this.store == store && this.schedule == schedule
    {
      this.store, this.schedule := store, schedule;
    }

    /** One Reconcile of the schedule; `deleted` are the backups its cleanup removed. */
    method Reconcile(io: SchedulerIO) returns (ghost deleted: set<BackupName>)
      modifies store
      ensures Cleanup(schedule, old(store.View()), io, deleted)
      ensures store.View() == SchedulerPass(schedule, old(store.View()), io, deleted)
    {
      deleted := {};
      if !io.parses || io.suspended {
        return;
      }
      if store.status.active.Some? {
        if !io.readable {
          return;
        }
        var name := store.status.active.value;
        if name !in store.backups {
          ClearActiveBackup(io);
          return;
        }
        match store.backups[name].phase {
          case Completed =>
            deleted := OnBackupCompleted(name, io);
          case Failed =>
            OnBackupFailed(name, io);
          case _ =>
        }
        return;
      }
      CreateWhenDue(io);
    }

    /** Note the next fire, and create a backup when it has come. The working copy keeps a note whose write failed, but
        a later write sends only what changed after it. */
    method CreateWhenDue(io: SchedulerIO)
      requires io.parses && !io.suspended && store.status.active.None?
      modifies store
      ensures store.View() == DuePass(schedule, old(store.View()), io)
    {
      var lastSchedule := if store.status.lastSchedule.Some? then store.status.lastSchedule.value else store.created;
      var nextTime := schedule.next(lastSchedule);
      if store.status.nextSchedule != Some(nextTime) && io.nextLands {
        store.status := store.status.(nextSchedule := Some(nextTime));
      }
      if store.now < nextTime || !io.renders {
        return;
      }
      var name := BackupName(schedule.name, ToSecond(store.now));
      if !io.creatable || name in store.backups {
        return;
      }
      store.backups := store.backups[name := Backup(schedule.name, ToSecond(store.now), New)];
      store.creations := store.creations + [store.now];
      if !io.statusLands {
        store.lost := true;
        return;
      }
      store.status := store.status.(
        active := Some(name),
        lastSchedule := Some(ToSecond(store.now)),
        total := store.status.total + 1);
    }

    method ClearActiveBackup(io: SchedulerIO)
      modifies store`status, store`cleared
      ensures store.status == if io.statusLands then old(store.status).(active := None) else old(store.status)
      ensures store.cleared == old(store.cleared) + if io.statusLands then 1 else 0
    {
      if io.statusLands {
        store.status := store.status.(active := None);
        store.cleared := store.cleared + 1;
      }
    }

    /** The working copy with one more entry, cut to the newest. */
    method WithEntry(s: Status, e: Entry) returns (r: Status)
      ensures r == s.(history := LastEntries(s.history + [e]))
    {
      r := s.(history := s.history + [e]);
      if |r.history| > MAX_HISTORY {
        r := r.(history := r.history[|r.history| - MAX_HISTORY..]);
      }
    }

    method OnBackupFailed(name: BackupName, io: SchedulerIO)
      requires name in store.backups && store.backups[name].phase.Failed?
      modifies store`status, store`outcomes
      ensures store.status == if io.statusLands then Settled(old(store.status), Entry(name, Failed))
                              else old(store.status)
      ensures store.outcomes == old(store.outcomes) + if io.statusLands then [Entry(name, Failed)] else []
    {
      var sb := store.status.(active := None, failed := store.status.failed + 1);
      sb := WithEntry(sb, Entry(name, store.backups[name].phase));
      if io.statusLands {
        store.status := sb;
        store.outcomes := store.outcomes + [Entry(name, Failed)];
      }
    }

    method OnBackupCompleted(name: BackupName, io: SchedulerIO) returns (ghost deleted: set<BackupName>)
      requires name in store.backups && store.backups[name].phase.Completed?
      requires io.parses && !io.suspended && io.readable && store.status.active == Some(name)
      modifies store
      ensures Cleanup(schedule, old(store.View()), io, deleted)
      ensures store.View() == ActivePass(old(store.View()), name, io, deleted)
    {
      var sb := store.status.(active := None, lastSuccessful := Some(name), succeeded := store.status.succeeded + 1);
      sb := WithEntry(sb, Entry(name, store.backups[name].phase));
      deleted := {};
      if io.statusLands {
        store.status := sb;
        store.outcomes := store.outcomes + [Entry(name, Completed)];
        deleted := CleanupRetention(io);
      }
    }

    /** List, filter, sort, select, delete until the first error. */
    method CleanupRetention(io: SchedulerIO) returns (ghost deleted: set<BackupName>)
      modifies store`backups
      ensures store.backups == old(store.backups) - deleted
      ensures if io.policy.Some? && io.listable then
                exists order ::
                  && SortedList(schedule, old(store.backups), order)
                  && deleted == Deleted(order[..Cut(io.policy.value, store.now, order)], io.stuck)
              else deleted == {}
    {
      deleted := {};
      if io.policy.None? || !io.listable {
        return;
      }
      var listed := ListCompleted();
      var completed := SortByCreation(listed);
      var toDelete := SelectForDeletion(completed, io.policy.value, store.now);
      deleted := DeleteAll(toDelete, io.stuck);
      assert SortedList(schedule, old(store.backups), completed);
    }

    /** The completed backups that carry the schedule's label, in any order. */
    method ListCompleted() returns (completed: seq<Item>)
      ensures DistinctNames(completed)
      ensures Members(completed) == CompletedItems(schedule.name, store.backups, store.backups.Keys)
    {
      completed := [];
      var waiting := store.backups.Keys;
      while waiting != {}
        invariant waiting <= store.backups.Keys
        invariant DistinctNames(completed)
        invariant Members(completed) == CompletedItems(schedule.name, store.backups, store.backups.Keys - waiting)
        decreases waiting
      {
        var n :| n in waiting;
        var b := store.backups[n];
        ghost var seen := store.backups.Keys - waiting;
        assert store.backups.Keys - (waiting - {n}) == seen + {n};
        NextCompleted(seen, n);
        assert forall x :: x in completed ==> x in Members(completed);
        if b.phase.Completed? && b.owner == schedule.name {
          completed := completed + [Item(n, b.created)];
        }
        waiting := waiting - {n};
      }
      assert store.backups.Keys - {} == store.backups.Keys;
    }

    lemma NextCompleted(seen: set<BackupName>, n: BackupName)
      requires n in store.backups && n !in seen
      ensures var b, items := store.backups[n], CompletedItems(schedule.name, store.backups, seen);
              && CompletedItems(schedule.name, store.backups, seen + {n}) ==
                 (if b.phase.Completed? && b.owner == schedule.name then items + {Item(n, b.created)} else items)
              && forall x :: x in items ==> x.name != n
    {
      var b, items := store.backups[n], CompletedItems(schedule.name, store.backups, seen);
      var more := CompletedItems(schedule.name, store.backups, seen + {n});
      forall x
        ensures x in more <==> x in items || (b.phase.Completed? && b.owner == schedule.name && x == Item(n, b.created))
      {
      }
    }

    method DeleteAll(toDelete: seq<Item>, stuck: set<BackupName>) returns (ghost deleted: set<BackupName>)
      modifies store`backups
      ensures deleted == Deleted(toDelete, stuck) && store.backups == old(store.backups) - deleted
    {
      ghost var names := Names(toDelete);
      deleted := {};
      for i := 0 to |toDelete|
        invariant deleted == Members(names[..i]) && store.backups == old(store.backups) - deleted
        invariant forall k :: 0 <= k < i ==> names[k] !in stuck
      {
        if toDelete[i].name in stuck {
          return;
        }
        assert names[..i + 1] == names[..i] + [names[i]];
        store.backups := store.backups - {toDelete[i].name};
        deleted := deleted + {toDelete[i].name};
      }
    }
  }

  // ----- The Backup controller -----

  /** The outcome of every call one reconcile of a Backup object makes. */
  datatype BackupCalls = BackupCalls(
    found: bool, secretOk: bool, connects: bool, runningOk: bool, refetchOk: bool, commandOk: bool, outcomeOk: bool)
  {
    function At(stage: Option<Stage>): WorkerIO {
      WorkerIO(found, secretOk, connects,
               if stage == Some(StoreRunning) then runningOk else outcomeOk,
               refetchOk, commandOk)
    }
  }

  function StageOf(w: World, name: BackupName): Option<Stage> {
    if name in w.workers then Some(w.workers[name]) else None
  }

  function StepsLeft(stage: Option<Stage>): nat {
    match stage
    case None => 0
    case Some(StoreOutcome(_)) => 1
    case Some(Execute) => 2
    case Some(StoreRunning) => 3
  }

  /** Let the worker of one backup take its steps, without interruption, until it is done. */
  function Finish(w: World, name: BackupName, calls: BackupCalls): (after: World)
    ensures name !in after.workers
    decreases StepsLeft(StageOf(w, name))
  {
    if name !in w.workers then w
    else Finish(WorkerStep(w, name, calls.At(StageOf(w, name))), name, calls)
  }

  class BackupReconciler {
    const store: BackupStore

    constructor (store: BackupStore)
      ensures this.store == store
    {
      this.store := store;
    }

    method SetBackupStatus(name: BackupName, phase: Phase, apiOk: bool) returns (ok: bool)
      modifies store`backups
      ensures ok == (apiOk && name in old(store.backups))
      ensures store.backups == if ok then old(store.backups)[name := old(store.backups)[name].(phase := phase)]
                               else old(store.backups)
    {
      ok := apiOk && name in store.backups;
      if ok {
        store.backups := store.backups[name := store.backups[name].(phase := phase)];
      }
    }

    /** One Reconcile of a Backup object is the run of its worker's steps. */
    method Reconcile(name: BackupName, calls: BackupCalls)
      requires name !in store.workers
      modifies store`backups
      ensures store.View() == Finish(WorkerStep(old(store.View()), name, calls.At(None)), name, calls)
    {
      ghost var w := store.View();
      if !calls.found || name !in store.backups {
        return;
      }
      if store.backups[name].phase.Completed? || store.backups[name].phase.Failed? {
        return;
      }
      if !calls.secretOk {
        FinishAfterOutcome(w, name, calls, Failed);
        var _ := SetBackupStatus(name, Failed, calls.outcomeOk);
        return;
      }
      if !calls.connects {
        return;
      }
      FinishAfterStart(w, name, calls);
      if !store.backups[name].phase.Running? {
        var ok := SetBackupStatus(name, Running, calls.runningOk);
        if !ok || !calls.refetchOk {
          return;
        }
      }
      var _ := SetBackupStatus(name, if calls.commandOk then Completed else Failed, calls.outcomeOk);
    }
  }

  lemma FinishAfterOutcome(w: World, name: BackupName, calls: BackupCalls, outcome: Phase)
    requires name !in w.workers && name in w.backups
    ensures Finish(w.(workers := w.workers[name := StoreOutcome(outcome)]), name, calls) ==
            w.(backups := if calls.outcomeOk then w.backups[name := w.backups[name].(phase := outcome)] else w.backups)
  {
    var s := w.(workers := w.workers[name := StoreOutcome(outcome)]);
    var next := WorkerStep(s, name, calls.At(StageOf(s, name)));
    assert next.workers == w.workers;
    assert Finish(s, name, calls) == Finish(next, name, calls) == next;
  }

  /** The reconciles that end before BACKUP, written out: nothing to do, credentials that cannot be read, no connection.
      */
  lemma FinishWithoutBackup(w: World, name: BackupName, calls: BackupCalls)
    requires name !in w.workers
    requires calls.found && name in w.backups && (w.backups[name].phase == New || w.backups[name].phase == Running) ==>
               !calls.secretOk || !calls.connects
    ensures Finish(WorkerStep(w, name, calls.At(None)), name, calls) ==
            if calls.found && name in w.backups && (w.backups[name].phase == New || w.backups[name].phase == Running)
               && !calls.secretOk && calls.outcomeOk
            then w.(backups := w.backups[name := w.backups[name].(phase := Failed)])
            else w
  {
    if name in w.backups && calls.found && !w.backups[name].phase.Terminal() && !calls.secretOk {
      FinishAfterOutcome(w, name, calls, Failed);
    }
  }

  lemma FinishAfterCommand(w: World, name: BackupName, calls: BackupCalls)
    requires name !in w.workers && name in w.backups && w.backups[name].phase.Running?
    ensures var outcome := if calls.commandOk then Completed else Failed;
            Finish(w.(workers := w.workers[name := Execute]), name, calls) ==
            w.(backups := w.backups[name := w.backups[name].(phase := if calls.outcomeOk then outcome else Running)])
  {
    var s := w.(workers := w.workers[name := Execute]);
    var outcome := if calls.commandOk then Completed else Failed;
    var next := w.(workers := w.workers[name := StoreOutcome(outcome)]);
    assert WorkerStep(s, name, calls.At(StageOf(s, name))) == next;
    FinishAfterOutcome(w, name, calls, outcome);
    assert w.backups == w.backups[name := w.backups[name].(phase := Running)];
  }

  lemma FinishAfterStoring(w: World, name: BackupName, calls: BackupCalls)
    requires name !in w.workers && name in w.backups
    ensures var running := w.(backups := w.backups[name := w.backups[name].(phase := Running)]);
            Finish(w.(workers := w.workers[name := StoreRunning]), name, calls) ==
            if !calls.runningOk then w
            else if !calls.refetchOk then running
            else Finish(running.(workers := running.workers[name := Execute]), name, calls)
  {
    var s := w.(workers := w.workers[name := StoreRunning]);
    var running := w.(backups := w.backups[name := w.backups[name].(phase := Running)]);
    var next := if !calls.runningOk then w
                else if !calls.refetchOk then running
                else running.(workers := running.workers[name := Execute]);
    assert s.workers - {name} == w.workers && s.workers[name := Execute] == w.workers[name := Execute];
    assert WorkerStep(s, name, calls.At(Some(StoreRunning))) == next;
  }

  /** The reconciles that come to store Running or run BACKUP, written out. */
  lemma FinishAfterStart(w: World, name: BackupName, calls: BackupCalls)
    requires name !in w.workers && name in w.backups && !w.backups[name].phase.Terminal()
    requires calls.found && calls.secretOk && calls.connects
    ensures var b, outcome := w.backups[name], if calls.commandOk then Completed else Failed;
            var after := Finish(WorkerStep(w, name, calls.At(None)), name, calls);
            if !b.phase.Running? && !calls.runningOk then after == w
            else if !b.phase.Running? && !calls.refetchOk then
              after == w.(backups := w.backups[name := b.(phase := Running)])
            else after == w.(backups := w.backups[name := b.(phase := if calls.outcomeOk then outcome else Running)])
  {
    if w.backups[name].phase.Running? {
      FinishAfterCommand(w, name, calls);
    } else {
      var running := w.(backups := w.backups[name := w.backups[name].(phase := Running)]);
      FinishAfterStoring(w, name, calls);
      FinishAfterCommand(running, name, calls);
    }
  }
}
