/** Scheduled backups as values: the status of one schedule, the backups of its namespace with the workers of the Backup
    controller, and one pass of either controller. */
module Backups {
  import opened Clock
  import opened Selection
  import opened Retention

  datatype Phase = New | Running | Completed | Failed {
    predicate Terminal() { Completed? || Failed? }
  }

  /** `owner` is the schedule the backup's label names, empty when there is none. */
  datatype Backup = Backup(owner: string, created: int, phase: Phase)

  /** Where the worker of one backup stands between its persisted steps. */
  datatype Stage = StoreRunning | Execute | StoreOutcome(outcome: Phase)

  datatype Entry = Entry(name: BackupName, phase: Phase)

  const MAX_HISTORY := 10

  datatype Status = Status(
    active: Option<BackupName>,
    lastSchedule: Option<int>,
    nextSchedule: Option<int>,
    lastSuccessful: Option<BackupName>,
    history: seq<Entry>,
    total: int,
    succeeded: int,
    failed: int)

  /** A schedule is known by its fires and by what the cron library answers. */
  datatype Schedule = Schedule(name: string, fires: int -> bool, next: int -> int) {

    /** Fires lie on whole minutes, and `next` is the least one strictly later. */
    ghost predicate Valid() {
      && (forall t :: fires(t) ==> t % MINUTE == 0)
      && (forall t :: t < next(t) && fires(next(t)))
      && (forall t, u :: t < u && fires(u) ==> next(t) <= u)
    }

    function NameAt(t: int): BackupName {
      BackupName(name, ToSecond(t))
    }
  }

  /** The stored objects, and the logs that the properties speak of: instants of created backups, entries of recorded
      outcomes, how many active backups were found deleted, and whether the status write after a creation was lost. */
  datatype World = World(
    now: int,
    created: int,
    stored: Status,
    backups: map<BackupName, Backup>,
    workers: map<BackupName, Stage>,
    creations: seq<int>,
    outcomes: seq<Entry>,
    cleared: nat,
    lost: bool)

  /** What one scheduler pass finds in the specification, and which of its calls succeed; deleting fails for `stuck`. */
  datatype SchedulerIO = SchedulerIO(
    parses: bool,
    suspended: bool,
    policy: Option<Policy>,
    readable: bool,
    nextLands: bool,
    renders: bool,
    creatable: bool,
    statusLands: bool,
    listable: bool,
    stuck: set<BackupName>)

  // ----- The scheduler -----

  /** The instant from which the next fire counts. */
  function Reference(w: World): int {
    if w.stored.lastSchedule.Some? then w.stored.lastSchedule.value else w.created
  }

  function LastEntries(log: seq<Entry>): seq<Entry> {
    if |log| > MAX_HISTORY then log[|log| - MAX_HISTORY..] else log
  }

  /** The status after the outcome of the active backup is recorded. */
  function Settled(s: Status, e: Entry): Status {
    var recorded := s.(active := None, history := LastEntries(s.history + [e]));
    if e.phase.Completed? then recorded.(lastSuccessful := Some(e.name), succeeded := s.succeeded + 1)
    else recorded.(failed := s.failed + 1)
  }

  function Noted(s: Status, due: int, lands: bool): Status {
    if s.nextSchedule != Some(due) && lands then s.(nextSchedule := Some(due)) else s
  }

  /** The branch without an active backup. */
  function DuePass(schedule: Schedule, w: World, io: SchedulerIO): World {
    var due := schedule.next(Reference(w));
    var noted := Noted(w.stored, due, io.nextLands);
    var name := schedule.NameAt(w.now);
    if w.now < due || !io.renders || !io.creatable || name in w.backups then w.(stored := noted)
    else
      w.(backups := w.backups[name := Backup(schedule.name, ToSecond(w.now), New)],
         creations := w.creations + [w.now],
         lost := w.lost || !io.statusLands,
         stored := if io.statusLands
                   then noted.(active := Some(name), lastSchedule := Some(ToSecond(w.now)), total := noted.total + 1)
                   else noted)
  }

  /** The branch with an active backup; `deleted` is what the cleanup removes. */
  function ActivePass(w: World, name: BackupName, io: SchedulerIO, deleted: set<BackupName>): World {
    if !io.readable then w
    else if name !in w.backups then
      if io.statusLands then w.(stored := w.stored.(active := None), cleared := w.cleared + 1) else w
    else if w.backups[name].phase.Terminal() && io.statusLands then
      var e := Entry(name, w.backups[name].phase);
      w.(stored := Settled(w.stored, e), outcomes := w.outcomes + [e], backups := w.backups - deleted)
    else w
  }

  /** One Reconcile of the ScheduledBackup object. */
  function SchedulerPass(schedule: Schedule, w: World, io: SchedulerIO, deleted: set<BackupName>): World {
    if !io.parses || io.suspended then w
    else if w.stored.active.Some? then ActivePass(w, w.stored.active.value, io, deleted)
    else DuePass(schedule, w, io)
  }

  // ----- The cleanup after a completed backup -----

  function CompletedItems(owner: string, backups: map<BackupName, Backup>, names: set<BackupName>): set<Item> {
    set n | n in names && n in backups && backups[n].owner == owner && backups[n].phase.Completed? ::
      Item(n, backups[n].created)
  }

  /** The pass records a completed backup and then cleans up under a policy. */
  predicate Cleans(w: World, io: SchedulerIO) {
    && io.parses && !io.suspended && w.stored.active.Some? && io.readable && w.stored.active.value in w.backups
    && w.backups[w.stored.active.value].phase.Completed? && io.statusLands && io.policy.Some? && io.listable
  }

  /** `order` is the list of completed backups as the sort leaves it. */
  ghost predicate SortedList(schedule: Schedule, backups: map<BackupName, Backup>, order: seq<Item>) {
    Sorted(order) && DistinctNames(order) && Members(order) == CompletedItems(schedule.name, backups, backups.Keys)
  }

  ghost predicate Cleanup(schedule: Schedule, w: World, io: SchedulerIO, deleted: set<BackupName>) {
    if Cleans(w, io) then
      exists order ::
        && SortedList(schedule, w.backups, order)
        && deleted == Deleted(order[..Cut(io.policy.value, w.now, order)], io.stuck)
    else deleted == {}
  }

  // ----- The Backup controller -----

  /** Outcomes of the calls between two persisted steps of one backup's reconcile. */
  datatype WorkerIO = WorkerIO(
    found: bool, secretOk: bool, connects: bool, writeOk: bool, refetchOk: bool, commandOk: bool)

  /** The next step of the worker of `name`: begin, store Running, run BACKUP, store the outcome. */
  function WorkerStep(w: World, name: BackupName, io: WorkerIO): World {
    var lands := io.writeOk && name in w.backups;
    if name !in w.workers then
      if name !in w.backups || !io.found || w.backups[name].phase.Terminal() then w
      else if !io.secretOk then w.(workers := w.workers[name := StoreOutcome(Failed)])
      else if !io.connects then w
      else w.(workers := w.workers[name := if w.backups[name].phase.Running? then Execute else StoreRunning])
    else
      match w.workers[name]
      case StoreRunning =>
        if !lands then w.(workers := w.workers - {name})
        else w.(backups := w.backups[name := w.backups[name].(phase := Running)],
                workers := if io.refetchOk then w.workers[name := Execute] else w.workers - {name})
      case Execute =>
        w.(workers := w.workers[name := StoreOutcome(if io.commandOk then Completed else Failed)])
      case StoreOutcome(outcome) =>
        w.(backups := if lands then w.backups[name := w.backups[name].(phase := outcome)] else w.backups,
           workers := w.workers - {name})
  }

  // ----- What the pieces mean -----

  lemma WholeMinute(t: int)
    requires t % MINUTE == 0
    ensures t % SECOND == 0
  {
    var q := t / MINUTE;
    assert t == q * 60 * SECOND;
  }

  /** Cutting an instant to the second does not change which fire comes next. */
  lemma NextOfStored(schedule: Schedule, t: int)
    requires schedule.Valid()
    ensures schedule.next(ToSecond(t)) == schedule.next(t)
  {
    var n := schedule.next(ToSecond(t));
    WholeMinute(n);
    var p, q := ToSecond(t) / SECOND, n / SECOND;
    assert ToSecond(t) == p * SECOND && n == q * SECOND;
    assert p < q;
    assert t < ToSecond(t) + SECOND <= n;
  }

  /** From one fire on, generated names are later ones. */
  lemma NameAfterFire(schedule: Schedule, t: int, u: int)
    requires schedule.Valid() && schedule.next(t) <= u
    ensures ToSecond(t) < ToSecond(u)
  {
    NextOfStored(schedule, t);
    var n := schedule.next(t);
    WholeMinute(n);
    ToSecondMonotone(n, u);
    assert ToSecond(n) == n;
  }

  lemma DeletedPrefix(order: seq<Item>, cut: nat, stuck: set<BackupName>) returns (n: nat)
    requires cut <= |order|
    ensures n <= cut && Deleted(order[..cut], stuck) == Members(Names(order[..n]))
    ensures (forall x :: x in order ==> x.name !in stuck) ==> n == cut
  {
    var names := Names(order[..cut]);
    n := FirstIn(names, stuck);
    assert names[..n] == Names(order[..n]);
    if n < cut {
      assert order[n] in order && names[n] == order[n].name;
    }
  }

  lemma {:induction false} NamesSize(items: seq<Item>)
    requires DistinctNames(items)
    ensures |Members(Names(items))| == |items|
  {
    if items == [] {
      assert Members(Names(items)) == {};
    } else {
      var front, last := items[..|items| - 1], items[|items| - 1];
      NamesSize(front);
      assert Names(items) == Names(front) + [last.name];
      assert Members(Names(items)) == Members(Names(front)) + {last.name};
      assert last.name !in Names(front);
    }
  }

  /** The completed backups of the schedule. */
  function CompletedNames(schedule: Schedule, w: World): set<BackupName> {
    set n | n in w.backups && w.backups[n].owner == schedule.name && w.backups[n].phase.Completed?
  }

  lemma ListedNames(schedule: Schedule, w: World, order: seq<Item>)
    requires SortedList(schedule, w.backups, order)
    ensures Members(Names(order)) == CompletedNames(schedule, w)
    ensures forall i :: 0 <= i < |order| ==>
              order[i].name in w.backups && w.backups[order[i].name].created == order[i].created
  {
    var items := CompletedItems(schedule.name, w.backups, w.backups.Keys);
    forall i | 0 <= i < |order|
      ensures order[i].name in CompletedNames(schedule, w) && w.backups[order[i].name].created == order[i].created
    {
      assert order[i] in Members(order);
    }
    forall n | n in CompletedNames(schedule, w)
      ensures n in Names(order)
    {
      var x := Item(n, w.backups[n].created);
      assert x in items && x in Members(order);
      var i :| 0 <= i < |order| && order[i] == x;
      assert Names(order)[i] == n;
    }
  }

  lemma ItemOf(schedule: Schedule, w: World, order: seq<Item>, part: seq<Item>, x: BackupName) returns (item: Item)
    requires SortedList(schedule, w.backups, order) && x in Names(part)
    requires forall i :: i in part ==> i in order
    ensures item in part && item.name == x && x in w.backups && w.backups[x].created == item.created
  {
    var i :| 0 <= i < |part| && Names(part)[i] == x;
    item := part[i];
    assert item in part;
    ListedNames(schedule, w, order);
    var k :| 0 <= k < |order| && order[k] == item;
  }

  /** Deleting the first `n` of the list keeps the newest. */
  lemma PrefixKeepsNewest(schedule: Schedule, w: World, policy: Policy, order: seq<Item>, n: nat)
    requires SortedList(schedule, w.backups, order) && n <= Cut(policy, w.now, order)
    ensures Members(Names(order[..n])) <= CompletedNames(schedule, w)
    ensures CompletedNames(schedule, w) - Members(Names(order[..n])) == Members(Names(order[n..]))
    ensures forall x, y :: x in Names(order[..n]) && y in Names(order[n..]) ==>
              x in w.backups && y in w.backups && w.backups[x].created <= w.backups[y].created
    ensures n == Cut(policy, w.now, order) && policy.maxAge.Parsed? ==>
              forall y :: y in Names(order[n..]) ==> y in w.backups && w.now - w.backups[y].created <= policy.maxAge.d
  {
    ListedNames(schedule, w, order);
    PrefixSplits(order, n);
    KeepsNewest(policy, w.now, order, n);
    forall y | y in Names(order[n..])
      ensures y in w.backups
      ensures n == Cut(policy, w.now, order) && policy.maxAge.Parsed? ==>
                w.now - w.backups[y].created <= policy.maxAge.d
      ensures forall x :: x in Names(order[..n]) ==> x in w.backups && w.backups[x].created <= w.backups[y].created
    {
      var late := ItemOf(schedule, w, order, order[n..], y);
      forall x | x in Names(order[..n])
        ensures x in w.backups && w.backups[x].created <= w.backups[y].created
      {
        var early := ItemOf(schedule, w, order, order[..n], x);
      }
    }
  }

  /** Whatever a cleanup deletes, even when it stops at a failed delete: only completed backups of the schedule go, none
      that is newer than a completed one that stays. When no delete fails, at most `maxCount` stay, if that is
      positive, and none that is too old. */
  lemma CleanupKeepsNewest(schedule: Schedule, w: World, io: SchedulerIO, deleted: set<BackupName>)
    requires Cleanup(schedule, w, io, deleted)
    ensures deleted <= CompletedNames(schedule, w)
    ensures forall x, y :: x in deleted && y in CompletedNames(schedule, w) - deleted ==>
              w.backups[x].created <= w.backups[y].created
    ensures Cleans(w, io) && io.stuck !! CompletedNames(schedule, w) ==>
              var policy, stay := io.policy.value, CompletedNames(schedule, w) - deleted;
              && (policy.maxCount.Some? && policy.maxCount.value > 0 ==> |stay| <= policy.maxCount.value)
              && (policy.maxAge.Parsed? ==> forall y :: y in stay ==> w.now - w.backups[y].created <= policy.maxAge.d)
  {
    if Cleans(w, io) {
      var policy := io.policy.value;
      var order: seq<Item> :| && SortedList(schedule, w.backups, order)
                              && deleted == Deleted(order[..Cut(policy, w.now, order)], io.stuck);
      ListedNames(schedule, w, order);
      var n := DeletedPrefix(order, Cut(policy, w.now, order), io.stuck);
      PrefixKeepsNewest(schedule, w, policy, order, n);
      NamesSize(order[n..]);
    }
  }

  lemma PrefixSplits(order: seq<Item>, n: nat)
    requires DistinctNames(order) && n <= |order|
    ensures Members(Names(order)) - Members(Names(order[..n])) == Members(Names(order[n..]))
    ensures Members(Names(order[..n])) <= Members(Names(order))
  {
    var names := Names(order);
    assert Names(order[..n]) == names[..n] && Names(order[n..]) == names[n..];
    assert names == names[..n] + names[n..];
  }
}
