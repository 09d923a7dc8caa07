/** The availability-group protocol as values: what the operator sees, what it stores, and the effect of one pass of
    fencing, automatic failover and lease acquisition. The imperative passes in AgReconciler are proved against these
    functions; Convergence and AgRuns prove what the protocol promises about them. */
module AgModel {
  import opened Clock
  import opened Selection

  type Name = string
  type Id = nat

  // ----- SQL Server side -----

  /** `Gone` is a server on which the availability group has been dropped: asking for its role is an error. */
  datatype Role = Primary | Secondary | Resolving | Gone

  /** `readable` and `lsnReadable` say whether credentials, connection and query succeed for the role and the LSN. */
  datatype Replica = Replica(role: Role, lsn: int, readable: bool, lsnReadable: bool) {
    predicate Answers() { readable && !role.Gone? }
    predicate SeenPrimary() { readable && role.Primary? }

    /** A failed LSN query counts as 0. */
    function SeenLsn(): int { if lsnReadable then lsn else 0 }

    function Fence(hard: bool): Replica { this.(role := if hard then Gone else Secondary) }
    function Promote(): Replica { this.(role := Primary) }
  }

  // ----- Kubernetes side -----

  datatype Label = Unlabelled | PrimaryLabel | SecondaryLabel

  datatype Reason =
    | NoReason | Healthy | NotHealthy
    | FencingExecuted | HardFencingExecuted | FencingExhausted
    | AutoFailoverExecuted
    | SecretNotFound | InvalidCredentialsSecret

  datatype Status = Status(
    primary: Name,
    reason: Reason,
    lastFencingTime: Option<int>,
    fencingCount: nat,
    consecutive: nat,
    lastFenced: Name,
    lastAutoFailoverTime: Option<int>,
    autoFailoverCount: nat)

  datatype Spec = Spec(agName: string, order: seq<Name>, clusterType: Option<string>, failoverCooldown: Setting) {
    function Cooldown(): int {
      if failoverCooldown.Parsed? then failoverCooldown.d else 60 * SECOND
    }
    predicate Fenceable() { clusterType.None? || clusterType.value == "None" }

    /** What the validating webhook guarantees about the replica list. */
    predicate Valid() { |order| >= 2 && Distinct(order) && "" !in order }
  }

  datatype Lease = Lease(holder: Option<string>, durationSeconds: Option<int>, renewTime: Option<int>)

  datatype Phase = Pending | Running | Completed | Failed {
    predicate Terminal() { Completed? || Failed? }
  }

  /** Where the AGFailover controller is inside one reconcile of an object; every stage ends in a separate API write. */
  datatype Stage = Idle | StoreRunning | StoreStart | SendCommand | StoreTerminal(outcome: Phase)

  datatype Failover = Failover(agName: string, target: Name, phase: Phase, present: bool, stage: Stage)

  // ----- History, which no code reads -----

  datatype Event =
    | Fenced(replica: Name, hard: bool, at: int, recorded: nat, listed: bool)
    | ForcedFailover(replica: Name, ok: bool)
    | FailoverCommand(id: Id)
    | PhaseStored(id: Id, phase: Phase)
    | Removed(id: Id)

  /** One landed fencing status write: the replica it names and the stored time. */
  datatype Entry = Entry(replica: Name, time: int)

  /** A successful lease acquisition: the reading stored as RenewTime and the later one that checked the expiry. */
  datatype Acquisition = Acquisition(holder: string, renewed: int, checked: int)

  datatype World = World(
    now: int,
    replicas: map<Name, Replica>,
    pods: map<Name, Label>,
    stored: Status,
    lease: Option<Lease>,
    failovers: map<Id, Failover>,
    events: seq<Event>,
    fencings: seq<Entry>,
    autoFailovers: seq<int>,
    acquisitions: seq<Acquisition>)

  predicate Knows(spec: Spec, w: World) {
    forall n :: n in spec.order ==> n in w.replicas
  }

  // ----- Fencing -----

  /** The outcome of every call a fencing pass makes, and its three clock readings. */
  datatype FencingIO = FencingIO(
    listOk: bool,
    checkAt: int,
    fenceAt: int,
    recordAt: int,
    commandFails: set<Name>,
    podFails: set<Name>,
    statusLands: bool)

  predicate RunsHere(f: Failover, agName: string) {
    f.present && f.agName == agName && f.phase.Running?
  }

  predicate FailoverRunning(spec: Spec, failovers: map<Id, Failover>) {
    exists id :: id in failovers && RunsHere(failovers[id], spec.agName)
  }

  /** The three guards at the top of a pass. A failed List lets the pass go on. */
  predicate MayFence(spec: Spec, w: World, listOk: bool) {
    w.stored.primary != "" && spec.Fenceable() && !(listOk && FailoverRunning(spec, w.failovers))
  }

  function SeenPrimaries(spec: Spec, replicas: map<Name, Replica>): set<Name> {
    set n | n in spec.order && n in replicas && replicas[n].SeenPrimary()
  }

  /** The replicas that answer PRIMARY, in spec order. */
  function Primaries(spec: Spec, w: World): seq<Name> {
    Keep(spec.order, SeenPrimaries(spec, w.replicas))
  }

  /** The members of `among` that no other member beats on LSN. */
  function Best(replicas: map<Name, Replica>, among: set<Name>): (best: set<Name>)
    requires among <= replicas.Keys
  {
    set n | n in among && forall m :: m in among ==> replicas[m].SeenLsn() <= replicas[n].SeenLsn()
  }

  lemma {:induction false} BestExists(replicas: map<Name, Replica>, among: set<Name>)
    requires among <= replicas.Keys && among != {}
    ensures Best(replicas, among) != {}
    decreases |among|
  {
    var n :| n in among;
    var rest := among - {n};
    if rest == {} {
      assert among == {n};
      assert n in Best(replicas, among);
    } else {
      BestExists(replicas, rest);
      var m :| m in Best(replicas, rest);
      if replicas[m].SeenLsn() <= replicas[n].SeenLsn() {
        assert n in Best(replicas, among);
      } else {
        assert m in Best(replicas, among);
      }
    }
  }

  /** The primary that keeps its role: a highest LSN; the status primary when it has that LSN, else the first in spec
      order that has it. */
  function Winner(order: seq<Name>, replicas: map<Name, Replica>, among: set<Name>, statusPrimary: Name): (w: Name)
    requires among <= replicas.Keys && among != {}
    requires forall n :: n in among ==> n in order
    ensures w in Best(replicas, among)
  {
    BestExists(replicas, among);
    var best := Best(replicas, among);
    if statusPrimary in best then statusPrimary
    else
      var i := FirstIn(order, best);
      assert i < |order| by {
        var n :| n in best;
        var j :| 0 <= j < |order| && order[j] == n;
      }
      order[i]
  }

  function WinnerOf(spec: Spec, w: World): (n: Name)
    requires SeenPrimaries(spec, w.replicas) != {}
    ensures n in SeenPrimaries(spec, w.replicas)
  {
    Winner(spec.order, w.replicas, SeenPrimaries(spec, w.replicas), w.stored.primary)
  }

  /** The last fencing of this replica is less than one cooldown old. */
  predicate Recent(spec: Spec, s: Status, n: Name, at: int) {
    s.lastFenced == n && s.lastFencingTime.Some? && at - s.lastFencingTime.value < spec.Cooldown()
  }

  const MAX_FENCING_ATTEMPTS := 5

  /** The circuit breaker is open for this replica. */
  predicate Exhausted(spec: Spec, s: Status, n: Name, at: int) {
    Recent(spec, s, n, at) && s.consecutive >= MAX_FENCING_ATTEMPTS
  }

  function RogueSet(spec: Spec, w: World, at: int): set<Name>
    requires SeenPrimaries(spec, w.replicas) != {}
  {
    set n | n in SeenPrimaries(spec, w.replicas) && n != WinnerOf(spec, w) && !Exhausted(spec, w.stored, n, at)
  }

  function Rogues(spec: Spec, w: World, at: int): seq<Name>
    requires SeenPrimaries(spec, w.replicas) != {}
  {
    Keep(spec.order, RogueSet(spec, w, at))
  }

  function AfterFencing(spec: Spec, s: Status, replicas: map<Name, Replica>, done: set<Name>, io: FencingIO)
    : map<Name, Replica>
  {
    map n | n in replicas ::
      if n in done && n !in io.commandFails then replicas[n].Fence(Recent(spec, s, n, io.fenceAt)) else replicas[n]
  }

  function Demoted(pods: map<Name, Label>, done: set<Name>, podFails: set<Name>): map<Name, Label> {
    map n | n in pods :: if n in done && n !in podFails then SecondaryLabel else pods[n]
  }

  /** Both label writers: the label `primary` on the pod of that name, `secondary` on every other listed pod. */
  function Labelled(order: seq<Name>, pods: map<Name, Label>, primary: Name, podFails: set<Name>): map<Name, Label> {
    map n | n in pods ::
      if n in order && n !in podFails then if n == primary then PrimaryLabel else SecondaryLabel else pods[n]
  }

  function FencingEvents(spec: Spec, s: Status, recorded: nat, rogues: seq<Name>, io: FencingIO): (e: seq<Event>)
    ensures |e| == |rogues|
  {
    seq(|rogues|, i requires 0 <= i < |rogues| =>
      Fenced(rogues[i], Recent(spec, s, rogues[i], io.fenceAt), io.fenceAt, recorded, io.listOk))
  }

  function FencedStatus(s: Status, winner: Name, last: Name, at: int): Status {
    var streak := if s.lastFenced == last then s.consecutive + 1 else 1;
    s.(primary := winner,
       lastFencingTime := Some(ToSecond(at)),
       fencingCount := s.fencingCount + 1,
       consecutive := streak,
       lastFenced := last,
       reason := if streak > 1 then HardFencingExecuted else FencingExecuted)
  }

  datatype PassResult = PassResult(world: World, working: Status, fenced: bool)

  /** One pass of detectAndResolveSplitBrain. `working` is the pass's own copy of the status, which the caller drops. */
  function FencePass(spec: Spec, w: World, io: FencingIO): (r: PassResult)
    requires Knows(spec, w)
    ensures Knows(spec, r.world)
  {
    var primaries := Primaries(spec, w);
    if !MayFence(spec, w, io.listOk) || primaries == [] then
      PassResult(w, w.stored, false)
    else if |primaries| == 1 then
      if primaries[0] == w.stored.primary then PassResult(w, w.stored, false)
      else
        PassResult(w.(pods := Labelled(spec.order, w.pods, primaries[0], io.podFails)),
                   w.stored.(primary := primaries[0]), false)
    else
      assert primaries[0] in SeenPrimaries(spec, w.replicas);
      var rogues := Rogues(spec, w, io.checkAt);
      if rogues == [] then
        var working := w.stored.(reason := FencingExhausted);
        PassResult(w.(stored := if io.statusLands then working else w.stored), working, false)
      else
        PassResult(Fence(spec, w, io),
                   FencedStatus(w.stored, WinnerOf(spec, w), rogues[|rogues| - 1], io.recordAt), true)
  }

  /** The world after a pass that fences. */
  function Fence(spec: Spec, w: World, io: FencingIO): World
    requires SeenPrimaries(spec, w.replicas) != {}
    requires Rogues(spec, w, io.checkAt) != []
  {
    var rogues := Rogues(spec, w, io.checkAt);
    var done := RogueSet(spec, w, io.checkAt);
    var last := rogues[|rogues| - 1];
    var cut := w.(
      replicas := AfterFencing(spec, w.stored, w.replicas, done, io),
      pods := Demoted(w.pods, done, io.podFails),
      events := w.events + FencingEvents(spec, w.stored, |w.fencings|, rogues, io));
    if io.statusLands then
      cut.(stored := FencedStatus(w.stored, WinnerOf(spec, w), last, io.recordAt),
           fencings := w.fencings + [Entry(last, ToSecond(io.recordAt))])
    else cut
  }

  // ----- Lease -----

  const LEASE_SECONDS := 30

  datatype LeaseIO = LeaseIO(holder: string, readOk: bool, readAt: int, checkAt: int, writeLands: bool)

  datatype LeaseResult = LeaseResult(lease: Option<Lease>, ok: bool)

  predicate Expired(l: Lease, at: int) {
    l.renewTime.Some? && l.durationSeconds.Some? && at > l.renewTime.value + l.durationSeconds.value * SECOND
  }

  /** One call of tryAcquireLease: create, renew, take over, or refuse. */
  function TryAcquire(lease: Option<Lease>, io: LeaseIO): LeaseResult {
    var stamp := Some(ToMicrosecond(io.readAt));
    if !io.readOk then LeaseResult(lease, false)
    else if lease.None? then
      if io.writeLands then LeaseResult(Some(Lease(Some(io.holder), Some(LEASE_SECONDS), stamp)), true)
      else LeaseResult(lease, false)
    else if lease.value.holder == Some(io.holder) then
      if io.writeLands then LeaseResult(Some(lease.value.(renewTime := stamp)), true) else LeaseResult(lease, false)
    else if Expired(lease.value, io.checkAt) && io.writeLands then
      LeaseResult(Some(lease.value.(holder := Some(io.holder), renewTime := stamp)), true)
    else LeaseResult(lease, false)
  }

  // ----- Automatic failover -----

  /** `observed` is the primary that GetAGStatus reports on a replica found to be PRIMARY, or None when it fails. */
  datatype FailoverIO = FailoverIO(
    cooldownAt: int,
    lease: LeaseIO,
    recordAt: int,
    commandFails: set<Name>,
    podFails: set<Name>,
    statusLands: bool,
    observed: Option<Name>,
    healthy: bool)

  predicate CoolingDown(spec: Spec, s: Status, at: int) {
    s.lastAutoFailoverTime.Some? && at - s.lastAutoFailoverTime.value < spec.Cooldown()
  }

  function KnownPrimary(spec: Spec, s: Status): Name
    requires |spec.order| > 0
  {
    if s.primary == "" then spec.order[0] else s.primary
  }

  /** Replicas the loop can talk to. */
  function Candidates(spec: Spec, w: World): set<Name>
    requires |spec.order| > 0
  {
    set n | n in spec.order && n in w.replicas && n != KnownPrimary(spec, w.stored) && w.replicas[n].Answers()
  }

  /** Replicas at which the loop stops: already PRIMARY, or the command succeeds. */
  function Stops(spec: Spec, w: World, io: FailoverIO): set<Name>
    requires |spec.order| > 0
  {
    set n | n in Candidates(spec, w) && (w.replicas[n].role.Primary? || n !in io.commandFails)
  }

  function Attempts(spec: Spec, w: World): set<Name>
    requires |spec.order| > 0
  {
    set n | n in Candidates(spec, w) && !w.replicas[n].role.Primary?
  }

  function Commands(attempted: seq<Name>, commandFails: set<Name>): (e: seq<Event>)
    ensures |e| == |attempted|
  {
    seq(|attempted|, i requires 0 <= i < |attempted| => ForcedFailover(attempted[i], attempted[i] !in commandFails))
  }

  function ObservedStatus(s: Status, primary: Name, healthy: bool): Status {
    s.(primary := primary, reason := if healthy then Healthy else NotHealthy)
  }

  function PromotedStatus(s: Status, target: Name, at: int): Status {
    s.(primary := target,
       lastAutoFailoverTime := Some(ToSecond(at)),
       autoFailoverCount := s.autoFailoverCount + 1,
       reason := AutoFailoverExecuted)
  }

  /** The replica loop of handleAutoFailover. */
  function FailoverLoop(spec: Spec, w: World, io: FailoverIO): (r: PassResult)
    requires Knows(spec, w) && |spec.order| > 0
    ensures Knows(spec, r.world)
  {
    var i := FirstIn(spec.order, Stops(spec, w, io));
    if i == |spec.order| then
      PassResult(w.(events := w.events + Commands(Keep(spec.order, Attempts(spec, w)), io.commandFails)),
                 w.stored, false)
    else
      var target := spec.order[i];
      if w.replicas[target].role.Primary? then
        var tried := w.(events := w.events + Commands(Keep(spec.order[..i], Attempts(spec, w)), io.commandFails));
        if io.observed.None? then PassResult(tried, w.stored, false)
        else
          var working := ObservedStatus(w.stored, io.observed.value, io.healthy);
          PassResult(tried.(stored := if io.statusLands then working else w.stored), working, false)
      else
        var tried := w.(events := w.events + Commands(Keep(spec.order[..i + 1], Attempts(spec, w)), io.commandFails));
        var working := PromotedStatus(w.stored, target, io.recordAt);
        var moved := tried.(
          replicas := w.replicas[target := w.replicas[target].Promote()],
          pods := Labelled(spec.order, w.pods, target, io.podFails));
        PassResult(
          if io.statusLands
          then moved.(stored := working, autoFailovers := w.autoFailovers + [ToSecond(io.recordAt)])
          else moved,
          working, true)
  }

  /** The loop only adds commands to the history, and leaves what it does not manage alone. */
  lemma LoopAppends(spec: Spec, w: World, io: FailoverIO) returns (tried: seq<Name>)
    requires Knows(spec, w) && |spec.order| > 0
    ensures var after := FailoverLoop(spec, w, io).world;
            && after.events == w.events + Commands(tried, io.commandFails)
            && after.now == w.now && after.failovers == w.failovers && after.fencings == w.fencings
            && after.stored.fencingCount == w.stored.fencingCount && after.stored.consecutive == w.stored.consecutive
            && after.stored.lastFenced == w.stored.lastFenced
            && after.stored.lastFencingTime == w.stored.lastFencingTime
  {
    var i := FirstIn(spec.order, Stops(spec, w, io));
    tried := Keep(if i == |spec.order| then spec.order
                  else if w.replicas[spec.order[i]].role.Primary? then spec.order[..i] else spec.order[..i + 1],
                  Attempts(spec, w));
  }

  /** One call of handleAutoFailover. `fenced` in the result says that a forced failover succeeded. */
  function FailoverPass(spec: Spec, w: World, io: FailoverIO): (r: PassResult)
    requires Knows(spec, w) && |spec.order| > 0
    ensures Knows(spec, r.world)
  {
    if CoolingDown(spec, w.stored, io.cooldownAt) then PassResult(w, w.stored, false)
    else
      var l := TryAcquire(w.lease, io.lease);
      if !l.ok then PassResult(w.(lease := l.lease), w.stored, false)
      else
        FailoverLoop(spec,
                     w.(lease := l.lease,
                        acquisitions := w.acquisitions +
                          [Acquisition(io.lease.holder, io.lease.readAt, io.lease.checkAt)]),
                     io)
  }

  // ----- Manual failover -----

  /** What the AGFailover controller finds before it decides: credentials, connection, role of the target. */
  datatype Finding = BadSecret | NoConnection | NoRole | TargetPrimary | TargetSecondary | TargetOther

  datatype StageIO = StageIO(finding: Finding, apiOk: bool, commandOk: bool)

  /** The next stage of a reconcile of one AGFailover object. Deleting the object makes the API calls fail. */
  function NextStage(w: World, id: Id, io: StageIO): World
    requires id in w.failovers
  {
    var f := w.failovers[id];
    var writes := io.apiOk && f.present;
    match f.stage
    case Idle =>
      if !f.present || f.phase.Terminal() then w
      else w.(failovers := w.failovers[id := f.(stage := FirstStage(f.phase, io.finding))])
    case StoreRunning =>
      if writes then
        w.(failovers := w.failovers[id := f.(phase := Running, stage := StoreStart)],
           events := w.events + [PhaseStored(id, Running)])
      else w.(failovers := w.failovers[id := f.(stage := Idle)])
    case StoreStart =>
      w.(failovers := w.failovers[id := f.(stage := if writes then SendCommand else Idle)])
    case SendCommand =>
      w.(failovers := w.failovers[id := f.(stage := StoreTerminal(if io.commandOk then Completed else Failed))],
         replicas := if io.commandOk && f.target in w.replicas
                     then w.replicas[f.target := w.replicas[f.target].Promote()] else w.replicas,
         events := w.events + [FailoverCommand(id)])
    case StoreTerminal(outcome) =>
      if writes then
        w.(failovers := w.failovers[id := f.(phase := outcome, stage := Idle)],
           events := w.events + [PhaseStored(id, outcome)])
      else w.(failovers := w.failovers[id := f.(stage := Idle)])
  }

  function FirstStage(phase: Phase, finding: Finding): Stage {
    match finding
    case BadSecret => StoreTerminal(Failed)
    case NoConnection => Idle
    case NoRole => Idle
    case TargetPrimary => StoreTerminal(Completed)
    case TargetOther => StoreTerminal(Failed)
    case TargetSecondary => if phase.Running? then SendCommand else StoreRunning
  }

  // ----- The order of one Reconcile -----

  /** The end of a Reconcile: `statusOk` says that every call up to GetAGStatus succeeds; the rest is what it reports
      and which later calls fail. */
  datatype ObserveIO = ObserveIO(
    statusOk: bool,
    observed: Name,
    healthy: bool,
    statusLands: bool,
    connected: set<Name>,
    joinFails: set<Name>,
    podFails: set<Name>)

  /** A listed replica that is not the observed primary and not connected is joined again; joining helps only where the
      group has been dropped. */
  function Rejoined(order: seq<Name>, replicas: map<Name, Replica>, io: ObserveIO): map<Name, Replica> {
    map n | n in replicas ::
      if n in order && n != io.observed && n !in io.connected && n !in io.joinFails && replicas[n].role.Gone?
      then replicas[n].(role := Secondary)
      else replicas[n]
  }

  function ObservePass(spec: Spec, w: World, io: ObserveIO): (after: World)
    ensures Knows(spec, w) ==> Knows(spec, after)
  {
    if io.statusOk && io.statusLands then
      w.(stored := ObservedStatus(w.stored, io.observed, io.healthy),
         replicas := Rejoined(spec.order, w.replicas, io),
         pods := if io.observed != "" then Labelled(spec.order, w.pods, io.observed, io.podFails) else w.pods)
    else w
  }

  /** What a Reconcile meets at the known primary: a connection that also answers a ping when automatic failover is on,
      none, or a credentials secret that is missing or cannot be used. */
  datatype Contact = Reached | Unreached | SecretMissing | SecretUnusable

  datatype ReconcileIO = ReconcileIO(
    contact: Contact,
    conditionLands: bool,
    failover: FailoverIO,
    fencing: FencingIO,
    observe: ObserveIO)

  datatype Outcome = NoCredentials | FailoverRan | Unreachable | FencingRan | PrimaryMoved | Observed

  datatype ReconcileResult = ReconcileResult(world: World, outcome: Outcome)

  function SecretReason(contact: Contact): Reason {
    if contact.SecretMissing? then SecretNotFound else InvalidCredentialsSecret
  }

  /** One Reconcile: a condition when the primary's credentials cannot be read, failover when it is unreachable, else
      fencing, else observation. A pass that fences or that finds another single primary returns before the observation.
      */
  function ReconcilePass(spec: Spec, autoFailover: bool, w: World, io: ReconcileIO): (r: ReconcileResult)
    requires Knows(spec, w) && |spec.order| > 0
    ensures Knows(spec, r.world)
  {
    match io.contact
    case Unreached =>
      if autoFailover then ReconcileResult(FailoverPass(spec, w, io.failover).world, FailoverRan)
      else ReconcileResult(w, Unreachable)
    case Reached =>
      if w.stored.primary == "" then ReconcileResult(ObservePass(spec, w, io.observe), Observed)
      else
        var r := FencePass(spec, w, io.fencing);
        if r.fenced then ReconcileResult(r.world, FencingRan)
        else if r.working.primary != w.stored.primary then ReconcileResult(r.world, PrimaryMoved)
        else ReconcileResult(ObservePass(spec, r.world, io.observe), Observed)
    case _ =>
      ReconcileResult(
        if io.conditionLands then w.(stored := w.stored.(reason := SecretReason(io.contact))) else w,
        NoCredentials)
  }
}
