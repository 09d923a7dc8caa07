/** The availability-group controller in the form of its source: loops over the replica list that change servers, pods,
    the stored status and the pass's own copy step by step. Each method is proved equal to its value-level pass. */
module AgReconciler {
  import opened Clock
  import opened Selection
  import opened AgModel

  /** Everything outside the controller: SQL servers, pods and API objects, and the history of what was sent. */
  class Cluster {
    var replicas: map<Name, Replica>
    var pods: map<Name, Label>
    var stored: Status
    var lease: Option<Lease>
    var failovers: map<Id, Failover>
    ghost var now: int
    ghost var events: seq<Event>
    ghost var fencings: seq<Entry>
    ghost var autoFailovers: seq<int>
    ghost var acquisitions: seq<Acquisition>

    ghost function View(): World
      reads this
    {
      World(now, replicas, pods, stored, lease, failovers, events, fencings, autoFailovers, acquisitions)
    }
  }

  /** The object a reconcile works on: its specification, and the status it read and changes before any write. */
  class AvailabilityGroup {
    const spec: Spec
    var status: Status

    constructor (spec: Spec, status: Status)
      ensures this.spec == spec && this.status == status
    {
      this.spec := spec;
      this.status := status;
    }
  }

  lemma KeepNext(order: seq<Name>, i: nat, keep: set<Name>)
    requires i < |order|
    ensures Keep(order[..i + 1], keep) == Keep(order[..i], keep) + if order[i] in keep then [order[i]] else []
  {
    assert order[..i + 1] == order[..i] + [order[i]];
    KeepAppend(order[..i], order[i], keep);
  }

  lemma NextInLoop(names: seq<Name>, i: nat, done: set<Name>)
    requires Distinct(names) && i < |names| && done == Members(names[..i])
    ensures names[i] in names && names[i] !in done && Members(names[..i + 1]) == done + {names[i]}
  {
    assert names[..i + 1] == names[..i] + [names[i]];
  }

  /** One more fenced replica: its pod, its role, its event. */
  lemma NextDemoted(pods: map<Name, Label>, done: set<Name>, n: Name, podFails: set<Name>)
    ensures Demoted(pods, done + {n}, podFails) ==
            var d := Demoted(pods, done, podFails);
            if n in d && n !in podFails then d[n := SecondaryLabel] else d
  {
  }

  lemma NextFenced(spec: Spec, s: Status, replicas: map<Name, Replica>, done: set<Name>, n: Name, io: FencingIO)
    requires n in replicas && n !in done
    ensures AfterFencing(spec, s, replicas, done + {n}, io) ==
            var a := AfterFencing(spec, s, replicas, done, io);
            if n in io.commandFails then a else a[n := a[n].Fence(Recent(spec, s, n, io.fenceAt))]
  {
  }

  lemma NextEvent(spec: Spec, s: Status, recorded: nat, rogues: seq<Name>, i: nat, io: FencingIO)
    requires i < |rogues|
    ensures FencingEvents(spec, s, recorded, rogues[..i + 1], io) ==
            FencingEvents(spec, s, recorded, rogues[..i], io) +
            [Fenced(rogues[i], Recent(spec, s, rogues[i], io.fenceAt), io.fenceAt, recorded, io.listOk)]
  {
  }

  lemma NextCommand(attempted: seq<Name>, n: Name, fails: set<Name>)
    ensures Commands(attempted + [n], fails) == Commands(attempted, fails) + [ForcedFailover(n, n !in fails)]
  {
  }

  /** The world after the replica loop has passed the first `i` replicas without stopping. */
  function Tried(spec: Spec, w: World, io: FailoverIO, i: nat): World
    requires i <= |spec.order| && |spec.order| > 0
  {
    w.(events := w.events + Commands(Keep(spec.order[..i], Attempts(spec, w)), io.commandFails))
  }

  /** A replica the loop passes: skipped, or a command that failed. */
  lemma LoopGoesOn(spec: Spec, w: World, io: FailoverIO, i: nat)
    requires spec.Valid() && Knows(spec, w)
    requires i <= FirstIn(spec.order, Stops(spec, w, io)) && i < |spec.order| && spec.order[i] !in Stops(spec, w, io)
    ensures i + 1 <= FirstIn(spec.order, Stops(spec, w, io))
    ensures Tried(spec, w, io, i + 1) ==
            if spec.order[i] in Attempts(spec, w)
            then w.(events := Tried(spec, w, io, i).events + [ForcedFailover(spec.order[i], false)])
            else Tried(spec, w, io, i)
  {
    KeepNext(spec.order, i, Attempts(spec, w));
    NextCommand(Keep(spec.order[..i], Attempts(spec, w)), spec.order[i], io.commandFails);
  }

  /** The replica at which the loop stops, and with what result. */
  lemma LoopStops(spec: Spec, w: World, io: FailoverIO, i: nat)
    requires spec.Valid() && Knows(spec, w)
    requires i <= FirstIn(spec.order, Stops(spec, w, io)) && i < |spec.order| && spec.order[i] in Stops(spec, w, io)
    ensures var n, tried := spec.order[i], Tried(spec, w, io, i);
            FailoverLoop(spec, w, io) ==
            if w.replicas[n].role.Primary? then Adopted(tried, io) else Moved(spec, tried, n, io)
  {
    assert i == FirstIn(spec.order, Stops(spec, w, io));
    if !w.replicas[spec.order[i]].role.Primary? {
      LastCommand(spec, w, io, i);
    }
  }

  lemma LastCommand(spec: Spec, w: World, io: FailoverIO, i: nat)
    requires spec.Valid() && Knows(spec, w)
    requires i < |spec.order| && spec.order[i] in Stops(spec, w, io) && !w.replicas[spec.order[i]].role.Primary?
    ensures w.events + Commands(Keep(spec.order[..i + 1], Attempts(spec, w)), io.commandFails) ==
            Tried(spec, w, io, i).events + [ForcedFailover(spec.order[i], true)]
  {
    assert spec.order[i] in Attempts(spec, w);
    KeepNext(spec.order, i, Attempts(spec, w));
    NextCommand(Keep(spec.order[..i], Attempts(spec, w)), spec.order[i], io.commandFails);
  }

  function Adopted(w: World, io: FailoverIO): PassResult {
    var working := if io.observed.Some? then ObservedStatus(w.stored, io.observed.value, io.healthy) else w.stored;
    PassResult(w.(stored := if io.statusLands then working else w.stored), working, false)
  }

  function Moved(spec: Spec, w: World, n: Name, io: FailoverIO): PassResult
    requires n in w.replicas
  {
    var working := PromotedStatus(w.stored, n, io.recordAt);
    PassResult(
      w.(replicas := w.replicas[n := w.replicas[n].Promote()],
         pods := Labelled(spec.order, w.pods, n, io.podFails),
         events := w.events + [ForcedFailover(n, true)],
         stored := if io.statusLands then working else w.stored,
         autoFailovers := w.autoFailovers + if io.statusLands then [ToSecond(io.recordAt)] else []),
      working, true)
  }

  lemma LoopEnds(spec: Spec, w: World, io: FailoverIO)
    requires spec.Valid() && Knows(spec, w) && FirstIn(spec.order, Stops(spec, w, io)) == |spec.order|
    ensures FailoverLoop(spec, w, io) == PassResult(Tried(spec, w, io, |spec.order|), w.stored, false)
  {
    assert spec.order[..|spec.order|] == spec.order;
  }

  /** One round, in terms of the replica at hand. */
  lemma Round(spec: Spec, w: World, io: FailoverIO, i: nat)
    requires spec.Valid() && Knows(spec, w)
    requires i <= FirstIn(spec.order, Stops(spec, w, io)) && i < |spec.order|
    ensures var n, here := spec.order[i], Tried(spec, w, io, i);
            if n == KnownPrimary(spec, w.stored) || !w.replicas[n].Answers() then
              i + 1 <= FirstIn(spec.order, Stops(spec, w, io)) && Tried(spec, w, io, i + 1) == here
            else if w.replicas[n].role.Primary? then FailoverLoop(spec, w, io) == Adopted(here, io)
            else if n in io.commandFails then
              && i + 1 <= FirstIn(spec.order, Stops(spec, w, io))
              && Tried(spec, w, io, i + 1) == here.(events := here.events + [ForcedFailover(n, false)])
            else FailoverLoop(spec, w, io) == Moved(spec, here, n, io)
  {
    WhoStops(spec, w, io, spec.order[i]);
    if spec.order[i] in Stops(spec, w, io) {
      LoopStops(spec, w, io, i);
    } else {
      LoopGoesOn(spec, w, io, i);
    }
  }

  lemma WhoStops(spec: Spec, w: World, io: FailoverIO, n: Name)
    requires spec.Valid() && Knows(spec, w) && n in spec.order
    ensures n in Stops(spec, w, io) <==>
            && n != KnownPrimary(spec, w.stored) && w.replicas[n].Answers()
            && (w.replicas[n].role.Primary? || n !in io.commandFails)
    ensures n in Attempts(spec, w) <==>
            n != KnownPrimary(spec, w.stored) && w.replicas[n].Answers() && !w.replicas[n].role.Primary?
  {
  }

  /** The two outcomes of a pass over a split brain. */
  lemma PassOverSplit(spec: Spec, w: World, io: FencingIO)
    requires Knows(spec, w) && MayFence(spec, w, io.listOk) && |Primaries(spec, w)| >= 2
    ensures SeenPrimaries(spec, w.replicas) != {}
    ensures Rogues(spec, w, io.checkAt) == [] ==>
              var working := w.stored.(reason := FencingExhausted);
              FencePass(spec, w, io) ==
              PassResult(w.(stored := if io.statusLands then working else w.stored), working, false)
    ensures Rogues(spec, w, io.checkAt) != [] ==>
              var rogues := Rogues(spec, w, io.checkAt);
              FencePass(spec, w, io) ==
              PassResult(Fence(spec, w, io),
                         FencedStatus(w.stored, WinnerOf(spec, w), rogues[|rogues| - 1], io.recordAt), true)
  {
    assert Primaries(spec, w)[0] in SeenPrimaries(spec, w.replicas);
  }

  /** What the ranking loop finds is the winner. */
  lemma RankIsWinner(spec: Spec, w: World, lsns: map<Name, int>, k: nat)
    requires Knows(spec, w) && SeenPrimaries(spec, w.replicas) != {}
    requires k < |Primaries(spec, w)|
    requires forall n :: n in Primaries(spec, w) ==> n in lsns && lsns[n] == w.replicas[n].SeenLsn()
    requires var p := Primaries(spec, w);
             && (forall j :: 0 <= j < |p| ==> lsns[p[j]] <= lsns[p[k]])
             && ((exists j :: 0 <= j < |p| && p[j] == w.stored.primary && lsns[p[j]] == lsns[p[k]])
                 ==> p[k] == w.stored.primary)
             && (p[k] != w.stored.primary ==> forall j :: 0 <= j < k ==> lsns[p[j]] < lsns[p[k]])
    ensures Primaries(spec, w)[k] == WinnerOf(spec, w)
  {
    var p, seen := Primaries(spec, w), SeenPrimaries(spec, w.replicas);
    var best := Best(w.replicas, seen);
    assert p[k] in p && p[k] in seen;
    forall n | n in seen
      ensures w.replicas[n].SeenLsn() <= w.replicas[p[k]].SeenLsn()
    {
      assert n in p;
      var j :| 0 <= j < |p| && p[j] == n;
    }
    assert p[k] in best;
    assert forall n :: n in best ==> w.replicas[n].SeenLsn() == w.replicas[p[k]].SeenLsn();
    if w.stored.primary in best {
      assert w.stored.primary in p;
      var j :| 0 <= j < |p| && p[j] == w.stored.primary;
    } else {
      FirstOfKeep(spec.order, seen, best);
      var f := FirstIn(p, best);
      assert forall j :: 0 <= j < k ==> p[j] !in best;
      assert f == k;
    }
  }

  class AvailabilityGroupReconciler {
    const cluster: Cluster

    constructor (cluster: Cluster)
      ensures this.cluster == cluster
    {
      this.cluster := cluster;
    }

    /** The role each listed replica reports; None for one that cannot be asked. */
    method CollectReplicaRoles(spec: Spec) returns (roles: map<Name, Option<Role>>)
      requires Knows(spec, cluster.View())
      ensures forall n :: n in spec.order ==> n in roles
      ensures forall n :: n in spec.order ==>
                (roles[n] == Some(Primary) <==> n in SeenPrimaries(spec, cluster.replicas))
    {
      roles := map[];
      for i := 0 to |spec.order|
        invariant forall n :: n in spec.order[..i] ==>
                    n in roles && (roles[n] == Some(Primary) <==> cluster.replicas[n].SeenPrimary())
      {
        var n := spec.order[i];
        var r := cluster.replicas[n];
        roles := roles[n := if r.Answers() then Some(r.role) else None];
      }
    }

    /** The LSN each candidate reports; 0 for one that cannot be asked. */
    method CollectReplicaLSNs(candidates: seq<Name>) returns (lsns: map<Name, int>)
      requires forall n :: n in candidates ==> n in cluster.replicas
      ensures forall n :: n in candidates ==> n in lsns && lsns[n] == cluster.replicas[n].SeenLsn()
    {
      lsns := map[];
      for i := 0 to |candidates|
        invariant forall n :: n in candidates[..i] ==> n in lsns && lsns[n] == cluster.replicas[n].SeenLsn()
      {
        var n := candidates[i];
        lsns := lsns[n := if cluster.replicas[n].lsnReadable then cluster.replicas[n].lsn else 0];
      }
    }

    /** The ranking loop: the index it keeps is a highest LSN, the status primary's if that has it, else the first. */
    method Rank(primaries: seq<Name>, lsns: map<Name, int>, statusPrimary: Name) returns (legitimate: nat)
      requires |primaries| > 0 && forall n :: n in primaries ==> n in lsns
      ensures legitimate < |primaries|
      ensures forall j :: 0 <= j < |primaries| ==> lsns[primaries[j]] <= lsns[primaries[legitimate]]
      ensures (exists j :: 0 <= j < |primaries| && primaries[j] == statusPrimary
                           && lsns[primaries[j]] == lsns[primaries[legitimate]])
              ==> primaries[legitimate] == statusPrimary
      ensures primaries[legitimate] != statusPrimary
              ==> forall j :: 0 <= j < legitimate ==> lsns[primaries[j]] < lsns[primaries[legitimate]]
    {
      legitimate := 0;
      var highest := lsns[primaries[0]];
      for i := 1 to |primaries|
        invariant legitimate < i && highest == lsns[primaries[legitimate]]
        invariant forall j :: 0 <= j < i ==> lsns[primaries[j]] <= highest
        invariant (exists j :: 0 <= j < i && primaries[j] == statusPrimary && lsns[primaries[j]] == highest)
                  ==> primaries[legitimate] == statusPrimary
        invariant primaries[legitimate] != statusPrimary ==>
                    forall j :: 0 <= j < legitimate ==> lsns[primaries[j]] < highest
      {
        var lsn := lsns[primaries[i]];
        if lsn > highest {
          legitimate := i;
          highest := lsn;
        } else if lsn == highest && primaries[i] == statusPrimary {
          legitimate := i;
        }
      }
    }

    method SetPodRoleLabel(pod: Name, role: Label, podFails: set<Name>)
      modifies cluster`pods
      ensures cluster.pods == if pod in old(cluster.pods) && pod !in podFails then old(cluster.pods)[pod := role]
                              else old(cluster.pods)
    {
      if pod in cluster.pods && pod !in podFails && cluster.pods[pod] != role {
        cluster.pods := cluster.pods[pod := role];
      }
    }

    /** Label every listed pod: `primary` on the named one, `secondary` on the others. */
    method UpdateReplicaRoleLabels(spec: Spec, primary: Name, podFails: set<Name>)
      modifies cluster`pods
      ensures cluster.pods == Labelled(spec.order, old(cluster.pods), primary, podFails)
    {
      for i := 0 to |spec.order|
        invariant cluster.pods == Labelled(spec.order[..i], old(cluster.pods), primary, podFails)
      {
        var n := spec.order[i];
        assert spec.order[..i + 1] == spec.order[..i] + [n];
        SetPodRoleLabel(n, if n == primary then PrimaryLabel else SecondaryLabel, podFails);
      }
      assert spec.order[..|spec.order|] == spec.order;
    }

    /** One fencing command: DROP when hard, SET (ROLE = SECONDARY) otherwise. */
    method FenceReplica(n: Name, hard: bool, io: FencingIO)
      requires n in cluster.replicas
      modifies cluster`replicas, cluster`events
      ensures cluster.replicas == if n in io.commandFails then old(cluster.replicas)
                                  else old(cluster.replicas)[n := old(cluster.replicas)[n].Fence(hard)]
      ensures cluster.events == old(cluster.events) + [Fenced(n, hard, io.fenceAt, |cluster.fencings|, io.listOk)]
    {
      if n !in io.commandFails {
        cluster.replicas := cluster.replicas[n := cluster.replicas[n].Fence(hard)];
      }
      cluster.events := cluster.events + [Fenced(n, hard, io.fenceAt, |cluster.fencings|, io.listOk)];
    }

    /** Fencing one rogue: cut the traffic, then send the command. */
    method FenceRogue(ag: AvailabilityGroup, n: Name, io: FencingIO)
      requires n in cluster.replicas
      modifies cluster`pods, cluster`replicas, cluster`events
      ensures cluster.pods == if n in old(cluster.pods) && n !in io.podFails then old(cluster.pods)[n := SecondaryLabel]
                              else old(cluster.pods)
      ensures cluster.replicas ==
              if n in io.commandFails then old(cluster.replicas)
              else old(cluster.replicas)[n := old(cluster.replicas)[n].Fence(Recent(ag.spec, ag.status, n, io.fenceAt))]
      ensures cluster.events == old(cluster.events) +
              [Fenced(n, Recent(ag.spec, ag.status, n, io.fenceAt), io.fenceAt, |cluster.fencings|, io.listOk)]
    {
      SetPodRoleLabel(n, SecondaryLabel, io.podFails);
      var hard := Recent(ag.spec, ag.status, n, io.fenceAt);
      FenceReplica(n, hard, io);
    }

    /** The loop over the rogues. */
    method FenceRogues(ag: AvailabilityGroup, rogues: seq<Name>, io: FencingIO)
      requires Distinct(rogues) && forall n :: n in rogues ==> n in cluster.replicas
      modifies cluster`pods, cluster`replicas, cluster`events
      ensures cluster.pods == Demoted(old(cluster.pods), Members(rogues), io.podFails)
      ensures cluster.replicas == AfterFencing(ag.spec, ag.status, old(cluster.replicas), Members(rogues), io)
      ensures cluster.events == old(cluster.events) + FencingEvents(ag.spec, ag.status, |cluster.fencings|, rogues, io)
    {
      ghost var spec, s, recorded := ag.spec, ag.status, |cluster.fencings|;
      ghost var pods, replicas, events := cluster.pods, cluster.replicas, cluster.events;
      ghost var done: set<Name> := {};
      for i := 0 to |rogues|
        invariant done == Members(rogues[..i])
        invariant cluster.pods == Demoted(pods, done, io.podFails)
        invariant cluster.replicas == AfterFencing(spec, s, replicas, done, io)
        invariant cluster.events == events + FencingEvents(spec, s, recorded, rogues[..i], io)
      {
        var n := rogues[i];
        NextInLoop(rogues, i, done);
        NextDemoted(pods, done, n, io.podFails);
        NextFenced(spec, s, replicas, done, n, io);
        NextEvent(spec, s, recorded, rogues, i, io);
        FenceRogue(ag, n, io);
        done := done + {n};
      }
      assert rogues[..|rogues|] == rogues;
    }

    /** The List call and the loop over its items. */
    method FailoverListed(ag: AvailabilityGroup, listOk: bool) returns (running: bool)
      ensures running <==> listOk && FailoverRunning(ag.spec, cluster.failovers)
    {
      running := false;
      if listOk {
        var left := cluster.failovers.Keys;
        while left != {} && !running
          invariant left <= cluster.failovers.Keys
          invariant running ==> FailoverRunning(ag.spec, cluster.failovers)
          invariant !running ==> forall id :: id in cluster.failovers && id !in left ==>
                                   !RunsHere(cluster.failovers[id], ag.spec.agName)
          decreases |left|
        {
          var id :| id in left;
          left := left - {id};
          running := RunsHere(cluster.failovers[id], ag.spec.agName);
        }
      }
    }

    /** The losers for which the breaker is closed, in the order of the primaries. */
    method RogueList(ag: AvailabilityGroup, primaries: seq<Name>, legitimate: Name, at: int, ghost w: World)
      returns (rogues: seq<Name>)
      requires w == cluster.View() && ag.status == w.stored && Knows(ag.spec, w)
      requires primaries == Primaries(ag.spec, w) && SeenPrimaries(ag.spec, w.replicas) != {}
      requires legitimate == WinnerOf(ag.spec, w)
      ensures rogues == Rogues(ag.spec, w, at)
    {
      ghost var keep := RogueSet(ag.spec, w, at);
      rogues := [];
      for i := 0 to |primaries|
        invariant rogues == Keep(primaries[..i], keep)
      {
        KeepNext(primaries, i, keep);
        assert primaries[i] in primaries;
        if primaries[i] != legitimate {
          var exhausted := Exhausted(ag.spec, ag.status, primaries[i], at);
          if !exhausted {
            rogues := rogues + [primaries[i]];
          }
        }
      }
      assert primaries[..|primaries|] == primaries;
      KeepKeep(ag.spec.order, SeenPrimaries(ag.spec, w.replicas), keep);
    }

    /** The replicas that report PRIMARY, in spec order. */
    method FindPrimaries(ag: AvailabilityGroup, roles: map<Name, Option<Role>>) returns (primaries: seq<Name>)
      requires Knows(ag.spec, cluster.View())
      requires forall n :: n in ag.spec.order ==>
                 n in roles && (roles[n] == Some(Primary) <==> n in SeenPrimaries(ag.spec, cluster.replicas))
      ensures primaries == Primaries(ag.spec, cluster.View())
    {
      primaries := [];
      ghost var seen := SeenPrimaries(ag.spec, cluster.replicas);
      for i := 0 to |ag.spec.order|
        invariant primaries == Keep(ag.spec.order[..i], seen)
      {
        KeepNext(ag.spec.order, i, seen);
        if roles[ag.spec.order[i]] == Some(Primary) {
          primaries := primaries + [ag.spec.order[i]];
        }
      }
      assert ag.spec.order[..|ag.spec.order|] == ag.spec.order;
    }

    /** A Status().Patch call: the API server takes the working status over when the write lands. */
    method PatchStatus(ag: AvailabilityGroup, lands: bool)
      modifies cluster`stored
      ensures cluster.stored == if lands then ag.status else old(cluster.stored)
    {
      if lands {
        cluster.stored := ag.status;
      }
    }

    /** One pass of split-brain detection and fencing, on a freshly read object. */
    method DetectAndResolveSplitBrain(ag: AvailabilityGroup, io: FencingIO) returns (fenced: bool)
      requires ag.spec.Valid() && Knows(ag.spec, cluster.View()) && ag.status == cluster.stored
      modifies cluster, ag
      ensures var r := FencePass(ag.spec, old(cluster.View()), io);
              cluster.View() == r.world && ag.status == r.working && fenced == r.fenced
    {
      ghost var w := cluster.View();
      if ag.status.primary == "" {
        return false;
      }
      if !ag.spec.Fenceable() {
        return false;
      }
      var running := FailoverListed(ag, io.listOk);
      if running {
        return false;
      }
      var roles := CollectReplicaRoles(ag.spec);
      var primaries := FindPrimaries(ag, roles);
      if |primaries| == 0 {
        return false;
      }
      assert primaries[0] in SeenPrimaries(ag.spec, w.replicas);
      if |primaries| == 1 {
        if primaries[0] != ag.status.primary {
          ag.status := ag.status.(primary := primaries[0]);
          UpdateReplicaRoleLabels(ag.spec, primaries[0], io.podFails);
        }
        return false;
      }
      fenced := ResolveSplitBrain(ag, primaries, io);
    }

    /** The ranking and the rogue list of a pass. */
    method Judge(ag: AvailabilityGroup, primaries: seq<Name>, io: FencingIO)
      returns (legitimate: Name, rogues: seq<Name>)
      requires Knows(ag.spec, cluster.View()) && ag.status == cluster.stored
      requires primaries == Primaries(ag.spec, cluster.View()) && |primaries| >= 2
      ensures SeenPrimaries(ag.spec, cluster.replicas) != {}
      ensures legitimate == WinnerOf(ag.spec, cluster.View())
      ensures rogues == Rogues(ag.spec, cluster.View(), io.checkAt)
    {
      ghost var w := cluster.View();
      assert primaries[0] in SeenPrimaries(ag.spec, w.replicas);
      var lsns := CollectReplicaLSNs(primaries);
      var best := Rank(primaries, lsns, ag.status.primary);
      RankIsWinner(ag.spec, w, lsns, best);
      legitimate := primaries[best];
      rogues := RogueList(ag, primaries, legitimate, io.checkAt, w);
    }

    /** The second half of a pass: two or more primaries. */
    method ResolveSplitBrain(ag: AvailabilityGroup, primaries: seq<Name>, io: FencingIO) returns (fenced: bool)
      requires ag.spec.Valid() && Knows(ag.spec, cluster.View()) && ag.status == cluster.stored
      requires MayFence(ag.spec, cluster.View(), io.listOk)
      requires primaries == Primaries(ag.spec, cluster.View()) && |primaries| >= 2
      modifies cluster, ag
      ensures var r := FencePass(ag.spec, old(cluster.View()), io);
              cluster.View() == r.world && ag.status == r.working && fenced == r.fenced
    {
      ghost var w := cluster.View();
      PassOverSplit(ag.spec, w, io);
      var legitimate, rogues := Judge(ag, primaries, io);
      if |rogues| == 0 {
        ag.status := ag.status.(reason := FencingExhausted);
        PatchStatus(ag, io.statusLands);
        return false;
      }
      assert Members(rogues) == RogueSet(ag.spec, w, io.checkAt);
      FenceRogues(ag, rogues, io);
      RecordFencing(ag, legitimate, rogues[|rogues| - 1], io);
      return true;
    }

    /** The single status write of a pass that fenced. */
    method RecordFencing(ag: AvailabilityGroup, legitimate: Name, lastRogue: Name, io: FencingIO)
      modifies cluster`stored, cluster`fencings, ag
      ensures ag.status == FencedStatus(old(ag.status), legitimate, lastRogue, io.recordAt)
      ensures cluster.stored == if io.statusLands then ag.status else old(cluster.stored)
      ensures cluster.fencings == old(cluster.fencings) +
              if io.statusLands then [Entry(lastRogue, ToSecond(io.recordAt))] else []
    {
      var streak := if ag.status.lastFenced == lastRogue then ag.status.consecutive + 1 else 1;
      ag.status := ag.status.(
        primary := legitimate,
        lastFencingTime := Some(ToSecond(io.recordAt)),
        fencingCount := ag.status.fencingCount + 1,
        consecutive := streak,
        lastFenced := lastRogue,
        reason := if streak > 1 then HardFencingExecuted else FencingExecuted);
      PatchStatus(ag, io.statusLands);
      if io.statusLands {
        cluster.fencings := cluster.fencings + [Entry(lastRogue, ToSecond(io.recordAt))];
      }
    }

    /** Read the lease, then create it, renew it, take it over when it has run out, or give up. */
    method TryAcquireLease(io: LeaseIO) returns (ok: bool)
      modifies cluster`lease, cluster`acquisitions
      ensures cluster.lease == TryAcquire(old(cluster.lease), io).lease && ok == TryAcquire(old(cluster.lease), io).ok
      ensures cluster.acquisitions ==
              old(cluster.acquisitions) + if ok then [Acquisition(io.holder, io.readAt, io.checkAt)] else []
    {
      ok := false;
      if io.readOk {
        var stamp := Some(ToMicrosecond(io.readAt));
        if cluster.lease.None? {
          if io.writeLands {
            cluster.lease := Some(Lease(Some(io.holder), Some(LEASE_SECONDS), stamp));
            ok := true;
          }
        } else if cluster.lease.value.holder == Some(io.holder) {
          if io.writeLands {
            cluster.lease := Some(cluster.lease.value.(renewTime := stamp));
            ok := true;
          }
        } else if Expired(cluster.lease.value, io.checkAt) {
          if io.writeLands {
            cluster.lease := Some(cluster.lease.value.(holder := Some(io.holder), renewTime := stamp));
            ok := true;
          }
        }
      }
      if ok {
        cluster.acquisitions := cluster.acquisitions + [Acquisition(io.holder, io.readAt, io.checkAt)];
      }
    }

    /** One forced failover command to a replica. */
    method ForceFailover(n: Name, io: FailoverIO) returns (ok: bool)
      requires n in cluster.replicas
      modifies cluster`replicas, cluster`events
      ensures ok == (n !in io.commandFails)
      ensures cluster.replicas == if ok then old(cluster.replicas)[n := old(cluster.replicas)[n].Promote()]
                                  else old(cluster.replicas)
      ensures cluster.events == old(cluster.events) + [ForcedFailover(n, ok)]
    {
      ok := n !in io.commandFails;
      if ok {
        cluster.replicas := cluster.replicas[n := cluster.replicas[n].Promote()];
      }
      cluster.events := cluster.events + [ForcedFailover(n, ok)];
    }

    /** The status write and the labels after a successful forced failover. */
    method RecordFailover(ag: AvailabilityGroup, target: Name, io: FailoverIO)
      modifies cluster`stored, cluster`pods, cluster`autoFailovers, ag
      ensures ag.status == PromotedStatus(old(ag.status), target, io.recordAt)
      ensures cluster.stored == if io.statusLands then ag.status else old(cluster.stored)
      ensures cluster.autoFailovers ==
              old(cluster.autoFailovers) + if io.statusLands then [ToSecond(io.recordAt)] else []
      ensures cluster.pods == Labelled(ag.spec.order, old(cluster.pods), target, io.podFails)
    {
      ag.status := ag.status.(
        primary := target,
        lastAutoFailoverTime := Some(ToSecond(io.recordAt)),
        autoFailoverCount := ag.status.autoFailoverCount + 1,
        reason := AutoFailoverExecuted);
      PatchStatus(ag, io.statusLands);
      if io.statusLands {
        cluster.autoFailovers := cluster.autoFailovers + [ToSecond(io.recordAt)];
      }
      UpdateReplicaRoleLabels(ag.spec, target, io.podFails);
    }

    /** One round of the replica loop; None means that the loop goes on. */
    method TryReplica(ag: AvailabilityGroup, n: Name, knownPrimary: Name, io: FailoverIO) returns (stop: Option<bool>)
      requires n in cluster.replicas && ag.status == cluster.stored
      modifies cluster, ag
      ensures var w, r := old(cluster.View()), old(cluster.replicas)[n];
              if n == knownPrimary || !r.Answers() then
                stop.None? && cluster.View() == w && ag.status == old(ag.status)
              else if r.role.Primary? then
                stop == Some(false) && PassResult(cluster.View(), ag.status, false) == Adopted(w, io)
              else if n in io.commandFails then
                stop.None? && cluster.View() == w.(events := w.events + [ForcedFailover(n, false)])
                && ag.status == old(ag.status)
              else
                stop == Some(true) && PassResult(cluster.View(), ag.status, true) == Moved(ag.spec, w, n, io)
    {
      if n == knownPrimary || !cluster.replicas[n].Answers() {
        return None;
      }
      if cluster.replicas[n].role.Primary? {
        AdoptObserved(ag, io);
        return Some(false);
      }
      var ok := ForceFailover(n, io);
      if !ok {
        return None;
      }
      RecordFailover(ag, n, io);
      return Some(true);
    }

    /** Round `i` of the loop, on the state that the rounds before it have left of `w`. */
    method TryNext(ag: AvailabilityGroup, i: nat, knownPrimary: Name, io: FailoverIO, ghost w: World)
      returns (stop: Option<bool>)
      requires ag.spec.Valid() && Knows(ag.spec, w) && ag.status == w.stored
      requires knownPrimary == KnownPrimary(ag.spec, w.stored)
      requires i < |ag.spec.order| && i <= FirstIn(ag.spec.order, Stops(ag.spec, w, io))
      requires cluster.View() == Tried(ag.spec, w, io, i)
      modifies cluster, ag
      ensures stop.None? ==>
                && i + 1 <= FirstIn(ag.spec.order, Stops(ag.spec, w, io))
                && cluster.View() == Tried(ag.spec, w, io, i + 1) && ag.status == w.stored
      ensures stop.Some? ==> PassResult(cluster.View(), ag.status, stop.value) == FailoverLoop(ag.spec, w, io)
    {
      Round(ag.spec, w, io, i);
      stop := TryReplica(ag, ag.spec.order[i], knownPrimary, io);
    }

    /** The replica loop: skip the known primary and what cannot be asked, stop at a PRIMARY or at the first success. */
    method TryReplicas(ag: AvailabilityGroup, io: FailoverIO) returns (promoted: bool)
      requires ag.spec.Valid() && Knows(ag.spec, cluster.View()) && ag.status == cluster.stored
      modifies cluster, ag
      ensures var r := FailoverLoop(ag.spec, old(cluster.View()), io);
              cluster.View() == r.world && ag.status == r.working && promoted == r.fenced
    {
      ghost var w := cluster.View();
      var knownPrimary := if ag.status.primary == "" then ag.spec.order[0] else ag.status.primary;
      for i := 0 to |ag.spec.order|
        invariant i <= FirstIn(ag.spec.order, Stops(ag.spec, w, io))
        invariant ag.status == w.stored
        invariant cluster.View() == Tried(ag.spec, w, io, i)
      {
        var stop := TryNext(ag, i, knownPrimary, io, w);
        if stop.Some? {
          return stop.value;
        }
      }
      LoopEnds(ag.spec, w, io);
      return false;
    }

    /** A replica is PRIMARY already: take over the status it reports. */
    method AdoptObserved(ag: AvailabilityGroup, io: FailoverIO)
      modifies cluster`stored, ag
      requires ag.status == cluster.stored
      ensures ag.status == if io.observed.Some? then ObservedStatus(old(ag.status), io.observed.value, io.healthy)
                           else old(ag.status)
      ensures cluster.stored == if io.statusLands then ag.status else old(cluster.stored)
    {
      if io.observed.Some? {
        ag.status := ag.status.(primary := io.observed.value, reason := if io.healthy then Healthy else NotHealthy);
        PatchStatus(ag, io.statusLands);
      }
    }

    /** One call of automatic failover, on a freshly read object. */
    method HandleAutoFailover(ag: AvailabilityGroup, io: FailoverIO) returns (promoted: bool)
      requires ag.spec.Valid() && Knows(ag.spec, cluster.View()) && ag.status == cluster.stored
      modifies cluster, ag
      ensures var r := FailoverPass(ag.spec, old(cluster.View()), io);
              cluster.View() == r.world && ag.status == r.working && promoted == r.fenced
    {
      var last := ag.status.lastAutoFailoverTime;
      if last.Some? && io.cooldownAt - last.value < ag.spec.Cooldown() {
        return false;
      }
      var ok := TryAcquireLease(io.lease);
      if !ok {
        return false;
      }
      promoted := TryReplicas(ag, io);
    }

    /** Join again every listed replica that is neither the observed primary nor connected. */
    method RejoinReplicas(spec: Spec, io: ObserveIO)
      requires Knows(spec, cluster.View())
      modifies cluster`replicas
      ensures cluster.replicas == Rejoined(spec.order, old(cluster.replicas), io)
    {
      ghost var before := cluster.replicas;
      for i := 0 to |spec.order|
        invariant cluster.replicas == Rejoined(spec.order[..i], before, io)
      {
        var n := spec.order[i];
        assert spec.order[..i + 1] == spec.order[..i] + [n];
        assert n in before;
        if n != io.observed && n !in io.connected {
          if n !in io.joinFails && cluster.replicas[n].role.Gone? {
            cluster.replicas := cluster.replicas[n := cluster.replicas[n].(role := Secondary)];
          }
        }
      }
      assert spec.order[..|spec.order|] == spec.order;
    }

    /** The end of a reconcile: write the observed status, rejoin, label. */
    method ObserveGroup(ag: AvailabilityGroup, io: ObserveIO)
      requires Knows(ag.spec, cluster.View())
      requires ag.status.(reason := cluster.stored.reason) == cluster.stored
      modifies cluster, ag
      ensures cluster.View() == ObservePass(ag.spec, old(cluster.View()), io)
    {
      if !io.statusOk {
        return;
      }
      ag.status := ag.status.(primary := io.observed, reason := if io.healthy then Healthy else NotHealthy);
      PatchStatus(ag, io.statusLands);
      if !io.statusLands {
        return;
      }
      RejoinReplicas(ag.spec, io);
      if io.observed != "" {
        UpdateReplicaRoleLabels(ag.spec, io.observed, io.podFails);
      }
    }

    /** One Reconcile of the object: failover when the known primary is unreachable, else fencing, else observation. */
    method Reconcile(spec: Spec, autoFailover: bool, io: ReconcileIO) returns (outcome: Outcome)
      requires spec.Valid() && Knows(spec, cluster.View())
      modifies cluster
      ensures var r := ReconcilePass(spec, autoFailover, old(cluster.View()), io);
              cluster.View() == r.world && outcome == r.outcome
    {
      var ag := new AvailabilityGroup(spec, cluster.stored);
      if io.contact.SecretMissing? || io.contact.SecretUnusable? {
        ag.status := ag.status.(reason := SecretReason(io.contact));
        PatchStatus(ag, io.conditionLands);
        return NoCredentials;
      }
      if io.contact.Unreached? {
        if autoFailover {
          var _ := HandleAutoFailover(ag, io.failover);
          return FailoverRan;
        }
        return Unreachable;
      }
      if ag.status.primary != "" {
        var previousPrimary := ag.status.primary;
        var fenced := DetectAndResolveSplitBrain(ag, io.fencing);
        if fenced {
          return FencingRan;
        }
        if ag.status.primary != previousPrimary {
          return PrimaryMoved;
        }
      }
      ObserveGroup(ag, io.observe);
      return Observed;
    }
  }

  // ----- Manual failover -----

  /** The outcome of every call one reconcile of an AGFailover object makes. */
  datatype FailoverCalls = FailoverCalls(
    finding: Finding, runningOk: bool, startOk: bool, commandOk: bool, terminalOk: bool)
  {
    function At(stage: Stage): StageIO {
      StageIO(finding,
              match stage
              case Idle => true
              case StoreRunning => runningOk
              case StoreStart => startOk
              case SendCommand => true
              case StoreTerminal(_) => terminalOk,
              commandOk)
    }
  }

  function StagesLeft(stage: Stage): nat {
    match stage
    case Idle => 0
    case StoreTerminal(_) => 1
    case SendCommand => 2
    case StoreStart => 3
    case StoreRunning => 4
  }

  /** Take the stages of one object, without interruption, until the reconcile is over. */
  function Finish(w: World, id: Id, calls: FailoverCalls): (after: World)
    requires id in w.failovers
    ensures id in after.failovers && after.failovers[id].stage.Idle?
    decreases StagesLeft(w.failovers[id].stage)
  {
    var stage := w.failovers[id].stage;
    if stage.Idle? then w else Finish(NextStage(w, id, calls.At(stage)), id, calls)
  }

  /** Once Running is stored: the command, then its outcome. */
  lemma FinishFromCommand(w: World, id: Id, calls: FailoverCalls)
    requires id in w.failovers && w.failovers[id].stage.SendCommand? && w.failovers[id].present
    ensures var f, outcome := w.failovers[id].(stage := Idle), if calls.commandOk then Completed else Failed;
            Finish(w, id, calls) ==
            w.(failovers := w.failovers[id := if calls.terminalOk then f.(phase := outcome) else f],
               replicas := if calls.commandOk && f.target in w.replicas
                           then w.replicas[f.target := w.replicas[f.target].Promote()] else w.replicas,
               events := w.events + [FailoverCommand(id)] +
                         if calls.terminalOk then [PhaseStored(id, outcome)] else [])
  {
    var s1 := NextStage(w, id, calls.At(SendCommand));
    var s2 := NextStage(s1, id, calls.At(s1.failovers[id].stage));
    assert Finish(w, id, calls) == Finish(s1, id, calls) == Finish(s2, id, calls) == s2;
    assert s2.failovers == w.failovers[id := s2.failovers[id]];
  }

  /** The stages of a reconcile whose target is a SECONDARY, written out. */
  lemma FinishFromSecondary(w: World, id: Id, calls: FailoverCalls)
    requires id in w.failovers && w.failovers[id].stage.Idle? && w.failovers[id].present
    requires !w.failovers[id].phase.Terminal() && calls.finding.TargetSecondary?
    ensures var f, outcome := w.failovers[id], if calls.commandOk then Completed else Failed;
            var starts := f.phase.Running? || calls.runningOk;
            var after := Finish(NextStage(w, id, calls.At(Idle)), id, calls);
            var stored := if f.phase.Running? then [] else [PhaseStored(id, Running)];
            if !starts then after == w
            else if !f.phase.Running? && !calls.startOk then
              after == w.(failovers := w.failovers[id := f.(phase := Running)], events := w.events + stored)
            else
              after == w.(
                failovers := w.failovers[id := f.(phase := if calls.terminalOk then outcome else Running)],
                replicas := if calls.commandOk && f.target in w.replicas
                            then w.replicas[f.target := w.replicas[f.target].Promote()] else w.replicas,
                events := w.events + stored + [FailoverCommand(id)] +
                          if calls.terminalOk then [PhaseStored(id, outcome)] else [])
  {
    var s1 := NextStage(w, id, calls.At(Idle));
    assert s1.failovers[id].stage == if w.failovers[id].phase.Running? then SendCommand else StoreRunning;
    var s2 := if s1.failovers[id].stage.StoreRunning? then NextStage(s1, id, calls.At(StoreRunning)) else s1;
    assert Finish(s1, id, calls) == Finish(s2, id, calls);
    var s3 := if s2.failovers[id].stage.StoreStart? then NextStage(s2, id, calls.At(StoreStart)) else s2;
    assert Finish(s2, id, calls) == Finish(s3, id, calls);
    assert s3.failovers == w.failovers[id := s3.failovers[id]];
    if s3.failovers[id].stage.SendCommand? {
      FinishFromCommand(s3, id, calls);
    }
  }

  /** The reconciles that end without a command, written out. */
  lemma FinishWithoutCommand(w: World, id: Id, calls: FailoverCalls)
    requires id in w.failovers && w.failovers[id].stage.Idle?
    requires w.failovers[id].present && !w.failovers[id].phase.Terminal() ==> !calls.finding.TargetSecondary?
    ensures var f := w.failovers[id];
            var after := Finish(NextStage(w, id, calls.At(Idle)), id, calls);
            var outcome := if calls.finding.TargetPrimary? then Completed else Failed;
            if !f.present || f.phase.Terminal() || calls.finding.NoConnection? || calls.finding.NoRole?
               || !calls.terminalOk
            then after == w
            else
              after == w.(failovers := w.failovers[id := f.(phase := outcome)],
                          events := w.events + [PhaseStored(id, outcome)])
  {
    var s1 := NextStage(w, id, calls.At(Idle));
    if s1.failovers[id].stage.StoreTerminal? {
      var s2 := NextStage(s1, id, calls.At(s1.failovers[id].stage));
      assert Finish(s1, id, calls) == Finish(s2, id, calls) == s2;
      assert s2.failovers == w.failovers[id := s2.failovers[id]];
    } else {
      assert s1.failovers == w.failovers;
    }
  }

  class AgFailoverReconciler {
    const cluster: Cluster

    constructor (cluster: Cluster)
      ensures this.cluster == cluster
    {
      this.cluster := cluster;
    }

    /** A status write of one object; it fails when the API call fails or the object is gone. */
    method StorePhase(id: Id, phase: Phase, apiOk: bool) returns (ok: bool)
      requires id in cluster.failovers
      modifies cluster`failovers, cluster`events
      ensures ok == (apiOk && old(cluster.failovers)[id].present)
      ensures cluster.failovers == if ok then old(cluster.failovers)[id := old(cluster.failovers)[id].(phase := phase)]
                                   else old(cluster.failovers)
      ensures cluster.events == old(cluster.events) + if ok then [PhaseStored(id, phase)] else []
    {
      ok := apiOk && cluster.failovers[id].present;
      if ok {
        cluster.failovers := cluster.failovers[id := cluster.failovers[id].(phase := phase)];
        cluster.events := cluster.events + [PhaseStored(id, phase)];
      }
    }

    /** The FAILOVER command on the target. */
    method SendFailover(id: Id, ok: bool)
      requires id in cluster.failovers
      modifies cluster`replicas, cluster`events
      ensures var target := cluster.failovers[id].target;
              cluster.replicas == if ok && target in old(cluster.replicas)
                                  then old(cluster.replicas)[target := old(cluster.replicas)[target].Promote()]
                                  else old(cluster.replicas)
      ensures cluster.events == old(cluster.events) + [FailoverCommand(id)]
    {
      var target := cluster.failovers[id].target;
      if ok && target in cluster.replicas {
        cluster.replicas := cluster.replicas[target := cluster.replicas[target].Promote()];
      }
      cluster.events := cluster.events + [FailoverCommand(id)];
    }

    /** One Reconcile of an AGFailover object is the run of its stages. */
    method Reconcile(id: Id, calls: FailoverCalls)
      requires id in cluster.failovers && cluster.failovers[id].stage.Idle?
      modifies cluster
      ensures var w := old(cluster.View());
              cluster.View() == Finish(NextStage(w, id, calls.At(Idle)), id, calls)
    {
      var f := cluster.failovers[id];
      if f.present && !f.phase.Completed? && !f.phase.Failed? && calls.finding.TargetSecondary? {
        Execute(id, calls);
        return;
      }
      FinishWithoutCommand(cluster.View(), id, calls);
      if !f.present || f.phase.Completed? || f.phase.Failed? {
        return;
      }
      match calls.finding
      case BadSecret =>
        var _ := StorePhase(id, Failed, calls.terminalOk);
      case TargetPrimary =>
        var _ := StorePhase(id, Completed, calls.terminalOk);
      case TargetOther =>
        var _ := StorePhase(id, Failed, calls.terminalOk);
      case _ =>
    }

    /** The second half: store Running unless it is stored, send the command, store the outcome. */
    method Execute(id: Id, calls: FailoverCalls)
      requires id in cluster.failovers && cluster.failovers[id].stage.Idle? && cluster.failovers[id].present
      requires !cluster.failovers[id].phase.Terminal() && calls.finding.TargetSecondary?
      modifies cluster
      ensures var w := old(cluster.View());
              cluster.View() == Finish(NextStage(w, id, calls.At(Idle)), id, calls)
    {
      FinishFromSecondary(cluster.View(), id, calls);
      if !cluster.failovers[id].phase.Running? {
        var ok := StorePhase(id, Running, calls.runningOk);
        if !ok || !calls.startOk {
          return;
        }
      }
      SendFailover(id, calls.commandOk);
      var _ := StorePhase(id, if calls.commandOk then Completed else Failed, calls.terminalOk);
    }
  }
}
