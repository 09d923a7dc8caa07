/** What one call of automatic failover does, in terms of the stored fields: when it promotes, whom, what it sends on
    the way, and what it records. The functions of the protocol do not occur in these conditions. */
module FailoverEffects {
  import opened Clock
  import opened Selection
  import opened AgModel
  import opened AgRuns
  import opened FailoverRuns
  import opened FencingEffects

  // ----- The lease -----

  /** The caller gets the lease: it is free, its own, or run out, and the calls succeed. */
  predicate Obtainable(lease: Option<Lease>, io: LeaseIO) {
    && io.readOk && io.writeLands
    && (|| lease == None
        || lease.value.holder == Some(io.holder)
        || (&& lease.value.renewTime.Some? && lease.value.durationSeconds.Some?
            && io.checkAt > lease.value.renewTime.value + lease.value.durationSeconds.value * 1_000_000_000))
  }

  lemma AcquiresExactly(lease: Option<Lease>, io: LeaseIO)
    ensures TryAcquire(lease, io).ok <==> Obtainable(lease, io)
    ensures TryAcquire(lease, io).lease ==
            if !Obtainable(lease, io) then lease
            else Some(Lease(Some(io.holder),
                            if lease == None then Some(30) else lease.value.durationSeconds,
                            Some(ToMicrosecond(io.readAt))))
  {
  }

  /** In every reachable state, an operator whose calls succeed gets the lease exactly when nobody has had it, it was
      the latest holder itself, or more than 30 s have passed since the stored time of the latest acquisition. */
  lemma LeaseAvailable(spec: Spec, w: World, steps: seq<Step>, io: LeaseIO)
    requires spec.Valid() && Initial(spec, w) && io.readOk && io.writeLands
    ensures var end := Run(spec, w, steps);
            TryAcquire(end.lease, io).ok <==>
            || end.acquisitions == []
            || var last := end.acquisitions[|end.acquisitions| - 1];
               last.holder == io.holder || io.checkAt > ToMicrosecond(last.renewed) + 30_000_000_000
  {
    RunKeepsLease(spec, w, steps);
    AcquiresExactly(Run(spec, w, steps).lease, io);
  }

  // ----- The loop -----

  /** The loop talks to this replica: it is listed, is not the known primary, and reports a role. */
  predicate Usable(spec: Spec, w: World, n: Name)
    requires |spec.order| > 0
  {
    && n in spec.order && n in w.replicas
    && n != (if w.stored.primary == "" then spec.order[0] else w.stored.primary)
    && w.replicas[n].readable && w.replicas[n].role != Gone
  }

  /** The replica at this place refuses the command. */
  predicate Refuses(spec: Spec, w: World, io: FailoverIO, j: nat)
    requires 0 <= j < |spec.order|
  {
    && Usable(spec, w, spec.order[j])
    && w.replicas[spec.order[j]].role != Primary && spec.order[j] in io.commandFails
  }

  /** The loop ends here: everything usable before refuses, and this one is PRIMARY or accepts. */
  predicate EndsAt(spec: Spec, w: World, io: FailoverIO, i: nat)
    requires |spec.order| > 0
  {
    && i < |spec.order| && Usable(spec, w, spec.order[i])
    && (w.replicas[spec.order[i]].role == Primary || spec.order[i] !in io.commandFails)
    && forall j :: 0 <= j < i && Usable(spec, w, spec.order[j]) ==> Refuses(spec, w, io, j)
  }

  predicate CooledDown(spec: Spec, w: World, at: int) {
    w.stored.lastAutoFailoverTime == None || at - w.stored.lastAutoFailoverTime.value >= CooldownSpan(spec)
  }

  /** Cooldown and lease let the call go on. */
  predicate MayPromote(spec: Spec, w: World, io: FailoverIO) {
    CooledDown(spec, w, io.cooldownAt) && Obtainable(w.lease, io.lease)
  }

  lemma UsableIsCandidate(spec: Spec, w: World, n: Name)
    requires spec.Valid()
    ensures n in Candidates(spec, w) <==> Usable(spec, w, n)
  {
  }

  lemma EndsAtFirst(spec: Spec, w: World, io: FailoverIO, i: nat)
    requires spec.Valid() && Knows(spec, w)
    ensures EndsAt(spec, w, io, i) <==> i == FirstIn(spec.order, Stops(spec, w, io)) < |spec.order|
  {
    forall j | 0 <= j < |spec.order|
      ensures spec.order[j] in Stops(spec, w, io) <==> Usable(spec, w, spec.order[j]) && !Refuses(spec, w, io, j)
    {
      UsableIsCandidate(spec, w, spec.order[j]);
    }
  }

  function Locked(w: World, io: FailoverIO): World {
    w.(lease := TryAcquire(w.lease, io.lease).lease,
       acquisitions := w.acquisitions + [Acquisition(io.lease.holder, io.lease.readAt, io.lease.checkAt)])
  }

  lemma PassIsLoop(spec: Spec, w: World, io: FailoverIO)
    requires spec.Valid() && Knows(spec, w)
    ensures FailoverPass(spec, w, io) ==
            if MayPromote(spec, w, io) then FailoverLoop(spec, Locked(w, io), io) else PassResult(w, w.stored, false)
    ensures forall n :: Usable(spec, Locked(w, io), n) <==> Usable(spec, w, n)
    ensures forall i: nat :: EndsAt(spec, Locked(w, io), io, i) <==> EndsAt(spec, w, io, i)
  {
    AcquiresExactly(w.lease, io.lease);
    forall i: nat
      ensures EndsAt(spec, Locked(w, io), io, i) <==> EndsAt(spec, w, io, i)
    {
      EndsSame(spec, w, Locked(w, io), io, i);
    }
  }

  lemma EndsSame(spec: Spec, w: World, other: World, io: FailoverIO, i: nat)
    requires |spec.order| > 0 && other.replicas == w.replicas && other.stored == w.stored
    ensures EndsAt(spec, other, io, i) <==> EndsAt(spec, w, io, i)
  {
    assert forall n :: Usable(spec, other, n) <==> Usable(spec, w, n);
    forall j | 0 <= j < |spec.order|
      ensures Refuses(spec, other, io, j) <==> Refuses(spec, w, io, j)
    {
    }
  }

  /** A call promotes exactly when the last automatic failover is at least a cooldown ago, the lease is to be had, and
      the first usable replica that is PRIMARY or accepts the command is not PRIMARY already. */
  lemma PromotesExactly(spec: Spec, w: World, io: FailoverIO)
    requires spec.Valid() && Knows(spec, w)
    ensures FailoverPass(spec, w, io).fenced <==>
            && MayPromote(spec, w, io)
            && exists i: nat :: EndsAt(spec, w, io, i) && w.replicas[spec.order[i]].role != Primary
  {
    PassIsLoop(spec, w, io);
    var i := FirstIn(spec.order, Stops(spec, Locked(w, io), io));
    EndsAtFirst(spec, Locked(w, io), io, i);
    if exists k: nat :: EndsAt(spec, w, io, k) {
      var k: nat :| EndsAt(spec, w, io, k);
      assert EndsAt(spec, Locked(w, io), io, k);
      EndsAtFirst(spec, Locked(w, io), io, k);
    }
  }

  /** What a promotion changes: the target's role, every pod that can be patched, and the status if the write lands. */
  lemma PromotionEffects(spec: Spec, w: World, io: FailoverIO, i: nat)
    requires spec.Valid() && Knows(spec, w) && MayPromote(spec, w, io)
    requires EndsAt(spec, w, io, i) && w.replicas[spec.order[i]].role != Primary
    ensures var after, n := FailoverPass(spec, w, io).world, spec.order[i];
            && after.replicas == w.replicas[n := w.replicas[n].(role := Primary)]
            && after.stored == (if io.statusLands
                                then w.stored.(primary := n, lastAutoFailoverTime := Some(ToSecond(io.recordAt)),
                                               autoFailoverCount := w.stored.autoFailoverCount + 1,
                                               reason := AutoFailoverExecuted)
                                else w.stored)
            && (forall p :: p in w.pods ==>
                  && p in after.pods
                  && after.pods[p] == if p !in spec.order || p in io.podFails then w.pods[p]
                                      else if p == n then PrimaryLabel else SecondaryLabel)
  {
    PassIsLoop(spec, w, io);
    assert EndsAt(spec, Locked(w, io), io, i);
    EndsAtFirst(spec, Locked(w, io), io, i);
  }

  /** When the loop ends at a PRIMARY, only the status changes, to what that replica reports. */
  lemma AdoptionEffects(spec: Spec, w: World, io: FailoverIO, i: nat)
    requires spec.Valid() && Knows(spec, w) && MayPromote(spec, w, io)
    requires EndsAt(spec, w, io, i) && w.replicas[spec.order[i]].role == Primary
    ensures var after := FailoverPass(spec, w, io).world;
            && after.replicas == w.replicas && after.pods == w.pods
            && after.stored == (if io.statusLands && io.observed.Some?
                                then w.stored.(primary := io.observed.value,
                                               reason := if io.healthy then Healthy else NotHealthy)
                                else w.stored)
  {
    PassIsLoop(spec, w, io);
    assert EndsAt(spec, Locked(w, io), io, i);
    EndsAtFirst(spec, Locked(w, io), io, i);
  }

  /** Otherwise nothing changes but the lease and the history. */
  lemma NoEndEffects(spec: Spec, w: World, io: FailoverIO)
    requires spec.Valid() && Knows(spec, w) && !(MayPromote(spec, w, io) && exists i: nat :: EndsAt(spec, w, io, i))
    ensures var after := FailoverPass(spec, w, io).world;
            after.replicas == w.replicas && after.pods == w.pods && after.stored == w.stored
  {
    PassIsLoop(spec, w, io);
    var i := FirstIn(spec.order, Stops(spec, Locked(w, io), io));
    EndsAtFirst(spec, Locked(w, io), io, i);
  }

  // ----- The commands -----

  /** The call sends a forced failover to this replica. */
  ghost predicate Sent(w: World, after: World, n: Name, ok: bool) {
    exists k :: |w.events| <= k < |after.events| && after.events[k] == ForcedFailover(n, ok)
  }

  /** The loop comes as far as place `j`: all usable replicas before it refuse. */
  predicate ComesTo(spec: Spec, w: World, io: FailoverIO, j: nat)
    requires |spec.order| > 0
  {
    j < |spec.order| && forall k :: 0 <= k < j && Usable(spec, w, spec.order[k]) ==> Refuses(spec, w, io, k)
  }

  lemma TriedExactly(spec: Spec, w: World, io: FailoverIO, j: nat)
    requires spec.Valid() && Knows(spec, w) && j < |spec.order|
    ensures ComesTo(spec, w, io, j) <==> j <= FirstIn(spec.order, Stops(spec, w, io))
  {
    var f := FirstIn(spec.order, Stops(spec, w, io));
    forall k | 0 <= k < |spec.order|
      ensures Usable(spec, w, spec.order[k]) && !Refuses(spec, w, io, k) <==> spec.order[k] in Stops(spec, w, io)
    {
      UsableIsCandidate(spec, w, spec.order[k]);
    }
  }

  lemma UpTo(order: seq<Name>, keep: set<Name>, i: nat, n: Name)
    requires i <= |order|
    ensures n in Keep(order[..i], keep) <==> n in keep && exists j :: 0 <= j < i && order[j] == n
  {
    if exists j :: 0 <= j < i && order[j] == n {
      var j :| 0 <= j < i && order[j] == n;
      assert order[..i][j] == n;
    }
  }

  /** The loop sends its commands to the attempts among the first `m` replicas. */
  lemma LoopTries(spec: Spec, w: World, io: FailoverIO) returns (m: nat)
    requires spec.Valid() && Knows(spec, w)
    ensures m <= |spec.order|
    ensures FailoverLoop(spec, w, io).world.events ==
            w.events + Commands(Keep(spec.order[..m], Attempts(spec, w)), io.commandFails)
    ensures forall j :: 0 <= j < |spec.order| && spec.order[j] in Attempts(spec, w) ==>
              (j < m <==> j <= FirstIn(spec.order, Stops(spec, w, io)))
  {
    var i := FirstIn(spec.order, Stops(spec, w, io));
    m := if i == |spec.order| || w.replicas[spec.order[i]].role.Primary? then i else i + 1;
    if i == |spec.order| {
      assert spec.order[..i] == spec.order;
    }
  }

  lemma LoopCommands(spec: Spec, w: World, io: FailoverIO, n: Name) returns (tried: seq<Name>)
    requires spec.Valid() && Knows(spec, w)
    ensures FailoverLoop(spec, w, io).world.events == w.events + Commands(tried, io.commandFails)
    ensures n in tried <==>
              n in Attempts(spec, w) && exists j :: 0 <= j < |spec.order| && spec.order[j] == n &&
                                                    j <= FirstIn(spec.order, Stops(spec, w, io))
  {
    var m := LoopTries(spec, w, io);
    tried := Keep(spec.order[..m], Attempts(spec, w));
    UpTo(spec.order, Attempts(spec, w), m, n);
  }

  /** A call sends a command to exactly the usable replicas that are not PRIMARY and to which it comes, and it succeeds
      exactly where it is accepted. */
  lemma SendsExactly(spec: Spec, w: World, io: FailoverIO, n: Name, ok: bool)
    requires spec.Valid() && Knows(spec, w)
    ensures Sent(w, FailoverPass(spec, w, io).world, n, ok) <==>
            && MayPromote(spec, w, io) && Usable(spec, w, n) && w.replicas[n].role != Primary
            && (exists j :: 0 <= j < |spec.order| && spec.order[j] == n && ComesTo(spec, w, io, j))
            && (ok <==> n !in io.commandFails)
  {
    PassIsLoop(spec, w, io);
    if MayPromote(spec, w, io) {
      var locked := Locked(w, io);
      var tried := LoopCommands(spec, locked, io, n);
      SentIsTried(w, FailoverPass(spec, w, io).world, tried, io.commandFails, n, ok);
      UsableIsCandidate(spec, w, n);
      assert Candidates(spec, locked) == Candidates(spec, w) && Stops(spec, locked, io) == Stops(spec, w, io);
      forall j | 0 <= j < |spec.order|
        ensures ComesTo(spec, w, io, j) <==> j <= FirstIn(spec.order, Stops(spec, w, io))
      {
        TriedExactly(spec, w, io, j);
      }
    }
  }

  lemma SentIsTried(w: World, after: World, tried: seq<Name>, fails: set<Name>, n: Name, ok: bool)
    requires after.events == w.events + Commands(tried, fails)
    ensures Sent(w, after, n, ok) <==> n in tried && (ok <==> n !in fails)
  {
    var added := Commands(tried, fails);
    if n in tried && (ok <==> n !in fails) {
      var k :| 0 <= k < |tried| && tried[k] == n;
      assert after.events[|w.events| + k] == added[k];
    }
    forall k | |w.events| <= k < |after.events|
      ensures after.events[k] == added[k - |w.events|]
    {
    }
  }
}
