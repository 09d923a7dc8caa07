/** Automatic failover beside a manual one. Fencing waits for a running AGFailover of its group; automatic failover does
    not look, so it can open a split brain that fencing leaves alone until the object is closed. */
module FailoverInterplay {
  import opened Selection
  import opened AgModel
  import opened AgRuns
  import opened Convergence

  lemma LoopIgnoresObjects(spec: Spec, w: World, objects: map<Id, Failover>, io: FailoverIO)
    requires spec.Valid() && Knows(spec, w)
    ensures var r := FailoverLoop(spec, w, io);
            FailoverLoop(spec, w.(failovers := objects), io) == r.(world := r.world.(failovers := objects))
  {
    var other := w.(failovers := objects);
    assert Stops(spec, other, io) == Stops(spec, w, io) && Attempts(spec, other) == Attempts(spec, w);
  }

  /** Automatic failover does not depend on AGFailover objects, and does not change them. */
  lemma FailoverIgnoresObjects(spec: Spec, w: World, objects: map<Id, Failover>, io: FailoverIO)
    requires spec.Valid() && Knows(spec, w)
    ensures var r := FailoverPass(spec, w, io);
            FailoverPass(spec, w.(failovers := objects), io) == r.(world := r.world.(failovers := objects))
  {
    var l := TryAcquire(w.lease, io.lease);
    if !CoolingDown(spec, w.stored, io.cooldownAt) && l.ok {
      LoopIgnoresObjects(spec,
                         w.(lease := l.lease,
                            acquisitions := w.acquisitions +
                              [Acquisition(io.lease.holder, io.lease.readAt, io.lease.checkAt)]), objects, io);
    }
  }

  /** The object is stored as running, for this group. */
  predicate RunningObject(spec: Spec, w: World, id: Id) {
    id in w.failovers && RunsHere(w.failovers[id], spec.agName)
  }

  /** The object is running in every state of the run. */
  predicate StaysRunning(spec: Spec, w: World, steps: seq<Step>, id: Id)
    requires spec.Valid() && Knows(spec, w)
    decreases |steps|
  {
    && RunningObject(spec, w, id)
    && (steps == [] ||
        (ApplyKnows(spec, w, steps[0]);
         StaysRunning(spec, Apply(spec, w, steps[0]), steps[1..], id)))
  }

  predicate ListsSucceed(steps: seq<Step>) {
    forall k :: 0 <= k < |steps| && steps[k].FencingPass? ==> steps[k].fencing.listOk
  }

  lemma PassWaits(spec: Spec, w: World, io: FencingIO, id: Id)
    requires Knows(spec, w) && RunningObject(spec, w, id) && io.listOk
    ensures FencePass(spec, w, io) == PassResult(w, w.stored, false)
  {
    assert FailoverRunning(spec, w.failovers);
  }

  /** The same run with nothing but the time that its fencing passes take in their place. */
  function WithoutFencing(spec: Spec, w: World, steps: seq<Step>): seq<Step>
    requires spec.Valid() && Knows(spec, w)
    decreases |steps|
  {
    if steps == [] then []
    else
      ApplyKnows(spec, w, steps[0]);
      var after := Apply(spec, w, steps[0]);
      [if steps[0].FencingPass? then Advance(after.now) else steps[0]] + WithoutFencing(spec, after, steps[1..])
  }

  /** As long as an AGFailover of the group is running and List calls succeed, fencing passes do nothing but take time.
      */
  lemma {:induction false} FencingHeldBack(spec: Spec, w: World, steps: seq<Step>, id: Id)
    requires spec.Valid() && Knows(spec, w) && StaysRunning(spec, w, steps, id) && ListsSucceed(steps)
    ensures Run(spec, w, steps) == Run(spec, w, WithoutFencing(spec, w, steps))
    decreases |steps|
  {
    if steps != [] {
      var step := steps[0];
      ApplyKnows(spec, w, step);
      var after := Apply(spec, w, step);
      if step.FencingPass? {
        PassWaits(spec, w, step.fencing, id);
        assert Apply(spec, w, Advance(after.now)) == after;
      }
      assert forall k :: 0 <= k < |steps[1..]| ==> steps[1..][k] == steps[k + 1];
      FencingHeldBack(spec, after, steps[1..], id);
      var rest := WithoutFencing(spec, after, steps[1..]);
      assert WithoutFencing(spec, w, steps)[1..] == rest;
    }
  }

  /** A successful automatic failover during a running manual one: the object stays running, the promotion leaves two or
      more primaries exactly when the known one still answers PRIMARY or a PRIMARY candidate sits later in spec order,
      and then no run fences until the object is closed, a List call fails, or something else changes. */
  lemma ForcedDuringManual(spec: Spec, w: World, io: FailoverIO, id: Id, steps: seq<Step>) returns (i: nat)
    requires spec.Valid() && Knows(spec, w) && RunningObject(spec, w, id) && FailoverPass(spec, w, io).fenced
    requires StaysRunning(spec, FailoverPass(spec, w, io).world, steps, id)
    requires forall k :: 0 <= k < |steps| ==> steps[k].Advance? || (steps[k].FencingPass? && steps[k].fencing.listOk)
    ensures PromotedAt(spec, w, FailoverPass(spec, w, io).world, i)
    ensures RunningObject(spec, FailoverPass(spec, w, io).world, id)
    ensures var after, seen := FailoverPass(spec, w, io).world, SeenPrimaries(spec, w.replicas);
            var end := Run(spec, after, steps);
            && w.events < after.events && after.events[|after.events| - 1] == ForcedFailover(spec.order[i], true)
            && end == after.(now := end.now)
            && (SplitBrain(spec, end) <==>
                  || KnownPrimary(spec, w.stored) in seen
                  || exists j :: i < j < |spec.order| && spec.order[j] in seen)
  {
    i := FailoverSplit(spec, w, io);
    var after := FailoverPass(spec, w, io).world;
    var k, sent := FailoverTarget(spec, w, io);
    SamePromotion(spec, w, after, i, k);
    FailoverKeepsObjects(spec, w, io);
    OnlyTimePasses(spec, after, steps, id);
    assert Primaries(spec, Run(spec, after, steps)) == Primaries(spec, after);
  }

  lemma SamePromotion(spec: Spec, w: World, after: World, i: nat, k: nat)
    requires spec.Valid() && Knows(spec, w) && PromotedAt(spec, w, after, i) && PromotedAt(spec, w, after, k)
    ensures i == k
  {
    var a := spec.order[i];
    assert a in Attempts(spec, w) && !w.replicas[a].role.Primary? && after.replicas[a].role.Primary?;
    assert spec.order[k] == a;
  }

  lemma {:induction false} OnlyTimePasses(spec: Spec, w: World, steps: seq<Step>, id: Id)
    requires spec.Valid() && Knows(spec, w) && StaysRunning(spec, w, steps, id)
    requires forall k :: 0 <= k < |steps| ==> steps[k].Advance? || (steps[k].FencingPass? && steps[k].fencing.listOk)
    ensures var end := Run(spec, w, steps); end == w.(now := end.now)
    decreases |steps|
  {
    if steps != [] {
      var step := steps[0];
      ApplyKnows(spec, w, step);
      if step.FencingPass? {
        PassWaits(spec, w, step.fencing, id);
      }
      assert forall k :: 0 <= k < |steps[1..]| ==> steps[1..][k] == steps[k + 1];
      OnlyTimePasses(spec, Apply(spec, w, step), steps[1..], id);
    }
  }
}
