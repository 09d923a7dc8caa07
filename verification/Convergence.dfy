/** What fencing passes do to a split brain, taken by themselves: two converge, and no failure turns one against the
    winner. ReconcileConvergence adds the observations that the controller makes between passes. */
module Convergence {
  import opened Selection
  import opened AgModel

  /** The calls of a pass that change something all succeed. Pod labels may fail: nothing below depends on them. */
  predicate Succeeds(io: FencingIO) {
    io.commandFails == {} && io.statusLands
  }

  predicate WellTimed(io: FencingIO) {
    io.checkAt <= io.fenceAt <= io.recordAt
  }

  /** Fencing is allowed whether or not the List call of a pass succeeds. */
  predicate Unguarded(spec: Spec, w: World) {
    w.stored.primary != "" && spec.Fenceable() && !FailoverRunning(spec, w.failovers)
  }

  predicate SplitBrain(spec: Spec, w: World) {
    |Primaries(spec, w)| >= 2
  }

  /** Exactly one replica answers PRIMARY, and it is the stored primary. */
  predicate Settled(spec: Spec, w: World, p: Name) {
    Primaries(spec, w) == [p] && w.stored.primary == p
  }

  /** Exactly two primaries, and the breaker is open for the one that loses. */
  predicate Blocked(spec: Spec, w: World, at: int)
    requires SplitBrain(spec, w)
  {
    assert Primaries(spec, w)[0] in SeenPrimaries(spec, w.replicas);
    |Primaries(spec, w)| == 2 &&
    exists n :: n in SeenPrimaries(spec, w.replicas) && n != WinnerOf(spec, w) && Exhausted(spec, w.stored, n, at)
  }

  lemma SeenNonEmpty(spec: Spec, w: World)
    requires SplitBrain(spec, w)
    ensures SeenPrimaries(spec, w.replicas) != {}
  {
    assert Primaries(spec, w)[0] in SeenPrimaries(spec, w.replicas);
  }

  /** A winner is the same on both sides of a change that keeps it, keeps every LSN, and removes only other primaries,
      provided the status primary is the old one or the winner. */
  lemma WinnerKept(order: seq<Name>, before: map<Name, Replica>, after: map<Name, Replica>,
                   among: set<Name>, left: set<Name>, statusBefore: Name, statusAfter: Name)
    requires left <= among <= before.Keys && left <= after.Keys && among != {}
    requires forall n :: n in among ==> n in order
    requires forall n :: n in left ==> before[n] == after[n]
    requires Winner(order, before, among, statusBefore) in left
    requires statusAfter == statusBefore || statusAfter == Winner(order, before, among, statusBefore)
    ensures Winner(order, after, left, statusAfter) == Winner(order, before, among, statusBefore)
  {
    var w := Winner(order, before, among, statusBefore);
    var best, best' := Best(before, among), Best(after, left);
    assert w in best';
    forall n | n in best'
      ensures n in best
    {
      forall m | m in among
        ensures before[m].SeenLsn() <= before[n].SeenLsn()
      {
        assert before[m].SeenLsn() <= before[w].SeenLsn() <= before[n].SeenLsn();
      }
    }
    if statusAfter !in best' {
      var i, i' := FirstIn(order, best), FirstIn(order, best');
      assert i < |order| && order[i] == w;
      assert i' == i;
    }
  }

  /** A pass over a split brain fences exactly the losers that are not exhausted, and nothing else changes role. */
  lemma FencedPrimaries(spec: Spec, w: World, io: FencingIO)
    requires spec.Valid() && Knows(spec, w) && SplitBrain(spec, w) && MayFence(spec, w, io.listOk)
    ensures SeenPrimaries(spec, w.replicas) != {}
    ensures var rogues := RogueSet(spec, w, io.checkAt);
            var after := FencePass(spec, w, io).world;
            && SeenPrimaries(spec, after.replicas) == SeenPrimaries(spec, w.replicas) - (rogues - io.commandFails)
            && WinnerOf(spec, w) in SeenPrimaries(spec, after.replicas)
            && (forall n :: n in w.replicas && n !in rogues ==>
                  n in after.replicas && after.replicas[n] == w.replicas[n])
            && after.failovers == w.failovers
  {
    SeenNonEmpty(spec, w);
    var rogues := RogueSet(spec, w, io.checkAt);
    assert Rogues(spec, w, io.checkAt) == [] <==> rogues == {} by {
      forall n | n in rogues
        ensures n in Rogues(spec, w, io.checkAt)
      {
      }
      if Rogues(spec, w, io.checkAt) != [] {
        assert Rogues(spec, w, io.checkAt)[0] in rogues;
      }
    }
  }

  /** A pass over a split brain finds nothing to fence only when it is blocked. */
  lemma NothingToFence(spec: Spec, w: World, at: int)
    requires spec.Valid() && Knows(spec, w) && SplitBrain(spec, w)
    ensures SeenPrimaries(spec, w.replicas) != {}
    ensures RogueSet(spec, w, at) == {} <==> Blocked(spec, w, at)
  {
    SeenNonEmpty(spec, w);
    var p, win := Primaries(spec, w), WinnerOf(spec, w);
    assert forall i :: 0 <= i < |p| ==> p[i] in p;
    assert win in p;
    if RogueSet(spec, w, at) == {} {
      var loser := if p[0] == win then p[1] else p[0];
      assert p[0] != p[1] && loser in SeenPrimaries(spec, w.replicas);
      assert loser !in RogueSet(spec, w, at);
      forall i | 0 <= i < |p|
        ensures p[i] == win || p[i] == loser
      {
        assert p[i] in SeenPrimaries(spec, w.replicas) && p[i] !in RogueSet(spec, w, at);
        assert p[i] != win ==> Exhausted(spec, w.stored, p[i], at);
      }
      if |p| >= 3 {
        ThirdElement(p, win, loser);
      }
    }
  }

  /** One pass whose calls succeed, in a split brain where something can be fenced. */
  lemma OnePass(spec: Spec, w: World, io: FencingIO)
    requires spec.Valid() && Knows(spec, w) && SplitBrain(spec, w) && Unguarded(spec, w) && Succeeds(io)
    requires !Blocked(spec, w, io.checkAt)
    ensures SeenPrimaries(spec, w.replicas) != {}
    ensures var after := FencePass(spec, w, io).world;
            && after.stored.primary == WinnerOf(spec, w)
            && RogueSet(spec, w, io.checkAt) != {}
            && after.stored.lastFenced in RogueSet(spec, w, io.checkAt)
            && Unguarded(spec, after)
  {
    FencedPrimaries(spec, w, io);
    NothingToFence(spec, w, io.checkAt);
    var n :| n in RogueSet(spec, w, io.checkAt);
    assert n in Rogues(spec, w, io.checkAt);
    assert WinnerOf(spec, w) in spec.order;
  }

  /** A settled availability group is left alone: the pass issues no command and writes nothing. */
  lemma SettledPassIsSilent(spec: Spec, w: World, p: Name, io: FencingIO)
    requires Knows(spec, w) && Settled(spec, w, p)
    ensures FencePass(spec, w, io) == PassResult(w, w.stored, false)
  {
  }

  /** A blocked pass changes nothing but the condition reason. */
  lemma BlockedPass(spec: Spec, w: World, io: FencingIO)
    requires Knows(spec, w) && SplitBrain(spec, w) && Unguarded(spec, w)
    requires SeenPrimaries(spec, w.replicas) != {} && RogueSet(spec, w, io.checkAt) == {}
    ensures FencePass(spec, w, io).world ==
            w.(stored := if io.statusLands then w.stored.(reason := FencingExhausted) else w.stored)
  {
    KeepNone(spec.order);
  }

  /** When the breaker is open for no loser, one successful pass settles the group on the winner. */
  lemma FinishingPass(spec: Spec, w: World, io: FencingIO)
    requires spec.Valid() && Knows(spec, w) && SplitBrain(spec, w) && Unguarded(spec, w) && Succeeds(io)
    requires SeenPrimaries(spec, w.replicas) != {}
    requires RogueSet(spec, w, io.checkAt) == SeenPrimaries(spec, w.replicas) - {WinnerOf(spec, w)} != {}
    ensures Settled(spec, FencePass(spec, w, io).world, WinnerOf(spec, w))
  {
    var after, win := FencePass(spec, w, io).world, WinnerOf(spec, w);
    FencedPrimaries(spec, w, io);
    NothingToFence(spec, w, io.checkAt);
    OnePass(spec, w, io);
    assert SeenPrimaries(spec, after.replicas) == {win};
    KeepOne(spec.order, SeenPrimaries(spec, after.replicas), win);
  }

  /** After a first pass that fenced something, the winner is unchanged and the breaker is open for nobody left. */
  lemma SecondPass(spec: Spec, w: World, first: FencingIO, second: FencingIO)
    requires spec.Valid() && Knows(spec, w) && SplitBrain(spec, w) && Unguarded(spec, w)
    requires Succeeds(first) && Succeeds(second) && !Blocked(spec, w, first.checkAt)
    ensures SeenPrimaries(spec, w.replicas) != {}
    ensures Settled(spec, TwoPasses(spec, w, first, second), WinnerOf(spec, w))
  {
    OnePass(spec, w, first);
    FencedPrimaries(spec, w, first);
    FromSecondPass(spec, w, FencePass(spec, w, first).world, first.checkAt, second);
  }

  lemma FromSecondPass(spec: Spec, w: World, mid: World, at: int, io: FencingIO)
    requires spec.Valid() && Knows(spec, w) && Knows(spec, mid) && Unguarded(spec, mid) && Succeeds(io)
    requires SeenPrimaries(spec, w.replicas) != {}
    requires SeenPrimaries(spec, mid.replicas) == SeenPrimaries(spec, w.replicas) - RogueSet(spec, w, at)
    requires forall n :: n in SeenPrimaries(spec, mid.replicas) ==> mid.replicas[n] == w.replicas[n]
    requires mid.stored.primary == WinnerOf(spec, w)
    requires mid.stored.lastFenced in RogueSet(spec, w, at)
    ensures Settled(spec, FencePass(spec, mid, io).world, WinnerOf(spec, w))
  {
    var seen, left, win := SeenPrimaries(spec, w.replicas), SeenPrimaries(spec, mid.replicas), WinnerOf(spec, w);
    WinnerKept(spec.order, w.replicas, mid.replicas, seen, left, w.stored.primary, mid.stored.primary);
    if left == {win} {
      KeepOne(spec.order, left, win);
      SettledPassIsSilent(spec, mid, win, io);
    } else {
      var x :| x in left && x != win;
      KeepTwo(spec.order, left, win, x);
      assert RogueSet(spec, mid, io.checkAt) == left - {win};
      assert x in left - {win};
      FinishingPass(spec, mid, io);
    }
  }

  function TwoPasses(spec: Spec, w: World, first: FencingIO, second: FencingIO): World
    requires Knows(spec, w)
  {
    FencePass(spec, FencePass(spec, w, first).world, second).world
  }

  /** Split-brain convergence. With successful calls and replicas that do nothing on their own, two passes leave the
      ranking winner as the only PRIMARY and as the stored primary, exactly unless there are two primaries and the
      breaker is still open for the loser at the second pass; then neither pass sends a command. Once settled, every
      further pass sends nothing and writes nothing. */
  lemma TwoPassesConverge(spec: Spec, w: World, first: FencingIO, second: FencingIO)
    requires spec.Valid() && Knows(spec, w) && SplitBrain(spec, w) && Unguarded(spec, w)
    requires Succeeds(first) && Succeeds(second) && first.checkAt <= second.checkAt
    ensures SeenPrimaries(spec, w.replicas) != {}
    ensures var after := TwoPasses(spec, w, first, second);
            && (Settled(spec, after, WinnerOf(spec, w)) <==> !Blocked(spec, w, second.checkAt))
            && (Blocked(spec, w, second.checkAt) ==> after.events == w.events && after.replicas == w.replicas)
            && (!Blocked(spec, w, second.checkAt) ==>
                  forall io :: FencePass(spec, after, io) == PassResult(after, after.stored, false))
  {
    var mid := FencePass(spec, w, first).world;
    FencedPrimaries(spec, w, first);
    NothingToFence(spec, w, first.checkAt);
    NothingToFence(spec, w, second.checkAt);
    if Blocked(spec, w, first.checkAt) {
      BlockedPass(spec, w, first);
      assert WinnerOf(spec, mid) == WinnerOf(spec, w) && Primaries(spec, mid) == Primaries(spec, w);
      if Blocked(spec, w, second.checkAt) {
        assert Blocked(spec, mid, second.checkAt);
        NothingToFence(spec, mid, second.checkAt);
        BlockedPass(spec, mid, second);
      } else {
        NothingToFence(spec, mid, second.checkAt);
        FinishingPass(spec, mid, second);
      }
    } else {
      assert !Blocked(spec, w, second.checkAt);
      SecondPass(spec, w, first, second);
    }
  }

  /** The breaker needs nobody to close it: a blocked split brain is fenced again, softly, by any pass that comes at
      least one cooldown after the last recorded fencing, and by no earlier one. */
  lemma BreakerCloses(spec: Spec, w: World, at: int, io: FencingIO)
    requires spec.Valid() && Knows(spec, w) && SplitBrain(spec, w) && Unguarded(spec, w)
    requires Blocked(spec, w, at) && WellTimed(io)
    ensures w.stored.lastFencingTime.Some?
    ensures var events := FencePass(spec, w, io).world.events;
            && (FencePass(spec, w, io).fenced <==> io.checkAt - w.stored.lastFencingTime.value >= spec.Cooldown())
            && (forall k :: |w.events| <= k < |events| ==> events[k].Fenced? && !events[k].hard)
  {
    var n :| n in SeenPrimaries(spec, w.replicas) && n != WinnerOf(spec, w) && Exhausted(spec, w.stored, n, at);
    NothingToFence(spec, w, io.checkAt);
    FencedPrimaries(spec, w, io);
    if RogueSet(spec, w, io.checkAt) == {} {
      BlockedPass(spec, w, io);
      assert n !in RogueSet(spec, w, io.checkAt);
    } else {
      var m :| m in RogueSet(spec, w, io.checkAt);
      assert m in Rogues(spec, w, io.checkAt);
      assert !Blocked(spec, w, io.checkAt);
    }
  }

  /** A running AGFailover of this group holds fencing back exactly when the List call of the pass succeeds. */
  lemma FailedListDefeatsGuard(spec: Spec, w: World, io: FencingIO)
    requires spec.Valid() && Knows(spec, w) && SplitBrain(spec, w)
    requires w.stored.primary != "" && spec.Fenceable() && FailoverRunning(spec, w.failovers)
    requires !Blocked(spec, w, io.checkAt)
    ensures FencePass(spec, w, io).fenced <==> !io.listOk
  {
    NothingToFence(spec, w, io.checkAt);
    var n :| n in RogueSet(spec, w, io.checkAt);
    assert n in Rogues(spec, w, io.checkAt);
  }

  // ----- Any number of passes, with any failures -----

  /** The winner keeps its role and its rank, no command names it, and no replica gains the PRIMARY role. */
  ghost predicate SparesWinner(spec: Spec, w: World, after: World)
    requires SeenPrimaries(spec, w.replicas) != {}
  {
    var win := WinnerOf(spec, w);
    && SeenPrimaries(spec, after.replicas) <= SeenPrimaries(spec, w.replicas)
    && win in SeenPrimaries(spec, after.replicas)
    && WinnerOf(spec, after) == win
    && win in w.replicas && win in after.replicas && after.replicas[win] == w.replicas[win]
    && w.events <= after.events
    && (forall k :: |w.events| <= k < |after.events| ==> after.events[k].Fenced? && after.events[k].replica != win)
  }

  lemma PassSparesWinner(spec: Spec, w: World, io: FencingIO)
    requires spec.Valid() && Knows(spec, w) && SeenPrimaries(spec, w.replicas) != {}
    ensures SparesWinner(spec, w, FencePass(spec, w, io).world)
    ensures forall n :: n in SeenPrimaries(spec, FencePass(spec, w, io).world.replicas) ==>
              FencePass(spec, w, io).world.replicas[n] == w.replicas[n]
  {
    if MayFence(spec, w, io.listOk) && SplitBrain(spec, w) {
      FencedPrimaries(spec, w, io);
      var after, win := FencePass(spec, w, io).world, WinnerOf(spec, w);
      WinnerKept(spec.order, w.replicas, after.replicas, SeenPrimaries(spec, w.replicas),
                 SeenPrimaries(spec, after.replicas), w.stored.primary, after.stored.primary);
      var rogues := Rogues(spec, w, io.checkAt);
      assert forall i :: 0 <= i < |rogues| ==> rogues[i] in rogues && rogues[i] != win;
    }
  }

  function Passes(spec: Spec, w: World, ios: seq<FencingIO>): World
    requires Knows(spec, w)
    decreases |ios|
  {
    if ios == [] then w else Passes(spec, FencePass(spec, w, ios[0]).world, ios[1..])
  }

  /** Whatever fails in whichever pass, passes alone never turn against the replica that won the first ranking. */
  lemma {:induction false} PassesSpareWinner(spec: Spec, w: World, ios: seq<FencingIO>)
    requires spec.Valid() && Knows(spec, w) && SeenPrimaries(spec, w.replicas) != {}
    ensures SparesWinner(spec, w, Passes(spec, w, ios))
    decreases |ios|
  {
    if ios != [] {
      PassSparesWinner(spec, w, ios[0]);
      PassesSpareWinner(spec, FencePass(spec, w, ios[0]).world, ios[1..]);
    }
  }

  // ----- Automatic failover -----

  /** `target` is where a call of handleAutoFailover stops with a successful command. */
  ghost predicate PromotedAt(spec: Spec, w: World, after: World, i: nat)
    requires |spec.order| > 0
  {
    && i < |spec.order|
    && spec.order[i] in Attempts(spec, w)
    && (forall j :: 0 <= j < i ==> spec.order[j] !in Candidates(spec, w) || !w.replicas[spec.order[j]].role.Primary?)
    && after.replicas == w.replicas[spec.order[i] := w.replicas[spec.order[i]].Promote()]
  }

  /** A forced failover the loop may send: to a listed replica that is not the known primary. */
  predicate SentBy(spec: Spec, s: Status, e: Event)
    requires |spec.order| > 0
  {
    e.ForcedFailover? && e.replica in spec.order && e.replica != KnownPrimary(spec, s)
  }

  /** The commands sent before the stopping position all fail. */
  lemma FailedAttempts(spec: Spec, w: World, io: FailoverIO, i: nat)
    requires spec.Valid() && i <= FirstIn(spec.order, Stops(spec, w, io))
    ensures forall e :: e in Commands(Keep(spec.order[..i], Attempts(spec, w)), io.commandFails) ==>
              SentBy(spec, w.stored, e) && !e.ok
  {
    var tried := Keep(spec.order[..i], Attempts(spec, w));
    forall k | 0 <= k < |tried|
      ensures tried[k] in spec.order && tried[k] in Attempts(spec, w) && tried[k] in io.commandFails
    {
      assert tried[k] in tried;
      var j :| 0 <= j < i && spec.order[j] == tried[k];
      assert spec.order[j] !in Stops(spec, w, io);
    }
  }

  /** What one call may send: failed commands, then at most one successful one, when and only when it promotes. */
  ghost predicate CommandsOf(spec: Spec, s: Status, sent: seq<Event>, promoted: bool, target: Name)
    requires |spec.order| > 0
  {
    && (forall k :: 0 <= k < |sent| ==> SentBy(spec, s, sent[k]) && (sent[k].ok <==> promoted && k == |sent| - 1))
    && (promoted ==> sent != [] && sent[|sent| - 1].replica == target)
  }

  /** The loop of one call: what it sends and where it stops. */
  lemma LoopTarget(spec: Spec, w: World, io: FailoverIO) returns (i: nat, sent: seq<Event>)
    requires spec.Valid() && Knows(spec, w)
    ensures FailoverLoop(spec, w, io).world.events == w.events + sent
    ensures FailoverLoop(spec, w, io).fenced ==> PromotedAt(spec, w, FailoverLoop(spec, w, io).world, i)
    ensures FailoverLoop(spec, w, io).fenced && io.statusLands ==>
              FailoverLoop(spec, w, io).world.stored.primary == spec.order[i]
    ensures !FailoverLoop(spec, w, io).fenced ==> FailoverLoop(spec, w, io).world.replicas == w.replicas
    ensures CommandsOf(spec, w.stored, sent, FailoverLoop(spec, w, io).fenced,
                       if i < |spec.order| then spec.order[i] else "")
  {
    i := FirstIn(spec.order, Stops(spec, w, io));
    sent := Commands(Keep(spec.order[..i], Attempts(spec, w)), io.commandFails);
    FailedAttempts(spec, w, io, i);
    if i == |spec.order| {
      assert spec.order[..i] == spec.order;
    } else if !w.replicas[spec.order[i]].role.Primary? {
      sent := LoopSuccess(spec, w, io, i);
      PromotedHere(spec, w, io, i);
    }
  }

  lemma PromotedHere(spec: Spec, w: World, io: FailoverIO, i: nat)
    requires spec.Valid() && Knows(spec, w)
    requires i == FirstIn(spec.order, Stops(spec, w, io)) < |spec.order|
    requires !w.replicas[spec.order[i]].role.Primary?
    ensures PromotedAt(spec, w, FailoverLoop(spec, w, io).world, i)
  {
    forall j | 0 <= j < i
      ensures spec.order[j] !in Candidates(spec, w) || !w.replicas[spec.order[j]].role.Primary?
    {
      assert spec.order[j] !in Stops(spec, w, io);
    }
  }

  lemma LoopSuccess(spec: Spec, w: World, io: FailoverIO, i: nat) returns (sent: seq<Event>)
    requires spec.Valid() && Knows(spec, w)
    requires i == FirstIn(spec.order, Stops(spec, w, io)) < |spec.order|
    requires !w.replicas[spec.order[i]].role.Primary?
    ensures FailoverLoop(spec, w, io).world.events == w.events + sent
    ensures CommandsOf(spec, w.stored, sent, true, spec.order[i])
  {
    var target := spec.order[i];
    var before := Keep(spec.order[..i], Attempts(spec, w));
    assert target in Stops(spec, w, io);
    FailedAttempts(spec, w, io, i);
    SuccessLast(spec, w.stored, before, target, io.commandFails);
    sent := Commands(before + [target], io.commandFails);
    LoopSends(spec, w, io, i);
  }

  lemma SuccessLast(spec: Spec, s: Status, before: seq<Name>, target: Name, fails: set<Name>)
    requires |spec.order| > 0 && target in spec.order && target != KnownPrimary(spec, s) && target !in fails
    requires forall e :: e in Commands(before, fails) ==> SentBy(spec, s, e) && !e.ok
    ensures CommandsOf(spec, s, Commands(before + [target], fails), true, target)
  {
    var sent := Commands(before + [target], fails);
    assert sent == Commands(before, fails) + [ForcedFailover(target, true)];
    forall k | 0 <= k < |sent|
      ensures SentBy(spec, s, sent[k]) && (sent[k].ok <==> k == |sent| - 1)
    {
      if k < |before| {
        assert sent[k] == Commands(before, fails)[k] && sent[k] in Commands(before, fails);
      }
    }
  }

  lemma LoopSends(spec: Spec, w: World, io: FailoverIO, i: nat)
    requires spec.Valid() && Knows(spec, w)
    requires i == FirstIn(spec.order, Stops(spec, w, io)) < |spec.order|
    requires !w.replicas[spec.order[i]].role.Primary?
    ensures FailoverLoop(spec, w, io).world.events ==
            w.events + Commands(Keep(spec.order[..i], Attempts(spec, w)) + [spec.order[i]], io.commandFails)
  {
    AttemptsUpTo(spec.order, i, Attempts(spec, w));
    assert spec.order[i] in Stops(spec, w, io);
  }

  lemma AttemptsUpTo(order: seq<Name>, i: nat, attempts: set<Name>)
    requires i < |order|
    ensures order[i] in attempts ==> Keep(order[..i + 1], attempts) == Keep(order[..i], attempts) + [order[i]]
  {
    assert order[..i + 1] == order[..i] + [order[i]];
    KeepAppend(order[..i], order[i], attempts);
  }

  /** One call sends at most one successful forced failover, as its last command and never to the known primary, and
      only to a replica before which no candidate answers PRIMARY. */
  lemma FailoverTarget(spec: Spec, w: World, io: FailoverIO) returns (i: nat, sent: seq<Event>)
    requires spec.Valid() && Knows(spec, w)
    ensures FailoverPass(spec, w, io).world.events == w.events + sent
    ensures FailoverPass(spec, w, io).fenced ==> PromotedAt(spec, w, FailoverPass(spec, w, io).world, i)
    ensures FailoverPass(spec, w, io).fenced && io.statusLands ==>
              FailoverPass(spec, w, io).world.stored.primary == spec.order[i]
    ensures !FailoverPass(spec, w, io).fenced ==> FailoverPass(spec, w, io).world.replicas == w.replicas
    ensures CommandsOf(spec, w.stored, sent, FailoverPass(spec, w, io).fenced,
                       if i < |spec.order| then spec.order[i] else "")
  {
    i, sent := 0, [];
    var l := TryAcquire(w.lease, io.lease);
    if !CoolingDown(spec, w.stored, io.cooldownAt) && l.ok {
      var locked := w.(lease := l.lease,
                       acquisitions := w.acquisitions +
                         [Acquisition(io.lease.holder, io.lease.readAt, io.lease.checkAt)]);
      assert Candidates(spec, locked) == Candidates(spec, w);
      i, sent := LoopTarget(spec, locked, io);
    }
  }

  lemma SplitAfterPromotion(spec: Spec, w: World, after: World, i: nat)
    requires spec.Valid() && Knows(spec, w) && PromotedAt(spec, w, after, i)
    ensures var seen := SeenPrimaries(spec, w.replicas);
            && (SplitBrain(spec, after) <==>
                  || KnownPrimary(spec, w.stored) in seen
                  || exists j :: i < j < |spec.order| && spec.order[j] in seen)
            && (!SplitBrain(spec, after) ==> Primaries(spec, after) == [spec.order[i]])
  {
    var seen, target := SeenPrimaries(spec, w.replicas), spec.order[i];
    PrimariesAfterPromotion(spec, w, after, i);
    if seen == {} {
      assert SeenPrimaries(spec, after.replicas) == {target};
      KeepOne(spec.order, SeenPrimaries(spec, after.replicas), target);
      assert Primaries(spec, after) == [target];
    } else {
      var n :| n in seen;
      KeepTwo(spec.order, SeenPrimaries(spec, after.replicas), target, n);
    }
  }

  /** The promotion adds the target to the primaries; those there were are the old one or sit later. */
  lemma PrimariesAfterPromotion(spec: Spec, w: World, after: World, i: nat)
    requires spec.Valid() && Knows(spec, w) && PromotedAt(spec, w, after, i)
    ensures var seen := SeenPrimaries(spec, w.replicas);
            && SeenPrimaries(spec, after.replicas) == seen + {spec.order[i]} && spec.order[i] !in seen
            && (seen != {} <==>
                  || KnownPrimary(spec, w.stored) in seen
                  || exists j :: i < j < |spec.order| && spec.order[j] in seen)
  {
    var seen := SeenPrimaries(spec, w.replicas);
    if seen != {} {
      var n :| n in seen;
      var j :| 0 <= j < |spec.order| && spec.order[j] == n;
      assert n == KnownPrimary(spec, w.stored) || n in Candidates(spec, w);
    }
  }

  /** A successful automatic failover leaves two or more primaries exactly when the old primary still answers PRIMARY or
      a PRIMARY candidate sits later in spec order; otherwise the target is the only one. */
  lemma FailoverSplit(spec: Spec, w: World, io: FailoverIO) returns (i: nat)
    requires spec.Valid() && Knows(spec, w) && FailoverPass(spec, w, io).fenced
    ensures PromotedAt(spec, w, FailoverPass(spec, w, io).world, i)
    ensures io.statusLands ==> FailoverPass(spec, w, io).world.stored.primary == spec.order[i]
    ensures var after, seen := FailoverPass(spec, w, io).world, SeenPrimaries(spec, w.replicas);
            && (SplitBrain(spec, after) <==>
                  || KnownPrimary(spec, w.stored) in seen
                  || exists j :: i < j < |spec.order| && spec.order[j] in seen)
            && (!SplitBrain(spec, after) ==> Primaries(spec, after) == [spec.order[i]])
  {
    var sent;
    i, sent := FailoverTarget(spec, w, io);
    SplitAfterPromotion(spec, w, FailoverPass(spec, w, io).world, i);
  }

  lemma FailoverKeepsObjects(spec: Spec, w: World, io: FailoverIO)
    requires spec.Valid() && Knows(spec, w)
    ensures FailoverPass(spec, w, io).world.failovers == w.failovers
  {
    var l := TryAcquire(w.lease, io.lease);
    if !CoolingDown(spec, w.stored, io.cooldownAt) && l.ok {
      var tried := LoopAppends(spec,
                               w.(lease := l.lease,
                                  acquisitions := w.acquisitions +
                                    [Acquisition(io.lease.holder, io.lease.readAt, io.lease.checkAt)]), io);
    }
  }

  /** Repair: after a recorded automatic failover, the group is settled on the target, or two successful fencing passes
      settle it on the ranking winner unless they are blocked. */
  lemma FailoverThenFencing(spec: Spec, w: World, io: FailoverIO, first: FencingIO, second: FencingIO)
    requires spec.Valid() && Knows(spec, w) && FailoverPass(spec, w, io).fenced && io.statusLands
    requires spec.Fenceable() && !FailoverRunning(spec, w.failovers)
    requires Succeeds(first) && Succeeds(second) && first.checkAt <= second.checkAt
    ensures var after := FailoverPass(spec, w, io).world;
            if !SplitBrain(spec, after) then Settled(spec, after, after.stored.primary)
            else SeenPrimaries(spec, after.replicas) != {} &&
                 (Settled(spec, TwoPasses(spec, after, first, second), WinnerOf(spec, after))
                  <==> !Blocked(spec, after, second.checkAt))
  {
    var i := FailoverSplit(spec, w, io);
    var after := FailoverPass(spec, w, io).world;
    FailoverKeepsObjects(spec, w, io);
    assert after.stored.primary in spec.order;
    if SplitBrain(spec, after) {
      TwoPassesConverge(spec, after, first, second);
    }
  }
}
