/** What a fencing pass does, replica by replica, in terms of the stored fields: whom it commands, how, and what it
    records. The functions of the protocol do not occur in these conditions. */
module FencingEffects {
  import opened Clock
  import opened Selection
  import opened AgModel
  import opened AgRuns

  /** The replica is listed, can be asked, and is PRIMARY. */
  predicate AnswersPrimary(spec: Spec, w: World, n: Name) {
    n in spec.order && n in w.replicas && w.replicas[n].readable && w.replicas[n].role == Primary
  }

  function RankedLsn(r: Replica): int {
    if r.lsnReadable then r.lsn else 0
  }

  /** `m` comes before `n` in spec order. */
  ghost predicate Earlier(order: seq<Name>, m: Name, n: Name) {
    exists i, j :: 0 <= i < j < |order| && order[i] == m && order[j] == n
  }

  /** `m` beats `n`: a higher LSN, or the same one and the stored primary, or the same one, neither is the stored
      primary, and an earlier place. */
  ghost predicate Outranks(spec: Spec, w: World, m: Name, n: Name)
    requires m in w.replicas && n in w.replicas
  {
    var x, y := RankedLsn(w.replicas[m]), RankedLsn(w.replicas[n]);
    x > y || (x == y && n != w.stored.primary && (m == w.stored.primary || Earlier(spec.order, m, n)))
  }

  /** Some replica that answers PRIMARY beats this one. */
  ghost predicate Beaten(spec: Spec, w: World, n: Name)
    requires n in w.replicas
  {
    exists m :: AnswersPrimary(spec, w, m) && Outranks(spec, w, m, n)
  }

  /** No guard holds the pass back. */
  ghost predicate GuardsOpen(spec: Spec, w: World, listOk: bool) {
    && w.stored.primary != ""
    && (spec.clusterType == None || spec.clusterType == Some("None"))
    && (!listOk || forall id :: id in w.failovers ==>
          !(w.failovers[id].present && w.failovers[id].agName == spec.agName && w.failovers[id].phase == Running))
  }

  /** The cooldown of the specification; 60 s when it is missing or cannot be read. */
  function CooldownSpan(spec: Spec): int {
    match spec.failoverCooldown
    case Parsed(d) => d
    case _ => 60_000_000_000
  }

  /** The recorded fencing is of this replica and less than a cooldown old. */
  predicate FencedLately(spec: Spec, w: World, n: Name, at: int) {
    && w.stored.lastFenced == n && w.stored.lastFencingTime.Some?
    && at - w.stored.lastFencingTime.value < CooldownSpan(spec)
  }

  predicate BreakerOpen(spec: Spec, w: World, n: Name, at: int) {
    FencedLately(spec, w, n, at) && w.stored.consecutive >= 5
  }

  /** A pass has to fence this replica. */
  ghost predicate MustFence(spec: Spec, w: World, io: FencingIO, n: Name) {
    && GuardsOpen(spec, w, io.listOk) && AnswersPrimary(spec, w, n) && Beaten(spec, w, n)
    && !BreakerOpen(spec, w, n, io.checkAt)
  }

  // ----- Ranking -----

  lemma SeenIsAnswering(spec: Spec, w: World, n: Name)
    ensures n in SeenPrimaries(spec, w.replicas) <==> AnswersPrimary(spec, w, n)
  {
  }

  lemma FirstIsEarlier(order: seq<Name>, keep: set<Name>, n: Name)
    requires Distinct(order) && n in order && n in keep
    ensures FirstIn(order, keep) < |order|
    ensures var f := order[FirstIn(order, keep)]; f == n || Earlier(order, f, n)
    ensures forall m :: m in keep && Earlier(order, m, n) ==> order[FirstIn(order, keep)] != n
  {
    var j :| 0 <= j < |order| && order[j] == n;
    assert FirstIn(order, keep) <= j;
  }

  /** Exactly the replicas that are not beaten win the ranking, so there is one. */
  lemma WinnerIsUnbeaten(spec: Spec, w: World, n: Name)
    requires spec.Valid() && Knows(spec, w) && AnswersPrimary(spec, w, n)
    ensures SeenPrimaries(spec, w.replicas) != {}
    ensures n == WinnerOf(spec, w) <==> !Beaten(spec, w, n)
  {
    SeenIsAnswering(spec, w, n);
    var seen := SeenPrimaries(spec, w.replicas);
    var best, win := Best(w.replicas, seen), WinnerOf(spec, w);
    assert AnswersPrimary(spec, w, win);
    if n == win {
      forall m | AnswersPrimary(spec, w, m)
        ensures !Outranks(spec, w, m, n)
      {
        WinnerUnbeatenBy(spec, w, m);
      }
    } else {
      WinnerBeats(spec, w, n);
      assert Outranks(spec, w, win, n);
    }
  }

  lemma WinnerUnbeatenBy(spec: Spec, w: World, m: Name)
    requires spec.Valid() && Knows(spec, w) && AnswersPrimary(spec, w, m)
    ensures SeenPrimaries(spec, w.replicas) != {}
    ensures !Outranks(spec, w, m, WinnerOf(spec, w))
  {
    SeenIsAnswering(spec, w, m);
    var seen := SeenPrimaries(spec, w.replicas);
    var best, win := Best(w.replicas, seen), WinnerOf(spec, w);
    assert win in best && RankedLsn(w.replicas[m]) == w.replicas[m].SeenLsn() <= w.replicas[win].SeenLsn();
    if RankedLsn(w.replicas[m]) == RankedLsn(w.replicas[win]) && win != w.stored.primary {
      assert m in best;
      FirstIsEarlier(spec.order, best, win);
    }
  }

  lemma WinnerBeats(spec: Spec, w: World, n: Name)
    requires spec.Valid() && Knows(spec, w) && AnswersPrimary(spec, w, n)
    ensures SeenPrimaries(spec, w.replicas) != {}
    ensures n != WinnerOf(spec, w) ==> Outranks(spec, w, WinnerOf(spec, w), n)
  {
    SeenIsAnswering(spec, w, n);
    var seen := SeenPrimaries(spec, w.replicas);
    var best, win := Best(w.replicas, seen), WinnerOf(spec, w);
    assert win in best && w.replicas[n].SeenLsn() <= w.replicas[win].SeenLsn();
    if n != win && w.replicas[n].SeenLsn() == w.replicas[win].SeenLsn() {
      assert n in best;
      FirstIsEarlier(spec.order, best, n);
    }
  }

  // ----- The pass -----

  lemma RoguesAreMustFence(spec: Spec, w: World, io: FencingIO, n: Name)
    requires spec.Valid() && Knows(spec, w) && SeenPrimaries(spec, w.replicas) != {}
    ensures n in RogueSet(spec, w, io.checkAt) && GuardsOpen(spec, w, io.listOk) <==> MustFence(spec, w, io, n)
  {
    SeenIsAnswering(spec, w, n);
    if AnswersPrimary(spec, w, n) {
      WinnerIsUnbeaten(spec, w, n);
    }
  }

  lemma GuardsAreOpen(spec: Spec, w: World, listOk: bool)
    ensures MayFence(spec, w, listOk) <==> GuardsOpen(spec, w, listOk)
  {
    if FailoverRunning(spec, w.failovers) {
      var id :| id in w.failovers && RunsHere(w.failovers[id], spec.agName);
      assert w.failovers[id].phase == Running;
    }
  }

  /** A pass fences exactly when there is a replica it has to fence. */
  lemma FencesExactly(spec: Spec, w: World, io: FencingIO)
    requires spec.Valid() && Knows(spec, w)
    ensures FencePass(spec, w, io).fenced <==> exists n :: MustFence(spec, w, io, n)
    ensures FencePass(spec, w, io).fenced ==>
              && SeenPrimaries(spec, w.replicas) != {} && Rogues(spec, w, io.checkAt) != []
              && FencePass(spec, w, io).world == Fence(spec, w, io)
  {
    GuardsAreOpen(spec, w, io.listOk);
    if exists n :: MustFence(spec, w, io, n) {
      var n :| MustFence(spec, w, io, n);
      SeenIsAnswering(spec, w, n);
      RoguesAreMustFence(spec, w, io, n);
      var m :| AnswersPrimary(spec, w, m) && Outranks(spec, w, m, n);
      NotOverItself(spec, w, n);
      SeenIsAnswering(spec, w, m);
      KeepTwo(spec.order, SeenPrimaries(spec, w.replicas), m, n);
      assert n in Rogues(spec, w, io.checkAt);
    } else if FencePass(spec, w, io).fenced {
      assert Primaries(spec, w)[0] in SeenPrimaries(spec, w.replicas);
      var n := Rogues(spec, w, io.checkAt)[0];
      assert n in Rogues(spec, w, io.checkAt);
      RoguesAreMustFence(spec, w, io, n);
    }
    if FencePass(spec, w, io).fenced {
      assert Primaries(spec, w)[0] in SeenPrimaries(spec, w.replicas);
    }
  }

  lemma NotOverItself(spec: Spec, w: World, n: Name)
    requires spec.Valid() && n in w.replicas
    ensures !Outranks(spec, w, n, n)
  {
  }

  /** The events a pass adds that name this replica. */
  ghost predicate Commanded(before: World, after: World, n: Name) {
    exists k :: |before.events| <= k < |after.events| && after.events[k].Fenced? && after.events[k].replica == n
  }

  /** A pass sends a command to exactly the replicas it has to fence: DROP to one whose recorded fencing is less than a
      cooldown old, demotion to the others. */
  lemma CommandsExactly(spec: Spec, w: World, io: FencingIO, n: Name)
    requires spec.Valid() && Knows(spec, w)
    ensures var after := FencePass(spec, w, io).world;
            && (Commanded(w, after, n) <==> MustFence(spec, w, io, n))
            && (forall k :: |w.events| <= k < |after.events| ==>
                  after.events[k].Fenced? && after.events[k].replica == n ==>
                    (after.events[k].hard <==> FencedLately(spec, w, n, io.fenceAt)))
  {
    FencesExactly(spec, w, io);
    if FencePass(spec, w, io).fenced {
      var rogues := PassEvents(spec, w, io);
      GuardsAreOpen(spec, w, io.listOk);
      RoguesAreMustFence(spec, w, io, n);
      AddedEvents(spec, w, rogues, io, n);
      SameLately(spec, w, n, io.fenceAt);
    } else {
      PassUntouched(spec, w, io);
    }
  }

  lemma SameLately(spec: Spec, w: World, n: Name, at: int)
    ensures Recent(spec, w.stored, n, at) <==> FencedLately(spec, w, n, at)
  {
  }

  lemma AddedEvents(spec: Spec, w: World, rogues: seq<Name>, io: FencingIO, n: Name)
    ensures var after := w.(events := w.events + FencingEvents(spec, w.stored, |w.fencings|, rogues, io));
            && (Commanded(w, after, n) <==> n in rogues)
            && (forall k :: |w.events| <= k < |after.events| ==>
                  after.events[k].Fenced? && after.events[k].replica == n ==>
                    (after.events[k].hard <==> Recent(spec, w.stored, n, io.fenceAt)))
  {
    var added := FencingEvents(spec, w.stored, |w.fencings|, rogues, io);
    var events := w.events + added;
    if n in rogues {
      var k :| 0 <= k < |rogues| && rogues[k] == n;
      assert events[|w.events| + k] == added[k];
    }
    forall k | |w.events| <= k < |events|
      ensures events[k].Fenced? && events[k].replica == rogues[k - |w.events|]
      ensures events[k].hard <==> Recent(spec, w.stored, events[k].replica, io.fenceAt)
    {
      assert events[k] == added[k - |w.events|];
    }
  }

  /** What becomes of each replica: dropped, demoted, or left alone. */
  lemma RolesExactly(spec: Spec, w: World, io: FencingIO, n: Name)
    requires spec.Valid() && Knows(spec, w) && n in w.replicas
    ensures n in FencePass(spec, w, io).world.replicas
    ensures FencePass(spec, w, io).world.replicas[n] ==
            if !MustFence(spec, w, io, n) || n in io.commandFails then w.replicas[n]
            else w.replicas[n].(role := if FencedLately(spec, w, n, io.fenceAt) then Gone else Secondary)
  {
    FencesExactly(spec, w, io);
    if FencePass(spec, w, io).fenced {
      GuardsAreOpen(spec, w, io.listOk);
      RoguesAreMustFence(spec, w, io, n);
    }
  }

  /** What a pass that fences does to each pod, and what it records. */
  lemma RecordsExactly(spec: Spec, w: World, io: FencingIO)
    requires spec.Valid() && Knows(spec, w) && FencePass(spec, w, io).fenced
    ensures var after := FencePass(spec, w, io).world;
            forall n :: n in w.pods ==>
              && n in after.pods
              && after.pods[n] == if MustFence(spec, w, io, n) && n !in io.podFails then SecondaryLabel else w.pods[n]
    ensures io.statusLands ==>
              var s := FencePass(spec, w, io).world.stored;
              && AnswersPrimary(spec, w, s.primary) && !Beaten(spec, w, s.primary)
              && MustFence(spec, w, io, s.lastFenced)
              && (forall n :: MustFence(spec, w, io, n) ==> n == s.lastFenced || Earlier(spec.order, n, s.lastFenced))
              && s.lastFencingTime == Some(ToSecond(io.recordAt)) && s.fencingCount == w.stored.fencingCount + 1
              && s.consecutive == (if s.lastFenced == w.stored.lastFenced then w.stored.consecutive + 1 else 1)
              && s.reason == (if s.consecutive >= 2 then HardFencingExecuted else FencingExecuted)
    ensures !io.statusLands ==> FencePass(spec, w, io).world.stored == w.stored
  {
    FencesExactly(spec, w, io);
    GuardsAreOpen(spec, w, io.listOk);
    forall n
      ensures n in RogueSet(spec, w, io.checkAt) <==> MustFence(spec, w, io, n)
    {
      RoguesAreMustFence(spec, w, io, n);
    }
    var win := WinnerOf(spec, w);
    SeenIsAnswering(spec, w, win);
    WinnerIsUnbeaten(spec, w, win);
    LastKept(spec.order, RogueSet(spec, w, io.checkAt));
    var last := LastRogue(spec, w, io.checkAt);
    assert last in Rogues(spec, w, io.checkAt);
  }

  lemma {:induction false} LastKept(order: seq<Name>, keep: set<Name>)
    requires Keep(order, keep) != []
    ensures var last := Keep(order, keep)[|Keep(order, keep)| - 1];
            forall n :: n in order && n in keep ==> n == last || Earlier(order, n, last)
  {
    var front, x := order[..|order| - 1], order[|order| - 1];
    assert order == front + [x];
    var last := Keep(order, keep)[|Keep(order, keep)| - 1];
    forall n | n in order && n in keep && n != last
      ensures Earlier(order, n, last)
    {
      var i :| 0 <= i < |order| && order[i] == n;
      if x in keep {
        assert order[|order| - 1] == last;
      } else {
        LastKept(front, keep);
        assert n in front;
        var a, b :| 0 <= a < b < |front| && front[a] == n && front[b] == last;
        assert order[a] == n && order[b] == last;
      }
    }
  }

  /** Escalation, the other way: in a reachable state, a beaten PRIMARY that the last log entry names, less than a
      cooldown ago and with a streak below five, is sent a DROP by the next pass whose guards are open. */
  lemma EscalationFollows(spec: Spec, w: World, io: FencingIO, n: Name)
    requires spec.Valid() && Knows(spec, w) && FencingInvariant(spec, w) && io.checkAt <= io.fenceAt
    requires w.fencings != [] && w.fencings[|w.fencings| - 1].replica == n
    requires io.fenceAt - w.fencings[|w.fencings| - 1].time < CooldownSpan(spec) && Streak(w.fencings) < 5
    requires GuardsOpen(spec, w, io.listOk) && AnswersPrimary(spec, w, n) && Beaten(spec, w, n)
    ensures var events := FencePass(spec, w, io).world.events;
            exists k :: |w.events| <= k < |events| && events[k].Fenced? && events[k].replica == n && events[k].hard
  {
    CommandsExactly(spec, w, io, n);
  }

  /** And in every state such a replica is left alone exactly when the streak has reached five and the last entry is
      less than a cooldown old. */
  lemma BreakerFollows(spec: Spec, w: World, io: FencingIO, n: Name)
    requires spec.Valid() && Knows(spec, w) && FencingInvariant(spec, w)
    requires GuardsOpen(spec, w, io.listOk) && AnswersPrimary(spec, w, n) && Beaten(spec, w, n)
    ensures Commanded(w, FencePass(spec, w, io).world, n) <==>
            || w.fencings == [] || w.fencings[|w.fencings| - 1].replica != n
            || io.checkAt - w.fencings[|w.fencings| - 1].time >= CooldownSpan(spec) || Streak(w.fencings) < 5
  {
    CommandsExactly(spec, w, io, n);
  }

  /** A pass that fences nothing stores at most its alert: exactly when a guard-free split brain has every loser
      exhausted and the write lands. */
  lemma AlertsExactly(spec: Spec, w: World, io: FencingIO)
    requires spec.Valid() && Knows(spec, w) && !FencePass(spec, w, io).fenced
    ensures FencePass(spec, w, io).world.stored ==
            if GuardsOpen(spec, w, io.listOk) && io.statusLands
               && exists n :: AnswersPrimary(spec, w, n) && Beaten(spec, w, n)
            then w.stored.(reason := FencingExhausted) else w.stored
  {
    GuardsAreOpen(spec, w, io.listOk);
    SplitIsBeaten(spec, w);
  }

  /** Two or more primaries are the same as a beaten one. */
  lemma SplitIsBeaten(spec: Spec, w: World)
    requires spec.Valid() && Knows(spec, w)
    ensures |Primaries(spec, w)| >= 2 <==> exists n :: AnswersPrimary(spec, w, n) && Beaten(spec, w, n)
  {
    var p := Primaries(spec, w);
    if |p| >= 2 {
      assert p[0] in p && p[1] in p;
      SeenIsAnswering(spec, w, p[0]);
      SeenIsAnswering(spec, w, p[1]);
      WinnerIsUnbeaten(spec, w, p[0]);
      WinnerIsUnbeaten(spec, w, p[1]);
      assert p[0] != p[1];
    } else if exists n :: AnswersPrimary(spec, w, n) && Beaten(spec, w, n) {
      var n :| AnswersPrimary(spec, w, n) && Beaten(spec, w, n);
      var m :| AnswersPrimary(spec, w, m) && Outranks(spec, w, m, n);
      NotOverItself(spec, w, n);
      SeenIsAnswering(spec, w, n);
      SeenIsAnswering(spec, w, m);
      KeepTwo(spec.order, SeenPrimaries(spec, w.replicas), m, n);
    }
  }
}
