/** Split brains under whole Reconciles. A pass that does not fence is followed by an observation in the same Reconcile,
    and that rewrites the status primary, which breaks ties between equal LSNs. */
module ReconcileConvergence {
  import opened Selection
  import opened AgModel
  import opened Convergence
  import opened ReconcileOrder

  /** Storing `primary` leaves the ranking winner as it is: it is the winner itself, or it is no best replica and the
      winner is the first best one in spec order. */
  predicate TieKept(spec: Spec, w: World, primary: Name)
    requires SeenPrimaries(spec, w.replicas) != {}
  {
    var best := Best(w.replicas, SeenPrimaries(spec, w.replicas));
    if primary in best then primary == WinnerOf(spec, w)
    else forall j :: 0 <= j < FirstIn(spec.order, {WinnerOf(spec, w)}) ==> spec.order[j] !in best
  }

  lemma TieDecides(spec: Spec, w: World, primary: Name)
    requires SeenPrimaries(spec, w.replicas) != {}
    ensures Winner(spec.order, w.replicas, SeenPrimaries(spec, w.replicas), primary) == WinnerOf(spec, w)
            <==> TieKept(spec, w, primary)
  {
    var best, win := Best(w.replicas, SeenPrimaries(spec, w.replicas)), WinnerOf(spec, w);
    if primary !in best {
      var i, k := FirstIn(spec.order, best), FirstIn(spec.order, {win});
      assert spec.order[k] == win;
      if i != k {
        assert i < k && spec.order[i] != win;
      }
    }
  }

  /** The observation of this Reconcile, if it comes to one that is written, leaves the winner as it is. */
  predicate Undisturbed(spec: Spec, autoFailover: bool, w: World, io: ReconcileIO)
    requires Knows(spec, w) && |spec.order| > 0 && SeenPrimaries(spec, w.replicas) != {}
  {
    ReconcilePass(spec, autoFailover, w, io).outcome.Observed? && Lands(io.observe) ==>
      TieKept(spec, w, io.observe.observed)
  }

  /** An observation changes no replica that answers PRIMARY. */
  lemma ObservationKeepsPrimaries(spec: Spec, w: World, io: ObserveIO)
    requires Knows(spec, w)
    ensures var after := ObservePass(spec, w, io);
            && SeenPrimaries(spec, after.replicas) == SeenPrimaries(spec, w.replicas)
            && Primaries(spec, after) == Primaries(spec, w)
            && (forall n :: n in SeenPrimaries(spec, w.replicas) ==>
                  n in after.replicas && n in w.replicas && after.replicas[n] == w.replicas[n])
            && Best(after.replicas, SeenPrimaries(spec, after.replicas)) ==
               Best(w.replicas, SeenPrimaries(spec, w.replicas))
            && after.events == w.events && after.failovers == w.failovers
            && after.stored.primary == (if Lands(io) then io.observed else w.stored.primary)
            && after.stored.lastFenced == w.stored.lastFenced && after.stored.consecutive == w.stored.consecutive
            && after.stored.lastFencingTime == w.stored.lastFencingTime
  {
    var after := ObservePass(spec, w, io);
    assert SeenPrimaries(spec, after.replicas) == SeenPrimaries(spec, w.replicas);
  }

  lemma ObservationAndWinner(spec: Spec, w: World, io: ObserveIO)
    requires Knows(spec, w) && SeenPrimaries(spec, w.replicas) != {}
    ensures var after := ObservePass(spec, w, io);
            && SeenPrimaries(spec, after.replicas) != {}
            && (WinnerOf(spec, after) == WinnerOf(spec, w) <==> (Lands(io) ==> TieKept(spec, w, io.observed)))
  {
    ObservationKeepsPrimaries(spec, w, io);
    TieDecides(spec, w, io.observed);
  }

  /** What every Reconcile without automatic failover keeps of a winner: its role, its LSN, and that no command names
      it. */
  ghost predicate KeepsReplica(spec: Spec, w: World, after: World, win: Name) {
    && SeenPrimaries(spec, after.replicas) <= SeenPrimaries(spec, w.replicas)
    && win in SeenPrimaries(spec, after.replicas)
    && win in w.replicas && win in after.replicas && after.replicas[win] == w.replicas[win]
    && w.events <= after.events
    && (forall k :: |w.events| <= k < |after.events| ==> after.events[k].Fenced? && after.events[k].replica != win)
  }

  lemma QuietPass(spec: Spec, w: World, io: FencingIO)
    requires spec.Valid() && Knows(spec, w) && !FencePass(spec, w, io).fenced
    ensures var after := FencePass(spec, w, io).world;
            && after.replicas == w.replicas && after.events == w.events && after.failovers == w.failovers
            && after.stored == w.stored.(reason := after.stored.reason)
  {
  }

  /** A Reconcile that fences nothing, up to its observation. */
  lemma QuietReconcile(spec: Spec, autoFailover: bool, w: World, io: ReconcileIO) returns (mid: World)
    requires spec.Valid() && Knows(spec, w) && SeenPrimaries(spec, w.replicas) != {}
    requires var outcome := ReconcilePass(spec, autoFailover, w, io).outcome;
             !outcome.FencingRan? && !outcome.FailoverRan?
    ensures Knows(spec, mid) && mid.replicas == w.replicas && mid.events == w.events && mid.failovers == w.failovers
    ensures mid.stored == w.stored.(reason := mid.stored.reason)
    ensures ReconcilePass(spec, autoFailover, w, io).world ==
            if ReconcilePass(spec, autoFailover, w, io).outcome.Observed? then ObservePass(spec, mid, io.observe)
            else mid
  {
    mid := ReconcilePass(spec, autoFailover, w, io).world;
    if io.contact.Reached? {
      if w.stored.primary == "" {
        mid := w;
      } else {
        QuietPass(spec, w, io.fencing);
        mid := FencePass(spec, w, io.fencing).world;
      }
    }
  }

  /** One Reconcile spares the winner exactly when no written observation moves a tie. In any case it sends the replica
      that was the winner no command. */
  lemma ReconcileSparesWinner(spec: Spec, autoFailover: bool, w: World, io: ReconcileIO)
    requires spec.Valid() && Knows(spec, w) && SeenPrimaries(spec, w.replicas) != {}
    requires autoFailover ==> !io.contact.Unreached?
    ensures var after := ReconcilePass(spec, autoFailover, w, io).world;
            && KeepsReplica(spec, w, after, WinnerOf(spec, w))
            && (WinnerOf(spec, after) == WinnerOf(spec, w) <==> Undisturbed(spec, autoFailover, w, io))
  {
    var r := ReconcilePass(spec, autoFailover, w, io);
    if r.outcome.FencingRan? {
      PassSparesWinner(spec, w, io.fencing);
    } else {
      var mid := QuietReconcile(spec, autoFailover, w, io);
      assert WinnerOf(spec, mid) == WinnerOf(spec, w);
      if r.outcome.Observed? {
        ObservationKeepsPrimaries(spec, mid, io.observe);
        ObservationAndWinner(spec, mid, io.observe);
        assert TieKept(spec, mid, io.observe.observed) == TieKept(spec, w, io.observe.observed);
      }
    }
  }

  /** No observation along the way moves a tie. */
  predicate AllUndisturbed(spec: Spec, autoFailover: bool, w: World, ios: seq<ReconcileIO>)
    requires Knows(spec, w) && |spec.order| > 0
    decreases |ios|
  {
    ios == [] ||
    (&& SeenPrimaries(spec, w.replicas) != {}
     && Undisturbed(spec, autoFailover, w, ios[0])
     && AllUndisturbed(spec, autoFailover, ReconcilePass(spec, autoFailover, w, ios[0]).world, ios[1..]))
  }

  /** `win` is the ranking winner in every state along the way. */
  predicate WinsThroughout(spec: Spec, autoFailover: bool, w: World, ios: seq<ReconcileIO>, win: Name)
    requires Knows(spec, w) && |spec.order| > 0
    decreases |ios|
  {
    && SeenPrimaries(spec, w.replicas) != {} && WinnerOf(spec, w) == win
    && (ios == [] ||
        WinsThroughout(spec, autoFailover, ReconcilePass(spec, autoFailover, w, ios[0]).world, ios[1..], win))
  }

  /** Any number of Reconciles without automatic failover, with any failures: the first winner stays the winner
      throughout exactly when no written observation moves a tie, and then it keeps its role and is sent no command. */
  lemma {:induction false} ReconcilesSpareWinner(spec: Spec, autoFailover: bool, w: World, ios: seq<ReconcileIO>)
    requires spec.Valid() && Knows(spec, w) && SeenPrimaries(spec, w.replicas) != {}
    requires autoFailover ==> forall i :: 0 <= i < |ios| ==> !ios[i].contact.Unreached?
    ensures WinsThroughout(spec, autoFailover, w, ios, WinnerOf(spec, w)) <==>
            AllUndisturbed(spec, autoFailover, w, ios)
    ensures AllUndisturbed(spec, autoFailover, w, ios) ==>
              KeepsReplica(spec, w, Reconciles(spec, autoFailover, w, ios), WinnerOf(spec, w))
    decreases |ios|
  {
    if ios != [] {
      var after := ReconcilePass(spec, autoFailover, w, ios[0]).world;
      ReconcileSparesWinner(spec, autoFailover, w, ios[0]);
      if Undisturbed(spec, autoFailover, w, ios[0]) {
        ReconcilesSpareWinner(spec, autoFailover, after, ios[1..]);
      }
    }
  }

  // ----- Convergence -----

  /** In a split brain with every guard open, a Reconcile that reaches the known primary is its fencing pass, and an
      observation after a pass that fences nothing. */
  lemma SplitReconcile(spec: Spec, autoFailover: bool, w: World, io: ReconcileIO)
    requires spec.Valid() && Knows(spec, w) && SplitBrain(spec, w) && w.stored.primary != "" && io.contact.Reached?
    ensures var pass := FencePass(spec, w, io.fencing);
            ReconcilePass(spec, autoFailover, w, io) ==
            if pass.fenced then ReconcileResult(pass.world, FencingRan)
            else ReconcileResult(ObservePass(spec, pass.world, io.observe), Observed)
  {
  }

  /** The second Reconcile, from a state in which the first has left `win` as winner and stored primary. */
  lemma SecondReconcile(spec: Spec, autoFailover: bool, mid: World, io: ReconcileIO, win: Name)
    requires spec.Valid() && Knows(spec, mid) && io.contact.Reached?
    requires Settled(spec, FencePass(spec, mid, io.fencing).world, win)
    requires mid.stored.primary == win && (SplitBrain(spec, mid) || Settled(spec, mid, win))
    requires SplitBrain(spec, mid) ==> FencePass(spec, mid, io.fencing).fenced
    ensures Settled(spec, ReconcilePass(spec, autoFailover, mid, io).world, win) <==>
            SplitBrain(spec, mid) || !Lands(io.observe) || io.observe.observed == win
  {
    assert win in Primaries(spec, FencePass(spec, mid, io.fencing).world);
    if SplitBrain(spec, mid) {
      SplitReconcile(spec, autoFailover, mid, io);
    } else {
      SettledPassIsSilent(spec, mid, win, io.fencing);
      ObservationKeepsPrimaries(spec, mid, io.observe);
    }
  }

  lemma FencedOrSettled(spec: Spec, w: World, io: FencingIO, win: Name)
    requires spec.Valid() && Knows(spec, w) && Settled(spec, FencePass(spec, w, io).world, win)
    ensures SplitBrain(spec, w) ==> FencePass(spec, w, io).fenced
  {
    if !FencePass(spec, w, io).fenced {
      QuietPass(spec, w, io);
      assert Primaries(spec, FencePass(spec, w, io).world) == Primaries(spec, w);
    }
  }

  /** The breaker is open for one of the losers. */
  predicate LoserExhausted(spec: Spec, w: World, at: int)
    requires SeenPrimaries(spec, w.replicas) != {}
  {
    exists n :: n in SeenPrimaries(spec, w.replicas) && n != WinnerOf(spec, w) && Exhausted(spec, w.stored, n, at)
  }

  /** What is left after the first pass of an unblocked split brain: the winner alone, or an exhausted loser beside it.
      */
  lemma AfterFirst(spec: Spec, w: World, io: FencingIO)
    requires spec.Valid() && Knows(spec, w) && SplitBrain(spec, w) && Unguarded(spec, w) && Succeeds(io)
    requires !Blocked(spec, w, io.checkAt)
    ensures SeenPrimaries(spec, w.replicas) != {}
    ensures var mid := FencePass(spec, w, io).world;
            && FencePass(spec, w, io).fenced && mid.stored.primary == WinnerOf(spec, w)
            && (SplitBrain(spec, mid) || Settled(spec, mid, WinnerOf(spec, w)))
            && (SplitBrain(spec, mid) <==> LoserExhausted(spec, w, io.checkAt))
  {
    OnePass(spec, w, io);
    FencedPrimaries(spec, w, io);
    var mid, win := FencePass(spec, w, io).world, WinnerOf(spec, w);
    var n :| n in RogueSet(spec, w, io.checkAt);
    assert n in Rogues(spec, w, io.checkAt);
    var left := SeenPrimaries(spec, mid.replicas);
    if left == {win} {
      KeepOne(spec.order, left, win);
    } else {
      var x :| x in left && x != win;
      KeepTwo(spec.order, left, win, x);
    }
  }

  /** Two Reconciles settle an unblocked split brain on its winner, exactly unless the breaker was open for no loser, so
      that the second has nothing left to fence, and the second stores an observation that reports somebody else. */
  lemma TwoReconcilesConverge(spec: Spec, autoFailover: bool, w: World, first: ReconcileIO, second: ReconcileIO)
    requires spec.Valid() && Knows(spec, w) && SplitBrain(spec, w) && Unguarded(spec, w)
    requires first.contact.Reached? && second.contact.Reached? && Succeeds(first.fencing) && Succeeds(second.fencing)
    requires !Blocked(spec, w, first.fencing.checkAt)
    ensures SeenPrimaries(spec, w.replicas) != {}
    ensures var mid := ReconcilePass(spec, autoFailover, w, first).world;
            Settled(spec, ReconcilePass(spec, autoFailover, mid, second).world, WinnerOf(spec, w)) <==>
            || LoserExhausted(spec, w, first.fencing.checkAt) || !Lands(second.observe)
            || second.observe.observed == WinnerOf(spec, w)
  {
    SplitReconcile(spec, autoFailover, w, first);
    AfterFirst(spec, w, first.fencing);
    SecondPass(spec, w, first.fencing, second.fencing);
    var mid, win := FencePass(spec, w, first.fencing).world, WinnerOf(spec, w);
    FencedOrSettled(spec, mid, second.fencing, win);
    SecondReconcile(spec, autoFailover, mid, second, win);
  }

  /** A Reconcile of a blocked split brain sends nothing; its observation decides who wins the next ranking. */
  lemma BlockedReconcile(spec: Spec, autoFailover: bool, w: World, io: ReconcileIO)
    requires spec.Valid() && Knows(spec, w) && SplitBrain(spec, w) && Unguarded(spec, w) && io.contact.Reached?
    requires Blocked(spec, w, io.fencing.checkAt)
    ensures var mid := ReconcilePass(spec, autoFailover, w, io).world;
            && SeenPrimaries(spec, mid.replicas) == SeenPrimaries(spec, w.replicas) != {}
            && Primaries(spec, mid) == Primaries(spec, w) && mid.events == w.events && mid.failovers == w.failovers
            && mid.stored.lastFenced == w.stored.lastFenced && mid.stored.consecutive == w.stored.consecutive
            && mid.stored.lastFencingTime == w.stored.lastFencingTime
            && mid.stored.primary == (if Lands(io.observe) then io.observe.observed else w.stored.primary)
            && (WinnerOf(spec, mid) == WinnerOf(spec, w) <==>
                  (Lands(io.observe) ==> TieKept(spec, w, io.observe.observed)))
  {
    NothingToFence(spec, w, io.fencing.checkAt);
    BlockedPass(spec, w, io.fencing);
    SplitReconcile(spec, autoFailover, w, io);
    var silent := FencePass(spec, w, io.fencing).world;
    ObservationKeepsPrimaries(spec, silent, io.observe);
    ObservationAndWinner(spec, silent, io.observe);
    assert WinnerOf(spec, silent) == WinnerOf(spec, w);
    assert TieKept(spec, silent, io.observe.observed) == TieKept(spec, w, io.observe.observed);
  }

  /** One Reconcile settles a split brain of exactly two on its winner exactly when a primary is stored and the breaker
      is not open for the loser. */
  lemma ReconcilePair(spec: Spec, autoFailover: bool, w: World, io: ReconcileIO)
    requires spec.Valid() && Knows(spec, w) && |Primaries(spec, w)| == 2 && io.contact.Reached? && Succeeds(io.fencing)
    requires spec.Fenceable() && !FailoverRunning(spec, w.failovers)
    ensures SeenPrimaries(spec, w.replicas) != {}
    ensures Settled(spec, ReconcilePass(spec, autoFailover, w, io).world, WinnerOf(spec, w)) <==>
            w.stored.primary != "" && !Blocked(spec, w, io.fencing.checkAt)
  {
    NothingToFence(spec, w, io.fencing.checkAt);
    var after := ReconcilePass(spec, autoFailover, w, io).world;
    if w.stored.primary == "" {
      ObservationKeepsPrimaries(spec, w, io.observe);
    } else if Blocked(spec, w, io.fencing.checkAt) {
      BlockedReconcile(spec, autoFailover, w, io);
    } else {
      SplitReconcile(spec, autoFailover, w, io);
      AfterFirst(spec, w, io.fencing);
      FencedPrimaries(spec, w, io.fencing);
      PairLeaves(spec, w, io.fencing);
    }
  }

  lemma PairLeaves(spec: Spec, w: World, io: FencingIO)
    requires spec.Valid() && Knows(spec, w) && |Primaries(spec, w)| == 2 && Unguarded(spec, w) && Succeeds(io)
    requires !Blocked(spec, w, io.checkAt)
    ensures SeenPrimaries(spec, w.replicas) != {}
    ensures Settled(spec, FencePass(spec, w, io).world, WinnerOf(spec, w))
  {
    AfterFirst(spec, w, io);
    FencedPrimaries(spec, w, io);
    NothingToFence(spec, w, io.checkAt);
    var p, win, after := Primaries(spec, w), WinnerOf(spec, w), FencePass(spec, w, io).world;
    var loser := if p[0] == win then p[1] else p[0];
    assert win in p && p == [p[0], p[1]];
    var n :| n in RogueSet(spec, w, io.checkAt);
    assert n in p && n == loser;
    assert SeenPrimaries(spec, after.replicas) <= {win} by {
      forall m | m in SeenPrimaries(spec, after.replicas)
        ensures m == win
      {
        assert m in p;
      }
    }
    KeepOne(spec.order, SeenPrimaries(spec, after.replicas), win);
  }

  /** Two Reconciles of a split brain that is blocked at first: the first sends nothing and may move the tie, the second
      settles the group on the winner of that moment, exactly when a primary is stored then and the breaker is not open
      for the other. */
  lemma TwoReconcilesFromBlocked(spec: Spec, autoFailover: bool, w: World, first: ReconcileIO, second: ReconcileIO)
    requires spec.Valid() && Knows(spec, w) && SplitBrain(spec, w) && Unguarded(spec, w)
    requires first.contact.Reached? && second.contact.Reached? && Succeeds(second.fencing)
    requires Blocked(spec, w, first.fencing.checkAt)
    ensures var mid := ReconcilePass(spec, autoFailover, w, first).world;
            && SeenPrimaries(spec, mid.replicas) == SeenPrimaries(spec, w.replicas) != {} && mid.events == w.events
            && (WinnerOf(spec, mid) == WinnerOf(spec, w) <==>
                  (Lands(first.observe) ==> TieKept(spec, w, first.observe.observed)))
            && SplitBrain(spec, mid)
            && (Settled(spec, ReconcilePass(spec, autoFailover, mid, second).world, WinnerOf(spec, mid)) <==>
                  mid.stored.primary != "" && !Blocked(spec, mid, second.fencing.checkAt))
  {
    BlockedReconcile(spec, autoFailover, w, first);
    ReconcilePair(spec, autoFailover, ReconcilePass(spec, autoFailover, w, first).world, second);
  }

  /** A moved tie turns fencing against the first winner: when a blocked split brain has equal LSNs and the observation
      reports the loser, the next Reconcile fences the first winner and settles on the loser, whatever the clock says.
      */
  lemma MovedTieFencesWinner(spec: Spec, autoFailover: bool, w: World, first: ReconcileIO, second: ReconcileIO, x: Name)
    requires spec.Valid() && Knows(spec, w) && SplitBrain(spec, w) && Unguarded(spec, w)
    requires first.contact.Reached? && second.contact.Reached? && Succeeds(second.fencing)
    requires Blocked(spec, w, first.fencing.checkAt) && Lands(first.observe) && first.observe.observed == x
    requires SeenPrimaries(spec, w.replicas) != {}
    requires x in Best(w.replicas, SeenPrimaries(spec, w.replicas)) && x != WinnerOf(spec, w)
    ensures Settled(spec, Reconciles(spec, autoFailover, w, [first, second]), x)
  {
    var mid := ReconcilePass(spec, autoFailover, w, first).world;
    BlockedReconcile(spec, autoFailover, w, first);
    var best := Best(mid.replicas, SeenPrimaries(spec, mid.replicas));
    assert x in best by {
      TwoReconcilesFromBlocked(spec, autoFailover, w, first, second);
      BestAfterBlocked(spec, autoFailover, w, first);
    }
    assert WinnerOf(spec, mid) == x;
    var p := Primaries(spec, w);
    assert p == [p[0], p[1]] && x in p && WinnerOf(spec, w) in p;
    var n :| n in SeenPrimaries(spec, w.replicas) && n != WinnerOf(spec, w) &&
             Exhausted(spec, w.stored, n, first.fencing.checkAt);
    assert n in p && n == x;
    assert !Blocked(spec, mid, second.fencing.checkAt);
    ReconcilePair(spec, autoFailover, mid, second);
    assert [first, second][1..] == [second];
    var after := ReconcilePass(spec, autoFailover, mid, second).world;
    assert Reconciles(spec, autoFailover, w, [first, second]) == Reconciles(spec, autoFailover, mid, [second]) == after;
  }

  lemma BestAfterBlocked(spec: Spec, autoFailover: bool, w: World, io: ReconcileIO)
    requires spec.Valid() && Knows(spec, w) && SplitBrain(spec, w) && Unguarded(spec, w) && io.contact.Reached?
    requires Blocked(spec, w, io.fencing.checkAt)
    ensures var mid := ReconcilePass(spec, autoFailover, w, io).world;
            Best(mid.replicas, SeenPrimaries(spec, mid.replicas)) == Best(w.replicas, SeenPrimaries(spec, w.replicas))
  {
    NothingToFence(spec, w, io.fencing.checkAt);
    BlockedPass(spec, w, io.fencing);
    SplitReconcile(spec, autoFailover, w, io);
    ObservationKeepsPrimaries(spec, FencePass(spec, w, io.fencing).world, io.observe);
  }
}
