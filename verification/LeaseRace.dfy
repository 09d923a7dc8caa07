/** The failover lease among several operator processes. An acquisition is a read, a decision on what was read, and a
    write that does not check a version, so others can write in between. */
module LeaseRace {
  import opened Clock
  import opened Selection
  import opened AgModel
  import opened FailoverRuns

  /** What an operator has read and not acted on yet, with the instant it took before reading. */
  datatype Attempt = Attempt(seen: Option<Lease>, readAt: int)

  datatype Race = Race(now: int, lease: Option<Lease>, attempts: map<string, Attempt>, acquisitions: seq<Acquisition>)

  datatype RaceStep =
    | Wait(to: int)
    | Read(reader: string)
    | Write(writer: string, checkAt: int, lands: bool)

  predicate Possible(race: Race, step: RaceStep) {
    match step
    case Wait(to) => race.now <= to
    case Read(_) => true
    case Write(h, checkAt, _) => h in race.attempts && race.now <= checkAt
  }

  /** A merge patch carries only what differs from the object that was read. */
  function Merged(seen: Option<int>, wanted: Option<int>, stored: Option<int>): Option<int> {
    if wanted == seen then stored else wanted
  }

  /** The lease after the write that `h` decides on, or None when it gives up or the write is refused: creation because
      there is a lease by now, a patch because there is none. */
  function Written(stored: Option<Lease>, h: string, a: Attempt, checkAt: int): Option<Lease> {
    var stamp := Some(ToMicrosecond(a.readAt));
    if a.seen.None? then
      if stored.None? then Some(Lease(Some(h), Some(LEASE_SECONDS), stamp)) else None
    else if stored.None? then None
    else
      var renewTime := Merged(a.seen.value.renewTime, stamp, stored.value.renewTime);
      if a.seen.value.holder == Some(h) then Some(stored.value.(renewTime := renewTime))
      else if Expired(a.seen.value, checkAt) then Some(stored.value.(holder := Some(h), renewTime := renewTime))
      else None
  }

  predicate Acquires(race: Race, step: RaceStep) {
    && step.Write? && Possible(race, step) && step.lands
    && Written(race.lease, step.writer, race.attempts[step.writer], step.checkAt).Some?
  }

  function After(race: Race, step: RaceStep): Race {
    if !Possible(race, step) then race else
    match step
    case Wait(to) => race.(now := to)
    case Read(h) => race.(attempts := race.attempts[h := Attempt(race.lease, race.now)])
    case Write(h, checkAt, _) =>
      var a := race.attempts[h];
      var decided := race.(now := checkAt, attempts := race.attempts - {h});
      if Acquires(race, step) then
        decided.(lease := Written(race.lease, h, a, checkAt),
                 acquisitions := race.acquisitions + [Acquisition(h, a.readAt, checkAt)])
      else decided
  }

  function RunRace(race: Race, steps: seq<RaceStep>): Race
    decreases |steps|
  {
    if steps == [] then race else RunRace(After(race, steps[0]), steps[1..])
  }

  /** A read and a write with nothing in between are one atomic call. */
  lemma CallIsReadThenWrite(race: Race, io: LeaseIO)
    requires io.readOk && io.readAt == race.now <= io.checkAt
    ensures var after := RunRace(race, [Read(io.holder), Write(io.holder, io.checkAt, io.writeLands)]);
            var call := TryAcquire(race.lease, io);
            && after.lease == call.lease
            && after.acquisitions == race.acquisitions +
               if call.ok then [Acquisition(io.holder, io.readAt, io.checkAt)] else []
  {
    var write := Write(io.holder, io.checkAt, io.writeLands);
    var read := After(race, Read(io.holder));
    assert [Read(io.holder), write][1..] == [write];
    assert RunRace(read, [write]) == After(read, write);
  }

  /** Those who have read since the latest acquisition, and not written. */
  function CurrentAfter(race: Race, step: RaceStep, current: set<string>): set<string> {
    match step
    case Wait(_) => current
    case Read(h) => current + {h}
    case Write(h, _, _) =>
      if Acquires(race, step) then {} else if Possible(race, step) then current - {h} else current
  }

  /** Whenever an operator acquires the lease, nobody has acquired it since this operator's read. */
  predicate NobodyBetween(race: Race, steps: seq<RaceStep>, current: set<string>)
    decreases |steps|
  {
    steps == [] ||
    (&& (Acquires(race, steps[0]) ==> steps[0].writer in current)
     && NobodyBetween(After(race, steps[0]), steps[1..], CurrentAfter(race, steps[0], current)))
  }

  predicate Unclaimed(race: Race) {
    race.lease.None? && race.attempts == map[] && race.acquisitions == []
  }

  /** The stored lease is that of the latest acquisition. */
  predicate LatestStored(race: Race) {
    if race.acquisitions == [] then race.lease.None?
    else
      var last := race.acquisitions[|race.acquisitions| - 1];
      && race.lease == Some(Lease(Some(last.holder), Some(LEASE_SECONDS), Some(ToMicrosecond(last.renewed))))
      && last.checked <= race.now
  }

  predicate HandedOver(log: seq<Acquisition>) {
    && (forall k :: 0 <= k < |log| ==> log[k].renewed <= log[k].checked)
    && (forall k :: 0 < k < |log| ==> HandoverAt(log, k))
  }

  /** An operator that is current has seen the stored lease, after the latest acquisition. */
  predicate IsCurrent(race: Race, h: string) {
    && h in race.attempts && race.attempts[h].seen == race.lease
    && (race.acquisitions != [] ==> race.acquisitions[|race.acquisitions| - 1].checked <= race.attempts[h].readAt)
  }

  predicate RaceInvariant(race: Race, current: set<string>) {
    && LatestStored(race) && HandedOver(race.acquisitions)
    && (forall h :: h in race.attempts ==> race.attempts[h].readAt <= race.now)
    && (forall h :: h in current ==> IsCurrent(race, h))
  }

  lemma HandedOverAppend(log: seq<Acquisition>, a: Acquisition)
    requires HandedOver(log) && a.renewed <= a.checked
    requires log != [] ==>
               var last := log[|log| - 1];
               && last.checked <= a.renewed
               && (a.holder != last.holder ==> a.checked > ToMicrosecond(last.renewed) + LEASE_SECONDS * SECOND)
    ensures HandedOver(log + [a])
  {
    var all := log + [a];
    forall k | 0 < k < |all|
      ensures HandoverAt(all, k)
    {
      if k < |log| {
        assert HandoverAt(log, k);
      }
    }
  }

  lemma AcquisitionKeeps(race: Race, step: RaceStep, current: set<string>)
    requires RaceInvariant(race, current) && Acquires(race, step) && step.writer in current
    ensures RaceInvariant(After(race, step), {})
  {
    assert IsCurrent(race, step.writer);
    HandedOverAppend(race.acquisitions, Acquisition(step.writer, race.attempts[step.writer].readAt, step.checkAt));
  }

  lemma OtherStepKeeps(race: Race, step: RaceStep, current: set<string>)
    requires RaceInvariant(race, current) && !Acquires(race, step)
    ensures RaceInvariant(After(race, step), CurrentAfter(race, step, current))
  {
    forall h | h in CurrentAfter(race, step, current)
      ensures IsCurrent(After(race, step), h)
    {
      if h in current {
        assert IsCurrent(race, h);
      }
    }
  }

  lemma {:induction false} RunKeepsRace(race: Race, steps: seq<RaceStep>, current: set<string>)
    requires RaceInvariant(race, current) && NobodyBetween(race, steps, current)
    ensures HandedOver(RunRace(race, steps).acquisitions)
    decreases |steps|
  {
    if steps != [] {
      if Acquires(race, steps[0]) {
        AcquisitionKeeps(race, steps[0], current);
      } else {
        OtherStepKeeps(race, steps[0], current);
      }
      RunKeepsRace(After(race, steps[0]), steps[1..], CurrentAfter(race, steps[0], current));
    }
  }

  /** Different holders are more than the lease duration apart, counted from the stored RenewTime of the earlier one. */
  predicate AllApart(log: seq<Acquisition>) {
    forall i, j :: 0 <= i < j < |log| ==> Apart(log[i], log[j])
  }

  predicate Apart(a: Acquisition, b: Acquisition) {
    a.holder != b.holder ==> b.checked > ToMicrosecond(a.renewed) + LEASE_SECONDS * SECOND
  }

  /** Exclusion among any number of operators, in every run in which nobody acquires the lease between the read and the
      write of an acquisition. */
  lemma RaceExclusion(race: Race, steps: seq<RaceStep>)
    requires Unclaimed(race) && NobodyBetween(race, steps, {})
    ensures AllApart(RunRace(race, steps).acquisitions)
  {
    RunKeepsRace(race, steps, {});
    var log := RunRace(race, steps).acquisitions;
    forall i, j | 0 <= i < j < |log|
      ensures Apart(log[i], log[j])
    {
      LeaseSpan(log, i, j);
    }
  }

  // ----- The converse -----

  /** No operator takes longer than `p` from its instant before the read to its last clock reading. */
  predicate Prompt(log: seq<Acquisition>, p: int) {
    forall k :: 0 <= k < |log| ==> log[k].checked - log[k].renewed <= p
  }

  /** A reader that is not current was overtaken: somebody else has acquired the lease since. */
  predicate Overtaken(race: Race, h: string)
    requires h in race.attempts
  {
    race.acquisitions != [] &&
    var last := race.acquisitions[|race.acquisitions| - 1];
    last.holder != h && race.attempts[h].readAt <= last.checked
  }

  predicate OthersOvertaken(race: Race, current: set<string>) {
    forall h :: h in race.attempts && h !in current ==> Overtaken(race, h)
  }

  lemma StepKeepsOvertaken(race: Race, step: RaceStep, current: set<string>)
    requires RaceInvariant(race, current) && OthersOvertaken(race, current)
    ensures OthersOvertaken(After(race, step), CurrentAfter(race, step, current))
  {
    var after, left := After(race, step), CurrentAfter(race, step, current);
    forall h | h in after.attempts && h !in left
      ensures Overtaken(after, h)
    {
      assert h in race.attempts && after.attempts[h] == race.attempts[h];
      if !Acquires(race, step) {
        assert Overtaken(race, h);
      }
    }
  }

  lemma {:induction false} LogGrows(race: Race, steps: seq<RaceStep>)
    ensures race.acquisitions <= RunRace(race, steps).acquisitions
    decreases |steps|
  {
    if steps != [] {
      LogGrows(After(race, steps[0]), steps[1..]);
    }
  }

  /** An overtaken operator that still acquires is too close to the one that overtook it. */
  lemma OvertakenIsClose(race: Race, step: RaceStep, current: set<string>, p: int)
    requires RaceInvariant(race, current) && OthersOvertaken(race, current)
    requires Acquires(race, step) && step.writer !in current
    requires Prompt(After(race, step).acquisitions, p) && 2 * p + MICROSECOND <= LEASE_SECONDS * SECOND
    ensures !AllApart(After(race, step).acquisitions)
  {
    assert Overtaken(race, step.writer);
    var log := After(race, step).acquisitions;
    var n := |race.acquisitions|;
    assert log[n - 1] == race.acquisitions[n - 1];
    assert log[n].checked <= log[n - 1].renewed + 2 * p;
    assert !Apart(log[n - 1], log[n]);
  }

  lemma {:induction false} ApartMeansNobodyBetween(race: Race, steps: seq<RaceStep>, current: set<string>, p: int)
    requires RaceInvariant(race, current) && OthersOvertaken(race, current)
    requires 2 * p + MICROSECOND <= LEASE_SECONDS * SECOND && Prompt(RunRace(race, steps).acquisitions, p)
    requires AllApart(RunRace(race, steps).acquisitions)
    ensures NobodyBetween(race, steps, current)
    decreases |steps|
  {
    if steps != [] {
      var after, log := After(race, steps[0]), RunRace(race, steps).acquisitions;
      LogGrows(after, steps[1..]);
      assert forall k :: 0 <= k < |after.acquisitions| ==> after.acquisitions[k] == log[k];
      StepKeepsOvertaken(race, steps[0], current);
      if Acquires(race, steps[0]) {
        if steps[0].writer !in current {
          OvertakenIsClose(race, steps[0], current, p);
        }
        AcquisitionKeeps(race, steps[0], current);
      } else {
        OtherStepKeeps(race, steps[0], current);
      }
      ApartMeansNobodyBetween(after, steps[1..], CurrentAfter(race, steps[0], current), p);
    }
  }

  /** Exactly when exclusion holds, among operators that take less than about half the lease duration for an
      acquisition: when nobody acquires the lease between the read and the write of an acquisition. */
  lemma RaceExclusionExactly(race: Race, steps: seq<RaceStep>, p: int)
    requires Unclaimed(race) && 2 * p + MICROSECOND <= LEASE_SECONDS * SECOND
    requires Prompt(RunRace(race, steps).acquisitions, p)
    ensures AllApart(RunRace(race, steps).acquisitions) <==> NobodyBetween(race, steps, {})
  {
    if NobodyBetween(race, steps, {}) {
      RaceExclusion(race, steps);
    } else if AllApart(RunRace(race, steps).acquisitions) {
      ApartMeansNobodyBetween(race, steps, {}, p);
    }
  }

  // ----- Runs that fail, and slow ones that do not -----

  /** Two operators read an expired lease before either of them writes. */
  function Takeover(a: string, b: string, first: int, second: int): seq<RaceStep> {
    [Read(a), Read(b), Write(a, first, true), Write(b, second, true)]
  }

  lemma TakeoverTwice(race: Race, a: string, b: string, first: int, second: int, current: set<string>)
    requires race.lease.Some? && Expired(race.lease.value, race.now) && a != b && race.now <= first <= second
    requires race.lease.value.holder != Some(a) && race.lease.value.holder != Some(b)
    ensures var after := RunRace(race, Takeover(a, b, first, second));
            && after.acquisitions ==
               race.acquisitions + [Acquisition(a, race.now, first), Acquisition(b, race.now, second)]
            && after.lease.Some? && after.lease.value.holder == Some(b)
    ensures !NobodyBetween(race, Takeover(a, b, first, second), current)
  {
    var steps := Takeover(a, b, first, second);
    var r1 := After(race, steps[0]);
    var r2 := After(r1, steps[1]);
    var r3 := After(r2, steps[2]);
    assert steps[1..] == [steps[1], steps[2], steps[3]] && steps[1..][1..] == [steps[2], steps[3]];
    assert [steps[2], steps[3]][1..] == [steps[3]];
    assert Acquires(r2, steps[2]) && Acquires(r3, steps[3]);
    assert RunRace(r3, [steps[3]]) == After(r3, steps[3]);
    assert RunRace(r2, [steps[2], steps[3]]) == RunRace(r3, [steps[3]]);
    assert RunRace(r1, steps[1..]) == RunRace(r2, [steps[2], steps[3]]);
    LateWriterDisturbs(r2, steps[2], steps[3], current + {a} + {b});
    assert NobodyBetween(r1, steps[1..], current + {a}) == NobodyBetween(r2, [steps[2], steps[3]], current + {a} + {b});
  }

  lemma LateWriterDisturbs(race: Race, first: RaceStep, second: RaceStep, current: set<string>)
    requires Acquires(race, first) && Acquires(After(race, first), second)
    ensures !NobodyBetween(race, [first, second], current)
  {
    assert [first, second][1..] == [second];
    assert CurrentAfter(race, first, current) == {};
    assert !NobodyBetween(After(race, first), [second], {});
  }

  lemma {:induction false} RunSplits(race: Race, before: seq<RaceStep>, rest: seq<RaceStep>)
    ensures RunRace(race, before + rest) == RunRace(RunRace(race, before), rest)
    decreases |before|
  {
    if before == [] {
      assert before + rest == rest;
    } else {
      assert (before + rest)[1..] == before[1..] + rest;
      RunSplits(After(race, before[0]), before[1..], rest);
    }
  }

  lemma {:induction false} DisturbedLater(race: Race, before: seq<RaceStep>, later: Race, rest: seq<RaceStep>,
                                          current: set<string>)
    requires later == RunRace(race, before) && forall c :: !NobodyBetween(later, rest, c)
    ensures !NobodyBetween(race, before + rest, current)
    decreases |before|
  {
    if before == [] {
      assert before + rest == rest;
    } else {
      assert (before + rest)[1..] == before[1..] + rest;
      DisturbedLater(After(race, before[0]), before[1..], later, rest, CurrentAfter(race, before[0], current));
    }
  }

  /** `c` creates the lease, it runs out, and at `to` both `a` and `b` read it before they write. */
  function ExpiredTakeover(now: int, a: string, b: string, c: string, to: int, first: int, second: int): seq<RaceStep> {
    [Read(c), Write(c, now, true), Wait(to)] + Takeover(a, b, first, second)
  }

  lemma ExpiredTakeoverRuns(race: Race, a: string, b: string, c: string, to: int, first: int, second: int)
    requires Unclaimed(race) && a != b && a != c && b != c && to > race.now + LEASE_SECONDS * SECOND
    requires to <= first <= second
    ensures var steps := ExpiredTakeover(race.now, a, b, c, to, first, second);
            && RunRace(race, steps).acquisitions ==
               [Acquisition(c, race.now, race.now), Acquisition(a, to, first), Acquisition(b, to, second)]
            && !NobodyBetween(race, steps, {})
  {
    var before := [Read(c), Write(c, race.now, true), Wait(to)];
    var r1 := After(race, before[0]);
    var r2 := After(r1, before[1]);
    var r3 := After(r2, before[2]);
    assert before[1..] == [before[1], before[2]] && [before[1], before[2]][1..] == [before[2]];
    assert RunRace(r2, [before[2]]) == r3;
    assert RunRace(r1, [before[1], before[2]]) == r3;
    assert RunRace(race, before) == r3;
    RunSplits(race, before, Takeover(a, b, first, second));
    forall current
      ensures !NobodyBetween(r3, Takeover(a, b, first, second), current)
    {
      TakeoverTwice(r3, a, b, first, second, current);
    }
    TakeoverTwice(r3, a, b, first, second, {});
    DisturbedLater(race, before, r3, Takeover(a, b, first, second), {});
  }

  /** Exclusion fails without the condition: two operators acquire the lease of a third, and the second of them keeps
      the distance only if it is slow enough to write more than the lease duration after the first one's reading. */
  lemma RaceViolation(race: Race, a: string, b: string, c: string, to: int, first: int, second: int)
    requires Unclaimed(race) && a != b && a != c && b != c && to > race.now + LEASE_SECONDS * SECOND
    requires to <= first <= second
    ensures var steps := ExpiredTakeover(race.now, a, b, c, to, first, second);
            && !NobodyBetween(race, steps, {})
            && (AllApart(RunRace(race, steps).acquisitions) <==> second > ToMicrosecond(to) + LEASE_SECONDS * SECOND)
  {
    ExpiredTakeoverRuns(race, a, b, c, to, first, second);
    var log := RunRace(race, ExpiredTakeover(race.now, a, b, c, to, first, second)).acquisitions;
    assert Apart(log[0], log[1]) && Apart(log[0], log[2]);
  }

  lemma RunFour(race: Race, s0: RaceStep, s1: RaceStep, s2: RaceStep, s3: RaceStep)
    ensures RunRace(race, [s0, s1, s2, s3]) == After(After(After(After(race, s0), s1), s2), s3)
  {
    var r3 := After(After(After(race, s0), s1), s2);
    assert [s0, s1, s2, s3][1..] == [s1, s2, s3] && [s1, s2, s3][1..] == [s2, s3] && [s2, s3][1..] == [s3];
    assert RunRace(r3, [s3]) == After(r3, s3);
    assert RunRace(After(After(race, s0), s1), [s2, s3]) == RunRace(r3, [s3]);
    assert RunRace(After(race, s0), [s1, s2, s3]) == RunRace(After(After(race, s0), s1), [s2, s3]);
  }

  /** Creating the lease is safe without the condition: of two operators that both read that there is none, only the
      first writer acquires it. */
  lemma CreatedOnce(race: Race, a: string, b: string, first: int, second: int)
    requires Unclaimed(race) && a != b && race.now <= first <= second
    ensures var after := RunRace(race, [Read(a), Read(b), Write(a, first, true), Write(b, second, true)]);
            && after.acquisitions == [Acquisition(a, race.now, first)]
            && after.lease == Some(Lease(Some(a), Some(30), Some(ToMicrosecond(race.now))))
  {
    RunFour(race, Read(a), Read(b), Write(a, first, true), Write(b, second, true));
  }

  /** A renewal that comes after a takeover succeeds although the lease is lost: the patch carries only the new time, so
      the other operator stays the holder. */
  lemma RenewedAfterTakeover(race: Race, a: string, b: string, first: int, second: int)
    requires race.lease.Some? && Expired(race.lease.value, race.now) && a != b && race.now <= first <= second
    requires race.lease.value.holder == Some(a) && race.lease.value.renewTime != Some(ToMicrosecond(race.now))
    ensures var after := RunRace(race, [Read(a), Read(b), Write(b, first, true), Write(a, second, true)]);
            && after.acquisitions ==
               race.acquisitions + [Acquisition(b, race.now, first), Acquisition(a, race.now, second)]
            && after.lease == Some(race.lease.value.(holder := Some(b), renewTime := Some(ToMicrosecond(race.now))))
  {
    RunFour(race, Read(a), Read(b), Write(b, first, true), Write(a, second, true));
  }
}
