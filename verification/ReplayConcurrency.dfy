/**
 `check_and_record` under concurrency. A call is five separate steps - the clock read, the size test,
 the schedule decision, the sweep, and the check-and-insert - each under at most one lock, and the
 steps of any number of calls interleave in any order with the passing of time.
 */
module ReplayConcurrency {
  import opened Replay

  /** Where one call stands; `now` is the clock reading it began with. */
  datatype Phase =
    | Idle
    | Entered(id: SignatureId, now: Instant)
    | Measured(id: SignatureId, now: Instant, overCapacity: bool)
    | Sweeping(id: SignatureId, now: Instant)
    | Pruned(id: SignatureId, now: Instant)

  /** An acceptance, with the clock at its call's clock read and at its insertion. */
  datatype Entry = Entry(id: SignatureId, read: Instant, inserted: Instant)

  datatype State = State(
    clock: Instant,
    seen: map<SignatureId, Instant>,
    next: Instant,
    nextCapacity: Instant,
    seenPoisoned: bool,
    schedulePoisoned: bool,
    calls: map<nat, Phase>,
    log: seq<Entry>)

  datatype Event =
    | Tick(to: Instant)
    | Enter(call: nat, id: SignatureId)
    | Measure(call: nat)
    | Decide(call: nat)
    | Sweep(call: nat)
    | Check(call: nat)
    | PoisonSeen
    | PoisonSchedule

  function PhaseOf(s: State, call: nat): Phase {
    if call in s.calls then s.calls[call] else Idle
  }

  function Move(s: State, call: nat, phase: Phase): State {
    s.(calls := s.calls[call := phase])
  }

  /** One step; an event whose call is not at that step changes nothing. */
  function Step(s: State, e: Event, window: int): State {
    match e
    case Tick(to) => if to >= s.clock then s.(clock := to) else s
    case PoisonSeen => s.(seenPoisoned := true)
    case PoisonSchedule => s.(schedulePoisoned := true)
    case Enter(call, id) => if PhaseOf(s, call).Idle? then Move(s, call, Entered(id, s.clock)) else s
    case Measure(call) =>
      (match PhaseOf(s, call)
       case Entered(id, now) =>
         Move(s, call, Measured(id, now, !s.seenPoisoned && |s.seen| >= MAX_TRACKED_SIGNATURES))
       case _ => s)
    case Decide(call) =>
      (match PhaseOf(s, call)
       case Measured(id, now, overCapacity) => DecideSweep(s, call, id, now, overCapacity, window)
       case _ => s)
    case Sweep(call) =>
      (match PhaseOf(s, call)
       case Sweeping(id, now) =>
         var swept := if s.seenPoisoned then s else s.(seen := Retained(s.seen, now));
         Move(swept, call, Pruned(id, now))
       case _ => s)
    case Check(call) =>
      (match PhaseOf(s, call)
       case Pruned(id, now) =>
         if s.seenPoisoned || (id in s.seen && s.seen[id] > now) then Move(s, call, Idle)
         else Move(s.(seen := s.seen[id := now + window], log := s.log + [Entry(id, now, s.clock)]), call, Idle)
       case _ => s)
  }

  function DecideSweep(s: State, call: nat, id: SignatureId, now: Instant, overCapacity: bool, window: int): State {
    var routineDue := now >= s.next;
    var capacityDue := overCapacity && now >= s.nextCapacity;
    if s.schedulePoisoned || (!routineDue && !capacityDue) then Move(s, call, Pruned(id, now))
    else Move(s.(next := now + window / PRUNE_INTERVAL_DIVISOR,
                 nextCapacity := if capacityDue then now + window / CAPACITY_BACKOFF_DIVISOR else s.nextCapacity),
              call, Sweeping(id, now))
  }

  function Run(s: State, events: seq<Event>, window: int): State {
    if events == [] then s else Step(Run(s, events[..|events| - 1], window), events[|events| - 1], window)
  }

  function Initial(start: Instant, window: int): State {
    State(start, map[], start + window / PRUNE_INTERVAL_DIVISOR, start, false, false, map[], [])
  }

  // ── Safety ─────────────────────────────────────────────────────────────────

  ghost predicate ReadsPast(s: State) {
    forall c :: c in s.calls && !s.calls[c].Idle? ==> s.calls[c].now <= s.clock
  }

  /** An acceptance is a window old, or its signature is in the map at least until it is. */
  ghost predicate Covered(s: State, window: int) {
    forall i :: 0 <= i < |s.log| ==>
      s.log[i].read + window <= s.clock
      || (s.log[i].id in s.seen && s.seen[s.log[i].id] >= s.log[i].read + window)
  }

  ghost predicate Apart(log: seq<Entry>, window: int) {
    forall i, j :: 0 <= i < j < |log| && log[i].id == log[j].id ==> log[i].read + window <= log[j].inserted
  }

  ghost predicate Inv(s: State, window: int) {
    && ReadsPast(s) && Covered(s, window) && Apart(s.log, window)
    && forall i :: 0 <= i < |s.log| ==> s.log[i].read <= s.log[i].inserted <= s.clock
  }

  lemma StepKeepsInv(s: State, e: Event, window: int)
    requires window > 0 && Inv(s, window)
    ensures Inv(Step(s, e, window), window)
  {
    if e.Check? && PhaseOf(s, e.call).Pruned? {
      CheckKeepsInv(s, e.call, window);
    }
  }

  lemma CheckKeepsInv(s: State, call: nat, window: int)
    requires window > 0 && Inv(s, window) && PhaseOf(s, call).Pruned?
    ensures Inv(Step(s, Check(call), window), window)
  {
    var Pruned(id, now) := PhaseOf(s, call);
    if s.seenPoisoned || (id in s.seen && s.seen[id] > now) {
    } else {
      var s' := Step(s, Check(call), window);
      assert s'.log == s.log + [Entry(id, now, s.clock)];
      forall i | 0 <= i < |s.log| && s.log[i].id == id ensures s.log[i].read + window <= s.clock {
      }
    }
  }

  lemma {:induction false} RunKeepsInv(start: Instant, events: seq<Event>, window: int)
    requires window > 0
    ensures Inv(Run(Initial(start, window), events, window), window)
  {
    if events != [] {
      RunKeepsInv(start, events[..|events| - 1], window);
      StepKeepsInv(Run(Initial(start, window), events[..|events| - 1], window), events[|events| - 1], window);
    }
  }

  /** In every interleaving, any two acceptances of one signature are at least a window apart, measured
      from the clock read of the first to the insertion of the second. */
  lemma AcceptancesApart(start: Instant, events: seq<Event>, window: int, i: nat, j: nat)
    requires window > 0
    requires i < j < |Run(Initial(start, window), events, window).log|
    requires var log := Run(Initial(start, window), events, window).log; log[i].id == log[j].id
    ensures var log := Run(Initial(start, window), events, window).log; log[i].read + window <= log[j].inserted
  {
    RunKeepsInv(start, events, window);
  }

  /** Every entry of the map is due to an acceptance of its signature. */
  ghost predicate Due(s: State, window: int) {
    forall id :: id in s.seen ==> exists i :: 0 <= i < |s.log| && s.log[i].id == id && s.log[i].read + window == s.seen[id]
  }

  lemma StepKeepsDue(s: State, e: Event, window: int)
    requires Due(s, window)
    ensures Due(Step(s, e, window), window)
  {
    hide DecideSweep, PhaseOf;
    var s' := Step(s, e, window);
    if e.Decide? {
      DecidingKeepsSeen(s, e.call, window);
    } else if s'.log == s.log {
      assert forall id :: id in s'.seen ==> id in s.seen && s'.seen[id] == s.seen[id];
    } else {
      forall id | id in s'.seen
        ensures exists i :: 0 <= i < |s'.log| && s'.log[i].id == id && s'.log[i].read + window == s'.seen[id]
      {
        if id == s'.log[|s.log|].id {
          assert s'.log[|s.log|].read + window == s'.seen[id];
        } else {
          var i :| 0 <= i < |s.log| && s.log[i].id == id && s.log[i].read + window == s.seen[id];
          assert s'.log[i] == s.log[i];
        }
      }
    }
  }

  lemma DecidingKeepsSeen(s: State, call: nat, window: int)
    ensures Step(s, Decide(call), window).seen == s.seen && Step(s, Decide(call), window).log == s.log
  {
  }

  lemma {:induction false} RunKeepsDue(start: Instant, events: seq<Event>, window: int)
    ensures Due(Run(Initial(start, window), events, window), window)
  {
    hide Due, Step;
    if events == [] {
      InitiallyDue(start, window);
    } else {
      RunKeepsDue(start, events[..|events| - 1], window);
      StepKeepsDue(Run(Initial(start, window), events[..|events| - 1], window), events[|events| - 1], window);
    }
  }

  lemma InitiallyDue(start: Instant, window: int)
    ensures Due(Initial(start, window), window)
  {
  }

  /** Some acceptance of `id` began less than a window before `now`. */
  ghost predicate AcceptedWithin(log: seq<Entry>, id: SignatureId, window: int, now: Instant) {
    exists i :: 0 <= i < |log| && log[i].id == id && log[i].read + window > now
  }

  /** What a check answers in any reachable state. An acceptance is recorded as what it is. A poisoned map accepts nothing,
      and neither does one whose signature was accepted less than a window before the check; and what is refused on a sound
      map was accepted less than a window before the clock reading its call began with. */
  lemma ChecksExplained(start: Instant, events: seq<Event>, window: int, call: nat)
    requires window > 0 && PhaseOf(Run(Initial(start, window), events, window), call).Pruned?
    ensures
      var s := Run(Initial(start, window), events, window);
      var s' := Run(Initial(start, window), events + [Check(call)], window);
      var Pruned(id, now) := PhaseOf(s, call);
      && now <= s.clock
      && (s'.log == s.log || (s'.log == s.log + [Entry(id, now, s.clock)]))
      && (s.seenPoisoned || AcceptedWithin(s.log, id, window, s.clock) ==> s'.log == s.log)
      && (s'.log == s.log ==> s.seenPoisoned || AcceptedWithin(s.log, id, window, now))
  {
    RunKeepsInv(start, events, window);
    RunKeepsDue(start, events, window);
    RunOne(Initial(start, window), events, Check(call), window);
    CheckExplained(Run(Initial(start, window), events, window), call, window);
  }

  lemma CheckExplained(s: State, call: nat, window: int)
    requires window > 0 && PhaseOf(s, call).Pruned? && Inv(s, window) && Due(s, window)
    ensures
      var s' := Step(s, Check(call), window);
      var Pruned(id, now) := PhaseOf(s, call);
      && now <= s.clock
      && (s'.log == s.log || (s'.log == s.log + [Entry(id, now, s.clock)]))
      && (s.seenPoisoned || AcceptedWithin(s.log, id, window, s.clock) ==> s'.log == s.log)
      && (s'.log == s.log ==> s.seenPoisoned || AcceptedWithin(s.log, id, window, now))
  {
  }

  // ── Sharpness ──────────────────────────────────────────────────────────────

  function WholeCall(call: nat, id: SignatureId): seq<Event> {
    [Enter(call, id), Measure(call), Decide(call), Sweep(call), Check(call)]
  }

  /** From insertion to insertion there is no such bound: a call that read the clock early and checked
      late is remembered for less than a window, here for no time at all. */
  lemma StaleReadersInsertTogether(window: int, id: SignatureId, other: SignatureId)
    requires window >= 4 && id != other
    ensures exists events ::
      var log := Run(Initial(0, window), events, window).log;
      |log| == 4 && log[2].id == log[3].id == id && log[2].inserted == log[3].inserted
  {
    hide Run, Step;
    var s0 := Initial(0, window);
    // Call 1 is accepted at 0. Call 2 reads the clock at 0 and stalls before its check.
    var e1 := WholeCall(1, id) + [Enter(2, id), Measure(2), Decide(2), Tick(window)];
    var s1 := s0.(clock := window, seen := map[id := window], log := [Entry(id, 0, 0)],
                  calls := map[1 := Idle, 2 := Pruned(id, 0)]);
    assert Run(s0, e1, window) == s1 by {
      RunFirst(s0, id, window);
    }
    // Call 3, for another signature, sweeps the expired entry away at `window`.
    var e2 := WholeCall(3, other);
    var s2 := s1.(seen := map[other := 2 * window], log := s1.log + [Entry(other, window, window)],
                  next := window + window / 4, calls := s1.calls[3 := Idle]);
    assert Run(s1, e2, window) == s2 by {
      RunSecond(s1, other, window);
    }
    // Call 2 resumes and is accepted with its stale reading; call 4 is accepted in the same instant.
    var e3 := [Check(2)] + WholeCall(4, id);
    RunThird(s2, id, window);
    RunAppend(s0, e1, e2, window);
    RunAppend(s0, e1 + e2, e3, window);
    var events := e1 + e2 + e3;
    var log := Run(s0, events, window).log;
    assert |log| == 4 && log[2].id == log[3].id == id && log[2].inserted == log[3].inserted;
  }

  lemma {:induction false} RunAppend(s: State, a: seq<Event>, b: seq<Event>, window: int)
    ensures Run(s, a + b, window) == Run(Run(s, a, window), b, window)
    decreases |b|
  {
    if b == [] {
      assert a + b == a;
    } else {
      var front := b[..|b| - 1];
      assert (a + b)[..|a + b| - 1] == a + front;
      RunAppend(s, a, front, window);
    }
  }

  lemma RunOne(s: State, a: seq<Event>, e: Event, window: int)
    ensures Run(s, a + [e], window) == Step(Run(s, a, window), e, window)
  {
    assert (a + [e])[..|a|] == a;
  }

  lemma RunFour(s: State, a: Event, b: Event, c: Event, d: Event, window: int)
    ensures Run(s, [a, b, c, d], window) == Step(Step(Step(Step(s, a, window), b, window), c, window), d, window)
  {
    hide Step;
    RunOne(s, [], a, window);
    RunOne(s, [a], b, window);
    RunOne(s, [a, b], c, window);
    RunOne(s, [a, b, c], d, window);
    assert [] + [a] == [a] && [a] + [b] == [a, b] && [a, b] + [c] == [a, b, c] && [a, b, c] + [d] == [a, b, c, d];
  }

  /** The five steps of one call, one after the other. */
  lemma RunWholeCall(s: State, call: nat, id: SignatureId, window: int)
    ensures Run(s, WholeCall(call, id), window)
         == Step(Step(Step(Step(Step(s, Enter(call, id), window), Measure(call), window), Decide(call), window),
                      Sweep(call), window), Check(call), window)
  {
    hide Step;
    var four := [Enter(call, id), Measure(call), Decide(call), Sweep(call)];
    RunFour(s, Enter(call, id), Measure(call), Decide(call), Sweep(call), window);
    RunOne(s, four, Check(call), window);
    assert four + [Check(call)] == WholeCall(call, id);
  }

  /** An uninterrupted call for a signature the map does not hold, on a small map: it sweeps when the
      routine interval is over, and is accepted. */
  lemma FreshCall(s: State, call: nat, id: SignatureId, window: int)
    requires PhaseOf(s, call).Idle? && !s.seenPoisoned && !s.schedulePoisoned && |s.seen| < MAX_TRACKED_SIGNATURES
    requires var kept := if s.clock >= s.next then Retained(s.seen, s.clock) else s.seen;
             !(id in kept && kept[id] > s.clock)
    ensures
      var kept := if s.clock >= s.next then Retained(s.seen, s.clock) else s.seen;
      Run(s, WholeCall(call, id), window)
      == s.(seen := kept[id := s.clock + window], log := s.log + [Entry(id, s.clock, s.clock)],
            next := if s.clock >= s.next then s.clock + window / PRUNE_INTERVAL_DIVISOR else s.next,
            calls := s.calls[call := Idle])
  {
    RunWholeCall(s, call, id, window);
    hide Run, Retained, Step;
    EnterAndMeasure(s, call, id, window);
    var s2 := Move(s, call, Measured(id, s.clock, false));
    if s.clock >= s.next {
      var swept := s.(next := s.clock + window / PRUNE_INTERVAL_DIVISOR, seen := Retained(s.seen, s.clock));
      DecideAndSweep(s, s2, call, id, window);
      CheckAccepts(swept, call, id, window);
    } else {
      DecideNotDue(s, s2, call, id, window);
      CheckAccepts(s, call, id, window);
    }
  }

  lemma EnterAndMeasure(s: State, call: nat, id: SignatureId, window: int)
    requires PhaseOf(s, call).Idle? && |s.seen| < MAX_TRACKED_SIGNATURES
    ensures Step(Step(s, Enter(call, id), window), Measure(call), window) == Move(s, call, Measured(id, s.clock, false))
  {
    assert Step(s, Enter(call, id), window) == Move(s, call, Entered(id, s.clock));
  }

  lemma DecideNotDue(s: State, s2: State, call: nat, id: SignatureId, window: int)
    requires s2 == Move(s, call, Measured(id, s.clock, false)) && s.clock < s.next
    ensures Step(Step(s2, Decide(call), window), Sweep(call), window) == Move(s, call, Pruned(id, s.clock))
  {
    assert Step(s2, Decide(call), window) == Move(s, call, Pruned(id, s.clock));
  }

  lemma DecideAndSweep(s: State, s2: State, call: nat, id: SignatureId, window: int)
    requires s2 == Move(s, call, Measured(id, s.clock, false))
    requires s.clock >= s.next && !s.schedulePoisoned && !s.seenPoisoned
    ensures Step(Step(s2, Decide(call), window), Sweep(call), window)
         == Move(s.(next := s.clock + window / PRUNE_INTERVAL_DIVISOR, seen := Retained(s.seen, s.clock)),
                 call, Pruned(id, s.clock))
  {
    assert Step(s2, Decide(call), window)
        == Move(s.(next := s.clock + window / PRUNE_INTERVAL_DIVISOR), call, Sweeping(id, s.clock));
  }

  lemma CheckAccepts(s: State, call: nat, id: SignatureId, window: int)
    requires !s.seenPoisoned && !(id in s.seen && s.seen[id] > s.clock)
    ensures Step(Move(s, call, Pruned(id, s.clock)), Check(call), window)
         == s.(seen := s.seen[id := s.clock + window], log := s.log + [Entry(id, s.clock, s.clock)],
               calls := s.calls[call := Idle])
  {
  }

  lemma RunFirst(s0: State, id: SignatureId, window: int)
    requires window >= 4 && s0 == Initial(0, window)
    ensures Run(s0, WholeCall(1, id) + [Enter(2, id), Measure(2), Decide(2), Tick(window)], window)
         == s0.(clock := window, seen := map[id := window], log := [Entry(id, 0, 0)],
                calls := map[1 := Idle, 2 := Pruned(id, 0)])
  {
    hide Run, Step;
    var s := s0.(seen := map[id := window], log := [Entry(id, 0, 0)], calls := map[1 := Idle]);
    FirstCall(s0, id, window);
    RunAppend(s0, WholeCall(1, id), [Enter(2, id), Measure(2), Decide(2), Tick(window)], window);
    RunFour(s, Enter(2, id), Measure(2), Decide(2), Tick(window), window);
    EnterAndMeasure(s, 2, id, window);
    StallsAtDecide(s, Move(s, 2, Measured(id, 0, false)), 2, id, window);
    assert Move(s.(clock := window), 2, Pruned(id, 0)).calls == map[1 := Idle, 2 := Pruned(id, 0)];
  }

  lemma FirstCall(s0: State, id: SignatureId, window: int)
    requires window >= 4 && s0 == Initial(0, window)
    ensures Run(s0, WholeCall(1, id), window)
         == s0.(seen := map[id := window], log := [Entry(id, 0, 0)], calls := map[1 := Idle])
  {
    hide Run, Step;
    assert s0.clock < s0.next;
    FreshCall(s0, 1, id, window);
  }

  /** Time passes between a call's schedule decision and its check. */
  lemma StallsAtDecide(s: State, s2: State, call: nat, id: SignatureId, to: Instant)
    requires s2 == Move(s, call, Measured(id, s.clock, false)) && s.clock < s.next && to >= s.clock
    ensures Step(Step(s2, Decide(call), to), Tick(to), to) == Move(s.(clock := to), call, Pruned(id, s.clock))
  {
    assert Step(s2, Decide(call), to) == Move(s, call, Pruned(id, s.clock));
  }

  lemma RunSecond(s1: State, other: SignatureId, window: int)
    requires window >= 4 && s1.clock == window && s1.next <= window && !s1.seenPoisoned && !s1.schedulePoisoned
    requires 3 !in s1.calls && |s1.seen| == 1 && forall id :: id in s1.seen ==> s1.seen[id] == window
    ensures Run(s1, WholeCall(3, other), window)
         == s1.(seen := map[other := 2 * window], log := s1.log + [Entry(other, window, window)],
                next := window + window / 4, calls := s1.calls[3 := Idle])
  {
    assert Retained(s1.seen, window) == map[];
    FreshCall(s1, 3, other, window);
  }

  lemma RunThird(s2: State, id: SignatureId, window: int)
    requires window >= 4 && s2.clock == window && window < s2.next && !s2.seenPoisoned && !s2.schedulePoisoned
    requires PhaseOf(s2, 2) == Pruned(id, 0) && 4 !in s2.calls && id !in s2.seen && |s2.seen| == 1
    ensures Run(s2, [Check(2)] + WholeCall(4, id), window).log
         == s2.log + [Entry(id, 0, window), Entry(id, window, window)]
  {
    RunAppend(s2, [Check(2)], WholeCall(4, id), window);
    RunOne(s2, [], Check(2), window);
    assert [] + [Check(2)] == [Check(2)];
    var s := Step(s2, Check(2), window);
    assert s.log == s2.log + [Entry(id, 0, window)] && s.seen[id] == window && |s.seen| == 2;
    FreshCall(s, 4, id, window);
  }
}
