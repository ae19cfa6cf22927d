/**
 The single-use guard for signatures: a map that is pruned on a schedule, explained by the log of
 every acceptance, which nothing ever prunes.

 Instants are whole nanoseconds of the process's monotonic clock; each operation receives its reading.
 A lock that a panicking holder poisoned is a flag.
 */
module Replay {

  type Instant = int

  const NANOS_PER_SECOND := 1_000_000_000
  const PRUNE_INTERVAL_DIVISOR := 4
  const CAPACITY_BACKOFF_DIVISOR := 16
  const MAX_TRACKED_SIGNATURES := 250_000

  datatype SignatureId = SignatureId(keyId: nat, digest: string)

  /** One acceptance: which signature, and the clock reading it was decided on. */
  datatype Acceptance = Acceptance(id: SignatureId, at: Instant)

  function Clamp(x: int, lo: int, hi: int): int
    requires lo <= hi
  {
    if x < lo then lo else if x > hi then hi else x
  }

  /** `window_seconds.clamp(1, 3600)`, in nanoseconds. */
  function Window(windowSeconds: int): int {
    Clamp(windowSeconds, 1, 3600) * NANOS_PER_SECOND
  }

  /** What a guard that never forgets an acceptance answers: the signature was accepted less than one
      window ago. */
  ghost predicate Remembered(log: seq<Acceptance>, id: SignatureId, window: int, now: Instant) {
    exists i :: 0 <= i < |log| && log[i].id == id && log[i].at + window > now
  }

  /** `retain(|_, expires_at| *expires_at > now)` */
  function Retained(seen: map<SignatureId, Instant>, now: Instant): map<SignatureId, Instant> {
    map id | id in seen && seen[id] > now :: seen[id]
  }

  /** Every acceptance is either a window old or still in the map, expiring no earlier than its due;
      and every entry of the map is due to some acceptance. */
  ghost predicate Explained(seen: map<SignatureId, Instant>, log: seq<Acceptance>, window: int, now: Instant) {
    && (forall i :: 0 <= i < |log| ==>
          log[i].at + window <= now || (log[i].id in seen && seen[log[i].id] >= log[i].at + window))
    && (forall id :: id in seen ==> exists i :: 0 <= i < |log| && log[i].id == id && log[i].at + window == seen[id])
  }

  /** The map, read at `now`, gives the answer of the log. */
  lemma ExplainedAnswers(seen: map<SignatureId, Instant>, log: seq<Acceptance>, window: int, earlier: Instant,
                         now: Instant, id: SignatureId)
    requires Explained(seen, log, window, earlier) && earlier <= now
    ensures (id in seen && seen[id] > now) <==> Remembered(log, id, window, now)
  {
  }

  lemma ExplainedLater(seen: map<SignatureId, Instant>, log: seq<Acceptance>, window: int, earlier: Instant,
                       now: Instant)
    requires Explained(seen, log, window, earlier) && earlier <= now
    ensures Explained(seen, log, window, now)
  {
  }

  lemma ExplainedAfterRetain(seen: map<SignatureId, Instant>, log: seq<Acceptance>, window: int, earlier: Instant,
                             now: Instant)
    requires Explained(seen, log, window, earlier) && earlier <= now
    ensures Explained(Retained(seen, now), log, window, now)
  {
  }

  lemma ExplainedAfterInsert(seen: map<SignatureId, Instant>, log: seq<Acceptance>, window: int,
                             now: Instant, id: SignatureId)
    requires Explained(seen, log, window, now) && window > 0
    requires !(id in seen && seen[id] > now)
    ensures Explained(seen[id := now + window], log + [Acceptance(id, now)], window, now)
  {
    var seen', log' := seen[id := now + window], log + [Acceptance(id, now)];
    forall k | k in seen'
      ensures exists i :: 0 <= i < |log'| && log'[i].id == k && log'[i].at + window == seen'[k]
    {
      if k == id {
        assert log'[|log|] == Acceptance(id, now);
      } else {
        var i :| 0 <= i < |log| && log[i].id == k && log[i].at + window == seen[k];
        assert log'[i] == log[i];
      }
    }
  }

  // ── Spacing of instants ────────────────────────────────────────────────────

  /** Each instant is at least `gap` after the one before it. */
  ghost predicate Spaced(times: seq<Instant>, gap: int) {
    forall i :: 0 <= i < |times| - 1 ==> times[i + 1] >= times[i] + gap
  }

  function CountIn(times: seq<Instant>, lo: Instant, hi: Instant): nat {
    if times == [] then 0
    else CountIn(times[..|times| - 1], lo, hi) + (if lo <= times[|times| - 1] <= hi then 1 else 0)
  }

  /** Instants `gap` apart: at most floor(T / gap) + 1 of them in any closed span of length T. */
  lemma SpacedCount(times: seq<Instant>, gap: int, lo: Instant, hi: Instant)
    requires gap > 0 && Spaced(times, gap) && lo <= hi
    ensures CountIn(times, lo, hi) <= (hi - lo) / gap + 1
  {
    SpacedExtent(times, gap, lo, hi);
    if CountIn(times, lo, hi) > 0 {
      QuotientBound(CountIn(times, lo, hi) - 1, hi - lo, gap);
    }
  }

  lemma {:induction false} SpacedExtent(times: seq<Instant>, gap: int, lo: Instant, hi: Instant)
    requires gap > 0 && Spaced(times, gap)
    ensures CountIn(times, lo, hi) == 0 || gap * (CountIn(times, lo, hi) - 1) <= hi - lo
    decreases |times|
  {
    if times != [] {
      var last, front := times[|times| - 1], times[..|times| - 1];
      assert Spaced(front, gap) by {
        forall i | 0 <= i < |front| - 1 ensures front[i + 1] >= front[i] + gap {
          assert times[i + 1] >= times[i] + gap;
        }
      }
      if last < lo || last > hi {
        SpacedExtent(front, gap, lo, hi);
      } else {
        var c := CountIn(front, lo, last - gap);
        SpacedBefore(front, gap, times);
        SpacedExtent(front, gap, lo, last - gap);
        CountCut(front, lo, hi, last - gap);
        assert c > 0 ==> gap * (c - 1) + gap == gap * c;
      }
    }
  }

  lemma QuotientBound(k: int, x: int, d: int)
    requires d > 0 && d * k <= x
    ensures k <= x / d
  {
    var q := x / d;
    assert x == d * q + x % d;
    assert d * (k - q) < d;
    Product(d, k - q);
  }

  lemma Product(d: int, k: int)
    requires d > 0
    ensures k >= 1 ==> d * k >= d
  {
  }

  lemma {:induction false} SpacedBefore(front: seq<Instant>, gap: int, times: seq<Instant>)
    requires gap > 0 && Spaced(times, gap) && times != [] && front == times[..|times| - 1]
    ensures forall i :: 0 <= i < |front| ==> front[i] <= times[|times| - 1] - gap
    decreases |times|
  {
    if front != [] {
      assert times[|front|] >= times[|front| - 1] + gap;
      var shorter := times[..|front|];
      assert Spaced(shorter, gap);
      SpacedBefore(front[..|front| - 1], gap, shorter);
    }
  }

  lemma CountCut(times: seq<Instant>, lo: Instant, hi: Instant, bound: Instant)
    requires bound <= hi && forall i :: 0 <= i < |times| ==> times[i] <= bound
    ensures CountIn(times, lo, hi) == CountIn(times, lo, bound)
  {
  }

  lemma CountSnoc(times: seq<Instant>, t: Instant, lo: Instant, hi: Instant)
    ensures CountIn(times + [t], lo, hi) == CountIn(times, lo, hi) + (if lo <= t <= hi then 1 else 0)
  {
    assert (times + [t])[..|times|] == times;
  }

  // ── The sweep schedule ─────────────────────────────────────────────────────

  /** Clock readings of the sweeps that were due by the routine interval, of those due by capacity (a
      sweep can be both), and of all sweeps. */
  datatype Sweeps = Sweeps(routine: seq<Instant>, capacity: seq<Instant>, all: seq<Instant>)

  function Recorded(s: Sweeps, now: Instant, routineDue: bool, capacityDue: bool): Sweeps {
    Sweeps(if routineDue then s.routine + [now] else s.routine,
           if capacityDue then s.capacity + [now] else s.capacity,
           s.all + [now])
  }

  ghost predicate SpacedUntil(times: seq<Instant>, gap: int, next: Instant) {
    Spaced(times, gap) && (times != [] ==> times[|times| - 1] + gap <= next)
  }

  ghost predicate Scheduled(s: Sweeps, interval: int, backoff: int, next: Instant, nextCapacity: Instant) {
    && SpacedUntil(s.routine, interval, next)
    && SpacedUntil(s.capacity, backoff, nextCapacity)
    && forall lo, hi :: CountIn(s.all, lo, hi) <= CountIn(s.routine, lo, hi) + CountIn(s.capacity, lo, hi)
  }

  lemma SpacedUntilSnoc(times: seq<Instant>, gap: int, next: Instant, now: Instant)
    requires SpacedUntil(times, gap, next) && next <= now
    ensures SpacedUntil(times + [now], gap, now + gap)
  {
  }

  lemma ScheduledAfterSweep(s: Sweeps, interval: int, backoff: int, next: Instant, nextCapacity: Instant,
                            now: Instant, routineDue: bool, capacityDue: bool)
    requires Scheduled(s, interval, backoff, next, nextCapacity)
    requires next <= now + interval && (routineDue || capacityDue)
    requires routineDue ==> now >= next
    requires capacityDue ==> now >= nextCapacity
    ensures Scheduled(Recorded(s, now, routineDue, capacityDue), interval, backoff, now + interval,
                      if capacityDue then now + backoff else nextCapacity)
  {
    var r := Recorded(s, now, routineDue, capacityDue);
    if routineDue {
      SpacedUntilSnoc(s.routine, interval, next, now);
    }
    if capacityDue {
      SpacedUntilSnoc(s.capacity, backoff, nextCapacity, now);
    }
    forall lo, hi ensures CountIn(r.all, lo, hi) <= CountIn(r.routine, lo, hi) + CountIn(r.capacity, lo, hi) {
      CountSnoc(s.all, now, lo, hi);
      CountSnoc(s.routine, now, lo, hi);
      CountSnoc(s.capacity, now, lo, hi);
      assert CountIn(s.all, lo, hi) <= CountIn(s.routine, lo, hi) + CountIn(s.capacity, lo, hi);
    }
  }

  /** In any closed span T the sweeps number at most floor(T / interval) + floor(T / backoff) + 2. */
  lemma ScheduledCost(s: Sweeps, interval: int, backoff: int, next: Instant, nextCapacity: Instant,
                      lo: Instant, hi: Instant)
    requires Scheduled(s, interval, backoff, next, nextCapacity)
    requires interval > 0 && backoff > 0 && lo <= hi
    ensures CountIn(s.all, lo, hi) <= (hi - lo) / interval + (hi - lo) / backoff + 2
  {
    SpacedCount(s.routine, interval, lo, hi);
    SpacedCount(s.capacity, backoff, lo, hi);
    assert CountIn(s.all, lo, hi) <= CountIn(s.routine, lo, hi) + CountIn(s.capacity, lo, hi);
  }

  /** Every entry stays remembered beyond `bound`. */
  ghost predicate ExpiresAfter(seen: map<SignatureId, Instant>, bound: Instant) {
    forall id :: id in seen ==> seen[id] > bound
  }

  // ── The guard ──────────────────────────────────────────────────────────────

  class ReplayGuard {
    /** Accepted signatures mapped to the instant they stop being remembered. */
    var seen: map<SignatureId, Instant>
    /** Next routine sweep, and the earliest next capacity-triggered one. */
    var next: Instant
    var nextCapacity: Instant
    var seenPoisoned: bool
    var schedulePoisoned: bool
    const window: int
    const pruneInterval: int
    const capacityBackoff: int

    /** Every acceptance since the guard was built. */
    ghost var log: seq<Acceptance>
    ghost var sweeps: Sweeps
    /** The latest clock reading. */
    ghost var clock: Instant

    ghost predicate Valid()
      reads this
    {
      && window > 0 && window == 4 * pruneInterval && window == 16 * capacityBackoff
      && Explained(seen, log, window, clock)
      && Scheduled(sweeps, pruneInterval, capacityBackoff, next, nextCapacity)
      && next <= clock + pruneInterval
      && (!seenPoisoned && !schedulePoisoned ==> ExpiresAfter(seen, next - pruneInterval))
    }

    constructor (windowSeconds: int, now: Instant)
      ensures Valid() && window == Window(windowSeconds) && clock == now
      ensures seen == map[] && log == [] && sweeps == Sweeps([], [], []) && !seenPoisoned && !schedulePoisoned
      ensures next == now + pruneInterval && nextCapacity == now
      ensures window == 1_000_000_000 * (if windowSeconds < 1 then 1 else if windowSeconds > 3_600 then 3_600 else windowSeconds)
    {
      window := Window(windowSeconds);
      pruneInterval := Window(windowSeconds) / PRUNE_INTERVAL_DIVISOR;
      capacityBackoff := Window(windowSeconds) / CAPACITY_BACKOFF_DIVISOR;
      seen := map[];
      next := now + Window(windowSeconds) / PRUNE_INTERVAL_DIVISOR;
      nextCapacity := now;
      seenPoisoned, schedulePoisoned := false, false;
      log, sweeps, clock := [], Sweeps([], [], []), now;
    }

    /** Sequential calls answer exactly as a guard that never prunes, whatever the schedule and the
        capacity make it drop; a poisoned map lock refuses everything. Afterwards every tracked entry
        was accepted less than a window and a quarter ago. */
    method CheckAndRecord(now: Instant, keyId: nat, digest: string) returns (accepted: bool)
      requires Valid() && now >= clock
      modifies this
      ensures Valid() && clock == now
      ensures accepted <==> !seenPoisoned && !Remembered(old(log), SignatureId(keyId, digest), window, now)
      ensures log == if accepted then old(log) + [Acceptance(SignatureId(keyId, digest), now)] else old(log)
      ensures !seenPoisoned && !schedulePoisoned ==> ExpiresAfter(seen, now - window / 4)
      ensures seenPoisoned == old(seenPoisoned) && schedulePoisoned == old(schedulePoisoned)
    {
      hide Explained, Scheduled, Remembered;
      PruneIfDue(now);
      if seenPoisoned {
        return false;
      }
      var id := SignatureId(keyId, digest);
      ExplainedAnswers(seen, log, window, now, now, id);
      if id in seen && seen[id] > now {
        accepted := false;
      } else {
        ExplainedAfterInsert(seen, log, window, now, id);
        log := log + [Acceptance(id, now)];
        seen := seen[id := now + window];
        accepted := true;
      }
    }

    /** Drops the expired entries, and no others, when a sweep is due: a quarter window after the last, or sooner, with
        250,000 entries tracked and a sixteenth of a window after the last such sweep. The log keeps them. */
    method PruneIfDue(now: Instant)
      requires Valid() && now >= clock
      modifies this
      ensures
        var crowded := !old(seenPoisoned) && |old(seen)| >= 250_000 && now >= old(nextCapacity);
        var due := !old(schedulePoisoned) && (now >= old(next) || crowded);
        && next == (if due then now + window / 4 else old(next))
        && nextCapacity == (if due && crowded then now + window / 16 else old(nextCapacity))
        && (if due && !seenPoisoned then
              forall id :: (id in seen <==> id in old(seen) && old(seen)[id] > now) && (id in seen ==> seen[id] == old(seen)[id])
            else seen == old(seen))
      ensures Valid() && clock == now && log == old(log)
      ensures seen == old(seen) || (seen == Retained(old(seen), now) && sweeps.all == old(sweeps.all) + [now])
      ensures !schedulePoisoned ==> now < next
      ensures seenPoisoned == old(seenPoisoned) && schedulePoisoned == old(schedulePoisoned)
    {
      hide Explained, Scheduled;
      var overCapacity := !seenPoisoned && |seen| >= MAX_TRACKED_SIGNATURES;
      ExplainedLater(seen, log, window, clock, now);
      clock := now;
      if schedulePoisoned {
        return;
      }
      var routineDue := now >= next;
      var capacityDue := overCapacity && now >= nextCapacity;
      if !routineDue && !capacityDue {
        return;
      }
      ScheduledAfterSweep(sweeps, pruneInterval, capacityBackoff, next, nextCapacity, now, routineDue, capacityDue);
      sweeps := Recorded(sweeps, now, routineDue, capacityDue);
      next := now + pruneInterval;
      if capacityDue {
        nextCapacity := now + capacityBackoff;
      }
      if seenPoisoned {
        return;
      }
      ExplainedAfterRetain(seen, log, window, now, now);
      seen := Retained(seen, now);
    }

    /** In any span T the full sweeps number at most floor(T / (window/4)) + floor(T / (window/16)) + 2,
        saturated or not. */
    lemma SweepCost(lo: Instant, hi: Instant)
      requires Valid() && lo <= hi
      ensures CountIn(sweeps.all, lo, hi) <= (hi - lo) / (window / 4) + (hi - lo) / (window / 16) + 2
    {
      hide Explained, Scheduled;
      assert window / 4 == pruneInterval && window / 16 == capacityBackoff;
      ScheduledCost(sweeps, pruneInterval, capacityBackoff, next, nextCapacity, lo, hi);
    }
  }
}
