/**
 Per-key execution budgets: a map of semaphores, replaced when a key's budget is edited. First the object
 itself, then the protocol of any number of requests, each looking up a semaphore, trying to acquire it
 and dropping its permit as separate steps.
 */
module ConcurrencyLimiter {

  type Id = nat

  /** `max_concurrent_jobs.max(1)` */
  function Permits(maxConcurrentJobs: int): (p: nat)
    ensures p >= 1
  {
    if maxConcurrentJobs < 1 then 1 else maxConcurrentJobs
  }

  class Semaphore {
    const permits: nat
    var available: nat

    constructor (permits: nat)
      ensures this.permits == permits && available == permits
    {
      this.permits, available := permits, permits;
    }

    method TryAcquire() returns (ok: bool)
      modifies this
      ensures ok <==> old(available) > 0
      ensures available == if ok then old(available) - 1 else old(available)
    {
      ok := available > 0;
      if ok {
        available := available - 1;
      }
    }

    /** Dropping a permit. */
    method Release()
      modifies this
      ensures available == old(available) + 1
    {
      available := available + 1;
    }
  }

  datatype KeyBudget = KeyBudget(permits: nat, semaphore: Semaphore)

  class ConcurrencyLimiter {
    var budgets: map<Id, KeyBudget>

    ghost predicate Valid()
      reads this
    {
      forall k :: k in budgets ==> budgets[k].permits >= 1 && budgets[k].semaphore.permits == budgets[k].permits
    }

    constructor ()
      ensures Valid() && budgets == map[]
    {
      budgets := map[];
    }

    /** The locked section: an unchanged budget keeps its semaphore, a new or edited one gets a fresh
        semaphore with all its permits free; no other key is touched. */
    method Lookup(key: Id, maxConcurrentJobs: int) returns (semaphore: Semaphore)
      requires Valid()
      modifies this
      ensures Valid() && key in budgets && budgets[key] == KeyBudget(Permits(maxConcurrentJobs), semaphore)
      ensures semaphore.permits == if maxConcurrentJobs >= 1 then maxConcurrentJobs else 1
      ensures budgets == old(budgets)[key := budgets[key]]
      ensures if key in old(budgets) && old(budgets[key].permits) == Permits(maxConcurrentJobs)
              then semaphore == old(budgets[key].semaphore)
              else fresh(semaphore) && semaphore.available == semaphore.permits == Permits(maxConcurrentJobs)
    {
      var permits := Permits(maxConcurrentJobs);
      if key !in budgets {
        var s := new Semaphore(permits);
        budgets := budgets[key := KeyBudget(permits, s)];
      } else if budgets[key].permits != permits {
        var s := new Semaphore(permits);
        budgets := budgets[key := KeyBudget(permits, s)];
      }
      semaphore := budgets[key].semaphore;
    }
  }
}

module LimiterProtocol {
  import opened ConcurrencyLimiter

  datatype Pool = Pool(key: Id, permits: nat, available: nat)

  datatype Budget = Budget(permits: nat, pool: nat)

  /** A request holds nothing, a handle to a semaphore, or a permit of one for the lifetime of its job. */
  datatype Phase = Idle | Holding(pool: nat) | Running(pool: nat)

  datatype State = State(budgets: map<Id, Budget>, pools: seq<Pool>, requests: map<nat, Phase>)

  datatype Event =
    | Lookup(request: nat, key: Id, maxConcurrentJobs: int)
    | Acquire(request: nat)
    | Drop(request: nat)

  function PhaseOf(s: State, r: nat): Phase {
    if r in s.requests then s.requests[r] else Idle
  }

  /** Whether a lookup replaces (or first creates) the key's budget. */
  predicate Edits(s: State, key: Id, maxConcurrentJobs: int) {
    key !in s.budgets || s.budgets[key].permits != Permits(maxConcurrentJobs)
  }

  function Step(s: State, e: Event): State {
    match e
    case Lookup(r, key, jobs) =>
      if !PhaseOf(s, r).Idle? then s
      else if Edits(s, key, jobs) then
        State(s.budgets[key := Budget(Permits(jobs), |s.pools|)],
              s.pools + [Pool(key, Permits(jobs), Permits(jobs))],
              s.requests[r := Holding(|s.pools|)])
      else s.(requests := s.requests[r := Holding(s.budgets[key].pool)])
    case Acquire(r) =>
      (match PhaseOf(s, r)
       case Holding(p) =>
         if p < |s.pools| && s.pools[p].available > 0
         then s.(pools := s.pools[p := s.pools[p].(available := s.pools[p].available - 1)],
                 requests := s.requests[r := Running(p)])
         else s.(requests := s.requests[r := Idle])
       case _ => s)
    case Drop(r) =>
      (match PhaseOf(s, r)
       case Running(p) =>
         if p < |s.pools|
         then s.(pools := s.pools[p := s.pools[p].(available := s.pools[p].available + 1)],
                 requests := s.requests[r := Idle])
         else s
       case _ => s)
  }

  function Run(s: State, events: seq<Event>): State {
    if events == [] then s else Step(Run(s, events[..|events| - 1]), events[|events| - 1])
  }

  const INITIAL := State(map[], [], map[])

  function HoldersOf(requests: map<nat, Phase>, p: nat): set<nat> {
    set r | r in requests && requests[r] == Running(p)
  }

  /** The requests whose jobs hold a permit of pool `p`. */
  function Holders(s: State, p: nat): set<nat> {
    HoldersOf(s.requests, p)
  }

  /** The requests whose jobs run for `key`, whichever semaphore admitted them. */
  function InFlight(s: State, key: Id): set<nat> {
    set r | r in s.requests && s.requests[r].Running? && s.requests[r].pool < |s.pools|
            && s.pools[s.requests[r].pool].key == key
  }

  ghost predicate Conserved(s: State, p: nat)
    requires p < |s.pools|
  {
    s.pools[p].available + |Holders(s, p)| == s.pools[p].permits
  }

  ghost predicate Inv(s: State) {
    && (forall r :: r in s.requests && !s.requests[r].Idle? ==> s.requests[r].pool < |s.pools|)
    && (forall k :: k in s.budgets ==>
          s.budgets[k].pool < |s.pools| && s.pools[s.budgets[k].pool].key == k
          && s.pools[s.budgets[k].pool].permits == s.budgets[k].permits >= 1)
    && (forall p :: 0 <= p < |s.pools| ==> s.pools[p].permits >= 1)
    && (forall p :: 0 <= p < |s.pools| ==> Conserved(s, p))
  }

  /** Changing one request's phase adds or removes at most that request. */
  lemma HoldersAfter(requests: map<nat, Phase>, r: nat, phase: Phase, p: nat)
    ensures
      var was := if r in requests && requests[r] == Running(p) then 1 else 0;
      var now := if phase == Running(p) then 1 else 0;
      |HoldersOf(requests[r := phase], p)| == |HoldersOf(requests, p)| - was + now
  {
    var before, after := HoldersOf(requests, p), HoldersOf(requests[r := phase], p);
    assert before - {r} == after - {r};
    assert before == (if r in requests && requests[r] == Running(p) then (before - {r}) + {r} else before - {r});
    assert after == (if phase == Running(p) then (after - {r}) + {r} else after - {r});
  }

  lemma StepKeepsInv(s: State, e: Event)
    requires Inv(s)
    ensures Inv(Step(s, e))
  {
    var s' := Step(s, e);
    forall p | 0 <= p < |s'.pools| ensures Conserved(s', p) {
      StepConserves(s, e, p);
    }
  }

  lemma StepConserves(s: State, e: Event, p: nat)
    requires Inv(s) && p < |Step(s, e).pools|
    ensures Conserved(Step(s, e), p)
  {
    hide HoldersOf;
    var r, phase := e.request, PhaseOf(Step(s, e), e.request);
    HoldersAfter(s.requests, r, phase, p);
    if p < |s.pools| {
      assert Conserved(s, p);
    } else {
      NoHolders(s, p);
    }
  }

  lemma NoHolders(s: State, p: nat)
    requires Inv(s) && p >= |s.pools|
    ensures Holders(s, p) == {}
  {
  }

  lemma {:induction false} RunKeepsInv(events: seq<Event>)
    ensures Inv(Run(INITIAL, events))
  {
    if events != [] {
      RunKeepsInv(events[..|events| - 1]);
      StepKeepsInv(Run(INITIAL, events[..|events| - 1]), events[|events| - 1]);
    }
  }

  /** In every reachable state each semaphore ever created accounts for all of its permits, and a request
      holding one is refused exactly when all of them are held. */
  lemma PermitsAreConserved(events: seq<Event>, p: nat, r: nat)
    requires p < |Run(INITIAL, events).pools|
    ensures
      var s := Run(INITIAL, events);
      && s.pools[p].available + |Holders(s, p)| == s.pools[p].permits
      && (PhaseOf(s, r) == Holding(p) ==>
            (PhaseOf(Step(s, Acquire(r)), r) == Idle <==> |Holders(s, p)| == s.pools[p].permits))
  {
    RunKeepsInv(events);
    assert Conserved(Run(INITIAL, events), p);
  }

  /** After a lookup the key's current semaphore has exactly the permits its record asks for, and at least one. */
  lemma LookupSetsTheBudget(events: seq<Event>, r: nat, key: Id, maxConcurrentJobs: int)
    requires PhaseOf(Run(INITIAL, events), r).Idle?
    ensures
      var s := Step(Run(INITIAL, events), Lookup(r, key, maxConcurrentJobs));
      && key in s.budgets && s.budgets[key].pool < |s.pools| && PhaseOf(s, r) == Holding(s.budgets[key].pool)
      && s.budgets[key].permits == s.pools[s.budgets[key].pool].permits
      && s.budgets[key].permits == if maxConcurrentJobs >= 1 then maxConcurrentJobs else 1
  {
    RunKeepsInv(events);
    StepKeepsInv(Run(INITIAL, events), Lookup(r, key, maxConcurrentJobs));
  }

  predicate OnBehalfOf(s: State, phase: Phase, key: Id) {
    !phase.Idle? && phase.pool < |s.pools| && s.pools[phase.pool].key == key
  }

  /** No job for `key` runs under a replaced semaphore, and no request still holds a handle to one. */
  ghost predicate Drained(s: State, key: Id) {
    key in s.budgets
    && forall r :: r in s.requests && OnBehalfOf(s, s.requests[r], key) ==> s.requests[r].pool == s.budgets[key].pool
  }

  /** Jobs admitted under the current semaphore never exceed the current budget, drained or not; the ones
      in excess were all admitted under a replaced one. */
  lemma CurrentPoolWithinBudget(events: seq<Event>, key: Id)
    requires key in Run(INITIAL, events).budgets
    ensures var s := Run(INITIAL, events); |Holders(s, s.budgets[key].pool)| <= s.budgets[key].permits
  {
    RunKeepsInv(events);
    var s := Run(INITIAL, events);
    assert Conserved(s, s.budgets[key].pool);
  }

  /** Once a key is drained it stays drained through every run that does not edit its budget, and its jobs
      in flight never exceed the current budget, which is at least one. */
  lemma {:induction false} DrainedKeyWithinBudget(before: seq<Event>, after: seq<Event>, key: Id)
    requires Drained(Run(INITIAL, before), key) && NoEdit(Run(INITIAL, before), after, key)
    ensures
      var s := Run(Run(INITIAL, before), after);
      && Drained(s, key) && s.budgets[key] == Run(INITIAL, before).budgets[key]
      && |InFlight(s, key)| <= s.budgets[key].permits && s.budgets[key].permits >= 1
    decreases |after|
  {
    hide Inv, Drained, InFlight, Step;
    var s0 := Run(INITIAL, before);
    if after == [] {
      RunKeepsInv(before);
    } else {
      var front, e := after[..|after| - 1], after[|after| - 1];
      DrainedKeyWithinBudget(before, front, key);
      RunAppend(INITIAL, before, front);
      RunKeepsInv(before + front);
      StepKeepsInv(Run(s0, front), e);
      DrainedStep(Run(s0, front), e, key);
    }
    DrainedIsWithin(Run(s0, after), key);
  }

  lemma DrainedIsWithin(s: State, key: Id)
    requires Inv(s) && Drained(s, key)
    ensures |InFlight(s, key)| <= s.budgets[key].permits && s.budgets[key].permits >= 1
  {
    assert InFlight(s, key) == Holders(s, s.budgets[key].pool);
    assert Conserved(s, s.budgets[key].pool);
  }

  /** No lookup along the run gives `key` a different budget. */
  ghost predicate NoEdit(s: State, events: seq<Event>, key: Id)
    decreases |events|
  {
    events != [] ==>
      var front, e := events[..|events| - 1], events[|events| - 1];
      NoEdit(s, front, key) && (e.Lookup? && e.key == key ==> !Edits(Run(s, front), key, e.maxConcurrentJobs))
  }

  lemma DrainedStep(s: State, e: Event, key: Id)
    requires Inv(s) && Drained(s, key)
    requires e.Lookup? && e.key == key ==> !Edits(s, key, e.maxConcurrentJobs)
    ensures Drained(Step(s, e), key) && Step(s, e).budgets[key] == s.budgets[key]
  {
  }

  lemma {:induction false} RunAppend(s: State, a: seq<Event>, b: seq<Event>)
    ensures Run(s, a + b) == Run(Run(s, a), b)
    decreases |b|
  {
    if b == [] {
      assert a + b == a;
    } else {
      assert (a + b)[..|a + b| - 1] == a + b[..|b| - 1];
      RunAppend(s, a, b[..|b| - 1]);
    }
  }

  // ── Undrained keys ─────────────────────────────────────────────────────────

  predicate WithinBudget(s: State, key: Id) {
    key in s.budgets && |InFlight(s, key)| <= s.budgets[key].permits
  }

  lemma {:induction false} NoEditAppend(s: State, a: seq<Event>, b: seq<Event>, key: Id)
    requires NoEdit(s, a, key) && NoEdit(Run(s, a), b, key)
    ensures NoEdit(s, a + b, key)
    decreases |b|
  {
    if b == [] {
      assert a + b == a;
    } else {
      var front := b[..|b| - 1];
      assert (a + b)[..|a + b| - 1] == a + front;
      NoEditAppend(s, a, front, key);
      RunAppend(s, a, front);
    }
  }

  /** One of a key's jobs runs under pool `p`, which is not its current one. */
  ghost predicate OldJob(s: State, key: Id, r: nat, p: nat) {
    && key in s.budgets && r in s.requests && s.requests[r] == Running(p) && p < |s.pools|
    && s.pools[p].key == key && p != s.budgets[key].pool
  }

  /** Where a key is not drained, an old job runs or can start. */
  lemma OldJobStarts(s: State, key: Id) returns (events: seq<Event>, r: nat, p: nat)
    requires Inv(s) && key in s.budgets && !Drained(s, key)
    ensures NoEdit(s, events, key) && OldJob(Run(s, events), key, r, p) && Inv(Run(s, events))
    ensures Run(s, events).budgets == s.budgets
  {
    r :| r in s.requests && OnBehalfOf(s, s.requests[r], key) && s.requests[r].pool != s.budgets[key].pool;
    p := s.requests[r].pool;
    events := [];
    if s.requests[r].Holding? {
      if s.pools[p].available > 0 {
        events := [Acquire(r)];
        assert events[..0] == [];
        assert Run(s, events) == Step(s, Acquire(r));
        StepKeepsInv(s, Acquire(r));
      } else {
        assert Conserved(s, p);
        assert Holders(s, p) != {};
        r :| r in Holders(s, p);
      }
    }
  }

  /** A number beyond every request's. */
  ghost function Beyond(requests: set<nat>): (n: nat)
    ensures forall q :: q in requests ==> q < n
  {
    if requests == {} then 0
    else
      var q :| q in requests;
      var n := Beyond(requests - {q});
      assert forall r :: r in requests ==> r == q || r in requests - {q};
      if n <= q then q + 1 else n
  }

  /** A new request that takes a permit of the current pool. */
  lemma OneMoreJob(s: State, key: Id, r: nat, p: nat, n: nat)
    requires Inv(s) && OldJob(s, key, r, p) && s.pools[s.budgets[key].pool].available > 0 && n !in s.requests
    ensures
      var permits := s.budgets[key].permits;
      var s2 := Step(Step(s, Lookup(n, key, permits)), Acquire(n));
      && Inv(s2) && OldJob(s2, key, r, p) && s2.budgets == s.budgets && !Edits(s, key, permits)
      && s2.pools[s.budgets[key].pool].available == s.pools[s.budgets[key].pool].available - 1
  {
    StepKeepsInv(s, Lookup(n, key, s.budgets[key].permits));
    StepKeepsInv(Step(s, Lookup(n, key, s.budgets[key].permits)), Acquire(n));
  }

  lemma TwoEvents(s: State, key: Id, a: Event, b: Event)
    requires (a.Lookup? && a.key == key ==> !Edits(s, key, a.maxConcurrentJobs)) && !b.Lookup?
    ensures Run(s, [a, b]) == Step(Step(s, a), b) && NoEdit(s, [a, b], key)
  {
    hide Step;
    assert [a, b][..1] == [a] && [a][..0] == [];
    assert Run(s, []) == s && NoEdit(s, [], key);
    assert Run(s, [a]) == Step(s, a) && NoEdit(s, [a], key);
  }

  /** New requests fill the current pool beside the old job. */
  lemma {:induction false} FillCurrentPool(s: State, key: Id, r: nat, p: nat) returns (events: seq<Event>)
    requires Inv(s) && OldJob(s, key, r, p)
    ensures NoEdit(s, events, key) && Inv(Run(s, events)) && OldJob(Run(s, events), key, r, p)
    ensures Run(s, events).budgets == s.budgets && Run(s, events).pools[s.budgets[key].pool].available == 0
    decreases s.pools[s.budgets[key].pool].available
  {
    if s.pools[s.budgets[key].pool].available == 0 {
      events := [];
    } else {
      var n := Beyond(s.requests.Keys);
      var a, b := Lookup(n, key, s.budgets[key].permits), Acquire(n);
      OneMoreJob(s, key, r, p, n);
      hide Step, Inv, Edits;
      TwoEvents(s, key, a, b);
      var rest := FillCurrentPool(Step(Step(s, a), b), key, r, p);
      events := [a, b] + rest;
      RunAppend(s, [a, b], rest);
      NoEditAppend(s, [a, b], rest, key);
    }
  }

  /** An old job beside a full current pool is one job too many. */
  lemma OneTooMany(s: State, key: Id, r: nat, p: nat)
    requires Inv(s) && OldJob(s, key, r, p) && s.pools[s.budgets[key].pool].available == 0
    ensures !WithinBudget(s, key)
  {
    var q := s.budgets[key].pool;
    assert Conserved(s, q);
    var many := Holders(s, q) + {r};
    assert r !in Holders(s, q);
    assert many <= InFlight(s, key);
    SubsetSize(many, InFlight(s, key));
  }

  lemma SubsetSize(a: set<nat>, b: set<nat>)
    requires a <= b
    ensures |a| <= |b|
  {
    assert b == a + (b - a);
  }

  lemma Overrun(s: State, key: Id) returns (after: seq<Event>)
    requires Inv(s) && key in s.budgets && !Drained(s, key)
    ensures NoEdit(s, after, key) && !WithinBudget(Run(s, after), key)
  {
    var start, r, p := OldJobStarts(s, key);
    hide *;
    var fill := FillCurrentPool(Run(s, start), key, r, p);
    RunAppend(s, start, fill);
    NoEditAppend(s, start, fill, key);
    OneTooMany(Run(s, start + fill), key, r, p);
    after := start + fill;
  }

  /** From a reachable state a key's jobs stay within its budget through every run that does not edit it, if and only if the
      key is drained there: otherwise, right after an edit say, some such run takes them beyond it. */
  lemma DrainedExactly(before: seq<Event>, key: Id)
    requires key in Run(INITIAL, before).budgets
    ensures Drained(Run(INITIAL, before), key)
       <==> forall after :: NoEdit(Run(INITIAL, before), after, key) ==> WithinBudget(Run(Run(INITIAL, before), after), key)
  {
    var s := Run(INITIAL, before);
    RunKeepsInv(before);
    hide Run, NoEdit, InFlight, Inv;
    if Drained(s, key) {
      forall after | NoEdit(s, after, key) ensures WithinBudget(Run(s, after), key) {
        DrainedKeyWithinBudget(before, after, key);
      }
    } else {
      var after := Overrun(s, key);
    }
  }

  /** A smallest such run from the start: an old job runs on beside the new one. */
  lemma EditedBudgetCanBeExceeded(key: Id)
    ensures exists events ::
      var s := Run(INITIAL, events);
      key in s.budgets && |InFlight(s, key)| > s.budgets[key].permits
  {
    hide Run;
    var events := [Lookup(0, key, 2), Acquire(0), Lookup(1, key, 1), Acquire(1)];
    var s1 := State(map[key := Budget(2, 0)], [Pool(key, 2, 2)], map[0 := Holding(0)]);
    var s2 := State(map[key := Budget(2, 0)], [Pool(key, 2, 1)], map[0 := Running(0)]);
    var s3 := State(map[key := Budget(1, 1)], [Pool(key, 2, 1), Pool(key, 1, 1)], map[0 := Running(0), 1 := Holding(1)]);
    var s4 := State(map[key := Budget(1, 1)], [Pool(key, 2, 1), Pool(key, 1, 0)], map[0 := Running(0), 1 := Running(1)]);
    FourSteps(Lookup(0, key, 2), Acquire(0), Lookup(1, key, 1), Acquire(1));
    assert Step(INITIAL, Lookup(0, key, 2)) == s1;
    assert Step(s1, Acquire(0)) == s2;
    assert Step(s2, Lookup(1, key, 1)) == s3;
    assert Step(s3, Acquire(1)) == s4;
    assert InFlight(s4, key) == {0, 1};
    assert Run(INITIAL, events) == s4;
  }

  lemma FourSteps(a: Event, b: Event, c: Event, d: Event)
    ensures Run(INITIAL, [a, b, c, d]) == Step(Step(Step(Step(INITIAL, a), b), c), d)
  {
    hide Run, Step;
    NoEvents();
    RunSnoc([], a);
    RunSnoc([a], b);
    RunSnoc([a, b], c);
    RunSnoc([a, b, c], d);
    assert [] + [a] == [a] && [a] + [b] == [a, b] && [a, b] + [c] == [a, b, c] && [a, b, c] + [d] == [a, b, c, d];
  }

  lemma NoEvents()
    ensures Run(INITIAL, []) == INITIAL
  {
  }

  lemma RunSnoc(events: seq<Event>, e: Event)
    ensures Run(INITIAL, events + [e]) == Step(Run(INITIAL, events), e)
  {
    assert (events + [e])[..|events|] == events;
  }
}
