/**
 How often one signature gets through both checks when calls interleave. The single-use guard remembers an acceptance
 for a window from its clock read, so a call that stalls between its clock read and its insertion is remembered for
 less; `stall` bounds that, and `maxDelay` the time from the timestamp check to the insertion.
 */
module SignatureConcurrency {
  import opened Replay
  import opened ReplayConcurrency
  import opened SignatureLifetime

  /** The guard's log after any interleaving of the steps of any number of calls. */
  function GuardLog(svc: Service, start: Instant, events: seq<Event>): seq<Entry> {
    Run(Initial(start, Window(svc.maxAge)), events, Window(svc.maxAge)).log
  }

  /** Each acceptance is that of a request whose timestamp had passed before the call. */
  ghost predicate Backed(svc: Service, log: seq<Entry>, rs: seq<Request>, stall: int) {
    && |rs| == |log|
    && forall k :: 0 <= k < |log| ==>
         && BackedBy(svc, log[k], rs[k]) && log[k].inserted <= log[k].read + stall
  }

  ghost predicate BackedBy(svc: Service, e: Entry, r: Request) {
    && r.template.None? && '\n' !in r.verb && '\n' !in r.target && '\n' !in r.timestamp
    && Signature(svc, r) == e.id && TimestampOk(svc, r.timestamp, r.validated)
    && 0 <= r.validated <= e.read && e.inserted <= r.validated + svc.maxDelay && Second(r.validated) < TWO_62
  }

  /** The instants at which acceptances of `id` were inserted. */
  function InsertedOf(log: seq<Entry>, id: SignatureId): seq<Instant> {
    if log == [] then []
    else
      var times, last := InsertedOf(log[..|log| - 1], id), log[|log| - 1];
      if last.id == id then times + [last.inserted] else times
  }

  lemma {:induction false} InsertedMember(log: seq<Entry>, id: SignatureId, t: Instant)
    ensures t in InsertedOf(log, id) ==> exists k :: 0 <= k < |log| && log[k].id == id && log[k].inserted == t
  {
    if t in InsertedOf(log, id) {
      var front := log[..|log| - 1];
      InsertedMember(front, id, t);
      if t in InsertedOf(front, id) {
        var k :| 0 <= k < |front| && front[k].id == id && front[k].inserted == t;
        assert log[k] == front[k];
      } else {
        assert log[|log| - 1].id == id;
      }
    }
  }

  lemma {:induction false} InsertedSpaced(log: seq<Entry>, id: SignatureId, window: int, stall: int)
    requires Apart(log, window) && forall k :: 0 <= k < |log| ==> log[k].inserted <= log[k].read + stall
    ensures Spaced(InsertedOf(log, id), window - stall)
  {
    if log != [] {
      var front, last := log[..|log| - 1], log[|log| - 1];
      var times := InsertedOf(front, id);
      assert Apart(front, window) by {
        forall i, j | 0 <= i < j < |front| && front[i].id == front[j].id ensures front[i].read + window <= front[j].inserted {
          assert log[i] == front[i] && log[j] == front[j];
        }
      }
      InsertedSpaced(front, id, window, stall);
      if last.id == id && times != [] {
        InsertedMember(front, id, times[|times| - 1]);
        var k :| 0 <= k < |front| && front[k].id == id && front[k].inserted == times[|times| - 1];
        assert log[k] == front[k];
      }
    }
  }

  /** The insertions of one signature all fall into one span of 2 * maxAge + 1 seconds, plus the delay. */
  lemma InsertedWithin(svc: Service, log: seq<Entry>, rs: seq<Request>, stall: int, id: SignatureId) returns (lo: Instant)
    requires ValidService(svc) && Backed(svc, log, rs, stall)
    requires forall k :: 0 <= k < |log| ==> log[k].read <= log[k].inserted
    ensures forall t :: t in InsertedOf(log, id) ==> lo <= t < lo + (2 * svc.maxAge + 1) * NANOS_PER_SECOND + svc.maxDelay
  {
    var times := InsertedOf(log, id);
    if times == [] {
      lo := 0;
    } else {
      InsertedMember(log, id, times[0]);
      var k :| 0 <= k < |log| && log[k].id == id && log[k].inserted == times[0];
      var q := rs[k];
      var opens := Opens(svc.parse(q.timestamp).value, svc.maxAge, Second(q.validated));
      lo := opens * NANOS_PER_SECOND;
      forall t | t in times ensures lo <= t < lo + (2 * svc.maxAge + 1) * NANOS_PER_SECOND + svc.maxDelay {
        InsertedMember(log, id, t);
        var j :| 0 <= j < |log| && log[j].id == id && log[j].inserted == t;
        SameTimestamp(svc, q, rs[j]);
        WindowSpan(svc, q.timestamp, q.validated, rs[j].validated);
      }
    }
  }

  lemma SameTimestamp(svc: Service, r: Request, q: Request)
    requires ValidService(svc) && Signature(svc, r) == Signature(svc, q) && r.template.None? && q.template.None?
    requires '\n' !in r.verb && '\n' !in r.target && '\n' !in r.timestamp
    requires '\n' !in q.verb && '\n' !in q.target && '\n' !in q.timestamp
    ensures r.timestamp == q.timestamp
  {
    Canonical.PayloadInjective(r.verb, r.target, r.timestamp, r.body, q.verb, q.target, q.timestamp, q.body);
  }

  lemma GuardLogOk(svc: Service, start: Instant, events: seq<Event>, rs: seq<Request>, stall: int)
    requires Backed(svc, GuardLog(svc, start, events), rs, stall)
    ensures Apart(GuardLog(svc, start, events), Window(svc.maxAge))
    ensures forall k :: 0 <= k < |GuardLog(svc, start, events)| ==>
              var e := GuardLog(svc, start, events)[k]; e.read <= e.inserted <= e.read + stall
  {
    hide BackedBy, Step;
    ReplayConcurrency.RunKeepsInv(start, events, Window(svc.maxAge));
  }

  /** Under every interleaving one signature is accepted at most floor(((2A + 1) s + D - 1) / (w - E)) + 1 times, where A
      is the timestamp window, w the guard's, D the time from timestamp check to insertion and E < w the stall between
      the guard's clock read and its insertion. */
  lemma InterleavedUses(svc: Service, start: Instant, events: seq<Event>, rs: seq<Request>, stall: int, id: SignatureId)
    requires ValidService(svc) && 0 <= stall < Window(svc.maxAge)
    requires Backed(svc, GuardLog(svc, start, events), rs, stall)
    ensures |InsertedOf(GuardLog(svc, start, events), id)|
            <= ((2 * svc.maxAge + 1) * NANOS_PER_SECOND + svc.maxDelay - 1) / (Window(svc.maxAge) - stall) + 1
  {
    hide GuardLog, InsertedOf, ValidService, Backed, Spaced, CountIn, Apart, Window;
    var log, w := GuardLog(svc, start, events), Window(svc.maxAge);
    GuardLogOk(svc, start, events, rs, stall);
    ServiceAge(svc);
    var times := InsertedOf(log, id);
    InsertedSpaced(log, id, w, stall);
    var lo := InsertedWithin(svc, log, rs, stall, id);
    var hi := lo + (2 * svc.maxAge + 1) * NANOS_PER_SECOND + svc.maxDelay - 1;
    SpacedCount(times, w - stall, lo, hi);
    assert forall i :: 0 <= i < |times| ==> times[i] in times;
    CountAll(times, lo, hi);
  }

  /** Under every interleaving an acceptance so late that its window, less the delay, outlasts the timestamp is the last
      one of its signature. */
  lemma InterleavedLateIsFinal(svc: Service, start: Instant, events: seq<Event>, rs: seq<Request>, stall: int, i: nat, j: nat)
    requires ValidService(svc) && svc.maxAge < TWO_62 && Backed(svc, GuardLog(svc, start, events), rs, stall)
    requires i < j < |rs|
    requires
      var log, presented := GuardLog(svc, start, events), svc.parse(rs[i].timestamp).value;
      && Second(log[i].read + Window(svc.maxAge) - svc.maxDelay) > presented + svc.maxAge
      && Second(rs[j].validated) - presented != TWO_63
    ensures GuardLog(svc, start, events)[i].id != GuardLog(svc, start, events)[j].id
  {
    var log := GuardLog(svc, start, events);
    if log[i].id == log[j].id {
      AcceptancesApart(start, events, Window(svc.maxAge), i, j);
      LaterSecond(log[i].read + Window(svc.maxAge), log[j].inserted, svc.maxDelay, rs[j].validated);
      SameTimestamp(svc, rs[i], rs[j]);
      TimestampWindow(svc, rs[j].timestamp, rs[j].validated);
    }
  }

  lemma LaterSecond(t: Instant, inserted: Instant, delay: int, validated: Instant)
    requires t <= inserted <= validated + delay
    ensures Second(t - delay) <= Second(validated)
  {
  }
}
