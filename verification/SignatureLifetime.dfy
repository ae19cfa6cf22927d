/**
 The signed branch of bearer-key authentication: the symmetric timestamp window in front of the
 single-use guard, and how often one signature can get through both.

 There is one clock, in nanoseconds; the timestamp check reads its whole second. A request reads it
 twice, first for its timestamp and then inside the guard, at most `maxDelay` apart. The HMAC is an
 arbitrary function, injective on (secret, payload), `parse` is the integer parsing of the header, and `lossy` the
 best-effort decoding of a body. A request carries the canonical template that applies to it, its hook's or else its
 key's; the bounds on reuse are about the default string, which holds the timestamp. A template need not, and then
 there is no bound.
 */
module SignatureLifetime {
  import opened Replay
  import Canonical

  type Bytes = Canonical.Bytes

  datatype Option<+T> = None | Some(value: T)

  const TWO_62 := 0x4000_0000_0000_0000
  const TWO_63 := 0x8000_0000_0000_0000
  const TWO_64 := 0x1_0000_0000_0000_0000

  datatype Service = Service(
    maxAge: int,                      // SIGNATURE_MAX_AGE_SECONDS
    maxDelay: int,
    hmac: (Bytes, Bytes) -> Bytes,
    parse: Bytes -> Option<int>,
    lossy: Bytes -> Bytes)

  /** A signed request and the two clock readings made while serving it. */
  datatype Request = Request(
    keyId: nat,
    secret: Bytes,
    verb: Bytes,
    target: Bytes,
    timestamp: Bytes,
    body: Bytes,
    template: Option<Bytes>,
    validated: Instant,
    checked: Instant)

  function Second(t: Instant): int {
    t / NANOS_PER_SECOND
  }

  // ── validate_timestamp ─────────────────────────────────────────────────────

  /** Subtraction of two i64 values, wrapping. */
  function Sub64(x: int, y: int): int {
    (x - y + TWO_63) % TWO_64 - TWO_63
  }

  /** i64::abs, wrapping: the least value is its own absolute value. */
  function Abs64(x: int): int {
    if x < 0 && x != -TWO_63 then -x else x
  }

  predicate IsI64(x: int) {
    -TWO_63 <= x < TWO_63
  }

  function Skew(now: int, presented: int): int {
    Abs64(Sub64(now, presented))
  }

  predicate TimestampOk(svc: Service, timestamp: Bytes, now: Instant) {
    svc.parse(timestamp).Some? && Skew(Second(now), svc.parse(timestamp).value) <= svc.maxAge
  }

  /** The check is the symmetric window, except for the one timestamp exactly 2^63 seconds in the past:
      its skew overflows to the least i64 and passes every limit. */
  lemma SkewIsTheWindow(now: int, presented: int, maxAge: int)
    requires IsI64(presented) && 0 <= now < TWO_62 && 0 <= maxAge < TWO_62
    ensures Skew(now, presented) <= maxAge
       <==> -maxAge <= now - presented <= maxAge || now - presented == TWO_63
  {
  }

  lemma TimestampWindow(svc: Service, timestamp: Bytes, now: Instant)
    requires svc.parse(timestamp).Some? && IsI64(svc.parse(timestamp).value)
    requires 0 <= Second(now) < TWO_62 && 0 <= svc.maxAge < TWO_62
    ensures TimestampOk(svc, timestamp, now)
       <==> -svc.maxAge <= Second(now) - svc.parse(timestamp).value <= svc.maxAge
            || Second(now) - svc.parse(timestamp).value == TWO_63
  {
    SkewIsTheWindow(Second(now), svc.parse(timestamp).value, svc.maxAge);
  }

  /** A negative limit refuses every timestamp but that one. */
  lemma NegativeLimit(now: int, presented: int, maxAge: int)
    requires IsI64(presented) && 0 <= now < TWO_62 && -TWO_63 <= maxAge < 0
    ensures Skew(now, presented) <= maxAge <==> now - presented == TWO_63
  {
  }

  // ── The signed branch ──────────────────────────────────────────────────────

  /** The bytes the signature covers. */
  function Payload(svc: Service, r: Request): Bytes {
    if r.template.Some? then
      Canonical.RenderCanonicalTemplate(r.template.value, r.verb, r.target, r.timestamp, r.body, svc.lossy)
    else Canonical.CanonicalV1Payload(r.verb, r.target, r.timestamp, r.body)
  }

  function Signature(svc: Service, r: Request): SignatureId {
    SignatureId(r.keyId, svc.hmac(r.secret, Payload(svc, r)))
  }

  ghost predicate Accepts(svc: Service, log: seq<Acceptance>, r: Request) {
    TimestampOk(svc, r.timestamp, r.validated)
    && !Remembered(log, Signature(svc, r), Window(svc.maxAge), r.checked)
  }

  datatype Verdict = Admitted | Unauthorized

  /** The steps of the signed branch, in their order. A digest reaches the guard only once it has been
      verified, so no other request can use up a signature. */
  method AuthenticateSigned(svc: Service, guard: ReplayGuard, hasTimestamp: bool, storedSecret: Option<Bytes>,
                            presented: Bytes, r: Request) returns (v: Verdict)
    requires guard.Valid() && guard.window == Window(svc.maxAge) && guard.clock <= r.checked
    requires storedSecret.Some? ==> r.secret == storedSecret.value
    modifies guard
    ensures guard.Valid()
    ensures v.Admitted? <==> hasTimestamp && storedSecret.Some? && presented == svc.hmac(r.secret, Payload(svc, r))
                             && !guard.seenPoisoned && Accepts(svc, old(guard.log), r)
    ensures guard.log == if v.Admitted? then old(guard.log) + [Acceptance(Signature(svc, r), r.checked)]
                         else old(guard.log)
    ensures guard.seenPoisoned == old(guard.seenPoisoned)
  {
    if !hasTimestamp || !TimestampOk(svc, r.timestamp, r.validated) {
      return Unauthorized;
    }
    if storedSecret.None? {
      return Unauthorized;
    }
    var digest := svc.hmac(storedSecret.value, Payload(svc, r));
    if presented != digest {
      return Unauthorized;
    }
    var firstUse := guard.CheckAndRecord(r.checked, r.keyId, digest);
    v := if firstUse then Admitted else Unauthorized;
  }

  /** The acceptances of a run of verified requests whose guard calls come one after the other. */
  ghost function Log(svc: Service, rs: seq<Request>): seq<Acceptance> {
    if rs == [] then []
    else
      var log, r := Log(svc, rs[..|rs| - 1]), rs[|rs| - 1];
      if Accepts(svc, log, r) then log + [Acceptance(Signature(svc, r), r.checked)] else log
  }

  ghost predicate Injective(hmac: (Bytes, Bytes) -> Bytes) {
    forall s, p, s', p' :: hmac(s, p) == hmac(s', p') ==> s == s' && p == p'
  }

  ghost predicate ValidService(svc: Service) {
    && 0 <= svc.maxAge < TWO_63 && svc.maxDelay >= 0
    && Injective(svc.hmac)
    && forall t :: svc.parse(t).Some? ==> IsI64(svc.parse(t).value)
  }

  ghost predicate ValidRequest(svc: Service, r: Request) {
    && r.template.None?
    && '\n' !in r.verb && '\n' !in r.target && '\n' !in r.timestamp
    && 0 <= r.validated <= r.checked <= r.validated + svc.maxDelay
    && Second(r.validated) < TWO_62
  }

  ghost predicate ValidRun(svc: Service, rs: seq<Request>) {
    && (forall i :: 0 <= i < |rs| ==> ValidRequest(svc, rs[i]))
    && forall i, j :: 0 <= i < j < |rs| ==> rs[i].checked <= rs[j].checked
  }

  // ── How often one signature is accepted ────────────────────────────────────

  /** The instants at which `id` was accepted. */
  function TimesOf(log: seq<Acceptance>, id: SignatureId): seq<Instant> {
    if log == [] then []
    else
      var times, last := TimesOf(log[..|log| - 1], id), log[|log| - 1];
      if last.id == id then times + [last.at] else times
  }

  /** Every acceptance comes from a request of the run that passed the timestamp check. */
  lemma {:induction false} LogOrigin(svc: Service, rs: seq<Request>, i: nat)
    requires i < |Log(svc, rs)|
    ensures exists k :: 0 <= k < |rs| && TimestampOk(svc, rs[k].timestamp, rs[k].validated)
                        && Log(svc, rs)[i] == Acceptance(Signature(svc, rs[k]), rs[k].checked)
  {
    var front, r := rs[..|rs| - 1], rs[|rs| - 1];
    var log := Log(svc, front);
    if i < |log| {
      LogOrigin(svc, front, i);
      var k :| 0 <= k < |front| && TimestampOk(svc, front[k].timestamp, front[k].validated)
               && log[i] == Acceptance(Signature(svc, front[k]), front[k].checked);
      assert rs[k] == front[k];
    } else {
      assert rs[|rs| - 1] == r;
    }
  }

  lemma {:induction false} TimesOfMember(log: seq<Acceptance>, id: SignatureId, t: Instant)
    ensures t in TimesOf(log, id) <==> exists i :: 0 <= i < |log| && log[i] == Acceptance(id, t)
  {
    if log != [] {
      var front := log[..|log| - 1];
      TimesOfMember(front, id, t);
      if t in TimesOf(front, id) {
        var i :| 0 <= i < |front| && front[i] == Acceptance(id, t);
        assert log[i] == Acceptance(id, t);
      }
      if i :| 0 <= i < |log| && log[i] == Acceptance(id, t) {
        if i < |front| {
          assert front[i] == Acceptance(id, t);
        }
      }
    }
  }

  /** Acceptances of one signature come a guard window apart. */
  lemma {:induction false} TimesSpaced(svc: Service, rs: seq<Request>, id: SignatureId)
    ensures Spaced(TimesOf(Log(svc, rs), id), Window(svc.maxAge))
  {
    if rs != [] {
      var front, r := rs[..|rs| - 1], rs[|rs| - 1];
      var log := Log(svc, front);
      var times := TimesOf(log, id);
      TimesSpaced(svc, front, id);
      if Accepts(svc, log, r) {
        assert (log + [Acceptance(Signature(svc, r), r.checked)])[..|log|] == log;
        if Signature(svc, r) == id && times != [] {
          TimesOfMember(log, id, times[|times| - 1]);
        }
      }
    }
  }

  /** One signature fixes one timestamp text. */
  lemma SameSignatureSameTimestamp(svc: Service, r: Request, q: Request)
    requires ValidService(svc) && ValidRequest(svc, r) && ValidRequest(svc, q)
    requires Signature(svc, r) == Signature(svc, q)
    ensures r.timestamp == q.timestamp
  {
    Canonical.PayloadInjective(r.verb, r.target, r.timestamp, r.body, q.verb, q.target, q.timestamp, q.body);
  }

  /** Two requests have one signature exactly when they agree on key, secret and all four signed fields. */
  lemma SignatureFixesTheRequest(svc: Service, r: Request, q: Request)
    requires ValidService(svc) && ValidRequest(svc, r) && ValidRequest(svc, q)
    ensures Signature(svc, r) == Signature(svc, q)
       <==> && r.keyId == q.keyId && r.secret == q.secret
            && r.verb == q.verb && r.target == q.target && r.timestamp == q.timestamp && r.body == q.body
  {
    Canonical.PayloadInjective(r.verb, r.target, r.timestamp, r.body, q.verb, q.target, q.timestamp, q.body);
  }

  /** The digest covers the default string, field for field, unless a template replaces it; and the default template
      renders to that string for every brace-free head and readable body. */
  lemma SignatureCovers(svc: Service, r: Request)
    ensures Signature(svc, r).keyId == r.keyId
    ensures r.template.None? || (r.template == Some(Canonical.DEFAULT_CANONICAL_TEMPLATE) && svc.lossy(r.body) == r.body
                                 && '{' !in r.verb && '{' !in r.target && '{' !in r.timestamp) ==>
              Signature(svc, r).digest == svc.hmac(r.secret, r.verb + "\n" + r.target + "\n" + r.timestamp + "\n" + r.body)
  {
    if r.template.Some? && '{' !in r.verb && '{' !in r.target && '{' !in r.timestamp {
      Canonical.RenderingsAgree(r.verb, r.target, r.timestamp, r.body, svc.lossy);
    }
  }

  /** The first second in which a timestamp can pass: the window opens there and lasts 2 * maxAge more. */
  function Opens(presented: int, maxAge: int, now: int): int {
    if maxAge >= TWO_62 then 0 else if now - presented == TWO_63 then now else presented - maxAge
  }

  lemma WindowSpan(svc: Service, timestamp: Bytes, now: Instant, later: Instant)
    requires ValidService(svc) && 0 <= Second(now) < TWO_62 && 0 <= Second(later) < TWO_62
    requires TimestampOk(svc, timestamp, now) && TimestampOk(svc, timestamp, later)
    ensures var lo := Opens(svc.parse(timestamp).value, svc.maxAge, Second(now));
            lo <= Second(now) <= lo + 2 * svc.maxAge && lo <= Second(later) <= lo + 2 * svc.maxAge
  {
    var presented := svc.parse(timestamp).value;
    if svc.maxAge < TWO_62 {
      SkewIsTheWindow(Second(now), presented, svc.maxAge);
      SkewIsTheWindow(Second(later), presented, svc.maxAge);
    }
  }

  /** The acceptances of one signature all fall into one span of 2 * maxAge + 1 seconds, plus the delay. */
  lemma AcceptedWithin(svc: Service, rs: seq<Request>, id: SignatureId) returns (lo: Instant)
    requires ValidService(svc) && ValidRun(svc, rs)
    ensures forall t :: t in TimesOf(Log(svc, rs), id)
              ==> lo <= t < lo + (2 * svc.maxAge + 1) * NANOS_PER_SECOND + svc.maxDelay
  {
    var log := Log(svc, rs);
    var times := TimesOf(log, id);
    if times == [] {
      lo := 0;
    } else {
      var q := OriginOf(svc, rs, id, times[0]);
      var opens := Opens(svc.parse(q.timestamp).value, svc.maxAge, Second(q.validated));
      lo := opens * NANOS_PER_SECOND;
      forall t | t in times ensures lo <= t < lo + (2 * svc.maxAge + 1) * NANOS_PER_SECOND + svc.maxDelay {
        var r := OriginOf(svc, rs, id, t);
        SameSignatureSameTimestamp(svc, q, r);
        WindowSpan(svc, q.timestamp, q.validated, r.validated);
      }
    }
  }

  lemma OriginOf(svc: Service, rs: seq<Request>, id: SignatureId, t: Instant) returns (r: Request)
    requires ValidRun(svc, rs) && t in TimesOf(Log(svc, rs), id)
    ensures ValidRequest(svc, r) && r.checked == t && Signature(svc, r) == id
    ensures TimestampOk(svc, r.timestamp, r.validated)
  {
    TimesOfMember(Log(svc, rs), id, t);
    var i :| 0 <= i < |Log(svc, rs)| && Log(svc, rs)[i] == Acceptance(id, t);
    LogOrigin(svc, rs, i);
    var k :| 0 <= k < |rs| && TimestampOk(svc, rs[k].timestamp, rs[k].validated)
             && Log(svc, rs)[i] == Acceptance(Signature(svc, rs[k]), rs[k].checked);
    r := rs[k];
  }

  /** Over any run, one signature is accepted at most floor(((2A + 1) s + D - 1) / w) + 1 times, where A
      is the timestamp window, D the delay between the two clock readings and w the guard's window. */
  lemma SignatureUses(svc: Service, rs: seq<Request>, id: SignatureId)
    requires ValidService(svc) && ValidRun(svc, rs)
    ensures |TimesOf(Log(svc, rs), id)|
            <= ((2 * svc.maxAge + 1) * NANOS_PER_SECOND + svc.maxDelay - 1) / Window(svc.maxAge) + 1
  {
    hide Log, TimesOf, ValidService, ValidRun, Spaced, CountIn;
    var times := TimesOf(Log(svc, rs), id);
    var lo := AcceptedWithin(svc, rs, id);
    ServiceAge(svc);
    var hi := lo + (2 * svc.maxAge + 1) * NANOS_PER_SECOND + svc.maxDelay - 1;
    TimesSpaced(svc, rs, id);
    SpacedCount(times, Window(svc.maxAge), lo, hi);
    assert forall i :: 0 <= i < |times| ==> times[i] in times;
    CountAll(times, lo, hi);
  }

  lemma CountAll(times: seq<Instant>, lo: Instant, hi: Instant)
    requires forall i :: 0 <= i < |times| ==> lo <= times[i] <= hi
    ensures CountIn(times, lo, hi) == |times|
  {
    if times != [] {
      CountAll(times[..|times| - 1], lo, hi);
    }
  }

  /** When a request reads the clock once, the bound is floor(2A / w) + 1 with w = clamp(A, 1, 3600); so
      at most three for A up to an hour. */
  lemma SignatureUsesWholeSeconds(svc: Service, rs: seq<Request>, id: SignatureId)
    requires ValidService(svc) && ValidRun(svc, rs) && svc.maxDelay == 0
    ensures |TimesOf(Log(svc, rs), id)| <= 2 * svc.maxAge / Clamp(svc.maxAge, 1, 3600) + 1
    ensures svc.maxAge <= 3600 ==> |TimesOf(Log(svc, rs), id)| <= 3
  {
    hide Log, TimesOf, ValidService, ValidRun;
    SignatureUses(svc, rs, id);
    var w := Clamp(svc.maxAge, 1, 3600);
    ServiceAge(svc);
    WholeSecondsQuotient(2 * svc.maxAge, w);
    if svc.maxAge <= 3600 {
      assert 2 * svc.maxAge <= 2 * w;
      AtMostTwo(2 * svc.maxAge, w);
    }
  }

  lemma ServiceAge(svc: Service)
    requires ValidService(svc)
    ensures svc.maxAge >= 0 && svc.maxDelay >= 0
    ensures forall t :: svc.parse(t).Some? ==> IsI64(svc.parse(t).value)
  {
    hide Injective;
  }

  lemma AtMostTwo(x: int, w: int)
    requires w > 0 && x <= 2 * w
    ensures x / w <= 2
  {
    var q := x / w;
    assert x == w * q + x % w;
    Product(w, q - 2);
    assert w * (q - 2) == w * q - 2 * w;
  }

  lemma WholeSecondsQuotient(x: int, w: int)
    requires w > 0
    ensures ((x + 1) * NANOS_PER_SECOND - 1) / (w * NANOS_PER_SECOND) == x / w
  {
    var q, r := x / w, x % w;
    assert x == w * q + r;
    var y, d := (x + 1) * NANOS_PER_SECOND - 1, w * NANOS_PER_SECOND;
    assert y == d * q + ((r + 1) * NANOS_PER_SECOND - 1);
    QuotientIs(y, d, q, (r + 1) * NANOS_PER_SECOND - 1);
  }

  lemma QuotientIs(x: int, d: int, q: int, r: int)
    requires d > 0 && x == d * q + r && 0 <= r < d
    ensures x / d == q
  {
    QuotientBound(q, x, d);
    var p := x / d;
    assert d * (p - q) == r - x % d;
    Product(d, p - q);
  }

  // ── When a signature can be used again ─────────────────────────────────────

  /** With A up to an hour and one clock reading per request, a signature accepted in a second strictly
      after its timestamp is never accepted again. */
  lemma LateAcceptanceIsFinal(svc: Service, rs: seq<Request>, r: Request, s: Request)
    requires ValidService(svc) && svc.maxDelay == 0 && svc.maxAge <= 3600
    requires ValidRun(svc, rs + [r]) && ValidRequest(svc, s) && r.checked <= s.checked
    requires Accepts(svc, Log(svc, rs), r) && Second(r.checked) > svc.parse(r.timestamp).value
    requires Signature(svc, s) == Signature(svc, r)
    ensures !Accepts(svc, Log(svc, rs + [r]), s)
  {
    var log := Log(svc, rs);
    assert (rs + [r])[..|rs|] == rs && (rs + [r])[|rs|] == r;
    assert r in rs + [r];
    assert Log(svc, rs + [r])[|log|] == Acceptance(Signature(svc, r), r.checked);
    SameSignatureSameTimestamp(svc, r, s);
    var presented := svc.parse(r.timestamp).value;
    SkewIsTheWindow(Second(r.validated), presented, svc.maxAge);
    SkewIsTheWindow(Second(s.validated), presented, svc.maxAge);
  }

  /** Right after an acceptance, presenting the same request again succeeds at some later instant if and
      only if a whole guard window still fits before the timestamp expires. */
  lemma UsableAgain(svc: Service, rs: seq<Request>, r: Request)
    requires ValidService(svc) && svc.maxDelay == 0 && svc.maxAge < TWO_62
    requires ValidRun(svc, rs + [r]) && Accepts(svc, Log(svc, rs), r)
    requires Second(r.checked) + 3600 < TWO_62 && Second(r.checked) - svc.parse(r.timestamp).value != TWO_63
    ensures (exists t :: t >= r.checked && Second(t) < TWO_62 && Accepts(svc, Log(svc, rs + [r]), Served(r, t)))
       <==> Second(r.checked) + Clamp(svc.maxAge, 1, 3600) <= svc.parse(r.timestamp).value + svc.maxAge
  {
    AfterAcceptance(svc, rs, r);
    var log := Log(svc, rs + [r]);
    hide *;
    forall t | t >= r.checked && Second(t) < TWO_62 && Accepts(svc, log, Served(r, t))
      ensures Second(r.checked) + Clamp(svc.maxAge, 1, 3600) <= svc.parse(r.timestamp).value + svc.maxAge
    {
      FitsIfAccepted(svc, log, r, t);
    }
    if Second(r.checked) + Clamp(svc.maxAge, 1, 3600) <= svc.parse(r.timestamp).value + svc.maxAge {
      AcceptedIfFits(svc, log, r);
    }
  }

  /** The state right after `r` was accepted: its acceptance is the last and latest one. */
  ghost predicate JustAccepted(svc: Service, log: seq<Acceptance>, r: Request) {
    && 0 <= svc.maxAge < TWO_62
    && svc.parse(r.timestamp).Some? && IsI64(svc.parse(r.timestamp).value)
    && 0 <= Second(r.checked) && Second(r.checked) + 3600 < TWO_62
    && -svc.maxAge <= Second(r.checked) - svc.parse(r.timestamp).value <= svc.maxAge
    && log != [] && log[|log| - 1] == Acceptance(Signature(svc, r), r.checked)
    && forall i :: 0 <= i < |log| ==> log[i].at <= r.checked
  }

  lemma AfterAcceptance(svc: Service, rs: seq<Request>, r: Request)
    requires ValidService(svc) && svc.maxDelay == 0 && svc.maxAge < TWO_62
    requires ValidRun(svc, rs + [r]) && Accepts(svc, Log(svc, rs), r)
    requires Second(r.checked) + 3600 < TWO_62 && Second(r.checked) - svc.parse(r.timestamp).value != TWO_63
    ensures JustAccepted(svc, Log(svc, rs + [r]), r)
  {
    LogSnoc(svc, rs, r);
    LastOfRun(svc, rs, r);
    LogIsPast(svc, rs, r.checked);
    ServiceAge(svc);
    TimestampWindow(svc, r.timestamp, r.checked);
  }

  lemma FitsIfAccepted(svc: Service, log: seq<Acceptance>, r: Request, t: Instant)
    requires JustAccepted(svc, log, r) && t >= r.checked && Second(t) < TWO_62 && Accepts(svc, log, Served(r, t))
    ensures Second(r.checked) + Clamp(svc.maxAge, 1, 3600) <= svc.parse(r.timestamp).value + svc.maxAge
  {
    SecondsMonotone(r.checked, t);
    TimestampWindow(svc, r.timestamp, t);
    NotForgotten(svc, log, r, t);
    SecondsLater(r.checked, Clamp(svc.maxAge, 1, 3600));
    SecondsMonotone(r.checked + Window(svc.maxAge), t);
  }

  lemma AcceptedIfFits(svc: Service, log: seq<Acceptance>, r: Request)
    requires JustAccepted(svc, log, r)
    requires Second(r.checked) + Clamp(svc.maxAge, 1, 3600) <= svc.parse(r.timestamp).value + svc.maxAge
    ensures exists t :: t >= r.checked && Second(t) < TWO_62 && Accepts(svc, log, Served(r, t))
  {
    var t := r.checked + Window(svc.maxAge);
    SecondsLater(r.checked, Clamp(svc.maxAge, 1, 3600));
    TimestampWindow(svc, r.timestamp, t);
    Forgotten(svc, log, r, t);
  }

  lemma SecondsLater(t: Instant, w: int)
    ensures Second(t + w * NANOS_PER_SECOND) == Second(t) + w
  {
  }

  lemma SecondsMonotone(t: Instant, u: Instant)
    requires t <= u
    ensures Second(t) <= Second(u)
  {
  }

  /** The request as served in full at instant `t`. */
  function Served(r: Request, t: Instant): Request {
    r.(validated := t, checked := t)
  }

  lemma LastOfRun(svc: Service, rs: seq<Request>, r: Request)
    requires ValidRun(svc, rs + [r]) && svc.maxDelay == 0
    ensures r.validated == r.checked && 0 <= Second(r.checked) < TWO_62
    ensures forall i :: 0 <= i < |rs| ==> rs[i].checked <= r.checked
  {
    var all := rs + [r];
    assert all[|rs|] == r;
    forall i | 0 <= i < |rs| ensures rs[i].checked <= r.checked {
      assert all[i] == rs[i];
    }
  }

  lemma NotForgotten(svc: Service, log: seq<Acceptance>, r: Request, t: Instant)
    requires Accepts(svc, log, Served(r, t)) && log != [] && log[|log| - 1] == Acceptance(Signature(svc, r), r.checked)
    ensures t >= r.checked + Window(svc.maxAge)
  {
    assert Payload(svc, Served(r, t)) == Payload(svc, r);
  }

  lemma Forgotten(svc: Service, log: seq<Acceptance>, r: Request, t: Instant)
    requires TimestampOk(svc, r.timestamp, t)
    requires forall i :: 0 <= i < |log| ==> log[i].at + Window(svc.maxAge) <= t
    ensures Accepts(svc, log, Served(r, t))
  {
  }

  lemma {:induction false} LogIsPast(svc: Service, rs: seq<Request>, now: Instant)
    requires forall i :: 0 <= i < |rs| ==> rs[i].checked <= now
    ensures forall i :: 0 <= i < |Log(svc, rs)| ==> Log(svc, rs)[i].at <= now
  {
    if rs != [] {
      LogIsPast(svc, rs[..|rs| - 1], now);
    }
  }

  /** The bound of three is attained for every window of one second to one hour: the same signed request,
      presented when its timestamp window opens, at the timestamp itself, and when the window closes. */
  lemma ThreeUses(svc: Service, r: Request)
    requires ValidService(svc) && svc.maxDelay == 0 && 1 <= svc.maxAge <= 3600
    requires svc.parse(r.timestamp).Some?
    requires var ts := svc.parse(r.timestamp).value; svc.maxAge <= ts && ts + svc.maxAge < TWO_62
    ensures
      var ts := svc.parse(r.timestamp).value;
      var runs := [At(r, ts - svc.maxAge), At(r, ts), At(r, ts + svc.maxAge)];
      |TimesOf(Log(svc, runs), Signature(svc, r))| == 3
  {
    hide Log, TimesOf, TimestampOk, Payload, Signature, ValidService;
    var ts, A, id := svc.parse(r.timestamp).value, svc.maxAge, Signature(svc, r);
    ServiceAge(svc);
    ThreeInWindow(svc, r);
    var a, b, c := (ts - A) * NANOS_PER_SECOND, ts * NANOS_PER_SECOND, (ts + A) * NANOS_PER_SECOND;
    assert a + Window(A) == b && b + Window(A) == c;
    NothingLogged(svc, r, t => []);
    assert At(r, ts - A) == Served(r, a) && At(r, ts) == Served(r, b) && At(r, ts + A) == Served(r, c);
    hide *;
    NextUse(svc, [], [], r, a);
    assert [] + [Served(r, a)] == [Served(r, a)] && [] + [Acceptance(id, a)] == [Acceptance(id, a)];
    NextUse(svc, [Served(r, a)], [Acceptance(id, a)], r, b);
    assert [Served(r, a)] + [Served(r, b)] == [Served(r, a), Served(r, b)];
    assert [Acceptance(id, a)] + [Acceptance(id, b)] == [Acceptance(id, a), Acceptance(id, b)];
    NextUse(svc, [Served(r, a), Served(r, b)], [Acceptance(id, a), Acceptance(id, b)], r, c);
    assert [Served(r, a), Served(r, b)] + [Served(r, c)] == [Served(r, a), Served(r, b), Served(r, c)];
    ThreeTimes(id, a, b, c);
  }

  lemma ThreeInWindow(svc: Service, r: Request)
    requires ValidService(svc) && 1 <= svc.maxAge <= 3600 && svc.parse(r.timestamp).Some?
    requires var ts := svc.parse(r.timestamp).value; svc.maxAge <= ts && ts + svc.maxAge < TWO_62
    ensures var ts := svc.parse(r.timestamp).value;
      && TimestampOk(svc, r.timestamp, (ts - svc.maxAge) * NANOS_PER_SECOND)
      && TimestampOk(svc, r.timestamp, ts * NANOS_PER_SECOND)
      && TimestampOk(svc, r.timestamp, (ts + svc.maxAge) * NANOS_PER_SECOND)
  {
    hide TimestampOk;
    ServiceAge(svc);
    var ts, A := svc.parse(r.timestamp).value, svc.maxAge;
    InWindow(svc, r, ts - A);
    InWindow(svc, r, ts);
    InWindow(svc, r, ts + A);
  }

  lemma InWindow(svc: Service, r: Request, t: int)
    requires svc.parse(r.timestamp).Some? && IsI64(svc.parse(r.timestamp).value)
    requires 0 <= svc.maxAge < TWO_62 && 0 <= t < TWO_62
    requires -svc.maxAge <= t - svc.parse(r.timestamp).value <= svc.maxAge
    ensures TimestampOk(svc, r.timestamp, t * NANOS_PER_SECOND)
  {
    assert Second(t * NANOS_PER_SECOND) == t;
    TimestampWindow(svc, r.timestamp, t * NANOS_PER_SECOND);
  }

  lemma NextUse(svc: Service, rs: seq<Request>, log: seq<Acceptance>, r: Request, t: Instant)
    requires Log(svc, rs) == log && TimestampOk(svc, r.timestamp, t)
    requires forall i :: 0 <= i < |log| ==> log[i].at + Window(svc.maxAge) <= t
    ensures Log(svc, rs + [Served(r, t)]) == log + [Acceptance(Signature(svc, r), t)]
  {
    hide Log, TimestampOk;
    Forgotten(svc, log, r, t);
    LogSnoc(svc, rs, Served(r, t));
  }

  lemma ThreeTimes(id: SignatureId, a: Instant, b: Instant, c: Instant)
    ensures |TimesOf([Acceptance(id, a), Acceptance(id, b)] + [Acceptance(id, c)], id)| == 3
  {
    TimesOfSnoc([], Acceptance(id, a));
    TimesOfSnoc([Acceptance(id, a)], Acceptance(id, b));
    TimesOfSnoc([Acceptance(id, a), Acceptance(id, b)], Acceptance(id, c));
    assert [] + [Acceptance(id, a)] == [Acceptance(id, a)];
    assert [Acceptance(id, a)] + [Acceptance(id, b)] == [Acceptance(id, a), Acceptance(id, b)];
  }

  lemma TimesOfSnoc(log: seq<Acceptance>, a: Acceptance)
    ensures TimesOf(log + [a], a.id) == TimesOf(log, a.id) + [a.at]
  {
    assert (log + [a])[..|log|] == log;
  }

  /** The request as served in full at the start of second `t`. */
  function At(r: Request, t: int): Request {
    Served(r, t * NANOS_PER_SECOND)
  }

  lemma LogSnoc(svc: Service, rs: seq<Request>, r: Request)
    ensures Log(svc, rs + [r])
         == if Accepts(svc, Log(svc, rs), r) then Log(svc, rs) + [Acceptance(Signature(svc, r), r.checked)]
            else Log(svc, rs)
  {
    assert (rs + [r])[..|rs|] == rs;
  }

  // ── Templates without the timestamp ────────────────────────────────────────

  /** Under the request's template the signed bytes do not depend on the timestamp. */
  ghost predicate IgnoresTimestamp(svc: Service, r: Request) {
    forall t, u :: Payload(svc, r.(timestamp := t)) == Payload(svc, r.(timestamp := u))
  }

  /** The request presented at the start of second `t`, with that second as its timestamp. */
  function Stamped(r: Request, text: int -> Bytes, t: int): Request {
    At(r.(timestamp := text(t)), t)
  }

  /** Presentations a guard window apart, each stamped with its own second. */
  function Presentations(svc: Service, r: Request, text: int -> Bytes, n: nat): seq<Request> {
    seq(n, i requires 0 <= i < n => Stamped(r, text, i * Clamp(svc.maxAge, 1, 3600)))
  }

  /** A template that leaves the timestamp out makes one signature last for ever: it is accepted once in every guard
      window, as often as one likes. */
  lemma {:induction false} TimelessSignatureHasNoBound(svc: Service, r: Request, text: int -> Bytes, n: nat)
    requires IgnoresTimestamp(svc, r) && 0 <= svc.maxAge < TWO_62 && n * 3600 < TWO_62
    requires forall t :: 0 <= t < TWO_62 ==> svc.parse(text(t)) == Some(t)
    ensures |TimesOf(Log(svc, Presentations(svc, r, text, n)), Signature(svc, r))| == n
    ensures LogUpTo(Log(svc, Presentations(svc, r, text, n)), (n - 1) * Clamp(svc.maxAge, 1, 3600))
  {
    if n == 0 {
      NothingLogged(svc, r, text);
    } else {
      TimelessSignatureHasNoBound(svc, r, text, n - 1);
      OneMorePresentation(svc, r, text, n - 1);
      PositiveWindow(svc);
      var w := Clamp(svc.maxAge, 1, 3600);
      Early(n - 1, w);
      Multiples(n, w);
      var before, t := (n - 2) * w, (n - 1) * w;
      hide *;
      OncePerWindow(svc, r, text, Presentations(svc, r, text, n - 1), before, t);
    }
  }

  lemma OneMorePresentation(svc: Service, r: Request, text: int -> Bytes, n: nat)
    ensures Presentations(svc, r, text, n + 1)
         == Presentations(svc, r, text, n) + [Stamped(r, text, n * Clamp(svc.maxAge, 1, 3600))]
  {
  }

  /** Everything in the log was accepted by the start of second `t`. */
  ghost predicate LogUpTo(log: seq<Acceptance>, t: int) {
    forall i :: 0 <= i < |log| ==> log[i].at <= t * NANOS_PER_SECOND
  }

  lemma NothingLogged(svc: Service, r: Request, text: int -> Bytes)
    ensures Presentations(svc, r, text, 0) == [] && Log(svc, []) == []
    ensures TimesOf([], Signature(svc, r)) == [] && forall t :: LogUpTo([], t)
  {
  }

  lemma Multiples(n: int, w: int)
    ensures (n - 1) * w == (n - 2) * w + w
  {
  }

  /** The next presentation, a window later, is accepted. */
  lemma OncePerWindow(svc: Service, r: Request, text: int -> Bytes, front: seq<Request>, before: int, t: int)
    requires IgnoresTimestamp(svc, r) && 0 <= svc.maxAge < TWO_62 && 0 <= t < TWO_62 && svc.parse(text(t)) == Some(t)
    requires t == before + Clamp(svc.maxAge, 1, 3600) && LogUpTo(Log(svc, front), before)
    ensures
      var log := Log(svc, front + [Stamped(r, text, t)]);
      && |TimesOf(log, Signature(svc, r))| == |TimesOf(Log(svc, front), Signature(svc, r))| + 1
      && LogUpTo(log, t)
  {
    hide Log, TimesOf, Payload, Clamp, IgnoresTimestamp;
    var q := r.(timestamp := text(t));
    SameTimeless(svc, r, text(t));
    InWindow(svc, q, t);
    PositiveWindow(svc);
    NextUse(svc, front, Log(svc, front), q, t * NANOS_PER_SECOND);
    TimesOfSnoc(Log(svc, front), Acceptance(Signature(svc, r), t * NANOS_PER_SECOND));
  }

  lemma PositiveWindow(svc: Service)
    ensures Window(svc.maxAge) == Clamp(svc.maxAge, 1, 3600) * NANOS_PER_SECOND && 1 <= Clamp(svc.maxAge, 1, 3600) <= 3600
  {
  }

  lemma SameTimeless(svc: Service, r: Request, t: Bytes)
    requires IgnoresTimestamp(svc, r)
    ensures Signature(svc, r.(timestamp := t)) == Signature(svc, r)
  {
    assert r.(timestamp := r.timestamp) == r;
    assert Payload(svc, r.(timestamp := t)) == Payload(svc, r.(timestamp := r.timestamp));
  }

  lemma {:induction false} Early(n: nat, w: int)
    requires 1 <= w <= 3600 && n * 3600 < TWO_62
    ensures 0 <= n * w <= n * 3600
  {
    if n > 0 {
      Early(n - 1, w);
      assert n * w == (n - 1) * w + w;
    }
  }

  /** Such a template: everything but the timestamp. */
  lemma MethodPathBodyIsTimeless(svc: Service, r: Request)
    requires r.template == Some("{method}{path}{body}") && '{' !in r.verb && '{' !in r.target
    ensures IgnoresTimestamp(svc, r)
  {
    forall t, u ensures Payload(svc, r.(timestamp := t)) == Payload(svc, r.(timestamp := u)) {
      Canonical.RenderTimeless(r.verb, r.target, t, r.body, svc.lossy);
      Canonical.RenderTimeless(r.verb, r.target, u, r.body, svc.lossy);
    }
  }
}
