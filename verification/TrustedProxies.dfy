/** Addresses, and the networks they are matched against. */
module Address {

  datatype Ip = V4(bits: nat) | V6(bits: nat)

  /** `prefix` leading bits of `base`. */
  datatype Network = Network(base: Ip, prefix: nat)

  const TWO_32 := 0x1_0000_0000

  /** `::ffff:a.b.c.d` becomes `a.b.c.d`; every other address is unchanged. */
  function NormalizeIp(ip: Ip): Ip {
    if ip.V6? && ip.bits / TWO_32 == 0xffff then V4(ip.bits % TWO_32) else ip
  }

  function HostRoute(ip: Ip): Network {
    Network(ip, if ip.V4? then 32 else 128)
  }

  /** `p` is the address `ip` stands for: the one embedded in `::ffff:0:0/96`, or itself. */
  predicate StandsFor(ip: Ip, p: Ip) {
    && (ip.V4? ==> p == ip)
    && (ip.V6? && 0xffff_0000_0000 <= ip.bits < 0x1_0000_0000_0000 ==> p == V4(ip.bits - 0xffff_0000_0000))
    && (ip.V6? && !(0xffff_0000_0000 <= ip.bits < 0x1_0000_0000_0000) ==> p == ip)
  }

  lemma NormalizedStandsFor(ip: Ip)
    ensures StandsFor(ip, NormalizeIp(ip))
    ensures forall p :: StandsFor(ip, p) ==> p == NormalizeIp(ip)
  {
  }

  /** `n` is the one address `ip` stands for, as a network: all 32 bits of it, or all 128. */
  predicate IsOnly(ip: Ip, n: Network) {
    StandsFor(ip, n.base) && n.prefix == if n.base.V4? then 32 else 128
  }
}

/**
 The hostname cache of the trusted-proxy set as a value: what one refresh does to it, given the clock
 readings and the DNS answers it meets, and what every sequence of refreshes keeps.
 */
module ProxyCache {
  import opened Address

  type Instant = int

  datatype Answer = Failed | Addresses(ips: seq<Ip>)

  datatype Entry = Entry(networks: seq<Network>, resolved: bool, at: Instant)

  datatype Config = Config(networks: seq<Network>, hostnames: seq<string>, ttl: int, negativeTtl: int)

  /** A DNS query: when its cache entry was found stale (or the refresh was forced), when it ended, and what it gave. */
  datatype Lookup = Lookup(name: string, asked: Instant, at: Instant, resolved: bool, forced: bool, answer: Answer)

  datatype Cache = Cache(hosts: map<string, Entry>, log: seq<Lookup>)

  /** What one hostname meets during a refresh: the clock at its freshness test, the answer DNS would
      give, and the clock once it has. */
  datatype Tick = Tick(asked: Instant, answer: Answer, at: Instant)

  /** `resolve_hostname`: an empty answer is a failure. */
  function Resolve(answer: Answer, at: Instant): Entry {
    if answer.Failed? || answer.ips == [] then Entry([], false, at)
    else Entry(seq(|answer.ips|, i requires 0 <= i < |answer.ips| => HostRoute(NormalizeIp(answer.ips[i]))), true, at)
  }

  function Ttl(c: Config, resolved: bool): int {
    if resolved then c.ttl else c.negativeTtl
  }

  predicate IsFresh(c: Config, e: Entry, now: Instant) {
    now - e.at < Ttl(c, e.resolved)
  }

  predicate Skips(c: Config, cache: Cache, name: string, tick: Tick, force: bool) {
    !force && name in cache.hosts && IsFresh(c, cache.hosts[name], tick.asked)
  }

  function Visit(c: Config, cache: Cache, name: string, tick: Tick, force: bool): Cache {
    if Skips(c, cache, name, tick, force) then cache
    else
      var e := Resolve(tick.answer, tick.at);
      Cache(cache.hosts[name := e], cache.log + [Lookup(name, tick.asked, tick.at, e.resolved, force, tick.answer)])
  }

  /** `refresh_stale` over the hostnames in order. */
  function Refresh(c: Config, cache: Cache, names: seq<string>, ticks: seq<Tick>, force: bool): Cache
    requires |names| == |ticks|
  {
    if names == [] then cache
    else
      var n := |names| - 1;
      Visit(c, Refresh(c, cache, names[..n], ticks[..n], force), names[n], ticks[n], force)
  }

  /** The clock never goes back while a refresh runs. */
  ghost predicate Ordered(ticks: seq<Tick>, from: Instant) {
    && (forall i :: 0 <= i < |ticks| ==> from <= ticks[i].asked <= ticks[i].at)
    && (forall i, j :: 0 <= i < j < |ticks| ==> ticks[i].at <= ticks[j].asked)
  }

  // ── What every refresh keeps ───────────────────────────────────────────────

  /** `k` is the last lookup of its name among the first `upTo`. */
  ghost predicate IsLast(log: seq<Lookup>, k: nat, upTo: nat)
    requires k < upTo <= |log|
  {
    forall m :: k < m < upTo ==> log[m].name != log[k].name
  }

  /** What an answer makes of an entry: nothing for a failure or an empty answer, else one network for each address, in
      order, and each no wider than that address. */
  ghost predicate Answers(answer: Answer, e: Entry) {
    && (e.resolved <==> answer.Addresses? && answer.ips != [])
    && (!e.resolved ==> e.networks == [])
    && (e.resolved ==> |e.networks| == |answer.ips| && forall i :: 0 <= i < |answer.ips| ==> IsOnly(answer.ips[i], e.networks[i]))
  }

  lemma ResolvedAnswers(answer: Answer, at: Instant)
    ensures Answers(answer, Resolve(answer, at)) && Resolve(answer, at).at == at
  {
    if answer.Addresses? {
      forall i | 0 <= i < |answer.ips| ensures IsOnly(answer.ips[i], HostRoute(NormalizeIp(answer.ips[i]))) {
        NormalizedStandsFor(answer.ips[i]);
      }
    }
  }

  ghost predicate FromLog(cache: Cache, name: string, k: nat) {
    k < |cache.log| && name in cache.hosts && cache.log[k].name == name && IsLast(cache.log, k, |cache.log|)
    && cache.hosts[name].at == cache.log[k].at && cache.hosts[name].resolved == cache.log[k].resolved
    && Answers(cache.log[k].answer, cache.hosts[name])
  }

  /** An unforced lookup happens no sooner than the lifetime of the outcome before it allows. */
  ghost predicate Patient(c: Config, log: seq<Lookup>) {
    forall i, j {:trigger log[i], log[j]} :: 0 <= i < j < |log| && log[i].name == log[j].name
      && IsLast(log, i, j) && !log[j].forced
      ==> log[j].asked >= log[i].at + Ttl(c, log[i].resolved)
  }

  ghost predicate Timed(log: seq<Lookup>, clock: Instant) {
    && (forall i :: 0 <= i < |log| ==> log[i].asked <= log[i].at <= clock)
    && (forall i, j :: 0 <= i < j < |log| ==> log[i].at <= log[j].asked)
  }

  /** Every entry is its name's last lookup, and every name looked up has one; a failed one is empty. */
  ghost predicate Recorded(cache: Cache) {
    && (forall i :: 0 <= i < |cache.log| ==> cache.log[i].name in cache.hosts)
    && (forall h :: h in cache.hosts ==> exists k :: FromLog(cache, h, k))
    && (forall h :: h in cache.hosts && !cache.hosts[h].resolved ==> cache.hosts[h].networks == [])
  }

  ghost predicate Inv(c: Config, cache: Cache, clock: Instant) {
    Timed(cache.log, clock) && Recorded(cache) && Patient(c, cache.log)
  }

  lemma VisitKeepsInv(c: Config, cache: Cache, clock: Instant, name: string, tick: Tick, force: bool)
    requires Inv(c, cache, clock) && clock <= tick.asked <= tick.at
    ensures Inv(c, Visit(c, cache, name, tick, force), tick.at)
  {
    hide Patient, Recorded, Timed;
    VisitIsTimed(c, cache, clock, name, tick, force);
    if !Skips(c, cache, name, tick, force) {
      VisitIsRecorded(c, cache, name, tick, force);
      VisitIsPatient(c, cache, name, tick, force);
    }
  }

  lemma VisitIsTimed(c: Config, cache: Cache, clock: Instant, name: string, tick: Tick, force: bool)
    requires Timed(cache.log, clock) && clock <= tick.asked <= tick.at
    ensures Timed(Visit(c, cache, name, tick, force).log, tick.at)
  {
  }

  lemma VisitIsRecorded(c: Config, cache: Cache, name: string, tick: Tick, force: bool)
    requires Recorded(cache) && !Skips(c, cache, name, tick, force)
    ensures Recorded(Visit(c, cache, name, tick, force))
  {
    hide Answers, Resolve;
    var cache' := Visit(c, cache, name, tick, force);
    var n := |cache.log|;
    ResolvedAnswers(tick.answer, tick.at);
    FailureIsEmpty(tick.answer, Resolve(tick.answer, tick.at));
    assert cache'.log[n].name == name;
    forall h | h in cache'.hosts ensures exists k :: FromLog(cache', h, k) {
      if h == name {
        assert FromLog(cache', h, n);
      } else {
        var k :| FromLog(cache, h, k);
        assert FromLog(cache', h, k);
      }
    }
  }

  lemma FailureIsEmpty(answer: Answer, e: Entry)
    requires Answers(answer, e)
    ensures !e.resolved ==> e.networks == []
  {
  }

  lemma VisitIsPatient(c: Config, cache: Cache, name: string, tick: Tick, force: bool)
    requires Patient(c, cache.log) && Recorded(cache) && !Skips(c, cache, name, tick, force)
    ensures Patient(c, Visit(c, cache, name, tick, force).log)
  {
    var log, log' := cache.log, Visit(c, cache, name, tick, force).log;
    forall i, j | 0 <= i < j < |log'| && log'[i].name == log'[j].name && IsLast(log', i, j) && !log'[j].forced
      ensures log'[j].asked >= log'[i].at + Ttl(c, log'[i].resolved)
    {
      if j < |log| {
        IsLastPrefix(log, log', i, j);
        assert log'[i] == log[i] && log'[j] == log[j];
      } else {
        LastIsTheEntry(cache, log', name, i);
      }
    }
  }

  lemma IsLastPrefix(log: seq<Lookup>, log': seq<Lookup>, i: nat, j: nat)
    requires log <= log' && i < j <= |log| && IsLast(log', i, j)
    ensures IsLast(log, i, j)
  {
    forall m | i < m < j ensures log[m].name != log[i].name {
      assert log'[m] == log[m];
    }
  }

  lemma LastIsTheEntry(cache: Cache, log': seq<Lookup>, name: string, i: nat)
    requires Recorded(cache) && cache.log <= log' && i < |cache.log| < |log'|
    requires cache.log[i].name == name && IsLast(log', i, |cache.log|)
    ensures name in cache.hosts
    ensures cache.hosts[name].at == log'[i].at && cache.hosts[name].resolved == log'[i].resolved
  {
    var log := cache.log;
    IsLastPrefix(log, log', i, |log|);
    var k :| FromLog(cache, name, k);
    assert i == k;
  }

  lemma {:induction false} RefreshKeepsInv(c: Config, cache: Cache, clock: Instant, names: seq<string>,
                                           ticks: seq<Tick>, force: bool, end: Instant)
    requires Inv(c, cache, clock) && |names| == |ticks| && Ordered(ticks, clock)
    requires clock <= end && forall i :: 0 <= i < |ticks| ==> ticks[i].at <= end
    ensures Inv(c, Refresh(c, cache, names, ticks, force), end)
  {
    if names != [] {
      var n := |names| - 1;
      var mid := ticks[n].asked;
      RefreshKeepsInv(c, cache, clock, names[..n], ticks[..n], force, mid);
      VisitKeepsInv(c, Refresh(c, cache, names[..n], ticks[..n], force), mid, names[n], ticks[n], force);
    }
  }

  /** The name has an entry that was fresh at `begin`, or was looked up after the first `from` lookups. */
  ghost predicate Current(c: Config, cache: Cache, name: string, begin: Instant, from: nat) {
    name in cache.hosts
    && (IsFresh(c, cache.hosts[name], begin) || exists k :: from <= k < |cache.log| && cache.log[k].name == name)
  }

  lemma VisitIsCurrent(c: Config, cache: Cache, name: string, tick: Tick, force: bool, begin: Instant, from: nat)
    requires begin <= tick.asked && from <= |cache.log|
    ensures Current(c, Visit(c, cache, name, tick, force), name, begin, from)
    ensures forall h :: Current(c, cache, h, begin, from) ==> Current(c, Visit(c, cache, name, tick, force), h, begin, from)
  {
    var cache' := Visit(c, cache, name, tick, force);
    if !Skips(c, cache, name, tick, force) {
      assert cache'.log[|cache.log|].name == name;
    }
    forall h | Current(c, cache, h, begin, from) ensures Current(c, cache', h, begin, from) {
      if k :| from <= k < |cache.log| && cache.log[k].name == h {
        assert cache'.log[k] == cache.log[k];
      }
    }
  }

  /** The names a refresh reports: those left unresolved by their own visit. */
  function FailedNames(c: Config, cache: Cache, names: seq<string>, ticks: seq<Tick>, force: bool): seq<string>
    requires |names| == |ticks|
  {
    if names == [] then []
    else
      var n := |names| - 1;
      var after := Visit(c, Refresh(c, cache, names[..n], ticks[..n], force), names[n], ticks[n], force);
      FailedNames(c, cache, names[..n], ticks[..n], force)
      + (if names[n] in after.hosts && !after.hosts[names[n]].resolved then [names[n]] else [])
  }

  lemma {:induction false} FailedNamesExactly(c: Config, cache: Cache, names: seq<string>, ticks: seq<Tick>, force: bool, h: string)
    requires |names| == |ticks| && forall i, j :: 0 <= i < j < |names| ==> names[i] != names[j]
    ensures h in FailedNames(c, cache, names, ticks, force)
       <==> h in names && h in Refresh(c, cache, names, ticks, force).hosts && !Refresh(c, cache, names, ticks, force).hosts[h].resolved
  {
    if names != [] {
      var n := |names| - 1;
      FailedNamesExactly(c, cache, names[..n], ticks[..n], force, h);
      assert h in names <==> h in names[..n] || h == names[n];
      assert h in names[..n] ==> h != names[n];
    }
  }

  /** The flattened view: the literals first, then exactly the addresses of the cached entries. */
  ghost predicate Flattened(merged: seq<Network>, networks: seq<Network>, hosts: map<string, Entry>) {
    networks <= merged && forall n :: n in merged <==> n in networks || Contributed(hosts, hosts.Keys, n)
  }

  ghost predicate Contributed(hosts: map<string, Entry>, names: set<string>, n: Network) {
    exists h :: h in names && h in hosts && n in hosts[h].networks
  }

  /** `n` is one address of the last answer for some name. */
  ghost predicate Believed(log: seq<Lookup>, n: Network) {
    exists k: nat, i: nat :: BelievedAt(log, n, k, i)
  }

  ghost predicate BelievedAt(log: seq<Lookup>, n: Network, k: nat, i: nat) {
    && k < |log| && IsLast(log, k, |log|) && log[k].answer.Addresses? && i < |log[k].answer.ips|
    && IsOnly(log[k].answer.ips[i], n)
  }

  lemma ContributedIsBelieved(cache: Cache, n: Network, h: string)
    requires Recorded(cache) && h in cache.hosts && n in cache.hosts[h].networks
    ensures Believed(cache.log, n)
  {
    var k :| FromLog(cache, h, k);
    hide Recorded, IsLast, IsOnly;
    var e := cache.hosts[h];
    assert e.resolved;
    var i: nat :| i < |e.networks| && e.networks[i] == n;
    assert BelievedAt(cache.log, n, k, i);
  }

  lemma BelievedIsContributed(cache: Cache, n: Network, k: nat, i: nat)
    requires Recorded(cache) && BelievedAt(cache.log, n, k, i)
    ensures Contributed(cache.hosts, cache.hosts.Keys, n)
  {
    var h := cache.log[k].name;
    var j :| FromLog(cache, h, j);
    LastIsOneOnly(cache.log, j, k);
    hide Recorded, IsLast, IsOnly;
    var e := cache.hosts[h];
    assert e.resolved && i < |e.networks|;
    OnlyOne(cache.log[k].answer.ips[i], n, e.networks[i]);
  }

  lemma LastIsOneOnly(log: seq<Lookup>, j: nat, k: nat)
    requires j < |log| && k < |log| && log[j].name == log[k].name && IsLast(log, j, |log|) && IsLast(log, k, |log|)
    ensures j == k
  {
  }

  /** The flattened view of a recorded cache: the literals, and exactly the single addresses of each name's last answer. */
  lemma FlattenedIsBelieved(merged: seq<Network>, networks: seq<Network>, cache: Cache, n: Network)
    requires Flattened(merged, networks, cache.hosts) && Recorded(cache)
    ensures n in merged <==> n in networks || Believed(cache.log, n)
  {
    hide Recorded;
    if Contributed(cache.hosts, cache.hosts.Keys, n) {
      var h :| h in cache.hosts && n in cache.hosts[h].networks;
      ContributedIsBelieved(cache, n, h);
    }
    if Believed(cache.log, n) {
      var k: nat, i: nat :| BelievedAt(cache.log, n, k, i);
      BelievedIsContributed(cache, n, k, i);
    }
  }

  lemma OnlyOne(ip: Ip, a: Network, b: Network)
    requires IsOnly(ip, a) && IsOnly(ip, b)
    ensures a == b
  {
  }

  // ── Runs ───────────────────────────────────────────────────────────────────

  /** One critical section: a refresh of every hostname, forced by `prime` or not by `resolved`. */
  datatype Event = Event(ticks: seq<Tick>, force: bool)

  function EndOf(e: Event, clock: Instant): Instant {
    if e.ticks == [] then clock else e.ticks[|e.ticks| - 1].at
  }

  function ClockAfter(events: seq<Event>, start: Instant): Instant {
    if events == [] then start else EndOf(events[|events| - 1], ClockAfter(events[..|events| - 1], start))
  }

  ghost predicate ValidRun(c: Config, events: seq<Event>, start: Instant) {
    events == []
    || (var front, e := events[..|events| - 1], events[|events| - 1];
        ValidRun(c, front, start) && |e.ticks| == |c.hostnames| && Ordered(e.ticks, ClockAfter(front, start)))
  }

  function Run(c: Config, events: seq<Event>): Cache
    requires forall i :: 0 <= i < |events| ==> |events[i].ticks| == |c.hostnames|
  {
    if events == [] then Cache(map[], [])
    else
      var e := events[|events| - 1];
      Refresh(c, Run(c, events[..|events| - 1]), c.hostnames, e.ticks, e.force)
  }

  lemma {:induction false} ValidRunTicks(c: Config, events: seq<Event>, start: Instant)
    requires ValidRun(c, events, start)
    ensures forall i :: 0 <= i < |events| ==> |events[i].ticks| == |c.hostnames|
  {
    if events != [] {
      var front := events[..|events| - 1];
      ValidRunTicks(c, front, start);
      forall i | 0 <= i < |events| ensures |events[i].ticks| == |c.hostnames| {
        if i < |front| {
          assert front[i] == events[i];
        }
      }
    }
  }

  lemma {:induction false} RunKeepsInv(c: Config, events: seq<Event>, start: Instant)
    requires ValidRun(c, events, start)
    ensures (ValidRunTicks(c, events, start); Inv(c, Run(c, events), ClockAfter(events, start)))
  {
    ValidRunTicks(c, events, start);
    if events != [] {
      var front, e := events[..|events| - 1], events[|events| - 1];
      RunKeepsInv(c, front, start);
      ValidRunTicks(c, front, start);
      RefreshKeepsInv(c, Run(c, front), ClockAfter(front, start), c.hostnames, e.ticks, e.force,
                      EndOf(e, ClockAfter(front, start)));
    }
  }

  /** In every reachable state each cached entry is what the last answer for its name makes of it. */
  lemma EntriesAreLastAnswers(c: Config, events: seq<Event>, start: Instant, name: string)
    requires ValidRun(c, events, start)
    ensures (ValidRunTicks(c, events, start);
             var cache := Run(c, events);
             name in cache.hosts ==>
               exists k :: && 0 <= k < |cache.log| && cache.log[k].name == name && IsLast(cache.log, k, |cache.log|)
                           && Answers(cache.log[k].answer, cache.hosts[name]))
  {
    ValidRunTicks(c, events, start);
    RunKeepsInv(c, events, start);
    var cache := Run(c, events);
    if name in cache.hosts {
      var k :| FromLog(cache, name, k);
    }
  }

  lemma {:induction false} ApartFrom(c: Config, cache: Cache, clock: Instant, i: nat, j: nat)
    requires Inv(c, cache, clock) && c.ttl >= 0 && c.negativeTtl >= 0
    requires i < j < |cache.log| && cache.log[i].name == cache.log[j].name
    requires forall m :: i < m <= j && cache.log[m].name == cache.log[i].name ==> !cache.log[m].forced
    ensures cache.log[j].asked >= cache.log[i].at + Ttl(c, cache.log[i].resolved)
    decreases j
  {
    var log := cache.log;
    if !IsLast(log, i, j) {
      var m :| i < m < j && log[m].name == log[i].name;
      ApartFrom(c, cache, clock, i, m);
    }
  }

  /** In every reachable state, under any interleaving of `resolved` and `prime`: two lookups of one name
      are at least the lifetime of the earlier outcome apart, as long as neither the later one nor any
      lookup of that name between them was forced. */
  lemma UnforcedLookupsApart(c: Config, events: seq<Event>, start: Instant, i: nat, j: nat)
    requires ValidRun(c, events, start) && c.ttl >= 0 && c.negativeTtl >= 0
    requires (ValidRunTicks(c, events, start);
              var log := Run(c, events).log;
              i < j < |log| && log[i].name == log[j].name
              && forall m :: i < m <= j && log[m].name == log[i].name ==> !log[m].forced)
    ensures (ValidRunTicks(c, events, start);
             var log := Run(c, events).log;
             log[j].asked >= log[i].at + Ttl(c, log[i].resolved))
  {
    ValidRunTicks(c, events, start);
    RunKeepsInv(c, events, start);
    ApartFrom(c, Run(c, events), ClockAfter(events, start), i, j);
  }

  // ── What forced lookups do to the spacing ──────────────────────────────────

  /** One name's lookups, in order. */
  function Of(log: seq<Lookup>, name: string): seq<Lookup> {
    if log == [] then []
    else
      var last := log[|log| - 1];
      Of(log[..|log| - 1], name) + (if last.name == name then [last] else [])
  }

  /** A lookup as far as the spacing is concerned: what came of it, and whether it was forced. */
  datatype Kind = Kind(resolved: bool, forced: bool)

  function KindsOf(lookups: seq<Lookup>): seq<Kind> {
    seq(|lookups|, i requires 0 <= i < |lookups| => Kind(lookups[i].resolved, lookups[i].forced))
  }

  /** The time that must pass from the first of some lookups of a name to the last: each unforced one waits out the
      lifetime of the outcome before it, a forced one waits for nothing. */
  function Owed(c: Config, kinds: seq<Kind>): int {
    if |kinds| <= 1 then 0
    else
      var n := |kinds| - 1;
      Owed(c, kinds[..n]) + (if kinds[n].forced then 0 else Ttl(c, kinds[n - 1].resolved))
  }

  ghost predicate Steady(c: Config, lookups: seq<Lookup>) {
    && (forall k :: 0 <= k < |lookups| ==> lookups[k].asked <= lookups[k].at)
    && forall k :: 1 <= k < |lookups| ==>
         && lookups[k - 1].at <= lookups[k].asked
         && (!lookups[k].forced ==> lookups[k].asked >= lookups[k - 1].at + Ttl(c, lookups[k - 1].resolved))
  }

  lemma {:induction false} LastOf(log: seq<Lookup>, name: string) returns (k: nat)
    requires Of(log, name) != []
    ensures k < |log| && log[k].name == name && IsLast(log, k, |log|)
    ensures log[k] == Of(log, name)[|Of(log, name)| - 1]
  {
    var n := |log| - 1;
    if log[n].name == name {
      k := n;
    } else {
      k := LastOf(log[..n], name);
      assert forall m :: k < m < n ==> log[..n][m] == log[m];
    }
  }

  lemma OfStep(log: seq<Lookup>, name: string)
    requires log != []
    ensures var last := log[|log| - 1];
      Of(log, name) == if last.name == name then Of(log[..|log| - 1], name) + [last] else Of(log[..|log| - 1], name)
  {
  }

  lemma {:induction false} OfIsSteady(c: Config, log: seq<Lookup>, name: string, clock: Instant)
    requires Timed(log, clock) && Patient(c, log)
    ensures Steady(c, Of(log, name))
    decreases |log|
  {
    if log != [] {
      var n := |log| - 1;
      var front := log[..n];
      Prefix(c, log, clock);
      hide Timed, Patient, IsLast, Of;
      OfIsSteady(c, front, name, clock);
      OfStep(log, name);
      if log[n].name == name {
        LastIsTimed(log, clock);
        if Of(front, name) != [] {
          var k := LastOf(front, name);
          InOrder(log, clock, k);
          LastIsPatient(c, log, k);
          SteadySnoc(c, Of(front, name), log[n]);
        }
      }
    }
  }

  lemma LastIsTimed(log: seq<Lookup>, clock: Instant)
    requires Timed(log, clock) && log != []
    ensures log[|log| - 1].asked <= log[|log| - 1].at
  {
  }

  lemma InOrder(log: seq<Lookup>, clock: Instant, k: nat)
    requires Timed(log, clock) && k < |log| - 1
    ensures log[k].at <= log[|log| - 1].asked && log[k] == log[..|log| - 1][k]
  {
  }

  lemma LastIsPatient(c: Config, log: seq<Lookup>, k: nat)
    requires Patient(c, log) && k < |log| - 1
    requires IsLast(log[..|log| - 1], k, |log| - 1) && log[k].name == log[|log| - 1].name
    ensures !log[|log| - 1].forced ==> log[|log| - 1].asked >= log[k].at + Ttl(c, log[k].resolved)
  {
    hide Patient, IsLast, Ttl;
    IsLastLonger(log[..|log| - 1], log, k);
    PatientAt(c, log, k, |log| - 1);
  }

  lemma IsLastLonger(front: seq<Lookup>, log: seq<Lookup>, k: nat)
    requires front <= log && k < |front| && IsLast(front, k, |front|)
    ensures IsLast(log, k, |front|)
  {
    forall m | k < m < |front| ensures log[m].name != log[k].name {
      assert front[m] == log[m] && front[k] == log[k];
    }
  }

  lemma PatientAt(c: Config, log: seq<Lookup>, i: nat, j: nat)
    requires Patient(c, log) && i < j < |log| && log[i].name == log[j].name && IsLast(log, i, j)
    ensures !log[j].forced ==> log[j].asked >= log[i].at + Ttl(c, log[i].resolved)
  {
    hide IsLast, Ttl;
  }

  lemma SteadySnoc(c: Config, lookups: seq<Lookup>, next: Lookup)
    requires Steady(c, lookups) && lookups != []
    requires var last := lookups[|lookups| - 1];
      && last.at <= next.asked <= next.at && (!next.forced ==> next.asked >= last.at + Ttl(c, last.resolved))
    ensures Steady(c, lookups + [next])
  {
  }

  lemma Prefix(c: Config, log: seq<Lookup>, clock: Instant)
    requires Timed(log, clock) && Patient(c, log) && log != []
    ensures Timed(log[..|log| - 1], clock) && Patient(c, log[..|log| - 1])
  {
    var front := log[..|log| - 1];
    forall i, j | 0 <= i < j < |front| && front[i].name == front[j].name && IsLast(front, i, j) && !front[j].forced
      ensures front[j].asked >= front[i].at + Ttl(c, front[i].resolved)
    {
      assert log[i] == front[i] && log[j] == front[j];
      assert IsLast(log, i, j) by {
        forall m | i < m < j ensures log[m].name != log[i].name {
          assert front[m] == log[m];
        }
      }
    }
  }

  lemma {:induction false} OwedPasses(c: Config, lookups: seq<Lookup>, i: nat, j: nat)
    requires Steady(c, lookups) && i < j < |lookups|
    ensures lookups[j].asked >= lookups[i].at + Owed(c, KindsOf(lookups[i..j + 1]))
    decreases j
  {
    var kinds := KindsOf(lookups[i..j + 1]);
    assert kinds[..|kinds| - 1] == KindsOf(lookups[i..j]);
    assert kinds[j - i] == Kind(lookups[j].resolved, lookups[j].forced);
    assert kinds[j - i - 1].resolved == lookups[j - 1].resolved;
    hide KindsOf;
    if i + 1 < j {
      OwedPasses(c, lookups, i, j - 1);
    } else {
      assert |KindsOf(lookups[i..j])| <= 1;
    }
  }

  lemma LookupsOf(c: Config, events: seq<Event>, start: Instant, name: string) returns (lookups: seq<Lookup>)
    requires ValidRun(c, events, start)
    ensures (ValidRunTicks(c, events, start); lookups == Of(Run(c, events).log, name)) && Steady(c, lookups)
  {
    ValidRunTicks(c, events, start);
    RunKeepsInv(c, events, start);
    var cache := Run(c, events);
    OfIsSteady(c, cache.log, name, ClockAfter(events, start));
    lookups := Of(cache.log, name);
  }

  /** In every reachable state, whatever was forced in between: from one lookup of a name to a later one passes at least
      what those between them, and the later one, owe. */
  lemma LookupsApart(c: Config, events: seq<Event>, start: Instant, name: string, i: nat, j: nat)
    requires ValidRun(c, events, start)
    requires (ValidRunTicks(c, events, start); i < j < |Of(Run(c, events).log, name)|)
    ensures (ValidRunTicks(c, events, start);
             var lookups := Of(Run(c, events).log, name);
             lookups[j].asked >= lookups[i].at + Owed(c, KindsOf(lookups[i..j + 1])))
  {
    var lookups := LookupsOf(c, events, start, name);
    OwedPasses(c, lookups, i, j);
  }

  /** An unforced lookup comes at least the negative lifetime after every earlier lookup of its name. */
  lemma NegativeLifetimeAlwaysHolds(c: Config, events: seq<Event>, start: Instant, name: string, i: nat, j: nat)
    requires ValidRun(c, events, start) && 0 <= c.negativeTtl <= c.ttl
    requires (ValidRunTicks(c, events, start);
              i < j < |Of(Run(c, events).log, name)| && !Of(Run(c, events).log, name)[j].forced)
    ensures (ValidRunTicks(c, events, start);
             var lookups := Of(Run(c, events).log, name);
             lookups[j].asked >= lookups[i].at + c.negativeTtl)
  {
    var lookups := LookupsOf(c, events, start, name);
    SteadyOrder(c, lookups, i, j - 1);
  }

  lemma {:induction false} SteadyOrder(c: Config, lookups: seq<Lookup>, i: nat, j: nat)
    requires Steady(c, lookups) && i <= j < |lookups|
    ensures lookups[i].at <= lookups[j].at
    decreases j
  {
    if i < j {
      SteadyOrder(c, lookups, i, j - 1);
    }
  }

  /** After a success an unforced lookup comes at least the positive lifetime later, unless a forced lookup between them
      failed. */
  lemma SuccessLastsUnlessForcedToFail(c: Config, events: seq<Event>, start: Instant, name: string, i: nat, j: nat)
    requires ValidRun(c, events, start) && 0 <= c.negativeTtl && 0 <= c.ttl
    requires (ValidRunTicks(c, events, start);
              var lookups := Of(Run(c, events).log, name);
              && i < j < |lookups| && lookups[i].resolved && !lookups[j].forced
              && forall m :: i < m < j && lookups[m].forced ==> lookups[m].resolved)
    ensures (ValidRunTicks(c, events, start);
             var lookups := Of(Run(c, events).log, name);
             lookups[j].asked >= lookups[i].at + c.ttl)
  {
    var lookups := LookupsOf(c, events, start, name);
    SuccessLasts(c, lookups, i, j);
  }

  lemma {:induction false} SuccessLasts(c: Config, lookups: seq<Lookup>, i: nat, j: nat)
    requires Steady(c, lookups) && 0 <= c.negativeTtl && 0 <= c.ttl && i < j < |lookups|
    requires lookups[i].resolved && !lookups[j].forced
    requires forall m :: i < m < j && lookups[m].forced ==> lookups[m].resolved
    ensures lookups[j].asked >= lookups[i].at + c.ttl
    decreases j
  {
    SteadyOrder(c, lookups, i, j - 1);
    if !lookups[j - 1].resolved {
      SuccessLasts(c, lookups, i, j - 1);
    }
  }

  // ── Sharpness ──────────────────────────────────────────────────────────────

  function Asking(kind: Kind, ip: Ip, t: Instant): Event {
    Event([Tick(t, if kind.resolved then Addresses([ip]) else Failed, t)], kind.forced)
  }

  /** With one configured name, a refresh at `t` that finds the entry stale, or is forced, is one more lookup. */
  lemma OneMoreLookup(c: Config, name: string, ip: Ip, events: seq<Event>, kind: Kind, t: Instant)
    requires c.hostnames == [name] && ValidRun(c, events, 0) && ClockAfter(events, 0) <= t
    requires (ValidRunTicks(c, events, 0);
              var hosts := Run(c, events).hosts;
              kind.forced || name !in hosts || !IsFresh(c, hosts[name], t))
    ensures
      var events' := events + [Asking(kind, ip, t)];
      && ValidRun(c, events', 0) && ClockAfter(events', 0) == t
      && (ValidRunTicks(c, events, 0); ValidRunTicks(c, events', 0);
          var was, is' := Run(c, events), Run(c, events');
          && is'.log == was.log + [Lookup(name, t, t, kind.resolved, kind.forced, if kind.resolved then Addresses([ip]) else Failed)]
          && name in is'.hosts && is'.hosts[name].at == t && is'.hosts[name].resolved == kind.resolved)
  {
    ValidRunTicks(c, events, 0);
    var e := Asking(kind, ip, t);
    var events' := events + [e];
    assert events'[..|events'| - 1] == events;
    ValidRunTicks(c, events', 0);
    OneName(c, Run(c, events), name, e);
  }

  /** The lookups of the given kinds, each as early as it may be: the last comes exactly what they owe after the first. */
  lemma {:induction false} Earliest(c: Config, name: string, ip: Ip, kinds: seq<Kind>) returns (events: seq<Event>)
    requires c.hostnames == [name] && 0 <= c.ttl && 0 <= c.negativeTtl && kinds != []
    ensures ValidRun(c, events, 0) && ClockAfter(events, 0) == Owed(c, kinds)
    ensures (ValidRunTicks(c, events, 0); Made(c, name, Run(c, events), kinds, Owed(c, kinds)))
    decreases |kinds|
  {
    var n := |kinds| - 1;
    if n == 0 {
      var none: seq<Event> := [];
      assert ValidRun(c, none, 0) && ClockAfter(none, 0) == 0;
      OneMoreLookup(c, name, ip, none, kinds[0], 0);
      assert none + [Asking(kinds[0], ip, 0)] == [Asking(kinds[0], ip, 0)];
      events := [Asking(kinds[0], ip, 0)];
    } else {
      var front := Earliest(c, name, ip, kinds[..n]);
      ValidRunTicks(c, front, 0);
      events := MakeOneMore(c, name, ip, kinds, front, Owed(c, kinds));
    }
  }

  /** Once more, as late as one likes but no sooner than owed. */
  lemma MakeOneMore(c: Config, name: string, ip: Ip, kinds: seq<Kind>, front: seq<Event>, t: Instant) returns (events: seq<Event>)
    requires c.hostnames == [name] && 0 <= c.ttl && 0 <= c.negativeTtl && |kinds| >= 2 && t >= Owed(c, kinds)
    requires ValidRun(c, front, 0) && ClockAfter(front, 0) == Owed(c, kinds[..|kinds| - 1])
    requires (ValidRunTicks(c, front, 0);
              Made(c, name, Run(c, front), kinds[..|kinds| - 1], Owed(c, kinds[..|kinds| - 1])))
    ensures ValidRun(c, events, 0) && ClockAfter(events, 0) == t
    ensures (ValidRunTicks(c, events, 0); Made(c, name, Run(c, events), kinds, t))
  {
    var n := |kinds| - 1;
    ValidRunTicks(c, front, 0);
    MadeIsStale(c, name, Run(c, front), kinds, t);
    events := front + [Asking(kinds[n], ip, t)];
    hide Run, ValidRun, Made, Owed, ClockAfter, Asking;
    OneMoreLookup(c, name, ip, front, kinds[n], t);
    ValidRunTicks(c, events, 0);
    MadeSnoc(c, name, Run(c, front), Run(c, events), kinds, Owed(c, kinds[..n]), t,
             if kinds[n].resolved then Addresses([ip]) else Failed);
  }

  lemma MadeIsStale(c: Config, name: string, cache: Cache, kinds: seq<Kind>, t: Instant)
    requires |kinds| >= 2 && Made(c, name, cache, kinds[..|kinds| - 1], Owed(c, kinds[..|kinds| - 1]))
    requires 0 <= c.ttl && 0 <= c.negativeTtl && t >= Owed(c, kinds)
    ensures Owed(c, kinds[..|kinds| - 1]) <= t
    ensures kinds[|kinds| - 1].forced || name !in cache.hosts || !IsFresh(c, cache.hosts[name], t)
  {
  }

  lemma MadeSnoc(c: Config, name: string, cache: Cache, cache': Cache, kinds: seq<Kind>, end: Instant, t: Instant, answer: Answer)
    requires |kinds| >= 2 && Made(c, name, cache, kinds[..|kinds| - 1], end)
    requires cache'.log == cache.log + [Lookup(name, t, t, kinds[|kinds| - 1].resolved, kinds[|kinds| - 1].forced, answer)]
    requires name in cache'.hosts && cache'.hosts[name].at == t && cache'.hosts[name].resolved == kinds[|kinds| - 1].resolved
    ensures Made(c, name, cache', kinds, t)
  {
    var n := |kinds| - 1;
    var made := KindsOf(cache'.log);
    forall k | 0 <= k < |kinds| ensures made[k] == kinds[k] {
      if k < n {
        assert KindsOf(cache.log)[k] == kinds[..n][k];
      }
    }
  }

  /** A cache whose log is lookups of `name` of these kinds, the first at 0 and the last at `end`. */
  ghost predicate Made(c: Config, name: string, cache: Cache, kinds: seq<Kind>, end: Instant) {
    && |cache.log| == |kinds| && kinds != [] && KindsOf(cache.log) == kinds
    && (forall k :: 0 <= k < |cache.log| ==> cache.log[k].name == name)
    && cache.log[0].at == 0 && cache.log[|kinds| - 1].asked == end
    && name in cache.hosts && cache.hosts[name].at == end && cache.hosts[name].resolved == kinds[|kinds| - 1].resolved
  }

  /** A run of one name in which the lookups have these kinds and the last is asked `gap` after the first ended. */
  ghost predicate Shows(c: Config, name: string, kinds: seq<Kind>, gap: int, events: seq<Event>) {
    ValidRun(c, events, 0)
    && (ValidRunTicks(c, events, 0);
        var lookups := Of(Run(c, events).log, name);
        && |lookups| == |kinds| >= 2 && KindsOf(lookups) == kinds
        && lookups[|lookups| - 1].asked - lookups[0].at == gap)
  }

  lemma {:induction false} OfAll(log: seq<Lookup>, name: string)
    requires forall k :: 0 <= k < |log| ==> log[k].name == name
    ensures Of(log, name) == log
  {
    if log != [] {
      OfAll(log[..|log| - 1], name);
    }
  }

  /** How close the first and the last of some lookups of one name can come, forced ones included, exactly: some run shows
      them `gap` apart if and only if `gap` is at least what they owe. */
  lemma SpacingExactly(c: Config, name: string, ip: Ip, kinds: seq<Kind>, gap: int)
    requires c.hostnames == [name] && 0 <= c.ttl && 0 <= c.negativeTtl && |kinds| >= 2
    ensures (exists events :: Shows(c, name, kinds, gap, events)) <==> gap >= Owed(c, kinds)
  {
    forall events | Shows(c, name, kinds, gap, events) ensures gap >= Owed(c, kinds) {
      ShowsAtLeast(c, name, kinds, gap, events);
    }
    if gap >= Owed(c, kinds) {
      var events := Spread(c, name, ip, kinds, gap);
    }
  }

  lemma ShowsAtLeast(c: Config, name: string, kinds: seq<Kind>, gap: int, events: seq<Event>)
    requires Shows(c, name, kinds, gap, events)
    ensures gap >= Owed(c, kinds)
  {
    ValidRunTicks(c, events, 0);
    var lookups := LookupsOf(c, events, 0, name);
    assert lookups[0..|lookups|] == lookups;
    OwedPasses(c, lookups, 0, |lookups| - 1);
  }

  lemma Spread(c: Config, name: string, ip: Ip, kinds: seq<Kind>, gap: int) returns (events: seq<Event>)
    requires c.hostnames == [name] && 0 <= c.ttl && 0 <= c.negativeTtl && |kinds| >= 2 && gap >= Owed(c, kinds)
    ensures Shows(c, name, kinds, gap, events)
  {
    var front := Earliest(c, name, ip, kinds[..|kinds| - 1]);
    ValidRunTicks(c, front, 0);
    events := MakeOneMore(c, name, ip, kinds, front, gap);
    ValidRunTicks(c, events, 0);
    OfAll(Run(c, events).log, name);
  }

  /** When forced lookups break the spacing that the first outcome promises: exactly when all of them together owe less
      than its lifetime. */
  lemma SpacingBreaksExactly(c: Config, name: string, ip: Ip, kinds: seq<Kind>)
    requires c.hostnames == [name] && 0 <= c.ttl && 0 <= c.negativeTtl && |kinds| >= 2
    ensures (exists gap, events :: gap < Ttl(c, kinds[0].resolved) && Shows(c, name, kinds, gap, events))
       <==> Owed(c, kinds) < Ttl(c, kinds[0].resolved)
  {
    hide Shows, Owed;
    SpacingExactly(c, name, ip, kinds, Owed(c, kinds));
    forall gap, events | gap < Ttl(c, kinds[0].resolved) && Shows(c, name, kinds, gap, events)
      ensures Owed(c, kinds) < Ttl(c, kinds[0].resolved)
    {
      ShowsAtLeast(c, name, kinds, gap, events);
    }
  }

  /** The shortest case: a success, a forced failure, and an unforced lookup, which owe the negative lifetime alone. */
  lemma ForcedLookupBreaksSpacing(c: Config, name: string, ip: Ip)
    requires c.hostnames == [name] && 0 <= c.negativeTtl && 0 <= c.ttl
    ensures
      var kinds := [Kind(true, false), Kind(false, true), Kind(false, false)];
      (exists gap, events :: gap < c.ttl && Shows(c, name, kinds, gap, events)) <==> c.negativeTtl < c.ttl
  {
    hide Shows;
    var kinds := [Kind(true, false), Kind(false, true), Kind(false, false)];
    assert kinds[..2] == [Kind(true, false), Kind(false, true)] && kinds[..2][..1] == [Kind(true, false)];
    assert Owed(c, kinds[..2][..1]) == 0 && Owed(c, kinds[..2]) == 0 && Owed(c, kinds) == c.negativeTtl;
    SpacingBreaksExactly(c, name, ip, kinds);
  }

  lemma OneName(c: Config, cache: Cache, name: string, e: Event)
    requires c.hostnames == [name] && |e.ticks| == 1
    ensures Refresh(c, cache, [name], e.ticks, e.force) == Visit(c, cache, name, e.ticks[0], e.force)
  {
    assert [name][..0] == [];
  }
}

/**
 The object behind the lock. Each method below is one critical section of the cache lock (`Resolved` is
 two), so every interleaving of callers is some sequence of these sections with time passing between
 them; `Valid` is what all of them keep.
 */
module TrustedProxies {
  import opened Address
  import opened ProxyCache

  /** The clock and DNS: time never goes back, and a name may resolve to anything at any moment. */
  class Environment {
    var now: Instant

    constructor ()
    {
    }

    method Clock() returns (t: Instant)
      modifies this
      ensures t == now >= old(now)
    {
      var elapsed: int :| elapsed >= 0;
      now := now + elapsed;
      t := now;
    }

    method LookupHost(name: string) returns (answer: Answer)
      modifies this
      ensures now >= old(now)
    {
      var elapsed: int :| elapsed >= 0;
      now := now + elapsed;
      answer := *;
    }
  }

  class TrustedProxies {
    const config: Config
    var hosts: map<string, Entry>
    var merged: seq<Network>
    ghost var log: seq<Lookup>
    ghost var clock: Instant

    ghost function Contents(): Cache
      reads this
    {
      Cache(hosts, log)
    }

    ghost predicate Valid()
      reads this
    {
      && Inv(config, Contents(), clock)
      && Flattened(merged, config.networks, hosts)
      && (forall h :: h in hosts ==> h in config.hostnames)
    }

    constructor (config: Config, now: Instant)
      ensures Valid() && this.config == config && clock == now
      ensures hosts == map[] && merged == config.networks && log == []
    {
      this.config := config;
      hosts, merged, log, clock := map[], config.networks, [], now;
    }

    /** Whether every hostname has a usable entry; the clock is read once for each name. */
    method AllFresh(env: Environment) returns (ok: bool)
      requires Valid() && clock <= env.now
      modifies env
      ensures Valid() && env.now >= old(env.now)
      ensures ok ==> forall h :: h in config.hostnames ==> h in hosts && IsFresh(config, hosts[h], old(env.now))
      ensures !ok ==> exists h :: h in config.hostnames && !(h in hosts && IsFresh(config, hosts[h], env.now))
    {
      for i := 0 to |config.hostnames|
        invariant env.now >= old(env.now)
        invariant forall j :: 0 <= j < i ==>
                    config.hostnames[j] in hosts && IsFresh(config, hosts[config.hostnames[j]], old(env.now))
      {
        var name := config.hostnames[i];
        var now := env.Clock();
        if name !in hosts || !IsFresh(config, hosts[name], now) {
          return false;
        }
      }
      ok := true;
    }

    /** Re-resolves the stale names in place, or all of them, and rebuilds the flattened view. */
    method RefreshStale(env: Environment, force: bool) returns (failed: seq<string>, ghost ticks: seq<Tick>)
      requires Valid() && clock <= env.now
      modifies this, env
      ensures Valid() && clock == env.now >= old(env.now)
      ensures |ticks| == |config.hostnames| && Ordered(ticks, old(env.now))
      ensures Contents() == Refresh(config, old(Contents()), config.hostnames, ticks, force)
      ensures failed == FailedNames(config, old(Contents()), config.hostnames, ticks, force)
      ensures forall h :: h in config.hostnames ==> Current(config, Contents(), h, old(env.now), |old(log)|)
    {
      hide Inv, Refresh, FailedNames, Current, IsFresh;
      failed, ticks := [], [];
      var changed := false;
      RefreshNothing(config, Contents(), force);
      LaterClock(config, Contents(), clock, env.now);
      clock := env.now;
      for i := 0 to |config.hostnames|
        invariant clock == env.now >= old(env.now)
        invariant |ticks| == i && Ordered(ticks, old(env.now)) && forall j :: 0 <= j < i ==> ticks[j].at <= env.now
        invariant Inv(config, Contents(), clock) && |old(log)| <= |log|
        invariant Contents() == Refresh(config, old(Contents()), config.hostnames[..i], ticks, force)
        invariant failed == FailedNames(config, old(Contents()), config.hostnames[..i], ticks, force)
        invariant forall h :: h in hosts ==> h in config.hostnames
        invariant !changed ==> hosts == old(hosts)
        invariant merged == old(merged)
        invariant forall j :: 0 <= j < i ==> Current(config, Contents(), config.hostnames[j], old(env.now), |old(log)|)
      {
        var name := config.hostnames[i];
        ghost var before, refreshed := Contents(), ticks;
        var skipped, visited := VisitName(env, name, force);
        ticks := ticks + [visited];
        if name in hosts && !hosts[name].resolved {
          failed := failed + [name];
        }
        changed := changed || !skipped;
        VisitIsCurrent(config, before, name, visited, force, old(env.now), |old(log)|);
        RefreshOneMore(config, old(Contents()), config.hostnames, refreshed, visited, force, i);
      }
      assert config.hostnames[..|config.hostnames|] == config.hostnames;
      if changed {
        merged := Merge();
      }
    }

    /** One hostname: its freshness test, then its lookup unless the test spares it. */
    method VisitName(env: Environment, name: string, force: bool) returns (skipped: bool, ghost tick: Tick)
      requires Inv(config, Contents(), clock) && clock <= env.now
      modifies this`hosts, this`log, this`clock, env
      ensures clock == env.now >= old(env.now) && old(env.now) <= tick.asked <= tick.at <= env.now
      ensures Contents() == Visit(config, old(Contents()), name, tick, force)
      ensures Inv(config, Contents(), clock)
      ensures skipped ==> hosts == old(hosts)
      ensures hosts.Keys <= old(hosts.Keys) + {name} && |log| >= |old(log)| && name in hosts
    {
      hide Inv;
      var asked := env.Clock();
      if !force && name in hosts && IsFresh(config, hosts[name], asked) {
        tick := Tick(asked, Failed, asked);
        skipped := true;
      } else {
        var answer := env.LookupHost(name);
        var at := env.Clock();
        tick := Tick(asked, answer, at);
        var entry := Resolve(answer, at);
        hosts := hosts[name := entry];
        log := log + [Lookup(name, asked, at, entry.resolved, force, answer)];
        skipped := false;
      }
      LaterClock(config, old(Contents()), clock, asked);
      VisitKeepsInv(config, old(Contents()), asked, name, tick, force);
      clock := env.now;
    }

    /** `merged` rebuilt: the values of the map in whatever order it yields them. */
    method Merge() returns (m: seq<Network>)
      ensures Flattened(m, config.networks, hosts)
    {
      m := config.networks;
      var rest := hosts.Keys;
      while rest != {}
        invariant rest <= hosts.Keys && config.networks <= m
        invariant forall n :: n in m <==> n in config.networks || Contributed(hosts, hosts.Keys - rest, n)
      {
        var h :| h in rest;
        ghost var seen := hosts.Keys - rest;
        assert forall n :: Contributed(hosts, seen + {h}, n) <==> Contributed(hosts, seen, n) || n in hosts[h].networks;
        m := m + hosts[h].networks;
        rest := rest - {h};
        assert hosts.Keys - rest == seen + {h};
      }
      assert hosts.Keys - rest == hosts.Keys;
    }

    /** The read-locked half of `resolved`: answers from the cache only if every name was fresh. */
    method ResolvedFast(env: Environment) returns (hit: bool, answer: seq<Network>)
      requires Valid() && clock <= env.now
      modifies env
      ensures Valid() && env.now >= old(env.now)
      ensures hit ==> answer == merged
                      && forall h :: h in config.hostnames ==> Current(config, Contents(), h, old(env.now), |log|)
    {
      hit := AllFresh(env);
      answer := merged;
    }

    /** The write-locked half: re-checks, and refreshes whatever is stale by then. */
    method ResolvedSlow(env: Environment) returns (answer: seq<Network>)
      requires Valid() && clock <= env.now
      modifies this, env
      ensures Valid() && clock <= env.now && env.now >= old(env.now)
      ensures answer == merged
      ensures forall h :: h in config.hostnames ==> Current(config, Contents(), h, old(env.now), |old(log)|)
    {
      var ok := AllFresh(env);
      if !ok {
        var failed, ticks := RefreshStale(env, false);
        RefreshCurrentEarlier(old(env.now), ticks, old(Contents()));
      }
      answer := merged;
    }

    /** What is current since a later moment of the same call is current since its beginning. */
    lemma RefreshCurrentEarlier(begin: Instant, ticks: seq<Tick>, before: Cache)
      requires |ticks| == |config.hostnames| && Ordered(ticks, begin)
      requires Contents() == Refresh(config, before, config.hostnames, ticks, false)
      ensures forall h :: h in config.hostnames ==> Current(config, Contents(), h, begin, |before.log|)
    {
      RefreshIsCurrent(config, before, config.hostnames, ticks, false, begin);
    }

    /** Without hostnames the literal networks are the whole answer, and neither lock nor DNS is touched. */
    method Resolved(env: Environment) returns (answer: seq<Network>)
      requires Valid() && clock <= env.now
      modifies this, env
      ensures Valid() && clock <= env.now
      ensures forall n :: n in answer <==> n in merged
      ensures forall n :: n in answer <==> n in config.networks || Believed(log, n)
      ensures forall h :: h in config.hostnames ==> Current(config, Contents(), h, old(env.now), |old(log)|)
      ensures config.hostnames == [] ==> answer == config.networks && log == old(log)
    {
      hide Believed;
      if config.hostnames == [] {
        MergedIsBelieved();
        return config.networks;
      }
      var hit;
      hit, answer := ResolvedFast(env);
      if !hit {
        label slow:
        answer := ResolvedSlow(env);
        assert forall h :: h in config.hostnames ==> Current(config, Contents(), h, old(env.now), |old(log)|) by {
          assert old@slow(env.now) >= old(env.now);
        }
      }
      MergedIsBelieved();
    }

    /** The flattened view is the literals and exactly the single addresses of each name's last answer. */
    lemma MergedIsBelieved()
      requires Valid()
      ensures forall n :: n in merged <==> n in config.networks || Believed(log, n)
    {
      forall n ensures n in merged <==> n in config.networks || Believed(log, n) {
        FlattenedIsBelieved(merged, config.networks, Contents(), n);
      }
    }

    /** Resolves every hostname unconditionally, and reports the ones that failed. */
    method Prime(env: Environment) returns (failed: seq<string>)
      requires Valid() && clock <= env.now
      modifies this, env
      ensures Valid() && clock <= env.now
      ensures exists ticks :: |ticks| == |config.hostnames| && Ordered(ticks, old(env.now))
                && Contents() == Refresh(config, old(Contents()), config.hostnames, ticks, true)
                && failed == FailedNames(config, old(Contents()), config.hostnames, ticks, true)
    {
      if config.hostnames == [] {
        ghost var none: seq<Tick> := [];
        assert Contents() == Refresh(config, old(Contents()), config.hostnames, none, true);
        return [];
      }
      ghost var ticks;
      failed, ticks := RefreshStale(env, true);
    }
  }

  lemma LaterClock(c: Config, cache: Cache, clock: Instant, now: Instant)
    requires Inv(c, cache, clock) && clock <= now
    ensures Inv(c, cache, now)
  {
  }

  lemma RefreshNothing(c: Config, cache: Cache, force: bool)
    ensures Refresh(c, cache, [], [], force) == cache && FailedNames(c, cache, [], [], force) == []
  {
  }

  lemma RefreshOneMore(c: Config, cache: Cache, names: seq<string>, ticks: seq<Tick>, tick: Tick, force: bool, i: nat)
    requires i < |names| && |ticks| == i
    ensures
      var after := Visit(c, Refresh(c, cache, names[..i], ticks, force), names[i], tick, force);
      && Refresh(c, cache, names[..i + 1], ticks + [tick], force) == after
      && FailedNames(c, cache, names[..i + 1], ticks + [tick], force)
         == FailedNames(c, cache, names[..i], ticks, force)
            + (if names[i] in after.hosts && !after.hosts[names[i]].resolved then [names[i]] else [])
  {
    assert names[..i + 1][..i] == names[..i] && (ticks + [tick])[..i] == ticks;
  }

  lemma {:induction false} RefreshIsCurrent(c: Config, cache: Cache, names: seq<string>, ticks: seq<Tick>,
                                            force: bool, begin: Instant)
    requires |names| == |ticks| && Ordered(ticks, begin)
    ensures |cache.log| <= |Refresh(c, cache, names, ticks, force).log|
    ensures forall h :: h in names ==> Current(c, Refresh(c, cache, names, ticks, force), h, begin, |cache.log|)
  {
    if names != [] {
      var n := |names| - 1;
      RefreshIsCurrent(c, cache, names[..n], ticks[..n], force, begin);
      VisitIsCurrent(c, Refresh(c, cache, names[..n], ticks[..n], force), names[n], ticks[n], force, begin, |cache.log|);
      forall h | h in names
        ensures Current(c, Refresh(c, cache, names, ticks, force), h, begin, |cache.log|)
      {
        assert h in names[..n] || h == names[n];
      }
    }
  }
}
