/**
 What each execution route does, said outright: exactly when it passes, what it then writes, and what it answers.
 Conditions and effects are on the request and the tables; none of them goes through a guard or a view.
 */
module ExecutionContracts {
  import opened Text
  import opened Rbac
  import opened Guards
  import opened Hooks
  import opened ExecutionRoutes
  import opened Service
  import opened KeyContracts
  import opened HookContracts

  // ── Running and testing ────────────────────────────────────────────────────

  /** The master, or a row with the verb: nothing else lets a key run a hook, and either is enough. */
  predicate MayRun(env: Env, s: State, c: Id, h: Id)
    requires c in s.keys
  {
    ActsAsMaster(env, s, c) || Holds(s, c, h, Execute)
  }

  lemma MayRunExactly(env: Env, s: State, c: Id, h: Id)
    requires c in s.keys
    ensures GuardExecute(s, c, Effective(env, s, c), h)
         == if MayRun(env, s, c, h) then Allow else Deny(if (c, h) in s.rows then Forbidden else NotFound)
  {
  }

  /** The record a run leaves: its hook, its author, what it gave and when; and nothing else changes. */
  predicate Recorded(s: State, s': State, h: Id, author: Option<Id>, d: Draw) {
    && s' == s.(executions := s'.executions, used := s.used + {d.id})
    && d.id in s'.executions && s'.executions == s.executions[d.id := s'.executions[d.id]]
    && var x := s'.executions[d.id];
       x.hook == h && x.author == author && d.output == Some(x.report) && x.timestamp == d.now
  }

  /** Running a hook with a key: exactly when it passes, how it is refused otherwise, and the record it leaves. */
  lemma ExecuteHookExactly(env: Env, s: State, c: Id, identifier: string, h: Id, d: Draw)
    requires c in s.keys && ResolveHook(env, s, identifier) == Pass(h)
    ensures
      var e := Handle(env, s, c, PostExecute(identifier), d);
      && (e.Pass? <==> (ActsAsMaster(env, s, c) || Holds(s, c, h, Execute)) && d.output.Some?)
      && (e == Stop(NotFound) <==> !MayRun(env, s, c, h) && (c, h) !in s.rows)
      && (e == Stop(Forbidden) <==> !MayRun(env, s, c, h) && (c, h) in s.rows)
      && (e == Stop(NotRun) <==> MayRun(env, s, c, h) && d.output.None?)
      && (e.Pass? ==>
            var s' := Apply(s, WriteOf(e));
            Recorded(s, s', h, Some(c), d) && AnswerOf(e) == Ran(d.id, s'.executions[d.id], s.hooks[h].name))
  {
    hide ResolveHook, GuardExecute;
    MayRunExactly(env, s, c, h);
  }

  /** Running a hook on a route that asks for no key: it passes exactly when the run gives something. */
  lemma KeylessExecuteExactly(env: Env, s: State, identifier: string, h: Id, d: Draw)
    requires ResolveHook(env, s, identifier) == Pass(h) && FreshDraw(s, d)
    ensures
      var e := ExecuteHook(env, s, None, identifier, d);
      var s' := Next(env, s, KeylessExecute(identifier, d));
      && (e.Pass? <==> d.output.Some?)
      && (e.Pass? ==> Recorded(s, s', h, None, d) && AnswerOf(e) == Ran(d.id, s'.executions[d.id], s.hooks[h].name))
      && (e.Stop? ==> e.error == NotRun && s' == s)
  {
    hide ResolveHook, FreshDraw;
  }

  /** Testing a hook with a key: exactly when it passes, and the report it answers with; nothing is recorded. */
  lemma TestHookExactly(env: Env, s: State, c: Id, identifier: string, body: string, h: Id, d: Draw)
    requires c in s.keys && ResolveHook(env, s, identifier) == Pass(h)
    ensures
      var e := Handle(env, s, c, PostTest(identifier, body), d);
      var report := env.dryRun(s.hooks[h], map q | q in s.params && s.params[q].hook == h :: s.params[q], body);
      && (e.Pass? <==> (ActsAsMaster(env, s, c) || Holds(s, c, h, Execute)) && report.Some?)
      && (e == Stop(NotFound) <==> !MayRun(env, s, c, h) && (c, h) !in s.rows)
      && (e == Stop(Forbidden) <==> !MayRun(env, s, c, h) && (c, h) in s.rows)
      && (e == Stop(InvalidInput) <==> MayRun(env, s, c, h) && report.None?)
      && (e.Pass? ==> AnswerOf(e) == Tested(h, s.hooks[h].name, report.value))
      && Apply(s, WriteOf(e)) == s
  {
    hide ResolveHook, GuardExecute;
    MayRunExactly(env, s, c, h);
    assert ParamsOf(s, h) == map q | q in s.params && s.params[q].hook == h :: s.params[q];
  }

  /** Testing a hook on a route that asks for no key. */
  lemma KeylessTestExactly(env: Env, s: State, identifier: string, body: string, h: Id)
    requires ResolveHook(env, s, identifier) == Pass(h)
    ensures
      var e := TestHook(env, s, None, identifier, body);
      var report := env.dryRun(s.hooks[h], map q | q in s.params && s.params[q].hook == h :: s.params[q], body);
      e == if report.Some? then Pass(Effect(Nothing, Tested(h, s.hooks[h].name, report.value))) else Stop(InvalidInput)
  {
    hide ResolveHook;
    assert ParamsOf(s, h) == map q | q in s.params && s.params[q].hook == h :: s.params[q];
  }

  // ── Reading records ────────────────────────────────────────────────────────

  /** The caller wrote the record, or owns its hook, or may view or manage the hook's history. */
  predicate MayRead(env: Env, s: State, c: Id, x: Execution)
    requires c in s.keys
  {
    || ActsAsMaster(env, s, c) || x.author == Some(c)
    || (x.hook in s.hooks && s.hooks[x.hook].owner == Some(c))
    || Holds(s, c, x.hook, ViewExecution) || Holds(s, c, x.hook, Manage)
  }

  lemma MayReadExactly(env: Env, s: State, c: Id, x: Execution)
    requires c in s.keys
    ensures MayReadExecution(s, c, Effective(env, s, c), x) <==> MayRead(env, s, c, x)
    ensures InScope(s, c, Effective(env, s, c), x) <==> MayRead(env, s, c, x)
  {
    if (c, x.hook) in s.rows {
      assert (c, x.hook).0 == c && (c, x.hook).1 == x.hook;
    }
  }

  /** A record as it is shown: with the names its hook and its author now have, where they are still there. */
  predicate ShowsRecord(s: State, x: Execution, v: ExecutionView) {
    && v.execution == x
    && (x.hook in s.hooks ==> v.hookName == Some(s.hooks[x.hook].name)) && (x.hook !in s.hooks ==> v.hookName == None)
    && (match x.author
        case Some(k) => v.authorName == (if k in s.keys then Some(s.keys[k].name) else None)
        case None => v.authorName == None)
  }

  lemma ViewExactly(s: State, x: Execution)
    ensures ShowsRecord(s, x, View(s, x))
  {
  }

  /** Reading one record: a record the caller may not read is not found. */
  lemma GetExecutionExactly(env: Env, s: State, c: Id, id: Id, d: Draw)
    requires c in s.keys
    ensures
      var e := Handle(env, s, c, GetOneExecution(id), d);
      && (e.Pass? <==> id in s.executions && MayRead(env, s, c, s.executions[id]))
      && (e.Stop? ==> e.error == NotFound)
      && (e.Pass? ==> AnswerOf(e).ExecutionShown? && ShowsRecord(s, s.executions[id], AnswerOf(e).executionView))
  {
    hide MayReadExecution, MayRead, View, ShowsRecord;
    if id in s.executions {
      MayReadExactly(env, s, c, s.executions[id]);
      ViewExactly(s, s.executions[id]);
    }
  }

  /** The record is of the hook the query names, if it names one. */
  ghost predicate OfHook(env: Env, s: State, hook: Option<string>, x: Execution) {
    Given(hook) ==> ResolveHook(env, s, hook.value) == Pass(x.hook)
  }

  /** The record is of an author the query names, if it names any: by id if the text is one, else by its name. */
  predicate ByAuthor(env: Env, s: State, author: Option<string>, x: Execution) {
    Given(author) ==>
      && x.author.Some?
      && var id := env.parseId(author.value);
         if id.Some? then x.author == id
         else x.author.value in s.keys && env.nameLike(s.keys[x.author.value].name, author.value)
  }

  lemma AuthorsExactly(env: Env, s: State, q: ExecutionQuery, x: Execution)
    ensures AuthorsOf(env, s, q).None? || (x.author.Some? && x.author.value in AuthorsOf(env, s, q).value)
       <==> ByAuthor(env, s, q.author, x)
  {
  }

  /** The hook filter stands: it names no hook, or one the caller sees. */
  ghost predicate FilterStands(env: Env, s: State, c: Id, hook: Option<string>)
    requires c in s.keys
  {
    Given(hook) ==> exists h :: h in s.hooks && ResolveHook(env, s, hook.value) == Pass(h) && Sees(env, s, c, h)
  }

  lemma HookFilterExactly(env: Env, s: State, c: Id, hook: Option<string>)
    requires c in s.keys
    ensures HookFilter(env, s, c, hook).Pass? <==> FilterStands(env, s, c, hook)
    ensures HookFilter(env, s, c, hook).Stop? ==> HookFilter(env, s, c, hook).error == NotFound
    ensures HookFilter(env, s, c, hook).Pass? ==> forall x: Execution ::
              (HookFilter(env, s, c, hook).value.None? || x.hook == HookFilter(env, s, c, hook).value.value
               <==> OfHook(env, s, hook, x))
  {
    hide GuardVisibility, Sees, ResolveHook;
    if Given(hook) && ResolveHook(env, s, hook.value).Pass? {
      SeesExactly(env, s, c, ResolveHook(env, s, hook.value).value);
    }
  }

  /** Listing records: refused when the hook it asks for is not one the caller sees or a filter does not parse; otherwise
      exactly the records the caller may read that meet every filter. */
  lemma ListExecutionsExactly(env: Env, s: State, c: Id, q: ExecutionQuery, d: Draw)
    requires c in s.keys
    ensures
      var e := Handle(env, s, c, GetExecutions(q), d);
      && (e.Pass? <==> FilterStands(env, s, c, q.hook) && q.rest.Some?)
      && (e == Stop(NotFound) <==> !FilterStands(env, s, c, q.hook))
      && (e == Stop(InvalidInput) <==> FilterStands(env, s, c, q.hook) && q.rest.None?)
      && (e.Pass? ==>
            && AnswerOf(e).ExecutionsListed?
            && var listed := AnswerOf(e).executions;
               && (forall id :: id in listed <==>
                     && id in s.executions
                     && var x := s.executions[id];
                        && MayRead(env, s, c, x) && OfHook(env, s, q.hook, x) && ByAuthor(env, s, q.author, x)
                        && q.rest.value(x.report, x.timestamp))
               && forall id :: id in listed ==> ShowsRecord(s, s.executions[id], listed[id]))
  {
    hide HookFilter, FilterStands, InScope, MayRead, OfHook, ByAuthor, AuthorsOf, View, ShowsRecord;
    HookFilterExactly(env, s, c, q.hook);
    forall id | id in s.executions
      ensures InScope(s, c, Effective(env, s, c), s.executions[id]) <==> MayRead(env, s, c, s.executions[id])
      ensures ShowsRecord(s, s.executions[id], View(s, s.executions[id]))
      ensures AuthorsOf(env, s, q).None?
              || (s.executions[id].author.Some? && s.executions[id].author.value in AuthorsOf(env, s, q).value)
         <==> ByAuthor(env, s, q.author, s.executions[id])
    {
      MayReadExactly(env, s, c, s.executions[id]);
      ViewExactly(s, s.executions[id]);
      AuthorsExactly(env, s, q, s.executions[id]);
    }
  }

  // ── Removing records ───────────────────────────────────────────────────────

  /** Deleting a record: exactly when it passes, and then that record alone is gone. */
  lemma DeleteExecutionExactly(env: Env, s: State, c: Id, id: Id, d: Draw)
    requires c in s.keys
    ensures
      var e := Handle(env, s, c, RemoveOneExecution(id), d);
      && (e.Pass? <==> id in s.executions && s.executions[id].hook in s.hooks && MayEditHook(env, s, c, s.executions[id].hook))
      && (e.Pass? ==> Apply(s, WriteOf(e)) == s.(executions := s.executions - {id}) && AnswerOf(e) == Done)
  {
    hide GuardManage, MayEditHook;
    if id in s.executions && s.executions[id].hook in s.hooks {
      MayEditExactly(env, s, c, s.executions[id].hook);
    }
  }

  /** A record older than so many days, which with zero days no record is. */
  predicate IsExpiredRecord(s: State, id: Id, now: int, days: int) {
    id in s.executions && days > 0 && s.executions[id].timestamp + days * 86_400 < now
  }

  /** The expired records are gone, and nothing else. */
  ghost predicate WithoutExpired(s: State, s': State, now: int, days: int) {
    && s' == s.(executions := s'.executions)
    && (forall id :: id in s'.executions <==> id in s.executions && !IsExpiredRecord(s, id, now, days))
    && forall id :: id in s'.executions ==> s'.executions[id] == s.executions[id]
  }

  /** Purging the history: the master's, and exactly the expired records are gone. */
  lemma PurgeExecutionsExactly(env: Env, s: State, c: Id, days: Option<int>, d: Draw)
    requires c in s.keys
    ensures
      var e := Handle(env, s, c, PostPurgeExecutions(days), d);
      var window := if days.Some? then days.value else env.logRetentionDays;
      && (e.Pass? <==> ActsAsMaster(env, s, c) && window >= 0)
      && (e == Stop(Forbidden) <==> !ActsAsMaster(env, s, c))
      && (e.Pass? ==>
            && WithoutExpired(s, Apply(s, WriteOf(e)), d.now, window)
            && AnswerOf(e) == Purged(|set id | id in s.executions && IsExpiredRecord(s, id, d.now, window)|))
  {
    var window := if days.Some? then days.value else env.logRetentionDays;
    assert ExpiredExecutions(s, d.now, window) == set id | id in s.executions && IsExpiredRecord(s, id, d.now, window);
  }

  /** The background sweep does the same with the configured window. */
  lemma SweepExecutionsExactly(env: Env, s: State, now: int)
    ensures WithoutExpired(s, Next(env, s, SweepExecutions(now)), now, env.logRetentionDays)
  {
  }
}
