/** The execution routes: running and testing a hook, and the history its runs leave. */
module ExecutionRoutes {
  import opened Text
  import opened Rbac
  import opened Guards
  import opened Hooks

  /** `rest` is the parsed status and time filters, absent when one of them does not parse. They look at what the run
      gave and when it was. */
  datatype ExecutionQuery = ExecutionQuery(hook: Option<string>, author: Option<string>, rest: Option<(string, int) -> bool>)

  /** `run_hook_request`, by a key or on a route that needs none. The run itself is drawn: no output stands for
      every refusal by the parameters, the script checks or the concurrency limit. */
  ghost function ExecuteHook(env: Env, s: State, caller: Option<Id>, identifier: string, d: Draw): Checked<Effect>
    requires caller.Some? ==> caller.value in s.keys
  {
    var h :- ResolveHook(env, s, identifier);
    :- if caller.Some? then GuardExecute(s, caller.value, Effective(env, s, caller.value), h) else Allow;
    :- Require(d.output.Some?, NotRun);
    var x := Execution(h, caller, d.output.value, d.now);
    Pass(Effect(InsertExecution(d.id, x), Ran(d.id, x, s.hooks[h].name)))
  }

  /** `test_hook` */
  ghost function TestHook(env: Env, s: State, caller: Option<Id>, identifier: string, body: string): Checked<Effect>
    requires caller.Some? ==> caller.value in s.keys
  {
    var h :- ResolveHook(env, s, identifier);
    :- if caller.Some? then GuardExecute(s, caller.value, Effective(env, s, caller.value), h) else Allow;
    var report := env.dryRun(s.hooks[h], ParamsOf(s, h), body);
    :- Require(report.Some?, InvalidInput);
    Pass(Effect(Nothing, Tested(h, s.hooks[h].name, report.value)))
  }

  function View(s: State, x: Execution): ExecutionView {
    ExecutionView(x,
                  if x.hook in s.hooks then Some(s.hooks[x.hook].name) else None,
                  if x.author.Some? && x.author.value in s.keys then Some(s.keys[x.author.value].name) else None)
  }

  /** The visibility condition of `list_executions`. */
  predicate InScope(s: State, c: Id, key: Key, x: Execution) {
    key.isMaster || x.author == Some(c) || x.hook in ExecutionVisibleHookIds(s, c)
  }

  /** `resolve_api_key_filter` */
  function AuthorFilter(env: Env, s: State, raw: string): set<Id> {
    var id := env.parseId(raw);
    if id.Some? then {id.value} else set k | k in s.keys && env.nameLike(s.keys[k].name, raw)
  }

  /** The `?hook=` filter: the hook it names must be visible. */
  ghost function HookFilter(env: Env, s: State, c: Id, hook: Option<string>): Checked<Option<Id>>
    requires c in s.keys
  {
    if NonEmpty(hook).None? then Pass(None)
    else
      var h :- ResolveHook(env, s, hook.value);
      :- GuardVisibility(s, c, Effective(env, s, c), h);
      Pass(Some(h))
  }

  /** The `?api_key=` filter. */
  function AuthorsOf(env: Env, s: State, q: ExecutionQuery): Option<set<Id>> {
    if NonEmpty(q.author).Some? then Some(AuthorFilter(env, s, q.author.value)) else None
  }

  /** The query of `list_executions`, with its conditions added one by one. */
  predicate Matches(s: State, c: Id, key: Key, hook: Option<Id>, authors: Option<set<Id>>, rest: (string, int) -> bool, x: Execution) {
    && InScope(s, c, key, x)
    && (hook.None? || x.hook == hook.value)
    && (authors.None? || (x.author.Some? && x.author.value in authors.value))
    && rest(x.report, x.timestamp)
  }

  function Matching(s: State, c: Id, key: Key, hook: Option<Id>, authors: Option<set<Id>>, rest: (string, int) -> bool)
    : map<Id, ExecutionView>
  {
    map e | e in s.executions && Matches(s, c, key, hook, authors, rest, s.executions[e]) :: View(s, s.executions[e])
  }

  /** `list_executions` */
  ghost function ListExecutions(env: Env, s: State, c: Id, q: ExecutionQuery): Checked<Effect>
    requires c in s.keys
  {
    var key := Effective(env, s, c);
    var hook :- HookFilter(env, s, c, q.hook);
    :- Require(q.rest.Some?, InvalidInput);
    Pass(Effect(Nothing, ExecutionsListed(Matching(s, c, key, hook, AuthorsOf(env, s, q), q.rest.value))))
  }

  /** `get_execution` */
  function GetExecution(env: Env, s: State, c: Id, e: Id): Checked<Effect>
    requires c in s.keys
  {
    var key := Effective(env, s, c);
    :- Require(e in s.executions, NotFound);
    :- Require(MayReadExecution(s, c, key, s.executions[e]), NotFound);
    Pass(Effect(Nothing, ExecutionShown(View(s, s.executions[e]))))
  }

  /** `delete_execution` */
  function DeleteExecution(env: Env, s: State, c: Id, e: Id): Checked<Effect>
    requires c in s.keys
  {
    var key := Effective(env, s, c);
    :- Require(e in s.executions, NotFound);
    var h := s.executions[e].hook;
    :- Require(h in s.hooks, NotFound);
    :- GuardManage(s, c, key, h);
    Pass(Effect(RemoveExecutions({e}), Done))
  }

  /** `purge_expired_executions` */
  function ExpiredExecutions(s: State, now: int, days: int): set<Id> {
    set e | e in s.executions && days > 0 && s.executions[e].timestamp < now - days * 86_400
  }

  /** `purge_executions` */
  function PurgeExecutions(env: Env, s: State, c: Id, days: Option<int>, d: Draw): Checked<Effect>
    requires c in s.keys
  {
    var key := Effective(env, s, c);
    :- Require(key.isMaster, Forbidden);
    :- Require(Or(days, env.logRetentionDays) >= 0, InvalidInput);
    var gone := ExpiredExecutions(s, d.now, Or(days, env.logRetentionDays));
    Pass(Effect(RemoveExecutions(gone), Purged(|gone|)))
  }
}
