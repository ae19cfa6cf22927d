/** One request, or one background step, as an atomic transition; and whole runs of them. */
module Service {
  import opened Text
  import opened Rbac
  import opened KeyRoutes
  import opened HookRoutes
  import opened ExecutionRoutes

  datatype Request =
    | PostKey(createKey: CreateKeyPayload)
    | GetKeys
    | PutKey(id: Id, updateKey: UpdateKeyPayload)
    | RemoveKey(id: Id, resolutions: map<Id, Resolution>)
    | Renew(id: Id, renewal: Renewal)
    | PostPermission(id: Id, permission: GrantPayload)
    | RemovePermission(id: Id, identifier: string)
    | PostHook(createHook: CreateHookPayload)
    | GetHooks(includeDeleted: bool)
    | GetOneHook(identifier: string, includeDeleted: bool)
    | PutHook(identifier: string, updateHook: UpdateHookPayload)
    | RemoveHook(identifier: string, hard: bool)
    | PostRestore(identifier: string)
    | PostPurgeHooks(days: Option<int>)
    | GetParams(identifier: string)
    | PostParam(identifier: string, input: ParamInput)
    | PutParam(identifier: string, param: Id, updateParam: UpdateParamPayload)
    | RemoveParam(identifier: string, param: Id)
    | PostExecute(identifier: string)
    | PostTest(identifier: string, body: string)
    | GetExecutions(query: ExecutionQuery)
    | GetOneExecution(id: Id)
    | RemoveOneExecution(id: Id)
    | PostPurgeExecutions(days: Option<int>)

  predicate OnKeys(req: Request) {
    req.PostKey? || req.GetKeys? || req.PutKey? || req.RemoveKey? || req.Renew? || req.PostPermission? || req.RemovePermission?
  }

  predicate OnParams(req: Request) {
    req.GetParams? || req.PostParam? || req.PutParam? || req.RemoveParam? || req.PostExecute? || req.PostTest?
  }

  ghost function Handle(env: Env, s: State, c: Id, req: Request, d: Draw): Checked<Effect>
    requires c in s.keys
  {
    match req
    case PostKey(p) => CreateKey(env, s, c, p, d)
    case GetKeys => ListKeys(env, s, c)
    case PutKey(id, p) => UpdateKey(env, s, c, id, p)
    case RemoveKey(id, resolutions) => DeleteKey(env, s, c, id, resolutions, d)
    case Renew(id, renewal) => RenewCredentials(env, s, c, id, renewal, d)
    case PostPermission(id, p) => Grant(env, s, c, id, p)
    case RemovePermission(id, identifier) => Revoke(env, s, c, id, identifier)
    case PostHook(p) => CreateHook(env, s, c, p, d)
    case GetHooks(includeDeleted) => ListHooks(env, s, c, includeDeleted)
    case GetOneHook(identifier, includeDeleted) => GetHook(env, s, c, identifier, includeDeleted)
    case PutHook(identifier, p) => UpdateHook(env, s, c, identifier, p)
    case RemoveHook(identifier, hard) => DeleteHook(env, s, c, identifier, hard, d)
    case PostRestore(identifier) => RestoreHook(env, s, c, identifier)
    case PostPurgeHooks(days) => PurgeHooks(env, s, c, days, d)
    case GetParams(identifier) => ListParams(env, s, c, identifier)
    case PostParam(identifier, p) => CreateParam(env, s, c, identifier, p, d)
    case PutParam(identifier, param, p) => UpdateParam(env, s, c, identifier, param, p)
    case RemoveParam(identifier, param) => DeleteParam(env, s, c, identifier, param)
    case PostExecute(identifier) => ExecuteHook(env, s, Some(c), identifier, d)
    case PostTest(identifier, body) => TestHook(env, s, Some(c), identifier, body)
    case GetExecutions(q) => ListExecutions(env, s, c, q)
    case GetOneExecution(e) => GetExecution(env, s, c, e)
    case RemoveOneExecution(e) => DeleteExecution(env, s, c, e)
    case PostPurgeExecutions(days) => PurgeExecutions(env, s, c, days, d)
  }

  /** What can happen: a request by an authenticated key, a run through a hook that needs no key, and the two
      retention sweeps. */
  datatype Step =
    | Call(caller: Id, request: Request, draw: Draw)
    | KeylessExecute(identifier: string, draw: Draw)
    | SweepExecutions(now: int)
    | SweepHooks(now: int)

  /** Random ids are new and distinct. */
  ghost predicate FreshDraw(s: State, d: Draw) {
    && d.id !in s.used
    && (forall i: nat :: d.paramIds(i) !in s.used && d.paramIds(i) != d.id)
    && (forall i: nat, j: nat :: d.paramIds(i) == d.paramIds(j) ==> i == j)
  }

  ghost predicate Enabled(s: State, e: Step) {
    match e
    case Call(caller, _, draw) => caller in s.keys && FreshDraw(s, draw)
    case KeylessExecute(_, draw) => FreshDraw(s, draw)
    case _ => true
  }

  ghost function Written(env: Env, s: State, e: Step): Write
    requires Enabled(s, e)
  {
    match e
    case Call(caller, request, draw) => WriteOf(Handle(env, s, caller, request, draw))
    case KeylessExecute(identifier, draw) => WriteOf(ExecuteHook(env, s, None, identifier, draw))
    case SweepExecutions(now) => RemoveExecutions(ExpiredExecutions(s, now, env.logRetentionDays))
    case SweepHooks(now) => RemoveHooks(ExpiredHooks(s, now, env.trashRetentionDays))
  }

  ghost function Next(env: Env, s: State, e: Step): State
    requires Enabled(s, e)
  {
    Apply(s, Written(env, s, e))
  }

  /** Every step of the run is enabled where it happens. */
  ghost predicate ValidRun(env: Env, s: State, run: seq<Step>)
    decreases run
  {
    run == [] || (Enabled(s, run[0]) && ValidRun(env, Next(env, s, run[0]), run[1..]))
  }

  ghost function After(env: Env, s: State, run: seq<Step>): State
    requires ValidRun(env, s, run)
    decreases run
  {
    if run == [] then s else After(env, Next(env, s, run[0]), run[1..])
  }

  ghost predicate ByMaster(env: Env, s: State, e: Step) {
    e.Call? && e.caller in s.keys && Effective(env, s, e.caller).isMaster
  }

  /** No step of the run is a request by the master. */
  ghost predicate WithoutMaster(env: Env, s: State, run: seq<Step>)
    requires ValidRun(env, s, run)
    decreases run
  {
    run == [] || (!ByMaster(env, s, run[0]) && WithoutMaster(env, Next(env, s, run[0]), run[1..]))
  }
}
