/**
 The tables of the service and what may be written to them: keys, hooks, parameters, permission rows and
 execution records, with the unique keys and the declared cascade and set-null rules of the schema.
 */
module Rbac {
  import opened Text

  type Id = nat

  /** A signing pair: the public key id and the secret behind it. */
  type SigningPair = nat

  datatype AuthMode = CanonicalV1 | ApiKeyOnly | HmacOnly | NoAuth

  datatype Key = Key(
    name: string,
    token: nat,
    signing: Option<SigningPair>,
    template: Option<string>,
    boundIps: Option<string>,
    maxJobs: int,
    isMaster: bool,
    canManageKeys: bool,
    canManageHooks: bool,
    parent: Option<Id>)

  datatype Hook = Hook(
    name: string,
    description: Option<string>,
    scriptPath: string,
    timeout: int,
    runAsUser: Option<string>,
    owner: Option<Id>,
    isDeleted: bool,
    deletedAt: Option<int>,
    deletedBy: Option<Id>,
    authMode: AuthMode,
    hmacSecret: Option<string>,
    signatureHeader: Option<string>,
    signaturePrefix: Option<string>,
    canonicalTemplate: Option<string>,
    samplePayload: Option<string>,
    argsTemplate: Option<string>)

  datatype Param = Param(hook: Id, key: string, description: Option<string>, defaultValue: Option<string>, required: bool)

  datatype Row = Row(canExecute: bool, canManage: bool, canViewExecution: bool)

  datatype Verb = Execute | Manage | ViewExecution

  predicate Allows(row: Row, v: Verb) {
    match v
    case Execute => row.canExecute
    case Manage => row.canManage
    case ViewExecution => row.canViewExecution
  }

  datatype Execution = Execution(hook: Id, author: Option<Id>, report: string, timestamp: int)

  /** What the handlers consult besides the tables: the pinned master, and functions of the environment. */
  datatype Env = Env(
    pin: Option<Id>,
    parseId: string -> Option<Id>,
    scriptPathOk: string -> bool,
    accountOk: string -> bool,
    cidrsOk: string -> bool,
    jsonObject: string -> Option<set<string>>,
    seal: string -> Option<string>,
    canMint: bool,
    nameLike: (string, string) -> bool,
    dryRun: (Hook, map<Id, Param>, string) -> Option<string>,
    logRetentionDays: int,
    trashRetentionDays: int)

  /** `used` holds every id ever handed out; a random id is one outside it. */
  datatype State = State(
    keys: map<Id, Key>,
    hooks: map<Id, Hook>,
    params: map<Id, Param>,
    rows: map<(Id, Id), Row>,
    executions: map<Id, Execution>,
    used: set<Id>)

  /** `hook_permission` */
  function HeldRow(s: State, key: Id, hook: Id): Option<Row> {
    if (key, hook) in s.rows then Some(s.rows[(key, hook)]) else None
  }

  predicate Holds(s: State, key: Id, hook: Id, v: Verb) {
    (key, hook) in s.rows && Allows(s.rows[(key, hook)], v)
  }

  /** `load_parameters` */
  function ParamsOf(s: State, hook: Id): map<Id, Param> {
    map p | p in s.params && s.params[p].hook == hook :: s.params[p]
  }

  function ParamKeys(params: map<Id, Param>): set<string> {
    set p | p in params :: params[p].key
  }

  /** The key record an authenticated request carries: `is_master` counts only for the pinned master. */
  function Effective(env: Env, s: State, c: Id): Key
    requires c in s.keys
  {
    s.keys[c].(isMaster := s.keys[c].isMaster && env.pin == Some(c))
  }

  function Or<T>(o: Option<T>, default: T): T {
    if o.Some? then o.value else default
  }

  /** A string that is set, left alone, or cleared by the empty string. */
  function Replaced(payload: Option<string>, current: Option<string>): Option<string> {
    if payload.Some? then NonEmpty(payload) else current
  }

  /** What one request draws from the outside: random ids and secrets, the clock, and what running a script gave. */
  datatype Draw = Draw(id: Id, paramIds: nat -> Id, token: nat, signing: SigningPair, now: int, output: Option<string>)

  // ── Writes ─────────────────────────────────────────────────────────────────

  datatype Resolution = Trash | Reassign(to: Id)

  datatype Write =
    | Nothing
    | InsertKey(id: Id, key: Key)
    | SetKey(id: Id, key: Key)
    | RemoveKeys(doomed: set<Id>, resolutions: map<Id, Resolution>, actor: Id, now: int)
    | PutRow(holder: Id, hook: Id, row: Row)
    | DropRow(holder: Id, hook: Id)
    | InsertHook(id: Id, hookRow: Hook, declared: map<Id, Param>, creator: Option<Id>)
    | SetHook(id: Id, hookRow: Hook)
    | RemoveHooks(hooks: set<Id>)
    | SetParam(id: Id, param: Param)
    | DropParam(id: Id)
    | InsertExecution(id: Id, execution: Execution)
    | RemoveExecutions(executions: set<Id>)

  /** An owned hook of a deleted key: trashed, or handed to another key. */
  function Resolved(hook: Hook, resolution: Resolution, actor: Id, now: int): Hook {
    match resolution
    case Trash => hook.(isDeleted := true, deletedAt := Some(now), deletedBy := Some(actor))
    case Reassign(to) => hook.(owner := Some(to))
  }

  function ResolvedHooks(hooks: map<Id, Hook>, resolutions: map<Id, Resolution>, actor: Id, now: int): map<Id, Hook> {
    map h | h in hooks :: if h in resolutions then Resolved(hooks[h], resolutions[h], actor, now) else hooks[h]
  }

  /** Deleting key rows: permission rows go with them, execution records stay without an author. */
  function WithoutKeys(s: State, doomed: set<Id>): State {
    s.(keys := s.keys - doomed,
       rows := map r | r in s.rows && r.0 !in doomed :: s.rows[r],
       executions := map e | e in s.executions ::
         var x := s.executions[e];
         if x.author.Some? && x.author.value in doomed then x.(author := None) else x)
  }

  /** Deleting hook rows: parameters, permission rows and execution records go with them. */
  function WithoutHooks(s: State, gone: set<Id>): State {
    s.(hooks := s.hooks - gone,
       params := map p | p in s.params && s.params[p].hook !in gone :: s.params[p],
       rows := map r | r in s.rows && r.1 !in gone :: s.rows[r],
       executions := map e | e in s.executions && s.executions[e].hook !in gone :: s.executions[e])
  }

  function FullRow(): Row {
    Row(true, true, true)
  }

  function Apply(s: State, w: Write): State {
    match w
    case Nothing => s
    case InsertKey(id, key) => s.(keys := s.keys[id := key], used := s.used + {id})
    case SetKey(id, key) => s.(keys := s.keys[id := key])
    case RemoveKeys(doomed, resolutions, actor, now) =>
      WithoutKeys(s.(hooks := ResolvedHooks(s.hooks, resolutions, actor, now)), doomed)
    case PutRow(holder, hook, row) => s.(rows := s.rows[(holder, hook) := row])
    case DropRow(holder, hook) => s.(rows := s.rows - {(holder, hook)})
    case InsertHook(id, hookRow, declared, creator) =>
      s.(hooks := s.hooks[id := hookRow],
         params := s.params + declared,
         rows := if creator.Some? then s.rows[(creator.value, id) := FullRow()] else s.rows,
         used := s.used + {id} + declared.Keys)
    case SetHook(id, hookRow) => s.(hooks := s.hooks[id := hookRow])
    case RemoveHooks(gone) => WithoutHooks(s, gone)
    case SetParam(id, param) => s.(params := s.params[id := param], used := s.used + {id})
    case DropParam(id) => s.(params := s.params - {id})
    case InsertExecution(id, execution) => s.(executions := s.executions[id := execution], used := s.used + {id})
    case RemoveExecutions(gone) => s.(executions := s.executions - gone)
  }

  // ── Answers ────────────────────────────────────────────────────────────────

  datatype PermissionView = PermissionView(hookName: string, row: Row)

  datatype KeyView =
    | Full(name: string, hasSigningSecret: bool, template: Option<string>, boundIps: Option<string>, maxJobs: int,
           isMaster: bool, canManageKeys: bool, canManageHooks: bool, parent: Option<Id>,
           permissions: map<Id, PermissionView>)
    | Minimal(name: string, permissions: map<Id, PermissionView>)

  datatype HookDetail = HookDetail(
    hook: Hook, secretConfigured: bool, isOwner: bool, parameters: map<Id, Param>, canExecute: bool, canManage: bool)

  datatype ExecutionView = ExecutionView(execution: Execution, hookName: Option<string>, authorName: Option<string>)

  datatype OwnedEntity = OwnedEntity(name: string, owner: Option<Id>)

  datatype Error =
    | Forbidden
    | NotFound
    | InvalidInput
    | Conflict
    | Unresolved(subtree: map<Id, string>, inventory: map<Id, OwnedEntity>)
    | NotRun
    | Internal

  datatype Response =
    | Failed(error: Error)
    | Done
    | KeyCreated(id: Id, token: nat, signing: Option<SigningPair>)
    | Credentials(id: Id, newToken: Option<nat>, newSigning: Option<SigningPair>)
    | KeyShown(view: KeyView)
    | KeysListed(views: map<Id, KeyView>)
    | HookShown(id: Id, detail: HookDetail)
    | HooksListed(details: map<Id, HookDetail>)
    | ParamShown(id: Id, param: Param)
    | ParamsListed(params: map<Id, Param>)
    | Ran(id: Id, execution: Execution, hookName: string)
    | Tested(hook: Id, hookName: string, report: string)
    | ExecutionShown(executionView: ExecutionView)
    | ExecutionsListed(executions: map<Id, ExecutionView>)
    | Purged(count: nat)

  /** A guard's decision. */
  datatype Verdict = Allow | Deny(error: Error) {
    predicate IsFailure() { Deny? }
    function PropagateFailure<T>(): Checked<T>
      requires Deny?
    { Stop(error) }
  }

  /** A value, or the error a handler stops with. */
  datatype Checked<+T> = Pass(value: T) | Stop(error: Error) {
    predicate IsFailure() { Stop? }
    function PropagateFailure<U>(): Checked<U>
      requires Stop?
    { Stop(error) }
    function Extract(): T
      requires Pass?
    { value }
  }

  /** What a handler that was not stopped writes and answers. */
  datatype Effect = Effect(write: Write, response: Response)

  function Require(condition: bool, error: Error): Verdict {
    if condition then Allow else Deny(error)
  }

  function WriteOf(e: Checked<Effect>): Write {
    if e.Pass? then e.value.write else Nothing
  }

  function AnswerOf(e: Checked<Effect>): Response {
    if e.Pass? then e.value.response else Failed(e.error)
  }
}
