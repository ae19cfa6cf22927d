/**
 What each route can write. `Legal` is what every request's write satisfies, the master's included; `Sanctioned`
 is what the write of a caller below the master satisfies besides. The invariants and the containment theorems
 rest on these two alone.
 */
module Writes {
  import opened Text
  import opened Rbac
  import opened Guards
  import opened Lineage
  import opened Hooks
  import opened KeyRoutes
  import opened HookRoutes
  import opened ExecutionRoutes
  import opened Service

  // ── Rules on single rows ───────────────────────────────────────────────────

  /** A key that manages keys signs over the standard canonical string. */
  predicate KeyOk(key: Key) {
    (key.canManageKeys ==> NonEmpty(key.template).None?) && 1 <= key.maxJobs <= 1_000
  }

  predicate HookOk(env: Env, hook: Hook) {
    && hook.name != ""
    && env.scriptPathOk(hook.scriptPath)
    && ValidTimeout(hook.timeout)
    && (hook.authMode == HmacOnly ==> hook.hmacSecret.Some?)
    && (hook.runAsUser.Some? ==> EffectiveRunAsUser(hook.runAsUser) == hook.runAsUser && env.accountOk(hook.runAsUser.value))
  }

  // ── Authority ──────────────────────────────────────────────────────────────

  /** R2: the caller manages keys and holds a managing row. */
  ghost predicate Conjunction(s: State, c: Id, h: Id) {
    c in s.keys && s.keys[c].canManageKeys && Holds(s, c, h, Manage)
  }

  ghost predicate OwnsOrManages(s: State, c: Id, h: Id) {
    h in s.hooks && (s.hooks[h].owner == Some(c) || Conjunction(s, c, h))
  }

  /** The fields that say what runs, as whom and with which arguments. */
  predicate SameDispatch(a: Hook, b: Hook) {
    a.scriptPath == b.scriptPath && a.runAsUser == b.runAsUser && a.argsTemplate == b.argsTemplate
  }

  /** Everything but ownership and the trash. */
  predicate SameDefinition(a: Hook, b: Hook) {
    a.(owner := None, isDeleted := false, deletedAt := None, deletedBy := None)
    == b.(owner := None, isDeleted := false, deletedAt := None, deletedBy := None)
  }

  ghost predicate Within(row: Row, bound: Option<Row>) {
    forall v: Verb :: Allows(row, v) ==> bound.Some? && Allows(bound.value, v)
  }

  predicate FreshParams(s: State, hook: Id, declared: map<Id, Param>) {
    && (forall p :: p in declared ==> p !in s.used && p != hook && declared[p].hook == hook && IsIdentifier(declared[p].key))
    && (forall p, q :: p in declared && q in declared && declared[p].key == declared[q].key ==> p == q)
  }

  predicate ParamFits(s: State, id: Id, param: Param) {
    && param.hook in s.hooks
    && IsIdentifier(param.key)
    && (id in s.params ==> s.params[id].hook == param.hook && s.params[id].key == param.key)
    && (id !in s.params ==> id !in s.used && param.key !in ParamKeys(ParamsOf(s, param.hook)))
  }

  predicate OwnerExists(s: State, hook: Hook) {
    hook.owner.Some? ==> hook.owner.value in s.keys
  }

  ghost predicate Legal(env: Env, s: State, w: Write) {
    match w
    case Nothing => true
    case InsertKey(id, key) =>
      id !in s.used && KeyOk(key) && !key.isMaster && key.parent.Some? && key.parent.value in s.keys
    case SetKey(id, key) =>
      && id in s.keys && key.isMaster == s.keys[id].isMaster && key.parent == s.keys[id].parent
      && (KeyOk(s.keys[id]) ==> KeyOk(key))
    case RemoveKeys(doomed, resolutions, actor, _) =>
      && (exists t :: t in s.keys && !s.keys[t].isMaster && doomed == Subtree(s.keys, t))
      && resolutions.Keys == OwnedHooks(s, doomed) && ValidTargets(s, doomed, resolutions)
      && actor in s.keys
    case PutRow(holder, hook, _) => holder in s.keys && !s.keys[holder].isMaster && hook in s.hooks
    case DropRow(holder, hook) => (holder, hook) in s.rows
    case InsertHook(id, hookRow, declared, creator) =>
      && id !in s.used && HookOk(env, hookRow) && !NameTaken(s, hookRow.name, None)
      && FreshParams(s, id, declared) && (creator.Some? ==> creator.value in s.keys) && OwnerExists(s, hookRow)
    case SetHook(id, hookRow) =>
      && (id in s.hooks ==> hookRow.owner == s.hooks[id].owner || OwnerExists(s, hookRow))
      && id in s.hooks && (HookOk(env, s.hooks[id]) ==> HookOk(env, hookRow))
      && (NameTaken(s, hookRow.name, Some(id)) ==> hookRow.name == s.hooks[id].name)
    case RemoveHooks(_) => true
    case SetParam(id, param) => ParamFits(s, id, param)
    case DropParam(id) => id in s.params
    case InsertExecution(id, x) =>
      id !in s.used && x.hook in s.hooks && (x.author.Some? ==> x.author.value in s.keys)
    case RemoveExecutions(_) => true
  }

  /** A write a caller below the master can make. */
  ghost predicate Sanctioned(s: State, c: Id, w: Write)
    requires c in s.keys
  {
    match w
    case Nothing => true
    case InsertKey(_, key) =>
      s.keys[c].canManageKeys && !key.canManageKeys && !key.canManageHooks && key.parent == Some(c)
    case SetKey(id, key) =>
      && id in s.keys && !s.keys[id].isMaster && (id == c || DescendsFrom(s.keys, id, c))
      && s.keys[c].canManageKeys
      && (key.canManageKeys ==> s.keys[id].canManageKeys) && (key.canManageHooks ==> s.keys[id].canManageHooks)
    case RemoveKeys(doomed, resolutions, actor, _) =>
      && (exists t :: t in s.keys && t != c && DescendsFrom(s.keys, t, c) && doomed == Subtree(s.keys, t))
      && resolutions.Keys == OwnedHooks(s, doomed) && actor == c && s.keys[c].canManageKeys
    case PutRow(holder, hook, row) =>
      && hook in s.hooks && !s.hooks[hook].isDeleted && !Privileged(s.hooks[hook]) && Conjunction(s, c, hook)
      && (Within(row, HeldRow(s, holder, hook)) || (holder != c && Within(row, HeldRow(s, c, hook))))
    case DropRow(_, hook) => Conjunction(s, c, hook)
    case InsertHook(_, hookRow, _, creator) =>
      && s.keys[c].canManageHooks && !Privileged(hookRow) && hookRow.owner == Some(c)
      && (creator.None? || creator == Some(c))
    case SetHook(id, hookRow) =>
      && OwnsOrManages(s, c, id) && !s.hooks[id].isDeleted && !Privileged(s.hooks[id]) && !Privileged(hookRow)
      && hookRow.owner == s.hooks[id].owner
      && (!SameDispatch(s.hooks[id], hookRow) ==> Conjunction(s, c, id))
      && (hookRow.name != s.hooks[id].name || hookRow.isDeleted ==> s.hooks[id].owner == Some(c))
    case RemoveHooks(_) => false
    case SetParam(_, param) => OwnsOrManages(s, c, param.hook) && !Privileged(s.hooks[param.hook])
    case DropParam(id) =>
      && id in s.params && OwnsOrManages(s, c, s.params[id].hook) && !Privileged(s.hooks[s.params[id].hook])
    case InsertExecution(_, x) => x.author == Some(c) && Holds(s, c, x.hook, Execute)
    case RemoveExecutions(gone) =>
      forall e :: e in gone ==> e in s.executions && OwnsOrManages(s, c, s.executions[e].hook)
  }

  /** Both, for the write of one handler. */
  ghost predicate Proper(env: Env, s: State, c: Id, e: Checked<Effect>)
    requires c in s.keys
  {
    Legal(env, s, WriteOf(e)) && (!Effective(env, s, c).isMaster ==> Sanctioned(s, c, WriteOf(e)))
  }

  // ── Key routes ─────────────────────────────────────────────────────────────

  lemma CreateKeyProper(env: Env, s: State, c: Id, p: CreateKeyPayload, d: Draw)
    requires c in s.keys && d.id !in s.used
    ensures Proper(env, s, c, CreateKey(env, s, c, p, d))
  {
  }

  lemma UpdateKeyProper(env: Env, s: State, c: Id, id: Id, p: UpdateKeyPayload)
    requires c in s.keys
    ensures Proper(env, s, c, UpdateKey(env, s, c, id, p))
  {
    hide Subtree, Summary, Apply;
  }

  lemma DeleteKeyProper(env: Env, s: State, c: Id, id: Id, resolutions: map<Id, Resolution>, d: Draw)
    requires c in s.keys
    ensures Proper(env, s, c, DeleteKey(env, s, c, id, resolutions, d))
  {
    hide Subtree, OwnedHooks, ValidTargets, Inventory;
  }

  lemma RenewCredentialsProper(env: Env, s: State, c: Id, id: Id, renewal: Renewal, d: Draw)
    requires c in s.keys
    ensures Proper(env, s, c, RenewCredentials(env, s, c, id, renewal, d))
  {
    hide Subtree;
  }

  lemma ReductionIsWithin(existing: Option<Row>, row: Row)
    requires IsPermissionReduction(existing, row)
    ensures Within(row, existing)
  {
  }

  lemma DelegationIsWithin(s: State, c: Id, key: Key, hook: Id, row: Row)
    requires !key.isMaster && GuardDelegatedGrant(s, c, key, hook, row).Allow?
    ensures Within(row, HeldRow(s, c, hook)) && HeldRow(s, c, hook).Some? && key.canManageKeys && Holds(s, c, hook, Manage)
  {
  }

  lemma GrantProper(env: Env, s: State, c: Id, id: Id, p: GrantPayload)
    requires c in s.keys
    ensures Proper(env, s, c, Grant(env, s, c, id, p))
  {
    hide HasPermissionAdminStanding, KeyVisibility, ResolveHook, Privileged, Within, GuardDelegatedGrant, IsPermissionReduction;
    var e := Grant(env, s, c, id, p);
    if e.Pass? && !Effective(env, s, c).isMaster {
      var hook := e.value.write.hook;
      if IsPermissionReduction(HeldRow(s, id, hook), p.row) {
        ReductionIsWithin(HeldRow(s, id, hook), p.row);
      } else {
        DelegationIsWithin(s, c, Effective(env, s, c), hook, p.row);
      }
    }
  }

  lemma RevokeProper(env: Env, s: State, c: Id, id: Id, identifier: string)
    requires c in s.keys
    ensures Proper(env, s, c, Revoke(env, s, c, id, identifier))
  {
    hide HasPermissionAdminStanding, ResolveHook;
  }

  // ── Hook routes ────────────────────────────────────────────────────────────

  ghost predicate Injective(ids: nat -> Id) {
    forall i: nat, j: nat :: ids(i) == ids(j) ==> i == j
  }

  predicate InsertedAt(params: map<Id, Param>, hook: Id, declared: seq<ParamInput>, ids: nat -> Id, i: nat)
    requires i < |declared|
  {
    ids(i) in params && params[ids(i)] == NewParam(hook, declared[i])
  }

  /** One row per declaration, under its own id. */
  lemma {:induction false} InsertedParamsAt(hook: Id, declared: seq<ParamInput>, ids: nat -> Id, n: nat)
    requires n <= |declared| && Injective(ids)
    ensures forall p :: p in InsertedParams(hook, declared, ids, n) ==> exists i: nat :: i < n && p == ids(i)
    ensures forall i: nat :: i < n ==> InsertedAt(InsertedParams(hook, declared, ids, n), hook, declared, ids, i)
  {
    hide NewParam;
    if n > 0 {
      InsertedParamsAt(hook, declared, ids, n - 1);
      forall i: nat | i < n ensures InsertedAt(InsertedParams(hook, declared, ids, n), hook, declared, ids, i) {
        assert i < n - 1 ==> InsertedAt(InsertedParams(hook, declared, ids, n - 1), hook, declared, ids, i);
      }
    }
  }

  lemma InsertedParamsFresh(s: State, hook: Id, declared: seq<ParamInput>, ids: nat -> Id)
    requires forall i :: 0 <= i < |declared| ==> IsIdentifier(declared[i].key)
    requires forall i: nat :: ids(i) !in s.used && ids(i) != hook
    requires Injective(ids)
    ensures FreshParams(s, hook, InsertedParams(hook, declared, ids, DistinctPrefix(declared)))
  {
    hide IsIdentifier, InsertedParams, Injective;
    var n := DistinctPrefix(declared);
    var params := InsertedParams(hook, declared, ids, n);
    InsertedParamsAt(hook, declared, ids, n);
    forall p | p in params ensures exists i: nat :: i < n && p == ids(i) && params[p] == NewParam(hook, declared[i]) {
      var i: nat :| i < n && p == ids(i);
      assert InsertedAt(params, hook, declared, ids, i);
    }
    forall i: nat, j: nat | i < n && j < n && declared[i].key == declared[j].key ensures i == j {
      if i < j { DistinctPrefixDistinct(declared, i, j); }
      if j < i { DistinctPrefixDistinct(declared, j, i); }
    }
  }

  /** Two declarations with the same key. */
  predicate RepeatsKey(declared: seq<ParamInput>) {
    exists i, j :: 0 <= i < j < |declared| && declared[i].key == declared[j].key
  }

  /** Every declaration is inserted exactly when no key repeats. */
  lemma {:induction false} DistinctPrefixExactly(declared: seq<ParamInput>)
    ensures DistinctPrefix(declared) == |declared| <==> !RepeatsKey(declared)
  {
    if RepeatsKey(declared) {
      var i, j :| 0 <= i < j < |declared| && declared[i].key == declared[j].key;
      if DistinctPrefix(declared) == |declared| {
        DistinctPrefixDistinct(declared, i, j);
      }
    } else if declared != [] {
      var last := |declared| - 1;
      assert !RepeatsKey(declared[..last]);
      DistinctPrefixExactly(declared[..last]);
      assert declared[last].key !in KeySet(declared[..last]);
    }
  }

  lemma {:induction false} DistinctPrefixDistinct(declared: seq<ParamInput>, i: nat, j: nat)
    requires i < j < DistinctPrefix(declared)
    ensures declared[i].key != declared[j].key
  {
    var last := |declared| - 1;
    if j == last {
      assert declared[..last][i].key in KeySet(declared[..last]);
    } else {
      DistinctPrefixDistinct(declared[..last], i, j);
    }
  }

  lemma NormalizedAccount(env: Env, key: Key, runAsUser: Option<string>)
    requires NormalizeRunAsUser(env, key, runAsUser).Pass?
    ensures
      var user := NormalizeRunAsUser(env, key, runAsUser).value;
      && (user.Some? ==> EffectiveRunAsUser(user) == user && env.accountOk(user.value))
      && (!key.isMaster ==> user.None? && EffectiveRunAsUser(runAsUser).None?)
  {
    if EffectiveRunAsUser(runAsUser).Some? {
      TrimTwice(runAsUser.value);
    }
  }

  lemma {:induction false} TrimEndKeepsStart(s: string)
    requires s == "" || !IsWhitespace(s[0])
    ensures TrimEnd(s) == "" || !IsWhitespace(TrimEnd(s)[0])
    ensures TrimEnd(TrimEnd(s)) == TrimEnd(s)
  {
    if s != "" && IsWhitespace(s[|s| - 1]) {
      TrimEndKeepsStart(s[..|s| - 1]);
    }
  }

  lemma {:induction false} TrimStartTrims(s: string)
    ensures TrimStart(s) == "" || !IsWhitespace(TrimStart(s)[0])
  {
    if s != "" && IsWhitespace(s[0]) {
      TrimStartTrims(s[1..]);
    }
  }

  /** Trimming is idempotent, so a stored account name is its own effective account. */
  lemma TrimTwice(s: string)
    ensures Trim(Trim(s)) == Trim(s)
  {
    TrimStartTrims(s);
    TrimEndKeepsStart(TrimStart(s));
  }

  /** A hook authenticated by HMAC alone always has a secret. */
  lemma SealedSecret(env: Env, mode: AuthMode, payload: Option<string>, existing: Option<string>)
    ensures SealHmacSecret(env, mode, payload, existing).Pass? && mode == HmacOnly
        ==> SealHmacSecret(env, mode, payload, existing).value.Some?
  {
  }

  lemma CreateHookProper(env: Env, s: State, c: Id, p: CreateHookPayload, d: Draw)
    requires c in s.keys && FreshDraw(s, d)
    ensures Proper(env, s, c, CreateHook(env, s, c, p, d))
  {
    hide NormalizeRunAsUser, EffectiveRunAsUser, KeySet, InsertedParams, Detail, Apply, ValidSamplePayload,
         ArgsTemplate.ValidArgsTemplate, NameTaken, FreshParams, Trim, IsIdentifier, DistinctPrefix, SealHmacSecret;
    SealedSecret(env, Or(p.authMode, CanonicalV1), p.hmacSecret, None);
    var e := CreateHook(env, s, c, p, d);
    if e.Pass? {
      NormalizedAccount(env, Effective(env, s, c), p.runAsUser);
      var declared := Or(p.parameters, []);
      InsertedParamsFresh(s, d.id, declared, d.paramIds);
      BlankIsNoAccount();
    }
  }

  lemma BlankIsNoAccount()
    ensures EffectiveRunAsUser(None).None?
  {
  }

  lemma UpdateHookProper(env: Env, s: State, c: Id, identifier: string, p: UpdateHookPayload)
    requires c in s.keys
    ensures Proper(env, s, c, UpdateHook(env, s, c, identifier, p))
  {
    hide NormalizeRunAsUser, EffectiveRunAsUser, Detail, Apply, ValidSamplePayload, ParamKeys, ParamsOf,
         ArgsTemplate.ValidArgsTemplate, NameTaken, Trim, ResolveHook, SealHmacSecret;
    var e := UpdateHook(env, s, c, identifier, p);
    if e.Pass? {
      var hook := s.hooks[e.value.write.id];
      SealedSecret(env, Or(p.authMode, hook.authMode), p.hmacSecret, hook.hmacSecret);
      NormalizedAccount(env, Effective(env, s, c), p.runAsUser);
      BlankIsNoAccount();
    }
  }

  lemma DeleteHookProper(env: Env, s: State, c: Id, identifier: string, hard: bool, d: Draw)
    requires c in s.keys
    ensures Proper(env, s, c, DeleteHook(env, s, c, identifier, hard, d))
  {
    hide ResolveHook, FindHook, EffectiveRunAsUser;
    NothingDeletedResolves(env, s, identifier);
  }

  lemma NothingDeletedResolves(env: Env, s: State, identifier: string)
    ensures ResolveHook(env, s, identifier).Pass? ==> !s.hooks[ResolveHook(env, s, identifier).value].isDeleted
  {
  }

  lemma RestoreHookProper(env: Env, s: State, c: Id, identifier: string)
    requires c in s.keys
    ensures Proper(env, s, c, RestoreHook(env, s, c, identifier))
  {
    hide FindHook, EffectiveRunAsUser, Detail, Apply;
  }

  lemma CreateParamProper(env: Env, s: State, c: Id, identifier: string, input: ParamInput, d: Draw)
    requires c in s.keys && d.id !in s.used && s.params.Keys <= s.used
    ensures Proper(env, s, c, CreateParam(env, s, c, identifier, input, d))
  {
    hide ResolveHook, EffectiveRunAsUser, IsIdentifier, ParamsOf, ParamKeys;
  }

  lemma UpdateParamProper(env: Env, s: State, c: Id, identifier: string, id: Id, edit: UpdateParamPayload)
    requires c in s.keys && (id in s.params ==> IsIdentifier(s.params[id].key))
    ensures Proper(env, s, c, UpdateParam(env, s, c, identifier, id, edit))
  {
    hide ResolveHook, EffectiveRunAsUser, IsIdentifier, ParamKeys;
  }

  lemma DeleteParamProper(env: Env, s: State, c: Id, identifier: string, id: Id)
    requires c in s.keys
    ensures Proper(env, s, c, DeleteParam(env, s, c, identifier, id))
  {
    hide ResolveHook, EffectiveRunAsUser, ParamKeys;
  }

  // ── All routes ─────────────────────────────────────────────────────────────

  lemma ExecuteHookProper(env: Env, s: State, c: Id, identifier: string, d: Draw)
    requires c in s.keys && d.id !in s.used
    ensures Proper(env, s, c, ExecuteHook(env, s, Some(c), identifier, d))
  {
    hide ResolveHook;
  }

  lemma DeleteExecutionProper(env: Env, s: State, c: Id, e: Id)
    requires c in s.keys
    ensures Proper(env, s, c, DeleteExecution(env, s, c, e))
  {
  }

  /** The reading routes. */
  ghost predicate Reads(req: Request) {
    req.GetKeys? || req.GetHooks? || req.GetOneHook? || req.GetParams? || req.PostTest? || req.GetExecutions?
    || req.GetOneExecution?
  }

  lemma ReadersWriteNothing(env: Env, s: State, c: Id, req: Request, d: Draw)
    requires c in s.keys && Reads(req)
    ensures WriteOf(Handle(env, s, c, req, d)) == Nothing
  {
    hide ListedKeys, Detail, ParamsOf, ResolveHook, FindHook, VisibleHookIds, InScope, AuthorFilter, View,
         MayReadExecution, GuardVisibility;
  }

  lemma PurgesProper(env: Env, s: State, c: Id, days: Option<int>, d: Draw)
    requires c in s.keys
    ensures Proper(env, s, c, PurgeHooks(env, s, c, days, d))
    ensures Proper(env, s, c, PurgeExecutions(env, s, c, days, d))
  {
    hide ExpiredHooks, ExpiredExecutions;
  }

  lemma NothingProper(env: Env, s: State, c: Id, e: Checked<Effect>)
    requires c in s.keys && WriteOf(e) == Nothing
    ensures Proper(env, s, c, e)
  {
  }

  /** Every write of every request is legal, and sanctioned when the caller is not the master. */
  lemma EveryWriteProper(env: Env, s: State, c: Id, req: Request, d: Draw)
    requires c in s.keys && FreshDraw(s, d)
    requires forall p :: p in s.params ==> p in s.used && IsIdentifier(s.params[p].key)
    ensures Proper(env, s, c, Handle(env, s, c, req, d))
  {
    hide Proper, CreateKey, ListKeys, UpdateKey, DeleteKey, RenewCredentials, Grant, Revoke, CreateHook, ListHooks, GetHook,
         UpdateHook, DeleteHook, RestoreHook, PurgeHooks, ListParams, CreateParam, UpdateParam, DeleteParam, ExecuteHook,
         TestHook, ListExecutions, GetExecution, DeleteExecution, PurgeExecutions, IsIdentifier, WriteOf;
    if Reads(req) {
      ReadersWriteNothing(env, s, c, req, d);
      NothingProper(env, s, c, Handle(env, s, c, req, d));
    } else {
      match req {
        case PostKey(p) => CreateKeyProper(env, s, c, p, d);
        case PutKey(id, p) => UpdateKeyProper(env, s, c, id, p);
        case RemoveKey(id, resolutions) => DeleteKeyProper(env, s, c, id, resolutions, d);
        case Renew(id, renewal) => RenewCredentialsProper(env, s, c, id, renewal, d);
        case PostPermission(id, p) => GrantProper(env, s, c, id, p);
        case RemovePermission(id, identifier) => RevokeProper(env, s, c, id, identifier);
        case PostHook(p) => CreateHookProper(env, s, c, p, d);
        case PutHook(identifier, p) => UpdateHookProper(env, s, c, identifier, p);
        case RemoveHook(identifier, hard) => DeleteHookProper(env, s, c, identifier, hard, d);
        case PostRestore(identifier) => RestoreHookProper(env, s, c, identifier);
        case PostPurgeHooks(days) => PurgesProper(env, s, c, days, d);
        case PostParam(identifier, p) => CreateParamProper(env, s, c, identifier, p, d);
        case PutParam(identifier, param, p) => UpdateParamProper(env, s, c, identifier, param, p);
        case RemoveParam(identifier, param) => DeleteParamProper(env, s, c, identifier, param);
        case PostExecute(identifier) => ExecuteHookProper(env, s, c, identifier, d);
        case RemoveOneExecution(e) => DeleteExecutionProper(env, s, c, e);
        case PostPurgeExecutions(days) => PurgesProper(env, s, c, days, d);
      }
    }
  }
}
