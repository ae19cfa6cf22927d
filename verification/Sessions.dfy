/** Sessions: the requests of one caller below the master, one after the other, and what each leaves untouched. */
module Sessions {
  import opened Text
  import opened Rbac
  import opened Guards
  import opened Lineage
  import opened Hooks
  import opened KeyRoutes
  import opened HookRoutes
  import opened ExecutionRoutes
  import opened Service
  import opened Writes
  import opened Invariants
  import ArgsTemplate

  datatype Exchange = Exchange(request: Request, draw: Draw)

  ghost function Moved(env: Env, s: State, c: Id, x: Exchange): State
    requires c in s.keys
  {
    Apply(s, WriteOf(Handle(env, s, c, x.request, x.draw)))
  }

  /** Each exchange draws new ids. */
  ghost predicate FreshSession(env: Env, s: State, c: Id, session: seq<Exchange>)
    decreases session
  {
    session != [] ==>
      c in s.keys && FreshDraw(s, session[0].draw) && FreshSession(env, Moved(env, s, c, session[0]), c, session[1..])
  }

  /** From two states the session runs alike: each request writes and answers the same. */
  ghost predicate SameEffects(env: Env, s: State, s0: State, c: Id, session: seq<Exchange>)
    decreases session
  {
    session != [] ==>
      && c in s.keys && c in s0.keys
      && Handle(env, s, c, session[0].request, session[0].draw) == Handle(env, s0, c, session[0].request, session[0].draw)
      && SameEffects(env, Moved(env, s, c, session[0]), Moved(env, s0, c, session[0]), c, session[1..])
  }

  /** The answers to a session, in order. */
  ghost function Transcript(env: Env, s: State, c: Id, session: seq<Exchange>): seq<Response>
    decreases session
  {
    if session == [] || c !in s.keys then []
    else
      [AnswerOf(Handle(env, s, c, session[0].request, session[0].draw))]
      + Transcript(env, Moved(env, s, c, session[0]), c, session[1..])
  }

  // ── The caller and its subtree ─────────────────────────────────────────────

  lemma CallerSurvives(env: Env, s: State, c: Id, w: Write)
    requires References(s) && Forest(s.keys) && c in s.keys && Legal(env, s, w) && Sanctioned(s, c, w)
    ensures c in Apply(s, w).keys && Apply(s, w).keys[c].isMaster == s.keys[c].isMaster
  {
    hide Forest, HookOk, KeyOk, NameTaken, Subtree, ValidTargets, OwnedHooks, DescendsFrom, ResolvedHooks,
         Within, Privileged, SameDispatch, ParamFits, FreshParams, OwnsOrManages;
    if w.RemoveKeys? {
      var t :| t in s.keys && t != c && DescendsFrom(s.keys, t, c) && w.doomed == Subtree(s.keys, t);
      AncestorOutsideSubtree(s.keys, c, t);
    }
  }

  /** Below the caller there is nothing new but the key it creates. */
  lemma DescendantsAfter(env: Env, s: State, c: Id, w: Write, k: Id)
    requires References(s) && Forest(s.keys) && c in s.keys && Legal(env, s, w) && k in Descendants(Apply(s, w).keys, c)
    ensures k in Descendants(s.keys, c) || (w.InsertKey? && k == w.id)
  {
    hide Forest, HookOk, KeyOk, NameTaken, Subtree, ValidTargets, OwnedHooks, DescendsFrom, ResolvedHooks,
         Within, Privileged, SameDispatch, ParamFits, FreshParams, OwnsOrManages;
    var keys' := Apply(s, w).keys;
    if w.InsertKey? {
      if k != w.id {
        OldDescents(s.keys, w.id, w.key, k, c);
      }
    } else {
      SubmapDescends(keys', s.keys, k, c);
    }
  }

  lemma OldDescents(keys: map<Id, Key>, id: Id, key: Key, k: Id, c: Id)
    requires Forest(keys) && id !in keys && k in keys && DescendsFrom(keys[id := key], k, c)
    ensures DescendsFrom(keys, k, c)
  {
    hide Forest;
    var n: nat :| n >= 1 && Ancestor(keys[id := key], k, n) == Some(c);
    NoPathToLeaf(keys, id, key, k, n);
  }

  // ── Where a write comes from ───────────────────────────────────────────────

  /** Which request a hook's name, a written row, or the removal of keys comes from. */
  ghost predicate NamesFrom(s: State, req: Request, w: Write) {
    && (w.RemoveKeys? ==> req.RemoveKey?) && (w.PutRow? ==> req.PostPermission?)
    && (w.SetHook? ==> req.PutHook? || req.RemoveHook? || req.PostRestore?)
    && (w.InsertHook? ==> req.PostHook? && w.hookRow.name == Trim(req.createHook.name))
    && (w.SetHook? ==> w.id in s.hooks)
    && (w.SetHook? && w.hookRow.name != s.hooks[w.id].name ==>
          req.PutHook? && req.updateHook.name.Some? && w.hookRow.name == Trim(req.updateHook.name.value))
  }

  lemma KeyRoutesNameNothing(env: Env, s: State, c: Id, req: Request, d: Draw)
    requires c in s.keys && (req.PostKey? || req.PutKey? || req.RemoveKey? || req.Renew? || req.PostPermission? || req.RemovePermission?)
    ensures NamesFrom(s, req, WriteOf(Handle(env, s, c, req, d)))
  {
    hide KeyVisibility, Subtree, OwnedHooks, Inventory, ValidTargets, ResolveHook, HasPermissionAdminStanding, GuardRowWrite,
         Summary, Apply, Trim, Privileged, Effective;
  }

  lemma CreateHookNames(env: Env, s: State, c: Id, p: CreateHookPayload, d: Draw)
    requires c in s.keys
    ensures NamesFrom(s, PostHook(p), WriteOf(CreateHook(env, s, c, p, d)))
  {
    hide Trim, NormalizeRunAsUser, SealHmacSecret, ValidSamplePayload, ArgsTemplate.ValidArgsTemplate, NameTaken, Apply,
         IsIdentifier, KeySet, DistinctPrefix, InsertedParams, Detail, Effective;
  }

  lemma UpdateHookNames(env: Env, s: State, c: Id, identifier: string, p: UpdateHookPayload)
    requires c in s.keys
    ensures NamesFrom(s, PutHook(identifier, p), WriteOf(UpdateHook(env, s, c, identifier, p)))
  {
    hide Trim, NormalizeRunAsUser, SealHmacSecret, ValidSamplePayload, ArgsTemplate.ValidArgsTemplate, NameTaken, Apply,
         ParamKeys, ParamsOf, Detail, Effective, ResolveHook, GuardManage, GuardDispatchConfiguration, Privileged;
  }

  lemma TrashNames(env: Env, s: State, c: Id, req: Request, d: Draw)
    requires c in s.keys && (req.RemoveHook? || req.PostRestore? || req.PostPurgeHooks? || req.PostPurgeExecutions?)
    ensures NamesFrom(s, req, WriteOf(Handle(env, s, c, req, d)))
  {
    hide Trim, Apply, Detail, Effective, FindHook, ResolveHook, GuardManage, Privileged, ExpiredHooks, ExpiredExecutions;
  }

  lemma ParamAndExecutionNames(env: Env, s: State, c: Id, req: Request, d: Draw)
    requires c in s.keys && (req.PostParam? || req.PutParam? || req.RemoveParam? || req.PostExecute? || req.RemoveOneExecution?)
    ensures NamesFrom(s, req, WriteOf(Handle(env, s, c, req, d)))
  {
    hide Trim, ParamGate, ParamKeys, ParamsOf, IsIdentifier, Effective, ResolveHook, GuardExecute, GuardManage;
  }

  lemma EveryRequestNames(env: Env, s: State, c: Id, req: Request, d: Draw)
    requires c in s.keys
    ensures NamesFrom(s, req, WriteOf(Handle(env, s, c, req, d)))
  {
    hide CreateKey, ListKeys, UpdateKey, DeleteKey, RenewCredentials, Grant, Revoke, CreateHook, ListHooks, GetHook,
         UpdateHook, DeleteHook, RestoreHook, PurgeHooks, ListParams, CreateParam, UpdateParam, DeleteParam, ExecuteHook,
         TestHook, ListExecutions, GetExecution, DeleteExecution, PurgeExecutions, Trim, WriteOf;
    if Reads(req) {
      ReadersWriteNothing(env, s, c, req, d);
    } else if req.PostHook? {
      CreateHookNames(env, s, c, req.createHook, d);
    } else if req.PutHook? {
      UpdateHookNames(env, s, c, req.identifier, req.updateHook);
    } else if req.RemoveHook? || req.PostRestore? || req.PostPurgeHooks? || req.PostPurgeExecutions? {
      TrashNames(env, s, c, req, d);
    } else if req.PostParam? || req.PutParam? || req.RemoveParam? || req.PostExecute? || req.RemoveOneExecution? {
      ParamAndExecutionNames(env, s, c, req, d);
    } else {
      KeyRoutesNameNothing(env, s, c, req, d);
    }
  }
}
