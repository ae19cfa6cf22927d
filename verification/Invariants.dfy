/** What every run keeps: references, lineage, one master, and the rules on key, hook and parameter rows. */
module Invariants {
  import opened Text
  import opened Rbac
  import opened Guards
  import opened Lineage
  import opened Hooks
  import opened HookRoutes
  import opened KeyRoutes
  import opened ExecutionRoutes
  import opened Service
  import opened Writes

  /** Ids are used once; rows, parameters and records refer to what exists. */
  predicate References(s: State) {
    && s.keys.Keys <= s.used && s.hooks.Keys <= s.used && s.params.Keys <= s.used && s.executions.Keys <= s.used
    && (forall r :: r in s.rows ==> r.0 in s.keys && r.1 in s.hooks)
    && (forall p :: p in s.params ==> s.params[p].hook in s.hooks)
    && (forall e :: e in s.executions ==> s.executions[e].hook in s.hooks)
    && (forall e :: e in s.executions && s.executions[e].author.Some? ==> s.executions[e].author.value in s.keys)
  }

  /** An owner, even one that is gone, keeps its id: no new key ever inherits a hook. */
  predicate OwnersUsed(s: State) {
    forall h :: h in s.hooks && s.hooks[h].owner.Some? ==> s.hooks[h].owner.value in s.used
  }

  /** Exactly one master, without a parent. */
  predicate IsSoleMaster(keys: map<Id, Key>, m: Id) {
    m in keys && keys[m].parent.None? && forall k :: k in keys ==> (keys[k].isMaster <==> k == m)
  }

  ghost predicate OneMaster(keys: map<Id, Key>) {
    exists m :: IsSoleMaster(keys, m)
  }

  predicate KeyRules(keys: map<Id, Key>) {
    forall k :: k in keys ==> KeyOk(keys[k])
  }

  predicate UniqueNames(hooks: map<Id, Hook>) {
    forall g, h :: g in hooks && h in hooks && hooks[g].name == hooks[h].name ==> g == h
  }

  predicate HookRules(env: Env, hooks: map<Id, Hook>) {
    UniqueNames(hooks) && forall h :: h in hooks ==> HookOk(env, hooks[h])
  }

  predicate ParamRules(params: map<Id, Param>) {
    && (forall p :: p in params ==> IsIdentifier(params[p].key))
    && (forall p, q :: p in params && q in params && params[p].hook == params[q].hook && params[p].key == params[q].key
          ==> p == q)
  }

  ghost predicate Inv(env: Env, s: State) {
    && References(s) && OwnersUsed(s) && Forest(s.keys) && OneMaster(s.keys) && KeyRules(s.keys) && HookRules(env, s.hooks)
    && ParamRules(s.params)
  }

  /** Names are unique, so the row a name finds is determined. */
  lemma FindByName(env: Env, s: State, identifier: string, g: Id)
    requires UniqueNames(s.hooks) && NamesHook(s, identifier, g)
    requires env.parseId(identifier).None? || env.parseId(identifier).value !in s.hooks
    ensures FindHook(env, s, identifier) == Pass(g)
  {
  }

  lemma InvParts(env: Env, s: State)
    requires Inv(env, s)
    ensures References(s) && OwnersUsed(s) && Forest(s.keys)
    ensures forall p :: p in s.params ==> p in s.used && IsIdentifier(s.params[p].key)
  {
    hide IsIdentifier, KeyRules, HookRules, OneMaster, Forest, OwnersUsed;
  }

  // ── Each rule across a legal write ─────────────────────────────────────────

  lemma KeptReferences(env: Env, s: State, w: Write)
    requires References(s) && Legal(env, s, w)
    ensures References(Apply(s, w))
  {
    hide HookOk, KeyOk, NameTaken, Subtree, OwnedHooks, ValidTargets, ParamsOf, ParamKeys, IsIdentifier;
  }

  lemma KeptOwners(env: Env, s: State, w: Write)
    requires References(s) && OwnersUsed(s) && Legal(env, s, w)
    ensures OwnersUsed(Apply(s, w))
  {
    hide HookOk, KeyOk, NameTaken, Subtree, OwnedHooks, ParamFits, FreshParams;
  }

  lemma KeptForest(env: Env, s: State, w: Write)
    requires References(s) && Forest(s.keys) && Legal(env, s, w)
    ensures Forest(Apply(s, w).keys)
  {
    hide Forest, HookOk, KeyOk, NameTaken, Subtree, OwnedHooks, ValidTargets, ParamFits, FreshParams, ResolvedHooks,
         DescendsFrom;
    match w {
      case InsertKey(id, key) => NewLeafKeepsForest(s.keys, id, key);
      case SetKey(id, key) => SameParentsKeepForest(s.keys, s.keys[id := key]);
      case RemoveKeys(doomed, _, _, _) =>
        var t :| t in s.keys && !s.keys[t].isMaster && doomed == Subtree(s.keys, t);
        SubtreeRemovalKeepsForest(s.keys, t);
      case _ =>
    }
  }

  lemma KeptMaster(env: Env, s: State, w: Write, m: Id)
    requires References(s) && Forest(s.keys) && IsSoleMaster(s.keys, m) && Legal(env, s, w)
    ensures IsSoleMaster(Apply(s, w).keys, m)
  {
    hide Forest, HookOk, KeyOk, NameTaken, Subtree, OwnedHooks, ValidTargets, ParamFits, FreshParams, ResolvedHooks,
         DescendsFrom;
    if w.RemoveKeys? {
      var t :| t in s.keys && !s.keys[t].isMaster && w.doomed == Subtree(s.keys, t);
      RootOutsideSubtree(s.keys, m, t);
    }
  }

  lemma KeptKeyRules(env: Env, s: State, w: Write)
    requires KeyRules(s.keys) && Legal(env, s, w)
    ensures KeyRules(Apply(s, w).keys)
  {
    hide KeyOk, HookOk, NameTaken, Subtree, OwnedHooks, ValidTargets, ParamFits, FreshParams, ResolvedHooks;
  }

  lemma NewNameKeepsUnique(s: State, id: Id, hook: Hook)
    requires UniqueNames(s.hooks)
    requires NameTaken(s, hook.name, Some(id)) ==> id in s.hooks && hook.name == s.hooks[id].name
    ensures UniqueNames(s.hooks[id := hook])
  {
  }

  lemma KeptNames(env: Env, s: State, w: Write)
    requires References(s) && UniqueNames(s.hooks) && Legal(env, s, w)
    ensures UniqueNames(Apply(s, w).hooks)
  {
    hide UniqueNames, KeyOk, HookOk, Subtree, OwnedHooks, ValidTargets, ParamFits, FreshParams, NameTaken;
    match w {
      case InsertHook(id, hook, _, _) =>
        FreshName(s, id, hook.name);
        NewNameKeepsUnique(s, id, hook);
      case SetHook(id, hook) => NewNameKeepsUnique(s, id, hook);
      case RemoveKeys(_, resolutions, actor, now) => SameNamesUnique(s.hooks, ResolvedHooks(s.hooks, resolutions, actor, now));
      case RemoveHooks(gone) => SameNamesUnique(s.hooks, s.hooks - gone);
      case _ =>
    }
  }

  lemma FreshName(s: State, id: Id, name: string)
    requires id !in s.hooks && !NameTaken(s, name, None)
    ensures !NameTaken(s, name, Some(id))
  {
  }

  lemma SameNamesUnique(hooks: map<Id, Hook>, hooks': map<Id, Hook>)
    requires UniqueNames(hooks)
    requires forall h :: h in hooks' ==> h in hooks && hooks'[h].name == hooks[h].name
    ensures UniqueNames(hooks')
  {
  }

  lemma KeptHookRules(env: Env, s: State, w: Write)
    requires References(s) && HookRules(env, s.hooks) && Legal(env, s, w)
    ensures HookRules(env, Apply(s, w).hooks)
  {
    hide UniqueNames, HookOk, KeyOk, Subtree, OwnedHooks, ValidTargets, ParamFits, FreshParams, NameTaken, Resolved;
    KeptNames(env, s, w);
    if w.RemoveKeys? {
      forall h | h in s.hooks && h in w.resolutions
        ensures HookOk(env, Resolved(s.hooks[h], w.resolutions[h], w.actor, w.now))
      {
        ResolvedOk(env, s.hooks[h], w.resolutions[h], w.actor, w.now);
      }
    }
  }

  lemma ResolvedOk(env: Env, hook: Hook, resolution: Resolution, actor: Id, now: int)
    requires HookOk(env, hook)
    ensures HookOk(env, Resolved(hook, resolution, actor, now)) && Resolved(hook, resolution, actor, now).name == hook.name
  {
  }

  lemma KeptParamRules(env: Env, s: State, w: Write)
    requires References(s) && ParamRules(s.params) && Legal(env, s, w)
    ensures ParamRules(Apply(s, w).params)
  {
    hide KeyOk, HookOk, NameTaken, Subtree, OwnedHooks, ValidTargets, ResolvedHooks, IsIdentifier;
    if w.SetParam? && w.id !in s.params {
      forall p | p in s.params && s.params[p].hook == w.param.hook ensures s.params[p].key != w.param.key {
        assert p in ParamsOf(s, w.param.hook);
      }
    }
  }

  // ── The first state ────────────────────────────────────────────────────────

  /** What the bootstrap leaves: one key, the master, with both scopes and no parent. */
  function Bootstrapped(m: Id, token: nat, signing: SigningPair, boundIps: string): State {
    var master := Key("System Master", token, Some(signing), None, Some(boundIps), 10, true, true, true, None);
    State(map[m := master], map[], map[], map[], map[], {m})
  }

  /** From there every run starts: the bootstrapped state keeps all the rules. */
  lemma BootstrapKeepsInv(env: Env, m: Id, token: nat, signing: SigningPair, boundIps: string)
    ensures Inv(env, Bootstrapped(m, token, signing, boundIps))
    ensures IsSoleMaster(Bootstrapped(m, token, signing, boundIps).keys, m)
  {
    var s := Bootstrapped(m, token, signing, boundIps);
    assert IsSoleMaster(s.keys, m);
    forall n: nat | n >= 1 ensures Ancestor(s.keys, m, n) == None {
    }
    assert !DescendsFrom(s.keys, m, m);
  }

  // ── Runs ───────────────────────────────────────────────────────────────────

  lemma StepLegal(env: Env, s: State, e: Step)
    requires Inv(env, s) && Enabled(s, e)
    ensures Legal(env, s, Written(env, s, e))
  {
    hide Handle, ExecuteHook, ExpiredHooks, ExpiredExecutions, HookRules, KeyRules, IsIdentifier, WriteOf, OneMaster, Forest;
    match e {
      case Call(c, req, d) => EveryWriteProper(env, s, c, req, d);
      case KeylessExecute(identifier, d) => KeylessExecuteLegal(env, s, identifier, d);
      case _ =>
    }
  }

  lemma KeylessExecuteLegal(env: Env, s: State, identifier: string, d: Draw)
    requires d.id !in s.used
    ensures
      var w := WriteOf(ExecuteHook(env, s, None, identifier, d));
      Legal(env, s, w) && (w == Nothing || (w.InsertExecution? && w.execution.author.None?))
  {
    hide ResolveHook;
  }

  lemma LegalKeepsInv(env: Env, s: State, w: Write)
    requires Inv(env, s) && Legal(env, s, w)
    ensures Inv(env, Apply(s, w))
    ensures forall m :: IsSoleMaster(s.keys, m) ==> IsSoleMaster(Apply(s, w).keys, m)
  {
    hide References, OwnersUsed, Forest, IsSoleMaster, KeyRules, HookRules, ParamRules, Legal, Apply;
    KeptOwners(env, s, w);
    KeptReferences(env, s, w);
    KeptForest(env, s, w);
    KeptKeyRules(env, s, w);
    KeptHookRules(env, s, w);
    KeptParamRules(env, s, w);
    forall m | IsSoleMaster(s.keys, m) ensures IsSoleMaster(Apply(s, w).keys, m) {
      KeptMaster(env, s, w, m);
    }
  }

  lemma StepKeepsInv(env: Env, s: State, e: Step)
    requires Inv(env, s) && Enabled(s, e)
    ensures Inv(env, Next(env, s, e))
    ensures forall m :: IsSoleMaster(s.keys, m) ==> IsSoleMaster(Next(env, s, e).keys, m)
  {
    hide Inv, Legal, Apply, Written, IsSoleMaster;
    StepLegal(env, s, e);
    LegalKeepsInv(env, s, Written(env, s, e));
  }

  /** Every run keeps every rule, and the master stays the same key. */
  lemma {:induction false} RunKeepsInv(env: Env, s: State, run: seq<Step>)
    requires Inv(env, s) && ValidRun(env, s, run)
    ensures Inv(env, After(env, s, run))
    ensures forall m :: IsSoleMaster(s.keys, m) ==> IsSoleMaster(After(env, s, run).keys, m)
    decreases run
  {
    hide Inv, Next, IsSoleMaster, Enabled;
    if run != [] {
      StepKeepsInv(env, s, run[0]);
      RunKeepsInv(env, Next(env, s, run[0]), run[1..]);
    }
  }
}
