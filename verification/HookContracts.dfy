/**
 What each hook route does, said outright: exactly when it passes, what it then writes, field by field, and what it
 answers. Conditions and effects are on the request and the tables; none of them goes through a guard or a view.
 */
module HookContracts {
  import opened Text
  import opened Rbac
  import opened Guards
  import opened Hooks
  import opened HookRoutes
  import opened Service
  import opened Writes
  import opened Invariants
  import opened KeyContracts
  import ArgsTemplate
  import TemplateLaws

  // ── Finding a hook ─────────────────────────────────────────────────────────

  /** The hook a text names: by its id if it is the id of a hook, and otherwise by its name. */
  predicate Identifies(env: Env, s: State, identifier: string, h: Id) {
    && h in s.hooks
    && var id := env.parseId(identifier);
       if id.Some? && id.value in s.hooks then h == id.value else s.hooks[h].name == identifier
  }

  lemma FindExactly(env: Env, s: State, identifier: string, h: Id)
    requires UniqueNames(s.hooks)
    ensures FindHook(env, s, identifier) == Pass(h) <==> Identifies(env, s, identifier, h)
    ensures ResolveHook(env, s, identifier) == Pass(h) <==> Identifies(env, s, identifier, h) && !s.hooks[h].isDeleted
    ensures FindHook(env, s, identifier) == Stop(NotFound) <==> !exists g :: Identifies(env, s, identifier, g)
  {
    if g :| NamesHook(s, identifier, g) {
      if env.parseId(identifier).None? || env.parseId(identifier).value !in s.hooks {
        FindByName(env, s, identifier, g);
        assert Identifies(env, s, identifier, g);
      }
    }
    if id :| env.parseId(identifier) == Some(id) && id in s.hooks {
      assert Identifies(env, s, identifier, id);
    }
    forall g: Id | Identifies(env, s, identifier, g) ensures FindHook(env, s, identifier) == Pass(g) {
      if env.parseId(identifier).None? || env.parseId(identifier).value !in s.hooks {
        assert NamesHook(s, identifier, g);
        FindByName(env, s, identifier, g);
      }
    }
  }

  // ── Showing a hook ─────────────────────────────────────────────────────────

  /** What a caller is shown of a hook: all of its row but the secret, its parameters, and what the caller is to it. */
  ghost predicate Shows(env: Env, s: State, c: Id, h: Id, v: HookDetail)
    requires c in s.keys && h in s.hooks
  {
    && v.hook == s.hooks[h].(hmacSecret := None) && (v.secretConfigured <==> s.hooks[h].hmacSecret.Some?)
    && (v.isOwner <==> ActsAsMaster(env, s, c) || s.hooks[h].owner == Some(c))
    && (forall p :: p in v.parameters <==> p in s.params && s.params[p].hook == h)
    && (forall p :: p in v.parameters ==> v.parameters[p] == s.params[p])
    && (v.canExecute <==> ActsAsMaster(env, s, c) || Holds(s, c, h, Execute))
    && (v.canManage <==> ActsAsMaster(env, s, c) || Holds(s, c, h, Manage))
  }

  lemma DetailExactly(env: Env, s: State, c: Id, h: Id, key: Key)
    requires c in s.keys && h in s.hooks && (key.isMaster <==> ActsAsMaster(env, s, c))
    ensures Shows(env, s, c, h, Detail(s, c, key, h))
  {
  }

  /** The caller owns the hook, or holds some verb on it. */
  ghost predicate Sees(env: Env, s: State, c: Id, h: Id)
    requires c in s.keys && h in s.hooks
  {
    ActsAsMaster(env, s, c) || s.hooks[h].owner == Some(c) || exists v :: Holds(s, c, h, v)
  }

  lemma SeesExactly(env: Env, s: State, c: Id, h: Id)
    requires c in s.keys && h in s.hooks
    ensures GuardVisibility(s, c, Effective(env, s, c), h) == if Sees(env, s, c, h) then Allow else Deny(NotFound)
  {
    VerbsExactly(s, c, h);
    assert Holds(s, c, h, Execute) || Holds(s, c, h, Manage) || Holds(s, c, h, ViewExecution)
      <==> exists v :: Holds(s, c, h, v);
  }

  /** Reading one hook: the trash is the master's, and a hook the caller does not see is not found. */
  lemma GetHookExactly(env: Env, s: State, c: Id, identifier: string, includeDeleted: bool, h: Id, d: Draw)
    requires c in s.keys && FindHook(env, s, identifier) == Pass(h)
    ensures
      var e := Handle(env, s, c, GetOneHook(identifier, includeDeleted), d);
      && (e.Pass? <==> && (if includeDeleted then ActsAsMaster(env, s, c) else !s.hooks[h].isDeleted)
                       && Sees(env, s, c, h))
      && (e == Stop(Forbidden) <==> includeDeleted && !ActsAsMaster(env, s, c))
      && (e.Stop? && e.error != Forbidden ==> e.error == NotFound)
      && (e.Pass? ==> AnswerOf(e).HookShown? && AnswerOf(e).id == h && Shows(env, s, c, h, AnswerOf(e).detail))
  {
    hide FindHook, Detail, GuardVisibility, Sees, Shows;
    SeesExactly(env, s, c, h);
    DetailExactly(env, s, c, h, Effective(env, s, c));
  }

  /** Listing hooks: the trash is the master's; otherwise exactly the hooks the caller sees, live ones unless the trash is
      asked for. */
  lemma ListHooksExactly(env: Env, s: State, c: Id, includeDeleted: bool, d: Draw)
    requires c in s.keys
    ensures
      var answer := AnswerOf(Handle(env, s, c, GetHooks(includeDeleted), d));
      if includeDeleted && !ActsAsMaster(env, s, c) then answer == Failed(Forbidden)
      else
        && answer.HooksListed?
        && (forall h :: h in answer.details <==>
              h in s.hooks && (includeDeleted || !s.hooks[h].isDeleted) && Sees(env, s, c, h))
        && forall h :: h in answer.details ==> Shows(env, s, c, h, answer.details[h])
  {
    hide Detail, Sees, Shows, VisibleHookIds;
    var key := Effective(env, s, c);
    forall h | h in s.hooks
      ensures VisibleHookIds(s, c, key).None? || h in VisibleHookIds(s, c, key).value <==> Sees(env, s, c, h)
      ensures Shows(env, s, c, h, Detail(s, c, key, h))
    {
      VisibleExactly(env, s, c, h);
      DetailExactly(env, s, c, h, key);
    }
  }

  lemma VisibleExactly(env: Env, s: State, c: Id, h: Id)
    requires c in s.keys && h in s.hooks
    ensures var visible := VisibleHookIds(s, c, Effective(env, s, c));
            visible.None? || h in visible.value <==> Sees(env, s, c, h)
  {
    VerbsExactly(s, c, h);
    if (c, h) in s.rows {
      assert (c, h).0 == c && (c, h).1 == h;
      assert s.rows[(c, h)] != Row(false, false, false) <==>
        Holds(s, c, h, Execute) || Holds(s, c, h, Manage) || Holds(s, c, h, ViewExecution);
    }
    assert Holds(s, c, h, Execute) || Holds(s, c, h, Manage) || Holds(s, c, h, ViewExecution)
      <==> exists v :: Holds(s, c, h, v);
  }

  // ── Definition ─────────────────────────────────────────────────────────────

  /** The account a text asks for: its trimmed form, and none for a blank one. */
  function AccountOf(runAsUser: Option<string>): Option<string> {
    if runAsUser.Some? && Trim(runAsUser.value) != "" then Some(Trim(runAsUser.value)) else None
  }

  /** Only the master names an account, and only a valid one. */
  predicate AccountAllowed(env: Env, s: State, c: Id, runAsUser: Option<string>)
    requires c in s.keys
  {
    AccountOf(runAsUser).Some? ==> ActsAsMaster(env, s, c) && env.accountOk(AccountOf(runAsUser).value)
  }

  lemma AccountExactly(env: Env, s: State, c: Id, runAsUser: Option<string>)
    requires c in s.keys
    ensures NormalizeRunAsUser(env, Effective(env, s, c), runAsUser).Pass? <==> AccountAllowed(env, s, c, runAsUser)
    ensures AccountAllowed(env, s, c, runAsUser) ==>
              NormalizeRunAsUser(env, Effective(env, s, c), runAsUser).value == AccountOf(runAsUser)
    ensures NormalizeRunAsUser(env, Effective(env, s, c), runAsUser) == Stop(Forbidden)
       <==> AccountOf(runAsUser).Some? && !ActsAsMaster(env, s, c)
  {
  }

  /** The secret that goes with a mode: the old one if none is given, none if an empty one is, else the sealed text. */
  predicate SecretBecomes(env: Env, payload: Option<string>, was: Option<string>, is': Option<string>) {
    if payload == None then is' == was
    else if payload == Some("") then is' == None
    else is'.Some? && is' == env.seal(payload.value)
  }

  /** A hook authenticated by HMAC alone keeps, or is given, a secret; and what is given can be sealed. */
  predicate SecretAllowed(env: Env, mode: AuthMode, payload: Option<string>, was: Option<string>) {
    && (mode == HmacOnly ==> (if payload == None then was.Some? else payload.value != ""))
    && (payload.Some? && payload.value != "" ==> env.seal(payload.value).Some?)
  }

  lemma SecretExactly(env: Env, mode: AuthMode, payload: Option<string>, was: Option<string>)
    ensures SealHmacSecret(env, mode, payload, was).Pass? <==> SecretAllowed(env, mode, payload, was)
    ensures SealHmacSecret(env, mode, payload, was).Pass? ==>
              SecretBecomes(env, payload, was, SealHmacSecret(env, mode, payload, was).value)
  {
  }

  /** A sample payload is a JSON object that has every declared parameter. */
  predicate SampleFits(env: Env, sample: Option<string>, declared: set<string>) {
    Given(sample) ==> env.jsonObject(sample.value).Some? && forall k :: k in declared ==> k in env.jsonObject(sample.value).value
  }

  /** An argument template refers to declared parameters alone. */
  ghost predicate TemplateFits(template: Option<string>, declared: set<string>) {
    Given(template) ==>
      forall n :: n != "" && ArgsTemplate.Reference(n) in ArgsTemplate.Parse(template.value) ==> n in declared
  }

  lemma DocumentsExactly(env: Env, sample: Option<string>, template: Option<string>, declared: set<string>)
    ensures ValidSamplePayload(env, sample, declared) <==> SampleFits(env, sample, declared)
    ensures ArgsTemplate.ValidArgsTemplate(template, declared) <==> TemplateFits(template, declared)
  {
    hide ArgsTemplate.Parse, ArgsTemplate.Names;
    if template.Some? {
      forall n
        ensures n in ArgsTemplate.Extract(template.value)
           <==> n != "" && ArgsTemplate.Reference(n) in ArgsTemplate.Parse(template.value)
      {
        TemplateLaws.NamesLaw(ArgsTemplate.Parse(template.value), n);
      }
    }
  }

  /** The keys of the declarations a payload carries. */
  function DeclaredKeys(declared: seq<ParamInput>): set<string> {
    set i | 0 <= i < |declared| :: declared[i].key
  }

  /** The keys of the parameters of a hook. */
  function ContractKeys(s: State, h: Id): set<string> {
    set q | q in s.params && s.params[q].hook == h :: s.params[q].key
  }

  lemma KeysExactly(declared: seq<ParamInput>, s: State, h: Id)
    ensures KeySet(declared) == DeclaredKeys(declared)
    ensures ParamKeys(ParamsOf(s, h)) == ContractKeys(s, h)
  {
    forall q | q in s.params && s.params[q].hook == h ensures s.params[q].key in ParamKeys(ParamsOf(s, h)) {
      assert q in ParamsOf(s, h);
    }
  }

  predicate NameIsFree(s: State, name: string, except: Option<Id>) {
    forall h :: h in s.hooks && Some(h) != except ==> s.hooks[h].name != name
  }

  predicate AllIdentifiers(declared: seq<ParamInput>) {
    forall i :: 0 <= i < |declared| ==> IsIdentifier(declared[i].key)
  }

  /** What a new hook must satisfy besides its creator's authority. */
  ghost predicate CreatableHook(env: Env, s: State, p: CreateHookPayload) {
    var declared := if p.parameters.Some? then p.parameters.value else [];
    && Trim(p.name) != "" && NameIsFree(s, Trim(p.name), None) && env.scriptPathOk(p.scriptPath)
    && (p.timeout.Some? ==> 1 <= p.timeout.value <= 86_400)
    && AllIdentifiers(declared)
    && SecretAllowed(env, if p.authMode.Some? then p.authMode.value else CanonicalV1, p.hmacSecret, None)
    && SampleFits(env, p.samplePayload, DeclaredKeys(declared)) && TemplateFits(p.argsTemplate, DeclaredKeys(declared))
  }

  /** Creating a hook: exactly when its checks pass, and how it is refused for want of authority. */
  lemma CreateHookExactly(env: Env, s: State, c: Id, p: CreateHookPayload, d: Draw)
    requires c in s.keys
    ensures
      var e := Handle(env, s, c, PostHook(p), d);
      && (e.Pass? <==> && (ActsAsMaster(env, s, c) || s.keys[c].canManageHooks)
                       && AccountAllowed(env, s, c, p.runAsUser) && CreatableHook(env, s, p))
      && (e == Stop(Forbidden) <==>
            || !(ActsAsMaster(env, s, c) || s.keys[c].canManageHooks)
            || (AccountOf(p.runAsUser).Some? && !ActsAsMaster(env, s, c)))
  {
    hide NormalizeRunAsUser, SealHmacSecret, ValidSamplePayload, ArgsTemplate.ValidArgsTemplate, Trim, Apply,
         DistinctPrefix, InsertedParams, Detail, SecretAllowed, SampleFits, TemplateFits, AccountAllowed, AccountOf, NameTaken,
         NameIsFree;
    AccountExactly(env, s, c, p.runAsUser);
    SecretExactly(env, Or(p.authMode, CanonicalV1), p.hmacSecret, None);
    SecretStops(env, Or(p.authMode, CanonicalV1), p.hmacSecret, None);
    DocumentsExactly(env, p.samplePayload, p.argsTemplate, KeySet(Or(p.parameters, [])));
    KeysExactly(Or(p.parameters, []), s, c);
    FreeExactly(s, Trim(p.name), None);
    assert Or(p.parameters, []) == if p.parameters.Some? then p.parameters.value else [];
    assert AllIdentifiers(Or(p.parameters, [])) <==>
      forall i :: 0 <= i < |Or(p.parameters, [])| ==> IsIdentifier(Or(p.parameters, [])[i].key);
  }

  lemma SecretStops(env: Env, mode: AuthMode, payload: Option<string>, was: Option<string>)
    ensures SealHmacSecret(env, mode, payload, was) != Stop(Forbidden)
  {
  }

  lemma FreeExactly(s: State, name: string, except: Option<Id>)
    ensures NameTaken(s, name, except) <==> !NameIsFree(s, name, except)
  {
  }

  /** The new row carries what the payload gives, empty texts read as none; a timeout of thirty seconds and the standard
      signature unless told otherwise; its creator as owner; and it is live. */
  predicate CreatedAs(env: Env, hook: Hook, c: Id, p: CreateHookPayload) {
    && hook.name == Trim(p.name) && hook.description == p.description && hook.scriptPath == p.scriptPath
    && hook.timeout == (if p.timeout.Some? then p.timeout.value else 30)
    && hook.runAsUser == AccountOf(p.runAsUser) && hook.owner == Some(c)
    && !hook.isDeleted && hook.deletedAt == None && hook.deletedBy == None
    && hook.authMode == (if p.authMode.Some? then p.authMode.value else CanonicalV1)
    && SecretBecomes(env, p.hmacSecret, None, hook.hmacSecret)
    && hook.signatureHeader == (if Given(p.signatureHeader) then p.signatureHeader else None)
    && hook.signaturePrefix == (if Given(p.signaturePrefix) then p.signaturePrefix else None)
    && hook.canonicalTemplate == (if Given(p.canonicalTemplate) then p.canonicalTemplate else None)
    && hook.samplePayload == (if Given(p.samplePayload) then p.samplePayload else None)
    && hook.argsTemplate == (if Given(p.argsTemplate) then p.argsTemplate else None)
  }

  lemma CreateHookSets(env: Env, s: State, c: Id, p: CreateHookPayload, d: Draw)
    requires c in s.keys && Handle(env, s, c, PostHook(p), d).Pass?
    ensures
      var w := WriteOf(Handle(env, s, c, PostHook(p), d));
      && w.InsertHook? && w.id == d.id && CreatedAs(env, w.hookRow, c, p)
      && Apply(s, w).hooks == s.hooks[d.id := w.hookRow]
      && Apply(s, w).keys == s.keys && Apply(s, w).executions == s.executions
  {
    hide NormalizeRunAsUser, SealHmacSecret, ValidSamplePayload, ArgsTemplate.ValidArgsTemplate, Trim, IsIdentifier,
         DistinctPrefix, InsertedParams, Detail, AccountAllowed, AccountOf, NameTaken, SecretBecomes, KeySet;
    AccountExactly(env, s, c, p.runAsUser);
    SecretExactly(env, Or(p.authMode, CanonicalV1), p.hmacSecret, None);
  }

  /** The row of a declared parameter: required unless told otherwise. */
  predicate DeclaredAs(param: Param, hook: Id, input: ParamInput) {
    && param.hook == hook && param.key == input.key && param.description == input.description
    && param.defaultValue == input.defaultValue && param.required == (if input.required.Some? then input.required.value else true)
  }

  /** Declaration `i` repeats a key, or comes after one that does. */
  predicate RepeatsUpTo(declared: seq<ParamInput>, i: nat) {
    i < |declared| && RepeatsKey(declared[..i + 1])
  }

  /** The parameters of a new hook: each declaration before the first repeated key, under its own id. */
  ghost predicate DeclaredIn(was: map<Id, Param>, is': map<Id, Param>, declared: seq<ParamInput>, d: Draw) {
    && (forall i: nat :: i < |declared| ==> (d.paramIds(i) in is' <==> !RepeatsUpTo(declared, i)))
    && (forall i: nat :: i < |declared| && d.paramIds(i) in is' ==> DeclaredAs(is'[d.paramIds(i)], d.id, declared[i]))
    && (forall q :: q in is' && q !in was ==> exists i: nat :: i < |declared| && q == d.paramIds(i))
    && (forall q :: q in was ==> q in is' && is'[q] == was[q])
  }

  /** The parameters and rows that come with a new hook: its declarations, and, when no key repeats, all three verbs for
      the creator. */
  lemma CreateHookInserts(env: Env, s: State, c: Id, p: CreateHookPayload, d: Draw)
    requires Inv(env, s) && c in s.keys && FreshDraw(s, d) && Handle(env, s, c, PostHook(p), d).Pass?
    ensures
      var s' := Apply(s, WriteOf(Handle(env, s, c, PostHook(p), d)));
      var declared := if p.parameters.Some? then p.parameters.value else [];
      && DeclaredIn(s.params, s'.params, declared, d)
      && s'.rows == (if RepeatsKey(declared) then s.rows else s.rows[(c, d.id) := Row(true, true, true)])
  {
    hide Inv, NormalizeRunAsUser, SealHmacSecret, ValidSamplePayload, ArgsTemplate.ValidArgsTemplate, Trim, IsIdentifier,
         DistinctPrefix, InsertedParams, Detail, NameTaken, KeySet, RepeatsKey, References, Injective, DeclaredIn, FreshDraw;
    var declared := Or(p.parameters, []);
    InvReferencesOf(env, s);
    DistinctPrefixExactly(declared);
    InsertedExactly(s, declared, d);
  }

  lemma InsertedExactly(s: State, declared: seq<ParamInput>, d: Draw)
    requires References(s) && FreshDraw(s, d)
    ensures DeclaredIn(s.params, s.params + InsertedParams(d.id, declared, d.paramIds, DistinctPrefix(declared)), declared, d)
  {
    hide DistinctPrefix, InsertedParams, RepeatsKey, RepeatsUpTo, References, Injective, FreshDraw;
    DrawIsFresh(s, d);
    var n := DistinctPrefix(declared);
    var inserted := InsertedParams(d.id, declared, d.paramIds, n);
    InsertedParamsAt(d.id, declared, d.paramIds, n);
    forall i: nat | i < |declared|
      ensures d.paramIds(i) in inserted <==> !RepeatsUpTo(declared, i)
      ensures d.paramIds(i) in inserted ==> inserted[d.paramIds(i)] == NewParam(d.id, declared[i])
    {
      UpToExactly(declared, i);
      InsertedIds(d.paramIds, i);
      assert i < n ==> InsertedAt(inserted, d.id, declared, d.paramIds, i);
    }
  }

  lemma UpToExactly(declared: seq<ParamInput>, i: nat)
    requires i < |declared|
    ensures i < DistinctPrefix(declared) <==> !RepeatsUpTo(declared, i)
  {
    hide DistinctPrefix, RepeatsKey;
    PrefixExactly(declared, i + 1);
  }

  lemma InsertedIds(ids: nat -> Id, i: nat)
    requires Injective(ids)
    ensures forall j: nat :: ids(j) == ids(i) ==> j == i
  {
  }

  lemma InvReferencesOf(env: Env, s: State)
    requires Inv(env, s)
    ensures References(s)
  {
  }

  lemma DrawIsFresh(s: State, d: Draw)
    requires References(s) && FreshDraw(s, d)
    ensures Injective(d.paramIds) && forall i: nat :: d.paramIds(i) !in s.params
  {
  }

  /** The insertion gets past the first `n` declarations exactly when none of their keys repeats. */
  lemma {:induction false} PrefixExactly(declared: seq<ParamInput>, n: nat)
    requires n <= |declared|
    ensures n <= DistinctPrefix(declared) <==> !RepeatsKey(declared[..n])
  {
    hide RepeatsKey;
    if n == |declared| {
      assert declared[..n] == declared;
      DistinctPrefixExactly(declared);
    } else {
      var front := declared[..|declared| - 1];
      PrefixExactly(front, n);
      assert front[..n] == declared[..n];
    }
  }

  // ── Editing ────────────────────────────────────────────────────────────────

  /** The caller may edit the hook's general content. */
  ghost predicate MayEditHook(env: Env, s: State, c: Id, h: Id)
    requires c in s.keys && h in s.hooks
  {
    ActsAsMaster(env, s, c) || s.hooks[h].owner == Some(c) || (s.keys[c].canManageKeys && Holds(s, c, h, Manage))
  }

  lemma MayEditExactly(env: Env, s: State, c: Id, h: Id)
    requires c in s.keys && h in s.hooks
    ensures GuardManage(s, c, Effective(env, s, c), h).Allow? <==> MayEditHook(env, s, c, h)
    ensures GuardManage(s, c, Effective(env, s, c), h) == Deny(NotFound)
       <==> !ActsAsMaster(env, s, c) && s.hooks[h].owner != Some(c) && (c, h) !in s.rows
    ensures GuardManage(s, c, Effective(env, s, c), h).Deny? ==>
              GuardManage(s, c, Effective(env, s, c), h).error in {NotFound, Forbidden}
    ensures GuardDispatchConfiguration(s, c, Effective(env, s, c), h).Allow?
       <==> ActsAsMaster(env, s, c) || (s.keys[c].canManageKeys && Holds(s, c, h, Manage))
  {
  }

  /** Whose edit of which fields of a hook is allowed. */
  ghost predicate EditAllowed(env: Env, s: State, c: Id, h: Id, p: UpdateHookPayload)
    requires c in s.keys && h in s.hooks
  {
    && MayEditHook(env, s, c, h)
    && (p.scriptPath.Some? || p.runAsUser.Some? || p.argsTemplate.Some? ==>
          ActsAsMaster(env, s, c) || (s.keys[c].canManageKeys && Holds(s, c, h, Manage)))
    && (AccountOf(s.hooks[h].runAsUser).Some? ==> ActsAsMaster(env, s, c))
    && AccountAllowed(env, s, c, p.runAsUser)
    && (p.name.Some? ==> ActsAsMaster(env, s, c) || s.hooks[h].owner == Some(c))
    && (p.owner.Some? ==> ActsAsMaster(env, s, c) && p.owner.value in s.keys)
  }

  /** What the edited row must satisfy. */
  ghost predicate EditFits(env: Env, s: State, h: Id, p: UpdateHookPayload)
    requires h in s.hooks
  {
    var was := s.hooks[h];
    && (p.scriptPath.Some? ==> env.scriptPathOk(p.scriptPath.value))
    && (p.timeout.Some? ==> 1 <= p.timeout.value <= 86_400)
    && SecretAllowed(env, if p.authMode.Some? then p.authMode.value else was.authMode, p.hmacSecret, was.hmacSecret)
    && SampleFits(env, if p.samplePayload.Some? then p.samplePayload else was.samplePayload, ContractKeys(s, h))
    && TemplateFits(if p.argsTemplate.Some? then p.argsTemplate else was.argsTemplate, ContractKeys(s, h))
    && (p.name.Some? ==> Trim(p.name.value) != "" )
    && NameIsFree(s, if p.name.Some? then Trim(p.name.value) else was.name, Some(h))
  }

  lemma EditorExactly(env: Env, s: State, c: Id, identifier: string, p: UpdateHookPayload, h: Id)
    requires c in s.keys && ResolveHook(env, s, identifier) == Pass(h)
    ensures MayEdit(env, s, c, identifier, p).Pass? <==> EditAllowed(env, s, c, h, p)
    ensures MayEdit(env, s, c, identifier, p).Pass? ==> MayEdit(env, s, c, identifier, p).value == (h, AccountOf(p.runAsUser))
  {
    hide ResolveHook, GuardManage, GuardDispatchConfiguration, NormalizeRunAsUser, MayEditHook, AccountAllowed, Trim;
    MayEditExactly(env, s, c, h);
    AccountExactly(env, s, c, p.runAsUser);
    ElevatedExactly(s.hooks[h]);
  }

  lemma EditorNamesAccount(env: Env, s: State, c: Id, identifier: string, p: UpdateHookPayload)
    requires c in s.keys && MayEdit(env, s, c, identifier, p).Pass?
    ensures MayEdit(env, s, c, identifier, p).value.1 == AccountOf(p.runAsUser)
  {
    hide AccountOf;
    EditorExactly(env, s, c, identifier, p, MayEdit(env, s, c, identifier, p).value.0);
  }

  /** A hook is elevated when its account is not blank. */
  lemma ElevatedExactly(hook: Hook)
    ensures Privileged(hook) <==> AccountOf(hook.runAsUser).Some?
  {
  }

  /** Editing a hook: exactly when it passes. */
  lemma UpdateHookExactly(env: Env, s: State, c: Id, identifier: string, p: UpdateHookPayload, h: Id, d: Draw)
    requires c in s.keys && ResolveHook(env, s, identifier) == Pass(h)
    ensures Handle(env, s, c, PutHook(identifier, p), d).Pass? <==> EditAllowed(env, s, c, h, p) && EditFits(env, s, h, p)
  {
    hide ResolveHook, MayEdit, EditAllowed, SealHmacSecret, ValidSamplePayload, ArgsTemplate.ValidArgsTemplate, Trim, Apply,
         Detail, NameTaken, NameIsFree, SecretAllowed, SampleFits, TemplateFits;
    EditorExactly(env, s, c, identifier, p, h);
    if MayEdit(env, s, c, identifier, p).Pass? {
      var was, user := s.hooks[h], AccountOf(p.runAsUser);
      var mode := Or(p.authMode, was.authMode);
      SecretExactly(env, mode, p.hmacSecret, was.hmacSecret);
      if SealHmacSecret(env, mode, p.hmacSecret, was.hmacSecret).Pass? {
        var edited := Edited(was, p, user, SealHmacSecret(env, mode, p.hmacSecret, was.hmacSecret).value);
        DocumentsExactly(env, edited.samplePayload, edited.argsTemplate, ParamKeys(ParamsOf(s, h)));
        EmptyDocuments(env, p, ParamKeys(ParamsOf(s, h)));
        FreeExactly(s, edited.name, Some(h));
        KeysExactly([], s, h);
      }
    }
  }

  lemma EmptyDocuments(env: Env, p: UpdateHookPayload, declared: set<string>)
    ensures SampleFits(env, None, declared) && TemplateFits(None, declared)
    ensures p.samplePayload == Some("") ==> SampleFits(env, p.samplePayload, declared)
    ensures p.argsTemplate == Some("") ==> TemplateFits(p.argsTemplate, declared)
  {
  }

  /** A field the payload names has the payload's value, trimmed for the name, cleared by an empty text where that is how it
      is cleared, and an account as given; every field it leaves out is as it was. The secret is told apart. */
  predicate FieldsSet(was: Hook, is': Hook, p: UpdateHookPayload, account: Option<string>) {
    && is'.name == (if p.name.Some? then Trim(p.name.value) else was.name)
    && is'.owner == (if p.owner.Some? then p.owner else was.owner)
    && is'.description == (if p.description.Some? then p.description else was.description)
    && is'.scriptPath == (if p.scriptPath.Some? then p.scriptPath.value else was.scriptPath)
    && is'.timeout == (if p.timeout.Some? then p.timeout.value else was.timeout)
    && is'.runAsUser == (if p.runAsUser.Some? then account else was.runAsUser)
    && is'.authMode == (if p.authMode.Some? then p.authMode.value else was.authMode)
    && Becomes(p.signatureHeader, was.signatureHeader, is'.signatureHeader)
    && Becomes(p.signaturePrefix, was.signaturePrefix, is'.signaturePrefix)
    && Becomes(p.canonicalTemplate, was.canonicalTemplate, is'.canonicalTemplate)
    && Becomes(p.samplePayload, was.samplePayload, is'.samplePayload)
    && Becomes(p.argsTemplate, was.argsTemplate, is'.argsTemplate)
    && is'.isDeleted == was.isDeleted && is'.deletedAt == was.deletedAt && is'.deletedBy == was.deletedBy
  }

  /** The fields with an account only if it is not blank, and the secret. */
  predicate EditedAs(env: Env, was: Hook, is': Hook, p: UpdateHookPayload) {
    FieldsSet(was, is', p, AccountOf(p.runAsUser)) && SecretBecomes(env, p.hmacSecret, was.hmacSecret, is'.hmacSecret)
  }

  /** A text that is set, left alone, or cleared by an empty one. */
  predicate Becomes(payload: Option<string>, was: Option<string>, is': Option<string>) {
    is' == if payload == None then was else if payload == Some("") then None else payload
  }

  /** Editing a hook sets exactly the fields it names, on that row alone. */
  lemma UpdateHookSets(env: Env, s: State, c: Id, identifier: string, p: UpdateHookPayload, h: Id, d: Draw)
    requires c in s.keys && ResolveHook(env, s, identifier) == Pass(h) && Handle(env, s, c, PutHook(identifier, p), d).Pass?
    ensures
      var s' := Apply(s, WriteOf(Handle(env, s, c, PutHook(identifier, p), d)));
      h in s'.hooks && s' == s.(hooks := s.hooks[h := s'.hooks[h]]) && EditedAs(env, s.hooks[h], s'.hooks[h], p)
  {
    hide ResolveHook, MayEdit, EditAllowed, SealHmacSecret, ValidSamplePayload, ArgsTemplate.ValidArgsTemplate, Trim,
         Detail, NameTaken, SecretBecomes, ParamKeys, ParamsOf, AccountOf, Edited, EditedAs;
    EditorExactly(env, s, c, identifier, p, h);
    var was := s.hooks[h];
    var secret := SealHmacSecret(env, Or(p.authMode, was.authMode), p.hmacSecret, was.hmacSecret);
    SecretExactly(env, Or(p.authMode, was.authMode), p.hmacSecret, was.hmacSecret);
    if secret.Pass? {
      FieldsExactly(env, was, p, secret.value);
    }
  }

  lemma FieldsExactly(env: Env, was: Hook, p: UpdateHookPayload, secret: Option<string>)
    requires SecretBecomes(env, p.hmacSecret, was.hmacSecret, secret)
    ensures EditedAs(env, was, Edited(was, p, AccountOf(p.runAsUser), secret), p)
  {
    hide Trim, SecretBecomes, AccountOf;
    EditedFields(was, p, AccountOf(p.runAsUser), secret);
  }

  lemma EditedFields(was: Hook, p: UpdateHookPayload, account: Option<string>, secret: Option<string>)
    ensures FieldsSet(was, Edited(was, p, account, secret), p, account) && Edited(was, p, account, secret).hmacSecret == secret
  {
    hide Trim;
  }

  /** And it answers with the row as it then is. */
  lemma UpdateHookShows(env: Env, s: State, c: Id, identifier: string, p: UpdateHookPayload, h: Id, d: Draw)
    requires c in s.keys && ResolveHook(env, s, identifier) == Pass(h) && Handle(env, s, c, PutHook(identifier, p), d).Pass?
    ensures
      var e := Handle(env, s, c, PutHook(identifier, p), d);
      var s' := Apply(s, WriteOf(e));
      h in s'.hooks && AnswerOf(e).HookShown? && AnswerOf(e).id == h && Shows(env, s', c, h, AnswerOf(e).detail)
  {
    hide ResolveHook, MayEdit, EditAllowed, SealHmacSecret, ValidSamplePayload, ArgsTemplate.ValidArgsTemplate, Trim,
         Detail, NameTaken, Shows, ParamKeys, ParamsOf, AccountOf, Edited;
    EditorExactly(env, s, c, identifier, p, h);
    var e := Handle(env, s, c, PutHook(identifier, p), d);
    DetailExactly(env, Apply(s, WriteOf(e)), c, h, Effective(env, s, c));
  }

  // ── The trash ──────────────────────────────────────────────────────────────

  /** Deleting a hook: exactly when it passes, and what it does: into the trash, stamped, or out of all tables. */
  lemma DeleteHookExactly(env: Env, s: State, c: Id, identifier: string, hard: bool, h: Id, d: Draw)
    requires c in s.keys && FindHook(env, s, identifier) == Pass(h)
    ensures
      var e := Handle(env, s, c, RemoveHook(identifier, hard), d);
      && (e.Pass? <==>
            if hard then ActsAsMaster(env, s, c)
            else
              && !s.hooks[h].isDeleted
              && (ActsAsMaster(env, s, c) || (s.hooks[h].owner == Some(c) && AccountOf(s.hooks[h].runAsUser).None?)))
      && (e.Pass? && !hard ==>
            Apply(s, WriteOf(e)) == s.(hooks := s.hooks[h :=
              s.hooks[h].(isDeleted := true, deletedAt := Some(d.now), deletedBy := Some(c))]))
      && (e.Pass? && hard ==> IsWithout(s, Apply(s, WriteOf(e)), {h}))
  {
    hide FindHook, GuardManage, AccountOf, Privileged, IsWithout, WithoutHooks;
    MayEditExactly(env, s, c, h);
    ElevatedExactly(s.hooks[h]);
    WithoutExactly(s, {h});
  }

  /** The hooks are gone, with exactly the parameters, permission rows and records that were theirs. */
  ghost predicate IsWithout(s: State, s': State, gone: set<Id>) {
    && s'.keys == s.keys && s'.used == s.used
    && (forall h :: h in s'.hooks <==> h in s.hooks && h !in gone) && (forall h :: h in s'.hooks ==> s'.hooks[h] == s.hooks[h])
    && (forall p :: p in s'.params <==> p in s.params && s.params[p].hook !in gone)
    && (forall p :: p in s'.params ==> s'.params[p] == s.params[p])
    && (forall r :: r in s'.rows <==> r in s.rows && r.1 !in gone) && (forall r :: r in s'.rows ==> s'.rows[r] == s.rows[r])
    && (forall e :: e in s'.executions <==> e in s.executions && s.executions[e].hook !in gone)
    && (forall e :: e in s'.executions ==> s'.executions[e] == s.executions[e])
  }

  lemma WithoutExactly(s: State, gone: set<Id>)
    ensures IsWithout(s, WithoutHooks(s, gone), gone)
  {
  }

  /** Restoring a hook: the master's, of a hook that lies in the trash, whose row is then live and otherwise as it was. */
  lemma RestoreHookExactly(env: Env, s: State, c: Id, identifier: string, h: Id, d: Draw)
    requires c in s.keys && FindHook(env, s, identifier) == Pass(h)
    ensures
      var e := Handle(env, s, c, PostRestore(identifier), d);
      && (e.Pass? <==> ActsAsMaster(env, s, c) && s.hooks[h].isDeleted)
      && (e == Stop(Forbidden) <==> !ActsAsMaster(env, s, c))
      && (e.Pass? ==>
            && Apply(s, WriteOf(e))
               == s.(hooks := s.hooks[h := s.hooks[h].(isDeleted := false, deletedAt := None, deletedBy := None)])
            && AnswerOf(e).HookShown? && AnswerOf(e).id == h && Shows(env, Apply(s, WriteOf(e)), c, h, AnswerOf(e).detail))
  {
    hide FindHook, Detail, Shows;
    var e := Handle(env, s, c, PostRestore(identifier), d);
    if e.Pass? {
      DetailExactly(env, Apply(s, WriteOf(e)), c, h, Effective(env, s, c));
    }
  }

  /** A trashed hook older than so many days, which zero days never are. */
  predicate IsExpiredHook(s: State, h: Id, now: int, days: int) {
    h in s.hooks && days > 0 && s.hooks[h].isDeleted && s.hooks[h].deletedAt.Some?
    && s.hooks[h].deletedAt.value + days * 86_400 < now
  }

  lemma ExpiredHooksExactly(s: State, now: int, days: int)
    ensures forall h :: h in ExpiredHooks(s, now, days) <==> IsExpiredHook(s, h, now, days)
  {
  }

  /** Purging the trash: the master's, and exactly the expired hooks are gone. */
  lemma PurgeHooksExactly(env: Env, s: State, c: Id, days: Option<int>, d: Draw)
    requires c in s.keys
    ensures
      var e := Handle(env, s, c, PostPurgeHooks(days), d);
      var window := if days.Some? then days.value else env.trashRetentionDays;
      && (e.Pass? <==> ActsAsMaster(env, s, c) && window >= 0)
      && (e.Pass? ==>
            var gone := set h | h in s.hooks && IsExpiredHook(s, h, d.now, window);
            IsWithout(s, Apply(s, WriteOf(e)), gone) && AnswerOf(e) == Purged(|gone|))
  {
    hide IsWithout, WithoutHooks, ExpiredHooks, IsExpiredHook;
    var window := if days.Some? then days.value else env.trashRetentionDays;
    ExpiredHooksExactly(s, d.now, window);
    ExpiredAreHooks(s, d.now, window);
    var gone := set h | h in s.hooks && IsExpiredHook(s, h, d.now, window);
    assert gone == ExpiredHooks(s, d.now, window);
    WithoutExactly(s, gone);
  }

  lemma ExpiredAreHooks(s: State, now: int, days: int)
    ensures forall h :: IsExpiredHook(s, h, now, days) ==> h in s.hooks
  {
  }

  /** The background sweep does the same with the configured window. */
  lemma SweepHooksExactly(env: Env, s: State, now: int)
    ensures IsWithout(s, Next(env, s, SweepHooks(now)), set h | h in s.hooks && IsExpiredHook(s, h, now, env.trashRetentionDays))
  {
    hide IsWithout, WithoutHooks, ExpiredHooks, IsExpiredHook;
    ExpiredHooksExactly(s, now, env.trashRetentionDays);
    ExpiredAreHooks(s, now, env.trashRetentionDays);
    var gone := set h | h in s.hooks && IsExpiredHook(s, h, now, env.trashRetentionDays);
    assert gone == ExpiredHooks(s, now, env.trashRetentionDays);
    WithoutExactly(s, gone);
  }

  // ── Parameters ─────────────────────────────────────────────────────────────

  /** Listing parameters: exactly the hook's, for a caller that sees it. */
  lemma ListParamsExactly(env: Env, s: State, c: Id, identifier: string, h: Id, d: Draw)
    requires c in s.keys && ResolveHook(env, s, identifier) == Pass(h)
    ensures
      var e := Handle(env, s, c, GetParams(identifier), d);
      && (e.Pass? <==> Sees(env, s, c, h)) && (!Sees(env, s, c, h) ==> e == Stop(NotFound))
      && (e.Pass? ==> AnswerOf(e).ParamsListed?
                      && (forall q :: q in AnswerOf(e).params <==> q in s.params && s.params[q].hook == h)
                      && forall q :: q in AnswerOf(e).params ==> AnswerOf(e).params[q] == s.params[q])
  {
    hide ResolveHook, GuardVisibility, Sees;
    SeesExactly(env, s, c, h);
  }

  /** The caller may change the hook's parameters: it may edit the hook, and only the master an elevated one. */
  ghost predicate MayDeclare(env: Env, s: State, c: Id, h: Id)
    requires c in s.keys && h in s.hooks
  {
    MayEditHook(env, s, c, h) && (AccountOf(s.hooks[h].runAsUser).Some? ==> ActsAsMaster(env, s, c))
  }

  lemma ParamGateExactly(env: Env, s: State, c: Id, identifier: string, h: Id)
    requires c in s.keys && ResolveHook(env, s, identifier) == Pass(h)
    ensures ParamGate(env, s, c, identifier).Pass? <==> MayDeclare(env, s, c, h)
    ensures ParamGate(env, s, c, identifier).Pass? ==> ParamGate(env, s, c, identifier).value == h
  {
    hide ResolveHook, GuardManage, MayEditHook, AccountOf, Privileged;
    MayEditExactly(env, s, c, h);
    ElevatedExactly(s.hooks[h]);
  }

  /** Declaring a parameter: exactly when it passes, and the one row it adds. */
  lemma CreateParamExactly(env: Env, s: State, c: Id, identifier: string, p: ParamInput, h: Id, d: Draw)
    requires c in s.keys && ResolveHook(env, s, identifier) == Pass(h)
    ensures
      var e := Handle(env, s, c, PostParam(identifier, p), d);
      && (e.Pass? <==> && MayDeclare(env, s, c, h) && IsIdentifier(p.key)
                       && forall q :: q in s.params && s.params[q].hook == h ==> s.params[q].key != p.key)
      && (e.Pass? ==>
            && WriteOf(e).SetParam? && DeclaredAs(WriteOf(e).param, h, p)
            && Apply(s, WriteOf(e)) == s.(params := s.params[d.id := WriteOf(e).param], used := s.used + {d.id})
            && AnswerOf(e) == ParamShown(d.id, WriteOf(e).param))
  {
    hide ResolveHook, ParamGate, MayDeclare, IsIdentifier, ParamKeys, ParamsOf;
    ParamGateExactly(env, s, c, identifier, h);
    KeysExactly([], s, h);
  }

  /** Editing a parameter: exactly when it passes, and the fields it sets. */
  lemma UpdateParamExactly(env: Env, s: State, c: Id, identifier: string, id: Id, p: UpdateParamPayload, h: Id, d: Draw)
    requires c in s.keys && ResolveHook(env, s, identifier) == Pass(h)
    ensures
      var e := Handle(env, s, c, PutParam(identifier, id, p), d);
      && (e.Pass? <==> MayDeclare(env, s, c, h) && id in s.params && s.params[id].hook == h)
      && (e.Pass? ==>
            var s' := Apply(s, WriteOf(e));
            && id in s'.params && s'.params == s.params[id := s'.params[id]]
            && s'.keys == s.keys && s'.hooks == s.hooks && s'.rows == s.rows && s'.executions == s.executions
            && s'.params[id].hook == h && s'.params[id].key == s.params[id].key
            && s'.params[id].description == (if p.description.Some? then p.description else s.params[id].description)
            && s'.params[id].defaultValue == (if p.defaultValue.Some? then p.defaultValue else s.params[id].defaultValue)
            && s'.params[id].required == (if p.required.Some? then p.required.value else s.params[id].required)
            && AnswerOf(e) == ParamShown(id, s'.params[id]))
  {
    hide ResolveHook, ParamGate, MayDeclare;
    ParamGateExactly(env, s, c, identifier, h);
  }

  /** Removing a parameter: exactly when it passes, and then that row alone is gone. */
  lemma DeleteParamExactly(env: Env, s: State, c: Id, identifier: string, id: Id, h: Id, d: Draw)
    requires c in s.keys && ResolveHook(env, s, identifier) == Pass(h)
    ensures
      var e := Handle(env, s, c, RemoveParam(identifier, id), d);
      && (e.Pass? <==> MayDeclare(env, s, c, h) && id in s.params && s.params[id].hook == h)
      && (e.Pass? ==> Apply(s, WriteOf(e)) == s.(params := s.params - {id}) && AnswerOf(e) == Done)
  {
    hide ResolveHook, ParamGate, MayDeclare;
    ParamGateExactly(env, s, c, identifier, h);
  }

  /** What no text names is not found, by any route that names a hook. */
  lemma UnknownHookNotFound(env: Env, s: State, c: Id, identifier: string, req: Request, d: Draw)
    requires c in s.keys && ResolveHook(env, s, identifier).Stop?
    requires
      || req == GetOneHook(identifier, false) || req == RemoveHook(identifier, false) || req == GetParams(identifier)
      || req == PostExecute(identifier) || (req.PutHook? && req.identifier == identifier)
      || (req.PostParam? && req.identifier == identifier) || (req.PutParam? && req.identifier == identifier)
      || (req.RemoveParam? && req.identifier == identifier) || (req.PostTest? && req.identifier == identifier)
    ensures Handle(env, s, c, req, d) == Stop(NotFound)
  {
    hide ResolveHook;
    StopsWithNotFound(env, s, identifier);
  }

  lemma StopsWithNotFound(env: Env, s: State, identifier: string)
    ensures ResolveHook(env, s, identifier).Stop? ==> ResolveHook(env, s, identifier) == Stop(NotFound)
  {
  }
}
