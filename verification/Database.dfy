/**
 The handlers that change rows step by step, on the tables themselves. Each is proved to leave the tables, and to
 answer, as the transition of `KeyRoutes` or `HookRoutes` says.
 */
module DatabaseHandlers {
  import opened Text
  import opened Rbac
  import opened Guards
  import opened Lineage
  import opened Hooks
  import opened KeyRoutes
  import opened HookRoutes
  import opened Service
  import opened Writes
  import opened Invariants
  import ArgsTemplate
  import HookContracts

  // ── Deletion ───────────────────────────────────────────────────────────────

  /** The resolutions settled so far. */
  function Settled(hooks: map<Id, Hook>, resolutions: map<Id, Resolution>, todo: set<Id>, actor: Id, now: int): map<Id, Hook> {
    map h | h in hooks :: if h in resolutions && h !in todo then Resolved(hooks[h], resolutions[h], actor, now) else hooks[h]
  }

  lemma SettleOne(hooks: map<Id, Hook>, resolutions: map<Id, Resolution>, todo: set<Id>, actor: Id, now: int, h: Id)
    requires h in todo && h in resolutions
    ensures Settled(hooks, resolutions, todo - {h}, actor, now)
         == (if h in hooks then
               Settled(hooks, resolutions, todo, actor, now)[h := Resolved(hooks[h], resolutions[h], actor, now)]
             else Settled(hooks, resolutions, todo, actor, now))
  {
    hide Resolved;
  }

  // ── Creation ───────────────────────────────────────────────────────────────

  /** Once a key has repeated, no later insert is reached. */
  lemma {:induction false} PrefixStuck(declared: seq<ParamInput>, i: nat, k: nat)
    requires i < k <= |declared| && DistinctPrefix(declared[..i + 1]) == i
    ensures DistinctPrefix(declared[..k]) == i
    decreases k
  {
    if k > i + 1 {
      PrefixStuck(declared, i, k - 1);
      assert declared[..k][..k - 1] == declared[..k - 1];
    }
  }

  lemma PrefixStep(declared: seq<ParamInput>, i: nat)
    requires i < |declared| && DistinctPrefix(declared[..i]) == i
    ensures DistinctPrefix(declared[..i + 1])
         == if declared[i].key in KeySet(declared[..i]) then i else i + 1
  {
    assert declared[..i + 1][..i] == declared[..i];
  }

  /** The parameters of the new hook are the ones inserted so far. */
  lemma {:induction false} InsertedKeys(hook: Id, declared: seq<ParamInput>, ids: nat -> Id, n: nat)
    requires n <= |declared| && Injective(ids)
    ensures ParamKeys(InsertedParams(hook, declared, ids, n)) == KeySet(declared[..n])
  {
    hide Injective;
    InsertedParamsAt(hook, declared, ids, n);
    var params := InsertedParams(hook, declared, ids, n);
    forall key | key in KeySet(declared[..n]) ensures key in ParamKeys(params) {
      var i: nat :| i < n && declared[..n][i].key == key;
      assert InsertedAt(params, hook, declared, ids, i);
    }
    forall p | p in params ensures params[p].key in KeySet(declared[..n]) {
      var i: nat :| i < n && p == ids(i);
      assert InsertedAt(params, hook, declared, ids, i);
      assert declared[..n][i].key == params[p].key;
    }
  }

  lemma InsertedParamsOf(s: State, hook: Id, declared: seq<ParamInput>, ids: nat -> Id, n: nat, now: State)
    requires n <= |declared| && Injective(ids)
    requires forall p :: p in s.params ==> s.params[p].hook != hook
    requires now.params == s.params + InsertedParams(hook, declared, ids, n)
    requires forall i: nat :: ids(i) !in s.params
    ensures ParamsOf(now, hook) == InsertedParams(hook, declared, ids, n)
  {
    hide Injective;
    InsertedParamsAt(hook, declared, ids, n);
    var params := InsertedParams(hook, declared, ids, n);
    forall p | p in params ensures params[p].hook == hook && p !in s.params {
      var i: nat :| i < n && p == ids(i);
      assert InsertedAt(params, hook, declared, ids, i);
    }
  }

  lemma NothingInserted(params: map<Id, Param>, hook: Id, declared: seq<ParamInput>, ids: nat -> Id)
    ensures params + InsertedParams(hook, declared, ids, 0) == params && DistinctPrefix(declared[..0]) == 0
  {
  }

  lemma InsertOne(params: map<Id, Param>, hook: Id, declared: seq<ParamInput>, ids: nat -> Id, i: nat)
    requires i < |declared|
    ensures params + InsertedParams(hook, declared, ids, i + 1)
         == (params + InsertedParams(hook, declared, ids, i))[ids(i) := NewParam(hook, declared[i])]
  {
    hide NewParam;
  }

  // ── The tables ─────────────────────────────────────────────────────────────

  class Database {
    var keys: map<Id, Key>
    var hooks: map<Id, Hook>
    var params: map<Id, Param>
    var rows: map<(Id, Id), Row>
    var executions: map<Id, Execution>
    /** Every id drawn so far; only specifications read it. */
    var used: set<Id>

    function Contents(): State
      reads this
    {
      State(keys, hooks, params, rows, executions, used)
    }

    /** `key_visibility` */
    method VisibilityOf(c: Id, key: Key, target: Id) returns (v: Visibility)
      ensures v == KeyVisibility(Contents(), c, key, target)
    {
      if key.isMaster || c == target {
        return FullForm;
      }
      var below := DescendantKeyIds(keys, c);
      if target in below {
        return FullForm;
      }
      v := if HoldsRowIn(Contents(), target, ManagedHookIds(Contents(), c)) then MinimalForm else Hidden;
    }

    /** `load_administrable_key` */
    method Administrable(c: Id, key: Key, id: Id) returns (r: Checked<Key>)
      ensures r == LoadAdministrableKey(Contents(), c, key, id)
    {
      if id !in keys {
        return Stop(NotFound);
      }
      var v := VisibilityOf(c, key, id);
      r := if v == FullForm then Pass(keys[id]) else Stop(NotFound);
    }

    /** `resolve_hook_including_deleted` and `resolve_hook` */
    method Find(env: Env, identifier: string, includeDeleted: bool) returns (r: Checked<Id>)
      requires UniqueNames(hooks)
      ensures r == if includeDeleted then FindHook(env, Contents(), identifier) else ResolveHook(env, Contents(), identifier)
      ensures r.Pass? ==> r.value in hooks
    {
      var id := env.parseId(identifier);
      if id.Some? && id.value in hooks {
        r := Pass(id.value);
      } else if exists h :: h in hooks && hooks[h].name == identifier {
        var h :| h in hooks && hooks[h].name == identifier;
        FindByName(env, Contents(), identifier, h);
        r := Pass(h);
      } else {
        r := Stop(NotFound);
      }
      if r.Pass? && !includeDeleted && hooks[r.value].isDeleted {
        r := Stop(NotFound);
      }
    }

    /** `list_api_keys`: the keys in creation order, each in the form the caller may see. */
    method ListApiKeys(env: Env, c: Id, order: seq<Id>) returns (r: Checked<seq<(Id, KeyView)>>)
      requires c in keys && forall i :: 0 <= i < |order| ==> order[i] in keys
      ensures r.Stop? <==> !Effective(env, Contents(), c).isMaster && !Effective(env, Contents(), c).canManageKeys
      ensures r.Stop? ==> r.error == Forbidden
      ensures r.Pass? ==> r.value == ViewsOf(Contents(), c, Effective(env, Contents(), c), order)
    {
      hide ListedKeys, Summary, MinimalView, KeyVisibility, ViewsOf, Descendants, ManagedHookIds;
      var key := Effective(env, Contents(), c);
      if !key.isMaster && !key.canManageKeys {
        return Stop(Forbidden);
      }
      var subtree := {};
      if !key.isMaster {
        subtree := DescendantKeyIds(keys, c);
      }
      var managed := if key.isMaster then {} else ManagedHookIds(Contents(), c);
      var holders := set r | r in rows && r.1 in managed :: r.0;
      var views := [];
      NoViews(Contents(), c, key);
      for i := 0 to |order|
        invariant views == ViewsOf(Contents(), c, key, order[..i])
      {
        var k := order[i];
        BatchedForm(Contents(), c, key, k, subtree, managed, holders);
        OneMoreView(Contents(), c, key, order, i);
        if key.isMaster || k == c || k in subtree {
          views := views + [(k, Summary(Contents(), k))];
        } else if k in holders {
          views := views + [(k, MinimalView(Contents(), k, managed))];
        }
      }
      assert order[..|order|] == order;
      r := Pass(views);
    }

    /** The checks of `delete_api_key`, in their order; what passes is the subtree to delete. */
    method CheckDeletion(env: Env, c: Id, id: Id, resolutions: map<Id, Resolution>, ghost d: Draw) returns (r: Checked<set<Id>>)
      requires c in keys
      ensures r.Stop? ==> DeleteKey(env, Contents(), c, id, resolutions, d) == Stop(r.error)
      ensures r.Pass? ==>
                && resolutions.Keys <= hooks.Keys
                && DeleteKey(env, Contents(), c, id, resolutions, d)
                   == Pass(Effect(RemoveKeys(r.value, resolutions, c, d.now), Done))
    {
      hide KeyVisibility, LoadAdministrableKey, Descendants, OwnedHooks, Inventory, ValidTargets;
      var key := Effective(env, Contents(), c);
      if !key.isMaster && !key.canManageKeys {
        return Stop(Forbidden);
      }
      if id == c {
        return Stop(Forbidden);
      }
      var target := Administrable(c, key, id);
      if target.Stop? {
        return Stop(target.error);
      }
      if target.value.isMaster {
        return Stop(Forbidden);
      }
      var below := DescendantKeyIds(keys, id);
      var subtree := {id} + below;
      var inventory := OwnedHooks(Contents(), subtree);
      OwnedAreHooks(Contents(), subtree);
      InventoryChecks(Contents(), subtree, resolutions);
      if exists h :: h in resolutions && h !in inventory {
        return Stop(InvalidInput);
      }
      if exists h :: h in inventory && h !in resolutions {
        return Stop(Inventory(Contents(), subtree));
      }
      if exists h :: h in resolutions && resolutions[h].Reassign? && (resolutions[h].to in subtree || resolutions[h].to !in keys) {
        return Stop(InvalidInput);
      }
      r := Pass(subtree);
    }

    /** `delete_api_key` */
    method DeleteApiKey(env: Env, c: Id, id: Id, resolutions: map<Id, Resolution>, d: Draw)
      returns (response: Response, trashed: nat, reassigned: nat)
      requires c in keys
      modifies this
      ensures Contents() == Apply(old(Contents()), WriteOf(DeleteKey(env, old(Contents()), c, id, resolutions, d)))
      ensures response == AnswerOf(DeleteKey(env, old(Contents()), c, id, resolutions, d))
      ensures response == Done ==> trashed + reassigned == |resolutions|
    {
      hide Apply, DeleteKey, WithoutKeys, ResolvedHooks;
      NothingApplied(Contents());
      trashed, reassigned := 0, 0;
      var checked := CheckDeletion(env, c, id, resolutions, d);
      if checked.Stop? {
        return Failed(checked.error), 0, 0;
      }
      DeletionApplied(Contents(), checked.value, resolutions, c, d.now);
      trashed, reassigned := SettleHooks(c, resolutions, d.now);
      var left := WithoutKeys(Contents(), checked.value);
      keys, rows, executions := left.keys, left.rows, left.executions;
      response := Done;
    }

    /** The loop of `delete_api_key` over the resolutions, in any order. */
    method SettleHooks(actor: Id, resolutions: map<Id, Resolution>, now: int) returns (trashed: nat, reassigned: nat)
      requires resolutions.Keys <= hooks.Keys
      modifies this`hooks
      ensures hooks == ResolvedHooks(old(hooks), resolutions, actor, now)
      ensures trashed + reassigned == |resolutions|
    {
      trashed, reassigned := 0, 0;
      var todo := resolutions.Keys;
      while todo != {}
        invariant todo <= resolutions.Keys
        invariant hooks == Settled(old(hooks), resolutions, todo, actor, now)
        invariant trashed + reassigned + |todo| == |resolutions|
      {
        var h :| h in todo;
        SettleOne(old(hooks), resolutions, todo, actor, now, h);
        match resolutions[h] {
          case Trash =>
            hooks := hooks[h := hooks[h].(isDeleted := true, deletedAt := Some(now), deletedBy := Some(actor))];
            trashed := trashed + 1;
          case Reassign(to) =>
            hooks := hooks[h := hooks[h].(owner := Some(to))];
            reassigned := reassigned + 1;
        }
        todo := todo - {h};
      }
    }

    /** The inserts of `create_hook` for the parameters, stopping at the first repeated key. */
    method InsertParameters(hook: Id, declared: seq<ParamInput>, ids: nat -> Id) returns (complete: bool)
      requires Injective(ids) && (forall i: nat :: ids(i) !in params) && (forall p :: p in params ==> params[p].hook != hook)
      modifies this`params
      ensures params == old(params) + InsertedParams(hook, declared, ids, DistinctPrefix(declared))
      ensures complete <==> DistinctPrefix(declared) == |declared|
    {
      hide NewParam, ParamsOf, ParamKeys, KeySet, DistinctPrefix, InsertedParams, Injective;
      ghost var before := Contents();
      NothingInserted(before.params, hook, declared, ids);
      for i := 0 to |declared|
        invariant params == old(params) + InsertedParams(hook, declared, ids, i)
        invariant DistinctPrefix(declared[..i]) == i
      {
        InsertedParamsOf(before, hook, declared, ids, i, Contents());
        InsertedKeys(hook, declared, ids, i);
        PrefixStep(declared, i);
        if declared[i].key in ParamKeys(ParamsOf(Contents(), hook)) {
          PrefixStuck(declared, i, |declared|);
          assert declared[..|declared|] == declared;
          return false;
        }
        InsertOne(before.params, hook, declared, ids, i);
        params := params[ids(i) := NewParam(hook, declared[i])];
      }
      assert declared[..|declared|] == declared;
      complete := true;
    }

    /** `create_hook` */
    method CreateHookHandler(env: Env, c: Id, p: CreateHookPayload, d: Draw) returns (response: Response)
      requires c in keys && References(Contents()) && FreshDraw(Contents(), d)
      modifies this
      ensures Contents() == Apply(old(Contents()), WriteOf(CreateHook(env, old(Contents()), c, p, d)))
      ensures response == AnswerOf(CreateHook(env, old(Contents()), c, p, d))
    {
      hide Apply, Detail, FreshDraw, References, InsertedParams, DistinctPrefix, IsIdentifier, Trim, EffectiveRunAsUser,
           ArgsTemplate.ValidArgsTemplate, ValidSamplePayload, SealHmacSecret, NormalizeRunAsUser, KeySet, NameTaken;
      NothingApplied(Contents());
      var key := Effective(env, Contents(), c);
      if !key.isMaster && !key.canManageHooks {
        return Failed(Forbidden);
      }
      var runAsUser := NormalizeRunAsUser(env, key, p.runAsUser);
      if runAsUser.Stop? {
        return Failed(runAsUser.error);
      }
      var name := Trim(p.name);
      if name == "" {
        return Failed(InvalidInput);
      }
      var timeout := Or(p.timeout, 30);
      if !env.scriptPathOk(p.scriptPath) || !ValidTimeout(timeout) {
        return Failed(InvalidInput);
      }
      var declared := Or(p.parameters, []);
      for i := 0 to |declared|
        invariant forall j :: 0 <= j < i ==> IsIdentifier(declared[j].key)
        invariant Contents() == old(Contents())
      {
        if !IsIdentifier(declared[i].key) {
          return Failed(InvalidInput);
        }
      }
      var mode := Or(p.authMode, CanonicalV1);
      var secret := SealHmacSecret(env, mode, p.hmacSecret, None);
      if secret.Stop? {
        return Failed(secret.error);
      }
      if !ValidSamplePayload(env, p.samplePayload, KeySet(declared)) {
        return Failed(InvalidInput);
      }
      if !ArgsTemplate.ValidArgsTemplate(p.argsTemplate, KeySet(declared)) {
        return Failed(InvalidInput);
      }
      var created := Hook(name, p.description, p.scriptPath, timeout, runAsUser.value, Some(c), false, None, None, mode,
                          secret.value, NonEmpty(p.signatureHeader), NonEmpty(p.signaturePrefix),
                          NonEmpty(p.canonicalTemplate), NonEmpty(p.samplePayload), NonEmpty(p.argsTemplate));
      response := InsertNewHook(env, c, created, declared, d);
    }

    /** The inserts of `create_hook`: the row, its parameters, and then the creator's permission row. */
    method InsertNewHook(env: Env, c: Id, created: Hook, declared: seq<ParamInput>, d: Draw) returns (response: Response)
      requires c in keys && References(Contents()) && FreshDraw(Contents(), d)
      modifies this
      ensures
        var n := DistinctPrefix(declared);
        var taken := NameTaken(old(Contents()), created.name, None);
        var write := InsertHook(d.id, created, InsertedParams(d.id, declared, d.paramIds, n),
                                if n == |declared| then Some(c) else None);
        && Contents() == (if taken then old(Contents()) else Apply(old(Contents()), write))
        && response == (if taken || n < |declared| then Failed(Conflict)
                        else HookShown(d.id, Detail(Apply(old(Contents()), write), c, Effective(env, old(Contents()), c), d.id)))
    {
      hide Apply, InsertedParams, DistinctPrefix, Detail, References, FreshDraw, Injective;
      var before := Contents();
      var key := Effective(env, Contents(), c);
      if exists h :: h in hooks && hooks[h].name == created.name {
        return Failed(Conflict);
      }
      assert !NameTaken(before, created.name, None);
      hooks := hooks[d.id := created];
      used := used + {d.id};
      FreshIsNew(before, d);
      var complete := InsertParameters(d.id, declared, d.paramIds);
      ghost var inserted := InsertedParams(d.id, declared, d.paramIds, DistinctPrefix(declared));
      used := used + (params.Keys - before.params.Keys);
      FreshRows(before, d, declared);
      assert params.Keys - before.params.Keys == inserted.Keys;
      InsertionApplied(before, d.id, created, inserted, if complete then Some(c) else None);
      if !complete {
        return Failed(Conflict);
      }
      rows := rows[(c, d.id) := FullRow()];
      response := HookShown(d.id, Detail(Contents(), c, key, d.id));
    }

    /** Who may make this edit: the guards of `update_hook`, in their order. What passes is the hook and its account. */
    method CheckEditor(env: Env, c: Id, identifier: string, p: UpdateHookPayload) returns (r: Checked<(Id, Option<string>)>)
      requires c in keys && UniqueNames(hooks)
      ensures r == MayEdit(env, Contents(), c, identifier, p)
      ensures r.Pass? ==> r.value.0 in hooks
    {
      hide FindHook, ResolveHook, UniqueNames, GuardManage, GuardDispatchConfiguration, Privileged, NormalizeRunAsUser;
      var key := Effective(env, Contents(), c);
      var found := Find(env, identifier, false);
      if found.Stop? {
        return Stop(found.error);
      }
      var h := found.value;
      var manage := GuardManage(Contents(), c, key, h);
      if manage.Deny? {
        return Stop(manage.error);
      }
      if EditsDispatch(p) {
        var dispatch := GuardDispatchConfiguration(Contents(), c, key, h);
        if dispatch.Deny? {
          return Stop(dispatch.error);
        }
      }
      if !key.isMaster && Privileged(hooks[h]) {
        return Stop(Forbidden);
      }
      var runAsUser := NormalizeRunAsUser(env, key, p.runAsUser);
      if runAsUser.Stop? {
        return Stop(runAsUser.error);
      }
      if p.name.Some? && !key.isMaster && hooks[h].owner != Some(c) {
        return Stop(Forbidden);
      }
      if p.owner.Some? && !key.isMaster {
        return Stop(Forbidden);
      }
      if p.owner.Some? && p.owner.value !in keys {
        return Stop(InvalidInput);
      }
      r := Pass((h, runAsUser.value));
    }

    /** `update_hook` */
    method UpdateHookHandler(env: Env, c: Id, identifier: string, p: UpdateHookPayload) returns (response: Response)
      requires c in keys && UniqueNames(hooks)
      modifies this`hooks
      ensures Contents() == Apply(old(Contents()), WriteOf(UpdateHook(env, old(Contents()), c, identifier, p)))
      ensures response == AnswerOf(UpdateHook(env, old(Contents()), c, identifier, p))
      ensures response.HookShown? ==>
                var h := response.id;
                && h in old(hooks) && h in hooks && hooks == old(hooks)[h := hooks[h]]
                && HookContracts.EditedAs(env, old(hooks)[h], hooks[h], p)
    {
      hide Apply, Detail, MayEdit, UniqueNames, Trim, Edited, ArgsTemplate.ValidArgsTemplate, ValidSamplePayload, SealHmacSecret,
           ParamKeys, ParamsOf, NameTaken, HookContracts.EditedAs, HookContracts.AccountOf, HookContracts.SecretBecomes,
           HookContracts.FieldsSet;
      NothingApplied(Contents());
      var editor := CheckEditor(env, c, identifier, p);
      if editor.Stop? {
        return Failed(editor.error);
      }
      var (h, runAsUser) := editor.value;
      var hook := hooks[h];
      if p.scriptPath.Some? && !env.scriptPathOk(p.scriptPath.value) {
        return Failed(InvalidInput);
      }
      if p.timeout.Some? && !ValidTimeout(p.timeout.value) {
        return Failed(InvalidInput);
      }
      var secret := SealHmacSecret(env, Or(p.authMode, hook.authMode), p.hmacSecret, hook.hmacSecret);
      if secret.Stop? {
        return Failed(secret.error);
      }
      var active := SetFields(hook, p, runAsUser, secret.value);
      HookContracts.EditorNamesAccount(env, Contents(), c, identifier, p);
      HookContracts.SecretExactly(env, Or(p.authMode, hook.authMode), p.hmacSecret, hook.hmacSecret);
      HookContracts.FieldsExactly(env, hook, p, secret.value);
      var declared := ParamKeys(ParamsOf(Contents(), h));
      if !ValidSamplePayload(env, active.samplePayload, declared) || !ArgsTemplate.ValidArgsTemplate(active.argsTemplate, declared) {
        return Failed(InvalidInput);
      }
      if p.name.Some? && active.name == "" {
        return Failed(InvalidInput);
      }
      if NameTaken(Contents(), active.name, Some(h)) {
        return Failed(Conflict);
      }
      SettingApplied(Contents(), h, active);
      hooks := hooks[h := active];
      response := HookShown(h, Detail(Contents(), c, Effective(env, Contents(), c), h));
    }
  }

  /** The field assignments of `update_hook`, one by one. */
  method SetFields(hook: Hook, p: UpdateHookPayload, runAsUser: Option<string>, secret: Option<string>) returns (active: Hook)
    ensures active == Edited(hook, p, runAsUser, secret)
    ensures HookContracts.FieldsSet(hook, active, p, runAsUser) && active.hmacSecret == secret
  {
    hide EditedGeneral, EditedSigning, HookContracts.FieldsSet;
    HookContracts.EditedFields(hook, p, runAsUser, secret);
    active := SetGeneralFields(hook, p, runAsUser);
    active := SetSigningFields(active, p, secret);
  }

  method SetGeneralFields(hook: Hook, p: UpdateHookPayload, runAsUser: Option<string>) returns (active: Hook)
    ensures active == EditedGeneral(hook, p, runAsUser)
  {
    hide Trim;
    active := hook;
    if p.name.Some? { active := active.(name := Trim(p.name.value)); }
    if p.owner.Some? { active := active.(owner := p.owner); }
    if p.description.Some? { active := active.(description := p.description); }
    if p.scriptPath.Some? { active := active.(scriptPath := p.scriptPath.value); }
    if p.timeout.Some? { active := active.(timeout := p.timeout.value); }
    if p.runAsUser.Some? { active := active.(runAsUser := runAsUser); }
  }

  method SetSigningFields(hook: Hook, p: UpdateHookPayload, secret: Option<string>) returns (active: Hook)
    ensures active == EditedSigning(hook, p, secret)
  {
    hide NonEmpty;
    active := hook;
    if p.authMode.Some? { active := active.(authMode := p.authMode.value); }
    active := active.(hmacSecret := secret);
    if p.signatureHeader.Some? { active := active.(signatureHeader := NonEmpty(p.signatureHeader)); }
    if p.signaturePrefix.Some? { active := active.(signaturePrefix := NonEmpty(p.signaturePrefix)); }
    if p.canonicalTemplate.Some? { active := active.(canonicalTemplate := NonEmpty(p.canonicalTemplate)); }
    if p.samplePayload.Some? { active := active.(samplePayload := NonEmpty(p.samplePayload)); }
    if p.argsTemplate.Some? { active := active.(argsTemplate := NonEmpty(p.argsTemplate)); }
  }

  lemma SettingApplied(s: State, h: Id, row: Hook)
    ensures Apply(s, SetHook(h, row)) == s.(hooks := s.hooks[h := row])
    ensures h in Apply(s, SetHook(h, row)).hooks
  {
  }

  lemma InventoryChecks(s: State, subtree: set<Id>, resolutions: map<Id, Resolution>)
    ensures resolutions.Keys <= OwnedHooks(s, subtree) <==> !exists h :: h in resolutions && h !in OwnedHooks(s, subtree)
    ensures OwnedHooks(s, subtree) <= resolutions.Keys <==> !exists h :: h in OwnedHooks(s, subtree) && h !in resolutions
    ensures ValidTargets(s, subtree, resolutions) <==>
      !exists h :: h in resolutions && resolutions[h].Reassign? && (resolutions[h].to in subtree || resolutions[h].to !in s.keys)
  {
    hide OwnedHooks;
  }

  lemma OwnedAreHooks(s: State, owners: set<Id>)
    ensures OwnedHooks(s, owners) <= s.hooks.Keys
  {
  }

  lemma NothingApplied(s: State)
    ensures Apply(s, Nothing) == s
  {
  }

  lemma InsertionApplied(s: State, id: Id, created: Hook, inserted: map<Id, Param>, creator: Option<Id>)
    ensures Apply(s, InsertHook(id, created, inserted, creator))
         == s.(hooks := s.hooks[id := created], params := s.params + inserted,
               rows := if creator.Some? then s.rows[(creator.value, id) := FullRow()] else s.rows,
               used := s.used + {id} + inserted.Keys)
  {
  }

  lemma DeletionApplied(s: State, doomed: set<Id>, resolutions: map<Id, Resolution>, actor: Id, now: int)
    ensures
      var settled := WithoutKeys(s.(hooks := ResolvedHooks(s.hooks, resolutions, actor, now)), doomed);
      && Apply(s, RemoveKeys(doomed, resolutions, actor, now)) == settled
      && settled == s.(keys := settled.keys, rows := settled.rows, executions := settled.executions,
                       hooks := ResolvedHooks(s.hooks, resolutions, actor, now))
  {
    hide ResolvedHooks;
  }

  /** The list a caller is entitled to, key by key. */
  ghost function ViewsOf(s: State, c: Id, key: Key, order: seq<Id>): seq<(Id, KeyView)>
    requires forall i :: 0 <= i < |order| ==> order[i] in s.keys
  {
    if order == [] then []
    else
      var k := order[|order| - 1];
      ViewsOf(s, c, key, order[..|order| - 1]) + ViewAt(s, k, KeyVisibility(s, c, key, k), ManagedHookIds(s, c))
  }

  lemma NoViews(s: State, c: Id, key: Key)
    ensures ViewsOf(s, c, key, []) == []
  {
  }

  function ViewAt(s: State, k: Id, v: Visibility, managed: set<Id>): seq<(Id, KeyView)>
    requires k in s.keys
  {
    match v
    case FullForm => [(k, Summary(s, k))]
    case MinimalForm => [(k, MinimalView(s, k, managed))]
    case Hidden => []
  }

  lemma OneMoreView(s: State, c: Id, key: Key, order: seq<Id>, i: nat)
    requires (forall j :: 0 <= j < |order| ==> order[j] in s.keys) && i < |order|
    ensures ViewsOf(s, c, key, order[..i + 1])
         == ViewsOf(s, c, key, order[..i]) + ViewAt(s, order[i], KeyVisibility(s, c, key, order[i]), ManagedHookIds(s, c))
  {
    hide KeyVisibility, Summary, MinimalView, ManagedHookIds;
    assert order[..i + 1][..i] == order[..i];
  }

  /** The three batched sets decide the form of one key as `key_visibility` does. */
  lemma BatchedForm(s: State, c: Id, key: Key, k: Id, subtree: set<Id>, managed: set<Id>, holders: set<Id>)
    requires k in s.keys && subtree == (if key.isMaster then {} else Descendants(s.keys, c))
    requires managed == (if key.isMaster then {} else ManagedHookIds(s, c))
    requires forall j :: j in holders <==> exists r :: r in s.rows && r.1 in managed && r.0 == j
    ensures ViewAt(s, k, KeyVisibility(s, c, key, k), ManagedHookIds(s, c))
         == if key.isMaster || k == c || k in subtree then [(k, Summary(s, k))]
            else if k in holders then [(k, MinimalView(s, k, managed))]
            else []
  {
    hide Summary, MinimalView, ManagedHookIds, Descendants;
  }

  lemma FreshIsNew(s: State, d: Draw)
    requires References(s) && FreshDraw(s, d)
    ensures d.id !in s.hooks && Injective(d.paramIds)
    ensures forall i: nat :: d.paramIds(i) !in s.params
    ensures forall p :: p in s.params ==> s.params[p].hook != d.id
  {
  }

  lemma FreshRows(s: State, d: Draw, declared: seq<ParamInput>)
    requires References(s) && FreshDraw(s, d)
    ensures InsertedParams(d.id, declared, d.paramIds, DistinctPrefix(declared)).Keys !! s.params.Keys
  {
    hide References;
    FreshIsNew(s, d);
    InsertedParamsAt(d.id, declared, d.paramIds, DistinctPrefix(declared));
  }
}
