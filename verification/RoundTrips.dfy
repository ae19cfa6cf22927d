/** What a request must show, exactly; what one request undoes of another; and what a later read shows of a write. */
module RoundTrips {
  import opened Text
  import opened Rbac
  import opened Guards
  import opened Lineage
  import opened Hooks
  import opened KeyRoutes
  import opened HookRoutes
  import opened Service
  import opened Writes
  import opened Invariants

  // ── Permission rows ────────────────────────────────────────────────────────

  /** R1, R2, R6 and R7 at once: below the master a row may be written exactly by a key that manages keys and holds
      `can_manage` on a live hook that is not elevated, if the row takes verbs away, or hands another key only verbs
      the writer holds itself. */
  lemma GrantPassesExactly(env: Env, s: State, c: Id, id: Id, p: GrantPayload, h: Id)
    requires c in s.keys && id in s.keys && GrantIdentifier(p).Pass?
    requires ResolveHook(env, s, GrantIdentifier(p).value) == Pass(h)
    ensures Grant(env, s, c, id, p).Pass? <==>
      && !s.keys[id].isMaster
      && (|| Effective(env, s, c).isMaster
          || (&& Conjunction(s, c, h) && !Privileged(s.hooks[h])
              && KeyVisibility(s, c, Effective(env, s, c), id) != Hidden
              && (Within(p.row, HeldRow(s, id, h)) || (id != c && Within(p.row, HeldRow(s, c, h))))))
  {
    hide ResolveHook, KeyVisibility, Privileged, Within, IsPermissionReduction, GuardDelegatedGrant;
    if Effective(env, s, c).isMaster {
      MasterSeesAll(env, s, c, id);
    } else {
      ReductionExactly(HeldRow(s, id, h), p.row);
      DelegationExactly(s, c, Effective(env, s, c), h, p.row);
    }
    if Conjunction(s, c, h) {
      assert ManagesAnyHook(s, c);
    }
  }

  lemma MasterSeesAll(env: Env, s: State, c: Id, id: Id)
    requires c in s.keys && Effective(env, s, c).isMaster
    ensures KeyVisibility(s, c, Effective(env, s, c), id) == FullForm
  {
  }

  lemma ReductionExactly(existing: Option<Row>, row: Row)
    ensures IsPermissionReduction(existing, row) <==> Within(row, existing)
  {
    var had := Or(existing, Row(false, false, false));
    if Within(row, existing) {
      assert Allows(row, Execute) ==> Allows(had, Execute);
      assert Allows(row, Manage) ==> Allows(had, Manage);
      assert Allows(row, ViewExecution) ==> Allows(had, ViewExecution);
    }
  }

  lemma DelegationExactly(s: State, c: Id, key: Key, h: Id, row: Row)
    requires !key.isMaster
    ensures GuardDelegatedGrant(s, c, key, h, row).Allow?
       <==> key.canManageKeys && Holds(s, c, h, Manage) && Within(row, HeldRow(s, c, h))
  {
    if (c, h) in s.rows {
      var held := s.rows[(c, h)];
      if Within(row, Some(held)) {
        assert Allows(row, Execute) ==> Allows(held, Execute);
        assert Allows(row, Manage) ==> Allows(held, Manage);
        assert Allows(row, ViewExecution) ==> Allows(held, ViewExecution);
      }
    }
  }

  /** A revocation asks for R2 alone, on any hook that is live, elevated or not, and for a row to revoke. */
  lemma RevokePassesExactly(env: Env, s: State, c: Id, id: Id, identifier: string, h: Id)
    requires c in s.keys && ResolveHook(env, s, identifier) == Pass(h)
    ensures Revoke(env, s, c, id, identifier).Pass? <==>
      (Effective(env, s, c).isMaster || Conjunction(s, c, h)) && (id, h) in s.rows
  {
    hide ResolveHook;
    if Conjunction(s, c, h) {
      assert ManagesAnyHook(s, c);
    }
  }

  /** Granting a first row and revoking it leaves everything as it was; in between, the key holds exactly that row. */
  lemma GrantThenRevoke(env: Env, s: State, c: Id, id: Id, p: GrantPayload, h: Id)
    requires Inv(env, s) && c in s.keys && id != c && GrantIdentifier(p).Pass?
    requires ResolveHook(env, s, GrantIdentifier(p).value) == Pass(h)
    requires Grant(env, s, c, id, p).Pass? && (id, h) !in s.rows
    ensures
      var s1 := Apply(s, WriteOf(Grant(env, s, c, id, p)));
      && HeldRow(s1, id, h) == Some(p.row)
      && (forall k: Id, g: Id :: (k, g) != (id, h) ==> HeldRow(s1, k, g) == HeldRow(s, k, g))
      && var e := Revoke(env, s1, c, id, GrantIdentifier(p).value);
         AnswerOf(e) == Done && Apply(s1, WriteOf(e)) == s
  {
    hide Inv, ResolveHook, FindHook, KeyVisibility, Privileged, Within, Revoke, GuardRowWrite, HasPermissionAdminStanding;
    var identifier := GrantIdentifier(p).value;
    GrantPassesExactly(env, s, c, id, p, h);
    var s1 := Apply(s, WriteOf(Grant(env, s, c, id, p)));
    assert s1 == s.(rows := s.rows[(id, h) := p.row]);
    SameHooksResolve(env, s, s1, identifier);
    assert HeldRow(s1, c, h) == HeldRow(s, c, h);
    RevokePassesExactly(env, s1, c, id, identifier, h);
    RevokeEffect(env, s1, c, id, identifier, h);
    assert s1.rows - {(id, h)} == s.rows;
  }

  lemma RevokeEffect(env: Env, s: State, c: Id, id: Id, identifier: string, h: Id)
    requires c in s.keys && id in s.keys && ResolveHook(env, s, identifier) == Pass(h) && Revoke(env, s, c, id, identifier).Pass?
    ensures Revoke(env, s, c, id, identifier) == Pass(Effect(DropRow(id, h), Done))
  {
    hide ResolveHook, HasPermissionAdminStanding;
  }

  lemma SameHooksResolve(env: Env, s: State, s': State, identifier: string)
    requires Inv(env, s) && s'.hooks == s.hooks
    ensures FindHook(env, s', identifier) == FindHook(env, s, identifier)
    ensures ResolveHook(env, s', identifier) == ResolveHook(env, s, identifier)
  {
    hide References, OwnersUsed, Forest, OneMaster, KeyRules, ParamRules, UniqueNames;
    assert forall h :: NamesHook(s', identifier, h) <==> NamesHook(s, identifier, h);
    if h :| NamesHook(s, identifier, h) {
      var id := env.parseId(identifier);
      if id.None? || id.value !in s.hooks {
        FindByName(env, s, identifier, h);
        FindByName(env, s', identifier, h);
      }
    }
  }

  // ── Credentials ────────────────────────────────────────────────────────────

  /** Renewing the bearer key and then the signing secret is a rotation. */
  lemma RenewalsCompose(env: Env, s: State, c: Id, id: Id, d: Draw)
    requires c in s.keys && RenewCredentials(env, s, c, id, Both, d).Pass?
    ensures
      var s1 := Apply(s, WriteOf(RenewCredentials(env, s, c, id, TokenOnly, d)));
      c in s1.keys &&
      var s2 := Apply(s1, WriteOf(RenewCredentials(env, s1, c, id, SecretOnly, d)));
      && s2 == Apply(s, WriteOf(RenewCredentials(env, s, c, id, Both, d)))
      && s1.keys[id].signing == s.keys[id].signing && s1.keys[id].token == d.token
      && s2.keys[id].token == d.token && s2.keys[id].signing == Some(d.signing)
      && s2.keys[id] == s.keys[id].(token := d.token, signing := Some(d.signing))
      && s2.keys - {id} == s.keys - {id}
  {
    hide KeyVisibility, Apply;
    var s1 := Apply(s, WriteOf(RenewCredentials(env, s, c, id, TokenOnly, d)));
    var renewed := s.keys[id].(token := d.token);
    SettingKey(s, id, renewed);
    SettingKey(s, id, renewed.(signing := Some(d.signing)));
    SettingKey(s1, id, renewed.(signing := Some(d.signing)));
    RenewedIsVisible(s, c, id, s1, Effective(env, s, c), Effective(env, s1, c));
    assert s.keys[id := renewed][id := renewed.(signing := Some(d.signing))] == s.keys[id := renewed.(signing := Some(d.signing))];
  }

  lemma SettingKey(s: State, id: Id, key: Key)
    ensures Apply(s, SetKey(id, key)) == s.(keys := s.keys[id := key])
  {
  }

  /** Visibility depends on lineage and rows, neither of which a renewal touches. */
  lemma RenewedIsVisible(s: State, c: Id, id: Id, s1: State, key: Key, key1: Key)
    requires s1.rows == s.rows && s1.keys.Keys == s.keys.Keys && key1.isMaster == key.isMaster
    requires forall k :: k in s.keys ==> s1.keys[k].parent == s.keys[k].parent
    ensures KeyVisibility(s1, c, key1, id) == KeyVisibility(s, c, key, id)
  {
    forall k | k in s.keys ensures DescendsFrom(s1.keys, k, c) <==> DescendsFrom(s.keys, k, c) {
      if DescendsFrom(s.keys, k, c) { SubmapDescends(s.keys, s1.keys, k, c); }
      if DescendsFrom(s1.keys, k, c) { SubmapDescends(s1.keys, s.keys, k, c); }
    }
    assert Descendants(s1.keys, c) == Descendants(s.keys, c);
  }

  // ── The trash ──────────────────────────────────────────────────────────────

  /** A hook moved to the trash and restored by the master is back as it was, with its parameters, permissions and
      history; while it lies there, no identifier finds it. */
  lemma TrashRoundTrip(env: Env, s: State, c: Id, m: Id, identifier: string, d: Draw, h: Id, text: string)
    requires Inv(env, s) && c in s.keys && m in s.keys && Effective(env, s, m).isMaster
    requires DeleteHook(env, s, c, identifier, false, d).Pass? && ResolveHook(env, s, identifier) == Pass(h)
    requires s.hooks[h].deletedAt.None? && s.hooks[h].deletedBy.None? && env.parseId(text) == Some(h)
    ensures
      var s1 := Apply(s, WriteOf(DeleteHook(env, s, c, identifier, false, d)));
      && m in s1.keys
      && (forall name :: ResolveHook(env, s1, name) != Pass(h))
      && var e := RestoreHook(env, s1, m, text);
         e.Pass? && Apply(s1, WriteOf(e)) == s
  {
    hide Inv, GuardManage, GuardLifecycleAuthority, Privileged, Detail;
    NotDeleted(env, s, identifier);
    var s1 := Apply(s, WriteOf(DeleteHook(env, s, c, identifier, false, d)));
    assert s1 == s.(hooks := s.hooks[h := s.hooks[h].(isDeleted := true, deletedAt := Some(d.now), deletedBy := Some(c))]);
    var e := RestoreHook(env, s1, m, text);
    assert e.Pass?;
    assert Apply(s1, WriteOf(e)).hooks == s.hooks;
  }

  lemma NotDeleted(env: Env, s: State, identifier: string)
    ensures ResolveHook(env, s, identifier).Pass? ==> !s.hooks[ResolveHook(env, s, identifier).value].isDeleted
  {
  }

  // ── Keys ───────────────────────────────────────────────────────────────────

  /** A key created and deleted again leaves nothing but a used id: a new key owns nothing and has no children. */
  lemma CreateThenDelete(env: Env, s: State, c: Id, p: CreateKeyPayload, d: Draw, d': Draw)
    requires Inv(env, s) && c in s.keys && FreshDraw(s, d) && CreateKey(env, s, c, p, d).Pass?
    ensures
      var s1 := Apply(s, WriteOf(CreateKey(env, s, c, p, d)));
      && c in s1.keys
      && var e := DeleteKey(env, s1, c, d.id, map[], d');
         AnswerOf(e) == Done && Apply(s1, WriteOf(e)) == s.(used := s.used + {d.id})
  {
    hide Inv, FreshDraw, DeleteKey;
    var w := WriteOf(CreateKey(env, s, c, p, d));
    var s1 := Apply(s, w);
    NewKey(env, s, c, p, d);
    LeafSubtree(env, s, c, w.key, d.id);
    NothingRefersTo(env, s, s1, d.id);
    DeleteLeaf(env, s1, c, d.id, d');
    assert (s.keys[d.id := w.key]) - {d.id} == s.keys;
  }

  lemma NewKey(env: Env, s: State, c: Id, p: CreateKeyPayload, d: Draw)
    requires Inv(env, s) && c in s.keys && FreshDraw(s, d) && CreateKey(env, s, c, p, d).Pass?
    ensures
      var w := WriteOf(CreateKey(env, s, c, p, d));
      && w.InsertKey? && w.id == d.id && d.id !in s.used && d.id !in s.keys && d.id != c
      && w.key.parent == Some(c) && !w.key.isMaster
      && (Effective(env, s, c).isMaster || Effective(env, s, c).canManageKeys)
  {
    hide Forest, OneMaster, KeyRules, HookRules, ParamRules, OwnersUsed;
  }

  /** Nothing descends from a new key, and nothing belongs to it. */
  lemma LeafSubtree(env: Env, s: State, c: Id, key: Key, id: Id)
    requires Inv(env, s) && c in s.keys && id !in s.keys && key.parent == Some(c)
    ensures Subtree(s.keys[id := key], id) == {id}
    ensures DescendsFrom(s.keys[id := key], id, c)
  {
    var keys' := s.keys[id := key];
    forall k | k in keys' && k != id ensures !DescendsFrom(keys', k, id) {
      if DescendsFrom(keys', k, id) {
        var n: nat :| n >= 1 && Ancestor(keys', k, n) == Some(id);
        NoPathToLeaf(s.keys, id, key, k, n);
      }
    }
    ChildDescends(keys', id, c);
  }

  lemma DeleteLeaf(env: Env, s: State, c: Id, id: Id, d: Draw)
    requires c in s.keys && id in s.keys && id != c && !s.keys[id].isMaster
    requires Effective(env, s, c).isMaster || Effective(env, s, c).canManageKeys
    requires DescendsFrom(s.keys, id, c) && Subtree(s.keys, id) == {id} && OwnedHooks(s, {id}) == {}
    ensures DeleteKey(env, s, c, id, map[], d) == Pass(Effect(RemoveKeys({id}, map[], c, d.now), Done))
  {
    hide Subtree, OwnedHooks, DescendsFrom, Inventory;
  }

  lemma NothingRefersTo(env: Env, s: State, s1: State, id: Id)
    requires Inv(env, s) && id !in s.used && s1.hooks == s.hooks && s1.rows == s.rows && s1.executions == s.executions
    ensures OwnedHooks(s1, {id}) == {}
    ensures WithoutKeys(s1, {id}) == s1.(keys := s1.keys - {id})
    ensures forall actor, now :: ResolvedHooks(s.hooks, map[], actor, now) == s.hooks
  {
    hide Forest, OneMaster, KeyRules, HookRules, ParamRules;
  }

  // ── Reading back ───────────────────────────────────────────────────────────

  /** What an edit answers is what a read by id answers afterwards. */
  lemma PutThenGet(env: Env, s: State, c: Id, identifier: string, p: UpdateHookPayload, h: Id, text: string)
    requires c in s.keys && UpdateHook(env, s, c, identifier, p).Pass? && ResolveHook(env, s, identifier) == Pass(h)
    requires env.parseId(text) == Some(h)
    ensures
      var e := UpdateHook(env, s, c, identifier, p);
      var s1 := Apply(s, WriteOf(e));
      && c in s1.keys && AnswerOf(GetHook(env, s1, c, text, false)) == AnswerOf(e)
      && s1 == s.(hooks := s.hooks[h := s1.hooks[h]])
  {
    hide NormalizeRunAsUser, SealHmacSecret, ValidSamplePayload, ArgsTemplate.ValidArgsTemplate, Trim, NameTaken, Detail,
         ParamsOf, ParamKeys, Privileged, FindHook;
    NotDeleted(env, s, identifier);
    var e := UpdateHook(env, s, c, identifier, p);
    var s1 := Apply(s, WriteOf(e));
    FoundById(env, s1, h, text);
    assert s1.rows == s.rows;
  }

  lemma FoundById(env: Env, s: State, h: Id, text: string)
    requires h in s.hooks && env.parseId(text) == Some(h)
    ensures FindHook(env, s, text) == Pass(h)
  {
  }

  /** A creation that answers with the hook has given its creator all three verbs on it, and a read by id answers alike. */
  lemma PostThenGet(env: Env, s: State, c: Id, p: CreateHookPayload, d: Draw, text: string)
    requires c in s.keys && AnswerOf(CreateHook(env, s, c, p, d)).HookShown? && env.parseId(text) == Some(d.id)
    ensures
      var e := CreateHook(env, s, c, p, d);
      var s1 := Apply(s, WriteOf(e));
      && c in s1.keys && AnswerOf(GetHook(env, s1, c, text, false)) == AnswerOf(e)
      && HeldRow(s1, c, d.id) == Some(FullRow())
  {
    hide NormalizeRunAsUser, SealHmacSecret, ValidSamplePayload, ArgsTemplate.ValidArgsTemplate, Trim, NameTaken, Detail,
         ParamsOf, FindHook, KeySet, DistinctPrefix, InsertedParams, IsIdentifier;
    var e := CreateHook(env, s, c, p, d);
    var s1 := Apply(s, WriteOf(e));
    FoundById(env, s1, d.id, text);
  }

  predicate OwnedWithoutRow(s: State, c: Id, key: Key, h: Id) {
    && h in s.hooks && s.hooks[h].owner == Some(c)
    && GuardVisibility(s, c, key, h).Allow? && GuardExecute(s, c, key, h) == Deny(NotFound)
  }

  /** What a creation that passes its checks answers and leaves depends on one thing the caller can see beforehand: a
      parameter key that repeats. Then the answer is a conflict, and yet the hook exists, owned by the caller, which can
      read it but holds no row on it, so that running it is "not found". Otherwise the caller holds all three verbs. */
  lemma HalfCreatedExactly(env: Env, s: State, c: Id, p: CreateHookPayload, d: Draw)
    requires Inv(env, s) && c in s.keys && FreshDraw(s, d) && CreateHook(env, s, c, p, d).Pass?
    ensures
      var e := CreateHook(env, s, c, p, d);
      var s1 := Apply(s, WriteOf(e));
      && d.id !in s.hooks && d.id in s1.hooks
      && (AnswerOf(e) == Failed(Conflict) <==> RepeatsKey(Or(p.parameters, [])))
      && (HeldRow(s1, c, d.id) == None <==> RepeatsKey(Or(p.parameters, [])))
      && (RepeatsKey(Or(p.parameters, [])) && !Effective(env, s, c).isMaster ==>
            OwnedWithoutRow(s1, c, Effective(env, s, c), d.id))
      && (!RepeatsKey(Or(p.parameters, [])) ==> HeldRow(s1, c, d.id) == Some(FullRow()))
  {
    hide Forest, OneMaster, KeyRules, HookRules, ParamRules, OwnersUsed, NormalizeRunAsUser, SealHmacSecret, ValidSamplePayload,
         ArgsTemplate.ValidArgsTemplate, Trim, NameTaken, Detail, ParamsOf, KeySet, DistinctPrefix, InsertedParams, IsIdentifier,
         RepeatsKey;
    DistinctPrefixExactly(Or(p.parameters, []));
    assert d.id !in s.used;
  }

  /** A hook declared with the same parameter twice. */
  function TwiceDeclared(path: string): CreateHookPayload {
    var a := ParamInput("a", None, None, None);
    CreateHookPayload("h", None, path, None, None, Some([a, a]), None, None, None, None, None, None, None)
  }

  /** Wherever its path is allowed and its name is free, that declaration is half-created. */
  lemma TwiceDeclaredIsHalfCreated(env: Env, s: State, c: Id, path: string, d: Draw)
    requires Inv(env, s) && c in s.keys && FreshDraw(s, d)
    requires s.keys[c].canManageHooks && !Effective(env, s, c).isMaster
    requires env.scriptPathOk(path) && !NameTaken(s, "h", None)
    ensures AnswerOf(CreateHook(env, s, c, TwiceDeclared(path), d)) == Failed(Conflict)
    ensures OwnedWithoutRow(Apply(s, WriteOf(CreateHook(env, s, c, TwiceDeclared(path), d))), c, Effective(env, s, c), d.id)
  {
    hide Inv, NameTaken, Detail, Apply, KeySet, DistinctPrefix, InsertedParams, RepeatsKey, FreshDraw;
    var p := TwiceDeclared(path);
    assert Trim("h") == "h";
    assert IsIdentifier("a");
    TwoAlike(p.parameters.value);
    HalfCreatedExactly(env, s, c, p, d);
  }

  lemma TwoAlike(declared: seq<ParamInput>)
    requires |declared| == 2 && declared[0].key == declared[1].key
    ensures RepeatsKey(declared)
  {
  }

  /** What editing a key answers is what the list shows of it afterwards. */
  lemma PutKeyThenList(env: Env, s: State, c: Id, id: Id, p: UpdateKeyPayload)
    requires c in s.keys && UpdateKey(env, s, c, id, p).Pass? && (id == c ==> p.canManageKeys != Some(false))
    ensures
      var e := UpdateKey(env, s, c, id, p);
      var s1 := Apply(s, WriteOf(e));
      && c in s1.keys && AnswerOf(ListKeys(env, s1, c)).KeysListed?
      && id in AnswerOf(ListKeys(env, s1, c)).views
      && AnswerOf(e) == KeyShown(AnswerOf(ListKeys(env, s1, c)).views[id])
  {
    hide Summary, MinimalView, ManagedHookIds, KeyVisibility, Descendants;
    var e := UpdateKey(env, s, c, id, p);
    var s1 := Apply(s, WriteOf(e));
    StillVisible(env, s, c, id, s1);
  }

  lemma StillVisible(env: Env, s: State, c: Id, id: Id, s1: State)
    requires c in s.keys && c in s1.keys && s1.rows == s.rows && s1.keys.Keys == s.keys.Keys
    requires forall k :: k in s.keys ==> s1.keys[k].parent == s.keys[k].parent
    requires KeyVisibility(s, c, Effective(env, s, c), id) == FullForm
    ensures Effective(env, s, c).isMaster || id == c || id in Descendants(s1.keys, c)
  {
    hide ManagedHookIds, HoldsRowIn;
    if id in Descendants(s.keys, c) {
      SubmapDescends(s.keys, s1.keys, id, c);
    }
  }
}
