/**
 Oracle discipline for keys. A key without children that `key_visibility` hides from a caller below the master leaves
 no trace in the effect of its requests: each is the one the caller would get if that key had been deleted, but for
 those that read a record the key wrote or hand a hook to it.
 */
module HiddenKey {
  import opened Text
  import opened Rbac
  import opened Guards
  import opened Lineage
  import opened Hooks
  import opened KeyRoutes
  import opened HookRoutes
  import opened ExecutionRoutes
  import opened Service
  import opened Invariants
  import Listings

  /** The state without the key. */
  function Gone(s: State, t: Id): State {
    WithoutKeys(s, {t})
  }

  predicate Childless(s: State, t: Id) {
    forall k :: k in s.keys ==> s.keys[k].parent != Some(t)
  }

  ghost predicate HiddenFrom(env: Env, s: State, c: Id, t: Id) {
    && c in s.keys && t in s.keys && !Effective(env, s, c).isMaster
    && Childless(s, t) && KeyVisibility(s, c, Effective(env, s, c), t) == Hidden
  }

  /** A record of a run by the hidden key that the caller may read and the filters let through. */
  ghost predicate TheirRun(s: State, c: Id, t: Id, key: Key, hook: Option<Id>, authors: Option<set<Id>>,
                           rest: (string, int) -> bool, e: Id) {
    && e in s.executions && s.executions[e].author == Some(t) && InScope(s, c, key, s.executions[e])
    && (hook.None? || hook.value == s.executions[e].hook) && (authors.None? || t in authors.value)
    && rest(s.executions[e].report, s.executions[e].timestamp)
  }

  /** The requests that tell: a deletion that reassigns a hook to the key, and reading what the key ran. */
  ghost predicate Tells(env: Env, s: State, c: Id, t: Id, req: Request, d: Draw)
    requires c in s.keys
  {
    match req
    case RemoveKey(id, resolutions) =>
      DeleteKey(env, s, c, id, resolutions, d).Pass? && exists h :: h in resolutions && resolutions[h] == Reassign(t)
    case GetExecutions(q) =>
      var hook := HookFilter(env, s, c, q.hook);
      && hook.Pass? && q.rest.Some?
      && exists e :: TheirRun(s, c, t, Effective(env, s, c), hook.value, AuthorsOf(env, s, q), q.rest.value, e)
    case GetOneExecution(e) =>
      && e in s.executions && s.executions[e].author == Some(t)
      && MayReadExecution(s, c, Effective(env, s, c), s.executions[e])
    case _ => false
  }

  // ── Lineage without a leaf ─────────────────────────────────────────────────

  lemma {:induction false} AncestorsWithoutLeaf(keys: map<Id, Key>, t: Id, k: Id, n: nat)
    requires (forall j :: j in keys ==> keys[j].parent != Some(t)) && k != t
    ensures Ancestor(keys - {t}, k, n) == Ancestor(keys, k, n)
    decreases n
  {
    if n > 0 && k in keys && keys[k].parent.Some? {
      AncestorsWithoutLeaf(keys, t, keys[k].parent.value, n - 1);
    }
  }

  lemma DescendantsWithoutLeaf(keys: map<Id, Key>, t: Id, root: Id)
    requires (forall j :: j in keys ==> keys[j].parent != Some(t)) && t !in Descendants(keys, root)
    ensures Descendants(keys - {t}, root) == Descendants(keys, root)
  {
    forall k | k in keys && k != t ensures DescendsFrom(keys - {t}, k, root) <==> DescendsFrom(keys, k, root) {
      if DescendsFrom(keys, k, root) {
        var n: nat :| n >= 1 && Ancestor(keys, k, n) == Some(root);
        AncestorsWithoutLeaf(keys, t, k, n);
      }
      if DescendsFrom(keys - {t}, k, root) {
        var n: nat :| n >= 1 && Ancestor(keys - {t}, k, n) == Some(root);
        AncestorsWithoutLeaf(keys, t, k, n);
      }
    }
  }

  // ── What the caller can tell ───────────────────────────────────────────────

  lemma HiddenFacts(env: Env, s: State, c: Id, t: Id)
    requires HiddenFrom(env, s, c, t)
    ensures c != t && t !in Descendants(s.keys, c) && !HoldsRowIn(s, t, ManagedHookIds(s, c))
    ensures c in Gone(s, t).keys && Effective(env, Gone(s, t), c) == Effective(env, s, c)
  {
    hide Descendants, HoldsRowIn, ManagedHookIds, Childless;
  }

  lemma RowsStay(s: State, t: Id, k: Id)
    requires k != t
    ensures forall g :: HeldRow(Gone(s, t), k, g) == HeldRow(s, k, g)
    ensures ManagedHookIds(Gone(s, t), k) == ManagedHookIds(s, k)
    ensures forall hooks :: HoldsRowIn(Gone(s, t), k, hooks) <==> HoldsRowIn(s, k, hooks)
    ensures PermissionsOf(Gone(s, t), k) == PermissionsOf(s, k)
    ensures ManagesAnyHook(Gone(s, t), k) <==> ManagesAnyHook(s, k)
  {
    var s0 := Gone(s, t);
    forall hooks ensures HoldsRowIn(s0, k, hooks) <==> HoldsRowIn(s, k, hooks) {
      if HoldsRowIn(s, k, hooks) {
        var r :| r in s.rows && r.0 == k && r.1 in hooks;
        assert r in s0.rows;
      }
    }
    if g :| Holds(s, k, g, Manage) {
      assert Holds(s0, k, g, Manage);
    }
    if g :| Holds(s0, k, g, Manage) {
      assert Holds(s, k, g, Manage);
    }
  }

  lemma StandingAlike(env: Env, s: State, c: Id, t: Id)
    requires HiddenFrom(env, s, c, t)
    ensures HasPermissionAdminStanding(Gone(s, t), c, Effective(env, s, c))
       <==> HasPermissionAdminStanding(s, c, Effective(env, s, c))
  {
    hide ManagesAnyHook, HiddenFrom, Gone;
    HiddenFacts(env, s, c, t);
    RowsStay(s, t, c);
  }

  /** Every other key is seen alike, and the hidden one is not found either way. */
  lemma VisibilityAlike(env: Env, s: State, c: Id, t: Id, k: Id)
    requires HiddenFrom(env, s, c, t)
    ensures var key := Effective(env, s, c);
      && (k != t ==> KeyVisibility(Gone(s, t), c, key, k) == KeyVisibility(s, c, key, k))
      && LoadAdministrableKey(Gone(s, t), c, key, k) == LoadAdministrableKey(s, c, key, k)
      && Descendants(Gone(s, t).keys, c) == Descendants(s.keys, c)
  {
    hide Descendants, HoldsRowIn, ManagedHookIds;
    HiddenFacts(env, s, c, t);
    DescendantsWithoutLeaf(s.keys, t, c);
    RowsStay(s, t, c);
    if k != t {
      RowsStay(s, t, k);
    }
  }

  lemma SubtreeAlike(env: Env, s: State, c: Id, t: Id, id: Id)
    requires HiddenFrom(env, s, c, t) && Forest(s.keys) && id in Descendants(s.keys, c)
    ensures Subtree(Gone(s, t).keys, id) == Subtree(s.keys, id) && t !in Subtree(s.keys, id)
  {
    hide KeyVisibility, Forest, HoldsRowIn, ManagedHookIds, DescendsFrom;
    HiddenFacts(env, s, c, t);
    if t in Subtree(s.keys, id) {
      DescendsTransitively(s.keys, t, id, c);
      assert false;
    }
    DescendantsWithoutLeaf(s.keys, t, id);
  }

  lemma KeyListAlike(env: Env, s: State, c: Id, t: Id)
    requires HiddenFrom(env, s, c, t)
    ensures ListKeys(env, Gone(s, t), c) == ListKeys(env, s, c)
  {
    hide ListedKeys, KeyVisibility, PermissionsOf, ManagedHookIds, Descendants, HiddenFrom;
    HiddenIsHidden(env, s, c, t);
    HiddenFacts(env, s, c, t);
    var key := Effective(env, s, c);
    var s0 := Gone(s, t);
    forall k | k in s.keys
      ensures k in ListedKeys(s0, c, key) <==> k in ListedKeys(s, c, key)
      ensures k in ListedKeys(s, c, key) ==> ListedKeys(s0, c, key)[k] == ListedKeys(s, c, key)[k]
    {
      Listings.KeyListIsPointwise(s, c, key, k);
      if k != t {
        VisibilityAlike(env, s, c, t, k);
        Listings.KeyListIsPointwise(s0, c, key, k);
        RowsStay(s, t, k);
        RowsStay(s, t, c);
      } else {
        ListedAreKeys(s0, c, key);
      }
    }
    ListedAreKeys(s, c, key);
    ListedAreKeys(s0, c, key);
    assert ListedKeys(s0, c, key) == ListedKeys(s, c, key);
  }

  lemma HiddenIsHidden(env: Env, s: State, c: Id, t: Id)
    requires HiddenFrom(env, s, c, t)
    ensures KeyVisibility(s, c, Effective(env, s, c), t) == Hidden && t in s.keys && c in s.keys
  {
  }

  lemma ListedAreKeys(s: State, c: Id, key: Key)
    ensures forall k :: k in ListedKeys(s, c, key) ==> k in s.keys
  {
    hide KeyVisibility, PermissionsOf, MinimalView, ManagedHookIds, Descendants;
  }

  // ── Key routes ─────────────────────────────────────────────────────────────

  lemma EditingAlike(env: Env, s: State, c: Id, t: Id, id: Id, p: UpdateKeyPayload)
    requires HiddenFrom(env, s, c, t)
    ensures UpdateKey(env, Gone(s, t), c, id, p) == UpdateKey(env, s, c, id, p)
  {
    hide HiddenFrom, KeyVisibility, LoadAdministrableKey, PermissionsOf, Gone, ValidateBoundIps, ValidateConcurrency, Replaced, Apply;
    HiddenIsHidden(env, s, c, t);
    HiddenFacts(env, s, c, t);
    VisibilityAlike(env, s, c, t, id);
    var e := UpdateKey(env, s, c, id, p);
    if e.Pass? {
      AdministrableIsOther(env, s, c, t, id);
      RowsStay(s, t, id);
      EditedPermissions(s, e.value.write);
      EditedPermissions(Gone(s, t), e.value.write);
    }
  }

  lemma AdministrableIsOther(env: Env, s: State, c: Id, t: Id, id: Id)
    requires HiddenFrom(env, s, c, t) && LoadAdministrableKey(s, c, Effective(env, s, c), id).Pass?
    ensures id != t
  {
    hide KeyVisibility;
  }

  lemma EditedPermissions(s: State, w: Write)
    requires w.SetKey?
    ensures PermissionsOf(Apply(s, w), w.id) == PermissionsOf(s, w.id)
    ensures Apply(s, w).keys == s.keys[w.id := w.key]
  {
  }

  lemma RenewingAlike(env: Env, s: State, c: Id, t: Id, id: Id, renewal: Renewal, d: Draw)
    requires HiddenFrom(env, s, c, t)
    ensures RenewCredentials(env, Gone(s, t), c, id, renewal, d) == RenewCredentials(env, s, c, id, renewal, d)
  {
    hide HiddenFrom, LoadAdministrableKey, Gone;
    HiddenIsHidden(env, s, c, t);
    HiddenFacts(env, s, c, t);
    VisibilityAlike(env, s, c, t, id);
  }

  lemma SubtreeOfVisible(env: Env, s: State, c: Id, t: Id, id: Id)
    requires HiddenFrom(env, s, c, t) && Forest(s.keys) && id != c
    requires KeyVisibility(s, c, Effective(env, s, c), id) == FullForm
    ensures id != t && Subtree(Gone(s, t).keys, id) == Subtree(s.keys, id) && t !in Subtree(s.keys, id)
    ensures OwnedHooks(Gone(s, t), Subtree(s.keys, id)) == OwnedHooks(s, Subtree(s.keys, id))
    ensures Inventory(Gone(s, t), Subtree(s.keys, id)) == Inventory(s, Subtree(s.keys, id))
  {
    hide Subtree, Forest, HoldsRowIn, ManagedHookIds, Descendants;
    SubtreeAlike(env, s, c, t, id);
  }

  /** Deleting a key tells the hidden one apart exactly when it succeeds by reassigning a hook to it. */
  lemma DeletingTellsExactly(env: Env, s: State, c: Id, t: Id, id: Id, resolutions: map<Id, Resolution>, d: Draw)
    requires Inv(env, s) && HiddenFrom(env, s, c, t)
    ensures c in Gone(s, t).keys
    ensures AnswerOf(DeleteKey(env, Gone(s, t), c, id, resolutions, d)) == AnswerOf(DeleteKey(env, s, c, id, resolutions, d))
       <==> DeleteKey(env, Gone(s, t), c, id, resolutions, d) == DeleteKey(env, s, c, id, resolutions, d)
    ensures DeleteKey(env, Gone(s, t), c, id, resolutions, d) == DeleteKey(env, s, c, id, resolutions, d)
       <==> !(DeleteKey(env, s, c, id, resolutions, d).Pass? && exists h :: h in resolutions && resolutions[h] == Reassign(t))
  {
    hide Inv, HiddenFrom, KeyVisibility, LoadAdministrableKey, Subtree, Inventory, OwnedHooks, Forest, ValidTargets, Gone;
    HiddenIsHidden(env, s, c, t);
    HiddenFacts(env, s, c, t);
    VisibilityAlike(env, s, c, t, id);
    var key := Effective(env, s, c);
    if id != c && LoadAdministrableKey(s, c, key, id).Pass? {
      AdministrableIsFull(s, c, key, id);
      InvForests(env, s);
      SubtreeOfVisible(env, s, c, t, id);
      TargetsWithout(s, t, Subtree(s.keys, id), resolutions);
    }
  }

  lemma AdministrableIsFull(s: State, c: Id, key: Key, id: Id)
    requires LoadAdministrableKey(s, c, key, id).Pass?
    ensures KeyVisibility(s, c, key, id) == FullForm
  {
    hide KeyVisibility;
  }

  lemma TargetsWithout(s: State, t: Id, subtree: set<Id>, resolutions: map<Id, Resolution>)
    ensures ValidTargets(Gone(s, t), subtree, resolutions)
       <==> ValidTargets(s, subtree, resolutions) && !exists h :: h in resolutions && resolutions[h] == Reassign(t)
  {
    if h :| h in resolutions && resolutions[h] == Reassign(t) {
      assert resolutions[h].Reassign? && resolutions[h].to == t;
    }
  }

  lemma InvForests(env: Env, s: State)
    requires Inv(env, s)
    ensures Forest(s.keys)
  {
  }

  /** Hooks, parameters and the caller's own rows are the same. */
  lemma HooksStay(s: State, t: Id)
    ensures Gone(s, t).hooks == s.hooks && Gone(s, t).params == s.params && Gone(s, t).used == s.used
  {
  }

  lemma ResolvesAlike(env: Env, s: State, s0: State, identifier: string)
    requires s0.hooks == s.hooks && UniqueNames(s.hooks)
    ensures FindHook(env, s0, identifier) == FindHook(env, s, identifier)
    ensures ResolveHook(env, s0, identifier) == ResolveHook(env, s, identifier)
  {
    hide UniqueNames;
    assert forall h :: NamesHook(s0, identifier, h) <==> NamesHook(s, identifier, h);
    if h :| NamesHook(s, identifier, h) {
      var id := env.parseId(identifier);
      if id.None? || id.value !in s.hooks {
        FindByName(env, s, identifier, h);
        FindByName(env, s0, identifier, h);
      }
    }
  }

  /** What every hook route reads: the hooks, their parameters, and the caller's own rows. */
  ghost predicate SameForCaller(s: State, s0: State, c: Id) {
    && s0.hooks == s.hooks && s0.params == s.params && s0.used == s.used
    && forall g :: HeldRow(s0, c, g) == HeldRow(s, c, g)
  }

  lemma GoneIsSame(env: Env, s: State, c: Id, t: Id)
    requires HiddenFrom(env, s, c, t)
    ensures SameForCaller(s, Gone(s, t), c) && c in Gone(s, t).keys && c in s.keys && !Effective(env, s, c).isMaster
    ensures Effective(env, Gone(s, t), c) == Effective(env, s, c)
  {
    hide KeyVisibility, Childless;
    HiddenFacts(env, s, c, t);
    RowsStay(s, t, c);
  }

  lemma GuardsAlike(s: State, s0: State, c: Id, key: Key, g: Id)
    requires SameForCaller(s, s0, c) && g in s.hooks
    ensures GuardManage(s0, c, key, g) == GuardManage(s, c, key, g)
    ensures GuardManageConjunction(s0, c, key, g) == GuardManageConjunction(s, c, key, g)
    ensures GuardDispatchConfiguration(s0, c, key, g) == GuardDispatchConfiguration(s, c, key, g)
    ensures GuardVisibility(s0, c, key, g) == GuardVisibility(s, c, key, g)
    ensures GuardExecute(s0, c, key, g) == GuardExecute(s, c, key, g)
    ensures ParamsOf(s0, g) == ParamsOf(s, g)
    ensures Detail(s0, c, key, g) == Detail(s, c, key, g)
  {
    assert ParamsOf(s0, g) == ParamsOf(s, g);
  }

  /** An identifier is found alike, and every guard on what it finds decides alike. */
  lemma Prepare(env: Env, s: State, c: Id, t: Id, identifier: string)
    requires Inv(env, s) && HiddenFrom(env, s, c, t)
    ensures FindHook(env, Gone(s, t), identifier) == FindHook(env, s, identifier)
    ensures ResolveHook(env, Gone(s, t), identifier) == ResolveHook(env, s, identifier)
  {
    hide References, Forest, OneMaster, KeyRules, ParamRules, HiddenFrom, FindHook, ResolveHook, UniqueNames;
    HooksStay(s, t);
    ResolvesAlike(env, s, Gone(s, t), identifier);
  }

  lemma PreparedGuards(s: State, s0: State, c: Id, key: Key, r: Checked<Id>)
    requires SameForCaller(s, s0, c)
    ensures r.Pass? && r.value in s.hooks ==>
              && GuardManage(s0, c, key, r.value) == GuardManage(s, c, key, r.value)
              && GuardManageConjunction(s0, c, key, r.value) == GuardManageConjunction(s, c, key, r.value)
              && GuardDispatchConfiguration(s0, c, key, r.value) == GuardDispatchConfiguration(s, c, key, r.value)
              && GuardVisibility(s0, c, key, r.value) == GuardVisibility(s, c, key, r.value)
              && GuardExecute(s0, c, key, r.value) == GuardExecute(s, c, key, r.value)
              && ParamsOf(s0, r.value) == ParamsOf(s, r.value)
              && Detail(s0, c, key, r.value) == Detail(s, c, key, r.value)
  {
    hide GuardManage, GuardManageConjunction, GuardDispatchConfiguration, GuardVisibility, GuardExecute, ParamsOf, Detail,
         SameForCaller;
    if r.Pass? && r.value in s.hooks {
      GuardsAlike(s, s0, c, key, r.value);
    }
  }

  lemma GrantingAlike(env: Env, s: State, c: Id, t: Id, id: Id, p: GrantPayload)
    requires Inv(env, s) && HiddenFrom(env, s, c, t)
    ensures c in Gone(s, t).keys && Grant(env, Gone(s, t), c, id, p) == Grant(env, s, c, id, p)
  {
    hide Inv, HiddenFrom, ResolveHook, GuardManageConjunction, HasPermissionAdminStanding, KeyVisibility, Privileged, HeldRow;
    HiddenIsHidden(env, s, c, t);
    GoneIsSame(env, s, c, t);
    StandingAlike(env, s, c, t);
    VisibilityAlike(env, s, c, t, id);
    if id != t && GrantIdentifier(p).Pass? {
      RowsStay(s, t, id);
      Prepare(env, s, c, t, GrantIdentifier(p).value);
      PreparedGuards(s, Gone(s, t), c, Effective(env, s, c), ResolveHook(env, s, GrantIdentifier(p).value));
    }
  }

  /** A manager of a hook sees every holder of a row on it, so the hidden key holds none there. */
  lemma NoRowToRevoke(env: Env, s: State, c: Id, t: Id, g: Id)
    requires HiddenFrom(env, s, c, t) && GuardManageConjunction(s, c, Effective(env, s, c), g).Pass?
    ensures (t, g) !in s.rows
  {
    hide KeyVisibility;
    HiddenFacts(env, s, c, t);
    assert g in ManagedHookIds(s, c) by {
      assert (c, g) in s.rows;
    }
  }

  lemma RevokingAlike(env: Env, s: State, c: Id, t: Id, id: Id, identifier: string)
    requires Inv(env, s) && HiddenFrom(env, s, c, t)
    ensures c in Gone(s, t).keys && Revoke(env, Gone(s, t), c, id, identifier) == Revoke(env, s, c, id, identifier)
  {
    hide Inv, HiddenFrom, ResolveHook, GuardManageConjunction, HasPermissionAdminStanding;
    HiddenIsHidden(env, s, c, t);
    GoneIsSame(env, s, c, t);
    StandingAlike(env, s, c, t);
    Prepare(env, s, c, t, identifier);
    var r := ResolveHook(env, s, identifier);
    PreparedGuards(s, Gone(s, t), c, Effective(env, s, c), r);
    if r.Pass? && GuardManageConjunction(s, c, Effective(env, s, c), r.value).Pass? {
      NoRowToRevoke(env, s, c, t, r.value);
    }
  }

  // ── Hook routes ────────────────────────────────────────────────────────────

  lemma ReadingAlike(env: Env, s: State, c: Id, t: Id, identifier: string, body: string, d: Draw)
    requires Inv(env, s) && HiddenFrom(env, s, c, t)
    ensures c in Gone(s, t).keys
    ensures forall deleted :: GetHook(env, Gone(s, t), c, identifier, deleted) == GetHook(env, s, c, identifier, deleted)
    ensures ListParams(env, Gone(s, t), c, identifier) == ListParams(env, s, c, identifier)
    ensures ExecuteHook(env, Gone(s, t), Some(c), identifier, d) == ExecuteHook(env, s, Some(c), identifier, d)
    ensures TestHook(env, Gone(s, t), Some(c), identifier, body) == TestHook(env, s, Some(c), identifier, body)
  {
    hide Inv, HiddenFrom, FindHook, ResolveHook, GuardVisibility, GuardExecute, Detail, ParamsOf;
    GoneIsSame(env, s, c, t);
    Prepare(env, s, c, t, identifier);
    PreparedGuards(s, Gone(s, t), c, Effective(env, s, c), ResolveHook(env, s, identifier));
  }

  lemma SetAlike(s: State, s0: State, c: Id, key: Key, g: Id, row: Hook)
    requires SameForCaller(s, s0, c)
    ensures Detail(Apply(s0, SetHook(g, row)), c, key, g) == Detail(Apply(s, SetHook(g, row)), c, key, g)
  {
    hide HeldRow;
    var a, b := Apply(s0, SetHook(g, row)), Apply(s, SetHook(g, row));
    assert HeldRow(a, c, g) == HeldRow(s0, c, g) && HeldRow(b, c, g) == HeldRow(s, c, g) by {
      SetKeepsRows(s, c, g, row);
      SetKeepsRows(s0, c, g, row);
    }
    assert ParamsOf(a, g) == ParamsOf(b, g);
  }

  lemma SetKeepsRows(s: State, c: Id, g: Id, row: Hook)
    ensures HeldRow(Apply(s, SetHook(g, row)), c, g) == HeldRow(s, c, g)
  {
  }

  lemma EditorsAlike(env: Env, s: State, c: Id, t: Id, identifier: string, p: UpdateHookPayload)
    requires Inv(env, s) && HiddenFrom(env, s, c, t)
    ensures c in Gone(s, t).keys && MayEdit(env, Gone(s, t), c, identifier, p) == MayEdit(env, s, c, identifier, p)
  {
    hide Inv, HiddenFrom, ResolveHook, GuardManage, GuardManageConjunction, GuardDispatchConfiguration, Detail, ParamsOf,
         NormalizeRunAsUser, Trim, Privileged, Gone;
    GoneIsSame(env, s, c, t);
    Prepare(env, s, c, t, identifier);
    PreparedGuards(s, Gone(s, t), c, Effective(env, s, c), ResolveHook(env, s, identifier));
  }

  lemma UpdatingAlike(env: Env, s: State, c: Id, t: Id, identifier: string, p: UpdateHookPayload)
    requires Inv(env, s) && HiddenFrom(env, s, c, t)
    ensures c in Gone(s, t).keys && UpdateHook(env, Gone(s, t), c, identifier, p) == UpdateHook(env, s, c, identifier, p)
  {
    hide Inv, HiddenFrom, MayEdit, Detail, ParamsOf, ParamKeys, SealHmacSecret, ValidSamplePayload,
         ArgsTemplate.ValidArgsTemplate, Trim, Apply, Gone, Edited;
    GoneIsSame(env, s, c, t);
    EditorsAlike(env, s, c, t, identifier, p);
    var key := Effective(env, s, c);
    var r := MayEdit(env, s, c, identifier, p);
    if r.Pass? {
      var (g, user) := r.value;
      PreparedGuards(s, Gone(s, t), c, key, Pass(g));
      var secret := SealHmacSecret(env, Or(p.authMode, s.hooks[g].authMode), p.hmacSecret, s.hooks[g].hmacSecret);
      if secret.Pass? {
        SetAlike(s, Gone(s, t), c, key, g, Edited(s.hooks[g], p, user, secret.value));
      }
    }
  }

  lemma WritingAlike(env: Env, s: State, c: Id, t: Id, identifier: string, hard: bool, id: Id, input: ParamInput,
                     edit: UpdateParamPayload, d: Draw)
    requires Inv(env, s) && HiddenFrom(env, s, c, t)
    ensures c in Gone(s, t).keys
    ensures DeleteHook(env, Gone(s, t), c, identifier, hard, d) == DeleteHook(env, s, c, identifier, hard, d)
    ensures CreateParam(env, Gone(s, t), c, identifier, input, d) == CreateParam(env, s, c, identifier, input, d)
    ensures UpdateParam(env, Gone(s, t), c, identifier, id, edit) == UpdateParam(env, s, c, identifier, id, edit)
    ensures DeleteParam(env, Gone(s, t), c, identifier, id) == DeleteParam(env, s, c, identifier, id)
  {
    hide Inv, HiddenFrom, FindHook, ResolveHook, GuardManage, Privileged, IsIdentifier, ParamKeys, ParamsOf, Gone;
    HooksStay(s, t);
    GoneIsSame(env, s, c, t);
    Prepare(env, s, c, t, identifier);
    var key := Effective(env, s, c);
    PreparedGuards(s, Gone(s, t), c, key, ResolveHook(env, s, identifier));
    PreparedGuards(s, Gone(s, t), c, key, FindHook(env, s, identifier));
  }

  lemma CreatingAlike(env: Env, s: State, c: Id, t: Id, p: CreateHookPayload, d: Draw)
    requires HiddenFrom(env, s, c, t)
    ensures c in Gone(s, t).keys && CreateHook(env, Gone(s, t), c, p, d) == CreateHook(env, s, c, p, d)
  {
    hide HiddenFrom, NormalizeRunAsUser, SealHmacSecret, ValidSamplePayload, ArgsTemplate.ValidArgsTemplate, Trim,
         Apply, IsIdentifier, KeySet, DistinctPrefix, InsertedParams, Detail, Gone;
    GoneIsSame(env, s, c, t);
    var e := CreateHook(env, s, c, p, d);
    if e.Pass? {
      InsertAlike(s, Gone(s, t), c, Effective(env, s, c), e.value.write);
    }
  }

  lemma InsertAlike(s: State, s0: State, c: Id, key: Key, w: Write)
    requires SameForCaller(s, s0, c) && w.InsertHook?
    ensures Detail(Apply(s0, w), c, key, w.id) == Detail(Apply(s, w), c, key, w.id)
  {
    hide HeldRow;
    assert HeldRow(Apply(s0, w), c, w.id) == HeldRow(Apply(s, w), c, w.id) by {
      InsertedRow(s, c, w);
      InsertedRow(s0, c, w);
    }
    assert ParamsOf(Apply(s0, w), w.id) == ParamsOf(Apply(s, w), w.id);
  }

  lemma InsertedRow(s: State, c: Id, w: Write)
    requires w.InsertHook?
    ensures HeldRow(Apply(s, w), c, w.id) == if w.creator == Some(c) then Some(FullRow()) else HeldRow(s, c, w.id)
  {
  }

  // ── Lists of hooks and records ─────────────────────────────────────────────

  lemma HookListAlike(env: Env, s: State, c: Id, t: Id, includeDeleted: bool)
    requires HiddenFrom(env, s, c, t)
    ensures c in Gone(s, t).keys && ListHooks(env, Gone(s, t), c, includeDeleted) == ListHooks(env, s, c, includeDeleted)
  {
    hide HiddenFrom, Gone, Detail, ParamsOf, VisibleHookIds, GuardVisibility, GuardManage, GuardExecute;
    GoneIsSame(env, s, c, t);
    var key := Effective(env, s, c);
    var s0 := Gone(s, t);
    forall g | g in s.hooks
      ensures Detail(s0, c, key, g) == Detail(s, c, key, g)
      ensures (VisibleHookIds(s0, c, key).None? || g in VisibleHookIds(s0, c, key).value)
         <==> (VisibleHookIds(s, c, key).None? || g in VisibleHookIds(s, c, key).value)
    {
      GuardsAlike(s, s0, c, key, g);
      Listings.VisibleHooksArePointwise(s, c, key, g);
      Listings.VisibleHooksArePointwise(s0, c, key, g);
    }
    var l, l0 := ListHooks(env, s, c, includeDeleted), ListHooks(env, s0, c, includeDeleted);
    assert l.Pass? ==> l0.Pass? && l0.value.response.details == l.value.response.details;
  }

  lemma RecordStays(s: State, c: Id, key: Key, t: Id, x: Execution)
    requires c != t
    ensures x.author != Some(t) ==> View(Gone(s, t), x) == View(s, x)
    ensures x.author != Some(t) ==> (MayReadExecution(Gone(s, t), c, key, x) <==> MayReadExecution(s, c, key, x))
    ensures x.author == Some(t) ==>
              && View(Gone(s, t), x.(author := None)) != View(s, x)
              && (MayReadExecution(Gone(s, t), c, key, x.(author := None)) <==> MayReadExecution(s, c, key, x))
  {
    hide HeldRow;
    RowsStay(s, t, c);
  }

  /** Which record `e` is in the two states. */
  lemma RecordIn(s: State, t: Id, e: Id)
    requires e in s.executions
    ensures e in Gone(s, t).executions
    ensures Gone(s, t).executions[e]
         == if s.executions[e].author == Some(t) then s.executions[e].(author := None) else s.executions[e]
  {
  }

  lemma FilterAlike(env: Env, s: State, c: Id, t: Id, hook: Option<string>)
    requires Inv(env, s) && HiddenFrom(env, s, c, t)
    ensures c in s.keys && c in Gone(s, t).keys && HookFilter(env, Gone(s, t), c, hook) == HookFilter(env, s, c, hook)
  {
    hide Inv, HiddenFrom, ResolveHook, GuardVisibility, Gone;
    GoneIsSame(env, s, c, t);
    if NonEmpty(hook).Some? {
      Prepare(env, s, c, t, hook.value);
      PreparedGuards(s, Gone(s, t), c, Effective(env, s, c), ResolveHook(env, s, hook.value));
    }
  }

  lemma MatchAlike(s: State, c: Id, key: Key, t: Id, hook: Option<Id>, authors: Option<set<Id>>, authors0: Option<set<Id>>,
                   rest: (string, int) -> bool, e: Id)
    requires c != t && authors.Some? == authors0.Some? && e in s.executions
    requires authors.Some? ==> forall k :: k != t ==> (k in authors0.value <==> k in authors.value)
    ensures e in Gone(s, t).executions
    ensures s.executions[e].author != Some(t) ==>
              && (Matches(Gone(s, t), c, key, hook, authors0, rest, Gone(s, t).executions[e])
                  <==> Matches(s, c, key, hook, authors, rest, s.executions[e]))
              && View(Gone(s, t), Gone(s, t).executions[e]) == View(s, s.executions[e])
    ensures s.executions[e].author == Some(t) ==>
              && (TheirRun(s, c, t, key, hook, authors, rest, e) <==> Matches(s, c, key, hook, authors, rest, s.executions[e]))
              && (Matches(Gone(s, t), c, key, hook, authors0, rest, Gone(s, t).executions[e])
                  ==> Matches(s, c, key, hook, None, rest, s.executions[e]) && authors.None?)
              && View(Gone(s, t), Gone(s, t).executions[e]) != View(s, s.executions[e])
  {
    hide InScope, View, MayReadExecution, Gone;
    var x := s.executions[e];
    RecordIn(s, t, e);
    RecordStays(s, c, key, t, x);
    Listings.ExecutionScopeIsPointwise(s, c, key, x);
    Listings.ExecutionScopeIsPointwise(Gone(s, t), c, key, Gone(s, t).executions[e]);
  }

  lemma MatchingTellsExactly(s: State, c: Id, key: Key, t: Id, hook: Option<Id>, authors: Option<set<Id>>,
                             authors0: Option<set<Id>>, rest: (string, int) -> bool)
    requires c != t && authors.Some? == authors0.Some?
    requires authors.Some? ==> forall k :: k != t ==> (k in authors0.value <==> k in authors.value)
    ensures Matching(Gone(s, t), c, key, hook, authors0, rest) == Matching(s, c, key, hook, authors, rest)
       <==> !exists e :: TheirRun(s, c, t, key, hook, authors, rest, e)
  {
    hide TheirRun, Matches, View, Gone;
    var m, m0 := Matching(s, c, key, hook, authors, rest), Matching(Gone(s, t), c, key, hook, authors0, rest);
    SameRecords(s, t);
    if e :| TheirRun(s, c, t, key, hook, authors, rest, e) {
      RunIsRecord(s, c, t, key, hook, authors, rest, e);
      MatchAlike(s, c, key, t, hook, authors, authors0, rest, e);
      assert e in m && (e in m0 ==> m0[e] != m[e]);
    } else {
      forall e | e in s.executions
        ensures e in m <==> e in m0
        ensures e in m ==> m[e] == m0[e]
      {
        assert !TheirRun(s, c, t, key, hook, authors, rest, e);
        MatchAlike(s, c, key, t, hook, authors, authors0, rest, e);
      }
      assert m == m0;
    }
  }

  lemma SameRecords(s: State, t: Id)
    ensures Gone(s, t).executions.Keys == s.executions.Keys
  {
  }

  lemma RunIsRecord(s: State, c: Id, t: Id, key: Key, hook: Option<Id>, authors: Option<set<Id>>,
                    rest: (string, int) -> bool, e: Id)
    requires TheirRun(s, c, t, key, hook, authors, rest, e)
    ensures e in s.executions && s.executions[e].author == Some(t)
  {
  }

  /** The history tells exactly when it shows a record the hidden key wrote. */
  lemma HistoryTellsExactly(env: Env, s: State, c: Id, t: Id, q: ExecutionQuery)
    requires Inv(env, s) && HiddenFrom(env, s, c, t)
    ensures c in Gone(s, t).keys && c in s.keys
    ensures ListExecutions(env, Gone(s, t), c, q) == ListExecutions(env, s, c, q)
       <==> AnswerOf(ListExecutions(env, Gone(s, t), c, q)) == AnswerOf(ListExecutions(env, s, c, q))
    ensures ListExecutions(env, Gone(s, t), c, q) == ListExecutions(env, s, c, q)
       <==> !(&& HookFilter(env, s, c, q.hook).Pass? && q.rest.Some?
              && exists e :: TheirRun(s, c, t, Effective(env, s, c), HookFilter(env, s, c, q.hook).value, AuthorsOf(env, s, q),
                                      q.rest.value, e))
  {
    hide Inv, HiddenFrom, HookFilter, Matching, Gone, AuthorFilter, TheirRun;
    GoneIsSame(env, s, c, t);
    HiddenFacts(env, s, c, t);
    FilterAlike(env, s, c, t, q.hook);
    var hook := HookFilter(env, s, c, q.hook);
    if hook.Pass? && q.rest.Some? {
      if NonEmpty(q.author).Some? {
        AuthorsAlike(env, s, t, q.author.value);
      }
      MatchingTellsExactly(s, c, Effective(env, s, c), t, hook.value, AuthorsOf(env, s, q), AuthorsOf(env, Gone(s, t), q),
                           q.rest.value);
    }
  }

  lemma AuthorsAlike(env: Env, s: State, t: Id, raw: string)
    ensures forall k :: k != t ==> (k in AuthorFilter(env, Gone(s, t), raw) <==> k in AuthorFilter(env, s, raw))
  {
  }

  /** A single record tells exactly when the caller may read it and the hidden key wrote it. */
  lemma RecordTellsExactly(env: Env, s: State, c: Id, t: Id, e: Id)
    requires HiddenFrom(env, s, c, t)
    ensures c in Gone(s, t).keys && c in s.keys
    ensures GetExecution(env, Gone(s, t), c, e) == GetExecution(env, s, c, e)
       <==> AnswerOf(GetExecution(env, Gone(s, t), c, e)) == AnswerOf(GetExecution(env, s, c, e))
    ensures GetExecution(env, Gone(s, t), c, e) == GetExecution(env, s, c, e)
       <==> !(&& e in s.executions && s.executions[e].author == Some(t)
              && MayReadExecution(s, c, Effective(env, s, c), s.executions[e]))
    ensures DeleteExecution(env, Gone(s, t), c, e) == DeleteExecution(env, s, c, e)
  {
    hide HiddenFrom, GuardManage, MayReadExecution, View, Gone;
    GoneIsSame(env, s, c, t);
    HiddenFacts(env, s, c, t);
    SameRecords(s, t);
    if e in s.executions {
      RecordIn(s, t, e);
      RecordStays(s, c, Effective(env, s, c), t, s.executions[e]);
      if s.executions[e].hook in s.hooks {
        GuardsAlike(s, Gone(s, t), c, Effective(env, s, c), s.executions[e].hook);
      }
    }
  }

  // ── Every request ──────────────────────────────────────────────────────────

  lemma CreatingKeysAlike(env: Env, s: State, c: Id, t: Id, p: CreateKeyPayload, d: Draw)
    requires HiddenFrom(env, s, c, t)
    ensures c in Gone(s, t).keys && CreateKey(env, Gone(s, t), c, p, d) == CreateKey(env, s, c, p, d)
  {
    hide HiddenFrom, Gone;
    GoneIsSame(env, s, c, t);
  }

  lemma MasterRoutesAlike(env: Env, s: State, c: Id, t: Id, identifier: string, days: Option<int>, d: Draw)
    requires HiddenFrom(env, s, c, t)
    ensures c in Gone(s, t).keys
    ensures RestoreHook(env, Gone(s, t), c, identifier) == RestoreHook(env, s, c, identifier)
    ensures PurgeHooks(env, Gone(s, t), c, days, d) == PurgeHooks(env, s, c, days, d)
    ensures PurgeExecutions(env, Gone(s, t), c, days, d) == PurgeExecutions(env, s, c, days, d)
  {
    hide HiddenFrom, Gone, FindHook, ExpiredHooks, ExpiredExecutions;
    GoneIsSame(env, s, c, t);
  }

  lemma KeyRequestsTell(env: Env, s: State, c: Id, t: Id, req: Request, d: Draw)
    requires Inv(env, s) && HiddenFrom(env, s, c, t)
    requires OnKeys(req)
    ensures c in Gone(s, t).keys && c in s.keys
    ensures Handle(env, Gone(s, t), c, req, d) == Handle(env, s, c, req, d) <==> !Tells(env, s, c, t, req, d)
    ensures AnswerOf(Handle(env, Gone(s, t), c, req, d)) == AnswerOf(Handle(env, s, c, req, d)) <==> !Tells(env, s, c, t, req, d)
  {
    hide Inv, HiddenFrom, CreateKey, ListKeys, UpdateKey, DeleteKey, RenewCredentials, Grant, Revoke, CreateHook,
         ListHooks, GetHook, UpdateHook, DeleteHook, RestoreHook, PurgeHooks, ListParams, CreateParam, UpdateParam,
         DeleteParam, ExecuteHook, TestHook, ListExecutions, GetExecution, DeleteExecution, PurgeExecutions, Gone, AnswerOf, TheirRun,
         HookFilter, MayReadExecution;
    GoneIsSame(env, s, c, t);
    match req {
      case PostKey(p) => CreatingKeysAlike(env, s, c, t, p, d);
      case GetKeys => KeyListAlike(env, s, c, t);
      case PutKey(id, p) => EditingAlike(env, s, c, t, id, p);
      case RemoveKey(id, resolutions) => DeletingTellsExactly(env, s, c, t, id, resolutions, d);
      case Renew(id, renewal) => RenewingAlike(env, s, c, t, id, renewal, d);
      case PostPermission(id, p) => GrantingAlike(env, s, c, t, id, p);
      case RemovePermission(id, identifier) => RevokingAlike(env, s, c, t, id, identifier);
    }
  }

  lemma ParamRequestsAlike(env: Env, s: State, c: Id, t: Id, req: Request, d: Draw)
    requires Inv(env, s) && HiddenFrom(env, s, c, t)
    requires OnParams(req)
    ensures c in Gone(s, t).keys && c in s.keys
    ensures Handle(env, Gone(s, t), c, req, d) == Handle(env, s, c, req, d) && !Tells(env, s, c, t, req, d)
  {
    hide Inv, HiddenFrom, CreateKey, ListKeys, UpdateKey, DeleteKey, RenewCredentials, Grant, Revoke, CreateHook,
         ListHooks, GetHook, UpdateHook, DeleteHook, RestoreHook, PurgeHooks, ListParams, CreateParam, UpdateParam,
         DeleteParam, ExecuteHook, TestHook, ListExecutions, GetExecution, DeleteExecution, PurgeExecutions, Gone, AnswerOf, TheirRun,
         HookFilter, MayReadExecution;
    GoneIsSame(env, s, c, t);
    var noEdit, noInput := UpdateParamPayload(None, None, None), ParamInput("", None, None, None);
    match req {
      case GetParams(identifier) => ReadingAlike(env, s, c, t, identifier, "", d);
      case PostParam(identifier, p) => WritingAlike(env, s, c, t, identifier, false, 0, p, noEdit, d);
      case PutParam(identifier, param, p) => WritingAlike(env, s, c, t, identifier, false, param, noInput, p, d);
      case RemoveParam(identifier, param) => WritingAlike(env, s, c, t, identifier, false, param, noInput, noEdit, d);
      case PostExecute(identifier) => ReadingAlike(env, s, c, t, identifier, "", d);
      case PostTest(identifier, body) => ReadingAlike(env, s, c, t, identifier, body, d);
    }
  }

  lemma OtherRequestsTell(env: Env, s: State, c: Id, t: Id, req: Request, d: Draw)
    requires Inv(env, s) && HiddenFrom(env, s, c, t)
    requires !OnKeys(req) && !OnParams(req)
    ensures c in Gone(s, t).keys && c in s.keys
    ensures Handle(env, Gone(s, t), c, req, d) == Handle(env, s, c, req, d) <==> !Tells(env, s, c, t, req, d)
    ensures AnswerOf(Handle(env, Gone(s, t), c, req, d)) == AnswerOf(Handle(env, s, c, req, d)) <==> !Tells(env, s, c, t, req, d)
  {
    hide Inv, HiddenFrom, CreateKey, ListKeys, UpdateKey, DeleteKey, RenewCredentials, Grant, Revoke, CreateHook,
         ListHooks, GetHook, UpdateHook, DeleteHook, RestoreHook, PurgeHooks, ListParams, CreateParam, UpdateParam,
         DeleteParam, ExecuteHook, TestHook, ListExecutions, GetExecution, DeleteExecution, PurgeExecutions, Gone, AnswerOf, TheirRun,
         HookFilter, MayReadExecution;
    GoneIsSame(env, s, c, t);
    var noEdit, noInput := UpdateParamPayload(None, None, None), ParamInput("", None, None, None);
    match req {
      case PostHook(p) => CreatingAlike(env, s, c, t, p, d);
      case GetHooks(includeDeleted) => HookListAlike(env, s, c, t, includeDeleted);
      case GetOneHook(identifier, _) => ReadingAlike(env, s, c, t, identifier, "", d);
      case PutHook(identifier, p) => UpdatingAlike(env, s, c, t, identifier, p);
      case RemoveHook(identifier, hard) => WritingAlike(env, s, c, t, identifier, hard, 0, noInput, noEdit, d);
      case PostRestore(identifier) => MasterRoutesAlike(env, s, c, t, identifier, None, d);
      case PostPurgeHooks(days) => MasterRoutesAlike(env, s, c, t, "", days, d);
      case GetExecutions(q) => HistoryTellsExactly(env, s, c, t, q);
      case GetOneExecution(e) => RecordTellsExactly(env, s, c, t, e);
      case RemoveOneExecution(e) => RecordTellsExactly(env, s, c, t, e);
      case PostPurgeExecutions(days) => MasterRoutesAlike(env, s, c, t, "", days, d);
    }
  }

  /** A request has the same effect, write and answer, whether or not the hidden key exists, if and only if it is not one
      of those that tell. */
  lemma KeyIndistinguishable(env: Env, s: State, c: Id, t: Id, req: Request, d: Draw)
    requires Inv(env, s) && HiddenFrom(env, s, c, t)
    ensures c in Gone(s, t).keys && c in s.keys
    ensures Handle(env, Gone(s, t), c, req, d) == Handle(env, s, c, req, d) <==> !Tells(env, s, c, t, req, d)
    ensures AnswerOf(Handle(env, Gone(s, t), c, req, d)) == AnswerOf(Handle(env, s, c, req, d)) <==> !Tells(env, s, c, t, req, d)
  {
    hide *;
    if OnKeys(req) {
      KeyRequestsTell(env, s, c, t, req, d);
    } else if OnParams(req) {
      ParamRequestsAlike(env, s, c, t, req, d);
    } else {
      OtherRequestsTell(env, s, c, t, req, d);
    }
  }
}
