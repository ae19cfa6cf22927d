/**
 Oracle discipline for hooks, route by route. A caller below the master that neither owns a hook nor holds a row on it
 gets the same effect from a request as if the hook, and all that refers to it, were not there.
 */
module HiddenHook {
  import opened Text
  import opened Rbac
  import opened Guards
  import opened Lineage
  import opened Hooks
  import opened KeyRoutes
  import opened HookRoutes
  import opened ExecutionRoutes
  import opened Service
  import opened Writes
  import opened Invariants
  import Listings

  /** No hook is named like an id. */
  ghost predicate PlainNames(env: Env, s: State) {
    forall h :: h in s.hooks ==> env.parseId(s.hooks[h].name).None?
  }

  /** `c` neither owns `h` nor holds a row on it. */
  ghost predicate Unrelated(s: State, c: Id, h: Id) {
    h in s.hooks && s.hooks[h].owner != Some(c) && (c, h) !in s.rows
  }

  /** The state without the hook. */
  function Absent(s: State, h: Id): State {
    WithoutHooks(s, {h})
  }

  // ── The two states seen by the caller ──────────────────────────────────────

  /** What the two states share as far as `c` can tell. */
  ghost predicate Alike(s: State, s0: State, c: Id, h: Id) {
    && s0.keys == s.keys && s0.used == s.used
    && (forall g :: HeldRow(s0, c, g) == HeldRow(s, c, g))
    && (forall g, k :: g != h ==> HeldRow(s0, k, g) == HeldRow(s, k, g))
    && h !in s0.hooks
    && (forall g :: g != h ==> (g in s0.hooks <==> g in s.hooks))
    && (forall g :: g != h && g in s.hooks ==> s0.hooks[g] == s.hooks[g])
    && (forall g :: g != h ==> ParamsOf(s0, g) == ParamsOf(s, g))
  }

  lemma AbsentAlike(s: State, c: Id, h: Id)
    requires Unrelated(s, c, h)
    ensures Alike(s, Absent(s, h), c, h)
  {
    forall g | g != h ensures ParamsOf(Absent(s, h), g) == ParamsOf(s, g) {
    }
  }

  /** An identifier finds the same hook in both states, or the hidden one. */
  lemma FindsAlike(env: Env, s: State, s0: State, c: Id, h: Id, identifier: string)
    requires Alike(s, s0, c, h) && h in s.hooks && PlainNames(env, s) && UniqueNames(s.hooks)
    ensures FindHook(env, s, identifier) == Pass(h) ==> FindHook(env, s0, identifier) == Stop(NotFound)
    ensures FindHook(env, s, identifier) != Pass(h) ==> FindHook(env, s0, identifier) == FindHook(env, s, identifier)
  {
    hide Alike, UniqueNames;
    AlikeHooks(s, s0, c, h);
    SubUnique(s, s0, h);
    var id := env.parseId(identifier);
    assert forall g :: NamesHook(s0, identifier, g) ==> NamesHook(s, identifier, g);
    if id.Some? {
      assert forall g :: !NamesHook(s, identifier, g);
    } else if g :| NamesHook(s, identifier, g) {
      FindByName(env, s, identifier, g);
      if g == h {
        forall f ensures !NamesHook(s0, identifier, f) {
          if NamesHook(s0, identifier, f) {
            FindByName(env, s, identifier, f);
          }
        }
      } else {
        assert NamesHook(s0, identifier, g);
        FindByName(env, s0, identifier, g);
      }
    }
  }

  lemma SubUnique(s: State, s0: State, h: Id)
    requires UniqueNames(s.hooks)
    requires forall g :: g in s0.hooks ==> g in s.hooks && s0.hooks[g] == s.hooks[g]
    ensures UniqueNames(s0.hooks)
  {
  }

  lemma ResolvesAlike(env: Env, s: State, s0: State, c: Id, h: Id, identifier: string)
    requires Alike(s, s0, c, h) && h in s.hooks && PlainNames(env, s) && UniqueNames(s.hooks)
    ensures ResolveHook(env, s, identifier) == Pass(h) ==> ResolveHook(env, s0, identifier) == Stop(NotFound)
    ensures ResolveHook(env, s, identifier) != Pass(h) ==> ResolveHook(env, s0, identifier) == ResolveHook(env, s, identifier)
  {
    hide Alike, UniqueNames, FindHook;
    AlikeHooks(s, s0, c, h);
    FindsAlike(env, s, s0, c, h, identifier);
  }

  lemma AlikeHooks(s: State, s0: State, c: Id, h: Id)
    requires Alike(s, s0, c, h)
    ensures h !in s0.hooks
    ensures forall g :: g != h ==> (g in s0.hooks <==> g in s.hooks)
    ensures forall g :: g != h && g in s.hooks ==> s0.hooks[g] == s.hooks[g]
  {
  }

  // ── The guards ─────────────────────────────────────────────────────────────

  /** On the hidden hook every guard says "not found". */
  lemma GuardsHide(s: State, c: Id, key: Key, h: Id)
    requires Unrelated(s, c, h) && !key.isMaster
    ensures GuardManage(s, c, key, h) == Deny(NotFound)
    ensures GuardManageConjunction(s, c, key, h) == Stop(NotFound)
    ensures GuardDispatchConfiguration(s, c, key, h) == Deny(NotFound)
    ensures GuardVisibility(s, c, key, h) == Deny(NotFound)
    ensures GuardExecute(s, c, key, h) == Deny(NotFound)
  {
  }

  /** On every other hook they decide alike. */
  lemma GuardsAlike(s: State, s0: State, c: Id, key: Key, h: Id, g: Id)
    requires Alike(s, s0, c, h) && g != h && g in s.hooks
    ensures g in s0.hooks && s0.hooks[g] == s.hooks[g] && ParamsOf(s0, g) == ParamsOf(s, g)
    ensures GuardManage(s0, c, key, g) == GuardManage(s, c, key, g)
    ensures GuardManageConjunction(s0, c, key, g) == GuardManageConjunction(s, c, key, g)
    ensures GuardDispatchConfiguration(s0, c, key, g) == GuardDispatchConfiguration(s, c, key, g)
    ensures GuardVisibility(s0, c, key, g) == GuardVisibility(s, c, key, g)
    ensures GuardExecute(s0, c, key, g) == GuardExecute(s, c, key, g)
    ensures Detail(s0, c, key, g) == Detail(s, c, key, g)
  {
    hide ParamsOf;
  }

  /** Everything the routes below need, for one identifier. */
  lemma Prepare(env: Env, s: State, c: Id, h: Id, identifier: string)
    requires Inv(env, s) && PlainNames(env, s) && Unrelated(s, c, h)
    ensures Alike(s, Absent(s, h), c, h)
    ensures ResolveHook(env, s, identifier) == Pass(h) ==> ResolveHook(env, Absent(s, h), identifier) == Stop(NotFound)
    ensures ResolveHook(env, s, identifier) != Pass(h) ==>
              ResolveHook(env, Absent(s, h), identifier) == ResolveHook(env, s, identifier)
    ensures FindHook(env, s, identifier) == Pass(h) ==> FindHook(env, Absent(s, h), identifier) == Stop(NotFound)
    ensures FindHook(env, s, identifier) != Pass(h) ==>
              FindHook(env, Absent(s, h), identifier) == FindHook(env, s, identifier)
  {
    hide References, Forest, OneMaster, KeyRules, ParamRules, Alike, Absent, FindHook, ResolveHook;
    AbsentAlike(s, c, h);
    FindsAlike(env, s, Absent(s, h), c, h, identifier);
    ResolvesAlike(env, s, Absent(s, h), c, h, identifier);
  }

  // ── Hook routes ────────────────────────────────────────────────────────────

  lemma ReadingAlike(env: Env, s: State, c: Id, h: Id, identifier: string, body: string, d: Draw)
    requires Inv(env, s) && PlainNames(env, s) && Unrelated(s, c, h) && c in s.keys && !Effective(env, s, c).isMaster
    ensures forall deleted :: GetHook(env, Absent(s, h), c, identifier, deleted) == GetHook(env, s, c, identifier, deleted)
    ensures ListParams(env, Absent(s, h), c, identifier) == ListParams(env, s, c, identifier)
    ensures ExecuteHook(env, Absent(s, h), Some(c), identifier, d) == ExecuteHook(env, s, Some(c), identifier, d)
    ensures TestHook(env, Absent(s, h), Some(c), identifier, body) == TestHook(env, s, Some(c), identifier, body)
  {
    hide Inv, PlainNames, Unrelated, FindHook, ResolveHook, Alike, GuardManage, GuardVisibility, GuardExecute,
         GuardManageConjunction, GuardDispatchConfiguration, Detail, ParamsOf;
    Prepare(env, s, c, h, identifier);
    var key := Effective(env, s, c);
    GuardsHide(s, c, key, h);
    var r := ResolveHook(env, s, identifier);
    if r.Pass? && r.value != h {
      GuardsAlike(s, Absent(s, h), c, key, h, r.value);
    }
  }

  lemma EditedAlike(s: State, s0: State, c: Id, h: Id, g: Id, row: Hook)
    requires Alike(s, s0, c, h) && g != h
    ensures Alike(Apply(s, SetHook(g, row)), Apply(s0, SetHook(g, row)), c, h)
  {
    hide ParamsOf, HeldRow;
    var w := SetHook(g, row);
    SameRows(s, w);
    SameRows(s0, w);
  }

  lemma SameRows(s: State, w: Write)
    requires w.SetHook?
    ensures forall k, g :: HeldRow(Apply(s, w), k, g) == HeldRow(s, k, g)
    ensures forall g :: ParamsOf(Apply(s, w), g) == ParamsOf(s, g)
  {
  }

  lemma NamesAlike(s: State, s0: State, c: Id, h: Id, name: string, except: Option<Id>)
    requires Alike(s, s0, c, h) && h in s.hooks && name != s.hooks[h].name
    ensures NameTaken(s0, name, except) <==> NameTaken(s, name, except)
  {
    hide ParamsOf, HeldRow;
    if NameTaken(s, name, except) {
      var g :| g in s.hooks && Some(g) != except && s.hooks[g].name == name;
      assert g in s0.hooks;
    }
  }

  /** Who may edit is decided alike, and the hidden hook is not found either way. */
  lemma EditorsAlike(env: Env, s: State, c: Id, h: Id, identifier: string, p: UpdateHookPayload)
    requires Inv(env, s) && PlainNames(env, s) && Unrelated(s, c, h) && c in s.keys && !Effective(env, s, c).isMaster
    ensures MayEdit(env, Absent(s, h), c, identifier, p) == MayEdit(env, s, c, identifier, p)
    ensures MayEdit(env, s, c, identifier, p).Pass? ==> MayEdit(env, s, c, identifier, p).value.0 != h
  {
    hide Inv, PlainNames, Unrelated, FindHook, ResolveHook, Alike, GuardManage, GuardManageConjunction,
         GuardDispatchConfiguration, Detail, ParamsOf, NormalizeRunAsUser, Privileged;
    Prepare(env, s, c, h, identifier);
    var key := Effective(env, s, c);
    GuardsHide(s, c, key, h);
    var r := ResolveHook(env, s, identifier);
    if r.Pass? && r.value != h {
      GuardsAlike(s, Absent(s, h), c, key, h, r.value);
    }
  }

  lemma UpdatingAlike(env: Env, s: State, c: Id, h: Id, identifier: string, p: UpdateHookPayload)
    requires Inv(env, s) && PlainNames(env, s) && Unrelated(s, c, h) && c in s.keys && !Effective(env, s, c).isMaster
    requires p.name.Some? ==> Trim(p.name.value) != s.hooks[h].name
    ensures UpdateHook(env, Absent(s, h), c, identifier, p) == UpdateHook(env, s, c, identifier, p)
  {
    hide Inv, PlainNames, Unrelated, MayEdit, Alike, Detail, ParamsOf, ParamKeys, SealHmacSecret, ValidSamplePayload,
         ArgsTemplate.ValidArgsTemplate, Trim, NameTaken, Apply, Absent, Edited;
    var s0 := Absent(s, h);
    AbsentAlike(s, c, h);
    AbsentKeepsKeys(s, h);
    HiddenIsThere(s, c, h);
    EditorsAlike(env, s, c, h, identifier, p);
    var r := MayEdit(env, s, c, identifier, p);
    if r.Pass? {
      var (g, user) := r.value;
      var key := Effective(env, s, c);
      GuardsAlike(s, s0, c, key, h, g);
      var hook := s.hooks[g];
      var secret := SealHmacSecret(env, Or(p.authMode, hook.authMode), p.hmacSecret, hook.hmacSecret);
      if secret.Pass? {
        var edited := Edited(hook, p, user, secret.value);
        OtherName(env, s, h, g);
        EditedName(hook, p, user, secret.value);
        NamesAlike(s, s0, c, h, edited.name, Some(g));
        EditedAlike(s, s0, c, h, g, edited);
        AfterSet(s, g, edited);
        GuardsAlike(Apply(s, SetHook(g, edited)), Apply(s0, SetHook(g, edited)), c, key, h, g);
      }
    }
  }

  lemma EditedName(hook: Hook, p: UpdateHookPayload, user: Option<string>, secret: Option<string>)
    ensures Edited(hook, p, user, secret).name == if p.name.Some? then Trim(p.name.value) else hook.name
  {
    hide Trim;
  }

  lemma HiddenIsThere(s: State, c: Id, h: Id)
    requires Unrelated(s, c, h)
    ensures h in s.hooks
  {
  }

  lemma AfterSet(s: State, g: Id, row: Hook)
    ensures g in Apply(s, SetHook(g, row)).hooks
  {
  }

  lemma OtherName(env: Env, s: State, h: Id, g: Id)
    requires Inv(env, s) && g in s.hooks && h in s.hooks && g != h
    ensures s.hooks[g].name != s.hooks[h].name
  {
    hide References, Forest, OneMaster, KeyRules, ParamRules, HookOk;
  }

  lemma DeletingAlike(env: Env, s: State, c: Id, h: Id, identifier: string, hard: bool, d: Draw)
    requires Inv(env, s) && PlainNames(env, s) && Unrelated(s, c, h) && c in s.keys && !Effective(env, s, c).isMaster
    ensures DeleteHook(env, Absent(s, h), c, identifier, hard, d) == DeleteHook(env, s, c, identifier, hard, d)
  {
    hide Inv, PlainNames, Unrelated, FindHook, ResolveHook, Alike, GuardManage, GuardManageConjunction,
         GuardDispatchConfiguration, Privileged;
    Prepare(env, s, c, h, identifier);
    var key := Effective(env, s, c);
    GuardsHide(s, c, key, h);
    var r := if hard then FindHook(env, s, identifier) else ResolveHook(env, s, identifier);
    if r.Pass? && r.value != h {
      GuardsAlike(s, Absent(s, h), c, key, h, r.value);
    }
  }

  lemma ParamsAlike(env: Env, s: State, c: Id, h: Id, identifier: string, id: Id, input: ParamInput, edit: UpdateParamPayload,
                    d: Draw)
    requires Inv(env, s) && PlainNames(env, s) && Unrelated(s, c, h) && c in s.keys && !Effective(env, s, c).isMaster
    ensures CreateParam(env, Absent(s, h), c, identifier, input, d) == CreateParam(env, s, c, identifier, input, d)
    ensures UpdateParam(env, Absent(s, h), c, identifier, id, edit) == UpdateParam(env, s, c, identifier, id, edit)
    ensures DeleteParam(env, Absent(s, h), c, identifier, id) == DeleteParam(env, s, c, identifier, id)
  {
    hide Inv, PlainNames, Unrelated, FindHook, ResolveHook, Alike, GuardManage, GuardManageConjunction,
         GuardDispatchConfiguration, Privileged, IsIdentifier, ParamKeys;
    Prepare(env, s, c, h, identifier);
    var key := Effective(env, s, c);
    GuardsHide(s, c, key, h);
    var r := ResolveHook(env, s, identifier);
    if r.Pass? && r.value != h {
      GuardsAlike(s, Absent(s, h), c, key, h, r.value);
    }
  }

  /** A created hook collides with no hidden parameter, and its name with none but the hidden one. */
  lemma CreatingAlike(env: Env, s: State, c: Id, h: Id, p: CreateHookPayload, d: Draw)
    requires Inv(env, s) && Unrelated(s, c, h) && c in s.keys && FreshDraw(s, d)
    requires Trim(p.name) != s.hooks[h].name
    ensures CreateHook(env, Absent(s, h), c, p, d) == CreateHook(env, s, c, p, d)
  {
    hide Inv, Alike, NormalizeRunAsUser, SealHmacSecret, ValidSamplePayload, ArgsTemplate.ValidArgsTemplate, Trim, NameTaken,
         Apply, IsIdentifier, KeySet, DistinctPrefix, InsertedParams, FreshDraw, Detail;
    AbsentAlike(s, c, h);
    NamesAlike(s, Absent(s, h), c, h, Trim(p.name), None);
    var e := CreateHook(env, s, c, p, d);
    if e.Pass? {
      DetailOfNew(env, s, c, h, e.value.write, d);
    }
  }

  /** A new hook starts with the parameters inserted with it and its creator's row, whatever else the state holds. */
  lemma NewHookIsAlone(s: State, c: Id, w: Write)
    requires w.InsertHook?
    requires w.id !in s.hooks && (forall p :: p in s.params ==> s.params[p].hook != w.id) && (c, w.id) !in s.rows
    ensures ParamsOf(Apply(s, w), w.id) == map p | p in w.declared && w.declared[p].hook == w.id :: w.declared[p]
    ensures HeldRow(Apply(s, w), c, w.id) == if w.creator == Some(c) then Some(FullRow()) else None
    ensures w.id in Apply(s, w).hooks && Apply(s, w).hooks[w.id] == w.hookRow
  {
  }

  lemma NothingAtNewId(env: Env, s: State, c: Id, id: Id)
    requires Inv(env, s) && id !in s.used
    ensures id !in s.hooks && (forall p :: p in s.params ==> s.params[p].hook != id) && (c, id) !in s.rows
  {
    hide Forest, OneMaster, KeyRules, HookRules, ParamRules;
  }

  lemma DetailOfNew(env: Env, s: State, c: Id, h: Id, w: Write, d: Draw)
    requires Inv(env, s) && Unrelated(s, c, h) && c in s.keys && FreshDraw(s, d)
    requires w.InsertHook? && w.id == d.id
    ensures Detail(Apply(Absent(s, h), w), c, Effective(env, s, c), d.id) == Detail(Apply(s, w), c, Effective(env, s, c), d.id)
  {
    hide Inv, ParamsOf, Apply, HeldRow;
    NothingAtNewId(env, s, c, d.id);
    NewHookIsAlone(s, c, w);
    NewHookIsAlone(Absent(s, h), c, w);
  }

  // ── Key routes ─────────────────────────────────────────────────────────────

  lemma VisibilityAlike(s: State, c: Id, key: Key, h: Id, k: Id)
    requires Unrelated(s, c, h)
    ensures ManagedHookIds(Absent(s, h), c) == ManagedHookIds(s, c) && h !in ManagedHookIds(s, c)
    ensures KeyVisibility(Absent(s, h), c, key, k) == KeyVisibility(s, c, key, k)
    ensures LoadAdministrableKey(Absent(s, h), c, key, k) == LoadAdministrableKey(s, c, key, k)
    ensures HasPermissionAdminStanding(Absent(s, h), c, key) <==> HasPermissionAdminStanding(s, c, key)
  {
    hide Descendants;
    var s0 := Absent(s, h);
    var managed := ManagedHookIds(s, c);
    assert ManagedHookIds(s0, c) == managed;
    if HoldsRowIn(s, k, managed) {
      var r :| r in s.rows && r.0 == k && r.1 in managed;
      assert r in s0.rows;
    }
    if g :| Holds(s, c, g, Manage) {
      assert Holds(s0, c, g, Manage);
    }
    if g :| Holds(s0, c, g, Manage) {
      assert Holds(s, c, g, Manage);
    }
  }

  lemma PermissionsAlike(s: State, h: Id, k: Id)
    requires (k, h) !in s.rows
    ensures PermissionsOf(Absent(s, h), k) == PermissionsOf(s, k)
  {
  }

  /** The minimal form lists managed hooks alone, so it never lists the hidden one. */
  lemma MinimalAlike(s: State, c: Id, h: Id, k: Id)
    requires Unrelated(s, c, h) && k in s.keys
    ensures MinimalView(Absent(s, h), k, ManagedHookIds(s, c)) == MinimalView(s, k, ManagedHookIds(s, c))
  {
    var managed := ManagedHookIds(s, c);
    assert h !in managed;
    assert forall g :: g != h ==> (g in PermissionsOf(Absent(s, h), k) <==> g in PermissionsOf(s, k));
  }

  lemma KeyListAlike(s: State, c: Id, key: Key, h: Id)
    requires Unrelated(s, c, h) && !key.isMaster && forall k :: k in Descendants(s.keys, c) ==> (k, h) !in s.rows
    ensures ListedKeys(Absent(s, h), c, key) == ListedKeys(s, c, key)
  {
    hide ListedKeys, KeyVisibility, PermissionsOf, MinimalView, ManagedHookIds, Descendants;
    var s0 := Absent(s, h);
    VisibilityAlike(s, c, key, h, c);
    forall k | k in s.keys
      ensures k in ListedKeys(s0, c, key) <==> k in ListedKeys(s, c, key)
      ensures k in ListedKeys(s, c, key) ==> ListedKeys(s0, c, key)[k] == ListedKeys(s, c, key)[k]
    {
      VisibilityAlike(s, c, key, h, k);
      Listings.KeyListIsPointwise(s, c, key, k);
      Listings.KeyListIsPointwise(s0, c, key, k);
      MinimalAlike(s, c, h, k);
      if KeyVisibility(s, c, key, k) == FullForm {
        FullFormIsSubtree(s, c, key, k);
        PermissionsAlike(s, h, k);
      }
    }
    ListedAreKeys(s, c, key);
    ListedAreKeys(s0, c, key);
  }

  lemma ListedAreKeys(s: State, c: Id, key: Key)
    ensures forall k :: k in ListedKeys(s, c, key) ==> k in s.keys
  {
    hide KeyVisibility, PermissionsOf, MinimalView, ManagedHookIds, Descendants;
  }

  lemma FullFormIsSubtree(s: State, c: Id, key: Key, k: Id)
    requires !key.isMaster && KeyVisibility(s, c, key, k) == FullForm
    ensures k == c || k in Descendants(s.keys, c)
  {
    hide Descendants, HoldsRowIn;
  }

  lemma InventoryAlike(s: State, h: Id, subtree: set<Id>)
    requires h in s.hooks && (s.hooks[h].owner.Some? ==> s.hooks[h].owner.value !in subtree)
    ensures OwnedHooks(Absent(s, h), subtree) == OwnedHooks(s, subtree)
    ensures Inventory(Absent(s, h), subtree) == Inventory(s, subtree)
  {
  }

  lemma DeletingKeysAlike(env: Env, s: State, c: Id, h: Id, id: Id, resolutions: map<Id, Resolution>, d: Draw)
    requires Unrelated(s, c, h) && c in s.keys && !Effective(env, s, c).isMaster
    requires s.hooks[h].owner.Some? ==> s.hooks[h].owner.value !in Subtree(s.keys, id)
    ensures DeleteKey(env, Absent(s, h), c, id, resolutions, d) == DeleteKey(env, s, c, id, resolutions, d)
  {
    hide Subtree, KeyVisibility, Inventory, OwnedHooks;
    VisibilityAlike(s, c, Effective(env, s, c), h, id);
    InventoryAlike(s, h, Subtree(s.keys, id));
  }

  lemma EditingKeysAlike(env: Env, s: State, c: Id, h: Id, id: Id, p: UpdateKeyPayload)
    requires Unrelated(s, c, h) && c in s.keys && (id, h) !in s.rows
    ensures UpdateKey(env, Absent(s, h), c, id, p) == UpdateKey(env, s, c, id, p)
  {
    hide KeyVisibility, Descendants, PermissionsOf, ManagedHookIds;
    var key := Effective(env, s, c);
    VisibilityAlike(s, c, key, h, id);
    if id in s.keys && KeyVisibility(s, c, key, id) == FullForm {
      PermissionsAlike(s, h, id);
      var e := UpdateKey(env, s, c, id, p);
      if e.Pass? {
        PermissionsOfEdited(s, e.value.write);
        PermissionsOfEdited(Absent(s, h), e.value.write);
      }
    }
  }

  lemma PermissionsOfEdited(s: State, w: Write)
    requires w.SetKey?
    ensures PermissionsOf(Apply(s, w), w.id) == PermissionsOf(s, w.id)
  {
  }

  lemma RenewingAlike(env: Env, s: State, c: Id, h: Id, id: Id, renewal: Renewal, d: Draw)
    requires Unrelated(s, c, h) && c in s.keys
    ensures RenewCredentials(env, Absent(s, h), c, id, renewal, d) == RenewCredentials(env, s, c, id, renewal, d)
  {
    hide KeyVisibility, LoadAdministrableKey;
    VisibilityAlike(s, c, Effective(env, s, c), h, id);
  }

  lemma RevokingAlike(env: Env, s: State, c: Id, h: Id, id: Id, identifier: string)
    requires Inv(env, s) && PlainNames(env, s) && Unrelated(s, c, h) && c in s.keys && !Effective(env, s, c).isMaster
    ensures Revoke(env, Absent(s, h), c, id, identifier) == Revoke(env, s, c, id, identifier)
  {
    hide Inv, PlainNames, Unrelated, ResolveHook, Alike, GuardDispatchConfiguration, HasPermissionAdminStanding;
    var key := Effective(env, s, c);
    Prepare(env, s, c, h, identifier);
    VisibilityAlike(s, c, key, h, id);
    GuardsHide(s, c, key, h);
    var r := ResolveHook(env, s, identifier);
    if r.Pass? && r.value != h {
      GuardsAlike(s, Absent(s, h), c, key, h, r.value);
      RowsAlike(s, c, h, id, r.value);
    }
  }

  lemma RowsAlike(s: State, c: Id, h: Id, k: Id, g: Id)
    requires g != h
    ensures HeldRow(Absent(s, h), k, g) == HeldRow(s, k, g)
    ensures (k, g) in Absent(s, h).rows <==> (k, g) in s.rows
  {
  }

  lemma GrantingAlike(env: Env, s: State, c: Id, h: Id, id: Id, p: GrantPayload)
    requires Inv(env, s) && PlainNames(env, s) && Unrelated(s, c, h) && c in s.keys && !Effective(env, s, c).isMaster
    requires id != c || p.row == Row(false, false, false)
    ensures Grant(env, Absent(s, h), c, id, p) == Grant(env, s, c, id, p)
  {
    hide Inv, PlainNames, Unrelated, ResolveHook, Alike, GuardManageConjunction, HasPermissionAdminStanding, KeyVisibility,
         Privileged, HeldRow;
    var key := Effective(env, s, c);
    VisibilityAlike(s, c, key, h, id);
    GuardsHide(s, c, key, h);
    if GrantIdentifier(p).Pass? {
      Prepare(env, s, c, h, GrantIdentifier(p).value);
      var r := ResolveHook(env, s, GrantIdentifier(p).value);
      if r.Pass? && r.value != h {
        GuardsAlike(s, Absent(s, h), c, key, h, r.value);
        RowsAlike(s, c, h, id, r.value);
      }
    }
  }

  /** Granting itself a verb is the one grant that tells: it is forbidden on a hook that exists, hidden or not, and
      not found on one that does not. */
  lemma SelfGrantTellsExactly(env: Env, s: State, c: Id, h: Id, id: Id, p: GrantPayload)
    requires Inv(env, s) && PlainNames(env, s) && Unrelated(s, c, h) && c in s.keys && !Effective(env, s, c).isMaster
    ensures Grant(env, Absent(s, h), c, id, p) == Grant(env, s, c, id, p)
       <==> AnswerOf(Grant(env, Absent(s, h), c, id, p)) == AnswerOf(Grant(env, s, c, id, p))
    ensures AnswerOf(Grant(env, Absent(s, h), c, id, p)) != AnswerOf(Grant(env, s, c, id, p)) <==>
              && id == c && p.row != Row(false, false, false)
              && HasPermissionAdminStanding(s, c, Effective(env, s, c)) && !s.keys[c].isMaster
              && GrantIdentifier(p).Pass? && ResolveHook(env, s, GrantIdentifier(p).value) == Pass(h)
  {
    hide Inv, PlainNames, ResolveHook, Alike, GuardManageConjunction, HasPermissionAdminStanding, Privileged, Grant, AnswerOf;
    if id != c || p.row == Row(false, false, false) {
      GrantingAlike(env, s, c, h, id, p);
    } else {
      SelfGrant(env, s, c, h, p);
    }
  }

  lemma SelfGrant(env: Env, s: State, c: Id, h: Id, p: GrantPayload)
    requires Inv(env, s) && PlainNames(env, s) && Unrelated(s, c, h) && c in s.keys && !Effective(env, s, c).isMaster
    requires p.row != Row(false, false, false)
    ensures Grant(env, Absent(s, h), c, c, p) == Grant(env, s, c, c, p)
       <==> AnswerOf(Grant(env, Absent(s, h), c, c, p)) == AnswerOf(Grant(env, s, c, c, p))
    ensures AnswerOf(Grant(env, Absent(s, h), c, c, p)) != AnswerOf(Grant(env, s, c, c, p)) <==>
              && HasPermissionAdminStanding(s, c, Effective(env, s, c)) && !s.keys[c].isMaster
              && GrantIdentifier(p).Pass? && ResolveHook(env, s, GrantIdentifier(p).value) == Pass(h)
  {
    hide Inv, PlainNames, ResolveHook, Alike, GuardManageConjunction, HasPermissionAdminStanding, Privileged, Descendants,
         ManagedHookIds;
    var key := Effective(env, s, c);
    VisibilityAlike(s, c, key, h, c);
    if GrantIdentifier(p).Pass? {
      Prepare(env, s, c, h, GrantIdentifier(p).value);
      var r := ResolveHook(env, s, GrantIdentifier(p).value);
      if r.Pass? && r.value != h {
        GuardsAlike(s, Absent(s, h), c, key, h, r.value);
        RowsAlike(s, c, h, c, r.value);
      }
    }
  }

  // ── Lists of hooks and records ─────────────────────────────────────────────

  lemma HookListAlike(env: Env, s: State, c: Id, h: Id, includeDeleted: bool)
    requires Unrelated(s, c, h) && c in s.keys && !Effective(env, s, c).isMaster
    ensures ListHooks(env, Absent(s, h), c, includeDeleted) == ListHooks(env, s, c, includeDeleted)
  {
    hide Alike, Detail, ParamsOf, VisibleHookIds, GuardVisibility, GuardManage, GuardExecute;
    var key := Effective(env, s, c);
    var s0 := Absent(s, h);
    AbsentAlike(s, c, h);
    Listings.VisibleHooksArePointwise(s, c, key, h);
    GuardsHide(s, c, key, h);
    forall g | g in s.hooks && g != h
      ensures Detail(s0, c, key, g) == Detail(s, c, key, g)
      ensures (VisibleHookIds(s0, c, key).None? || g in VisibleHookIds(s0, c, key).value)
         <==> (VisibleHookIds(s, c, key).None? || g in VisibleHookIds(s, c, key).value)
    {
      GuardsAlike(s, s0, c, key, h, g);
      Listings.VisibleHooksArePointwise(s, c, key, g);
      Listings.VisibleHooksArePointwise(s0, c, key, g);
    }
    var l, l0 := ListHooks(env, s, c, includeDeleted), ListHooks(env, s0, c, includeDeleted);
    assert l.Pass? ==> l0.Pass? && l0.value.response.details == l.value.response.details;
  }

  lemma ScopeAlike(s: State, c: Id, key: Key, h: Id, x: Execution)
    requires Unrelated(s, c, h) && !key.isMaster
    ensures x.hook != h ==> (InScope(Absent(s, h), c, key, x) <==> InScope(s, c, key, x))
    ensures x.hook != h ==> View(Absent(s, h), x) == View(s, x)
    ensures x.hook == h && x.author != Some(c) ==> !InScope(s, c, key, x)
    ensures x.hook == h && x.author != Some(c) ==> !MayReadExecution(s, c, key, x)
    ensures x.hook != h ==> (MayReadExecution(Absent(s, h), c, key, x) <==> MayReadExecution(s, c, key, x))
  {
    var s0 := Absent(s, h);
    assert h !in ExecutionVisibleHookIds(s, c);
    assert ExecutionVisibleHookIds(s0, c) == ExecutionVisibleHookIds(s, c);
    assert x.hook != h ==> HeldRow(s0, c, x.hook) == HeldRow(s, c, x.hook);
  }

  lemma FilterAlike(env: Env, s: State, c: Id, h: Id, hook: Option<string>)
    requires Inv(env, s) && PlainNames(env, s) && Unrelated(s, c, h) && c in s.keys && !Effective(env, s, c).isMaster
    ensures HookFilter(env, Absent(s, h), c, hook) == HookFilter(env, s, c, hook)
  {
    hide Inv, PlainNames, Unrelated, ResolveHook, Alike, GuardVisibility;
    if NonEmpty(hook).Some? {
      Prepare(env, s, c, h, hook.value);
      GuardsHide(s, c, Effective(env, s, c), h);
      var r := ResolveHook(env, s, hook.value);
      if r.Pass? && r.value != h {
        GuardsAlike(s, Absent(s, h), c, Effective(env, s, c), h, r.value);
      }
    }
  }

  /** The records of other hooks are there in both states, and read alike; of the hidden one the caller sees its own
      runs alone. */
  lemma RecordsAlike(s: State, c: Id, key: Key, h: Id)
    requires Unrelated(s, c, h) && !key.isMaster
    ensures
      var s0 := Absent(s, h);
      forall e :: e in s.executions ==>
        && (s.executions[e].hook == h ==>
              e !in s0.executions && (s.executions[e].author == Some(c) || !InScope(s, c, key, s.executions[e])))
        && (s.executions[e].hook != h ==>
              && e in s0.executions
              && s0.executions[e] == s.executions[e] && View(s0, s.executions[e]) == View(s, s.executions[e])
              && (InScope(s0, c, key, s.executions[e]) <==> InScope(s, c, key, s.executions[e])))
    ensures Absent(s, h).executions.Keys <= s.executions.Keys
  {
    hide Unrelated, InScope, View, MayReadExecution;
    forall e | e in s.executions
      ensures s.executions[e].hook == h ==>
                e !in Absent(s, h).executions && (s.executions[e].author == Some(c) || !InScope(s, c, key, s.executions[e]))
      ensures s.executions[e].hook != h ==>
                && e in Absent(s, h).executions
                && Absent(s, h).executions[e] == s.executions[e]
                && View(Absent(s, h), s.executions[e]) == View(s, s.executions[e])
                && (InScope(Absent(s, h), c, key, s.executions[e]) <==> InScope(s, c, key, s.executions[e]))
    {
      ScopeAlike(s, c, key, h, s.executions[e]);
    }
  }

  /** A run of the hidden hook by the caller that passes the other filters. */
  ghost predicate OwnRun(s: State, c: Id, h: Id, hook: Option<Id>, authors: Option<set<Id>>, rest: (string, int) -> bool, e: Id) {
    && e in s.executions && s.executions[e].hook == h && s.executions[e].author == Some(c)
    && (hook.None? || hook.value == h) && (authors.None? || c in authors.value)
    && rest(s.executions[e].report, s.executions[e].timestamp)
  }

  lemma MatchingTellsExactly(s: State, c: Id, key: Key, h: Id, hook: Option<Id>, authors: Option<set<Id>>,
                             rest: (string, int) -> bool)
    requires Unrelated(s, c, h) && !key.isMaster
    ensures Matching(Absent(s, h), c, key, hook, authors, rest) == Matching(s, c, key, hook, authors, rest)
       <==> !exists e :: OwnRun(s, c, h, hook, authors, rest, e)
  {
    hide Unrelated, InScope, View, Absent;
    RecordsAlike(s, c, key, h);
    OwnRunsInScope(s, c, key);
    var m, m0 := Matching(s, c, key, hook, authors, rest), Matching(Absent(s, h), c, key, hook, authors, rest);
    if e :| OwnRun(s, c, h, hook, authors, rest, e) {
      assert e in m && e !in m0;
    } else {
      forall e | e in s.executions
        ensures e in m <==> e in m0
        ensures e in m ==> m[e] == m0[e]
      {
        assert !OwnRun(s, c, h, hook, authors, rest, e);
      }
      assert m == m0;
    }
  }

  lemma OwnRunsInScope(s: State, c: Id, key: Key)
    ensures forall e :: e in s.executions && s.executions[e].author == Some(c) ==> InScope(s, c, key, s.executions[e])
  {
  }

  lemma AuthorsAlike(env: Env, s: State, h: Id, raw: string)
    ensures AuthorFilter(env, Absent(s, h), raw) == AuthorFilter(env, s, raw)
  {
  }

  lemma OwnRecordReadable(s: State, c: Id, key: Key, x: Execution)
    requires x.author == Some(c)
    ensures MayReadExecution(s, c, key, x)
  {
  }

  lemma RecordAlike(env: Env, s: State, c: Id, h: Id, e: Id)
    requires Unrelated(s, c, h) && c in s.keys && !Effective(env, s, c).isMaster
    ensures e in s.executions && s.executions[e].hook == h && s.executions[e].author == Some(c) ==>
              AnswerOf(GetExecution(env, Absent(s, h), c, e)) != AnswerOf(GetExecution(env, s, c, e))
    ensures !(e in s.executions && s.executions[e].hook == h && s.executions[e].author == Some(c)) ==>
              GetExecution(env, Absent(s, h), c, e) == GetExecution(env, s, c, e)
    ensures DeleteExecution(env, Absent(s, h), c, e) == DeleteExecution(env, s, c, e)
  {
    hide Alike, GuardManage, MayReadExecution, View;
    if e in s.executions {
      var x := s.executions[e];
      var key := Effective(env, s, c);
      ScopeAlike(s, c, key, h, x);
      GuardsHide(s, c, key, h);
      if x.author == Some(c) {
        OwnRecordReadable(s, c, key, x);
      }
      if x.hook != h && x.hook in s.hooks {
        AbsentAlike(s, c, h);
        GuardsAlike(s, Absent(s, h), c, key, h, x.hook);
      }
    }
  }

  // ── The remaining routes ───────────────────────────────────────────────────

  lemma AbsentKeepsKeys(s: State, h: Id)
    ensures Absent(s, h).keys == s.keys && Absent(s, h).used == s.used
  {
  }

  lemma CreatingKeysAlike(env: Env, s: State, c: Id, h: Id, p: CreateKeyPayload, d: Draw)
    requires c in s.keys
    ensures CreateKey(env, Absent(s, h), c, p, d) == CreateKey(env, s, c, p, d)
  {
  }

  lemma MasterRoutesAlike(env: Env, s: State, c: Id, h: Id, identifier: string, days: Option<int>, d: Draw)
    requires c in s.keys && !Effective(env, s, c).isMaster
    ensures RestoreHook(env, Absent(s, h), c, identifier) == RestoreHook(env, s, c, identifier)
    ensures PurgeHooks(env, Absent(s, h), c, days, d) == PurgeHooks(env, s, c, days, d)
    ensures PurgeExecutions(env, Absent(s, h), c, days, d) == PurgeExecutions(env, s, c, days, d)
  {
    hide FindHook, ExpiredHooks, ExpiredExecutions;
  }
}
