/**
 What each key route does, said outright: exactly when it passes, what it then writes, field by field, and what it
 answers. Conditions and effects are on the request and the tables; none of them goes through a guard or a view.
 */
module KeyContracts {
  import opened Text
  import opened Rbac
  import opened Guards
  import opened Lineage
  import opened Hooks
  import opened KeyRoutes
  import opened Service
  import opened Writes
  import opened Invariants

  /** The caller is the pinned master. */
  predicate ActsAsMaster(env: Env, s: State, c: Id)
    requires c in s.keys
  {
    s.keys[c].isMaster && env.pin == Some(c)
  }

  /** The caller administers keys at all. */
  predicate AdministersKeys(env: Env, s: State, c: Id)
    requires c in s.keys
  {
    ActsAsMaster(env, s, c) || s.keys[c].canManageKeys
  }

  /** `k` is in the caller's own subtree, or the caller is the master. */
  ghost predicate InReach(env: Env, s: State, c: Id, k: Id)
    requires c in s.keys
  {
    k in s.keys && (ActsAsMaster(env, s, c) || k == c || DescendsFrom(s.keys, k, c))
  }

  /** `k` holds a row on a hook that `c` manages. */
  ghost predicate SharesHook(s: State, c: Id, k: Id) {
    exists h: Id :: Holds(s, c, h, Manage) && (k, h) in s.rows
  }

  /** The verbs of a row are its three columns. */
  lemma VerbsExactly(s: State, k: Id, h: Id)
    ensures Holds(s, k, h, Execute) <==> (k, h) in s.rows && s.rows[(k, h)].canExecute
    ensures Holds(s, k, h, Manage) <==> (k, h) in s.rows && s.rows[(k, h)].canManage
    ensures Holds(s, k, h, ViewExecution) <==> (k, h) in s.rows && s.rows[(k, h)].canViewExecution
  {
  }

  // ── Visibility ─────────────────────────────────────────────────────────────

  lemma SharingExactly(s: State, c: Id, k: Id)
    ensures HoldsRowIn(s, k, ManagedHookIds(s, c)) <==> SharesHook(s, c, k)
  {
    if HoldsRowIn(s, k, ManagedHookIds(s, c)) {
      var r :| r in s.rows && r.0 == k && r.1 in ManagedHookIds(s, c);
      assert (k, r.1) == r && (c, r.1) in s.rows;
      assert Holds(s, c, r.1, Manage);
    }
    if h: Id :| Holds(s, c, h, Manage) && (k, h) in s.rows {
      assert (c, h).1 == h && h in ManagedHookIds(s, c);
      assert (k, h).0 == k && (k, h).1 == h;
    }
  }

  /** A key is seen in full by the master, by itself and from above; in minimal form by a manager of a hook it holds a
      row on; and otherwise not at all. */
  lemma VisibilityExactly(env: Env, s: State, c: Id, k: Id)
    requires c in s.keys && k in s.keys
    ensures KeyVisibility(s, c, Effective(env, s, c), k) == FullForm <==> InReach(env, s, c, k)
    ensures KeyVisibility(s, c, Effective(env, s, c), k) == MinimalForm <==> !InReach(env, s, c, k) && SharesHook(s, c, k)
  {
    hide DescendsFrom, HoldsRowIn, ManagedHookIds, SharesHook;
    SharingExactly(s, c, k);
  }

  lemma ReachExactly(env: Env, s: State, c: Id, id: Id)
    requires c in s.keys
    ensures LoadAdministrableKey(s, c, Effective(env, s, c), id) == if InReach(env, s, c, id) then Pass(s.keys[id]) else Stop(NotFound)
  {
    hide KeyVisibility, DescendsFrom;
    if id in s.keys {
      VisibilityExactly(env, s, c, id);
    }
  }

  // ── Creation ───────────────────────────────────────────────────────────────

  /** A text that is given and not empty. */
  predicate Given(text: Option<string>) {
    text.Some? && text.value != ""
  }

  /** What a new key must satisfy besides its creator's authority. */
  predicate CreatableKey(env: Env, p: CreateKeyPayload) {
    && (p.canManageKeys == Some(true) ==> p.generateSecret != Some(false) && !Given(p.template))
    && (p.boundIps.Some? ==> env.cidrsOk(p.boundIps.value))
    && (p.maxJobs.Some? ==> 1 <= p.maxJobs.value <= 1_000)
  }

  predicate GrantsScope(keys: Option<bool>, hooks: Option<bool>) {
    keys == Some(true) || hooks == Some(true)
  }

  /** Creating a key: exactly when it passes, which error it stops with otherwise, and the key it makes. */
  lemma CreateKeyExactly(env: Env, s: State, c: Id, p: CreateKeyPayload, d: Draw)
    requires c in s.keys
    ensures
      var e := Handle(env, s, c, PostKey(p), d);
      var allowed := AdministersKeys(env, s, c) && (ActsAsMaster(env, s, c) || !GrantsScope(p.canManageKeys, p.canManageHooks));
      var minting := p.generateSecret != Some(false);
      && (e.Pass? <==> allowed && CreatableKey(env, p) && (minting ==> env.canMint))
      && (e == Stop(Forbidden) <==> !allowed)
      && (e == Stop(InvalidInput) <==> allowed && !CreatableKey(env, p))
      && (e.Pass? ==>
            && AnswerOf(e) == KeyCreated(d.id, d.token, if minting then Some(d.signing) else None)
            && CreatedAs(s, Apply(s, WriteOf(e)), c, p, d))
  {
    hide Apply;
    var e := Handle(env, s, c, PostKey(p), d);
    if e.Pass? {
      KeyInserted(s, WriteOf(e));
    }
  }

  /** The new key carries what the payload gives, a limit of ten jobs and a signing pair unless told otherwise, no
      mastery, and its creator as parent; nothing else changes. */
  predicate CreatedAs(s: State, s': State, c: Id, p: CreateKeyPayload, d: Draw) {
    && s' == s.(keys := s'.keys, used := s.used + {d.id})
    && d.id in s'.keys && s'.keys == s.keys[d.id := s'.keys[d.id]]
    && var k := s'.keys[d.id];
       && k.name == p.name && k.token == d.token && k.boundIps == p.boundIps && k.parent == Some(c) && !k.isMaster
       && k.signing == (if p.generateSecret == Some(false) then None else Some(d.signing))
       && k.template == (if Given(p.template) then p.template else None)
       && k.maxJobs == (if p.maxJobs.Some? then p.maxJobs.value else 10)
       && (k.canManageKeys <==> p.canManageKeys == Some(true)) && (k.canManageHooks <==> p.canManageHooks == Some(true))
  }

  lemma KeyInserted(s: State, w: Write)
    requires w.InsertKey?
    ensures Apply(s, w) == s.(keys := s.keys[w.id := w.key], used := s.used + {w.id})
  {
  }

  // ── Editing ────────────────────────────────────────────────────────────────

  /** The master's row may be edited by the master alone, and only in its networks. */
  predicate MasterEditOk(env: Env, s: State, c: Id, id: Id, p: UpdateKeyPayload)
    requires c in s.keys && id in s.keys
  {
    s.keys[id].isMaster ==>
      && ActsAsMaster(env, s, c) && c == id
      && p.name == None && p.maxJobs == None && p.template == None && p.canManageKeys == None && p.canManageHooks == None
  }

  /** What the edited row must satisfy. */
  predicate EditableKey(env: Env, was: Key, p: UpdateKeyPayload) {
    var manages := if p.canManageKeys.Some? then p.canManageKeys.value else was.canManageKeys;
    var template := if p.template.Some? then p.template else was.template;
    && (manages ==> !Given(template))
    && (p.boundIps.Some? ==> env.cidrsOk(p.boundIps.value))
    && (p.maxJobs.Some? ==> 1 <= p.maxJobs.value <= 1_000)
  }

  /** Editing a key: exactly when it passes, and how it is refused for want of authority or reach. */
  lemma UpdateKeyExactly(env: Env, s: State, c: Id, id: Id, p: UpdateKeyPayload, d: Draw)
    requires c in s.keys
    ensures
      var e := Handle(env, s, c, PutKey(id, p), d);
      && (e.Pass? <==>
            && AdministersKeys(env, s, c) && InReach(env, s, c, id) && MasterEditOk(env, s, c, id, p)
            && (ActsAsMaster(env, s, c) || !GrantsScope(p.canManageKeys, p.canManageHooks))
            && EditableKey(env, s.keys[id], p))
      && (AdministersKeys(env, s, c) && !InReach(env, s, c, id) ==> e == Stop(NotFound))
      && (!AdministersKeys(env, s, c) ==> e == Stop(Forbidden))
  {
    hide LoadAdministrableKey, InReach, Summary, Apply;
    ReachExactly(env, s, c, id);
    ReachIsKey(env, s, c, id);
  }

  lemma UpdateKeySets(env: Env, s: State, c: Id, id: Id, p: UpdateKeyPayload, d: Draw)
    requires c in s.keys && Handle(env, s, c, PutKey(id, p), d).Pass?
    ensures EditedAs(s, Apply(s, WriteOf(Handle(env, s, c, PutKey(id, p), d))), id, p)
  {
    hide LoadAdministrableKey, Summary, ValidateBoundIps, ValidateConcurrency;
    LoadedIsRow(s, c, Effective(env, s, c), id);
  }

  lemma LoadedIsRow(s: State, c: Id, key: Key, id: Id)
    ensures LoadAdministrableKey(s, c, key, id).Pass? ==> id in s.keys && LoadAdministrableKey(s, c, key, id).value == s.keys[id]
  {
    hide KeyVisibility;
  }

  lemma ReachIsKey(env: Env, s: State, c: Id, id: Id)
    requires c in s.keys
    ensures InReach(env, s, c, id) ==> id in s.keys
  {
  }

  /** Each field the payload gives is set, the template cleared by an empty text; every other field and row is as it
      was. */
  predicate EditedAs(s: State, s': State, id: Id, p: UpdateKeyPayload) {
    && s' == s.(keys := s'.keys) && id in s.keys && id in s'.keys && s'.keys == s.keys[id := s'.keys[id]]
    && var was, k := s.keys[id], s'.keys[id];
       && k.name == (if p.name.Some? then p.name.value else was.name)
       && k.boundIps == (if p.boundIps.Some? then p.boundIps else was.boundIps)
       && k.maxJobs == (if p.maxJobs.Some? then p.maxJobs.value else was.maxJobs)
       && k.template == (if p.template == Some("") then None else if p.template.Some? then p.template else was.template)
       && k.canManageKeys == (if p.canManageKeys.Some? then p.canManageKeys.value else was.canManageKeys)
       && k.canManageHooks == (if p.canManageHooks.Some? then p.canManageHooks.value else was.canManageHooks)
       && k.token == was.token && k.signing == was.signing && k.isMaster == was.isMaster && k.parent == was.parent
  }

  // ── Credentials ────────────────────────────────────────────────────────────

  /** Renewing credentials: exactly when it passes, and what becomes of each of the two. */
  lemma RenewExactly(env: Env, s: State, c: Id, id: Id, renewal: Renewal, d: Draw)
    requires c in s.keys
    ensures
      var e := Handle(env, s, c, Renew(id, renewal), d);
      && (e.Pass? <==>
            && AdministersKeys(env, s, c) && InReach(env, s, c, id) && !s.keys[id].isMaster
            && (renewal == TokenOnly || env.canMint))
      && (AdministersKeys(env, s, c) && !InReach(env, s, c, id) ==> e == Stop(NotFound))
      && (e.Pass? ==>
            var s' := Apply(s, WriteOf(e));
            && s' == s.(keys := s'.keys) && id in s'.keys && s'.keys == s.keys[id := s'.keys[id]]
            && s'.keys[id] == s.keys[id].(token := s'.keys[id].token, signing := s'.keys[id].signing)
            && s'.keys[id].token == (if renewal == SecretOnly then s.keys[id].token else d.token)
            && s'.keys[id].signing == (if renewal == TokenOnly then s.keys[id].signing else Some(d.signing))
            && AnswerOf(e) == Credentials(id, if renewal == SecretOnly then None else Some(d.token),
                                          if renewal == TokenOnly then None else Some(d.signing)))
  {
    hide LoadAdministrableKey, InReach;
    ReachExactly(env, s, c, id);
    ReachIsKey(env, s, c, id);
  }

  // ── Deletion ───────────────────────────────────────────────────────────────

  /** `h` is owned by a key of the subtree of `id`. */
  ghost predicate OwnedBelow(s: State, h: Id, id: Id) {
    h in s.hooks && s.hooks[h].owner.Some? && (s.hooks[h].owner.value == id
      || (s.hooks[h].owner.value in s.keys && DescendsFrom(s.keys, s.hooks[h].owner.value, id)))
  }

  lemma OwnedBelowExactly(s: State, id: Id)
    ensures forall h :: h in OwnedHooks(s, Subtree(s.keys, id)) <==> OwnedBelow(s, h, id)
    ensures forall k :: k in s.keys ==> (k in Subtree(s.keys, id) <==> k == id || DescendsFrom(s.keys, k, id))
  {
    hide DescendsFrom;
  }

  /** The caller may delete `id`: it is below it, or anything for the master, but never itself or the master. */
  ghost predicate MayDeleteKey(env: Env, s: State, c: Id, id: Id)
    requires c in s.keys
  {
    AdministersKeys(env, s, c) && id != c && InReach(env, s, c, id) && !s.keys[id].isMaster
  }

  /** Every hook the subtree owns has a resolution, and no other has. */
  ghost predicate ResolvesAll(s: State, id: Id, resolutions: map<Id, Resolution>) {
    forall h :: h in resolutions <==> OwnedBelow(s, h, id)
  }

  /** A hook is handed only to an existing key outside the subtree. */
  ghost predicate HandsOverOutside(s: State, id: Id, resolutions: map<Id, Resolution>) {
    forall h :: h in resolutions && resolutions[h].Reassign? ==>
      var to := resolutions[h].to;
      to in s.keys && to != id && !DescendsFrom(s.keys, to, id)
  }

  /** Deleting a key: exactly when it passes, and what a refusal for want of resolutions lists. */
  lemma DeleteKeyExactly(env: Env, s: State, c: Id, id: Id, resolutions: map<Id, Resolution>, d: Draw)
    requires c in s.keys
    ensures
      var e := Handle(env, s, c, RemoveKey(id, resolutions), d);
      && (e.Pass? <==> MayDeleteKey(env, s, c, id) && ResolvesAll(s, id, resolutions) && HandsOverOutside(s, id, resolutions))
      && (e.Stop? && e.error.Unresolved? <==>
            && MayDeleteKey(env, s, c, id) && (forall h :: h in resolutions ==> OwnedBelow(s, h, id))
            && exists h :: OwnedBelow(s, h, id) && h !in resolutions)
      && (e.Stop? && e.error.Unresolved? ==>
            && (forall h :: h in e.error.inventory <==> OwnedBelow(s, h, id))
            && (forall h :: h in e.error.inventory ==> e.error.inventory[h] == OwnedEntity(s.hooks[h].name, s.hooks[h].owner))
            && (forall k :: k in e.error.subtree <==> k in s.keys && (k == id || DescendsFrom(s.keys, k, id)))
            && (forall k :: k in e.error.subtree ==> e.error.subtree[k] == s.keys[k].name))
  {
    hide LoadAdministrableKey, InReach, Subtree, OwnedHooks, ValidTargets, OwnedBelow, DescendsFrom;
    ReachExactly(env, s, c, id);
    ReachIsKey(env, s, c, id);
    OwnedBelowExactly(s, id);
    var owned := OwnedHooks(s, Subtree(s.keys, id));
    assert resolutions.Keys <= owned <==> forall h :: h in resolutions ==> OwnedBelow(s, h, id);
    assert owned <= resolutions.Keys <==> forall h :: OwnedBelow(s, h, id) ==> h in resolutions;
    TargetsExactly(s, id, resolutions);
    OwnedAreRows(s, Subtree(s.keys, id));
  }

  lemma OwnedAreRows(s: State, owners: set<Id>)
    ensures forall h :: h in OwnedHooks(s, owners) ==> h in s.hooks
  {
  }

  lemma TargetsExactly(s: State, id: Id, resolutions: map<Id, Resolution>)
    ensures ValidTargets(s, Subtree(s.keys, id), resolutions) <==> HandsOverOutside(s, id, resolutions)
  {
    hide Subtree, DescendsFrom;
    OwnedBelowExactly(s, id);
  }

  /** What a passing deletion does to a hook it resolves: the trash, stamped, or a new owner, and nothing else. */
  lemma ResolutionExactly(env: Env, s: State, c: Id, id: Id, resolutions: map<Id, Resolution>, d: Draw, h: Id)
    requires c in s.keys && Handle(env, s, c, RemoveKey(id, resolutions), d).Pass? && h in resolutions
    ensures
      var s' := Apply(s, WriteOf(Handle(env, s, c, RemoveKey(id, resolutions), d)));
      && h in s.hooks && h in s'.hooks
      && s'.hooks[h] == (if resolutions[h].Trash? then
                           s.hooks[h].(isDeleted := true, deletedAt := Some(d.now), deletedBy := Some(c))
                         else s.hooks[h].(owner := Some(resolutions[h].to)))
  {
    hide LoadAdministrableKey, Subtree, Inventory, ValidTargets;
    OwnedAreRows(s, Subtree(s.keys, id));
  }

  // ── Permissions ────────────────────────────────────────────────────────────

  /** The one name the payload gives for the hook: by id or by name, not both. */
  predicate NamesOne(p: GrantPayload, identifier: string) {
    (p.hookId == Some(identifier) && p.hookName == None) || (p.hookId == None && p.hookName == Some(identifier))
  }

  /** No verb the row gives is missing in `bound`. */
  predicate NoMoreThan(row: Row, bound: Row) {
    (row.canExecute ==> bound.canExecute) && (row.canManage ==> bound.canManage)
    && (row.canViewExecution ==> bound.canViewExecution)
  }

  /** The row gives `k` nothing on `h` that it does not hold. */
  predicate OnlyReduces(s: State, k: Id, h: Id, row: Row) {
    row == Row(false, false, false) || ((k, h) in s.rows && NoMoreThan(row, s.rows[(k, h)]))
  }

  /** What below the master it takes to write a row for `id` on `h`. */
  ghost predicate MayWriteRow(env: Env, s: State, c: Id, id: Id, h: Id, row: Row)
    requires c in s.keys && h in s.hooks
  {
    && s.keys[c].canManageKeys && Holds(s, c, h, Manage) && !Privileged(s.hooks[h])
    && (InReach(env, s, c, id) || SharesHook(s, c, id))
    && (OnlyReduces(s, id, h, row) || (id != c && NoMoreThan(row, s.rows[(c, h)])))
  }

  /** Granting: exactly when it passes, and then the target's row on that hook is the payload's, whatever it was, and
      nothing else changes. */
  lemma GrantExactly(env: Env, s: State, c: Id, id: Id, p: GrantPayload, identifier: string, h: Id, d: Draw)
    requires c in s.keys && NamesOne(p, identifier) && ResolveHook(env, s, identifier) == Pass(h)
    ensures
      var e := Handle(env, s, c, PostPermission(id, p), d);
      && (e.Pass? <==> && id in s.keys && !s.keys[id].isMaster
                       && (ActsAsMaster(env, s, c) || MayWriteRow(env, s, c, id, h, p.row)))
      && (e.Pass? ==> Apply(s, WriteOf(e)) == s.(rows := s.rows[(id, h) := p.row]) && AnswerOf(e) == Done)
  {
    hide ResolveHook, KeyVisibility, Privileged, InReach, SharesHook;
    if id in s.keys {
      VisibilityExactly(env, s, c, id);
    }
    if ActsAsMaster(env, s, c) && id in s.keys {
      MasterReaches(env, s, c, id);
    }
    if Holds(s, c, h, Manage) {
      assert ManagesAnyHook(s, c);
    }
  }

  lemma MasterReaches(env: Env, s: State, c: Id, k: Id)
    requires c in s.keys && k in s.keys && ActsAsMaster(env, s, c)
    ensures InReach(env, s, c, k)
  {
  }

  /** Without exactly one name for the hook, or with one that finds none, nothing is granted. */
  lemma GrantNeedsAHook(env: Env, s: State, c: Id, id: Id, p: GrantPayload, d: Draw)
    requires c in s.keys
    ensures Handle(env, s, c, PostPermission(id, p), d).Pass? ==>
              exists identifier :: NamesOne(p, identifier) && ResolveHook(env, s, identifier).Pass?
  {
    hide ResolveHook, KeyVisibility, Privileged, HasPermissionAdminStanding, GuardRowWrite;
    if Handle(env, s, c, PostPermission(id, p), d).Pass? {
      assert NamesOne(p, if p.hookId.Some? then p.hookId.value else p.hookName.value);
    }
  }

  /** Revoking: exactly when it passes, and then that row alone is gone. */
  lemma RevokeExactly(env: Env, s: State, c: Id, id: Id, identifier: string, h: Id, d: Draw)
    requires References(s) && c in s.keys && ResolveHook(env, s, identifier) == Pass(h)
    ensures
      var e := Handle(env, s, c, RemovePermission(id, identifier), d);
      && (e.Pass? <==> && (ActsAsMaster(env, s, c) || (s.keys[c].canManageKeys && Holds(s, c, h, Manage)))
                       && (id, h) in s.rows)
      && (e.Pass? ==> Apply(s, WriteOf(e)) == s.(rows := s.rows - {(id, h)}) && AnswerOf(e) == Done)
  {
    hide ResolveHook;
    if Holds(s, c, h, Manage) {
      assert ManagesAnyHook(s, c);
    }
  }

  // ── The list ───────────────────────────────────────────────────────────────

  /** The rows of `k`, each with the name of its hook. */
  ghost predicate ShowsRows(s: State, k: Id, shown: map<Id, PermissionView>) {
    && (forall h :: h in shown <==> h in s.hooks && (k, h) in s.rows)
    && forall h :: h in shown ==> shown[h] == PermissionView(s.hooks[h].name, s.rows[(k, h)])
  }

  /** The full form of a key: everything but its secrets. */
  ghost predicate ShowsFully(s: State, k: Id, v: KeyView)
    requires k in s.keys
  {
    && v.Full? && v.name == s.keys[k].name && (v.hasSigningSecret <==> s.keys[k].signing.Some?)
    && v.template == s.keys[k].template && v.boundIps == s.keys[k].boundIps && v.maxJobs == s.keys[k].maxJobs
    && v.isMaster == s.keys[k].isMaster && v.canManageKeys == s.keys[k].canManageKeys
    && v.canManageHooks == s.keys[k].canManageHooks && v.parent == s.keys[k].parent && ShowsRows(s, k, v.permissions)
  }

  /** The minimal form: its name, and its rows on the hooks the caller manages. */
  ghost predicate ShowsMinimally(s: State, c: Id, k: Id, v: KeyView)
    requires k in s.keys
  {
    && v.Minimal? && v.name == s.keys[k].name
    && (forall h :: h in v.permissions <==> h in s.hooks && (k, h) in s.rows && Holds(s, c, h, Manage))
    && forall h :: h in v.permissions ==> v.permissions[h] == PermissionView(s.hooks[h].name, s.rows[(k, h)])
  }

  lemma SummaryExactly(s: State, k: Id)
    requires k in s.keys
    ensures ShowsFully(s, k, Summary(s, k))
  {
  }

  lemma MinimalExactly(s: State, c: Id, k: Id)
    requires k in s.keys
    ensures ShowsMinimally(s, c, k, MinimalView(s, k, ManagedHookIds(s, c)))
  {
    forall h: Id ensures h in ManagedHookIds(s, c) <==> Holds(s, c, h, Manage) {
      if Holds(s, c, h, Manage) {
        assert (c, h).0 == c && (c, h).1 == h;
      }
    }
  }

  /** The key list: refused to callers that administer no keys; otherwise exactly the keys in reach, in full, and those
      that share a managed hook, in minimal form. */
  lemma ListKeysExactly(env: Env, s: State, c: Id, d: Draw)
    requires c in s.keys
    ensures
      var answer := AnswerOf(Handle(env, s, c, GetKeys, d));
      && (!AdministersKeys(env, s, c) ==> answer == Failed(Forbidden))
      && (AdministersKeys(env, s, c) ==>
            && answer.KeysListed?
            && (forall k :: k in answer.views <==> k in s.keys && (InReach(env, s, c, k) || SharesHook(s, c, k)))
            && forall k :: k in answer.views ==>
                 if InReach(env, s, c, k) then ShowsFully(s, k, answer.views[k]) else ShowsMinimally(s, c, k, answer.views[k]))
  {
    hide ListedKeys, InReach, SharesHook, ShowsFully, ShowsMinimally, Descendants;
    var views := ListedKeys(s, c, Effective(env, s, c));
    ListedAreRows(s, c, Effective(env, s, c));
    forall k | k in s.keys
      ensures k in views <==> InReach(env, s, c, k) || SharesHook(s, c, k)
      ensures k in views ==>
                if InReach(env, s, c, k) then ShowsFully(s, k, views[k]) else ShowsMinimally(s, c, k, views[k])
    {
      ListedExactly(env, s, c, k);
    }
  }

  lemma ListedAreRows(s: State, c: Id, key: Key)
    ensures forall k :: k in ListedKeys(s, c, key) ==> k in s.keys
  {
    hide Descendants, ManagedHookIds, Summary, MinimalView;
  }

  lemma ListedExactly(env: Env, s: State, c: Id, k: Id)
    requires c in s.keys && k in s.keys
    ensures
      var views := ListedKeys(s, c, Effective(env, s, c));
      && (k in views <==> InReach(env, s, c, k) || SharesHook(s, c, k))
      && (k in views ==> if InReach(env, s, c, k) then ShowsFully(s, k, views[k]) else ShowsMinimally(s, c, k, views[k]))
  {
    hide InReach, SharesHook, ShowsFully, ShowsMinimally, Descendants, Summary, MinimalView, ManagedHookIds;
    var key := Effective(env, s, c);
    var managed := if key.isMaster then {} else ManagedHookIds(s, c);
    var holders := set r | r in s.rows && r.1 in managed :: r.0;
    assert k in holders <==> HoldsRowIn(s, k, managed) by {
      if HoldsRowIn(s, k, managed) {
        var r :| r in s.rows && r.0 == k && r.1 in managed;
      }
    }
    SharingExactly(s, c, k);
    InReachOrBelow(env, s, c, k);
    SummaryExactly(s, k);
    MinimalExactly(s, c, k);
  }

  lemma InReachOrBelow(env: Env, s: State, c: Id, k: Id)
    requires c in s.keys && k in s.keys
    ensures InReach(env, s, c, k) <==> Effective(env, s, c).isMaster || k == c || k in Descendants(s.keys, c)
  {
    hide DescendsFrom;
  }

  /** An edit answers with the full form of the key as it then is. */
  lemma UpdateKeyShows(env: Env, s: State, c: Id, id: Id, p: UpdateKeyPayload, d: Draw)
    requires c in s.keys && Handle(env, s, c, PutKey(id, p), d).Pass?
    ensures
      var e := Handle(env, s, c, PutKey(id, p), d);
      var s' := Apply(s, WriteOf(e));
      id in s'.keys && AnswerOf(e).KeyShown? && ShowsFully(s', id, AnswerOf(e).view)
  {
    hide LoadAdministrableKey, Summary, ShowsFully, ValidateBoundIps, ValidateConcurrency, Replaced;
    var e := Handle(env, s, c, PutKey(id, p), d);
    SummaryExactly(Apply(s, WriteOf(e)), id);
  }
}
