/** The key routes: creation, editing, deletion of whole subtrees, credentials, permission grants and listing. */
module KeyRoutes {
  import opened Text
  import opened Rbac
  import opened Guards
  import opened Lineage
  import opened Hooks

  datatype Visibility = Hidden | MinimalForm | FullForm

  datatype CreateKeyPayload = CreateKeyPayload(
    name: string, boundIps: Option<string>, maxJobs: Option<int>, template: Option<string>,
    canManageKeys: Option<bool>, canManageHooks: Option<bool>, generateSecret: Option<bool>)

  datatype UpdateKeyPayload = UpdateKeyPayload(
    name: Option<string>, boundIps: Option<string>, maxJobs: Option<int>, template: Option<string>,
    canManageKeys: Option<bool>, canManageHooks: Option<bool>)

  datatype GrantPayload = GrantPayload(hookId: Option<string>, hookName: Option<string>, row: Row)

  // ── Visibility ─────────────────────────────────────────────────────────────

  /** `managed_hook_ids` */
  function ManagedHookIds(s: State, c: Id): set<Id> {
    set r | r in s.rows && r.0 == c && s.rows[r].canManage :: r.1
  }

  predicate HoldsRowIn(s: State, k: Id, hooks: set<Id>) {
    exists r :: r in s.rows && r.0 == k && r.1 in hooks
  }

  /** `key_visibility` */
  ghost function KeyVisibility(s: State, c: Id, key: Key, target: Id): Visibility {
    if key.isMaster || c == target then FullForm
    else if target in Descendants(s.keys, c) then FullForm
    else if HoldsRowIn(s, target, ManagedHookIds(s, c)) then MinimalForm
    else Hidden
  }

  /** `load_administrable_key` */
  ghost function LoadAdministrableKey(s: State, c: Id, key: Key, id: Id): Checked<Key> {
    if id !in s.keys || KeyVisibility(s, c, key, id) != FullForm then Stop(NotFound) else Pass(s.keys[id])
  }

  // ── Views ──────────────────────────────────────────────────────────────────

  /** `load_hook_permissions` */
  function PermissionsOf(s: State, k: Id): map<Id, PermissionView> {
    map h | h in s.hooks && (k, h) in s.rows :: PermissionView(s.hooks[h].name, s.rows[(k, h)])
  }

  /** `build_api_key_summary` */
  function Summary(s: State, k: Id): KeyView
    requires k in s.keys
  {
    var key := s.keys[k];
    Full(key.name, key.signing.Some?, key.template, key.boundIps, key.maxJobs, key.isMaster, key.canManageKeys,
         key.canManageHooks, key.parent, PermissionsOf(s, k))
  }

  /** `build_minimal_api_key_view` */
  function MinimalView(s: State, k: Id, shared: set<Id>): KeyView
    requires k in s.keys
  {
    Minimal(s.keys[k].name, map h | h in PermissionsOf(s, k) && h in shared :: PermissionsOf(s, k)[h])
  }

  // ── Routes ─────────────────────────────────────────────────────────────────

  function ValidateConcurrency(jobs: int): Verdict {
    Require(1 <= jobs <= 1_000, InvalidInput)
  }

  function ValidateBoundIps(env: Env, boundIps: Option<string>): Verdict {
    Require(boundIps.None? || env.cidrsOk(boundIps.value), InvalidInput)
  }

  function CreateKey(env: Env, s: State, c: Id, p: CreateKeyPayload, d: Draw): Checked<Effect>
    requires c in s.keys
  {
    var key := Effective(env, s, c);
    :- GuardKeyManagement(key);
    :- GuardMasterToGrantScopes(key, p.canManageKeys, p.canManageHooks);
    var wantsPair := Or(p.generateSecret, true);
    var managesKeys := Or(p.canManageKeys, false);
    :- Require(!managesKeys || wantsPair, InvalidInput);
    :- GuardTemplateForKeyManagement(managesKeys, NonEmpty(p.template));
    :- ValidateBoundIps(env, p.boundIps);
    :- ValidateConcurrency(Or(p.maxJobs, 10));
    :- Require(!wantsPair || env.canMint, Internal);
    var signing := if wantsPair then Some(d.signing) else None;
    var created := Key(p.name, d.token, signing, NonEmpty(p.template), p.boundIps, Or(p.maxJobs, 10), false, managesKeys,
                       Or(p.canManageHooks, false), Some(c));
    Pass(Effect(InsertKey(d.id, created), KeyCreated(d.id, d.token, signing)))
  }

  /** `guard_master_self_edit_is_bound_ips_only` */
  function GuardMasterSelfEdit(c: Id, id: Id, target: Key, p: UpdateKeyPayload): Verdict {
    Require(
      || !target.isMaster
      || (c == id && p.name.None? && p.maxJobs.None? && p.canManageKeys.None? && p.template.None? && p.canManageHooks.None?),
      Forbidden)
  }

  ghost function UpdateKey(env: Env, s: State, c: Id, id: Id, p: UpdateKeyPayload): Checked<Effect>
    requires c in s.keys
  {
    var key := Effective(env, s, c);
    :- GuardKeyManagement(key);
    var target :- LoadAdministrableKey(s, c, key, id);
    :- GuardMasterToAdminister(key, target);
    :- GuardMasterSelfEdit(c, id, target, p);
    :- GuardMasterToGrantScopes(key, p.canManageKeys, p.canManageHooks);
    :- GuardTemplateForKeyManagement(Or(p.canManageKeys, target.canManageKeys), Replaced(p.template, target.template));
    :- ValidateBoundIps(env, p.boundIps);
    :- Require(p.maxJobs.None? || ValidateConcurrency(p.maxJobs.value).Allow?, InvalidInput);
    var write := SetKey(id, target.(
      name := Or(p.name, target.name),
      boundIps := if p.boundIps.Some? then p.boundIps else target.boundIps,
      maxJobs := Or(p.maxJobs, target.maxJobs),
      template := Replaced(p.template, target.template),
      canManageKeys := Or(p.canManageKeys, target.canManageKeys),
      canManageHooks := Or(p.canManageHooks, target.canManageHooks)));
    Pass(Effect(write, KeyShown(Summary(Apply(s, write), id))))
  }

  /** The refusal that lists what the subtree owns. */
  function Inventory(s: State, subtree: set<Id>): Error {
    Unresolved(map k | k in s.keys && k in subtree :: s.keys[k].name,
               map h | h in OwnedHooks(s, subtree) :: OwnedEntity(s.hooks[h].name, s.hooks[h].owner))
  }

  /** A hook may go to any existing key outside the subtree being deleted. */
  predicate ValidTargets(s: State, subtree: set<Id>, resolutions: map<Id, Resolution>) {
    forall h :: h in resolutions && resolutions[h].Reassign? ==> resolutions[h].to !in subtree && resolutions[h].to in s.keys
  }

  ghost function DeleteKey(env: Env, s: State, c: Id, id: Id, resolutions: map<Id, Resolution>, d: Draw): Checked<Effect>
    requires c in s.keys
  {
    var key := Effective(env, s, c);
    :- GuardKeyManagement(key);
    :- Require(id != c, Forbidden);
    var target :- LoadAdministrableKey(s, c, key, id);
    :- GuardMasterToAdminister(key, target);
    :- RefuseMasterLifecycleAction(target);
    var subtree := Subtree(s.keys, id);
    var inventory := OwnedHooks(s, subtree);
    :- Require(resolutions.Keys <= inventory, InvalidInput);
    :- Require(inventory <= resolutions.Keys, Inventory(s, subtree));
    :- Require(ValidTargets(s, subtree, resolutions), InvalidInput);
    Pass(Effect(RemoveKeys(subtree, resolutions, c, d.now), Done))
  }

  datatype Renewal = Both | TokenOnly | SecretOnly

  /** `rotate_api_key`, `regenerate_key` and `regenerate_secret` */
  ghost function RenewCredentials(env: Env, s: State, c: Id, id: Id, renewal: Renewal, d: Draw): Checked<Effect>
    requires c in s.keys
  {
    var key := Effective(env, s, c);
    :- GuardKeyManagement(key);
    var target :- LoadAdministrableKey(s, c, key, id);
    :- GuardMasterToAdminister(key, target);
    :- RefuseMasterLifecycleAction(target);
    :- Require(renewal.TokenOnly? || env.canMint, Internal);
    var token := if renewal.SecretOnly? then None else Some(d.token);
    var signing := if renewal.TokenOnly? then None else Some(d.signing);
    Pass(Effect(SetKey(id, target.(token := Or(token, target.token),
                                   signing := if signing.Some? then signing else target.signing)),
                Credentials(id, token, signing)))
  }

  /** Exactly one of the two ways to name the hook. */
  function GrantIdentifier(p: GrantPayload): Checked<string> {
    if p.hookId.Some? == p.hookName.Some? then Stop(InvalidInput)
    else if p.hookId.Some? then Pass(p.hookId.value)
    else Pass(p.hookName.value)
  }

  /** What a caller below the master must show before writing a row: R2 for a reduction, R1 and R2 for a grant,
      and never a grant to itself. */
  function GuardRowWrite(s: State, c: Id, key: Key, id: Id, hook: Id, row: Row): Verdict
    requires hook in s.hooks
  {
    if key.isMaster then Allow
    else if IsPermissionReduction(HeldRow(s, id, hook), row) then Passes(GuardManageConjunction(s, c, key, hook))
    else if id == c then Deny(Forbidden)
    else GuardDelegatedGrant(s, c, key, hook, row)
  }

  /** `update_key_hook_permissions` */
  ghost function Grant(env: Env, s: State, c: Id, id: Id, p: GrantPayload): Checked<Effect>
    requires c in s.keys
  {
    var key := Effective(env, s, c);
    :- Require(HasPermissionAdminStanding(s, c, key), Forbidden);
    :- Require(id in s.keys, NotFound);
    :- Require(KeyVisibility(s, c, key, id) != Hidden, NotFound);
    :- Require(!s.keys[id].isMaster, InvalidInput);
    var identifier :- GrantIdentifier(p);
    var hook :- ResolveHook(env, s, identifier);
    :- GuardRowWrite(s, c, key, id, hook, p.row);
    :- GuardMasterForPrivilegedHook(key, s.hooks[hook]);
    Pass(Effect(PutRow(id, hook, p.row), Done))
  }

  /** `revoke_key_hook_permission` */
  ghost function Revoke(env: Env, s: State, c: Id, id: Id, identifier: string): Checked<Effect>
    requires c in s.keys
  {
    var key := Effective(env, s, c);
    :- Require(HasPermissionAdminStanding(s, c, key), Forbidden);
    var hook :- ResolveHook(env, s, identifier);
    :- GuardDispatchConfiguration(s, c, key, hook);
    :- Require((id, hook) in s.rows, NotFound);
    Pass(Effect(DropRow(id, hook), if id in s.keys then Done else Failed(NotFound)))
  }

  /** `list_api_keys`: one query each for the subtree, the managed hooks and the holders of rows on them. */
  ghost function ListedKeys(s: State, c: Id, key: Key): map<Id, KeyView> {
    var subtree := if key.isMaster then {} else Descendants(s.keys, c);
    var managed := if key.isMaster then {} else ManagedHookIds(s, c);
    var holders := set r | r in s.rows && r.1 in managed :: r.0;
    map k | k in s.keys && (key.isMaster || k == c || k in subtree || k in holders) ::
      if key.isMaster || k == c || k in subtree then Summary(s, k) else MinimalView(s, k, managed)
  }

  ghost function ListKeys(env: Env, s: State, c: Id): Checked<Effect>
    requires c in s.keys
  {
    var key := Effective(env, s, c);
    :- GuardKeyManagement(key);
    Pass(Effect(Nothing, KeysListed(ListedKeys(s, c, key))))
  }
}
