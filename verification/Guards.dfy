/** The authorization decisions. A guard answers whether the caller `c`, holding `key`, may act; none writes. */
module Guards {
  import opened Text
  import opened Rbac

  // ── Hooks ──────────────────────────────────────────────────────────────────

  /** `guard_master_for_deleted_view` */
  function GuardMasterForDeletedView(key: Key, includeDeleted: bool): Verdict {
    Require(!includeDeleted || key.isMaster, Forbidden)
  }

  /** `verb_denied`: holding no row at all is being outside the hook's visibility. */
  function VerbDenied(held: Option<Row>): Error {
    if held.Some? then Forbidden else NotFound
  }

  /** `guard_execute` */
  function GuardExecute(s: State, c: Id, key: Key, hook: Id): Verdict {
    var held := HeldRow(s, c, hook);
    Require(key.isMaster || (held.Some? && held.value.canExecute), VerbDenied(held))
  }

  /** `guard_hook_manage_conjunction`: managing keys and a managing row, both. */
  function GuardManageConjunction(s: State, c: Id, key: Key, hook: Id): Checked<Row> {
    var held := HeldRow(s, c, hook);
    if held.None? then Stop(NotFound)
    else if !key.canManageKeys || !held.value.canManage then Stop(Forbidden)
    else Pass(held.value)
  }

  function Passes<T>(r: Checked<T>): Verdict {
    if r.Pass? then Allow else Deny(r.error)
  }

  /** `guard_manage`: the master, the owner, or the conjunction. */
  function GuardManage(s: State, c: Id, key: Key, hook: Id): Verdict
    requires hook in s.hooks
  {
    if key.isMaster || s.hooks[hook].owner == Some(c) then Allow else Passes(GuardManageConjunction(s, c, key, hook))
  }

  /** `guard_dispatch_configuration`: the conjunction, with no exception for the owner. */
  function GuardDispatchConfiguration(s: State, c: Id, key: Key, hook: Id): Verdict {
    if key.isMaster then Allow else Passes(GuardManageConjunction(s, c, key, hook))
  }

  /** `guard_visibility` */
  function GuardVisibility(s: State, c: Id, key: Key, hook: Id): Verdict
    requires hook in s.hooks
  {
    var held := HeldRow(s, c, hook);
    Require(
      || key.isMaster
      || s.hooks[hook].owner == Some(c)
      || (held.Some? && (held.value.canExecute || held.value.canManage || held.value.canViewExecution)),
      NotFound)
  }

  /** `guard_lifecycle_authority` */
  function GuardLifecycleAuthority(c: Id, key: Key, hook: Hook): Verdict {
    Require(key.isMaster || hook.owner == Some(c), Forbidden)
  }

  predicate Privileged(hook: Hook) {
    EffectiveRunAsUser(hook.runAsUser).Some?
  }

  /** `guard_master_for_privileged_hook` */
  function GuardMasterForPrivilegedHook(key: Key, hook: Hook): Verdict {
    Require(key.isMaster || !Privileged(hook), Forbidden)
  }

  /** `normalize_run_as_user` */
  function NormalizeRunAsUser(env: Env, key: Key, runAsUser: Option<string>): Checked<Option<string>> {
    var user := EffectiveRunAsUser(runAsUser);
    if user.None? then Pass(None)
    else if !key.isMaster then Stop(Forbidden)
    else if !env.accountOk(user.value) then Stop(InvalidInput)
    else Pass(user)
  }

  /** `visible_hook_ids`: `None` is every hook. */
  function VisibleHookIds(s: State, c: Id, key: Key): Option<set<Id>> {
    if key.isMaster then None
    else Some((set r | r in s.rows && r.0 == c && s.rows[r] != Row(false, false, false) :: r.1) + OwnedHooks(s, {c}))
  }

  function OwnedHooks(s: State, owners: set<Id>): set<Id> {
    set h | h in s.hooks && s.hooks[h].owner.Some? && s.hooks[h].owner.value in owners
  }

  // ── Execution records ──────────────────────────────────────────────────────

  /** `may_read_execution` */
  predicate MayReadExecution(s: State, c: Id, key: Key, x: Execution) {
    var held := HeldRow(s, c, x.hook);
    || key.isMaster
    || x.author == Some(c)
    || (x.hook in s.hooks && s.hooks[x.hook].owner == Some(c))
    || (held.Some? && (held.value.canViewExecution || held.value.canManage))
  }

  /** `execution_visible_hook_ids` */
  function ExecutionVisibleHookIds(s: State, c: Id): set<Id> {
    OwnedHooks(s, {c})
    + (set r | r in s.rows && r.0 == c && (s.rows[r].canViewExecution || s.rows[r].canManage) :: r.1)
  }

  // ── Keys ───────────────────────────────────────────────────────────────────

  /** The gate of every key route. */
  function GuardKeyManagement(key: Key): Verdict {
    Require(key.isMaster || key.canManageKeys, Forbidden)
  }

  /** `guard_master_to_grant_scopes` */
  function GuardMasterToGrantScopes(key: Key, canManageKeys: Option<bool>, canManageHooks: Option<bool>): Verdict {
    Require(key.isMaster || (canManageKeys != Some(true) && canManageHooks != Some(true)), Forbidden)
  }

  /** `guard_canonical_v1_for_key_management` */
  function GuardTemplateForKeyManagement(canManageKeys: bool, template: Option<string>): Verdict {
    Require(!canManageKeys || NonEmpty(template).None?, InvalidInput)
  }

  /** `guard_master_to_administer` */
  function GuardMasterToAdminister(key: Key, target: Key): Verdict {
    Require(!target.isMaster || key.isMaster, Forbidden)
  }

  /** `refuse_master_lifecycle_action` */
  function RefuseMasterLifecycleAction(target: Key): Verdict {
    Require(!target.isMaster, Forbidden)
  }

  /** `manages_any_hook` */
  ghost predicate ManagesAnyHook(s: State, c: Id) {
    exists h :: Holds(s, c, h, Manage)
  }

  /** `has_permission_admin_standing` */
  ghost predicate HasPermissionAdminStanding(s: State, c: Id, key: Key) {
    key.isMaster || (key.canManageKeys && ManagesAnyHook(s, c))
  }

  /** `is_permission_reduction`: no verb is requested that the target does not hold. */
  predicate IsPermissionReduction(existing: Option<Row>, requested: Row) {
    var had := if existing.Some? then existing.value else Row(false, false, false);
    && !(requested.canExecute && !had.canExecute)
    && !(requested.canManage && !had.canManage)
    && !(requested.canViewExecution && !had.canViewExecution)
  }

  /** `guard_delegated_hook_grant`: the conjunction, and no verb the caller does not hold itself. */
  function GuardDelegatedGrant(s: State, c: Id, key: Key, hook: Id, requested: Row): Verdict {
    if key.isMaster then Allow
    else
      var held := GuardManageConjunction(s, c, key, hook);
      if held.Stop? then Deny(held.error)
      else
        Require(
          && !(requested.canExecute && !held.value.canExecute)
          && !(requested.canManage && !held.value.canManage)
          && !(requested.canViewExecution && !held.value.canViewExecution),
          Forbidden)
  }
}
