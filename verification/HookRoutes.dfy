/** The hook routes: definition, editing, trash, restoration, purging and the parameter contract. */
module HookRoutes {
  import opened Text
  import ArgsTemplate
  import opened Rbac
  import opened Guards
  import opened Hooks

  datatype ParamInput = ParamInput(key: string, description: Option<string>, defaultValue: Option<string>, required: Option<bool>)

  datatype CreateHookPayload = CreateHookPayload(
    name: string, description: Option<string>, scriptPath: string, timeout: Option<int>, runAsUser: Option<string>,
    parameters: Option<seq<ParamInput>>, authMode: Option<AuthMode>, hmacSecret: Option<string>,
    signatureHeader: Option<string>, signaturePrefix: Option<string>, canonicalTemplate: Option<string>,
    samplePayload: Option<string>, argsTemplate: Option<string>)

  datatype UpdateHookPayload = UpdateHookPayload(
    name: Option<string>, description: Option<string>, scriptPath: Option<string>, timeout: Option<int>,
    runAsUser: Option<string>, owner: Option<Id>, authMode: Option<AuthMode>, hmacSecret: Option<string>,
    signatureHeader: Option<string>, signaturePrefix: Option<string>, canonicalTemplate: Option<string>,
    samplePayload: Option<string>, argsTemplate: Option<string>)

  datatype UpdateParamPayload = UpdateParamPayload(
    description: Option<string>, defaultValue: Option<string>, required: Option<bool>)

  // ── Validators ─────────────────────────────────────────────────────────────

  predicate ValidTimeout(seconds: int) {
    0 < seconds <= 86_400
  }

  /** `validate_and_seal_hmac_secret` */
  function SealHmacSecret(env: Env, mode: AuthMode, payload: Option<string>, existing: Option<string>): Checked<Option<string>> {
    if payload == Some("") then
      if mode == HmacOnly then Stop(InvalidInput) else Pass(None)
    else if payload.Some? then
      if env.seal(payload.value).None? then Stop(Internal) else Pass(env.seal(payload.value))
    else if mode == HmacOnly && existing.None? then Stop(InvalidInput)
    else Pass(existing)
  }

  /** `validate_sample_payload_matches_parameters` */
  predicate ValidSamplePayload(env: Env, sample: Option<string>, declared: set<string>) {
    NonEmpty(sample).Some? ==>
      var members := env.jsonObject(sample.value);
      members.Some? && declared <= members.value
  }

  // ── Definition ─────────────────────────────────────────────────────────────

  /** The longest prefix without a repeated key: the inserts that succeed before the first duplicate. */
  function DistinctPrefix(declared: seq<ParamInput>): (n: nat)
    ensures n <= |declared|
  {
    if declared == [] then 0
    else
      var last := |declared| - 1;
      var n := DistinctPrefix(declared[..last]);
      if n == last && declared[last].key !in KeySet(declared[..last]) then n + 1 else n
  }

  function KeySet(declared: seq<ParamInput>): set<string> {
    set i | 0 <= i < |declared| :: declared[i].key
  }

  function NewParam(hook: Id, input: ParamInput): Param {
    Param(hook, input.key, input.description, input.defaultValue, Or(input.required, true))
  }

  /** The parameter rows inserted for a new hook. */
  function InsertedParams(hook: Id, declared: seq<ParamInput>, ids: nat -> Id, n: nat): map<Id, Param>
    requires n <= |declared|
  {
    if n == 0 then map[]
    else InsertedParams(hook, declared, ids, n - 1)[ids(n - 1) := NewParam(hook, declared[n - 1])]
  }

  predicate NameTaken(s: State, name: string, except: Option<Id>) {
    exists h :: h in s.hooks && Some(h) != except && s.hooks[h].name == name
  }

  /** `create_hook`. The inserts are separate statements: when a parameter key repeats, the answer is a conflict
      but the hook and the parameters before the repetition stay, without a permission row. */
  function CreateHook(env: Env, s: State, c: Id, p: CreateHookPayload, d: Draw): Checked<Effect>
    requires c in s.keys
  {
    var key := Effective(env, s, c);
    :- Require(key.isMaster || key.canManageHooks, Forbidden);
    var runAsUser :- NormalizeRunAsUser(env, key, p.runAsUser);
    var name := Trim(p.name);
    :- Require(name != "", InvalidInput);
    :- Require(env.scriptPathOk(p.scriptPath), InvalidInput);
    :- Require(ValidTimeout(Or(p.timeout, 30)), InvalidInput);
    var declared := Or(p.parameters, []);
    :- Require(forall i :: 0 <= i < |declared| ==> IsIdentifier(declared[i].key), InvalidInput);
    var mode := Or(p.authMode, CanonicalV1);
    var secret :- SealHmacSecret(env, mode, p.hmacSecret, None);
    :- Require(ValidSamplePayload(env, p.samplePayload, KeySet(declared)), InvalidInput);
    :- Require(ArgsTemplate.ValidArgsTemplate(p.argsTemplate, KeySet(declared)), InvalidInput);
    :- Require(!NameTaken(s, name, None), Conflict);
    var created := Hook(name, p.description, p.scriptPath, Or(p.timeout, 30), runAsUser, Some(c), false, None, None, mode,
                        secret, NonEmpty(p.signatureHeader), NonEmpty(p.signaturePrefix), NonEmpty(p.canonicalTemplate),
                        NonEmpty(p.samplePayload), NonEmpty(p.argsTemplate));
    var n := DistinctPrefix(declared);
    var complete := n == |declared|;
    var write := InsertHook(d.id, created, InsertedParams(d.id, declared, d.paramIds, n), if complete then Some(c) else None);
    Pass(Effect(write, if complete then HookShown(d.id, Detail(Apply(s, write), c, key, d.id)) else Failed(Conflict)))
  }

  predicate EditsDispatch(p: UpdateHookPayload) {
    p.scriptPath.Some? || p.runAsUser.Some? || p.argsTemplate.Some?
  }

  /** The row after the payload's fields are set: a field the payload leaves out keeps its value. */
  function Edited(hook: Hook, p: UpdateHookPayload, runAsUser: Option<string>, secret: Option<string>): Hook {
    EditedSigning(EditedGeneral(hook, p, runAsUser), p, secret)
  }

  function EditedGeneral(hook: Hook, p: UpdateHookPayload, runAsUser: Option<string>): Hook {
    hook.(
      name := if p.name.Some? then Trim(p.name.value) else hook.name,
      owner := if p.owner.Some? then p.owner else hook.owner,
      description := if p.description.Some? then p.description else hook.description,
      scriptPath := Or(p.scriptPath, hook.scriptPath),
      timeout := Or(p.timeout, hook.timeout),
      runAsUser := if p.runAsUser.Some? then runAsUser else hook.runAsUser)
  }

  function EditedSigning(hook: Hook, p: UpdateHookPayload, secret: Option<string>): Hook {
    hook.(
      authMode := Or(p.authMode, hook.authMode),
      hmacSecret := secret,
      signatureHeader := Replaced(p.signatureHeader, hook.signatureHeader),
      signaturePrefix := Replaced(p.signaturePrefix, hook.signaturePrefix),
      canonicalTemplate := Replaced(p.canonicalTemplate, hook.canonicalTemplate),
      samplePayload := Replaced(p.samplePayload, hook.samplePayload),
      argsTemplate := Replaced(p.argsTemplate, hook.argsTemplate))
  }

  /** Who may make an edit: the guards of `update_hook`, up to the owner it names. */
  ghost function MayEdit(env: Env, s: State, c: Id, identifier: string, p: UpdateHookPayload): (r: Checked<(Id, Option<string>)>)
    requires c in s.keys
    ensures r.Pass? ==> r.value.0 in s.hooks
  {
    var key := Effective(env, s, c);
    var h :- ResolveHook(env, s, identifier);
    var hook := s.hooks[h];
    :- GuardManage(s, c, key, h);
    :- if EditsDispatch(p) then GuardDispatchConfiguration(s, c, key, h) else Allow;
    :- GuardMasterForPrivilegedHook(key, hook);
    var runAsUser :- NormalizeRunAsUser(env, key, p.runAsUser);
    :- if p.name.Some? then GuardLifecycleAuthority(c, key, hook) else Allow;
    :- Require(p.owner.None? || key.isMaster, Forbidden);
    :- Require(p.owner.None? || p.owner.value in s.keys, InvalidInput);
    Pass((h, runAsUser))
  }

  /** `update_hook` */
  ghost function UpdateHook(env: Env, s: State, c: Id, identifier: string, p: UpdateHookPayload): Checked<Effect>
    requires c in s.keys
  {
    var editor :- MayEdit(env, s, c, identifier, p);
    var (h, runAsUser) := editor;
    var hook := s.hooks[h];
    :- Require(p.scriptPath.None? || env.scriptPathOk(p.scriptPath.value), InvalidInput);
    :- Require(p.timeout.None? || ValidTimeout(p.timeout.value), InvalidInput);
    var secret :- SealHmacSecret(env, Or(p.authMode, hook.authMode), p.hmacSecret, hook.hmacSecret);
    var edited := Edited(hook, p, runAsUser, secret);
    var declared := ParamKeys(ParamsOf(s, h));
    :- Require(ValidSamplePayload(env, edited.samplePayload, declared), InvalidInput);
    :- Require(ArgsTemplate.ValidArgsTemplate(edited.argsTemplate, declared), InvalidInput);
    :- Require(p.name.None? || edited.name != "", InvalidInput);
    :- Require(!NameTaken(s, edited.name, Some(h)), Conflict);
    var write := SetHook(h, edited);
    Pass(Effect(write, HookShown(h, Detail(Apply(s, write), c, Effective(env, s, c), h))))
  }

  // ── Reading ────────────────────────────────────────────────────────────────

  /** `get_hook` */
  ghost function GetHook(env: Env, s: State, c: Id, identifier: string, includeDeleted: bool): Checked<Effect>
    requires c in s.keys
  {
    var key := Effective(env, s, c);
    :- GuardMasterForDeletedView(key, includeDeleted);
    var h :- if includeDeleted then FindHook(env, s, identifier) else ResolveHook(env, s, identifier);
    :- GuardVisibility(s, c, key, h);
    Pass(Effect(Nothing, HookShown(h, Detail(s, c, key, h))))
  }

  /** `list_hooks` */
  function ListHooks(env: Env, s: State, c: Id, includeDeleted: bool): Checked<Effect>
    requires c in s.keys
  {
    var key := Effective(env, s, c);
    :- GuardMasterForDeletedView(key, includeDeleted);
    var visible := VisibleHookIds(s, c, key);
    Pass(Effect(Nothing, HooksListed(
      map h | h in s.hooks && (includeDeleted || !s.hooks[h].isDeleted) && (visible.None? || h in visible.value) ::
        Detail(s, c, key, h))))
  }

  // ── Trash ──────────────────────────────────────────────────────────────────

  /** `delete_hook` */
  ghost function DeleteHook(env: Env, s: State, c: Id, identifier: string, hard: bool, d: Draw): Checked<Effect>
    requires c in s.keys
  {
    var key := Effective(env, s, c);
    var h :- if hard then FindHook(env, s, identifier) else ResolveHook(env, s, identifier);
    var hook := s.hooks[h];
    :- GuardManage(s, c, key, h);
    :- GuardLifecycleAuthority(c, key, hook);
    :- GuardMasterForPrivilegedHook(key, hook);
    :- Require(!hard || key.isMaster, Forbidden);
    Pass(Effect(
      if hard then RemoveHooks({h})
      else SetHook(h, hook.(isDeleted := true, deletedAt := Some(d.now), deletedBy := Some(c))),
      Done))
  }

  /** `restore_hook` */
  ghost function RestoreHook(env: Env, s: State, c: Id, identifier: string): Checked<Effect>
    requires c in s.keys
  {
    var key := Effective(env, s, c);
    :- Require(key.isMaster, Forbidden);
    var h :- FindHook(env, s, identifier);
    :- Require(s.hooks[h].isDeleted, InvalidInput);
    var write := SetHook(h, s.hooks[h].(isDeleted := false, deletedAt := None, deletedBy := None));
    Pass(Effect(write, HookShown(h, Detail(Apply(s, write), c, key, h))))
  }

  /** `purge_expired_deleted_hooks`, which a window of zero days disables. */
  function ExpiredHooks(s: State, now: int, days: int): set<Id> {
    set h | h in s.hooks && days > 0 && s.hooks[h].isDeleted && s.hooks[h].deletedAt.Some?
            && s.hooks[h].deletedAt.value < now - days * 86_400
  }

  /** `purge_deleted_hooks` */
  function PurgeHooks(env: Env, s: State, c: Id, days: Option<int>, d: Draw): Checked<Effect>
    requires c in s.keys
  {
    var key := Effective(env, s, c);
    :- Require(key.isMaster, Forbidden);
    :- Require(Or(days, env.trashRetentionDays) >= 0, InvalidInput);
    var gone := ExpiredHooks(s, d.now, Or(days, env.trashRetentionDays));
    Pass(Effect(RemoveHooks(gone), Purged(|gone|)))
  }

  // ── Parameters ─────────────────────────────────────────────────────────────

  /** `list_hook_parameters` */
  ghost function ListParams(env: Env, s: State, c: Id, identifier: string): Checked<Effect>
    requires c in s.keys
  {
    var h :- ResolveHook(env, s, identifier);
    :- GuardVisibility(s, c, Effective(env, s, c), h);
    Pass(Effect(Nothing, ParamsListed(ParamsOf(s, h))))
  }

  /** The gate of the three parameter routes that write. */
  ghost function ParamGate(env: Env, s: State, c: Id, identifier: string): (r: Checked<Id>)
    requires c in s.keys
    ensures r.Pass? ==> r.value in s.hooks
  {
    var key := Effective(env, s, c);
    var h :- ResolveHook(env, s, identifier);
    :- GuardManage(s, c, key, h);
    :- GuardMasterForPrivilegedHook(key, s.hooks[h]);
    Pass(h)
  }

  /** `create_hook_parameter` */
  ghost function CreateParam(env: Env, s: State, c: Id, identifier: string, p: ParamInput, d: Draw): Checked<Effect>
    requires c in s.keys
  {
    var h :- ParamGate(env, s, c, identifier);
    :- Require(IsIdentifier(p.key), InvalidInput);
    :- Require(p.key !in ParamKeys(ParamsOf(s, h)), Conflict);
    Pass(Effect(SetParam(d.id, NewParam(h, p)), ParamShown(d.id, NewParam(h, p))))
  }

  /** `update_hook_parameter` */
  ghost function UpdateParam(env: Env, s: State, c: Id, identifier: string, id: Id, p: UpdateParamPayload): Checked<Effect>
    requires c in s.keys
  {
    var h :- ParamGate(env, s, c, identifier);
    :- Require(id in ParamsOf(s, h), NotFound);
    var param := s.params[id];
    var updated := param.(
      description := if p.description.Some? then p.description else param.description,
      defaultValue := if p.defaultValue.Some? then p.defaultValue else param.defaultValue,
      required := Or(p.required, param.required));
    Pass(Effect(SetParam(id, updated), ParamShown(id, updated)))
  }

  /** `delete_hook_parameter` */
  ghost function DeleteParam(env: Env, s: State, c: Id, identifier: string, id: Id): Checked<Effect>
    requires c in s.keys
  {
    var h :- ParamGate(env, s, c, identifier);
    :- Require(id in ParamsOf(s, h), NotFound);
    Pass(Effect(DropParam(id), Done))
  }
}
