/** Finding hooks and describing them, shared by every route that names one. */
module Hooks {
  import opened Text
  import opened Rbac

  ghost predicate NamesHook(s: State, identifier: string, h: Id) {
    h in s.hooks && s.hooks[h].name == identifier
  }

  /** `resolve_hook_including_deleted`: by id when the text is one and names a row, else by name. */
  ghost function FindHook(env: Env, s: State, identifier: string): (r: Checked<Id>)
    ensures r.Pass? ==> r.value in s.hooks
    ensures r.Stop? ==> r.error == NotFound
  {
    var id := env.parseId(identifier);
    if id.Some? && id.value in s.hooks then Pass(id.value)
    else if exists h :: NamesHook(s, identifier, h) then
      var h :| NamesHook(s, identifier, h);
      Pass(h)
    else Stop(NotFound)
  }

  /** `resolve_hook`: a hook in the trash is not found. */
  ghost function ResolveHook(env: Env, s: State, identifier: string): (r: Checked<Id>)
    ensures r.Pass? ==> r.value in s.hooks && !s.hooks[r.value].isDeleted
    ensures r.Stop? ==> r.error == NotFound
  {
    var found := FindHook(env, s, identifier);
    if found.Pass? && s.hooks[found.value].isDeleted then Stop(NotFound) else found
  }

  /** `build_hook_detail` */
  function Detail(s: State, c: Id, key: Key, h: Id): HookDetail
    requires h in s.hooks
  {
    var hook := s.hooks[h];
    var held := Or(HeldRow(s, c, h), Row(false, false, false));
    HookDetail(hook.(hmacSecret := None), hook.hmacSecret.Some?, key.isMaster || hook.owner == Some(c), ParamsOf(s, h),
               key.isMaster || held.canExecute, key.isMaster || held.canManage)
  }
}
