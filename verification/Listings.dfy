/** Lists are computed from a few batched queries; single reads ask a guard. Both give the same answers. */
module Listings {
  import opened Text
  import opened Rbac
  import opened Guards
  import opened Lineage
  import opened Hooks
  import opened KeyRoutes
  import opened HookRoutes
  import opened ExecutionRoutes

  /** The key list shows exactly the keys `key_visibility` does not hide, each in the form it gives. */
  lemma KeyListIsPointwise(s: State, c: Id, key: Key, k: Id)
    requires k in s.keys
    ensures k in ListedKeys(s, c, key) <==> KeyVisibility(s, c, key, k) != Hidden
    ensures KeyVisibility(s, c, key, k) == FullForm ==> ListedKeys(s, c, key)[k] == Summary(s, k)
    ensures KeyVisibility(s, c, key, k) == MinimalForm ==>
              ListedKeys(s, c, key)[k] == MinimalView(s, k, ManagedHookIds(s, c))
  {
    hide Descendants, Summary, MinimalView, ManagedHookIds;
    var managed := if key.isMaster then {} else ManagedHookIds(s, c);
    var holders := set r | r in s.rows && r.1 in managed :: r.0;
    assert k in holders <==> HoldsRowIn(s, k, managed) by {
      if HoldsRowIn(s, k, managed) {
        var r :| r in s.rows && r.0 == k && r.1 in managed;
      }
    }
  }

  /** The minimal form of another key names only hooks the caller manages itself. */
  lemma MinimalViewsStayShared(s: State, c: Id, key: Key, k: Id)
    requires k in s.keys && KeyVisibility(s, c, key, k) == MinimalForm
    ensures forall h :: h in ListedKeys(s, c, key)[k].permissions ==> Holds(s, c, h, Manage) && (k, h) in s.rows
    ensures ListedKeys(s, c, key)[k].Minimal?
  {
    hide Descendants, ListedKeys;
    KeyListIsPointwise(s, c, key, k);
  }

  /** The condition `list_executions` filters by is `may_read_execution`. */
  lemma ExecutionScopeIsPointwise(s: State, c: Id, key: Key, x: Execution)
    ensures InScope(s, c, key, x) <==> MayReadExecution(s, c, key, x)
  {
  }

  /** An unfiltered history shows exactly the records that can be read one by one, and shows them alike. */
  lemma HistoryIsPointwise(env: Env, s: State, c: Id, e: Id)
    requires c in s.keys
    ensures
      var listed := AnswerOf(ListExecutions(env, s, c, ExecutionQuery(None, None, Some((report, time) => true))));
      var single := AnswerOf(GetExecution(env, s, c, e));
      && listed.ExecutionsListed?
      && (e in listed.executions <==> single.ExecutionShown?)
      && (e in listed.executions ==> single == ExecutionShown(listed.executions[e]))
  {
    hide InScope, MayReadExecution, View;
    if e in s.executions {
      ExecutionScopeIsPointwise(s, c, Effective(env, s, c), s.executions[e]);
    }
  }

  /** `visible_hook_ids` is the set `guard_visibility` lets through. */
  lemma VisibleHooksArePointwise(s: State, c: Id, key: Key, h: Id)
    requires h in s.hooks
    ensures (var visible := VisibleHookIds(s, c, key); visible.None? || h in visible.value)
       <==> GuardVisibility(s, c, key, h).Allow?
  {
    assert (c, h) in s.rows ==> (s.rows[(c, h)] != Row(false, false, false)
      <==> s.rows[(c, h)].canExecute || s.rows[(c, h)].canManage || s.rows[(c, h)].canViewExecution);
  }

  /** The hook list shows exactly the live hooks that can be read one by one, and shows them alike. */
  lemma HookListIsPointwise(env: Env, s: State, c: Id, h: Id, text: string)
    requires c in s.keys && h in s.hooks && env.parseId(text) == Some(h)
    ensures
      var listed := AnswerOf(ListHooks(env, s, c, false));
      var single := AnswerOf(GetHook(env, s, c, text, false));
      && listed.HooksListed?
      && (h in listed.details <==> single.HookShown?)
      && (h in listed.details ==> single == HookShown(h, listed.details[h]))
  {
    hide VisibleHookIds, GuardVisibility, Detail;
    VisibleHooksArePointwise(s, c, Effective(env, s, c), h);
  }

  /** Every hook a key may manage or run is one it can see. */
  lemma AuthorityImpliesVisibility(s: State, c: Id, key: Key, h: Id)
    requires h in s.hooks
    requires GuardManage(s, c, key, h).Allow? || GuardExecute(s, c, key, h).Allow?
             || GuardDispatchConfiguration(s, c, key, h).Allow?
    ensures GuardVisibility(s, c, key, h).Allow?
  {
  }

  /** Where the two denials of a hook disagree about its existence: running answers "not found" on a hook that can be
      read exactly for an owner without a row, and "forbidden" on one that cannot exactly for a row without verbs. */
  lemma DenialsDisagreeExactly(s: State, c: Id, key: Key, h: Id)
    requires h in s.hooks
    ensures GuardExecute(s, c, key, h) == Deny(NotFound) && GuardVisibility(s, c, key, h).Allow?
       <==> !key.isMaster && s.hooks[h].owner == Some(c) && HeldRow(s, c, h).None?
    ensures GuardExecute(s, c, key, h) == Deny(Forbidden) && GuardVisibility(s, c, key, h) == Deny(NotFound)
       <==> !key.isMaster && s.hooks[h].owner != Some(c) && HeldRow(s, c, h) == Some(Row(false, false, false))
  {
  }
}
