/** Deleting a key: what goes with it, what stays, and who answers afterwards for the hooks it owned. */
module CascadeDeletion {
  import opened Text
  import opened Rbac
  import opened Guards
  import opened Lineage
  import opened Hooks
  import opened KeyRoutes
  import opened HookRoutes
  import opened Service
  import opened Writes
  import opened Invariants
  import opened Containment
  import opened ExecutionRoutes
  import opened Sessions
  import ArgsTemplate

  /** Exactly when a deletion goes through. */
  lemma DeletionPassesExactly(env: Env, s: State, c: Id, id: Id, resolutions: map<Id, Resolution>, d: Draw)
    requires Inv(env, s) && c in s.keys
    ensures DeleteKey(env, s, c, id, resolutions, d).Pass? <==>
      var key := Effective(env, s, c);
      && id in s.keys && id != c && !s.keys[id].isMaster
      && (key.isMaster || (key.canManageKeys && DescendsFrom(s.keys, id, c)))
      && resolutions.Keys == OwnedHooks(s, Subtree(s.keys, id))
      && ValidTargets(s, Subtree(s.keys, id), resolutions)
  {
    hide Inv, Subtree, ValidTargets, OwnedHooks, Inventory, DescendsFrom, HoldsRowIn, ManagedHookIds;
    var owned := OwnedHooks(s, Subtree(s.keys, id));
    assert resolutions.Keys == owned <==> resolutions.Keys <= owned && owned <= resolutions.Keys;
  }

  /** A record after its author's key is gone. */
  function Orphaned(x: Execution, subtree: set<Id>): Execution {
    if x.author.Some? && x.author.value in subtree then x.(author := None) else x
  }

  /** A deletion removes exactly the target and what descends from it, and exactly their permission rows; every record
      stays, its author cleared if removed; the caller and the master survive. */
  lemma DeletionIsExact(env: Env, s: State, c: Id, id: Id, resolutions: map<Id, Resolution>, d: Draw, m: Id)
    requires Inv(env, s) && c in s.keys && DeleteKey(env, s, c, id, resolutions, d).Pass? && IsSoleMaster(s.keys, m)
    ensures
      var s' := Apply(s, WriteOf(DeleteKey(env, s, c, id, resolutions, d)));
      && (forall k :: k in s'.keys <==> k in s.keys && k != id && !DescendsFrom(s.keys, k, id))
      && (forall k :: k in s'.keys ==> s'.keys[k] == s.keys[k])
      && c in s'.keys && m in s'.keys
      && (forall r :: r in s'.rows <==> r in s.rows && r.0 in s'.keys)
      && (forall r :: r in s'.rows ==> s'.rows[r] == s.rows[r])
      && s'.executions.Keys == s.executions.Keys
      && (forall e :: e in s.executions ==> s'.executions[e] == Orphaned(s.executions[e], Subtree(s.keys, id)))
      && s'.params == s.params && s'.hooks.Keys == s.hooks.Keys
  {
    hide *;
    DeletionPassesExactly(env, s, c, id, resolutions, d);
    DeletionWrites(env, s, c, id, resolutions, d);
    InvReferences(env, s);
    InvForest(env, s);
    MasterRow(s.keys, m);
    if c == m {
      RootOutsideSubtree(s.keys, c, id);
    } else {
      SoleMasterIsRoot(env, s, c, m);
      AncestorOutsideSubtree(s.keys, c, id);
      RootOutsideSubtree(s.keys, m, id);
    }
    RowsHaveHolders(s);
    InSubtree(s.keys, id);
    RemovalIsExact(s, Subtree(s.keys, id), resolutions, c, d.now);
  }

  lemma DeletionWrites(env: Env, s: State, c: Id, id: Id, resolutions: map<Id, Resolution>, d: Draw)
    requires c in s.keys && DeleteKey(env, s, c, id, resolutions, d).Pass?
    ensures WriteOf(DeleteKey(env, s, c, id, resolutions, d)) == RemoveKeys(Subtree(s.keys, id), resolutions, c, d.now)
  {
    hide Subtree, ValidTargets, OwnedHooks, Inventory, KeyVisibility;
  }

  /** What removing a set of keys does to each table. */
  lemma RemovalIsExact(s: State, doomed: set<Id>, resolutions: map<Id, Resolution>, actor: Id, now: int)
    ensures
      var s' := Apply(s, RemoveKeys(doomed, resolutions, actor, now));
      && (forall k :: k in s'.keys <==> k in s.keys && k !in doomed)
      && (forall k :: k in s'.keys ==> s'.keys[k] == s.keys[k])
      && (forall r :: r in s'.rows <==> r in s.rows && r.0 !in doomed)
      && (forall r :: r in s'.rows ==> s'.rows[r] == s.rows[r])
      && s'.executions.Keys == s.executions.Keys
      && (forall e :: e in s.executions ==> s'.executions[e] == Orphaned(s.executions[e], doomed))
      && s'.params == s.params && s'.hooks.Keys == s.hooks.Keys
  {
    hide Resolved;
  }

  lemma InSubtree(keys: map<Id, Key>, id: Id)
    ensures forall k :: k in keys ==> (k in Subtree(keys, id) <==> k == id || DescendsFrom(keys, k, id))
  {
    hide DescendsFrom;
  }

  lemma MasterRow(keys: map<Id, Key>, m: Id)
    requires IsSoleMaster(keys, m)
    ensures m in keys && keys[m].parent.None? && keys[m].isMaster
  {
  }

  lemma SoleMasterIsRoot(env: Env, s: State, c: Id, m: Id)
    requires c in s.keys && IsSoleMaster(s.keys, m) && c != m
    ensures m in s.keys && s.keys[m].parent.None? && s.keys[m].isMaster && !Effective(env, s, c).isMaster
  {
  }

  lemma InvForest(env: Env, s: State)
    requires Inv(env, s)
    ensures Forest(s.keys)
  {
  }

  lemma RowsHaveHolders(s: State)
    requires References(s)
    ensures forall r :: r in s.rows ==> r.0 in s.keys
  {
  }

  /** Every hook the subtree owned is settled as its resolution says, every other hook is untouched, and no live hook
      is left owned by a removed key. */
  lemma DeletionSettlesOwnership(env: Env, s: State, c: Id, id: Id, resolutions: map<Id, Resolution>, d: Draw)
    requires c in s.keys && DeleteKey(env, s, c, id, resolutions, d).Pass?
    ensures
      var s' := Apply(s, WriteOf(DeleteKey(env, s, c, id, resolutions, d)));
      var subtree := Subtree(s.keys, id);
      forall h :: h in s.hooks ==>
        var hook, hook' := s.hooks[h], s'.hooks[h];
        && (h !in OwnedHooks(s, subtree) ==> hook' == hook)
        && (h in OwnedHooks(s, subtree) ==>
              && h in resolutions
              && (resolutions[h].Trash? ==> hook'.isDeleted && hook'.deletedBy == Some(c) && hook'.owner == hook.owner)
              && (resolutions[h].Reassign? ==>
                    hook' == hook.(owner := Some(resolutions[h].to)) && resolutions[h].to in s'.keys))
        && (hook'.owner.Some? && hook'.owner.value in subtree ==> hook'.isDeleted)
  {
    hide Subtree, Inventory, KeyVisibility;
  }

  // ── Owners of live hooks ───────────────────────────────────────────────────

  /** No live hook is owned by a key that is gone. */
  predicate LiveOwnersExist(s: State) {
    forall h :: h in s.hooks && !s.hooks[h].isDeleted ==> OwnerExists(s, s.hooks[h])
  }

  predicate RevivesOrphan(s: State, w: Write) {
    w.SetHook? && w.id in s.hooks && !w.hookRow.isDeleted && !OwnerExists(s, w.hookRow)
  }

  lemma WriteKeepsLiveOwners(env: Env, s: State, w: Write)
    requires References(s) && Legal(env, s, w) && LiveOwnersExist(s)
    ensures LiveOwnersExist(Apply(s, w)) <==> !RevivesOrphan(s, w)
  {
    hide References, HookOk, KeyOk, NameTaken, Subtree, ParamFits, FreshParams;
    if RevivesOrphan(s, w) {
      assert w.id in Apply(s, w).hooks;
    } else if w.RemoveKeys? {
      OwnedAreResolved(s, w.doomed);
    }
  }

  /** The master restores a trashed hook whose owner is gone. */
  ghost predicate RestoresOrphan(env: Env, s: State, e: Step) {
    && e.Call? && e.request.PostRestore? && ByMaster(env, s, e)
    && var found := FindHook(env, s, e.request.identifier);
       found.Pass? && s.hooks[found.value].isDeleted && !OwnerExists(s, s.hooks[found.value])
  }

  lemma RestoringRevives(env: Env, s: State, c: Id, identifier: string, d: Draw)
    requires c in s.keys
    ensures RevivesOrphan(s, WriteOf(RestoreHook(env, s, c, identifier)))
       <==> RestoresOrphan(env, s, Call(c, PostRestore(identifier), d))
  {
    hide FindHook, Detail, Apply;
  }

  /** An edited hook is live, and keeps its owner or gets one that exists. */
  lemma EditingRevivesNothing(env: Env, s: State, c: Id, identifier: string, p: UpdateHookPayload)
    requires c in s.keys && LiveOwnersExist(s) && Legal(env, s, WriteOf(UpdateHook(env, s, c, identifier, p)))
    ensures !RevivesOrphan(s, WriteOf(UpdateHook(env, s, c, identifier, p)))
  {
    hide Trim, NormalizeRunAsUser, SealHmacSecret, ValidSamplePayload, ArgsTemplate.ValidArgsTemplate, NameTaken, Apply,
         ParamKeys, ParamsOf, Detail, GuardManage, GuardDispatchConfiguration, Privileged, FindHook, HookOk;
    LiveFound(env, s, identifier);
  }

  lemma LiveFound(env: Env, s: State, identifier: string)
    ensures ResolveHook(env, s, identifier).Pass? ==> !s.hooks[ResolveHook(env, s, identifier).value].isDeleted
  {
  }

  lemma TrashingRevivesNothing(env: Env, s: State, c: Id, identifier: string, hard: bool, d: Draw)
    requires c in s.keys
    ensures !RevivesOrphan(s, WriteOf(DeleteHook(env, s, c, identifier, hard, d)))
  {
    hide FindHook, ResolveHook, GuardManage, Privileged;
  }

  lemma RequestRevives(env: Env, s: State, c: Id, req: Request, d: Draw)
    requires c in s.keys && LiveOwnersExist(s) && Legal(env, s, WriteOf(Handle(env, s, c, req, d)))
    ensures RevivesOrphan(s, WriteOf(Handle(env, s, c, req, d))) <==> RestoresOrphan(env, s, Call(c, req, d))
  {
    hide CreateKey, ListKeys, UpdateKey, DeleteKey, RenewCredentials, Grant, Revoke, CreateHook, ListHooks, GetHook,
         UpdateHook, DeleteHook, RestoreHook, PurgeHooks, ListParams, CreateParam, UpdateParam, DeleteParam, ExecuteHook,
         TestHook, ListExecutions, GetExecution, DeleteExecution, PurgeExecutions, WriteOf, Legal, LiveOwnersExist;
    EveryRequestNames(env, s, c, req, d);
    match req {
      case PutHook(identifier, p) => EditingRevivesNothing(env, s, c, identifier, p);
      case RemoveHook(identifier, hard) => TrashingRevivesNothing(env, s, c, identifier, hard, d);
      case PostRestore(identifier) => RestoringRevives(env, s, c, identifier, d);
      case _ =>
    }
  }

  /** Over every step, the master's included, exactly one thing leaves a live hook without its owner: the master restoring a
      hook whose owner was deleted while it lay in the trash. */
  lemma LiveOwnersKeptExactly(env: Env, s: State, e: Step)
    requires Inv(env, s) && Enabled(s, e) && LiveOwnersExist(s)
    ensures LiveOwnersExist(Next(env, s, e)) <==> !RestoresOrphan(env, s, e)
  {
    hide Inv, LiveOwnersExist, Legal, References, Apply, Handle, ExecuteHook, WriteOf, ExpiredHooks, ExpiredExecutions,
         FreshDraw, FindHook;
    InvReferences(env, s);
    StepLegal(env, s, e);
    WriteKeepsLiveOwners(env, s, Written(env, s, e));
    match e {
      case Call(c, req, d) => RequestRevives(env, s, c, req, d);
      case KeylessExecute(identifier, d) => KeylessExecuteRevivesNothing(env, s, identifier, d);
      case _ =>
    }
  }

  lemma KeylessExecuteRevivesNothing(env: Env, s: State, identifier: string, d: Draw)
    ensures !RevivesOrphan(s, WriteOf(ExecuteHook(env, s, None, identifier, d)))
  {
    hide ResolveHook;
  }

  lemma OwnedAreResolved(s: State, doomed: set<Id>)
    ensures forall h :: h in s.hooks && h !in OwnedHooks(s, doomed) && s.hooks[h].owner.Some? ==>
              s.hooks[h].owner.value !in doomed
  {
  }

  /** Without the master no run leaves a live hook without its owner. */
  lemma {:induction false} LiveOwnersKept(env: Env, s: State, run: seq<Step>)
    requires Inv(env, s) && ValidRun(env, s, run) && WithoutMaster(env, s, run) && LiveOwnersExist(s)
    ensures LiveOwnersExist(After(env, s, run))
    decreases run
  {
    hide Inv, Written, ByMaster, Enabled, Contained, Apply, LiveOwnersExist, Legal, References;
    if run != [] {
      var w := Written(env, s, run[0]);
      StepContained(env, s, run[0]);
      StepLegal(env, s, run[0]);
      StepKeepsInv(env, s, run[0]);
      InvReferences(env, s);
      ContainedRevivesNothing(env, s, w);
      WriteKeepsLiveOwners(env, s, w);
      LiveOwnersKept(env, Next(env, s, run[0]), run[1..]);
    }
  }

  lemma ContainedRevivesNothing(env: Env, s: State, w: Write)
    requires Contained(env, s, w) && LiveOwnersExist(s)
    ensures !RevivesOrphan(s, w)
  {
    hide HookOk, KeyOk, NameTaken, Subtree, OwnedHooks, ValidTargets, ParamFits, FreshParams, ResolvedHooks, DescendsFrom,
         Within, Privileged, OwnsOrManages, SameDispatch;
  }

  /** With the master it happens: delete a key, trashing what it owns, then restore one of its hooks. */
  lemma RestoringAnOrphan(env: Env, s: State, m: Id, id: Id, resolutions: map<Id, Resolution>, d: Draw, h: Id, text: string)
    requires Inv(env, s) && m in s.keys && Effective(env, s, m).isMaster
    requires DeleteKey(env, s, m, id, resolutions, d).Pass?
    requires h in resolutions && resolutions[h].Trash? && env.parseId(text) == Some(h)
    ensures
      var s1 := Apply(s, WriteOf(DeleteKey(env, s, m, id, resolutions, d)));
      m in s1.keys &&
      var e := RestoreHook(env, s1, m, text);
      e.Pass? &&
      var s2 := Apply(s1, WriteOf(e));
      h in s2.hooks && !s2.hooks[h].isDeleted && !OwnerExists(s2, s2.hooks[h])
  {
    hide Inv, Subtree, Inventory, KeyVisibility, Detail, Legal;
    MasterIsSole(env, s, m);
    DeletionIsExact(env, s, m, id, resolutions, d, m);
    var s1 := Apply(s, WriteOf(DeleteKey(env, s, m, id, resolutions, d)));
    assert h in OwnedHooks(s, Subtree(s.keys, id));
    assert s1.hooks[h] == Resolved(s.hooks[h], Trash, m, d.now);
    assert FindHook(env, s1, text) == Pass(h);
  }

  lemma MasterIsSole(env: Env, s: State, m: Id)
    requires Inv(env, s) && m in s.keys && s.keys[m].isMaster
    ensures IsSoleMaster(s.keys, m)
  {
    hide References, KeyRules, HookRules, ParamRules, Forest;
  }
}
