/**
 Containment: what callers below the master can never reach together, however many requests they make. Each
 theorem says exactly which states allow the gain, and shows that nothing else does over any run.
 */
module Containment {
  import opened Text
  import opened Rbac
  import opened Guards
  import opened Lineage
  import opened KeyRoutes
  import opened HookRoutes
  import opened ExecutionRoutes
  import opened Service
  import opened Writes
  import opened Invariants

  /** The keys that manage keys and do not act as the master. */
  predicate IsManager(env: Env, s: State, k: Id) {
    k in s.keys && s.keys[k].canManageKeys && !Effective(env, s, k).isMaster
  }

  /** Some manager holds on `h` both `can_manage` and the verb, and `h` is live and runs as the daemon itself. */
  ghost predicate CanWiden(env: Env, s: State, h: Id, v: Verb) {
    && h in s.hooks && !s.hooks[h].isDeleted && !Privileged(s.hooks[h])
    && exists m :: IsManager(env, s, m) && Holds(s, m, h, Manage) && Holds(s, m, h, v)
  }

  // ── One write ──────────────────────────────────────────────────────────────

  /** A write that is nobody's: a keyless run, or a retention sweep. */
  ghost predicate Background(s: State, w: Write) {
    || w == Nothing
    || (w.InsertExecution? && w.execution.author.None?)
    || w.RemoveExecutions?
    || (w.RemoveHooks? && forall h :: h in w.hooks ==> h in s.hooks && s.hooks[h].isDeleted)
  }

  /** A write made without the master. */
  ghost predicate Contained(env: Env, s: State, w: Write) {
    && Legal(env, s, w)
    && (Background(s, w) || exists c :: c in s.keys && !Effective(env, s, c).isMaster && Sanctioned(s, c, w))
  }

  lemma StepContained(env: Env, s: State, e: Step)
    requires Inv(env, s) && Enabled(s, e) && !ByMaster(env, s, e)
    ensures Contained(env, s, Written(env, s, e))
  {
    hide Handle, ExecuteHook, HookRules, KeyRules, IsIdentifier, WriteOf, OneMaster, Forest, Legal, Sanctioned, ExpiredExecutions;
    StepLegal(env, s, e);
    match e {
      case Call(c, req, d) => EveryWriteProper(env, s, c, req, d);
      case KeylessExecute(identifier, d) => KeylessExecuteLegal(env, s, identifier, d);
      case _ =>
    }
  }

  lemma ManagersNeverGrow(env: Env, s: State, w: Write, k: Id)
    requires References(s) && Contained(env, s, w) && IsManager(env, Apply(s, w), k)
    ensures IsManager(env, s, k)
  {
    hide KeyOk, HookOk, NameTaken, Subtree, OwnedHooks, ValidTargets, ParamFits, FreshParams, ResolvedHooks, DescendsFrom,
         Within, Privileged, References, OwnsOrManages, SameDispatch;
  }

  /** A row a manager holds after a contained write lies within a row some manager held before. */
  lemma RowsOfManagers(env: Env, s: State, w: Write, k: Id, h: Id)
    requires References(s) && Contained(env, s, w) && h in s.used && HeldRow(Apply(s, w), k, h).Some?
    ensures HeldRow(Apply(s, w), k, h) == HeldRow(s, k, h)
         || (&& h in s.hooks && !s.hooks[h].isDeleted && !Privileged(s.hooks[h])
             && (|| Within(HeldRow(Apply(s, w), k, h).value, HeldRow(s, k, h))
                 || exists c :: IsManager(env, s, c) && Holds(s, c, h, Manage)
                             && Within(HeldRow(Apply(s, w), k, h).value, HeldRow(s, c, h))))
  {
    hide KeyOk, HookOk, NameTaken, Subtree, OwnedHooks, ValidTargets, ParamFits, FreshParams, ResolvedHooks, DescendsFrom,
         Within, Privileged, References, OwnsOrManages, SameDispatch;
  }

  /** A contained write brings no hook back from the trash, out of elevation or into existence. */
  lemma HooksStayShut(env: Env, s: State, w: Write, h: Id)
    requires References(s) && Contained(env, s, w) && h in s.used && h in Apply(s, w).hooks
    ensures h in s.hooks
    ensures s.hooks[h].isDeleted ==> Apply(s, w).hooks[h].isDeleted
    ensures Privileged(s.hooks[h]) <==> Privileged(Apply(s, w).hooks[h])
  {
    hide KeyOk, HookOk, NameTaken, Subtree, OwnedHooks, ValidTargets, ParamFits, FreshParams, DescendsFrom, Within,
         OwnsOrManages, SameDispatch, EffectiveRunAsUser;
  }

  lemma WriteContained(env: Env, s: State, w: Write, h: Id, v: Verb)
    requires References(s) && Contained(env, s, w) && h in s.used && !CanWiden(env, s, h, v)
    ensures !CanWiden(env, Apply(s, w), h, v)
    ensures forall k :: Holds(Apply(s, w), k, h, v) ==> Holds(s, k, h, v)
  {
    hide References, Contained, Apply, IsManager, Privileged;
    var s' := Apply(s, w);
    forall k | Holds(s', k, h, v) ensures Holds(s, k, h, v) {
      RowsOfManagers(env, s, w, k, h);
    }
    if CanWiden(env, s', h, v) {
      var m :| IsManager(env, s', m) && Holds(s', m, h, Manage) && Holds(s', m, h, v);
      ManagersNeverGrow(env, s, w, m);
      HooksStayShut(env, s, w, h);
      RowsOfManagers(env, s, w, m, h);
    }
  }

  // ── Whole runs ─────────────────────────────────────────────────────────────

  lemma UsedGrows(s: State, w: Write)
    ensures s.used <= Apply(s, w).used
  {
  }

  /** Without the master, a verb nobody may widen never reaches a key that lacked it. */
  lemma {:induction false} PermissionContainment(env: Env, s: State, run: seq<Step>, h: Id, v: Verb)
    requires Inv(env, s) && ValidRun(env, s, run) && WithoutMaster(env, s, run)
    requires h in s.used && !CanWiden(env, s, h, v)
    ensures forall k :: Holds(After(env, s, run), k, h, v) ==> Holds(s, k, h, v)
    ensures !CanWiden(env, After(env, s, run), h, v)
    decreases run
  {
    hide Inv, Written, CanWiden, ByMaster, Enabled, Contained, Apply, Holds;
    if run != [] {
      var w := Written(env, s, run[0]);
      StepContained(env, s, run[0]);
      StepKeepsInv(env, s, run[0]);
      InvReferences(env, s);
      WriteContained(env, s, w, h, v);
      UsedGrows(s, w);
      PermissionContainment(env, Next(env, s, run[0]), run[1..], h, v);
    }
  }

  lemma InvReferences(env: Env, s: State)
    requires Inv(env, s)
    ensures References(s)
  {
  }

  /** Without the master, no key ever gains a global scope: a manager at the end was one at the start. */
  lemma {:induction false} ScopesNeverGrow(env: Env, s: State, run: seq<Step>, k: Id)
    requires Inv(env, s) && ValidRun(env, s, run) && WithoutMaster(env, s, run)
    requires k in After(env, s, run).keys
    ensures After(env, s, run).keys[k].canManageKeys ==> k in s.keys && s.keys[k].canManageKeys
    ensures After(env, s, run).keys[k].canManageHooks ==> k in s.keys && s.keys[k].canManageHooks
    decreases run
  {
    hide Inv, Written, ByMaster, Enabled, Contained, Apply;
    if run != [] {
      StepContained(env, s, run[0]);
      StepKeepsInv(env, s, run[0]);
      ScopesNeverGrow(env, Next(env, s, run[0]), run[1..], k);
      WriteKeepsScopes(env, s, Written(env, s, run[0]), k);
    }
  }

  lemma WriteKeepsScopes(env: Env, s: State, w: Write, k: Id)
    requires Contained(env, s, w)
    ensures k in Apply(s, w).keys && Apply(s, w).keys[k].canManageKeys ==> k in s.keys && s.keys[k].canManageKeys
    ensures k in Apply(s, w).keys && Apply(s, w).keys[k].canManageHooks ==> k in s.keys && s.keys[k].canManageHooks
  {
    hide KeyOk, HookOk, NameTaken, Subtree, OwnedHooks, ValidTargets, ParamFits, FreshParams, ResolvedHooks, DescendsFrom,
         Within, Privileged, OwnsOrManages, SameDispatch;
  }

  // ── The definition of a hook ───────────────────────────────────────────────

  lemma WriteKeepsDispatch(env: Env, s: State, w: Write, h: Id)
    requires References(s) && Contained(env, s, w) && h in s.used && h in Apply(s, w).hooks && !CanWiden(env, s, h, Manage)
    ensures h in s.hooks && SameDispatch(s.hooks[h], Apply(s, w).hooks[h])
  {
    hide KeyOk, HookOk, NameTaken, Subtree, OwnedHooks, ValidTargets, ParamFits, FreshParams, DescendsFrom, Within,
         EffectiveRunAsUser;
  }

  /** Without a manager holding `can_manage` on it, what a hook runs never changes, even at the hands of its owner. */
  lemma {:induction false} DispatchContainment(env: Env, s: State, run: seq<Step>, h: Id)
    requires Inv(env, s) && ValidRun(env, s, run) && WithoutMaster(env, s, run)
    requires h in s.used && !CanWiden(env, s, h, Manage) && h in After(env, s, run).hooks
    ensures h in s.hooks && SameDispatch(s.hooks[h], After(env, s, run).hooks[h])
    decreases run
  {
    hide Inv, Written, CanWiden, ByMaster, Enabled, Contained, Apply, Holds;
    if run != [] {
      var w := Written(env, s, run[0]);
      StepContained(env, s, run[0]);
      StepKeepsInv(env, s, run[0]);
      InvReferences(env, s);
      WriteContained(env, s, w, h, Manage);
      UsedGrows(s, w);
      DispatchContainment(env, Next(env, s, run[0]), run[1..], h);
      WriteKeepsDispatch(env, s, w, h);
    }
  }

  /** `h` in `s'` is the hook it was in `s`: same definition and parameters, and no wider a row on it. */
  ghost predicate Frozen(s: State, s': State, h: Id) {
    && h in s.hooks && h in s'.hooks && SameDefinition(s.hooks[h], s'.hooks[h])
    && ParamsOf(s', h) == ParamsOf(s, h)
    && forall k :: HeldRow(s', k, h).Some? ==> HeldRow(s', k, h) == HeldRow(s, k, h)
  }

  lemma WriteFreezes(env: Env, s: State, w: Write, h: Id)
    requires References(s) && Contained(env, s, w) && h in Apply(s, w).hooks && Privileged(Apply(s, w).hooks[h])
    ensures Frozen(s, Apply(s, w), h) && Privileged(s.hooks[h])
  {
    hide KeyOk, HookOk, NameTaken, Subtree, OwnedHooks, ValidTargets, DescendsFrom, Within, Frozen, Privileged, References;
    assert h in s.hooks && Privileged(s.hooks[h]) by {
      PrivilegedWas(env, s, w, h);
    }
    FrozenDefinition(env, s, w, h);
    FrozenParams(env, s, w, h);
    FrozenRows(env, s, w, h);
    FrozenParts(s, Apply(s, w), h);
  }

  lemma FrozenParts(s: State, s': State, h: Id)
    requires h in s.hooks && h in s'.hooks && SameDefinition(s.hooks[h], s'.hooks[h])
    requires ParamsOf(s', h) == ParamsOf(s, h)
    requires forall k :: HeldRow(s', k, h).Some? ==> HeldRow(s', k, h) == HeldRow(s, k, h)
    ensures Frozen(s, s', h)
  {
  }

  lemma PrivilegedWas(env: Env, s: State, w: Write, h: Id)
    requires References(s) && Contained(env, s, w) && h in Apply(s, w).hooks && Privileged(Apply(s, w).hooks[h])
    ensures h in s.hooks && Privileged(s.hooks[h])
  {
    hide KeyOk, HookOk, NameTaken, Subtree, OwnedHooks, ValidTargets, ParamFits, FreshParams, DescendsFrom, Within,
         EffectiveRunAsUser, References, OwnsOrManages, SameDispatch;
  }

  /** The writes that leave the definition and the parameters of `h` alone. */
  predicate Spares(s: State, w: Write, h: Id) {
    match w
    case InsertHook(id, _, declared, _) =>
      id != h && declared.Keys !! s.params.Keys && forall p :: p in declared ==> declared[p].hook != h
    case SetHook(id, _) => id != h
    case SetParam(id, param) => param.hook != h && (id in s.params ==> s.params[id].hook != h)
    case DropParam(id) => id in s.params ==> s.params[id].hook != h
    case _ => true
  }

  lemma ElevatedAreSpared(env: Env, s: State, w: Write, h: Id)
    requires References(s) && Contained(env, s, w) && h in s.hooks && Privileged(s.hooks[h])
    ensures Spares(s, w, h)
  {
    hide KeyOk, HookOk, NameTaken, Subtree, OwnedHooks, ValidTargets, DescendsFrom, Within, Privileged, ParamKeys, ParamsOf,
         OwnsOrManages, SameDispatch, ResolvedHooks, IsIdentifier;
  }

  lemma FrozenDefinition(env: Env, s: State, w: Write, h: Id)
    requires References(s) && Contained(env, s, w) && h in s.hooks && h in Apply(s, w).hooks && Privileged(s.hooks[h])
    ensures SameDefinition(s.hooks[h], Apply(s, w).hooks[h])
  {
    hide Contained, Privileged, References;
    ElevatedAreSpared(env, s, w, h);
  }

  lemma FrozenParams(env: Env, s: State, w: Write, h: Id)
    requires References(s) && Contained(env, s, w) && h in s.hooks && h in Apply(s, w).hooks && Privileged(s.hooks[h])
    ensures ParamsOf(Apply(s, w), h) == ParamsOf(s, h)
  {
    hide Contained, Privileged, References, SameDefinition, ResolvedHooks;
    ElevatedAreSpared(env, s, w, h);
  }

  lemma FrozenRows(env: Env, s: State, w: Write, h: Id)
    requires References(s) && Contained(env, s, w) && h in s.hooks && h in Apply(s, w).hooks && Privileged(s.hooks[h])
    ensures forall k :: HeldRow(Apply(s, w), k, h).Some? ==> HeldRow(Apply(s, w), k, h) == HeldRow(s, k, h)
  {
    hide Contained, Apply, HeldRow, Within, Privileged, References;
    forall k | HeldRow(Apply(s, w), k, h).Some? ensures HeldRow(Apply(s, w), k, h) == HeldRow(s, k, h) {
      InUsed(s, h);
      RowsOfManagers(env, s, w, k, h);
    }
  }

  lemma InUsed(s: State, h: Id)
    requires References(s) && h in s.hooks
    ensures h in s.used
  {
  }

  /** Without the master, no hook comes into elevation, out of it, or back from the trash. */
  lemma {:induction false} ElevationIsFixed(env: Env, s: State, run: seq<Step>, h: Id)
    requires Inv(env, s) && ValidRun(env, s, run) && WithoutMaster(env, s, run)
    requires h in s.used && h in After(env, s, run).hooks
    ensures h in s.hooks && (Privileged(After(env, s, run).hooks[h]) <==> Privileged(s.hooks[h]))
    ensures s.hooks[h].isDeleted ==> After(env, s, run).hooks[h].isDeleted
    decreases run
  {
    hide Inv, Written, ByMaster, Enabled, Contained, Apply, Privileged;
    if run != [] {
      StepContained(env, s, run[0]);
      StepKeepsInv(env, s, run[0]);
      InvReferences(env, s);
      UsedGrows(s, Written(env, s, run[0]));
      ElevationIsFixed(env, Next(env, s, run[0]), run[1..], h);
      HooksStayShut(env, s, Written(env, s, run[0]), h);
    }
  }

  lemma {:induction false} ElevatedAtTheEnd(env: Env, s: State, run: seq<Step>, h: Id)
    requires Inv(env, s) && ValidRun(env, s, run) && WithoutMaster(env, s, run)
    requires h in After(env, s, run).hooks && Privileged(After(env, s, run).hooks[h])
    ensures Frozen(s, After(env, s, run), h) && Privileged(s.hooks[h])
    decreases run
  {
    hide Inv, Written, ByMaster, Enabled, Contained, Apply, Privileged;
    if run != [] {
      StepContained(env, s, run[0]);
      StepKeepsInv(env, s, run[0]);
      InvReferences(env, s);
      ElevatedAtTheEnd(env, Next(env, s, run[0]), run[1..], h);
      WriteFreezes(env, s, Written(env, s, run[0]), h);
    }
  }

  /** Without the master, a hook elevated at the start, or at the end, is elevated at both and unchanged: no field of its
      definition, none of its parameters, and no row on it but the ones that were there. */
  lemma ElevatedHooksAreFrozen(env: Env, s: State, run: seq<Step>, h: Id)
    requires Inv(env, s) && ValidRun(env, s, run) && WithoutMaster(env, s, run)
    requires h in After(env, s, run).hooks
    requires Privileged(After(env, s, run).hooks[h]) || (h in s.hooks && Privileged(s.hooks[h]))
    ensures h in s.hooks && Privileged(s.hooks[h]) && Privileged(After(env, s, run).hooks[h])
    ensures Frozen(s, After(env, s, run), h)
  {
    hide Inv, After, ValidRun, WithoutMaster, Privileged, References;
    if h in s.hooks && Privileged(s.hooks[h]) {
      InvReferences(env, s);
      InUsed(s, h);
      ElevationIsFixed(env, s, run, h);
    }
    ElevatedAtTheEnd(env, s, run, h);
  }
}
