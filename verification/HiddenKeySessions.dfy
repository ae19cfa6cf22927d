/** The same over whole sessions: a session runs as if the hidden key did not exist exactly until a request tells. */
module HiddenKeySessions {
  import opened Text
  import opened Rbac
  import opened Guards
  import opened Lineage
  import opened KeyRoutes
  import opened HookRoutes
  import opened ExecutionRoutes
  import opened Service
  import opened Writes
  import opened Invariants
  import opened HiddenKey
  import opened Sessions

  /** No request of the session is one of those that tell, where it is made. */
  ghost predicate NeverTells(env: Env, s: State, c: Id, t: Id, session: seq<Exchange>)
    decreases session
  {
    session != [] ==>
      && c in s.keys && !Tells(env, s, c, t, session[0].request, session[0].draw)
      && NeverTells(env, Moved(env, s, c, session[0]), c, t, session[1..])
  }

  // ── One write ──────────────────────────────────────────────────────────────

  /** Where the hidden key's row, its permission rows and its records are left alone. */
  predicate LeavesAlone(s: State, w: Write, t: Id) {
    match w
    case InsertKey(id, key) => id != t && key.parent != Some(t)
    case SetKey(id, key) => id != t && id in s.keys && key.parent == s.keys[id].parent
    case RemoveKeys(doomed, _, _, _) => t !in doomed
    case PutRow(holder, _, _) => holder != t
    case DropRow(holder, _) => holder != t
    case InsertHook(_, _, _, creator) => creator != Some(t)
    case RemoveHooks(_) => false
    case InsertExecution(id, x) => x.author != Some(t) && id !in s.executions
    case _ => true
  }

  /** A row is written only for a key the caller sees. */
  lemma GrantSeesTarget(env: Env, s: State, c: Id, id: Id, p: GrantPayload)
    requires c in s.keys
    ensures WriteOf(Grant(env, s, c, id, p)).PutRow? ==>
              && WriteOf(Grant(env, s, c, id, p)).holder == id && KeyVisibility(s, c, Effective(env, s, c), id) != Hidden
  {
    hide KeyVisibility, HasPermissionAdminStanding, Privileged, GuardRowWrite;
  }

  lemma RowsAreForVisibleKeys(env: Env, s: State, c: Id, t: Id, req: Request, d: Draw)
    requires HiddenFrom(env, s, c, t)
    ensures c in s.keys
    ensures WriteOf(Handle(env, s, c, req, d)).PutRow? ==> WriteOf(Handle(env, s, c, req, d)).holder != t
  {
    hide CreateKey, ListKeys, UpdateKey, DeleteKey, RenewCredentials, Grant, Revoke, CreateHook, ListHooks, GetHook,
         UpdateHook, DeleteHook, RestoreHook, PurgeHooks, ListParams, CreateParam, UpdateParam, DeleteParam, ExecuteHook,
         TestHook, ListExecutions, GetExecution, DeleteExecution, PurgeExecutions, WriteOf, KeyVisibility, Childless;
    EveryRequestNames(env, s, c, req, d);
    if req.PostPermission? {
      GrantSeesTarget(env, s, c, req.id, req.permission);
    }
  }

  /** A manager of a hook sees every holder of a row on it. */
  lemma ManagersSeeHolders(env: Env, s: State, c: Id, t: Id, g: Id)
    requires HiddenFrom(env, s, c, t) && Conjunction(s, c, g)
    ensures (t, g) !in s.rows
  {
    hide KeyVisibility, Childless;
    HiddenFacts(env, s, c, t);
    assert g in ManagedHookIds(s, c) by {
      assert (c, g) in s.rows;
    }
  }

  lemma HiddenIsNotBelow(env: Env, s: State, c: Id, t: Id)
    requires HiddenFrom(env, s, c, t)
    ensures c in s.keys && t in s.keys && !Effective(env, s, c).isMaster && t != c && !DescendsFrom(s.keys, t, c)
  {
    hide DescendsFrom, KeyVisibility, Childless, HoldsRowIn, ManagedHookIds;
    HiddenFacts(env, s, c, t);
  }

  lemma SubtreesBelowSpareIt(env: Env, s: State, c: Id, t: Id, u: Id)
    requires HiddenFrom(env, s, c, t) && u in s.keys && DescendsFrom(s.keys, u, c)
    ensures t !in Subtree(s.keys, u)
  {
    hide HiddenFrom, DescendsFrom;
    HiddenIsNotBelow(env, s, c, t);
    if t in Subtree(s.keys, u) && t != u {
      DescendsTransitively(s.keys, t, u, c);
    }
  }

  lemma SanctionedLeavesAlone(env: Env, s: State, c: Id, t: Id, w: Write)
    requires References(s) && c in s.keys && HiddenFrom(env, s, c, t) && Legal(env, s, w) && Sanctioned(s, c, w)
    requires w.PutRow? ==> w.holder != t
    ensures LeavesAlone(s, w, t)
  {
    hide HiddenFrom, HookOk, KeyOk, NameTaken, Subtree, ValidTargets, OwnedHooks, DescendsFrom, Within, Privileged, SameDispatch,
         ParamFits, FreshParams, OwnsOrManages, Conjunction;
    HiddenIsNotBelow(env, s, c, t);
    match w {
      case RemoveKeys(doomed, _, _, _) =>
        var u :| u in s.keys && u != c && DescendsFrom(s.keys, u, c) && doomed == Subtree(s.keys, u);
        SubtreesBelowSpareIt(env, s, c, t, u);
      case DropRow(_, hook) => ManagersSeeHolders(env, s, c, t, hook);
      case _ =>
    }
  }

  lemma KeysCommute(s: State, t: Id, w: Write)
    requires LeavesAlone(s, w, t)
    ensures Apply(Gone(s, t), w).keys == Gone(Apply(s, w), t).keys
    ensures Apply(Gone(s, t), w).used == Gone(Apply(s, w), t).used
    ensures Apply(Gone(s, t), w).hooks == Gone(Apply(s, w), t).hooks
    ensures Apply(Gone(s, t), w).params == Gone(Apply(s, w), t).params
  {
    hide ResolvedHooks;
  }

  lemma RowsCommute(s: State, t: Id, w: Write)
    requires LeavesAlone(s, w, t)
    ensures Apply(Gone(s, t), w).rows == Gone(Apply(s, w), t).rows
  {
    if w.RemoveKeys? {
      RowsRemoved(s, t, w);
    } else if w.InsertHook? || w.PutRow? || w.DropRow? {
      RowsWritten(s, t, w);
    } else {
      RowsUntouched(s, t, w);
    }
  }

  lemma RowsRemoved(s: State, t: Id, w: Write)
    requires w.RemoveKeys?
    ensures Apply(Gone(s, t), w).rows == Gone(Apply(s, w), t).rows
  {
    hide ResolvedHooks;
  }

  lemma RowsWritten(s: State, t: Id, w: Write)
    requires LeavesAlone(s, w, t) && (w.InsertHook? || w.PutRow? || w.DropRow?)
    ensures Apply(Gone(s, t), w).rows == Gone(Apply(s, w), t).rows
  {
  }

  lemma RowsUntouched(s: State, t: Id, w: Write)
    requires !(w.RemoveKeys? || w.InsertHook? || w.PutRow? || w.DropRow? || w.RemoveHooks?)
    ensures Apply(Gone(s, t), w).rows == Gone(Apply(s, w), t).rows
  {
    assert Apply(Gone(s, t), w).rows == Gone(s, t).rows && Apply(s, w).rows == s.rows;
  }

  lemma ExecutionsCommute(s: State, t: Id, w: Write)
    requires LeavesAlone(s, w, t)
    ensures Apply(Gone(s, t), w).executions == Gone(Apply(s, w), t).executions
  {
    hide ResolvedHooks;
  }

  /** Removing the key and such a write commute. */
  lemma GoneCommutes(s: State, t: Id, w: Write)
    requires LeavesAlone(s, w, t)
    ensures Apply(Gone(s, t), w) == Gone(Apply(s, w), t)
  {
    hide LeavesAlone, Apply, Gone;
    KeysCommute(s, t, w);
    RowsCommute(s, t, w);
    ExecutionsCommute(s, t, w);
  }

  // ── It stays hidden ────────────────────────────────────────────────────────

  /** The hidden key gains no row, and the caller no hook to manage on which it holds one. */
  lemma SharesNothing(s: State, c: Id, t: Id, w: Write)
    requires References(s) && c in s.keys && c != t && LeavesAlone(s, w, t) && Sanctioned(s, c, w)
    requires w.InsertHook? ==> w.id !in s.used
    requires !HoldsRowIn(s, t, ManagedHookIds(s, c))
    ensures !HoldsRowIn(Apply(s, w), t, ManagedHookIds(Apply(s, w), c))
  {
    hide HoldsRowIn, ManagedHookIds, Sanctioned, Apply, LeavesAlone, References;
    var s' := Apply(s, w);
    forall g: Id ensures !((t, g) in s'.rows && (c, g) in s'.rows && s'.rows[(c, g)].canManage) {
      RowsOfTheTwo(s, c, t, w, g);
      SharesAt(s, c, t, g);
    }
    SharesNowhere(s', c, t);
  }

  lemma SharesAt(s: State, c: Id, t: Id, g: Id)
    requires !HoldsRowIn(s, t, ManagedHookIds(s, c))
    ensures !((t, g) in s.rows && (c, g) in s.rows && s.rows[(c, g)].canManage)
  {
    assert (c, g) in s.rows && s.rows[(c, g)].canManage ==> g in ManagedHookIds(s, c);
    assert (t, g) in s.rows ==> (t, g).0 == t && (t, g).1 == g;
  }

  lemma SharesNowhere(s: State, c: Id, t: Id)
    requires forall g: Id :: !((t, g) in s.rows && (c, g) in s.rows && s.rows[(c, g)].canManage)
    ensures !HoldsRowIn(s, t, ManagedHookIds(s, c))
  {
  }

  lemma RowsOfTheTwo(s: State, c: Id, t: Id, w: Write, g: Id)
    requires References(s) && c in s.keys && c != t && LeavesAlone(s, w, t) && Sanctioned(s, c, w)
    requires w.InsertHook? ==> w.id !in s.used
    ensures (t, g) in Apply(s, w).rows ==> (t, g) in s.rows
    ensures (t, g) in Apply(s, w).rows && (c, g) in Apply(s, w).rows && Apply(s, w).rows[(c, g)].canManage ==>
              (c, g) in s.rows && s.rows[(c, g)].canManage
  {
    hide Subtree, OwnedHooks, DescendsFrom, Privileged, SameDispatch, OwnsOrManages, ResolvedHooks, Conjunction, Within;
    if w.PutRow? && w.holder == c && w.row.canManage && Within(w.row, HeldRow(s, c, w.hook)) {
      WithinManage(w.row, HeldRow(s, c, w.hook));
    }
  }

  lemma WithinManage(row: Row, bound: Option<Row>)
    requires Within(row, bound) && row.canManage
    ensures bound.Some? && bound.value.canManage
  {
    assert Allows(row, Manage);
  }

  lemma ChildlessKept(s: State, c: Id, t: Id, w: Write)
    requires Childless(s, t) && LeavesAlone(s, w, t) && t in s.keys
    ensures Childless(Apply(s, w), t) && t in Apply(s, w).keys
  {
    hide ResolvedHooks;
  }

  lemma HiddenKept(env: Env, s: State, c: Id, t: Id, w: Write)
    requires References(s) && Forest(s.keys) && HiddenFrom(env, s, c, t) && c in s.keys
    requires Legal(env, s, w) && Sanctioned(s, c, w) && LeavesAlone(s, w, t)
    ensures HiddenFrom(env, Apply(s, w), c, t)
  {
    hide Childless, Legal, Sanctioned, LeavesAlone, Apply, References, Forest, Descendants, HoldsRowIn, ManagedHookIds;
    HiddenFacts(env, s, c, t);
    CallerSurvives(env, s, c, w);
    ChildlessKept(s, c, t, w);
    if t in Descendants(Apply(s, w).keys, c) {
      DescendantsAfter(env, s, c, w, t);
      NewIsNot(env, s, w, t);
    }
    FreshHook(env, s, w);
    SharesNothing(s, c, t, w);
  }

  lemma NewIsNot(env: Env, s: State, w: Write, t: Id)
    requires References(s) && Legal(env, s, w) && t in s.keys
    ensures w.InsertKey? ==> w.id != t
  {
    hide KeyOk;
  }

  lemma FreshHook(env: Env, s: State, w: Write)
    requires Legal(env, s, w)
    ensures w.InsertHook? ==> w.id !in s.used
  {
    hide HookOk, FreshParams, NameTaken;
  }

  // ── Sessions ───────────────────────────────────────────────────────────────

  /** One exchange that does not tell: the same effect in both states, which stay related. */
  lemma ExchangeAlike(env: Env, s: State, c: Id, t: Id, x: Exchange)
    requires Inv(env, s) && HiddenFrom(env, s, c, t) && c in s.keys && FreshDraw(s, x.draw)
    requires !Tells(env, s, c, t, x.request, x.draw)
    ensures c in Gone(s, t).keys
    ensures Handle(env, Gone(s, t), c, x.request, x.draw) == Handle(env, s, c, x.request, x.draw)
    ensures Moved(env, Gone(s, t), c, x) == Gone(Moved(env, s, c, x), t)
    ensures Inv(env, Moved(env, s, c, x)) && HiddenFrom(env, Moved(env, s, c, x), c, t) && c in Moved(env, s, c, x).keys
  {
    hide Inv, HiddenFrom, Tells, FreshDraw, Handle, WriteOf, Apply, Gone, Legal, Sanctioned, LeavesAlone, References, Forest;
    var w := WriteOf(Handle(env, s, c, x.request, x.draw));
    KeyIndistinguishable(env, s, c, t, x.request, x.draw);
    InvParts(env, s);
    HiddenIsNotBelow(env, s, c, t);
    EveryWriteProper(env, s, c, x.request, x.draw);
    RowsAreForVisibleKeys(env, s, c, t, x.request, x.draw);
    SanctionedLeavesAlone(env, s, c, t, w);
    GoneCommutes(s, t, w);
    LegalKeepsInv(env, s, w);
    CallerSurvives(env, s, c, w);
    HiddenKept(env, s, c, t, w);
  }

  /** A session has the same effect throughout, whether or not the hidden key exists, if and only if none of its
      requests tells; and then it is answered alike throughout. */
  lemma {:induction false} SessionsTellExactly(env: Env, s: State, c: Id, t: Id, session: seq<Exchange>)
    requires Inv(env, s) && HiddenFrom(env, s, c, t) && FreshSession(env, s, c, session)
    ensures SameEffects(env, s, Gone(s, t), c, session) <==> NeverTells(env, s, c, t, session)
    ensures NeverTells(env, s, c, t, session) ==> Transcript(env, Gone(s, t), c, session) == Transcript(env, s, c, session)
    decreases session
  {
    hide Inv, HiddenFrom, Tells, FreshDraw, Handle, AnswerOf, Gone, Moved;
    if session != [] {
      var x := session[0];
      KeyIndistinguishable(env, s, c, t, x.request, x.draw);
      if !Tells(env, s, c, t, x.request, x.draw) {
        ExchangeAlike(env, s, c, t, x);
        SessionsTellExactly(env, Moved(env, s, c, x), c, t, session[1..]);
      }
    }
  }
}
