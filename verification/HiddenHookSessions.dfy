/** The same over whole sessions: a session runs as if the hidden hook did not exist exactly until a request tells. */
module HiddenHookSessions {
  import opened Text
  import opened Rbac
  import opened Guards
  import opened Lineage
  import opened KeyRoutes
  import opened HookRoutes
  import opened ExecutionRoutes
  import opened Service
  import opened Writes
  import opened Invariants
  import opened HiddenHook
  import opened HiddenHookTells
  import opened Sessions

  /** The request names no hook like an id. */
  ghost predicate NamesPlainly(env: Env, req: Request) {
    match req
    case PostHook(p) => env.parseId(Trim(p.name)).None?
    case PutHook(_, p) => p.name.Some? ==> env.parseId(Trim(p.name.value)).None?
    case _ => true
  }

  /** No request of the session is one of those that tell, where it is made. */
  ghost predicate NeverTells(env: Env, s: State, c: Id, h: Id, session: seq<Exchange>)
    decreases session
  {
    session != [] ==>
      && c in s.keys && h in s.hooks && !Tells(env, s, c, h, session[0].request, session[0].draw)
      && NeverTells(env, Moved(env, s, c, session[0]), c, h, session[1..])
  }

  // ── One write ──────────────────────────────────────────────────────────────

  /** Where the hidden hook's row and everything on it are left alone. */
  predicate LeavesAlone(s: State, w: Write, h: Id) {
    match w
    case RemoveKeys(_, resolutions, _, _) => h !in resolutions
    case PutRow(_, hook, _) => hook != h
    case InsertHook(id, _, declared, _) => id != h && forall p :: p in declared ==> declared[p].hook == id && p !in s.params
    case SetHook(id, _) => id != h
    case RemoveHooks(_) => false
    case SetParam(id, param) => param.hook != h && (id in s.params ==> s.params[id].hook != h)
    case InsertExecution(id, x) => x.hook != h && id !in s.executions
    case _ => true
  }

  /** A deletion that settled the hidden hook would have told of it. */
  lemma SilentDeletionSparesIt(env: Env, s: State, c: Id, h: Id, id: Id, resolutions: map<Id, Resolution>, d: Draw)
    requires c in s.keys && !Effective(env, s, c).isMaster && h in s.hooks
    requires !Tells(env, s, c, h, RemoveKey(id, resolutions), d)
    ensures WriteOf(DeleteKey(env, s, c, id, resolutions, d)).RemoveKeys? ==>
              h !in WriteOf(DeleteKey(env, s, c, id, resolutions, d)).resolutions
  {
    hide Subtree, OwnedHooks, ValidTargets, Inventory, DescendsFrom, KeyVisibility, LoadAdministrableKey;
    if id != c {
      Administrable(s, c, Effective(env, s, c), id);
    }
  }

  lemma SilentRemovalSparesIt(env: Env, s: State, c: Id, h: Id, req: Request, d: Draw)
    requires c in s.keys && !Effective(env, s, c).isMaster && h in s.hooks && !Tells(env, s, c, h, req, d)
    ensures WriteOf(Handle(env, s, c, req, d)).RemoveKeys? ==> h !in WriteOf(Handle(env, s, c, req, d)).resolutions
  {
    hide CreateKey, ListKeys, UpdateKey, DeleteKey, RenewCredentials, Grant, Revoke, CreateHook, ListHooks, GetHook,
         UpdateHook, DeleteHook, RestoreHook, PurgeHooks, ListParams, CreateParam, UpdateParam, DeleteParam, ExecuteHook,
         TestHook, ListExecutions, GetExecution, DeleteExecution, PurgeExecutions, WriteOf, Tells;
    EveryRequestNames(env, s, c, req, d);
    if req.RemoveKey? {
      SilentDeletionSparesIt(env, s, c, h, req.id, req.resolutions, d);
    }
  }

  lemma SanctionedLeavesAlone(env: Env, s: State, c: Id, h: Id, w: Write)
    requires References(s) && c in s.keys && Unrelated(s, c, h) && Legal(env, s, w) && Sanctioned(s, c, w)
    requires w.RemoveKeys? ==> h !in w.resolutions
    ensures LeavesAlone(s, w, h)
  {
    hide HookOk, KeyOk, NameTaken, Subtree, ValidTargets, OwnedHooks, DescendsFrom, Within, Privileged, SameDispatch, ParamKeys,
         ParamsOf, IsIdentifier;
  }

  lemma HooksCommute(s: State, h: Id, w: Write)
    requires LeavesAlone(s, w, h)
    ensures Apply(Absent(s, h), w).hooks == Absent(Apply(s, w), h).hooks
  {
    hide Resolved;
  }

  lemma KeysCommute(s: State, h: Id, w: Write)
    requires LeavesAlone(s, w, h)
    ensures Apply(Absent(s, h), w).keys == Absent(Apply(s, w), h).keys
    ensures Apply(Absent(s, h), w).used == Absent(Apply(s, w), h).used
  {
    hide ResolvedHooks;
  }

  lemma ParamsUntouched(s: State, h: Id, w: Write)
    requires !(w.InsertHook? || w.SetParam? || w.DropParam? || w.RemoveHooks?)
    ensures Apply(Absent(s, h), w).params == Absent(s, h).params && Apply(s, w).params == s.params
  {
    hide ResolvedHooks, Absent;
  }

  lemma ParamsCommute(s: State, h: Id, w: Write)
    requires LeavesAlone(s, w, h)
    ensures Apply(Absent(s, h), w).params == Absent(Apply(s, w), h).params
  {
    hide ResolvedHooks;
    if w.InsertHook? || w.SetParam? || w.DropParam? {
      ParamsWritten(s, h, w);
    } else {
      ParamsUntouched(s, h, w);
    }
  }

  lemma ParamsWritten(s: State, h: Id, w: Write)
    requires LeavesAlone(s, w, h) && (w.InsertHook? || w.SetParam? || w.DropParam?)
    ensures Apply(Absent(s, h), w).params == Absent(Apply(s, w), h).params
  {
    hide ResolvedHooks;
  }

  lemma RowsUntouched(s: State, h: Id, w: Write)
    requires !(w.InsertHook? || w.PutRow? || w.DropRow? || w.RemoveKeys? || w.RemoveHooks?)
    ensures Apply(Absent(s, h), w).rows == Absent(s, h).rows && Apply(s, w).rows == s.rows
  {
    hide ResolvedHooks, Absent;
  }

  lemma RowsCommute(s: State, h: Id, w: Write)
    requires LeavesAlone(s, w, h)
    ensures Apply(Absent(s, h), w).rows == Absent(Apply(s, w), h).rows
  {
    hide ResolvedHooks;
    if w.RemoveKeys? {
      RowsRemoved(s, h, w);
    } else if w.InsertHook? || w.PutRow? || w.DropRow? {
      RowsWritten(s, h, w);
    } else {
      RowsUntouched(s, h, w);
    }
  }

  lemma RowsWritten(s: State, h: Id, w: Write)
    requires LeavesAlone(s, w, h) && (w.InsertHook? || w.PutRow? || w.DropRow?)
    ensures Apply(Absent(s, h), w).rows == Absent(Apply(s, w), h).rows
  {
  }

  lemma RowsRemoved(s: State, h: Id, w: Write)
    requires w.RemoveKeys?
    ensures Apply(Absent(s, h), w).rows == Absent(Apply(s, w), h).rows
  {
    hide ResolvedHooks;
  }

  lemma ExecutionsCommute(s: State, h: Id, w: Write)
    requires LeavesAlone(s, w, h)
    ensures Apply(Absent(s, h), w).executions == Absent(Apply(s, w), h).executions
  {
    hide ResolvedHooks;
  }

  /** Removing the hook and such a write commute. */
  lemma AbsentCommutes(s: State, h: Id, w: Write)
    requires LeavesAlone(s, w, h)
    ensures Apply(Absent(s, h), w) == Absent(Apply(s, w), h)
  {
    hide LeavesAlone, Apply, Absent;
    KeysCommute(s, h, w);
    HooksCommute(s, h, w);
    ParamsCommute(s, h, w);
    RowsCommute(s, h, w);
    ExecutionsCommute(s, h, w);
  }

  /** The hidden hook itself, and what refers to it, gain nothing. */
  lemma HiddenIsLeft(s: State, h: Id, w: Write)
    requires LeavesAlone(s, w, h) && h in s.hooks
    ensures h in Apply(s, w).hooks && Apply(s, w).hooks[h] == s.hooks[h]
    ensures forall k :: (k, h) in Apply(s, w).rows ==> (k, h) in s.rows
    ensures forall e :: e in Apply(s, w).executions && Apply(s, w).executions[e].hook == h ==>
              && e in s.executions && s.executions[e].hook == h
              && (Apply(s, w).executions[e].author.Some? ==> Apply(s, w).executions[e].author == s.executions[e].author)
  {
  }

  lemma UnrelatedKept(s: State, c: Id, h: Id, w: Write)
    requires Unrelated(s, c, h) && LeavesAlone(s, w, h)
    ensures Unrelated(Apply(s, w), c, h)
  {
    hide Apply, LeavesAlone;
    HiddenIsLeft(s, h, w);
  }

  lemma PlainNamesKept(env: Env, s: State, req: Request, w: Write)
    requires PlainNames(env, s) && NamesPlainly(env, req) && NamesFrom(s, req, w)
    ensures PlainNames(env, Apply(s, w))
  {
    hide Trim;
    forall g | g in Apply(s, w).hooks ensures env.parseId(Apply(s, w).hooks[g].name).None? {
    }
  }

  // ── Sessions ───────────────────────────────────────────────────────────────

  ghost predicate Hiding(env: Env, s: State, c: Id, h: Id) {
    Inv(env, s) && PlainNames(env, s) && c in s.keys && !Effective(env, s, c).isMaster && Unrelated(s, c, h)
  }

  /** One exchange that does not tell: the same effect in both states, which stay related. */
  lemma ExchangeAlike(env: Env, s: State, c: Id, h: Id, x: Exchange)
    requires Hiding(env, s, c, h) && h in s.hooks && !Tells(env, s, c, h, x.request, x.draw)
    requires NamesPlainly(env, x.request) && FreshDraw(s, x.draw)
    ensures c in Absent(s, h).keys
    ensures Handle(env, Absent(s, h), c, x.request, x.draw) == Handle(env, s, c, x.request, x.draw)
    ensures Moved(env, Absent(s, h), c, x) == Absent(Moved(env, s, c, x), h)
    ensures Hiding(env, Moved(env, s, c, x), c, h)
  {
    hide Inv, PlainNames, NamesPlainly, Tells, FreshDraw, Handle, WriteOf, Apply, Absent, Unrelated, Legal, Sanctioned,
         LeavesAlone, NamesFrom;
    var w := WriteOf(Handle(env, s, c, x.request, x.draw));
    AbsentKeepsKeys(s, h);
    HookIndistinguishable(env, s, c, h, x.request, x.draw);
    InvParts(env, s);
    EveryWriteProper(env, s, c, x.request, x.draw);
    SilentRemovalSparesIt(env, s, c, h, x.request, x.draw);
    SanctionedLeavesAlone(env, s, c, h, w);
    AbsentCommutes(s, h, w);
    LegalKeepsInv(env, s, w);
    CallerSurvives(env, s, c, w);
    UnrelatedKept(s, c, h, w);
    EveryRequestNames(env, s, c, x.request, x.draw);
    PlainNamesKept(env, s, x.request, w);
  }

  /** A session has the same effect throughout, whether or not the hidden hook exists, if and only if none of its
      requests tells; and then it is answered alike throughout. */
  lemma {:induction false} SessionsTellExactly(env: Env, s: State, c: Id, h: Id, session: seq<Exchange>)
    requires Hiding(env, s, c, h) && FreshSession(env, s, c, session)
    requires forall i :: 0 <= i < |session| ==> NamesPlainly(env, session[i].request)
    ensures SameEffects(env, s, Absent(s, h), c, session) <==> NeverTells(env, s, c, h, session)
    ensures NeverTells(env, s, c, h, session) ==> Transcript(env, Absent(s, h), c, session) == Transcript(env, s, c, session)
    decreases session
  {
    hide Inv, PlainNames, NamesPlainly, Tells, FreshDraw, Handle, AnswerOf, Absent, Moved, Unrelated, Effective;
    AbsentKeepsKeys(s, h);
    if session != [] {
      var x := session[0];
      HookIndistinguishable(env, s, c, h, x.request, x.draw);
      if !Tells(env, s, c, h, x.request, x.draw) {
        ExchangeAlike(env, s, c, h, x);
        SessionsTellExactly(env, Moved(env, s, c, x), c, h, session[1..]);
      }
    }
  }
}
