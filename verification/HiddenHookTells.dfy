/**
 Exactly which requests tell a hidden hook from none. Every other request has the same effect, write and answer,
 whether or not the hook exists.
 */
module HiddenHookTells {
  import opened Text
  import opened Rbac
  import opened Guards
  import opened Lineage
  import opened Hooks
  import opened KeyRoutes
  import opened HookRoutes
  import opened ExecutionRoutes
  import opened Service
  import opened Writes
  import opened Invariants
  import opened HiddenHook
  import ArgsTemplate
  import Listings

  /** What lets a caller below the master get as far as the inventory of a deletion. */
  ghost predicate MayDelete(s: State, c: Id, id: Id)
    requires c in s.keys
  {
    s.keys[c].canManageKeys && id in s.keys && id != c && !s.keys[id].isMaster && DescendsFrom(s.keys, id, c)
  }

  /** The requests that tell: taking the hidden name when all else is in order; granting oneself a verb on the hook;
      seeing a key below the caller that holds a row on it; deleting a subtree that owns it; and reading a record of
      the caller's own runs. */
  ghost predicate Tells(env: Env, s: State, c: Id, h: Id, req: Request, d: Draw)
    requires c in s.keys && h in s.hooks
  {
    match req
    case PostHook(p) => Trim(p.name) == s.hooks[h].name && CreateHook(env, Absent(s, h), c, p, d).Pass?
    case PutHook(identifier, p) =>
      p.name.Some? && Trim(p.name.value) == s.hooks[h].name && UpdateHook(env, Absent(s, h), c, identifier, p).Pass?
    case PostPermission(id, p) =>
      && id == c && p.row != Row(false, false, false)
      && HasPermissionAdminStanding(s, c, Effective(env, s, c)) && !s.keys[c].isMaster
      && GrantIdentifier(p).Pass? && ResolveHook(env, s, GrantIdentifier(p).value) == Pass(h)
    case GetKeys => s.keys[c].canManageKeys && exists k :: k in Descendants(s.keys, c) && (k, h) in s.rows
    case PutKey(id, p) => (id, h) in s.rows && UpdateKey(env, s, c, id, p).Pass?
    case RemoveKey(id, resolutions) =>
      var subtree := Subtree(s.keys, id);
      var owned := OwnedHooks(s, subtree);
      && MayDelete(s, c, id) && h in owned
      && resolutions.Keys <= owned && (owned <= resolutions.Keys ==> ValidTargets(s, subtree, resolutions))
    case GetExecutions(q) =>
      && q.rest.Some? && NonEmpty(q.hook).None?
      && exists e :: OwnRun(s, c, h, None, AuthorsOf(env, s, q), q.rest.value, e)
    case GetOneExecution(e) => e in s.executions && s.executions[e].hook == h && s.executions[e].author == Some(c)
    case _ => false
  }

  // ── Names ──────────────────────────────────────────────────────────────────

  lemma HiddenNameTaken(s: State, h: Id, except: Option<Id>)
    requires h in s.hooks && except != Some(h)
    ensures NameTaken(s, s.hooks[h].name, except)
  {
  }

  /** A creation tells exactly when it takes the hidden hook's name and would otherwise have passed. */
  lemma CreatingTellsExactly(env: Env, s: State, c: Id, h: Id, p: CreateHookPayload, d: Draw)
    requires Inv(env, s) && Unrelated(s, c, h) && c in s.keys && FreshDraw(s, d)
    ensures CreateHook(env, Absent(s, h), c, p, d) != CreateHook(env, s, c, p, d)
       <==> CreateHook(env, Absent(s, h), c, p, d).Pass? && Trim(p.name) == s.hooks[h].name
    ensures AnswerOf(CreateHook(env, Absent(s, h), c, p, d)) != AnswerOf(CreateHook(env, s, c, p, d))
       <==> && CreateHook(env, Absent(s, h), c, p, d).Pass? && Trim(p.name) == s.hooks[h].name
            && !RepeatsKey(Or(p.parameters, []))
  {
    hide Inv, NormalizeRunAsUser, SealHmacSecret, ValidSamplePayload, ArgsTemplate.ValidArgsTemplate, Trim, NameTaken,
         Apply, IsIdentifier, KeySet, DistinctPrefix, InsertedParams, FreshDraw, Detail, Unrelated, RepeatsKey, Absent;
    HiddenIsThere(s, c, h);
    AbsentKeepsKeys(s, h);
    if Trim(p.name) != s.hooks[h].name {
      CreatingAlike(env, s, c, h, p, d);
    } else {
      HiddenNameTaken(s, h, None);
      DistinctPrefixExactly(Or(p.parameters, []));
    }
  }

  /** A renaming tells exactly when it takes the hidden hook's name and would otherwise have passed. */
  lemma RenamingTellsExactly(env: Env, s: State, c: Id, h: Id, identifier: string, p: UpdateHookPayload)
    requires Inv(env, s) && PlainNames(env, s) && Unrelated(s, c, h) && c in s.keys && !Effective(env, s, c).isMaster
    ensures UpdateHook(env, Absent(s, h), c, identifier, p) == UpdateHook(env, s, c, identifier, p)
       <==> AnswerOf(UpdateHook(env, Absent(s, h), c, identifier, p)) == AnswerOf(UpdateHook(env, s, c, identifier, p))
    ensures UpdateHook(env, Absent(s, h), c, identifier, p) != UpdateHook(env, s, c, identifier, p)
       <==> && UpdateHook(env, Absent(s, h), c, identifier, p).Pass?
            && p.name.Some? && Trim(p.name.value) == s.hooks[h].name
  {
    hide Inv, PlainNames, Unrelated, MayEdit, Alike, Detail, ParamsOf, ParamKeys, SealHmacSecret, ValidSamplePayload,
         ArgsTemplate.ValidArgsTemplate, Trim, NameTaken, Apply, Absent, Edited;
    HiddenIsThere(s, c, h);
    AbsentKeepsKeys(s, h);
    if p.name.None? || Trim(p.name.value) != s.hooks[h].name {
      UpdatingAlike(env, s, c, h, identifier, p);
    } else {
      AbsentAlike(s, c, h);
      EditorsAlike(env, s, c, h, identifier, p);
      var r := MayEdit(env, s, c, identifier, p);
      if r.Pass? {
        var (g, user) := r.value;
        GuardsAlike(s, Absent(s, h), c, Effective(env, s, c), h, g);
        HiddenNameTaken(s, h, Some(g));
        var secret := SealHmacSecret(env, Or(p.authMode, s.hooks[g].authMode), p.hmacSecret, s.hooks[g].hmacSecret);
        if secret.Pass? {
          EditedName(s.hooks[g], p, user, secret.value);
        }
      }
    }
  }

  // ── Keys ───────────────────────────────────────────────────────────────────

  /** The key list tells exactly when it shows a key below the caller that holds a row on the hidden hook. */
  lemma KeyListTellsExactly(env: Env, s: State, c: Id, h: Id)
    requires Unrelated(s, c, h) && c in s.keys && !Effective(env, s, c).isMaster && References(s)
    ensures ListKeys(env, Absent(s, h), c) == ListKeys(env, s, c)
       <==> AnswerOf(ListKeys(env, Absent(s, h), c)) == AnswerOf(ListKeys(env, s, c))
    ensures ListKeys(env, Absent(s, h), c) != ListKeys(env, s, c)
       <==> s.keys[c].canManageKeys && exists k :: k in Descendants(s.keys, c) && (k, h) in s.rows
  {
    hide ListedKeys, Unrelated, References, Descendants;
    HiddenIsThere(s, c, h);
    var key := Effective(env, s, c);
    if k :| k in Descendants(s.keys, c) && (k, h) in s.rows {
      ListShows(s, c, key, h, k);
    } else {
      KeyListAlike(s, c, key, h);
    }
  }

  lemma ListShows(s: State, c: Id, key: Key, h: Id, k: Id)
    requires h in s.hooks && k in Descendants(s.keys, c) && (k, h) in s.rows
    ensures ListedKeys(Absent(s, h), c, key) != ListedKeys(s, c, key)
  {
    hide ListedKeys, KeyVisibility;
    var s0 := Absent(s, h);
    SeesBelow(s, c, key, k);
    SeesBelow(s0, c, key, k);
    Listings.KeyListIsPointwise(s, c, key, k);
    Listings.KeyListIsPointwise(s0, c, key, k);
    PermissionsTell(s, h, k);
  }

  lemma SeesBelow(s: State, c: Id, key: Key, k: Id)
    requires k in Descendants(s.keys, c)
    ensures k in s.keys && KeyVisibility(s, c, key, k) == FullForm
  {
  }

  lemma PermissionsTell(s: State, h: Id, k: Id)
    requires h in s.hooks && k in s.keys && (k, h) in s.rows
    ensures h in PermissionsOf(s, k) && h !in PermissionsOf(Absent(s, h), k)
    ensures Summary(Absent(s, h), k) != Summary(s, k)
  {
    assert h in Summary(s, k).permissions && h !in Summary(Absent(s, h), k).permissions;
  }

  /** Editing a key tells exactly when it passes and the key holds a row on the hidden hook. */
  lemma EditingKeysTellsExactly(env: Env, s: State, c: Id, h: Id, id: Id, p: UpdateKeyPayload)
    requires Unrelated(s, c, h) && c in s.keys
    ensures UpdateKey(env, Absent(s, h), c, id, p) == UpdateKey(env, s, c, id, p)
       <==> AnswerOf(UpdateKey(env, Absent(s, h), c, id, p)) == AnswerOf(UpdateKey(env, s, c, id, p))
    ensures UpdateKey(env, Absent(s, h), c, id, p) != UpdateKey(env, s, c, id, p)
       <==> (id, h) in s.rows && UpdateKey(env, s, c, id, p).Pass?
  {
    hide KeyVisibility, LoadAdministrableKey, Summary, Unrelated, ValidateBoundIps, ValidateConcurrency, Replaced;
    HiddenIsThere(s, c, h);
    if (id, h) !in s.rows {
      EditingKeysAlike(env, s, c, h, id, p);
    } else {
      VisibilityAlike(s, c, Effective(env, s, c), h, id);
      var e := UpdateKey(env, s, c, id, p);
      if e.Pass? {
        var s1 := Apply(s, e.value.write);
        assert Apply(Absent(s, h), e.value.write) == Absent(s1, h);
        PermissionsTell(s1, h, id);
      }
    }
  }

  lemma OwnedWithout(s: State, h: Id, subtree: set<Id>)
    ensures OwnedHooks(Absent(s, h), subtree) == OwnedHooks(s, subtree) - {h}
    ensures Inventory(s, subtree).Unresolved? && Inventory(Absent(s, h), subtree).Unresolved?
    ensures h in OwnedHooks(s, subtree) ==>
              && Inventory(s, subtree).inventory.Keys == OwnedHooks(s, subtree)
              && Inventory(Absent(s, h), subtree).inventory.Keys == OwnedHooks(s, subtree) - {h}
  {
  }

  /** Deleting a key tells exactly when its subtree owns the hidden hook and the caller's resolutions, none of them
      stray, get it as far as the inventory or beyond. */
  lemma DeletingKeysTellsExactly(env: Env, s: State, c: Id, h: Id, id: Id, resolutions: map<Id, Resolution>, d: Draw)
    requires Unrelated(s, c, h) && c in s.keys && !Effective(env, s, c).isMaster
    ensures DeleteKey(env, Absent(s, h), c, id, resolutions, d) == DeleteKey(env, s, c, id, resolutions, d)
       <==> AnswerOf(DeleteKey(env, Absent(s, h), c, id, resolutions, d)) == AnswerOf(DeleteKey(env, s, c, id, resolutions, d))
    ensures DeleteKey(env, Absent(s, h), c, id, resolutions, d) != DeleteKey(env, s, c, id, resolutions, d)
       <==> && MayDelete(s, c, id) && h in OwnedHooks(s, Subtree(s.keys, id))
            && resolutions.Keys <= OwnedHooks(s, Subtree(s.keys, id))
            && (OwnedHooks(s, Subtree(s.keys, id)) <= resolutions.Keys ==> ValidTargets(s, Subtree(s.keys, id), resolutions))
  {
    hide Subtree, KeyVisibility, Inventory, OwnedHooks, Unrelated, ValidTargets, Absent, DescendsFrom;
    HiddenIsThere(s, c, h);
    AbsentKeepsKeys(s, h);
    var subtree := Subtree(s.keys, id);
    OwnedByOwner(s, h, subtree);
    if h !in OwnedHooks(s, subtree) {
      DeletingKeysAlike(env, s, c, h, id, resolutions, d);
    } else if id != c {
      VisibilityAlike(s, c, Effective(env, s, c), h, id);
      Administrable(s, c, Effective(env, s, c), id);
      OwnedWithout(s, h, subtree);
      TargetsAlike(s, h, subtree, resolutions);
      assert h in resolutions ==> !(resolutions.Keys <= OwnedHooks(s, subtree) - {h});
      assert h !in resolutions ==> !(OwnedHooks(s, subtree) <= resolutions.Keys);
      assert h !in OwnedHooks(Absent(s, h), subtree);
      assert Inventory(Absent(s, h), subtree) != Inventory(s, subtree);
    }
  }

  lemma OwnedByOwner(s: State, h: Id, subtree: set<Id>)
    requires h in s.hooks
    ensures h in OwnedHooks(s, subtree) <==> s.hooks[h].owner.Some? && s.hooks[h].owner.value in subtree
  {
  }

  lemma TargetsAlike(s: State, h: Id, subtree: set<Id>, resolutions: map<Id, Resolution>)
    ensures ValidTargets(Absent(s, h), subtree, resolutions) <==> ValidTargets(s, subtree, resolutions)
  {
  }

  lemma Administrable(s: State, c: Id, key: Key, id: Id)
    requires !key.isMaster && id != c
    ensures LoadAdministrableKey(s, c, key, id)
         == if id in s.keys && DescendsFrom(s.keys, id, c) then Pass(s.keys[id]) else Stop(NotFound)
  {
    hide DescendsFrom, HoldsRowIn, ManagedHookIds;
  }

  // ── Records ────────────────────────────────────────────────────────────────

  /** The history tells exactly when it names no hook and shows a run of the hidden one by the caller. */
  lemma HistoryTellsExactly(env: Env, s: State, c: Id, h: Id, q: ExecutionQuery)
    requires Inv(env, s) && PlainNames(env, s) && Unrelated(s, c, h) && c in s.keys && !Effective(env, s, c).isMaster
    ensures ListExecutions(env, Absent(s, h), c, q) == ListExecutions(env, s, c, q)
       <==> AnswerOf(ListExecutions(env, Absent(s, h), c, q)) == AnswerOf(ListExecutions(env, s, c, q))
    ensures ListExecutions(env, Absent(s, h), c, q) != ListExecutions(env, s, c, q)
       <==> && q.rest.Some? && NonEmpty(q.hook).None?
            && exists e :: OwnRun(s, c, h, None, AuthorsOf(env, s, q), q.rest.value, e)
  {
    hide Inv, PlainNames, Unrelated, HookFilter, Matching, Absent, AuthorFilter, OwnRun;
    AbsentKeepsKeys(s, h);
    FilterAlike(env, s, c, h, q.hook);
    FilterNamesAnother(env, s, c, h, q.hook);
    var hook := HookFilter(env, s, c, q.hook);
    if hook.Pass? && q.rest.Some? {
      if NonEmpty(q.author).Some? {
        AuthorsAlike(env, s, h, q.author.value);
      }
      var authors := AuthorsOf(env, s, q);
      MatchingTellsExactly(s, c, Effective(env, s, c), h, hook.value, authors, q.rest.value);
      if hook.value.Some? {
        AnotherHooksRuns(s, c, h, hook.value, authors, q.rest.value);
      }
    }
  }

  lemma FilterNamesAnother(env: Env, s: State, c: Id, h: Id, hook: Option<string>)
    requires Unrelated(s, c, h) && c in s.keys && !Effective(env, s, c).isMaster
    ensures var r := HookFilter(env, s, c, hook);
      (NonEmpty(hook).None? ==> r == Pass(None)) && (NonEmpty(hook).Some? && r.Pass? ==> r.value.Some? && r.value != Some(h))
  {
    hide ResolveHook;
    GuardsHide(s, c, Effective(env, s, c), h);
  }

  lemma AnotherHooksRuns(s: State, c: Id, h: Id, hook: Option<Id>, authors: Option<set<Id>>, rest: (string, int) -> bool)
    requires hook.Some? && hook.value != h
    ensures !exists e :: OwnRun(s, c, h, hook, authors, rest, e)
  {
  }

  // ── Every request ──────────────────────────────────────────────────────────

  lemma KeyRequestsTell(env: Env, s: State, c: Id, h: Id, req: Request, d: Draw)
    requires Inv(env, s) && PlainNames(env, s) && c in s.keys && !Effective(env, s, c).isMaster && FreshDraw(s, d)
    requires Unrelated(s, c, h) && h in s.hooks && OnKeys(req)
    ensures Handle(env, Absent(s, h), c, req, d) == Handle(env, s, c, req, d) <==> !Tells(env, s, c, h, req, d)
    ensures AnswerOf(Handle(env, Absent(s, h), c, req, d)) == AnswerOf(Handle(env, s, c, req, d))
       <==> !Tells(env, s, c, h, req, d)
  {
    hide Inv, PlainNames, CreateKey, ListKeys, UpdateKey, DeleteKey, RenewCredentials, Grant, Revoke, CreateHook, ListHooks,
         GetHook, UpdateHook, DeleteHook, RestoreHook, PurgeHooks, ListParams, CreateParam, UpdateParam, DeleteParam,
         ExecuteHook, TestHook, ListExecutions, GetExecution, DeleteExecution, PurgeExecutions, Trim, FreshDraw, Unrelated,
         Absent, MayDelete, Subtree, OwnedHooks, ValidTargets, HasPermissionAdminStanding, ResolveHook, AnswerOf, Descendants,
         GrantIdentifier, References, OwnersUsed, Forest, IsIdentifier, NonEmpty;
    AbsentKeepsKeys(s, h);
    match req {
      case PostKey(p) => CreatingKeysAlike(env, s, c, h, p, d);
      case GetKeys =>
        InvParts(env, s);
        KeyListTellsExactly(env, s, c, h);
      case PutKey(id, p) => EditingKeysTellsExactly(env, s, c, h, id, p);
      case RemoveKey(id, resolutions) => DeletingKeysTellsExactly(env, s, c, h, id, resolutions, d);
      case Renew(id, renewal) => RenewingAlike(env, s, c, h, id, renewal, d);
      case PostPermission(id, p) => SelfGrantTellsExactly(env, s, c, h, id, p);
      case RemovePermission(id, identifier) => RevokingAlike(env, s, c, h, id, identifier);
    }
  }

  lemma ParamsNeverTell(env: Env, s: State, c: Id, h: Id, req: Request, d: Draw)
    requires c in s.keys && h in s.hooks && OnParams(req)
    ensures !Tells(env, s, c, h, req, d)
  {
  }

  lemma ParamRequestsAlike(env: Env, s: State, c: Id, h: Id, req: Request, d: Draw)
    requires Inv(env, s) && PlainNames(env, s) && c in s.keys && !Effective(env, s, c).isMaster && FreshDraw(s, d)
    requires Unrelated(s, c, h) && h in s.hooks && OnParams(req)
    ensures Handle(env, Absent(s, h), c, req, d) == Handle(env, s, c, req, d) && !Tells(env, s, c, h, req, d)
  {
    hide Inv, PlainNames, CreateKey, ListKeys, UpdateKey, DeleteKey, RenewCredentials, Grant, Revoke, CreateHook, ListHooks,
         GetHook, UpdateHook, DeleteHook, RestoreHook, PurgeHooks, ListParams, CreateParam, UpdateParam, DeleteParam,
         ExecuteHook, TestHook, ListExecutions, GetExecution, DeleteExecution, PurgeExecutions, FreshDraw, Unrelated,
         Absent, Tells;
    ParamsNeverTell(env, s, c, h, req, d);
    AbsentKeepsKeys(s, h);
    var noEdit, noInput := UpdateParamPayload(None, None, None), ParamInput("", None, None, None);
    match req {
      case GetParams(identifier) => ReadingAlike(env, s, c, h, identifier, "", d);
      case PostParam(identifier, p) => ParamsAlike(env, s, c, h, identifier, 0, p, noEdit, d);
      case PutParam(identifier, param, p) => ParamsAlike(env, s, c, h, identifier, param, noInput, p, d);
      case RemoveParam(identifier, param) => ParamsAlike(env, s, c, h, identifier, param, noInput, noEdit, d);
      case PostExecute(identifier) => ReadingAlike(env, s, c, h, identifier, "", d);
      case PostTest(identifier, body) => ReadingAlike(env, s, c, h, identifier, body, d);
    }
  }

  /** A creation over a repeated parameter key answers a conflict in both states. */
  predicate Clashes(req: Request) {
    req.PostHook? && RepeatsKey(Or(req.createHook.parameters, []))
  }

  lemma OtherRequestsTell(env: Env, s: State, c: Id, h: Id, req: Request, d: Draw)
    requires Inv(env, s) && PlainNames(env, s) && c in s.keys && !Effective(env, s, c).isMaster && FreshDraw(s, d)
    requires Unrelated(s, c, h) && h in s.hooks && !OnKeys(req) && !OnParams(req)
    ensures Handle(env, Absent(s, h), c, req, d) == Handle(env, s, c, req, d) <==> !Tells(env, s, c, h, req, d)
    ensures AnswerOf(Handle(env, Absent(s, h), c, req, d)) == AnswerOf(Handle(env, s, c, req, d))
       <==> !Tells(env, s, c, h, req, d) || Clashes(req)
  {
    hide Inv, PlainNames, CreateKey, ListKeys, UpdateKey, DeleteKey, RenewCredentials, Grant, Revoke, CreateHook, ListHooks,
         GetHook, UpdateHook, DeleteHook, RestoreHook, PurgeHooks, ListParams, CreateParam, UpdateParam, DeleteParam,
         ExecuteHook, TestHook, ListExecutions, GetExecution, DeleteExecution, PurgeExecutions, Trim, FreshDraw, Unrelated,
         Absent, AnswerOf, RepeatsKey, OwnRun, AuthorsOf;
    AbsentKeepsKeys(s, h);
    match req {
      case PostHook(p) => CreatingTellsExactly(env, s, c, h, p, d);
      case GetHooks(includeDeleted) => HookListAlike(env, s, c, h, includeDeleted);
      case GetOneHook(identifier, _) => ReadingAlike(env, s, c, h, identifier, "", d);
      case PutHook(identifier, p) => RenamingTellsExactly(env, s, c, h, identifier, p);
      case RemoveHook(identifier, hard) => DeletingAlike(env, s, c, h, identifier, hard, d);
      case PostRestore(identifier) => MasterRoutesAlike(env, s, c, h, identifier, None, d);
      case PostPurgeHooks(days) => MasterRoutesAlike(env, s, c, h, "", days, d);
      case GetExecutions(q) => HistoryTellsExactly(env, s, c, h, q);
      case GetOneExecution(e) => RecordAlike(env, s, c, h, e);
      case RemoveOneExecution(e) => RecordAlike(env, s, c, h, e);
      case PostPurgeExecutions(days) => MasterRoutesAlike(env, s, c, h, "", days, d);
    }
  }

  /** A request has the same effect whether or not the hidden hook exists if and only if it is not one of those that
      tell; and the answers differ with the effects, except that a creation over a repeated parameter key answers a
      conflict either way. */
  lemma HookIndistinguishable(env: Env, s: State, c: Id, h: Id, req: Request, d: Draw)
    requires Inv(env, s) && PlainNames(env, s) && c in s.keys && !Effective(env, s, c).isMaster && FreshDraw(s, d)
    requires Unrelated(s, c, h)
    ensures h in s.hooks && c in Absent(s, h).keys
    ensures Handle(env, Absent(s, h), c, req, d) == Handle(env, s, c, req, d) <==> !Tells(env, s, c, h, req, d)
    ensures AnswerOf(Handle(env, Absent(s, h), c, req, d)) == AnswerOf(Handle(env, s, c, req, d))
       <==> !Tells(env, s, c, h, req, d) || Clashes(req)
  {
    HiddenIsThere(s, c, h);
    AbsentKeepsKeys(s, h);
    hide *;
    if OnKeys(req) {
      KeyRequestsTell(env, s, c, h, req, d);
      NotACreation(req);
    } else if OnParams(req) {
      ParamRequestsAlike(env, s, c, h, req, d);
    } else {
      OtherRequestsTell(env, s, c, h, req, d);
    }
  }

  lemma NotACreation(req: Request)
    requires OnKeys(req)
    ensures !Clashes(req)
  {
  }
}
