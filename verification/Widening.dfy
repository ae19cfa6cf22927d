/** The other half of containment: where the condition holds, two requests are enough to widen a hook. */
module Widening {
  import opened Text
  import opened Rbac
  import opened Guards
  import opened Lineage
  import opened Hooks
  import opened KeyRoutes
  import opened HookRoutes
  import opened Service
  import opened Writes
  import opened Invariants
  import opened Containment

  /** A run without the master at whose end `k` holds a verb on `h` that it lacked. */
  ghost predicate Gains(env: Env, s: State, run: seq<Step>, k: Id, h: Id, v: Verb) {
    ValidRun(env, s, run) && WithoutMaster(env, s, run) && Holds(After(env, s, run), k, h, v) && !Holds(s, k, h, v)
  }

  /** Some text names `h` by its id. */
  ghost predicate Addressable(env: Env, h: Id, text: string) {
    env.parseId(text) == Some(h)
  }

  function OnlyVerb(v: Verb): Row {
    Row(v == Execute, v == Manage, v == ViewExecution)
  }

  /** The smallest key a manager may create: no scope and no signing pair. */
  function Daughter(): CreateKeyPayload {
    CreateKeyPayload("", None, None, None, None, None, Some(false))
  }

  ghost function Bound(ids: set<Id>): (b: Id)
    ensures forall i :: i in ids ==> i < b
  {
    if ids == {} then 0
    else
      var i :| i in ids;
      var b := Bound(ids - {i});
      assert forall j :: j in ids ==> j == i || j in ids - {i};
      if b <= i then i + 1 else b
  }

  /** There is always another id. */
  ghost function NewDraw(s: State): (d: Draw)
    ensures FreshDraw(s, d)
  {
    var b := Bound(s.used);
    Draw(b, i => b + 1 + i, 0, 0, 0, None)
  }

  lemma SingleStep(env: Env, s: State, e: Step)
    requires Enabled(s, e) && !ByMaster(env, s, e)
    ensures ValidRun(env, s, [e]) && WithoutMaster(env, s, [e]) && After(env, s, [e]) == Next(env, s, e)
  {
    hide Enabled, ByMaster, Next;
    assert [e][1..] == [];
  }

  lemma TwoSteps(env: Env, s: State, e: Step, f: Step)
    requires Enabled(s, e) && !ByMaster(env, s, e)
    requires Enabled(Next(env, s, e), f) && !ByMaster(env, Next(env, s, e), f)
    ensures ValidRun(env, s, [e, f]) && WithoutMaster(env, s, [e, f])
    ensures After(env, s, [e, f]) == Next(env, Next(env, s, e), f)
  {
    hide Enabled, ByMaster, Next;
    SingleStep(env, Next(env, s, e), f);
    assert [e, f][1..] == [f];
  }

  /** A manager can always create a daughter. */
  lemma DaughterCreated(env: Env, s: State, m: Id, d: Draw)
    requires IsManager(env, s, m)
    ensures CreateKey(env, s, m, Daughter(), d).Pass?
    ensures WriteOf(CreateKey(env, s, m, Daughter(), d))
         == InsertKey(d.id, Key("", d.token, None, None, None, 10, false, false, false, Some(m)))
  {
  }

  lemma ChildIsVisible(s: State, c: Id, key: Key, k: Id)
    requires k in s.keys && s.keys[k].parent == Some(c) && k != c
    ensures KeyVisibility(s, c, key, k) == FullForm
  {
    ChildDescends(s.keys, k, c);
  }

  lemma ResolvesById(env: Env, s: State, text: string, h: Id)
    requires Addressable(env, h, text) && h in s.hooks && !s.hooks[h].isDeleted
    ensures ResolveHook(env, s, text) == Pass(h)
  {
  }

  lemma DaughterGranted(env: Env, s: State, m: Id, k: Id, h: Id, v: Verb, text: string)
    requires IsManager(env, s, m) && Holds(s, m, h, Manage) && Holds(s, m, h, v)
    requires k in s.keys && k != m && s.keys[k].parent == Some(m) && !s.keys[k].isMaster && (k, h) !in s.rows
    requires h in s.hooks && !s.hooks[h].isDeleted && !Privileged(s.hooks[h]) && Addressable(env, h, text)
    ensures Grant(env, s, m, k, GrantPayload(Some(text), None, OnlyVerb(v))) == Pass(Effect(PutRow(k, h, OnlyVerb(v)), Done))
  {
    hide ResolveHook, KeyVisibility, Privileged;
    ChildIsVisible(s, m, Effective(env, s, m), k);
    ResolvesById(env, s, text, h);
    assert ManagesAnyHook(s, m);
  }

  lemma AfterCreating(env: Env, s: State, m: Id, d: Draw)
    requires m in s.keys && FreshDraw(s, d) && CreateKey(env, s, m, Daughter(), d).Pass?
    ensures Next(env, s, Call(m, PostKey(Daughter()), d)) == Apply(s, WriteOf(CreateKey(env, s, m, Daughter(), d)))
  {
    hide CreateKey, Apply, FreshDraw;
  }

  lemma AfterGranting(env: Env, s: State, m: Id, k: Id, p: GrantPayload, d: Draw)
    requires m in s.keys && FreshDraw(s, d)
    ensures Next(env, s, Call(m, PostPermission(k, p), d)) == Apply(s, WriteOf(Grant(env, s, m, k, p)))
  {
    hide Grant, Apply, FreshDraw;
  }

  lemma WideningRun(env: Env, s: State, m: Id, h: Id, v: Verb, text: string) returns (run: seq<Step>, k: Id)
    requires References(s) && Addressable(env, h, text)
    requires h in s.hooks && !s.hooks[h].isDeleted && !Privileged(s.hooks[h])
    requires IsManager(env, s, m) && Holds(s, m, h, Manage) && Holds(s, m, h, v)
    ensures Gains(env, s, run, k, h, v)
  {
    hide Privileged, Addressable, CreateKey, Grant, FreshDraw, Next;
    var d := NewDraw(s);
    var create := Call(m, PostKey(Daughter()), d);
    k := d.id;
    Drawn(s, d);
    DaughterCreated(env, s, m, d);
    AfterCreating(env, s, m, d);
    var s1 := Next(env, s, create);
    DaughterGranted(env, s1, m, k, h, v, text);
    var p := GrantPayload(Some(text), None, OnlyVerb(v));
    var give := Call(m, PostPermission(k, p), NewDraw(s1));
    AfterGranting(env, s1, m, k, p, NewDraw(s1));
    TwoSteps(env, s, create, give);
    run := [create, give];
  }

  lemma Drawn(s: State, d: Draw)
    requires FreshDraw(s, d)
    ensures d.id !in s.used
  {
  }

  /** Exactly when a verb on `h` can spread without the master: when some manager holds both it and `can_manage` on
      `h`, and `h` is live and not elevated. */
  lemma VerbSpreadsExactly(env: Env, s: State, h: Id, v: Verb, text: string)
    requires Inv(env, s) && h in s.used && Addressable(env, h, text)
    ensures CanWiden(env, s, h, v) <==> exists run, k :: Gains(env, s, run, k, h, v)
  {
    hide Inv, References, Gains, Privileged, Addressable;
    if CanWiden(env, s, h, v) {
      var m :| IsManager(env, s, m) && Holds(s, m, h, Manage) && Holds(s, m, h, v);
      InvReferences(env, s);
      var run, k := WideningRun(env, s, m, h, v, text);
    }
    forall run, k | Gains(env, s, run, k, h, v) ensures CanWiden(env, s, h, v) {
      if !CanWiden(env, s, h, v) {
        NoGain(env, s, run, k, h, v);
      }
    }
  }

  lemma NoGain(env: Env, s: State, run: seq<Step>, k: Id, h: Id, v: Verb)
    requires Inv(env, s) && h in s.used && !CanWiden(env, s, h, v)
    ensures !Gains(env, s, run, k, h, v)
  {
    hide Inv, CanWiden;
    if Gains(env, s, run, k, h, v) {
      PermissionContainment(env, s, run, h, v);
    }
  }

  // ── Dispatch configuration ─────────────────────────────────────────────────

  /** A run without the master at whose end `h` runs something else. */
  ghost predicate Redirects(env: Env, s: State, run: seq<Step>, h: Id) {
    && ValidRun(env, s, run) && WithoutMaster(env, s, run)
    && h in s.hooks && h in After(env, s, run).hooks && !SameDispatch(s.hooks[h], After(env, s, run).hooks[h])
  }

  /** Point the hook at `path`, and clear what the declared parameters might contradict. */
  function Repoint(path: string): UpdateHookPayload {
    UpdateHookPayload(None, None, Some(path), None, None, None, None, None, None, None, None, Some(""), Some(""))
  }

  lemma Repointed(env: Env, s: State, m: Id, h: Id, path: string, text: string)
    requires Inv(env, s) && Addressable(env, h, text) && env.scriptPathOk(path)
    requires h in s.hooks && !s.hooks[h].isDeleted && !Privileged(s.hooks[h])
    requires IsManager(env, s, m) && Holds(s, m, h, Manage)
    ensures
      var e := UpdateHook(env, s, m, text, Repoint(path));
      e.Pass? && WriteOf(e).SetHook? && WriteOf(e).id == h && WriteOf(e).hookRow.scriptPath == path
  {
    hide ResolveHook, Privileged, Detail, References, Forest, OneMaster, KeyRules, ParamRules, ParamsOf, ParamKeys;
    ResolvesById(env, s, text, h);
    assert !NameTaken(s, s.hooks[h].name, Some(h));
    assert HookOk(env, s.hooks[h]);
  }

  /** Exactly when what `h` runs can change without the master: when some manager holds `can_manage` on it, and it is
      live and not elevated. Ownership alone never suffices. */
  lemma DispatchChangesExactly(env: Env, s: State, h: Id, path: string, text: string)
    requires Inv(env, s) && h in s.hooks && Addressable(env, h, text)
    requires env.scriptPathOk(path) && path != s.hooks[h].scriptPath
    ensures CanWiden(env, s, h, Manage) <==> exists run :: Redirects(env, s, run, h)
  {
    hide Inv, References, Redirects, Privileged, Addressable, UpdateHook, FreshDraw;
    if CanWiden(env, s, h, Manage) {
      var m :| IsManager(env, s, m) && Holds(s, m, h, Manage);
      Repointed(env, s, m, h, path, text);
      var e := Call(m, PutHook(text, Repoint(path)), NewDraw(s));
      SingleStep(env, s, e);
      RepointRedirects(env, s, e, h);
    }
    forall run | Redirects(env, s, run, h) ensures CanWiden(env, s, h, Manage) {
      if !CanWiden(env, s, h, Manage) {
        NoRedirect(env, s, run, h);
      }
    }
  }

  lemma RepointRedirects(env: Env, s: State, e: Step, h: Id)
    requires Enabled(s, e) && ValidRun(env, s, [e]) && WithoutMaster(env, s, [e]) && After(env, s, [e]) == Next(env, s, e)
    requires h in s.hooks && Written(env, s, e).SetHook? && Written(env, s, e).id == h
    requires Written(env, s, e).hookRow.scriptPath != s.hooks[h].scriptPath
    ensures Redirects(env, s, [e], h)
  {
    hide Enabled, Written;
  }

  lemma NoRedirect(env: Env, s: State, run: seq<Step>, h: Id)
    requires Inv(env, s) && h in s.hooks && !CanWiden(env, s, h, Manage)
    ensures !Redirects(env, s, run, h)
  {
    hide Forest, OneMaster, KeyRules, HookRules, ParamRules, CanWiden, SameDispatch;
    if Redirects(env, s, run, h) {
      DispatchContainment(env, s, run, h);
    }
  }
}
