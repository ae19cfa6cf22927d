/**
 From a hook's parameter contract and a request to the process that would run: `resolve_parameters` and
 `build_command_plan`.
 */
module CommandPlan {
  import opened Text
  import opened ArgsTemplate

  datatype Json = Null | Str(s: string) | Num(text: string) | Bool(b: bool) | Structured

  datatype Parameter = Parameter(key: string, default: Option<string>, required: bool)

  datatype ParameterError = Unknown | NotFlat(key: string) | HasNul(key: string)

  /** `values` in declaration order; `missing` the required parameters left without a value. */
  datatype Resolved = Resolved(values: seq<(string, string)>, missing: seq<string>)

  type Supplied = map<string, Json>

  /** `null` counts as not supplied; arrays and objects are refused. */
  function Coerce(key: string, v: Json): Result<Option<string>, ParameterError> {
    if v.Null? then Ok(None)
    else if v.Structured? then Err(NotFlat(key))
    else
      var text := if v.Str? then v.s else if v.Num? then v.text else if v.b then "true" else "false";
      if '\0' in text then Err(HasNul(key)) else Ok(Some(text))
  }

  /** The supplied value, else the default. */
  function Chosen(d: Parameter, supplied: Supplied): Option<string> {
    if d.key in supplied && Coerce(d.key, supplied[d.key]).Ok? && Coerce(d.key, supplied[d.key]).value.Some?
    then Coerce(d.key, supplied[d.key]).value
    else d.default
  }

  function ValuesOf(declared: seq<Parameter>, supplied: Supplied): seq<(string, string)> {
    if declared == [] then []
    else
      var d := declared[|declared| - 1];
      ValuesOf(declared[..|declared| - 1], supplied)
      + (if Chosen(d, supplied).Some? then [(d.key, Chosen(d, supplied).value)] else [])
  }

  function MissingOf(declared: seq<Parameter>, supplied: Supplied): seq<string> {
    if declared == [] then []
    else
      var d := declared[|declared| - 1];
      MissingOf(declared[..|declared| - 1], supplied)
      + (if Chosen(d, supplied).None? && d.required then [d.key] else [])
  }

  predicate Declares(declared: seq<Parameter>, key: string) {
    exists i :: 0 <= i < |declared| && declared[i].key == key
  }

  // What a request gives a parameter, in terms of the two alone.

  /** A string as it stands, a number as its decimal text, a boolean as its word. */
  predicate HasText(v: Json, t: string) {
    v == Str(t) || v == Num(t) || (v == Bool(true) && t == "true") || (v == Bool(false) && t == "false")
  }

  /** A value that can be passed on: nothing, or a text without NUL. */
  ghost predicate IsFlat(v: Json) {
    v == Null || exists t :: HasText(v, t) && '\0' !in t
  }

  predicate IsSupplied(d: Parameter, supplied: Supplied) {
    d.key in supplied && supplied[d.key] != Null
  }

  /** The supplied value wins over the default; the default stands in for an absent or null one. */
  predicate Gives(d: Parameter, supplied: Supplied, t: string) {
    if IsSupplied(d, supplied) then HasText(supplied[d.key], t) else d.default == Some(t)
  }

  /** Nothing is supplied and nothing is the default. */
  predicate Lacks(d: Parameter, supplied: Supplied) {
    !IsSupplied(d, supplied) && d.default == None
  }

  lemma CoercesExactly(key: string, v: Json)
    ensures Coerce(key, v).Ok? <==> IsFlat(v)
    ensures Coerce(key, v) == Err(NotFlat(key)) <==> v == Structured
    ensures Coerce(key, v) == Err(HasNul(key)) <==> exists t :: HasText(v, t) && '\0' in t
    ensures forall t :: Coerce(key, v) == Ok(Some(t)) <==> HasText(v, t) && '\0' !in t
  {
    if !v.Null? && !v.Structured? {
      var text := if v.Str? then v.s else if v.Num? then v.text else if v.b then "true" else "false";
      assert HasText(v, text);
    }
  }

  lemma ChosenExactly(d: Parameter, supplied: Supplied)
    requires d.key in supplied ==> IsFlat(supplied[d.key])
    ensures forall t :: Chosen(d, supplied) == Some(t) <==> Gives(d, supplied, t)
    ensures Chosen(d, supplied) == None <==> Lacks(d, supplied)
  {
    if d.key in supplied {
      CoercesExactly(d.key, supplied[d.key]);
    }
  }

  /** The pairs and the missing names, in order of declaration: each parameter that is given a value has exactly that
      pair, each required one that lacks one is missing, and there is nothing else. */
  ghost predicate InContract(declared: seq<Parameter>, supplied: Supplied, r: Resolved) {
    && (forall k, t :: (k, t) in r.values <==>
          exists i :: 0 <= i < |declared| && declared[i].key == k && Gives(declared[i], supplied, t))
    && (forall k :: k in r.missing <==>
          exists i :: 0 <= i < |declared| && declared[i].key == k && declared[i].required && Lacks(declared[i], supplied))
    && (forall a, b :: 0 <= a < b < |r.values| ==> Precedes(declared, r.values[a].0, r.values[b].0))
    && (forall a, b :: 0 <= a < b < |r.missing| ==> Precedes(declared, r.missing[a], r.missing[b]))
  }

  ghost predicate Precedes(declared: seq<Parameter>, k: string, l: string) {
    exists i, j :: 0 <= i < j < |declared| && declared[i].key == k && declared[j].key == l
  }

  lemma {:induction false} ResolvedInContract(declared: seq<Parameter>, supplied: Supplied)
    requires forall i :: 0 <= i < |declared| && declared[i].key in supplied ==> IsFlat(supplied[declared[i].key])
    ensures InContract(declared, supplied, Resolved(ValuesOf(declared, supplied), MissingOf(declared, supplied)))
  {
    if declared != [] {
      var n := |declared| - 1;
      var front, d := declared[..n], declared[n];
      ResolvedInContract(front, supplied);
      ChosenExactly(d, supplied);
      OneMore(front, d, supplied, Resolved(ValuesOf(front, supplied), MissingOf(front, supplied)), Chosen(d, supplied));
      assert front + [d] == declared;
    }
  }

  lemma OneMore(front: seq<Parameter>, d: Parameter, supplied: Supplied, r: Resolved, chosen: Option<string>)
    requires InContract(front, supplied, r)
    requires forall t :: chosen == Some(t) <==> Gives(d, supplied, t)
    requires chosen == None <==> Lacks(d, supplied)
    ensures InContract(front + [d], supplied,
                       Resolved(r.values + (if chosen.Some? then [(d.key, chosen.value)] else []),
                                r.missing + (if chosen.None? && d.required then [d.key] else [])))
  {
    hide Gives, Lacks;
    var all := front + [d];
    var values := r.values + (if chosen.Some? then [(d.key, chosen.value)] else []);
    var missing := r.missing + (if chosen.None? && d.required then [d.key] else []);
    assert all[|front|] == d && forall i :: 0 <= i < |front| ==> all[i] == front[i];
    forall k, t
      ensures (k, t) in values <==> exists i :: 0 <= i < |all| && all[i].key == k && Gives(all[i], supplied, t)
    {
      assert (k, t) in r.values <==> exists i :: 0 <= i < |front| && front[i].key == k && Gives(front[i], supplied, t);
    }
    forall k
      ensures k in missing <==> exists i :: 0 <= i < |all| && all[i].key == k && all[i].required && Lacks(all[i], supplied)
    {
      assert k in r.missing <==>
        exists i :: 0 <= i < |front| && front[i].key == k && front[i].required && Lacks(front[i], supplied);
    }
    forall a, b | 0 <= a < b < |values| ensures Precedes(all, values[a].0, values[b].0) {
      FrontPrecedes(front, d, values[a].0, values[b].0);
      if b < |r.values| {
        assert Precedes(front, r.values[a].0, r.values[b].0);
      } else {
        assert (values[a].0, values[a].1) == r.values[a] && r.values[a] in r.values;
      }
    }
    forall a, b | 0 <= a < b < |missing| ensures Precedes(all, missing[a], missing[b]) {
      FrontPrecedes(front, d, missing[a], missing[b]);
      if b < |r.missing| {
        assert Precedes(front, r.missing[a], r.missing[b]);
      } else {
        assert r.missing[a] in r.missing;
      }
    }
  }

  lemma FrontPrecedes(front: seq<Parameter>, d: Parameter, k: string, l: string)
    ensures Precedes(front, k, l) ==> Precedes(front + [d], k, l)
    ensures (exists i :: 0 <= i < |front| && front[i].key == k) && l == d.key ==> Precedes(front + [d], k, l)
  {
    var all := front + [d];
    assert all[|front|] == d && forall i :: 0 <= i < |front| ==> all[i] == front[i];
  }

  /** The merge fails exactly on an undeclared key or on a declared one whose value is not flat, and says which; otherwise
      it gives each parameter the caller's value, or else its default, in order of declaration. */
  method ResolveParameters(declared: seq<Parameter>, supplied: Supplied) returns (r: Result<Resolved, ParameterError>)
    ensures r == Err(Unknown) <==> exists k :: k in supplied && !Declares(declared, k)
    ensures r.Ok? <==> (forall k :: k in supplied ==> Declares(declared, k) && IsFlat(supplied[k]))
    ensures r.Err? && r.error.NotFlat? ==> r.error.key in supplied && supplied[r.error.key] == Structured
    ensures r.Err? && r.error.HasNul? ==> r.error.key in supplied && exists t :: HasText(supplied[r.error.key], t) && '\0' in t
    ensures r.Ok? ==> InContract(declared, supplied, r.value)
    ensures r.Ok? ==> r.value == Resolved(ValuesOf(declared, supplied), MissingOf(declared, supplied))
  {
    hide InContract, IsFlat, HasText, Coerce, Chosen;
    if exists k :: k in supplied && !Declares(declared, k) {
      return Err(Unknown);
    }
    var values, missing := [], [];
    for i := 0 to |declared|
      invariant values == ValuesOf(declared[..i], supplied) && missing == MissingOf(declared[..i], supplied)
      invariant forall j :: 0 <= j < i && declared[j].key in supplied ==> IsFlat(supplied[declared[j].key])
    {
      var d := declared[i];
      assert declared[..i + 1][..i] == declared[..i];
      ChosenIs(d, supplied);
      var value := None;
      if d.key in supplied {
        var coerced := Coerce(d.key, supplied[d.key]);
        CoercesExactly(d.key, supplied[d.key]);
        CoercionErrors(d.key, supplied[d.key]);
        if coerced.Err? {
          return Err(coerced.error);
        }
        value := coerced.value;
      }
      if value.None? {
        value := d.default;
      }
      if value.Some? {
        values := values + [(d.key, value.value)];
      } else if d.required {
        missing := missing + [d.key];
      }
    }
    assert declared[..|declared|] == declared;
    ResolvedInContract(declared, supplied);
    r := Ok(Resolved(values, missing));
  }

  lemma ChosenIs(d: Parameter, supplied: Supplied)
    ensures d.key !in supplied ==> Chosen(d, supplied) == d.default
    ensures d.key in supplied && Coerce(d.key, supplied[d.key]).Ok? ==>
              Chosen(d, supplied) == if Coerce(d.key, supplied[d.key]).value.Some? then Coerce(d.key, supplied[d.key]).value
                                     else d.default
  {
  }

  lemma CoercionErrors(key: string, v: Json)
    ensures Coerce(key, v).Err? ==> Coerce(key, v).error == NotFlat(key) || Coerce(key, v).error == HasNul(key)
  {
  }

  /** The lookup a template is resolved against; a later pair wins. */
  function LookupOf(values: seq<(string, string)>): Lookup {
    if values == [] then map[]
    else LookupOf(values[..|values| - 1])[values[|values| - 1].0 := values[|values| - 1].1]
  }

  predicate DistinctKeys(declared: seq<Parameter>) {
    forall i, j :: 0 <= i < j < |declared| ==> declared[i].key != declared[j].key
  }

  /** Each declared parameter has the value that was chosen for it, or none; nothing else has one. */
  lemma {:induction false} LookupIsTheContract(declared: seq<Parameter>, supplied: Supplied, key: string)
    requires DistinctKeys(declared)
    ensures key in LookupOf(ValuesOf(declared, supplied)) <==>
            exists i :: 0 <= i < |declared| && declared[i].key == key && Chosen(declared[i], supplied).Some?
    ensures forall i :: 0 <= i < |declared| && declared[i].key == key && Chosen(declared[i], supplied).Some? ==>
              LookupOf(ValuesOf(declared, supplied))[key] == Chosen(declared[i], supplied).value
  {
    if declared != [] {
      var front, d := declared[..|declared| - 1], declared[|declared| - 1];
      LookupIsTheContract(front, supplied, key);
      var before := ValuesOf(front, supplied);
      if Chosen(d, supplied).Some? {
        assert (before + [(d.key, Chosen(d, supplied).value)])[..|before|] == before;
      } else {
        assert before + [] == before;
      }
      assert forall i :: 0 <= i < |front| ==> front[i] == declared[i];
    }
  }

  /** What a template finds under a name is what the request gives that parameter. */
  lemma LookupGives(declared: seq<Parameter>, supplied: Supplied, key: string)
    requires DistinctKeys(declared)
    requires forall i :: 0 <= i < |declared| && declared[i].key in supplied ==> IsFlat(supplied[declared[i].key])
    ensures forall i, t :: 0 <= i < |declared| && declared[i].key == key && Gives(declared[i], supplied, t) ==>
              key in LookupOf(ValuesOf(declared, supplied)) && LookupOf(ValuesOf(declared, supplied))[key] == t
    ensures key in LookupOf(ValuesOf(declared, supplied)) ==>
              exists i, t :: 0 <= i < |declared| && declared[i].key == key && Gives(declared[i], supplied, t)
  {
    hide Chosen, Gives, Lacks, IsFlat;
    LookupIsTheContract(declared, supplied, key);
    forall i | 0 <= i < |declared| && declared[i].key == key
      ensures forall t :: Chosen(declared[i], supplied) == Some(t) <==> Gives(declared[i], supplied, t)
    {
      ChosenExactly(declared[i], supplied);
    }
    if key in LookupOf(ValuesOf(declared, supplied)) {
      var i :| 0 <= i < |declared| && declared[i].key == key && Chosen(declared[i], supplied).Some?;
      assert Gives(declared[i], supplied, Chosen(declared[i], supplied).value);
    }
  }

  // ── build_command_plan ─────────────────────────────────────────────────────

  const SUDO_BINARY := "/usr/bin/sudo"

  datatype Plan = Plan(program: string, args: seq<string>, runAsUser: Option<string>)

  function ValueTexts(values: seq<(string, string)>): seq<string> {
    seq(|values|, i requires 0 <= i < |values| => values[i].1)
  }

  function Prefix(scriptPath: string, user: Option<string>): seq<string> {
    if user.Some? then ["-n", "-u", user.value, "--", scriptPath] else []
  }

  function BuildCommandPlan(scriptPath: string, runAsUser: Option<string>, argsTemplate: Option<string>,
                            resolved: Resolved): Result<Plan, Rejection> {
    var user := EffectiveRunAsUser(runAsUser);
    var program := if user.Some? then SUDO_BINARY else scriptPath;
    var template := if argsTemplate.Some? then NonEmpty(Some(Trim(argsTemplate.value))) else None;
    if template.None? then Ok(Plan(program, Prefix(scriptPath, user) + ValueTexts(resolved.values), user))
    else
      var args := ResolveArgsTemplate(template.value, LookupOf(resolved.values));
      if args.Err? then Err(args.error) else Ok(Plan(program, Prefix(scriptPath, user) + args.value, user))
  }

  /** The process a plan starts, said outright: the script itself, or sudo running it as the effective account, without a
      prompt and with its own options ended; then, without a template, the values in order. */
  lemma PlanExactly(scriptPath: string, runAsUser: Option<string>, argsTemplate: Option<string>, resolved: Resolved)
    requires BuildCommandPlan(scriptPath, runAsUser, argsTemplate, resolved).Ok?
    ensures
      var plan, user := BuildCommandPlan(scriptPath, runAsUser, argsTemplate, resolved).value, EffectiveRunAsUser(runAsUser);
      && plan.runAsUser == user
      && (user == None ==> plan.program == scriptPath)
      && (user != None ==>
            && plan.program == "/usr/bin/sudo" && |plan.args| >= 5
            && plan.args[0] == "-n" && plan.args[1] == "-u" && plan.args[2] == user.value && plan.args[3] == "--"
            && plan.args[4] == scriptPath)
      && (argsTemplate == None || Trim(argsTemplate.value) == "" ==>
            var before := if user == None then 0 else 5;
            && |plan.args| == before + |resolved.values|
            && forall i :: 0 <= i < |resolved.values| ==> plan.args[before + i] == resolved.values[i].1)
  {
  }

  /** Without a template a plan never fails. */
  lemma PlanWithoutTemplate(scriptPath: string, runAsUser: Option<string>, argsTemplate: Option<string>, resolved: Resolved)
    requires argsTemplate == None || Trim(argsTemplate.value) == ""
    ensures BuildCommandPlan(scriptPath, runAsUser, argsTemplate, resolved).Ok?
  {
  }

  lemma {:induction false} TrimStartTokens(s: string)
    ensures Tokens(TrimStart(s)) == Tokens(s)
  {
    if s != [] && IsWhitespace(s[0]) {
      TrimStartTokens(s[1..]);
    }
  }

  lemma {:induction false} WordEndSnoc(s: string, c: char, from: nat)
    requires from <= |s| && IsWhitespace(c)
    ensures WordEnd(s + [c], from) == WordEnd(s, from)
    decreases |s| - from
  {
    if from < |s| && !IsWhitespace(s[from]) {
      WordEndSnoc(s, c, from + 1);
    }
  }

  lemma {:induction false} BlankEndTokens(s: string, c: char)
    requires IsWhitespace(c)
    ensures Tokens(s + [c]) == Tokens(s)
    decreases |s|
  {
    if s == [] {
      assert (s + [c])[1..] == [];
    } else if IsWhitespace(s[0]) {
      assert (s + [c])[1..] == s[1..] + [c];
      BlankEndTokens(s[1..], c);
    } else {
      var e := WordEnd(s, 0);
      WordEndSnoc(s, c, 0);
      assert (s + [c])[..e] == s[..e] && (s + [c])[e..] == s[e..] + [c];
      BlankEndTokens(s[e..], c);
    }
  }

  lemma {:induction false} TrimEndTokens(s: string)
    ensures Tokens(TrimEnd(s)) == Tokens(s)
  {
    if s != [] && IsWhitespace(s[|s| - 1]) {
      TrimEndTokens(s[..|s| - 1]);
      BlankEndTokens(s[..|s| - 1], s[|s| - 1]);
      assert s[..|s| - 1] + [s[|s| - 1]] == s;
    }
  }

  /** A plan from a template holds exactly one argument for each whitespace token of the template, after the
      fixed sudo prefix when the hook is elevated; no value can add an argument, remove one or reach
      another's place. */
  lemma PlanArguments(scriptPath: string, runAsUser: Option<string>, template: string, resolved: Resolved, k: nat)
    requires Trim(template) != ""
    requires BuildCommandPlan(scriptPath, runAsUser, Some(template), resolved).Ok?
    ensures
      var plan, tokens := BuildCommandPlan(scriptPath, runAsUser, Some(template), resolved).value, Tokens(template);
      var prefix := Prefix(scriptPath, EffectiveRunAsUser(runAsUser));
      && |plan.args| == |prefix| + |tokens| && prefix <= plan.args
      && plan.program == (if EffectiveRunAsUser(runAsUser).Some? then SUDO_BINARY else scriptPath)
      && (k < |tokens| ==>
            plan.args[|prefix| + k] == Inserted(Parse(tokens[k]), LookupOf(resolved.values)))
  {
    TrimStartTokens(template);
    TrimEndTokens(TrimStart(template));
    var tokens, lookup := Tokens(template), LookupOf(resolved.values);
    SubstitutedLength(tokens, lookup);
    if k < |tokens| {
      ArgumentsAreTheirTokens(tokens, lookup, k);
    }
  }

  lemma {:induction false} NamesOrigin(pieces: seq<Piece>, n: string) returns (k: nat)
    requires n in Names(pieces)
    ensures k < |pieces| && pieces[k] == Reference(n) && n != ""
  {
    if pieces[0] == Reference(n) && n != "" {
      k := 0;
    } else {
      k := NamesOrigin(pieces[1..], n);
      k := k + 1;
    }
  }

  /** Trimming a template adds no name. */
  lemma {:induction false} TrimEndNames(s: string, n: string)
    requires n in Extract(TrimEnd(s))
    ensures n in Extract(s)
  {
    if s != [] && IsWhitespace(s[|s| - 1]) {
      var front, blank := s[..|s| - 1], [s[|s| - 1]];
      TrimEndNames(front, n);
      var k := NamesOrigin(Parse(front), n);
      assert front + blank == s;
      TokenParse(front, blank, 0);
      InsideAt(Parse(front), Parse(s), Parse(blank), k);
      NamesMember(Parse(s), k);
    }
  }

  lemma {:induction false} TrimStartNames(s: string)
    ensures Extract(TrimStart(s)) == Extract(s)
  {
    if s != [] && IsWhitespace(s[0]) {
      ExtractBlank(s);
      TrimStartNames(s[1..]);
    }
  }

  function KeysOf(declared: seq<Parameter>): set<string> {
    set i | 0 <= i < |declared| :: declared[i].key
  }

  predicate HasValue(declared: seq<Parameter>, supplied: Supplied, key: string) {
    exists i :: 0 <= i < |declared| && declared[i].key == key && Chosen(declared[i], supplied).Some?
  }

  /** Definition-time validation and execution together: the plan of a hook whose template passed against
      its declared parameters fails only on a declared parameter left without a value, on an empty `${}`,
      on a declared parameter whose value is forbidden, or on a `${` some token leaves open. */
  lemma ExecutionFailure(scriptPath: string, runAsUser: Option<string>, template: string,
                         declared: seq<Parameter>, supplied: Supplied, missing: seq<string>)
    requires DistinctKeys(declared) && ValidArgsTemplate(Some(template), KeysOf(declared))
    requires BuildCommandPlan(scriptPath, runAsUser, Some(template),
                              Resolved(ValuesOf(declared, supplied), missing)).Err?
    ensures
      var e := BuildCommandPlan(scriptPath, runAsUser, Some(template), Resolved(ValuesOf(declared, supplied), missing)).error;
      && (e.Missing? ==> !HasValue(declared, supplied, e.name) && (e.name == "" || Declares(declared, e.name)))
      && (e.Forbidden? ==> exists i :: 0 <= i < |declared| && declared[i].key == e.name && Chosen(declared[i], supplied).Some?
                                && IsForbidden(Chosen(declared[i], supplied).value))
      && (e.Unterminated? ==> exists t :: t in Tokens(template) && !Closed(Parse(t)))
  {
    var lookup, trimmed := LookupOf(ValuesOf(declared, supplied)), Trim(template);
    TrimStartTokens(template);
    TrimEndTokens(TrimStart(template));
    TrimStartNames(template);
    forall n | n in Extract(trimmed) ensures n in KeysOf(declared) {
      TrimEndNames(TrimStart(template), n);
    }
    ValidatedTemplateFailure(trimmed, KeysOf(declared), lookup);
    var e := ResolveArgsTemplate(trimmed, lookup).error;
    if !e.Unterminated? {
      LookupIsTheContract(declared, supplied, e.name);
    }
  }
}
