/**
 Argument templates: the scanner that runs over a whole template when a hook is defined, the one that
 runs over each whitespace token when the hook is executed, and the plan they lead to. Both scanners
 refine one parse of the text into literals and references.
 */
module ArgsTemplate {
  import opened Text

  // ── The parse ──────────────────────────────────────────────────────────────

  datatype Piece = Literal(c: char) | Reference(name: string) | Unclosed

  /** The first `}` at or after `from`, or the end. */
  function BraceEnd(s: string, from: nat): (j: nat)
    requires from <= |s|
    ensures from <= j <= |s|
    ensures forall i :: from <= i < j ==> s[i] != '}'
    ensures j < |s| ==> s[j] == '}'
    decreases |s| - from
  {
    if from < |s| && s[from] != '}' then BraceEnd(s, from + 1) else from
  }

  /** The end of the identifier characters that begin at `from`. */
  function IdentEnd(s: string, from: nat): (j: nat)
    requires from <= |s|
    ensures from <= j <= |s|
    ensures forall i :: from <= i < j ==> IsIdentChar(s[i])
    ensures j < |s| ==> !IsIdentChar(s[j])
    decreases |s| - from
  {
    if from < |s| && IsIdentChar(s[from]) then IdentEnd(s, from + 1) else from
  }

  predicate OpensBrace(s: string, i: nat) {
    i + 1 < |s| && s[i] == '$' && s[i + 1] == '{'
  }

  predicate OpensName(s: string, i: nat) {
    i + 1 < |s| && s[i] == '$' && IsIdentStart(s[i + 1])
  }

  /** The pieces of `s` from position `i` on. */
  function ParseFrom(s: string, i: nat): seq<Piece>
    decreases |s| - i
  {
    if i >= |s| then []
    else if OpensBrace(s, i) then
      var j := BraceEnd(s, i + 2);
      if j == |s| then [Unclosed] else [Reference(s[i + 2..j])] + ParseFrom(s, j + 1)
    else if OpensName(s, i) then
      var j := IdentEnd(s, i + 1);
      [Reference(s[i + 1..j])] + ParseFrom(s, j)
    else [Literal(s[i])] + ParseFrom(s, i + 1)
  }

  /** The three shapes a piece can begin with. */
  lemma UnfoldParse(s: string, i: nat)
    requires i < |s|
    ensures OpensBrace(s, i) ==>
              var j := BraceEnd(s, i + 2);
              ParseFrom(s, i) == if j == |s| then [Unclosed] else [Reference(s[i + 2..j])] + ParseFrom(s, j + 1)
    ensures OpensName(s, i) ==>
              var j := IdentEnd(s, i + 1);
              i + 1 < j && ParseFrom(s, i) == [Reference(s[i + 1..j])] + ParseFrom(s, j)
    ensures !OpensBrace(s, i) && !OpensName(s, i) ==> ParseFrom(s, i) == [Literal(s[i])] + ParseFrom(s, i + 1)
  {
  }

  function Parse(s: string): seq<Piece> {
    ParseFrom(s, 0)
  }

  /** The names a template refers to: its references, except an empty `${}`. */
  function Names(pieces: seq<Piece>): seq<string> {
    if pieces == [] then []
    else (if pieces[0].Reference? && pieces[0].name != "" then [pieces[0].name] else []) + Names(pieces[1..])
  }

  function Extract(template: string): seq<string> {
    Names(Parse(template))
  }

  /** The inner loop that looks for the closing brace. */
  method ScanBrace(s: string, start: nat) returns (j: nat)
    requires start <= |s|
    ensures j == BraceEnd(s, start)
  {
    j := start;
    while j < |s| && s[j] != '}'
      invariant start <= j <= |s| && BraceEnd(s, j) == BraceEnd(s, start)
    {
      j := j + 1;
    }
  }

  /** The inner loop over the characters of a bare name. */
  method ScanIdent(s: string, start: nat) returns (j: nat)
    requires start <= |s|
    ensures j == IdentEnd(s, start)
  {
    j := start;
    while j < |s| && IsIdentChar(s[j])
      invariant start <= j <= |s| && IdentEnd(s, j) == IdentEnd(s, start)
    {
      j := j + 1;
    }
  }

  /** The definition-time scanner, over the whole template. */
  method ExtractTemplateVariableNames(template: string) returns (names: seq<string>)
    ensures names == Extract(template)
  {
    hide ParseFrom, Names;
    names := [];
    var i := 0;
    while i < |template|
      invariant names + Names(ParseFrom(template, i)) == Extract(template)
      decreases |template| - i
    {
      ParseStep(template, i);
      if template[i] != '$' {
        i := i + 1;
      } else if i + 1 < |template| && template[i + 1] == '{' {
        var start := i + 2;
        var j := ScanBrace(template, start);
        if j > start && j < |template| {
          names := names + [template[start..j]];
        }
        i := j + 1;
      } else if i + 1 < |template| && IsIdentStart(template[i + 1]) {
        var start := i + 1;
        var j := ScanIdent(template, start);
        names := names + [template[start..j]];
        i := j;
      } else {
        i := i + 1;
      }
    }
    ParseEnd(template, i);
  }

  lemma ParseEnd(s: string, i: nat)
    requires i >= |s|
    ensures ParseFrom(s, i) == [] && Names(ParseFrom(s, i)) == []
  {
  }

  /** One step of the whole-template scan. */
  lemma ParseStep(s: string, i: nat)
    requires i < |s|
    ensures OpensBrace(s, i) ==>
              var j := BraceEnd(s, i + 2);
              Names(ParseFrom(s, i))
              == (if i + 2 < j < |s| then [s[i + 2..j]] else []) + Names(ParseFrom(s, j + 1))
    ensures OpensName(s, i) ==>
              var j := IdentEnd(s, i + 1);
              j > i + 1 && Names(ParseFrom(s, i)) == [s[i + 1..j]] + Names(ParseFrom(s, j))
    ensures !OpensBrace(s, i) && !OpensName(s, i) ==> Names(ParseFrom(s, i)) == Names(ParseFrom(s, i + 1))
  {
    UnfoldParse(s, i);
    hide ParseFrom;
    if OpensBrace(s, i) {
      var j := BraceEnd(s, i + 2);
      if j < |s| {
        NamesCons(Reference(s[i + 2..j]), ParseFrom(s, j + 1));
      } else {
        NamesCons(Unclosed, []);
      }
    } else if OpensName(s, i) {
      NamesCons(Reference(s[i + 1..IdentEnd(s, i + 1)]), ParseFrom(s, IdentEnd(s, i + 1)));
    } else {
      NamesCons(Literal(s[i]), ParseFrom(s, i + 1));
    }
  }

  lemma NamesCons(p: Piece, rest: seq<Piece>)
    ensures Names([p] + rest) == (if p.Reference? && p.name != "" then [p.name] else []) + Names(rest)
  {
    assert ([p] + rest)[1..] == rest;
  }

  // ── Substitution ───────────────────────────────────────────────────────────

  datatype Result<+T, +E> = Ok(value: T) | Err(error: E)

  datatype Rejection = Unterminated | Missing(name: string) | Forbidden(name: string)

  type Lookup = map<string, string>

  const ARGS_TEMPLATE_FORBIDDEN: seq<string> := ["|", ";", "&", "\n", "$("]

  predicate OccursAt(s: string, pattern: string, i: int) {
    0 <= i <= |s| - |pattern| && s[i..i + |pattern|] == pattern
  }

  predicate Contains(s: string, pattern: string) {
    exists i | 0 <= i <= |s| :: OccursAt(s, pattern, i)
  }

  predicate IsForbidden(value: string) {
    exists p :: p in ARGS_TEMPLATE_FORBIDDEN && Contains(value, p)
  }

  /** The pieces in order, values inserted; the first piece that cannot be rendered decides the error. */
  function Render(pieces: seq<Piece>, lookup: Lookup): Result<string, Rejection> {
    if pieces == [] then Ok("")
    else RenderPiece(pieces[0], Render(pieces[1..], lookup), lookup)
  }

  /** One piece in front of the rendering of the rest. */
  function RenderPiece(p: Piece, rest: Result<string, Rejection>, lookup: Lookup): Result<string, Rejection> {
    match p
    case Unclosed => Err(Unterminated)
    case Literal(c) => Prefixed([c], rest)
    case Reference(name) =>
      if name !in lookup then Err(Missing(name))
      else if IsForbidden(lookup[name]) then Err(Forbidden(name))
      else Prefixed(lookup[name], rest)
  }

  function Prefixed(prefix: string, r: Result<string, Rejection>): Result<string, Rejection> {
    if r.Ok? then Ok(prefix + r.value) else r
  }

  function Substitute(token: string, lookup: Lookup): Result<string, Rejection> {
    Render(Parse(token), lookup)
  }

  lemma PrefixedTwice(a: string, b: string, r: Result<string, Rejection>)
    ensures Prefixed(a, Prefixed(b, r)) == Prefixed(a + b, r)
  {
    if r.Ok? {
      assert a + (b + r.value) == (a + b) + r.value;
    }
  }

  lemma RenderCons(p: Piece, rest: seq<Piece>, lookup: Lookup)
    ensures Render([p] + rest, lookup) == RenderPiece(p, Render(rest, lookup), lookup)
  {
    assert ([p] + rest)[1..] == rest;
  }

  /** One step of the scan of a token. */
  lemma SubstituteStep(s: string, i: nat, lookup: Lookup)
    requires i < |s|
    ensures OpensBrace(s, i) ==>
              var j := BraceEnd(s, i + 2);
              Render(ParseFrom(s, i), lookup)
              == if j == |s| then Err(Unterminated)
                 else RenderPiece(Reference(s[i + 2..j]), Render(ParseFrom(s, j + 1), lookup), lookup)
    ensures OpensName(s, i) ==>
              var j := IdentEnd(s, i + 1);
              Render(ParseFrom(s, i), lookup)
              == RenderPiece(Reference(s[i + 1..j]), Render(ParseFrom(s, j), lookup), lookup)
    ensures !OpensBrace(s, i) && !OpensName(s, i) ==>
              Render(ParseFrom(s, i), lookup) == Prefixed([s[i]], Render(ParseFrom(s, i + 1), lookup))
  {
    UnfoldParse(s, i);
    hide ParseFrom;
    if OpensBrace(s, i) {
      var j := BraceEnd(s, i + 2);
      if j < |s| {
        RenderCons(Reference(s[i + 2..j]), ParseFrom(s, j + 1), lookup);
      } else {
        RenderCons(Unclosed, [], lookup);
      }
    } else if OpensName(s, i) {
      RenderCons(Reference(s[i + 1..IdentEnd(s, i + 1)]), ParseFrom(s, IdentEnd(s, i + 1)), lookup);
    } else {
      RenderCons(Literal(s[i]), ParseFrom(s, i + 1), lookup);
    }
  }

  lemma RenderEnd(s: string, i: nat, lookup: Lookup, out: string)
    requires i >= |s|
    ensures Prefixed(out, Render(ParseFrom(s, i), lookup)) == Ok(out)
  {
    assert out + "" == out;
  }

  lemma PrefixedNothing(r: Result<string, Rejection>)
    ensures Prefixed("", r) == r
  {
    assert r.Ok? ==> "" + r.value == r.value;
  }

  /** The execution-time scanner, over one token. */
  method SubstituteToken(token: string, lookup: Lookup) returns (r: Result<string, Rejection>)
    ensures r == Substitute(token, lookup)
  {
    hide Render, ParseFrom, IsForbidden;
    var out, i := "", 0;
    PrefixedNothing(Substitute(token, lookup));
    while i < |token|
      invariant Prefixed(out, Render(ParseFrom(token, i), lookup)) == Substitute(token, lookup)
      decreases |token| - i
    {
      SubstituteStep(token, i, lookup);
      if token[i] != '$' {
        PrefixedTwice(out, [token[i]], Render(ParseFrom(token, i + 1), lookup));
        out, i := out + [token[i]], i + 1;
        continue;
      }
      var name, next := "", i + 1;
      if i + 1 < |token| && token[i + 1] == '{' {
        var start := i + 2;
        var j := ScanBrace(token, start);
        if j >= |token| {
          return Err(Unterminated);
        }
        name, next := token[start..j], j + 1;
      } else if i + 1 < |token| && IsIdentStart(token[i + 1]) {
        var start := i + 1;
        var j := ScanIdent(token, start);
        name, next := token[start..j], j;
      } else {
        PrefixedTwice(out, [token[i]], Render(ParseFrom(token, i + 1), lookup));
        out, i := out + [token[i]], i + 1;
        continue;
      }
      if name !in lookup {
        return Err(Missing(name));
      }
      var value := lookup[name];
      if IsForbidden(value) {
        return Err(Forbidden(name));
      }
      PrefixedTwice(out, value, Render(ParseFrom(token, next), lookup));
      out, i := out + value, next;
    }
    RenderEnd(token, i, lookup, out);
    r := Ok(out);
  }

  // ── The whole template and its tokens ──────────────────────────────────────

  function SubstituteAll(tokens: seq<string>, lookup: Lookup): Result<seq<string>, Rejection> {
    if tokens == [] then Ok([])
    else
      var first := Substitute(tokens[0], lookup);
      if first.Err? then Err(first.error)
      else
        var rest := SubstituteAll(tokens[1..], lookup);
        if rest.Err? then rest else Ok([first.value] + rest.value)
  }

  /** `resolve_args_template` */
  function ResolveArgsTemplate(template: string, lookup: Lookup): Result<seq<string>, Rejection> {
    SubstituteAll(Tokens(template), lookup)
  }

  /** What the definition-time check demands: every name the whole-template scan finds is declared. */
  predicate ValidArgsTemplate(template: Option<string>, declared: set<string>) {
    NonEmpty(template).Some? ==> forall n :: n in Extract(template.value) ==> n in declared
  }

  predicate StartsBlank(s: string) {
    s == [] || IsWhitespace(s[0])
  }

  lemma {:induction false} ShiftBrace(a: string, b: string, k: nat)
    requires k <= |b|
    ensures BraceEnd(a + b, |a| + k) == |a| + BraceEnd(b, k)
    decreases |b| - k
  {
    if k < |b| && b[k] != '}' {
      ShiftBrace(a, b, k + 1);
    }
  }

  lemma {:induction false} ShiftIdent(a: string, b: string, k: nat)
    requires k <= |b|
    ensures IdentEnd(a + b, |a| + k) == |a| + IdentEnd(b, k)
    decreases |b| - k
  {
    if k < |b| && IsIdentChar(b[k]) {
      ShiftIdent(a, b, k + 1);
    }
  }

  /** Parsing does not look back. */
  lemma {:induction false} ShiftParse(a: string, b: string, k: nat)
    ensures ParseFrom(a + b, |a| + k) == ParseFrom(b, k)
    decreases |b| - k
  {
    hide ParseFrom, BraceEnd, IdentEnd;
    if k >= |b| {
      ParseEnd(a + b, |a| + k);
      ParseEnd(b, k);
    } else if OpensBrace(b, k) {
      ShiftParse(a, b, BraceEnd(b, k + 2) + 1);
      ShiftBracePiece(a, b, k);
    } else if OpensName(b, k) {
      ShiftParse(a, b, IdentEnd(b, k + 1));
      ShiftNamePiece(a, b, k);
    } else {
      ShiftParse(a, b, k + 1);
      UnfoldParse(a + b, |a| + k);
      UnfoldParse(b, k);
    }
  }

  lemma UnfoldBrace(s: string, i: nat, j: nat)
    requires OpensBrace(s, i) && j == BraceEnd(s, i + 2)
    ensures j <= |s| && i + 2 <= j
    ensures ParseFrom(s, i) == if j == |s| then [Unclosed] else [Reference(s[i + 2..j])] + ParseFrom(s, j + 1)
  {
  }

  /** Two braces that read the same and are followed by the same pieces. */
  lemma SameBracePiece(s: string, i: nat, end: nat, b: string, k: nat, j: nat)
    requires OpensBrace(s, i) && OpensBrace(b, k) && end == BraceEnd(s, i + 2) && j == BraceEnd(b, k + 2)
    requires end == |s| <==> j == |b|
    requires j < |b| ==> s[i + 2..end] == b[k + 2..j] && ParseFrom(s, end + 1) == ParseFrom(b, j + 1)
    ensures ParseFrom(s, i) == ParseFrom(b, k)
  {
    hide ParseFrom, BraceEnd, OpensBrace;
    UnfoldBrace(s, i, end);
    UnfoldBrace(b, k, j);
  }

  lemma ShiftOpens(a: string, b: string, k: nat)
    requires OpensBrace(b, k)
    ensures OpensBrace(a + b, |a| + k)
  {
  }

  lemma ShiftBracePiece(a: string, b: string, k: nat)
    requires OpensBrace(b, k)
    requires var j := BraceEnd(b, k + 2) + 1; ParseFrom(a + b, |a| + j) == ParseFrom(b, j)
    ensures ParseFrom(a + b, |a| + k) == ParseFrom(b, k)
  {
    var j := BraceEnd(b, k + 2);
    ShiftOpens(a, b, k);
    ShiftBrace(a, b, k + 2);
    SliceShifted(a, b, k + 2, j);
    hide *;
    SameBracePiece(a + b, |a| + k, |a| + j, b, k, j);
  }

  lemma SliceShifted(a: string, b: string, x: nat, y: nat)
    requires x <= y <= |b|
    ensures (a + b)[|a| + x..|a| + y] == b[x..y]
  {
  }

  lemma ShiftNamePiece(a: string, b: string, k: nat)
    requires OpensName(b, k)
    requires var j := IdentEnd(b, k + 1); ParseFrom(a + b, |a| + j) == ParseFrom(b, j)
    ensures ParseFrom(a + b, |a| + k) == ParseFrom(b, k)
  {
    hide ParseFrom, IdentEnd;
    var s, i, j := a + b, |a| + k, IdentEnd(b, k + 1);
    ShiftIdent(a, b, k + 1);
    SliceShifted(a, b, k + 1, j);
    UnfoldParse(s, i);
    UnfoldParse(b, k);
  }

  lemma {:induction false} ExtendBrace(t: string, rest: string, k: nat)
    requires k <= |t| && BraceEnd(t, k) < |t|
    ensures BraceEnd(t + rest, k) == BraceEnd(t, k)
    decreases |t| - k
  {
    if t[k] != '}' {
      ExtendBrace(t, rest, k + 1);
    }
  }

  lemma {:induction false} ExtendIdent(t: string, rest: string, k: nat)
    requires k <= |t| && StartsBlank(rest)
    ensures IdentEnd(t + rest, k) == IdentEnd(t, k)
    decreases |t| - k
  {
    if k < |t| && IsIdentChar(t[k]) {
      ExtendIdent(t, rest, k + 1);
    }
  }

  predicate Closed(pieces: seq<Piece>) {
    Unclosed !in pieces
  }

  /** `inner`, a parse of a token, against `outer`, the parse of a template from the same place: the whole
      of it followed by the parse of `rest`, or the part before a brace left open. */
  ghost predicate ParsesInside(inner: seq<Piece>, outer: seq<Piece>, rest: seq<Piece>) {
    if Closed(inner) then outer == inner + rest
    else inner[|inner| - 1] == Unclosed && Closed(inner[..|inner| - 1]) && inner[..|inner| - 1] <= outer
  }

  lemma InsideCons(p: Piece, inner: seq<Piece>, outer: seq<Piece>, rest: seq<Piece>)
    requires !p.Unclosed? && ParsesInside(inner, outer, rest)
    ensures ParsesInside([p] + inner, [p] + outer, rest)
  {
    var ps := [p] + inner;
    if Closed(inner) {
      assert forall k :: 0 <= k < |ps| ==> ps[k] != Unclosed;
      assert [p] + (inner + rest) == ps + rest;
    } else {
      assert ps[..|ps| - 1] == [p] + inner[..|inner| - 1];
      assert ps[|ps| - 1] == Unclosed;
    }
  }

  /** A token is parsed the same way inside a template, up to a brace it leaves open. */
  lemma {:induction false} TokenParse(t: string, rest: string, i: nat)
    requires StartsBlank(rest) && i <= |t|
    ensures ParsesInside(ParseFrom(t, i), ParseFrom(t + rest, i), ParseFrom(rest, 0))
    decreases |t| - i
  {
    hide ParseFrom, BraceEnd, IdentEnd, ParsesInside;
    if i == |t| {
      ShiftParse(t, rest, 0);
      ParseEnd(t, i);
      InsideEnd(ParseFrom(rest, 0));
    } else {
      assert (t + rest)[i] == t[i];
      UnfoldParse(t, i);
      if OpensBrace(t, i) && BraceEnd(t, i + 2) == |t| {
        InsideOpen(ParseFrom(t + rest, i), ParseFrom(rest, 0));
      } else {
        TokenParse(t, rest, PieceEnd(t, i));
        TokenPiece(t, rest, i);
      }
    }
  }

  lemma InsideEnd(rest: seq<Piece>)
    ensures ParsesInside([], rest, rest)
  {
  }

  lemma InsideOpen(outer: seq<Piece>, rest: seq<Piece>)
    ensures ParsesInside([Unclosed], outer, rest)
  {
    assert [Unclosed][..0] == [] && [Unclosed][0] == Unclosed;
  }

  lemma SliceExtended(t: string, rest: string, x: nat, y: nat)
    requires x <= y <= |t|
    ensures (t + rest)[x..y] == t[x..y]
  {
  }

  /** Every closed piece of a token is a piece of the template. */
  lemma InsideAt(inner: seq<Piece>, outer: seq<Piece>, rest: seq<Piece>, k: nat)
    requires ParsesInside(inner, outer, rest) && k < |inner| && inner[k] != Unclosed
    ensures k < |outer| && outer[k] == inner[k]
  {
    if !Closed(inner) {
      assert inner[..|inner| - 1][k] == inner[k];
    }
  }

  /** Where the piece at `i` ends; one past the end of `s` when it is a brace left open. */
  function PieceEnd(s: string, i: nat): nat
    requires i < |s|
  {
    if OpensBrace(s, i) then BraceEnd(s, i + 2) + 1 else if OpensName(s, i) then IdentEnd(s, i + 1) else i + 1
  }

  /** One piece of a token, given what follows it. */
  lemma TokenPiece(t: string, rest: string, i: nat)
    requires StartsBlank(rest) && i < |t| && PieceEnd(t, i) <= |t|
    requires
      var next := PieceEnd(t, i);
      ParsesInside(ParseFrom(t, next), ParseFrom(t + rest, next), ParseFrom(rest, 0))
    ensures ParsesInside(ParseFrom(t, i), ParseFrom(t + rest, i), ParseFrom(rest, 0))
  {
    hide ParseFrom, BraceEnd, IdentEnd, ParsesInside;
    var s := t + rest;
    assert s[i] == t[i] && (i + 1 < |t| ==> s[i + 1] == t[i + 1]);
    UnfoldParse(t, i);
    UnfoldParse(s, i);
    if OpensBrace(t, i) {
      var j := BraceEnd(t, i + 2);
      ExtendBrace(t, rest, i + 2);
      SliceExtended(t, rest, i + 2, j);
      InsideCons(Reference(t[i + 2..j]), ParseFrom(t, j + 1), ParseFrom(s, j + 1), ParseFrom(rest, 0));
    } else if OpensName(t, i) {
      var j := IdentEnd(t, i + 1);
      ExtendIdent(t, rest, i + 1);
      SliceExtended(t, rest, i + 1, j);
      InsideCons(Reference(t[i + 1..j]), ParseFrom(t, j), ParseFrom(s, j), ParseFrom(rest, 0));
    } else {
      assert !OpensBrace(s, i) && !OpensName(s, i);
      InsideCons(Literal(t[i]), ParseFrom(t, i + 1), ParseFrom(s, i + 1), ParseFrom(rest, 0));
    }
  }

  lemma {:induction false} NamesConcat(a: seq<Piece>, b: seq<Piece>)
    ensures Names(a + b) == Names(a) + Names(b)
  {
    if a == [] {
      assert a + b == b;
    } else {
      assert a + b == [a[0]] + (a[1..] + b) && a == [a[0]] + a[1..];
      NamesCons(a[0], a[1..] + b);
      NamesConcat(a[1..], b);
    }
  }

  /** A leading whitespace character adds no name. */
  lemma ExtractBlank(template: string)
    requires template != [] && IsWhitespace(template[0])
    ensures Extract(template) == Extract(template[1..])
  {
    assert template == template[..1] + template[1..];
    ShiftParse(template[..1], template[1..], 0);
    assert ParseFrom(template, 0) == [Literal(template[0])] + ParseFrom(template, 1);
    NamesCons(Literal(template[0]), ParseFrom(template, 1));
  }

  /** The names in a list of tokens, token by token. */
  function ExtractAll(tokens: seq<string>): seq<string> {
    if tokens == [] then [] else Extract(tokens[0]) + ExtractAll(tokens[1..])
  }

  lemma {:induction false} RenderedIsClosed(pieces: seq<Piece>, lookup: Lookup)
    requires Render(pieces, lookup).Ok?
    ensures Closed(pieces)
  {
    if pieces != [] {
      RenderedIsClosed(pieces[1..], lookup);
    }
  }

  /** The two scanners agree: whenever a template resolves, scanning it whole finds exactly the names its
      tokens hold, in the same order, and there is one argument for each whitespace token. */
  lemma {:induction false} ScannersAgree(template: string, lookup: Lookup)
    requires ResolveArgsTemplate(template, lookup).Ok?
    ensures Extract(template) == ExtractAll(Tokens(template))
    ensures |ResolveArgsTemplate(template, lookup).value| == |Tokens(template)|
    decreases |template|
  {
    if template == [] {
    } else if IsWhitespace(template[0]) {
      ExtractBlank(template);
      ScannersAgree(template[1..], lookup);
    } else {
      var e := WordEnd(template, 0);
      var t, rest := template[..e], template[e..];
      var tokens := Tokens(template);
      assert tokens == [t] + Tokens(rest) && tokens[1..] == Tokens(rest);
      RenderedIsClosed(Parse(t), lookup);
      assert template == t + rest;
      TokenParse(t, rest, 0);
      NamesConcat(Parse(t), Parse(rest));
      ScannersAgree(rest, lookup);
    }
  }

  /** The text of a rendered parse: literals as they stand, values in place of references. */
  function Inserted(pieces: seq<Piece>, lookup: Lookup): string {
    if pieces == [] then ""
    else
      (match pieces[0]
       case Literal(c) => [c]
       case Reference(name) => if name in lookup then lookup[name] else ""
       case Unclosed => "")
      + Inserted(pieces[1..], lookup)
  }

  /** Each argument is its token's own parse with the values inserted: no value is scanned again, none is
      split, and none can add or remove an argument. */
  lemma {:induction false} ArgumentsAreTheirTokens(tokens: seq<string>, lookup: Lookup, k: nat)
    requires SubstituteAll(tokens, lookup).Ok? && k < |tokens|
    ensures |SubstituteAll(tokens, lookup).value| == |tokens|
    ensures SubstituteAll(tokens, lookup).value[k] == Inserted(Parse(tokens[k]), lookup)
    ensures forall p :: p in Parse(tokens[k]) && p.Reference? ==> p.name in lookup && !IsForbidden(lookup[p.name])
  {
    SubstitutedLength(tokens, lookup);
    if k == 0 {
      RenderIsInsertion(Parse(tokens[0]), lookup);
    } else {
      ArgumentsAreTheirTokens(tokens[1..], lookup, k - 1);
    }
  }

  lemma SubstitutedLength(tokens: seq<string>, lookup: Lookup)
    requires SubstituteAll(tokens, lookup).Ok?
    ensures |SubstituteAll(tokens, lookup).value| == |tokens|
  {
  }

  lemma {:induction false} RenderIsInsertion(pieces: seq<Piece>, lookup: Lookup)
    requires Render(pieces, lookup).Ok?
    ensures Render(pieces, lookup).value == Inserted(pieces, lookup)
    ensures forall p :: p in pieces && p.Reference? ==> p.name in lookup && !IsForbidden(lookup[p.name])
  {
    if pieces != [] {
      RenderIsInsertion(pieces[1..], lookup);
    }
  }

  // ── What a validated template can fail on ──────────────────────────────────

  predicate BlocksRendering(p: Piece, e: Rejection, lookup: Lookup) {
    match e
    case Unterminated => p == Unclosed
    case Missing(n) => p == Reference(n) && n !in lookup
    case Forbidden(n) => p == Reference(n) && n in lookup && IsForbidden(lookup[n])
  }

  /** Which piece made a rendering fail. */
  lemma {:induction false} RenderFailure(pieces: seq<Piece>, lookup: Lookup) returns (k: nat)
    requires Render(pieces, lookup).Err?
    ensures k < |pieces| && Closed(pieces[..k])
    ensures BlocksRendering(pieces[k], Render(pieces, lookup).error, lookup)
  {
    var p := pieces[0];
    if p.Unclosed? || (p.Reference? && (p.name !in lookup || IsForbidden(lookup[p.name]))) {
      k := 0;
    } else {
      k := RenderFailure(pieces[1..], lookup);
      k := k + 1;
      assert pieces[..k] == [p] + pieces[1..][..k - 1];
    }
  }

  lemma {:induction false} NamesMember(pieces: seq<Piece>, k: nat)
    requires k < |pieces| && pieces[k].Reference? && pieces[k].name != ""
    ensures pieces[k].name in Names(pieces)
  {
    if k > 0 {
      NamesMember(pieces[1..], k - 1);
    }
  }

  /** The ways a validated template may fail: a declared parameter without a value or an empty `${}`, a
      forbidden value, or a `${` that some token does not close. */
  ghost predicate ExpectedFailure(e: Rejection, tokens: seq<string>, declared: set<string>, lookup: Lookup) {
    match e
    case Missing(n) => n !in lookup && (n == "" || n in declared)
    case Forbidden(n) => n in lookup && IsForbidden(lookup[n])
    case Unterminated => exists t :: t in tokens && !Closed(Parse(t))
  }

  /** A template that passed the definition-time check fails at execution only on a declared parameter
      without a value, on a forbidden value, on an empty `${}`, or on a `${` its token does not close. */
  lemma {:induction false} ValidatedTemplateFailure(template: string, declared: set<string>, lookup: Lookup)
    requires forall n :: n in Extract(template) ==> n in declared
    requires ResolveArgsTemplate(template, lookup).Err?
    ensures ExpectedFailure(ResolveArgsTemplate(template, lookup).error, Tokens(template), declared, lookup)
    decreases |template|
  {
    if IsWhitespace(template[0]) {
      ExtractBlank(template);
      ValidatedTemplateFailure(template[1..], declared, lookup);
    } else {
      var e := WordEnd(template, 0);
      var t, rest := template[..e], template[e..];
      assert template == t + rest && Tokens(template) == [t] + Tokens(rest);
      TokenParse(t, rest, 0);
      if Substitute(t, lookup).Err? {
        TokenFailure(t, rest, declared, lookup);
        assert t in Tokens(template);
      } else {
        RenderedIsClosed(Parse(t), lookup);
        NamesConcat(Parse(t), Parse(rest));
        ValidatedTemplateFailure(rest, declared, lookup);
      }
    }
  }

  lemma TokenFailure(t: string, rest: string, declared: set<string>, lookup: Lookup)
    requires StartsBlank(rest) && Substitute(t, lookup).Err?
    requires forall n :: n in Extract(t + rest) ==> n in declared
    ensures ExpectedFailure(Substitute(t, lookup).error, [t], declared, lookup)
  {
    hide ParseFrom, ParsesInside, Render, Names, IsForbidden;
    var pieces := Parse(t);
    var k := RenderFailure(pieces, lookup);
    TokenParse(t, rest, 0);
    if pieces[k].Reference? && pieces[k].name != "" {
      InsideAt(pieces, Parse(t + rest), Parse(rest), k);
      NamesMember(Parse(t + rest), k);
    }
  }
}
