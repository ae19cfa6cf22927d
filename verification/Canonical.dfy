/**
 The byte string a CANONICAL_V1 signature covers, in its two renderings. A byte string is written as
 a `string` with one character per byte; every delimiter and placeholder is ASCII.
 */
module Canonical {

  type Bytes = string

  const DEFAULT_CANONICAL_TEMPLATE: Bytes := "{method}\n{path}\n{timestamp}\n{body}"

  function CanonicalV1Payload(verb: Bytes, target: Bytes, timestamp: Bytes, body: Bytes): Bytes {
    verb + "\n" + target + "\n" + timestamp + "\n" + body
  }

  /** Where each field stands in the signed string: method, target and timestamp each ended by a newline, then the body. */
  lemma PayloadLayout(verb: Bytes, target: Bytes, timestamp: Bytes, body: Bytes)
    ensures
      var s := CanonicalV1Payload(verb, target, timestamp, body);
      var a, b := |verb| + 1, |verb| + 1 + |target| + 1;
      var c := b + |timestamp| + 1;
      && |s| == c + |body|
      && s[..|verb|] == verb && s[|verb|] == '\n' && s[a..a + |target|] == target && s[a + |target|] == '\n'
      && s[b..b + |timestamp|] == timestamp && s[b + |timestamp|] == '\n' && s[c..] == body
  {
  }

  predicate StartsWith(s: Bytes, prefix: Bytes) {
    |prefix| <= |s| && s[..|prefix|] == prefix
  }

  /** `str::replace`: non-overlapping matches, left to right, the replacement never rescanned. */
  function Replace(s: Bytes, pattern: Bytes, replacement: Bytes): Bytes
    requires pattern != []
    decreases |s|
  {
    if s == [] then []
    else if StartsWith(s, pattern) then replacement + Replace(s[|pattern|..], pattern, replacement)
    else [s[0]] + Replace(s[1..], pattern, replacement)
  }

  /** The four successive replacements; `lossy` is the best-effort UTF-8 decoding of the body. */
  function RenderCanonicalTemplate(template: Bytes, verb: Bytes, path: Bytes, timestamp: Bytes,
                                   body: Bytes, lossy: Bytes -> Bytes): Bytes {
    Replace(Replace(Replace(Replace(template, "{method}", verb), "{path}", path), "{timestamp}", timestamp),
            "{body}", lossy(body))
  }

  /** A field that ends at the first newline can be read back. */
  lemma {:induction false} FieldInjective(a: Bytes, x: Bytes, b: Bytes, y: Bytes)
    requires '\n' !in a && '\n' !in b
    requires a + "\n" + x == b + "\n" + y
    ensures a == b && x == y
  {
    var s := a + "\n" + x;
    assert s[|a|] == '\n' && s[|b|] == '\n';
    assert forall i :: 0 <= i < |a| ==> s[i] == a[i] && a[i] != '\n';
    assert forall i :: 0 <= i < |b| ==> s[i] == b[i] && b[i] != '\n';
    assert a == s[..|a|] == b;
    assert x == s[|a| + 1..] == y;
  }

  /** The signed string determines all four fields. */
  lemma PayloadInjective(verb: Bytes, target: Bytes, timestamp: Bytes, body: Bytes,
                         verb': Bytes, target': Bytes, timestamp': Bytes, body': Bytes)
    requires '\n' !in verb && '\n' !in target && '\n' !in timestamp
    requires '\n' !in verb' && '\n' !in target' && '\n' !in timestamp'
    ensures CanonicalV1Payload(verb, target, timestamp, body)
         == CanonicalV1Payload(verb', target', timestamp', body')
       <==> verb == verb' && target == target' && timestamp == timestamp' && body == body'
  {
    var p, q := CanonicalV1Payload(verb, target, timestamp, body),
                CanonicalV1Payload(verb', target', timestamp', body');
    var x, x' := target + "\n" + (timestamp + "\n" + body), target' + "\n" + (timestamp' + "\n" + body');
    assert p == verb + "\n" + x && q == verb' + "\n" + x';
    if p == q {
      FieldInjective(verb, x, verb', x');
      FieldInjective(target, timestamp + "\n" + body, target', timestamp' + "\n" + body');
      FieldInjective(timestamp, body, timestamp', body');
    }
  }

  // ── The template rendering ─────────────────────────────────────────────────

  /** Text without `{` passes through a placeholder replacement untouched. */
  lemma {:induction false} ReplaceSkips(a: Bytes, s: Bytes, pattern: Bytes, replacement: Bytes)
    requires pattern != [] && pattern[0] == '{' && '{' !in a
    ensures Replace(a + s, pattern, replacement) == a + Replace(s, pattern, replacement)
  {
    if a == [] {
      assert a + s == s;
    } else {
      assert (a + s)[0] == a[0];
      assert (a + s)[1..] == a[1..] + s;
      ReplaceSkips(a[1..], s, pattern, replacement);
    }
  }

  /** A placeholder at the front is replaced. */
  lemma ReplaceHere(pattern: Bytes, s: Bytes, replacement: Bytes)
    requires pattern != []
    ensures Replace(pattern + s, pattern, replacement) == replacement + Replace(s, pattern, replacement)
  {
    assert (pattern + s)[..|pattern|] == pattern;
    assert (pattern + s)[|pattern|..] == s;
  }

  /** Any other placeholder is kept. */
  lemma ReplaceKeeps(other: Bytes, s: Bytes, pattern: Bytes, replacement: Bytes)
    requires |pattern| > 1 && pattern[0] == '{'
    requires |other| > 1 && other[0] == '{' && '{' !in other[1..] && other[1] != pattern[1]
    ensures Replace(other + s, pattern, replacement) == other + Replace(s, pattern, replacement)
  {
    var t := other + s;
    assert t[1] == other[1] && t[0] == '{';
    assert |pattern| <= |t| ==> t[..|pattern|][1] == t[1];
    assert t[1..] == other[1..] + s;
    ReplaceSkips(other[1..], s, pattern, replacement);
  }

  // A template read as text and placeholders.

  datatype Placeholder = Verb | Path | Timestamp | Body
  datatype Piece = Text(text: Bytes) | Hole(placeholder: Placeholder)

  function Pattern(h: Placeholder): Bytes {
    match h
    case Verb => "{method}"
    case Path => "{path}"
    case Timestamp => "{timestamp}"
    case Body => "{body}"
  }

  lemma PatternShape(h: Placeholder, k: Placeholder)
    ensures |Pattern(h)| > 1 && Pattern(h)[0] == '{' && '{' !in Pattern(h)[1..]
    ensures h != k ==> Pattern(h)[1] != Pattern(k)[1]
  {
  }

  function Shown(p: Piece): Bytes {
    match p case Text(t) => t case Hole(h) => Pattern(h)
  }

  function Flatten(pieces: seq<Piece>): Bytes {
    if pieces == [] then [] else Shown(pieces[0]) + Flatten(pieces[1..])
  }

  function Fill(pieces: seq<Piece>, h: Placeholder, filling: Piece): seq<Piece> {
    seq(|pieces|, i requires 0 <= i < |pieces| => if pieces[i] == Hole(h) then filling else pieces[i])
  }

  predicate Plain(pieces: seq<Piece>) {
    forall p :: p in pieces && p.Text? ==> '{' !in p.text
  }

  lemma FlattenCons(p: Piece, rest: seq<Piece>)
    ensures Flatten([p] + rest) == Shown(p) + Flatten(rest)
  {
    assert ([p] + rest)[1..] == rest;
  }

  /** Replacing a placeholder in the bytes fills its holes in the pieces. */
  lemma {:induction false} ReplaceFills(pieces: seq<Piece>, h: Placeholder, filling: Piece)
    requires Plain(pieces)
    ensures (PatternShape(h, h); Replace(Flatten(pieces), Pattern(h), Shown(filling)) == Flatten(Fill(pieces, h, filling)))
  {
    hide Pattern, StartsWith;
    PatternShape(h, h);
    if pieces == [] {
    } else {
      var rest := Flatten(pieces[1..]);
      ReplaceFills(pieces[1..], h, filling);
      var filled := Fill(pieces, h, filling);
      assert filled[1..] == Fill(pieces[1..], h, filling);
      match pieces[0]
      case Text(t) => ReplaceSkips(t, rest, Pattern(h), Shown(filling));
      case Hole(k) =>
        if k == h {
          ReplaceHere(Pattern(h), rest, Shown(filling));
        } else {
          PatternShape(k, h);
          ReplaceKeeps(Pattern(k), rest, Pattern(h), Shown(filling));
        }
    }
  }

  /** The pieces of the default template, with the given pieces in its four holes. */
  function DefaultPieces(verb: Piece, path: Piece, timestamp: Piece, body: Piece): seq<Piece> {
    [verb] + ([Text("\n")] + ([path] + ([Text("\n")] + ([timestamp] + ([Text("\n")] + ([body] + []))))))
  }

  lemma FlattenDefault(verb: Piece, path: Piece, timestamp: Piece, body: Piece)
    ensures Flatten(DefaultPieces(verb, path, timestamp, body))
         == Shown(verb) + "\n" + Shown(path) + "\n" + Shown(timestamp) + "\n" + Shown(body)
  {
    var newline := Text("\n");
    var p6 := [body] + [];
    var p5 := [newline] + p6;
    var p4 := [timestamp] + p5;
    var p3 := [newline] + p4;
    var p2 := [path] + p3;
    var p1 := [newline] + p2;
    assert Flatten([]) == [] && Shown(newline) == "\n";
    assert DefaultPieces(verb, path, timestamp, body) == [verb] + p1;
    hide Flatten, Shown;
    FlattenCons(body, []);
    FlattenCons(newline, p6);
    FlattenCons(timestamp, p5);
    FlattenCons(newline, p4);
    FlattenCons(path, p3);
    FlattenCons(newline, p2);
    FlattenCons(verb, p1);
  }

  lemma DefaultTemplatePieces()
    ensures DEFAULT_CANONICAL_TEMPLATE
         == Flatten(DefaultPieces(Hole(Verb), Hole(Path), Hole(Timestamp), Hole(Body)))
  {
    hide Flatten;
    FlattenDefault(Hole(Verb), Hole(Path), Hole(Timestamp), Hole(Body));
  }

  lemma FillCons(p: Piece, rest: seq<Piece>, h: Placeholder, filling: Piece)
    ensures Fill([p] + rest, h, filling) == [if p == Hole(h) then filling else p] + Fill(rest, h, filling)
  {
  }

  lemma FillDefault(verb: Piece, path: Piece, timestamp: Piece, body: Piece, h: Placeholder, filling: Piece)
    ensures Fill(DefaultPieces(verb, path, timestamp, body), h, filling)
         == DefaultPieces(if verb == Hole(h) then filling else verb, if path == Hole(h) then filling else path,
                          if timestamp == Hole(h) then filling else timestamp, if body == Hole(h) then filling else body)
  {
    assert Fill([], h, filling) == [];
    hide Fill;
    var newline := Text("\n");
    var p6 := [body] + [];
    var p5 := [newline] + p6;
    var p4 := [timestamp] + p5;
    var p3 := [newline] + p4;
    var p2 := [path] + p3;
    var p1 := [newline] + p2;
    FillCons(body, [], h, filling);
    FillCons(newline, p6, h, filling);
    FillCons(timestamp, p5, h, filling);
    FillCons(newline, p4, h, filling);
    FillCons(path, p3, h, filling);
    FillCons(newline, p2, h, filling);
    FillCons(verb, p1, h, filling);
  }

  /** One replacement on the default template. */
  lemma ReplaceDefault(verb: Piece, path: Piece, timestamp: Piece, body: Piece, h: Placeholder, filling: Piece)
    requires Plain([verb, path, timestamp, body])
    ensures (PatternShape(h, h);
             Replace(Flatten(DefaultPieces(verb, path, timestamp, body)), Pattern(h), Shown(filling))
             == Flatten(DefaultPieces(if verb == Hole(h) then filling else verb, if path == Hole(h) then filling else path,
                                      if timestamp == Hole(h) then filling else timestamp,
                                      if body == Hole(h) then filling else body)))
  {
    hide Pattern, Flatten;
    var four := [verb, path, timestamp, body];
    assert verb == four[0] && path == four[1] && timestamp == four[2] && body == four[3];
    FillDefault(verb, path, timestamp, body, h, filling);
    ReplaceFills(DefaultPieces(verb, path, timestamp, body), h, filling);
  }

  /** The rendering of the default template when the first three fields go in as the given pieces:
      text without `{`, or a placeholder that comes later. */
  lemma RenderDefault(verb: Piece, path: Piece, timestamp: Piece, body: Bytes, lossy: Bytes -> Bytes)
    requires Plain([verb, path, timestamp])
    requires path.Text? || path == Hole(Body)
    requires verb.Text? && timestamp.Text?
    ensures RenderCanonicalTemplate(DEFAULT_CANONICAL_TEMPLATE, Shown(verb), Shown(path), Shown(timestamp), body, lossy)
         == Shown(verb) + "\n" + (if path.Text? then Shown(path) else lossy(body)) + "\n" + Shown(timestamp) + "\n" + lossy(body)
  {
    hide Flatten, Replace;
    DefaultTemplatePieces();
    var three := [verb, path, timestamp];
    assert verb == three[0] && path == three[1] && timestamp == three[2];
    ReplaceDefault(Hole(Verb), Hole(Path), Hole(Timestamp), Hole(Body), Verb, verb);
    ReplaceDefault(verb, Hole(Path), Hole(Timestamp), Hole(Body), Path, path);
    ReplaceDefault(verb, path, Hole(Timestamp), Hole(Body), Timestamp, timestamp);
    var filling := Text(lossy(body));
    ReplaceDefault(verb, path, timestamp, Hole(Body), Body, filling);
    FlattenDefault(verb, if path.Text? then path else filling, timestamp, filling);
  }

  // ── Agreement of the two renderings ────────────────────────────────────────

  predicate Occurs(s: Bytes, pattern: Bytes) {
    exists i :: 0 <= i <= |s| && StartsWith(s[i..], pattern)
  }

  const TIMESTAMP: Bytes := "{timestamp}"
  const BODY: Bytes := "{body}"

  lemma ReplaceMatch(s: Bytes, pattern: Bytes, replacement: Bytes)
    requires pattern != [] && StartsWith(s, pattern)
    ensures Replace(s, pattern, replacement) == replacement + Replace(s[|pattern|..], pattern, replacement)
  {
  }

  lemma ReplaceSkip(s: Bytes, pattern: Bytes, replacement: Bytes)
    requires pattern != [] && s != [] && !StartsWith(s, pattern)
    ensures Replace(s, pattern, replacement) == [s[0]] + Replace(s[1..], pattern, replacement)
  {
  }

  /** A pattern without a newline never matches across one. */
  lemma {:induction false} ReplaceAtNewline(a: Bytes, s: Bytes, pattern: Bytes, replacement: Bytes)
    requires pattern != [] && '\n' !in pattern
    ensures Replace(a + ("\n" + s), pattern, replacement)
         == Replace(a, pattern, replacement) + ("\n" + Replace(s, pattern, replacement))
    decreases |a|
  {
    var t := a + ("\n" + s);
    MatchBeforeNewline(a, s, pattern);
    if a == [] {
      EmptyUntouched(pattern, replacement);
      NoMatchInEmpty(pattern);
      hide Replace, StartsWith;
      ReplaceSkip(t, pattern, replacement);
      assert t[0] == '\n' && t[1..] == s;
    } else if StartsWith(a, pattern) {
      assert t[|pattern|..] == a[|pattern|..] + ("\n" + s);
      ReplaceAtNewline(a[|pattern|..], s, pattern, replacement);
      hide Replace, StartsWith;
      ReplaceMatch(t, pattern, replacement);
      ReplaceMatch(a, pattern, replacement);
    } else {
      assert t[1..] == a[1..] + ("\n" + s) && t[0] == a[0];
      ReplaceAtNewline(a[1..], s, pattern, replacement);
      hide Replace, StartsWith;
      ReplaceSkip(t, pattern, replacement);
      ReplaceSkip(a, pattern, replacement);
    }
  }

  lemma NoMatchInEmpty(pattern: Bytes)
    requires pattern != []
    ensures !StartsWith([], pattern)
  {
  }

  lemma MatchBeforeNewline(a: Bytes, s: Bytes, pattern: Bytes)
    requires '\n' !in pattern
    ensures StartsWith(a + ("\n" + s), pattern) <==> StartsWith(a, pattern)
  {
    var t := a + ("\n" + s);
    if |pattern| <= |a| {
      assert t[..|pattern|] == a[..|pattern|];
    } else if |pattern| <= |t| {
      assert t[..|pattern|][|a|] == '\n';
    }
  }

  /** What the last two replacements make of the path. */
  function PathShown(path: Bytes, timestamp: Bytes, body: Bytes): Bytes {
    Replace(Replace(path, TIMESTAMP, timestamp), BODY, body)
  }

  lemma FirstTwo(verb: Bytes, path: Bytes)
    requires '{' !in verb
    ensures Replace(Replace(DEFAULT_CANONICAL_TEMPLATE, "{method}", verb), "{path}", path) == Lines(verb, path, TIMESTAMP, BODY)
  {
    hide Replace, Flatten;
    DefaultTemplatePieces();
    ReplaceDefault(Hole(Verb), Hole(Path), Hole(Timestamp), Hole(Body), Verb, Text(verb));
    ReplaceDefault(Text(verb), Hole(Path), Hole(Timestamp), Hole(Body), Path, Text(path));
    FlattenDefault(Text(verb), Text(path), Hole(Timestamp), Hole(Body));
    ThreeLines(verb, path, TIMESTAMP, BODY);
  }

  lemma Third(verb: Bytes, path: Bytes, timestamp: Bytes)
    requires '{' !in verb
    ensures Replace(Lines(verb, path, TIMESTAMP, BODY), TIMESTAMP, timestamp)
         == Lines(verb, Replace(path, TIMESTAMP, timestamp), timestamp, BODY)
  {
    hide Replace, Lines;
    PlainUntouched(verb, TIMESTAMP, timestamp);
    WholePattern(TIMESTAMP, timestamp);
    OtherPattern(timestamp);
    OnLines(verb, path, TIMESTAMP, BODY, TIMESTAMP, timestamp);
  }

  lemma Fourth(verb: Bytes, path: Bytes, timestamp: Bytes, decoded: Bytes)
    requires '{' !in verb && '{' !in timestamp
    ensures Replace(Lines(verb, path, timestamp, BODY), BODY, decoded)
         == Lines(verb, Replace(path, BODY, decoded), timestamp, decoded)
  {
    hide Replace, Lines;
    PlainUntouched(verb, BODY, decoded);
    PlainUntouched(timestamp, BODY, decoded);
    WholePattern(BODY, decoded);
    OnLines(verb, path, timestamp, BODY, BODY, decoded);
  }

  /** Whatever the path holds, the rendering is the payload with the path so expanded and the body decoded. */
  lemma RenderAnyPath(verb: Bytes, path: Bytes, timestamp: Bytes, body: Bytes, lossy: Bytes -> Bytes)
    requires '{' !in verb && '{' !in timestamp
    ensures RenderCanonicalTemplate(DEFAULT_CANONICAL_TEMPLATE, verb, path, timestamp, body, lossy)
         == CanonicalV1Payload(verb, PathShown(path, timestamp, lossy(body)), timestamp, lossy(body))
  {
    hide Replace, Lines;
    FirstTwo(verb, path);
    Third(verb, path, timestamp);
    Fourth(verb, Replace(path, TIMESTAMP, timestamp), timestamp, lossy(body));
    ThreeLines(verb, PathShown(path, timestamp, lossy(body)), timestamp, lossy(body));
  }

  /** Four lines, associated to the right. */
  function Lines(a: Bytes, b: Bytes, c: Bytes, d: Bytes): Bytes {
    a + ("\n" + (b + ("\n" + (c + ("\n" + d)))))
  }

  lemma ThreeLines(a: Bytes, b: Bytes, c: Bytes, d: Bytes)
    ensures a + "\n" + b + "\n" + c + "\n" + d == Lines(a, b, c, d)
  {
  }

  /** A replacement works line by line. */
  lemma OnLines(a: Bytes, b: Bytes, c: Bytes, d: Bytes, pattern: Bytes, replacement: Bytes)
    requires pattern != [] && '\n' !in pattern
    ensures Replace(Lines(a, b, c, d), pattern, replacement)
         == Lines(Replace(a, pattern, replacement), Replace(b, pattern, replacement), Replace(c, pattern, replacement),
                  Replace(d, pattern, replacement))
  {
    hide Replace;
    ReplaceAtNewline(a, b + ("\n" + (c + ("\n" + d))), pattern, replacement);
    ReplaceAtNewline(b, c + ("\n" + d), pattern, replacement);
    ReplaceAtNewline(c, d, pattern, replacement);
  }

  lemma PlainUntouched(s: Bytes, pattern: Bytes, replacement: Bytes)
    requires pattern != [] && pattern[0] == '{' && '{' !in s
    ensures Replace(s, pattern, replacement) == s
  {
    ReplaceSkips(s, [], pattern, replacement);
    assert s + [] == s;
  }

  lemma WholePattern(pattern: Bytes, replacement: Bytes)
    requires pattern != []
    ensures Replace(pattern, pattern, replacement) == replacement
  {
    ReplaceHere(pattern, [], replacement);
    assert pattern + [] == pattern;
  }

  lemma OtherPattern(timestamp: Bytes)
    ensures Replace(BODY, TIMESTAMP, timestamp) == BODY
  {
    PatternShape(Body, Timestamp);
    ReplaceKeeps(BODY, [], TIMESTAMP, timestamp);
    assert BODY + [] == BODY;
    EmptyUntouched(TIMESTAMP, timestamp);
  }

  lemma EmptyUntouched(pattern: Bytes, replacement: Bytes)
    requires pattern != []
    ensures Replace([], pattern, replacement) == []
  {
  }

  // The path under the last two replacements. A timestamp that passed validation is digits with an optional sign,
  // perhaps between blanks, so it shares no character with a placeholder.

  predicate IsTimestamp(t: Bytes) {
    t != [] && forall i :: 0 <= i < |t| ==> !('a' <= t[i] <= 'z') && t[i] != '{' && t[i] != '}'
  }

  /** Both placeholders replaced in one pass. */
  function OnePass(s: Bytes, timestamp: Bytes, body: Bytes): Bytes
    decreases |s|
  {
    if s == [] then []
    else if StartsWith(s, TIMESTAMP) then timestamp + OnePass(s[|TIMESTAMP|..], timestamp, body)
    else if StartsWith(s, BODY) then body + OnePass(s[|BODY|..], timestamp, body)
    else [s[0]] + OnePass(s[1..], timestamp, body)
  }

  /** No letter of a placeholder that the first replacement leaves was put there by it. */
  lemma {:induction false} PrefixIsOlder(s: Bytes, w: Bytes, timestamp: Bytes)
    requires IsTimestamp(timestamp) && (forall i :: 0 <= i < |w| ==> 'a' <= w[i] <= 'z' || w[i] == '}')
    requires StartsWith(Replace(s, TIMESTAMP, timestamp), w)
    ensures StartsWith(s, w)
    decreases |w|
  {
    var r := Replace(s, TIMESTAMP, timestamp);
    if w != [] {
      assert r[..|w|][0] == w[0];
      if !StartsWith(s, TIMESTAMP) {
        assert r[1..] == Replace(s[1..], TIMESTAMP, timestamp) && r[0] == s[0];
        assert r[1..][..|w| - 1] == r[..|w|][1..] == w[1..];
        PrefixIsOlder(s[1..], w[1..], timestamp);
        assert s[1..][..|w| - 1] == w[1..];
        assert s[..|w|] == [s[0]] + s[1..][..|w| - 1];
      }
    }
  }

  /** The two replacements amount to one pass. */
  lemma {:induction false} PathShownInOnePass(s: Bytes, timestamp: Bytes, body: Bytes)
    requires IsTimestamp(timestamp)
    ensures PathShown(s, timestamp, body) == OnePass(s, timestamp, body)
    decreases |s|
  {
    if s == [] {
    } else if StartsWith(s, TIMESTAMP) {
      var rest := s[|TIMESTAMP|..];
      PathShownInOnePass(rest, timestamp, body);
      ReplaceMatch(s, TIMESTAMP, timestamp);
      ReplaceSkips(timestamp, Replace(rest, TIMESTAMP, timestamp), BODY, body);
    } else if StartsWith(s, BODY) {
      var rest := s[|BODY|..];
      PathShownInOnePass(rest, timestamp, body);
      assert s == BODY + rest;
      PatternShape(Body, Timestamp);
      ReplaceKeeps(BODY, rest, TIMESTAMP, timestamp);
      ReplaceHere(BODY, Replace(rest, TIMESTAMP, timestamp), body);
    } else {
      PathShownInOnePass(s[1..], timestamp, body);
      var r := Replace(s[1..], TIMESTAMP, timestamp);
      ReplaceSkip(s, TIMESTAMP, timestamp);
      NoNewBody(s, timestamp);
      assert ([s[0]] + r)[1..] == r;
      ReplaceSkip([s[0]] + r, BODY, body);
    }
  }

  lemma NoNewBody(s: Bytes, timestamp: Bytes)
    requires IsTimestamp(timestamp) && s != [] && !StartsWith(s, BODY)
    ensures !StartsWith([s[0]] + Replace(s[1..], TIMESTAMP, timestamp), BODY)
  {
    var r := Replace(s[1..], TIMESTAMP, timestamp);
    var t := [s[0]] + r;
    if StartsWith(t, BODY) {
      assert t[..|BODY|][0] == '{' && r == t[1..];
      assert r[..|BODY| - 1] == t[..|BODY|][1..] == "body}";
      PrefixIsOlder(s[1..], "body}", timestamp);
      BodyAhead(s);
    }
  }

  lemma BodyAhead(s: Bytes)
    requires s != [] && s[0] == '{' && StartsWith(s[1..], "body}")
    ensures StartsWith(s, BODY)
  {
    assert s[..|BODY|] == [s[0]] + s[1..][..|BODY| - 1];
  }

  /** What one pass does first: the piece it reads and what it writes for it. */
  predicate FirstPiece(s: Bytes, timestamp: Bytes, body: Bytes, piece: Bytes, written: Bytes, rest: Bytes) {
    && piece != [] && s == piece + rest
    && OnePass(s, timestamp, body) == written + OnePass(rest, timestamp, body)
    && (|| (|piece| == 1 && written == piece)
        || (piece == TIMESTAMP && written == timestamp)
        || (piece == BODY && written == body))
  }

  lemma PieceReads(s: Bytes, timestamp: Bytes, body: Bytes, piece: Bytes, written: Bytes, rest: Bytes)
    requires FirstPiece(s, timestamp, body, piece, written, rest)
    ensures piece != [] && s == piece + rest && OnePass(s, timestamp, body) == written + OnePass(rest, timestamp, body)
  {
  }

  /** Two ways to cut one text: what begins in the middle of the first part. */
  lemma AtBoundary(p: Bytes, r: Bytes, z: Bytes, w: Bytes)
    requires p + r == z + w && |z| < |p| && w != []
    ensures p[|z|] == w[0]
  {
    assert (p + r)[|z|] == p[|z|] && (z + w)[|z|] == w[0];
  }

  lemma CutFront(p: Bytes, r: Bytes, z: Bytes, a: Bytes, b: Bytes)
    requires p + r == z + (a + b) && |z| >= |p|
    ensures r == (z[|p|..] + a) + b
  {
    assert r == (p + r)[|p|..] && (z + (a + b))[|p|..] == z[|p|..] + (a + b);
  }

  lemma First(s: Bytes, timestamp: Bytes, body: Bytes) returns (piece: Bytes, written: Bytes, rest: Bytes)
    requires s != []
    ensures FirstPiece(s, timestamp, body, piece, written, rest)
  {
    if StartsWith(s, TIMESTAMP) {
      piece, written, rest := TIMESTAMP, timestamp, s[|TIMESTAMP|..];
    } else if StartsWith(s, BODY) {
      piece, written, rest := BODY, body, s[|BODY|..];
    } else {
      piece, written, rest := [s[0]], [s[0]], s[1..];
    }
  }

  /** A body that begins with its own placeholder never shifts what follows to the right. */
  lemma {:induction false} NoRightShift(z: Bytes, v: Bytes, timestamp: Bytes, body: Bytes)
    requires IsTimestamp(timestamp) && StartsWith(body, BODY) && z != []
    ensures v != z + OnePass(v, timestamp, body)
    decreases |v|
  {
    if v == z + OnePass(v, timestamp, body) {
      var piece, written, rest := First(v, timestamp, body);
      var after := OnePass(rest, timestamp, body);
      PieceReads(v, timestamp, body, piece, written, rest);
      NothingVanishes(timestamp, body, v, piece, written, rest);
      hide OnePass, FirstPiece, IsTimestamp, StartsWith;
      if |z| >= |piece| {
        CutFront(piece, rest, z, written, after);
        NoRightShift(z[|piece|..] + written, rest, timestamp, body);
      } else {
        AtBoundary(piece, rest, z, written + after);
        FirstCharacter(timestamp, body, v, piece, written, rest);
      }
    }
  }

  lemma NothingVanishes(timestamp: Bytes, body: Bytes, s: Bytes, piece: Bytes, written: Bytes, rest: Bytes)
    requires IsTimestamp(timestamp) && StartsWith(body, BODY) && FirstPiece(s, timestamp, body, piece, written, rest)
    ensures written != []
  {
  }

  /** What is written for a placeholder never begins with one of its later letters. */
  lemma FirstCharacter(timestamp: Bytes, body: Bytes, s: Bytes, piece: Bytes, written: Bytes, rest: Bytes)
    requires IsTimestamp(timestamp) && StartsWith(body, BODY) && FirstPiece(s, timestamp, body, piece, written, rest)
    ensures written != [] && forall i :: 1 <= i < |piece| ==> piece[i] != written[0]
  {
    assert body[..|BODY|][0] == body[0];
  }

  /** A body that is a beginning of its placeholder never shifts it to the left. */
  lemma {:induction false} NoLeftShift(g: Bytes, v: Bytes, timestamp: Bytes, body: Bytes)
    requires IsTimestamp(timestamp) && StartsWith(BODY, body) && body != BODY && g != []
    ensures OnePass(v, timestamp, body) != g + v
    decreases |v|
  {
    if v != [] && OnePass(v, timestamp, body) == g + v {
      var piece, written, rest := First(v, timestamp, body);
      var after := OnePass(rest, timestamp, body);
      PieceReads(v, timestamp, body, piece, written, rest);
      hide OnePass, FirstPiece, IsTimestamp, StartsWith;
      if |written| <= |g| {
        CutFront(written, after, g, piece, rest);
        NoLeftShift(g[|written|..] + piece, rest, timestamp, body);
      } else {
        AtBoundary(written, after, g, piece + rest);
        LaterCharacters(timestamp, body, v, piece, written, rest);
      }
    }
  }

  /** What is written for a placeholder never holds its first letter again. */
  lemma LaterCharacters(timestamp: Bytes, body: Bytes, s: Bytes, piece: Bytes, written: Bytes, rest: Bytes)
    requires IsTimestamp(timestamp) && StartsWith(BODY, body) && FirstPiece(s, timestamp, body, piece, written, rest)
    ensures forall i :: 1 <= i < |written| ==> written[i] != piece[0]
  {
    assert body == BODY[..|body|];
  }

  lemma OccursTail(s: Bytes, pattern: Bytes)
    requires s != [] && pattern != []
    ensures Occurs(s, pattern) <==> StartsWith(s, pattern) || Occurs(s[1..], pattern)
  {
    if i :| 0 <= i <= |s| && StartsWith(s[i..], pattern) {
      if i == 0 {
        assert s[0..] == s;
      } else {
        assert s[1..][i - 1..] == s[i..];
      }
    }
    if StartsWith(s, pattern) {
      assert s[0..] == s;
    }
    if i :| 0 <= i <= |s[1..]| && StartsWith(s[1..][i..], pattern) {
      assert s[1..][i..] == s[i + 1..];
    }
  }

  lemma {:induction false} OccursPast(a: Bytes, s: Bytes, pattern: Bytes)
    requires '{' !in a && pattern != [] && pattern[0] == '{'
    ensures Occurs(a + s, pattern) <==> Occurs(s, pattern)
    decreases |a|
  {
    var t := a + s;
    if a == [] {
      assert t == s;
    } else {
      assert t[0] == a[0] && t[1..] == a[1..] + s;
      assert |pattern| <= |t| ==> t[..|pattern|][0] == t[0];
      OccursTail(t, pattern);
      OccursPast(a[1..], s, pattern);
    }
  }

  lemma OccursAfterBody(rest: Bytes)
    ensures Occurs(BODY + rest, TIMESTAMP) <==> Occurs(rest, TIMESTAMP)
    ensures Occurs(BODY + rest, BODY)
  {
    var t := BODY + rest;
    assert t[1] == 'b' && t[..|BODY|] == BODY;
    assert |TIMESTAMP| <= |t| ==> t[..|TIMESTAMP|][1] == t[1];
    OccursTail(t, TIMESTAMP);
    OccursTail(t, BODY);
    assert t[1..] == "body}" + rest;
    OccursPast("body}", rest, TIMESTAMP);
  }

  lemma LongBody(body: Bytes, after: Bytes, rest: Bytes)
    requires body + after == BODY + rest && |body| >= |BODY|
    ensures StartsWith(body, BODY) && body == BODY + body[|BODY|..] && rest == body[|BODY|..] + after
  {
    assert body[..|BODY|] == (body + after)[..|BODY|] == BODY;
    assert rest == (BODY + rest)[|BODY|..] == (body + after)[|BODY|..];
  }

  lemma ShortBody(body: Bytes, after: Bytes, rest: Bytes)
    requires body + after == BODY + rest && |body| < |BODY|
    ensures StartsWith(BODY, body) && body != BODY && BODY[|body|..] != [] && after == BODY[|body|..] + rest
  {
    assert body == (body + after)[..|body|] == (BODY + rest)[..|body|];
    assert after == (body + after)[|body|..] == (BODY + rest)[|body|..];
  }

  /** A body other than its placeholder is never written back where the placeholder stood. */
  lemma BodyWrittenBack(rest: Bytes, timestamp: Bytes, body: Bytes)
    requires IsTimestamp(timestamp) && body + OnePass(rest, timestamp, body) == BODY + rest
    ensures body == BODY
  {
    hide OnePass, IsTimestamp, StartsWith;
    var after := OnePass(rest, timestamp, body);
    if |body| >= |BODY| {
      LongBody(body, after, rest);
      if body[|BODY|..] != [] {
        NoRightShift(body[|BODY|..], rest, timestamp, body);
      }
    } else {
      ShortBody(body, after, rest);
      NoLeftShift(BODY[|body|..], rest, timestamp, body);
    }
  }

  /** One pass leaves a text alone exactly when it holds no `{timestamp}`, and no `{body}` unless that is the body. */
  lemma {:induction false} OnePassFixes(s: Bytes, timestamp: Bytes, body: Bytes)
    requires IsTimestamp(timestamp)
    ensures OnePass(s, timestamp, body) == s <==> !Occurs(s, TIMESTAMP) && (Occurs(s, BODY) ==> body == BODY)
    decreases |s|
  {
    if s == [] {
      NoMatchInEmpty(TIMESTAMP);
      NoMatchInEmpty(BODY);
    } else if StartsWith(s, TIMESTAMP) {
      OccursTail(s, TIMESTAMP);
      assert s[..|TIMESTAMP|][0] == s[0];
      assert OnePass(s, timestamp, body)[0] == timestamp[0];
    } else if StartsWith(s, BODY) {
      var rest := s[|BODY|..];
      var after := OnePass(rest, timestamp, body);
      assert s == BODY + rest;
      OccursAfterBody(rest);
      OnePassFixes(rest, timestamp, body);
      if body == BODY {
        assert (BODY + after)[|BODY|..] == after;
      } else if body + after == s {
        BodyWrittenBack(rest, timestamp, body);
      }
    } else {
      OccursTail(s, TIMESTAMP);
      OccursTail(s, BODY);
      OnePassFixes(s[1..], timestamp, body);
      assert s == [s[0]] + s[1..];
      assert ([s[0]] + OnePass(s[1..], timestamp, body))[1..] == OnePass(s[1..], timestamp, body);
    }
  }

  lemma NoEarlierNewline(x: Bytes, s': Bytes, path: Bytes, s: Bytes)
    requires x + s' == path + s && |x| <= |path| && s' != [] && s'[0] == '\n' && '\n' !in path
    ensures |x| == |path|
  {
    if |x| < |path| {
      AtBoundary(path, s, x, s');
    }
  }

  /** Two payloads that share the timestamp, where the second path has no newline and the second body is no longer. */
  lemma SamePayload(verb: Bytes, x: Bytes, path: Bytes, timestamp: Bytes, l: Bytes, body: Bytes)
    requires '\n' !in path && |l| >= |body|
    ensures CanonicalV1Payload(verb, x, timestamp, l) == CanonicalV1Payload(verb, path, timestamp, body) <==> x == path && l == body
  {
    var head := verb + "\n";
    var s, s' := "\n" + (timestamp + "\n" + body), "\n" + (timestamp + "\n" + l);
    assert CanonicalV1Payload(verb, x, timestamp, l) == head + (x + s');
    assert CanonicalV1Payload(verb, path, timestamp, body) == head + (path + s);
    if head + (x + s') == head + (path + s) {
      assert (head + (x + s'))[|head|..] == x + s' && (head + (path + s))[|head|..] == path + s;
      NoEarlierNewline(x, s', path, s);
      assert x == (x + s')[..|x|] == (path + s)[..|path|] == path;
      assert s' == s;
      assert l == s'[|s'| - |l|..] && body == s[|s| - |body|..];
    }
  }

  /** When the two renderings agree, for every path without a newline: exactly when the body decodes to itself, and the
      path holds no `{timestamp}`, and no `{body}` unless that is the body. Other placeholders in the path are harmless: they
      are inserted after their own replacement. Decoding replaces invalid bytes by a longer mark, so it never shortens. */
  lemma RenderingsAgreeExactly(verb: Bytes, path: Bytes, timestamp: Bytes, body: Bytes, lossy: Bytes -> Bytes)
    requires '{' !in verb && IsTimestamp(timestamp) && '\n' !in path && |lossy(body)| >= |body|
    ensures RenderCanonicalTemplate(DEFAULT_CANONICAL_TEMPLATE, verb, path, timestamp, body, lossy)
         == CanonicalV1Payload(verb, path, timestamp, body)
       <==> lossy(body) == body && !Occurs(path, TIMESTAMP) && (Occurs(path, BODY) ==> body == BODY)
  {
    hide RenderCanonicalTemplate, CanonicalV1Payload, Occurs, PathShown;
    RenderAnyPath(verb, path, timestamp, body, lossy);
    SamePayload(verb, PathShown(path, timestamp, lossy(body)), path, timestamp, lossy(body), body);
    PathShownInOnePass(path, timestamp, body);
    OnePassFixes(path, timestamp, body);
  }

  /** With no `{` in the other three fields, the two renderings agree exactly when the body decodes to
      itself; placeholders inside the body are never expanded. */
  lemma RenderingsAgree(verb: Bytes, path: Bytes, timestamp: Bytes, body: Bytes, lossy: Bytes -> Bytes)
    requires '{' !in verb && '{' !in path && '{' !in timestamp
    ensures RenderCanonicalTemplate(DEFAULT_CANONICAL_TEMPLATE, verb, path, timestamp, body, lossy)
         == CanonicalV1Payload(verb, path, timestamp, body)
       <==> lossy(body) == body
  {
    hide RenderCanonicalTemplate;
    RenderDefault(Text(verb), Text(path), Text(timestamp), body, lossy);
    var head := verb + "\n" + path + "\n" + timestamp + "\n";
    assert (head + lossy(body))[|head|..] == lossy(body);
    assert (head + body)[|head|..] == body;
  }

  /** A brace in the path is enough to break the agreement: a `{body}` there is expanded. */
  lemma BraceInPathBreaksAgreement(lossy: Bytes -> Bytes)
    requires lossy("x") == "x"
    ensures RenderCanonicalTemplate(DEFAULT_CANONICAL_TEMPLATE, "M", "{body}", "1", "x", lossy)
         != CanonicalV1Payload("M", "{body}", "1", "x")
  {
    hide RenderCanonicalTemplate;
    RenderDefault(Text("M"), Hole(Body), Text("1"), "x", lossy);
    var rendered := RenderCanonicalTemplate(DEFAULT_CANONICAL_TEMPLATE, "M", "{body}", "1", "x", lossy);
    assert rendered[2] == 'x';
    assert CanonicalV1Payload("M", "{body}", "1", "x")[2] == '{';
  }

  /** The condition needs a timestamp that passed validation: around an empty one the renderings can agree by accident,
      the body putting back the very text that was taken out. */
  lemma EmptyTimestampCoincidence(lossy: Bytes -> Bytes)
    requires lossy("{timestamp}{body}") == "{timestamp}{body}"
    ensures RenderCanonicalTemplate(DEFAULT_CANONICAL_TEMPLATE, "M", "{timestamp}{body}", "", "{timestamp}{body}", lossy)
         == CanonicalV1Payload("M", "{timestamp}{body}", "", "{timestamp}{body}")
    ensures Occurs("{timestamp}{body}", TIMESTAMP)
  {
    hide RenderCanonicalTemplate, Replace;
    var path := "{timestamp}{body}";
    assert path == TIMESTAMP + BODY && "" + BODY == BODY;
    RenderAnyPath("M", path, "", path, lossy);
    ReplaceHere(TIMESTAMP, BODY, "");
    OtherPattern("");
    WholePattern(BODY, path);
    assert path[0..] == path && path[..|TIMESTAMP|] == TIMESTAMP;
  }

  /** A template without the timestamp renders without it. */
  lemma RenderTimeless(verb: Bytes, path: Bytes, timestamp: Bytes, body: Bytes, lossy: Bytes -> Bytes)
    requires '{' !in verb && '{' !in path
    ensures RenderCanonicalTemplate("{method}{path}{body}", verb, path, timestamp, body, lossy) == verb + (path + lossy(body))
  {
    hide Replace;
    var decoded := lossy(body);
    assert "{method}{path}{body}" == "{method}" + ("{path}" + BODY);
    PatternShape(Verb, Path);
    PatternShape(Path, Verb);
    PatternShape(Body, Verb);
    PatternShape(Body, Path);
    ReplaceHere("{method}", "{path}" + BODY, verb);
    ReplaceKeeps("{path}", BODY, "{method}", verb);
    KeepsWhole(BODY, "{method}", verb);
    ReplaceSkips(verb, "{path}" + BODY, "{path}", path);
    ReplaceHere("{path}", BODY, path);
    KeepsWhole(BODY, "{path}", path);
    ReplaceSkips(verb, path + BODY, TIMESTAMP, timestamp);
    ReplaceSkips(path, BODY, TIMESTAMP, timestamp);
    OtherPattern(timestamp);
    ReplaceSkips(verb, path + BODY, BODY, decoded);
    ReplaceSkips(path, BODY, BODY, decoded);
    WholePattern(BODY, decoded);
  }

  lemma KeepsWhole(other: Bytes, pattern: Bytes, replacement: Bytes)
    requires |pattern| > 1 && pattern[0] == '{'
    requires |other| > 1 && other[0] == '{' && '{' !in other[1..] && other[1] != pattern[1]
    ensures Replace(other, pattern, replacement) == other
  {
    ReplaceKeeps(other, [], pattern, replacement);
    assert other + [] == other;
  }
}
