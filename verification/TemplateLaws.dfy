/**
 What the words of this part of the service mean: trimming, whitespace tokens, the template grammar, and which values
 may be inserted. Each law is about the text itself; together they leave no other reading.
 */
module TemplateLaws {
  import opened Text
  import opened ArgsTemplate

  // ── Trimming and tokens ────────────────────────────────────────────────────

  predicate AllBlank(s: string) {
    forall i :: 0 <= i < |s| ==> IsWhitespace(s[i])
  }

  /** A word: some characters, none of them blank. */
  predicate IsWord(s: string) {
    s != [] && forall i :: 0 <= i < |s| ==> !IsWhitespace(s[i])
  }

  predicate IsTrimmed(s: string) {
    s != [] ==> !IsWhitespace(s[0]) && !IsWhitespace(s[|s| - 1])
  }

  predicate IsLetter(c: char) {
    c in {'A', 'B', 'C', 'D', 'E', 'F', 'G', 'H', 'I', 'J', 'K', 'L', 'M', 'N', 'O', 'P', 'Q', 'R', 'S', 'T', 'U', 'V',
          'W', 'X', 'Y', 'Z', 'a', 'b', 'c', 'd', 'e', 'f', 'g', 'h', 'i', 'j', 'k', 'l', 'm', 'n', 'o', 'p', 'q', 'r',
          's', 't', 'u', 'v', 'w', 'x', 'y', 'z', '_'}
  }

  predicate IsDigit(c: char) {
    c in {'0', '1', '2', '3', '4', '5', '6', '7', '8', '9'}
  }

  /** The 25 code points with the White_Space property. */
  predicate IsBlank(c: char) {
    c as int in {9, 10, 11, 12, 13, 0x20, 0x85, 0xA0, 0x1680, 0x2000, 0x2001, 0x2002, 0x2003, 0x2004, 0x2005, 0x2006,
                 0x2007, 0x2008, 0x2009, 0x200A, 0x2028, 0x2029, 0x202F, 0x205F, 0x3000}
  }

  /** The character classes, listed. */
  lemma ClassesExactly(c: char)
    ensures IsIdentStart(c) <==> IsLetter(c)
    ensures IsIdentChar(c) <==> IsLetter(c) || IsDigit(c)
    ensures IsWhitespace(c) <==> IsBlank(c)
  {
  }

  /** A parameter key: a letter, then letters and digits. */
  lemma IdentifierExactly(s: string)
    ensures IsIdentifier(s) <==>
      s != "" && IsLetter(s[0]) && forall i :: 1 <= i < |s| ==> IsLetter(s[i]) || IsDigit(s[i])
  {
    hide IsIdentStart, IsIdentChar, IsLetter, IsDigit;
    forall i | 0 <= i < |s|
      ensures IsIdentStart(s[i]) <==> IsLetter(s[i])
      ensures IsIdentChar(s[i]) <==> IsLetter(s[i]) || IsDigit(s[i])
    {
      ClassesExactly(s[i]);
    }
  }

  lemma {:induction false} TrimStartCuts(s: string) returns (a: string)
    ensures AllBlank(a) && s == a + TrimStart(s)
    ensures TrimStart(s) != [] ==> !IsWhitespace(TrimStart(s)[0])
  {
    if s != [] && IsWhitespace(s[0]) {
      a := TrimStartCuts(s[1..]);
      a := [s[0]] + a;
      assert s == [s[0]] + s[1..];
    } else {
      a := [];
    }
  }

  lemma {:induction false} TrimEndCuts(s: string) returns (b: string)
    ensures AllBlank(b) && s == TrimEnd(s) + b
    ensures TrimEnd(s) != [] ==> !IsWhitespace(TrimEnd(s)[|TrimEnd(s)| - 1])
  {
    if s != [] && IsWhitespace(s[|s| - 1]) {
      b := TrimEndCuts(s[..|s| - 1]);
      b := b + [s[|s| - 1]];
      assert s == s[..|s| - 1] + [s[|s| - 1]];
    } else {
      b := [];
    }
  }

  /** Trimming cuts blanks off both ends, and all of them. */
  lemma TrimCutsBlanks(s: string) returns (a: string, b: string)
    ensures s == a + Trim(s) + b && AllBlank(a) && AllBlank(b) && IsTrimmed(Trim(s))
  {
    a := TrimStartCuts(s);
    b := TrimEndCuts(TrimStart(s));
    if Trim(s) != [] {
      assert Trim(s)[0] == TrimStart(s)[0];
    }
  }

  /** Nothing else is cut off: the trimmed text is the one that lies between blanks. */
  lemma {:induction false} TrimIsTheMiddle(a: string, t: string, b: string)
    requires AllBlank(a) && AllBlank(b) && IsTrimmed(t)
    ensures Trim(a + t + b) == t
  {
    if a != [] {
      assert (a + t + b)[0] == a[0] && (a + t + b)[1..] == a[1..] + t + b;
      TrimIsTheMiddle(a[1..], t, b);
      assert TrimStart(a + t + b) == TrimStart(a[1..] + t + b);
    } else if t == [] {
      assert a + t + b == b;
      BlankTrims(b);
    } else {
      assert a + t + b == t + b && (t + b)[0] == t[0];
      TrimEndOff(t, b);
    }
  }

  lemma {:induction false} BlankTrims(b: string)
    requires AllBlank(b)
    ensures Trim(b) == []
  {
    if b != [] {
      BlankTrims(b[1..]);
      assert TrimStart(b) == TrimStart(b[1..]);
    }
  }

  lemma {:induction false} TrimEndOff(t: string, b: string)
    requires AllBlank(b) && t != [] && !IsWhitespace(t[|t| - 1])
    ensures TrimEnd(t + b) == t
    decreases |b|
  {
    if b == [] {
      assert t + b == t;
    } else {
      var n := |b| - 1;
      assert (t + b)[|t + b| - 1] == b[n] && (t + b)[..|t + b| - 1] == t + b[..n];
      TrimEndOff(t, b[..n]);
    }
  }

  /** The effective account is the trimmed text, if it holds anything but blanks. */
  lemma EffectiveAccount(a: string, t: string, b: string)
    requires AllBlank(a) && AllBlank(b) && IsTrimmed(t)
    ensures EffectiveRunAsUser(Some(a + t + b)) == (if t == "" then None else Some(t))
    ensures EffectiveRunAsUser(None) == None
  {
    TrimIsTheMiddle(a, t, b);
  }

  lemma {:induction false} WordEndAt(w: string, s: string, from: nat)
    requires IsWord(w) && from <= |w| && (s != [] ==> IsWhitespace(s[0]))
    ensures WordEnd(w + s, from) == |w|
    decreases |w| - from
  {
    if from < |w| {
      assert (w + s)[from] == w[from];
      WordEndAt(w, s, from + 1);
    } else {
      assert s != [] ==> (w + s)[from] == s[0];
    }
  }

  /** The tokens of a text: none for nothing; blanks are skipped; a word up to a blank, or to the end, is one. */
  lemma TokenLaws(w: string, s: string, c: char)
    requires IsWord(w) && IsWhitespace(c)
    ensures Tokens("") == []
    ensures Tokens([c] + s) == Tokens(s)
    ensures Tokens(w) == [w]
    ensures Tokens(w + ([c] + s)) == [w] + Tokens(s)
  {
    assert ([c] + s)[1..] == s;
    WordEndAt(w, [], 0);
    assert w + [] == w && w[..|w|] == w && w[|w|..] == [];
    WordEndAt(w, [c] + s, 0);
    var t := w + ([c] + s);
    assert t[0] == w[0] && t[..|w|] == w && t[|w|..] == [c] + s;
  }

  // ── The grammar ────────────────────────────────────────────────────────────

  predicate StartsReference(c: char, s: string) {
    c == '$' && s != [] && (s[0] == '{' || IsIdentStart(s[0]))
  }

  /** A character that begins no reference stands for itself. */
  lemma LiteralLaw(c: char, s: string)
    requires !StartsReference(c, s)
    ensures Parse([c] + s) == [Literal(c)] + Parse(s)
  {
    var t := [c] + s;
    assert s != [] ==> t[1] == s[0];
    UnfoldParse(t, 0);
    ShiftParse([c], s, 0);
  }

  lemma {:induction false} BraceEndAt(n: string, s: string, from: nat)
    requires '}' !in n && from <= |n|
    ensures BraceEnd(n + s, from) == |n| + BraceEnd(s, 0)
    decreases |n| - from
  {
    if from < |n| {
      assert (n + s)[from] == n[from] && n[from] in n;
      BraceEndAt(n, s, from + 1);
    } else {
      ShiftBrace(n, s, 0);
    }
  }

  /** `${` up to the next `}` is a reference by what lies between, whatever that is. */
  lemma BraceLaw(n: string, s: string)
    requires '}' !in n
    ensures Parse("${" + n + "}" + s) == [Reference(n)] + Parse(s)
  {
    var head := "${" + n + "}";
    var t := head + s;
    assert t == "${" + (n + ("}" + s));
    ShiftBrace("${", n + ("}" + s), 0);
    BraceEndAt(n, "}" + s, 0);
    assert BraceEnd("}" + s, 0) == 0;
    assert BraceEnd(t, 2) == 2 + |n| && t[2..2 + |n|] == n;
    assert t[0] == '$' && t[1] == '{';
    UnfoldParse(t, 0);
    ShiftParse(head, s, 0);
  }

  /** A `${` that is never closed ends the parse. */
  lemma UnclosedLaw(n: string)
    requires '}' !in n
    ensures Parse("${" + n) == [Unclosed]
  {
    var t := "${" + n;
    ShiftBrace("${", n, 0);
    BraceEndAt(n, [], 0);
    assert n + [] == n && BraceEnd([], 0) == 0;
    assert t[0] == '$' && t[1] == '{';
    UnfoldParse(t, 0);
  }

  lemma {:induction false} IdentEndAt(n: string, s: string, from: nat)
    requires (forall i :: 0 <= i < |n| ==> IsIdentChar(n[i])) && from <= |n| && (s != [] ==> !IsIdentChar(s[0]))
    ensures IdentEnd(n + s, from) == |n|
    decreases |n| - from
  {
    if from < |n| {
      assert (n + s)[from] == n[from];
      IdentEndAt(n, s, from + 1);
    } else {
      assert s != [] ==> (n + s)[from] == s[0];
    }
  }

  /** `$` and the longest identifier after it are a reference. */
  lemma NameLaw(n: string, s: string)
    requires IsIdentifier(n) && (s != [] ==> !IsIdentChar(s[0]))
    ensures Parse("$" + n + s) == [Reference(n)] + Parse(s)
  {
    var head := "$" + n;
    var t := head + s;
    assert t == "$" + (n + s);
    ShiftIdent("$", n + s, 0);
    IdentEndAt(n, s, 0);
    assert IdentEnd(t, 1) == 1 + |n| && t[1..1 + |n|] == n;
    assert t[0] == '$' && t[1] == n[0];
    UnfoldParse(t, 0);
    ShiftParse(head, s, 0);
  }

  lemma NothingLaw()
    ensures Parse("") == []
  {
  }

  /** The names a template refers to are its references, but for the empty one. */
  lemma {:induction false} NamesLaw(pieces: seq<Piece>, n: string)
    ensures n in Names(pieces) <==> n != "" && Reference(n) in pieces
  {
    if pieces != [] {
      NamesLaw(pieces[1..], n);
      assert pieces == [pieces[0]] + pieces[1..];
    }
  }

  // ── Values ─────────────────────────────────────────────────────────────────

  /** A value may not hold `|`, `;`, `&`, a newline, or `$(`. */
  predicate IsDangerous(v: string) {
    || '|' in v || ';' in v || '&' in v || '\n' in v
    || exists i :: 0 <= i < |v| - 1 && v[i] == '$' && v[i + 1] == '('
  }

  lemma OneCharacter(v: string, c: char)
    ensures Contains(v, [c]) <==> c in v
  {
    if c in v {
      var i :| 0 <= i < |v| && v[i] == c;
      assert v[i..i + 1] == [c];
      assert OccursAt(v, [c], i);
    }
    if i :| 0 <= i <= |v| && OccursAt(v, [c], i) {
      assert v[i..i + 1][0] == c;
    }
  }

  lemma Dollar(v: string)
    ensures Contains(v, "$(") <==> exists i :: 0 <= i < |v| - 1 && v[i] == '$' && v[i + 1] == '('
  {
    if i :| 0 <= i < |v| - 1 && v[i] == '$' && v[i + 1] == '(' {
      assert v[i..i + 2] == "$(";
      assert OccursAt(v, "$(", i);
    }
    if i :| 0 <= i <= |v| && OccursAt(v, "$(", i) {
      assert v[i..i + 2][0] == '$' && v[i..i + 2][1] == '(';
    }
  }

  lemma ForbiddenExactly(v: string)
    ensures IsForbidden(v) <==> IsDangerous(v)
  {
    OneCharacter(v, '|');
    OneCharacter(v, ';');
    OneCharacter(v, '&');
    OneCharacter(v, '\n');
    Dollar(v);
    var f := ARGS_TEMPLATE_FORBIDDEN;
    assert f[0] == "|" && f[1] == ";" && f[2] == "&" && f[3] == "\n" && f[4] == "$(";
    hide Contains;
    assert forall p :: p in f <==> p == f[0] || p == f[1] || p == f[2] || p == f[3] || p == f[4];
  }

  /** A piece that can be written: a literal, or a reference to a value that may be inserted. */
  predicate IsWritable(p: Piece, lookup: Lookup) {
    p.Literal? || (p.Reference? && p.name in lookup && !IsDangerous(lookup[p.name]))
  }

  lemma {:induction false} RendersExactly(pieces: seq<Piece>, lookup: Lookup)
    ensures Render(pieces, lookup).Ok? <==> forall i :: 0 <= i < |pieces| ==> IsWritable(pieces[i], lookup)
  {
    if pieces != [] {
      RendersExactly(pieces[1..], lookup);
      if pieces[0].Reference? && pieces[0].name in lookup {
        ForbiddenExactly(lookup[pieces[0].name]);
      }
      assert forall i :: 1 <= i < |pieces| ==> pieces[i] == pieces[1..][i - 1];
    }
  }

  /** A template resolves exactly when every piece of every token can be written. */
  lemma ResolvesExactly(template: string, lookup: Lookup)
    ensures ResolveArgsTemplate(template, lookup).Ok?
       <==> forall t :: t in Tokens(template) ==> forall i :: 0 <= i < |Parse(t)| ==> IsWritable(Parse(t)[i], lookup)
  {
    AllTokens(Tokens(template), lookup);
  }

  lemma {:induction false} AllTokens(tokens: seq<string>, lookup: Lookup)
    ensures SubstituteAll(tokens, lookup).Ok?
       <==> forall t :: t in tokens ==> forall i :: 0 <= i < |Parse(t)| ==> IsWritable(Parse(t)[i], lookup)
  {
    hide IsWritable, Parse, Render;
    if tokens != [] {
      AllTokens(tokens[1..], lookup);
      RendersExactly(Parse(tokens[0]), lookup);
      assert forall t :: t in tokens <==> t == tokens[0] || t in tokens[1..];
    }
  }

  /** A literal is written as it stands, a reference as its value. */
  lemma WritingLaw(c: char, n: string, rest: seq<Piece>, lookup: Lookup)
    requires n in lookup
    ensures Inserted([], lookup) == ""
    ensures Inserted([Literal(c)] + rest, lookup) == [c] + Inserted(rest, lookup)
    ensures Inserted([Reference(n)] + rest, lookup) == lookup[n] + Inserted(rest, lookup)
  {
    assert ([Literal(c)] + rest)[1..] == rest && ([Reference(n)] + rest)[1..] == rest;
  }
}
