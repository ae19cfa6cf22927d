/** Character classes and the whitespace operations of the standard library the service relies on. */
module Text {

  datatype Option<+T> = None | Some(value: T)

  /** The Unicode White_Space property. */
  predicate IsWhitespace(c: char) {
    var u := c as int;
    9 <= u <= 13 || u == 0x20 || u == 0x85 || u == 0xA0 || u == 0x1680 || 0x2000 <= u <= 0x200A
    || u == 0x2028 || u == 0x2029 || u == 0x202F || u == 0x205F || u == 0x3000
  }

  predicate IsIdentStart(c: char) {
    'a' <= c <= 'z' || 'A' <= c <= 'Z' || c == '_'
  }

  predicate IsIdentChar(c: char) {
    IsIdentStart(c) || '0' <= c <= '9'
  }

  /** `[A-Za-z_][A-Za-z0-9_]*` */
  predicate IsIdentifier(s: string) {
    s != [] && IsIdentStart(s[0]) && forall i :: 0 <= i < |s| ==> IsIdentChar(s[i])
  }

  function TrimStart(s: string): string {
    if s != [] && IsWhitespace(s[0]) then TrimStart(s[1..]) else s
  }

  function TrimEnd(s: string): string {
    if s != [] && IsWhitespace(s[|s| - 1]) then TrimEnd(s[..|s| - 1]) else s
  }

  function Trim(s: string): string {
    TrimEnd(TrimStart(s))
  }

  /** `filter(|s| !s.is_empty())` */
  function NonEmpty(s: Option<string>): Option<string> {
    if s.Some? && s.value == "" then None else s
  }

  /** `effective_run_as_user`: a blank account name is no account. */
  function EffectiveRunAsUser(runAsUser: Option<string>): Option<string> {
    if runAsUser.None? then None else NonEmpty(Some(Trim(runAsUser.value)))
  }

  /** The position of the first whitespace character at or after `from`, or the end. */
  function WordEnd(s: string, from: nat): (j: nat)
    requires from <= |s|
    ensures from <= j <= |s|
    ensures forall i :: from <= i < j ==> !IsWhitespace(s[i])
    ensures j < |s| ==> IsWhitespace(s[j])
    decreases |s| - from
  {
    if from < |s| && !IsWhitespace(s[from]) then WordEnd(s, from + 1) else from
  }

  /** `split_whitespace` */
  function Tokens(s: string): seq<string>
    decreases |s|
  {
    if s == [] then []
    else if IsWhitespace(s[0]) then Tokens(s[1..])
    else [s[..WordEnd(s, 0)]] + Tokens(s[WordEnd(s, 0)..])
  }
}
