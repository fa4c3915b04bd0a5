/**
 * The string checks the bookmark handlers run on request fields: JavaScript
 * truthiness of an optional string, `String.prototype.trim`, the URL format
 * regular expression `^(ftp|http|https):\/\/[^ "]+$`, and the rendering of
 * a share code from a random number.
 */
module Validation {
  import opened Wrappers

  // ---------------------------------------------------------------------------
  // Truthiness and trimming
  // ---------------------------------------------------------------------------

  /** An optional string field is truthy when it is present and not the empty string. */
  predicate Truthy(v: Option<string>) {
    v.Some? && v.value != ""
  }

  /**
   * The characters `trim` removes: the ECMAScript WhiteSpace (tab, vertical
   * tab, form feed, space, no-break space, byte order mark and the Unicode
   * space separators) and LineTerminator (line feed, carriage return, line
   * and paragraph separators) code points.
   */
  predicate IsJsWhitespace(c: char) {
    || c == '\t' || c == '\n' || c == '\U{B}' || c == '\U{C}' || c == '\r' || c == ' '
    || c == '\U{A0}' || c == '\U{1680}' || ('\U{2000}' <= c <= '\U{200A}')
    || c == '\U{2028}' || c == '\U{2029}' || c == '\U{202F}' || c == '\U{205F}'
    || c == '\U{3000}' || c == '\U{FEFF}'
  }

  /** Every character of `s` is whitespace (the empty string is blank). */
  ghost predicate IsBlank(s: string) {
    forall i :: 0 <= i < |s| ==> IsJsWhitespace(s[i])
  }

  /** `s` with its leading whitespace removed: the longest suffix that does not start with whitespace. */
  function TrimStart(s: string): (t: string)
    ensures |t| <= |s| && t == s[|s| - |t|..]
    ensures IsBlank(s[..|s| - |t|])
    ensures t == [] || !IsJsWhitespace(t[0])
  {
    if s != [] && IsJsWhitespace(s[0]) then
      var t := TrimStart(s[1..]);
      assert s[1..][..|s| - 1 - |t|] == s[1..|s| - |t|];
      t
    else
      s
  }

  /** `s` with its trailing whitespace removed: the longest prefix that does not end with whitespace. */
  function TrimEnd(s: string): (t: string)
    ensures |t| <= |s| && t == s[..|t|]
    ensures IsBlank(s[|t|..])
    ensures t == [] || !IsJsWhitespace(t[|t| - 1])
  {
    if s != [] && IsJsWhitespace(s[|s| - 1]) then
      var t := TrimEnd(s[..|s| - 1]);
      assert s[..|s| - 1][..|t|] == s[..|t|];
      assert s[|t|..] == s[..|s| - 1][|t|..] + [s[|s| - 1]];
      t
    else
      s
  }

  /** `t` is a slice of `s` with only whitespace before and after it. */
  ghost predicate BlankEnds(s: string, t: string) {
    exists i :: 0 <= i <= |s| - |t| && t == s[i..i + |t|] && IsBlank(s[..i]) && IsBlank(s[i + |t|..])
  }

  /**
   * `String.prototype.trim`: the slice of `s` left after removing whitespace
   * at both ends. It is empty exactly when `s` is blank.
   */
  function Trim(s: string): (t: string)
    ensures t != [] ==> !IsJsWhitespace(t[0]) && !IsJsWhitespace(t[|t| - 1])
    ensures t == [] <==> IsBlank(s)
    ensures BlankEnds(s, t)
  {
    var u := TrimStart(s);
    var t := TrimEnd(u);
    TrimmedIsEmptyIffBlank(s, u, t);
    BlankEndsSlice(s, u, t);
    t
  }

  /**
   * After removing a blank prefix that leaves no leading whitespace, and then
   * a blank suffix, nothing is left exactly when `s` was blank.
   */
  lemma TrimmedIsEmptyIffBlank(s: string, u: string, t: string)
    requires |u| <= |s| && u == s[|s| - |u|..] && IsBlank(s[..|s| - |u|])
    requires u == [] || !IsJsWhitespace(u[0])
    requires |t| <= |u| && t == u[..|t|] && IsBlank(u[|t|..])
    ensures t != [] ==> !IsJsWhitespace(t[0])
    ensures t == [] <==> IsBlank(s)
  {
    var k := |s| - |u|;
    assert s == s[..k] + u;
    if t == [] {
      assert u == u[|t|..];
    } else {
      assert t[0] == u[0] == s[k];
    }
  }

  /** Removing a blank prefix and then a blank suffix leaves a slice of `s` between blank ends. */
  lemma BlankEndsSlice(s: string, u: string, t: string)
    requires |u| <= |s| && u == s[|s| - |u|..] && IsBlank(s[..|s| - |u|])
    requires |t| <= |u| && t == u[..|t|] && IsBlank(u[|t|..])
    ensures BlankEnds(s, t)
  {
    var i := |s| - |u|;
    assert t == s[i..i + |t|];
    assert s[i + |t|..] == u[|t|..];
  }

  /**
   * `!v || v.trim() === ''`: the field is absent, empty or whitespace only.
   */
  predicate BlankField(v: Option<string>)
    ensures BlankField(v) <==> IsBlank(v.GetOr(""))
  {
    !Truthy(v) || Trim(v.value) == ""
  }

  // ---------------------------------------------------------------------------
  // The URL format regular expression
  // ---------------------------------------------------------------------------

  /** No character of `s` is a space or a double quote (the class `[^ "]`). */
  ghost predicate NoSpaceOrQuote(s: string) {
    forall i :: 0 <= i < |s| ==> s[i] != ' ' && s[i] != '"'
  }

  /** `s` is `scheme` followed by `://` and one or more characters of `[^ "]`, to the end. */
  ghost predicate SchemeThenTail(s: string, scheme: string) {
    var p := scheme + "://";
    |p| < |s| && s[..|p|] == p && NoSpaceOrQuote(s[|p|..])
  }

  /**
   * The language of `^(ftp|http|https):\/\/[^ "]+$` (no flags: `$` matches
   * only at the end of the input, and `[^ "]` also matches line terminators).
   */
  ghost predicate MatchesUrlPattern(s: string) {
    SchemeThenTail(s, "ftp") || SchemeThenTail(s, "http") || SchemeThenTail(s, "https")
  }

  /** Whether every character of `s` is in the class `[^ "]`. */
  function AllUrlChars(s: string): (b: bool)
    ensures b <==> NoSpaceOrQuote(s)
  {
    if s == [] then true
    else s[0] != ' ' && s[0] != '"' && AllUrlChars(s[1..])
  }

  /** What follows `prefix` in `s`, if `s` starts with it. */
  function StripPrefix(prefix: string, s: string): (r: Option<string>)
    ensures r.Some? <==> |prefix| <= |s| && s[..|prefix|] == prefix
    ensures r.Some? ==> s == prefix + r.value
  {
    if |prefix| <= |s| && s[..|prefix|] == prefix then Some(s[|prefix|..]) else None
  }

  /** `urlRegex.test(s)`: decides the language of the URL pattern. */
  function UrlRegexTest(s: string): (b: bool)
    ensures b <==> MatchesUrlPattern(s)
  {
    var tail :=
      if StripPrefix("ftp://", s).Some? then StripPrefix("ftp://", s)
      else if StripPrefix("http://", s).Some? then StripPrefix("http://", s)
      else StripPrefix("https://", s);
    assert StripPrefix("http://", s).Some? ==> s[4] == ':';
    assert StripPrefix("https://", s).Some? ==> s[4] == 's';
    assert StripPrefix("ftp://", s).Some? ==> s[0] == 'f';
    assert StripPrefix("http://", s).Some? || StripPrefix("https://", s).Some? ==> s[0] == 'h';
    tail.Some? && tail.value != "" && AllUrlChars(tail.value)
  }

  // ---------------------------------------------------------------------------
  // Share codes
  // ---------------------------------------------------------------------------

  predicate IsLowerBase36Digit(c: char) {
    '0' <= c <= '9' || 'a' <= c <= 'z'
  }

  predicate IsUpperBase36Digit(c: char) {
    '0' <= c <= '9' || 'A' <= c <= 'Z'
  }

  /**
   * The shape of `Math.random().toString(36)` for a number in [0, 1): `"0"`
   * for zero, otherwise `"0."` followed by lower-case base-36 digits.
   */
  predicate IsBase36Fraction(r: string) {
    r == "0" || (|r| >= 3 && r[..2] == "0." && forall i :: 2 <= i < |r| ==> IsLowerBase36Digit(r[i]))
  }

  /** `s.substr(start, length)` for non-negative arguments. */
  function Substr(s: string, start: nat, length: nat): (r: string)
    ensures |r| <= length
    ensures start < |s| ==> r == s[start..if start + length <= |s| then start + length else |s|]
    ensures |s| <= start ==> r == ""
  {
    if |s| <= start then ""
    else if start + length <= |s| then s[start..start + length]
    else s[start..]
  }

  /** `toUpperCase` on one character, for the ASCII letters. */
  function UpperAscii(c: char): char {
    if 'a' <= c <= 'z' then (c as int - 'a' as int + 'A' as int) as char else c
  }

  /** `toUpperCase` on a string of ASCII characters. */
  function ToUpperCase(s: string): (r: string)
    ensures |r| == |s|
    ensures forall i :: 0 <= i < |s| ==> r[i] == UpperAscii(s[i])
  {
    seq(|s|, i requires 0 <= i < |s| => UpperAscii(s[i]))
  }

  /**
   * `Math.random().toString(36).substr(2, 10).toUpperCase()`, given the
   * rendering of the random number: at most ten upper-case base-36 digits,
   * the digits of the rendering after `"0."`, upper-cased.
   */
  function ShareCodeFrom(rendered: string): (code: string)
    requires IsBase36Fraction(rendered)
    ensures |code| <= 10
    ensures forall i :: 0 <= i < |code| ==> IsUpperBase36Digit(code[i])
    ensures |code| == if |rendered| <= 2 then 0 else if |rendered| >= 12 then 10 else |rendered| - 2
    ensures forall i :: 0 <= i < |code| ==> code[i] == UpperAscii(rendered[2 + i])
  {
    ToUpperCase(Substr(rendered, 2, 10))
  }
}
