/**
 * The string operations the roster upload applies to CSV headers and to the
 * uploaded file: JavaScript's white-space class, `trim`, `toLowerCase` and the
 * header key `header.toLowerCase().replace(/\s+/g, "")`.
 */
module Text {

  /** The characters JavaScript's `\s` and `String.prototype.trim` treat as
      white space (WhiteSpace and LineTerminator of ECMA-262). */
  predicate IsWhitespace(c: char) {
    || c == ' ' || c == '\t' || c == '\n' || c == '\r' || c == '\U{B}' || c == '\U{C}'
    || c == '\U{A0}' || c == '\U{1680}' || ('\U{2000}' <= c <= '\U{200A}')
    || c == '\U{2028}' || c == '\U{2029}' || c == '\U{202F}' || c == '\U{205F}'
    || c == '\U{3000}' || c == '\U{FEFF}'
  }

  predicate IsUpper(c: char) {
    'A' <= c <= 'Z'
  }

  /** `toLowerCase` on one character, for the ASCII letters only. */
  function LowerChar(c: char): char {
    if IsUpper(c) then (c as int + 32) as char else c
  }

  function ToLower(s: string): string {
    seq(|s|, i requires 0 <= i < |s| => LowerChar(s[i]))
  }

  /** `s.replace(/\s+/g, "")`: every run of white space removed. */
  function StripWhitespace(s: string): string {
    if s == [] then []
    else if IsWhitespace(s[0]) then StripWhitespace(s[1..])
    else [s[0]] + StripWhitespace(s[1..])
  }

  /** The key a CSV header is compared under. */
  function Normalize(s: string): string {
    StripWhitespace(ToLower(s))
  }

  /** A normalised key: no white space and no upper-case letter. */
  predicate IsKey(s: string) {
    forall i :: 0 <= i < |s| ==> !IsWhitespace(s[i]) && !IsUpper(s[i])
  }

  lemma {:induction false} StripKeepsLower(s: string)
    requires forall i :: 0 <= i < |s| ==> !IsUpper(s[i])
    ensures IsKey(StripWhitespace(s))
  {
    if s != [] {
      StripKeepsLower(s[1..]);
      var t := StripWhitespace(s[1..]);
      if !IsWhitespace(s[0]) {
        assert StripWhitespace(s) == [s[0]] + t;
      }
    }
  }

  lemma {:induction false} StripOfKey(s: string)
    requires IsKey(s)
    ensures StripWhitespace(s) == s
  {
    if s != [] {
      StripOfKey(s[1..]);
    }
  }

  /** Every normalised header is a key, and normalising a key changes nothing,
      so normalising twice is normalising once. */
  lemma NormalizeIsKey(s: string)
    ensures IsKey(Normalize(s))
    ensures Normalize(Normalize(s)) == Normalize(s)
  {
    StripKeepsLower(ToLower(s));
    var k := Normalize(s);
    assert ToLower(k) == k;
    StripOfKey(k);
  }

  /** `s.trim()`: white space removed from both ends. */
  function TrimStart(s: string): (r: string)
    ensures |r| <= |s| && r == s[|s| - |r|..]
    ensures r != [] ==> !IsWhitespace(r[0])
  {
    if s != [] && IsWhitespace(s[0]) then TrimStart(s[1..]) else s
  }

  function TrimEnd(s: string): (r: string)
    ensures |r| <= |s| && r == s[..|r|]
    ensures r != [] ==> !IsWhitespace(r[|r| - 1])
  {
    if s != [] && IsWhitespace(s[|s| - 1]) then TrimEnd(s[..|s| - 1]) else s
  }

  function Trim(s: string): string {
    TrimEnd(TrimStart(s))
  }

  predicate IsBlank(s: string) {
    forall i :: 0 <= i < |s| ==> IsWhitespace(s[i])
  }

  /** `!s.trim()` holds exactly when the string is empty or all white space. */
  lemma {:induction false} TrimEmptyIffBlank(s: string)
    ensures Trim(s) == "" <==> IsBlank(s)
  {
    if s != [] && IsWhitespace(s[0]) {
      TrimEmptyIffBlank(s[1..]);
      assert IsBlank(s) <==> IsBlank(s[1..]) by {
        if IsBlank(s[1..]) {
          forall i | 0 <= i < |s| ensures IsWhitespace(s[i]) {
            if i > 0 { assert s[i] == s[1..][i - 1]; }
          }
        }
      }
    } else if s != [] {
      assert TrimStart(s) == s;
      var t := TrimEnd(s);
      assert t != [] by {
        if t == [] { TrimEndBlank(s); }
      }
    }
  }

  lemma {:induction false} TrimEndBlank(s: string)
    requires TrimEnd(s) == []
    ensures IsBlank(s)
  {
    if s != [] {
      TrimEndBlank(s[..|s| - 1]);
      forall i | 0 <= i < |s| ensures IsWhitespace(s[i]) {
        if i < |s| - 1 { assert s[i] == s[..|s| - 1][i]; }
      }
    }
  }
}
