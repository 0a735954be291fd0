/** The PHP string functions the core relies on, over `seq<char>`:
    `strtolower` and `strtoupper` (ASCII only since PHP 8.2), `trim` with its
    default character list, and a prefix test. */
module Strings {

  /** ASCII lower-casing of one character. */
  function LowerChar(c: char): char {
    if 'A' <= c <= 'Z' then (c as int + 32) as char else c
  }

  /** ASCII upper-casing of one character. */
  function UpperChar(c: char): char {
    if 'a' <= c <= 'z' then (c as int - 32) as char else c
  }

  predicate IsUpperAscii(c: char) { 'A' <= c <= 'Z' }

  predicate IsLowerAscii(c: char) { 'a' <= c <= 'z' }

  /** `strtolower`: every character lower-cased, nothing else changed, so
      no ASCII upper-case letter is left and the other characters keep
      their places. */
  function ToLower(s: string): (r: string)
    ensures |r| == |s|
    ensures forall i :: 0 <= i < |s| ==> r[i] == LowerChar(s[i])
    ensures forall i :: 0 <= i < |r| ==> !IsUpperAscii(r[i])
    ensures forall i :: 0 <= i < |s| && !IsUpperAscii(s[i]) ==> r[i] == s[i]
  {
    seq(|s|, i requires 0 <= i < |s| => LowerChar(s[i]))
  }

  /** `strtoupper`: every character upper-cased, nothing else changed, so
      no ASCII lower-case letter is left and the other characters keep
      their places. */
  function ToUpper(s: string): (r: string)
    ensures |r| == |s|
    ensures forall i :: 0 <= i < |s| ==> r[i] == UpperChar(s[i])
    ensures forall i :: 0 <= i < |r| ==> !IsLowerAscii(r[i])
    ensures forall i :: 0 <= i < |s| && !IsLowerAscii(s[i]) ==> r[i] == s[i]
  {
    seq(|s|, i requires 0 <= i < |s| => UpperChar(s[i]))
  }

  /** Lower-casing computed character by character (for literal inputs). */
  lemma LowerIs(s: string, t: string)
    requires |s| == |t| && forall i :: 0 <= i < |s| ==> LowerChar(s[i]) == t[i]
    ensures ToLower(s) == t
  {
  }

  /** Upper-casing computed character by character (for literal inputs). */
  lemma UpperIs(s: string, t: string)
    requires |s| == |t| && forall i :: 0 <= i < |s| ==> UpperChar(s[i]) == t[i]
    ensures ToUpper(s) == t
  {
  }

  /** A string with no ASCII upper-case letter is its own lower-case form. */
  lemma LowerOfLowerCase(s: string)
    requires forall i :: 0 <= i < |s| ==> !IsUpperAscii(s[i])
    ensures ToLower(s) == s
  {
  }

  /** A string with no ASCII lower-case letter is its own upper-case form. */
  lemma UpperOfUpperCase(s: string)
    requires forall i :: 0 <= i < |s| ==> !IsLowerAscii(s[i])
    ensures ToUpper(s) == s
  {
  }

  /** Lower-casing forgets any earlier case change. */
  lemma LowerAfterUpper(s: string)
    ensures ToLower(ToUpper(s)) == ToLower(s)
    ensures ToLower(ToLower(s)) == ToLower(s)
  {
  }

  /** Upper-casing forgets any earlier case change. */
  lemma UpperAfterLower(s: string)
    ensures ToUpper(ToLower(s)) == ToUpper(s)
    ensures ToUpper(ToUpper(s)) == ToUpper(s)
  {
  }

  /** The characters PHP's `trim` strips by default: " \t\n\r\0\x0B". */
  predicate IsTrimChar(c: char) {
    c == ' ' || c == '\t' || c == '\n' || c == '\r' || c as int == 0 || c as int == 11
  }

  function TrimLeft(s: string): string {
    if s != [] && IsTrimChar(s[0]) then TrimLeft(s[1..]) else s
  }

  function TrimRight(s: string): string {
    if s != [] && IsTrimChar(s[|s| - 1]) then TrimRight(s[..|s| - 1]) else s
  }

  /** `trim($s)` with the default character list. */
  function Trim(s: string): string {
    TrimRight(TrimLeft(s))
  }

  /** `'' === trim($s)`: the test the User entity applies to an email. */
  predicate IsBlank(s: string) {
    Trim(s) == ""
  }

  predicate AllTrimChars(s: string) {
    forall i :: 0 <= i < |s| ==> IsTrimChar(s[i])
  }

  lemma {:induction false} TrimLeftEmpty(s: string)
    ensures TrimLeft(s) == "" <==> AllTrimChars(s)
    decreases |s|
  {
    if s != [] && IsTrimChar(s[0]) {
      TrimLeftEmpty(s[1..]);
      assert AllTrimChars(s) <==> AllTrimChars(s[1..]) by {
        forall i | 0 < i < |s| ensures s[i] == s[1..][i - 1] { }
      }
    }
  }

  lemma {:induction false} TrimRightEmpty(s: string)
    ensures TrimRight(s) == "" <==> AllTrimChars(s)
    decreases |s|
  {
    if s != [] && IsTrimChar(s[|s| - 1]) {
      TrimRightEmpty(s[..|s| - 1]);
      assert AllTrimChars(s) <==> AllTrimChars(s[..|s| - 1]) by {
        forall i | 0 <= i < |s| - 1 ensures s[i] == s[..|s| - 1][i] { }
      }
    }
  }

  lemma {:induction false} TrimLeftHead(s: string)
    ensures TrimLeft(s) != "" ==> !IsTrimChar(TrimLeft(s)[0])
    decreases |s|
  {
    if s != [] && IsTrimChar(s[0]) {
      TrimLeftHead(s[1..]);
    }
  }

  /** A string is blank exactly when every one of its characters is one that
      `trim` strips; in particular "" and "  " are blank and "a" is not. */
  lemma BlankIffAllTrimChars(s: string)
    ensures IsBlank(s) <==> AllTrimChars(s)
  {
    TrimLeftEmpty(s);
    TrimLeftHead(s);
    TrimRightEmpty(TrimLeft(s));
  }

  /** `str_starts_with($s, $prefix)`. */
  predicate StartsWith(s: string, prefix: string) {
    |prefix| <= |s| && s[..|prefix|] == prefix
  }
}
