/**
  The two pieces of JavaScript string semantics the translator relies on:
  `String.prototype.length`, which counts UTF-16 code units rather than
  characters, and `String.prototype.trim`, which strips leading and trailing
  white space and line terminators. A JavaScript string is modelled as a
  Dafny `string`, whose elements are Unicode scalar values.
 */
module JsString {

  /** True for the characters of the ECMAScript WhiteSpace and LineTerminator
      productions (the Unicode "Zs" category as of Unicode 6.3 and later,
      plus TAB, VT, FF, ZWNBSP, LF, CR, LS and PS). */
  predicate IsWhitespace(c: char) {
    || c == '\U{0009}' || c == '\U{000B}' || c == '\U{000C}' || c == '\U{FEFF}'
    || c == '\U{000A}' || c == '\U{000D}' || c == '\U{2028}' || c == '\U{2029}'
    || c == '\U{0020}' || c == '\U{00A0}' || c == '\U{1680}'
    || ('\U{2000}' <= c <= '\U{200A}')
    || c == '\U{202F}' || c == '\U{205F}' || c == '\U{3000}'
  }

  /** Every character of `s` is white space (vacuously true of ""). */
  predicate IsBlank(s: string) {
    forall i | 0 <= i < |s| :: IsWhitespace(s[i])
  }

  /** Drops the leading white space of `s`: the result is a suffix of `s`,
      everything dropped is white space, and what is kept does not start
      with white space. */
  function TrimStart(s: string): (r: string)
    ensures |r| <= |s| && r == s[|s| - |r|..]
    ensures forall i | 0 <= i < |s| - |r| :: IsWhitespace(s[i])
    ensures r != [] ==> !IsWhitespace(r[0])
    decreases |s|
  {
    if |s| > 0 && IsWhitespace(s[0]) then TrimStart(s[1..]) else s
  }

  /** Drops the trailing white space of `s`: the result is a prefix of `s`,
      everything dropped is white space, and what is kept does not end
      with white space. */
  function TrimEnd(s: string): (r: string)
    ensures |r| <= |s| && r == s[..|r|]
    ensures forall i | |r| <= i < |s| :: IsWhitespace(s[i])
    ensures r != [] ==> !IsWhitespace(r[|r| - 1])
    decreases |s|
  {
    if |s| > 0 && IsWhitespace(s[|s| - 1]) then TrimEnd(s[..|s| - 1]) else s
  }

  /** `String.prototype.trim`: the result is a contiguous slice of `s`, what
      lies before and after it is white space, and it neither starts nor
      ends with white space. */
  function Trim(s: string): (r: string)
    ensures exists i | 0 <= i <= |s| - |r| ::
      && r == s[i..i + |r|]
      && IsBlank(s[..i])
      && IsBlank(s[i + |r|..])
    ensures r != [] ==> !IsWhitespace(r[0]) && !IsWhitespace(r[|r| - 1])
  {
    var t := TrimStart(s);
    var r := TrimEnd(t);
    TrimSlice(s, t, r);
    r
  }

  /** A suffix of `s` that drops only white space, cut down to a prefix that
      drops only white space, is a slice of `s` framed by white space. */
  lemma TrimSlice(s: string, t: string, r: string)
    requires |t| <= |s| && t == s[|s| - |t|..]
    requires forall k | 0 <= k < |s| - |t| :: IsWhitespace(s[k])
    requires |r| <= |t| && r == t[..|r|]
    requires forall k | |r| <= k < |t| :: IsWhitespace(t[k])
    ensures var i := |s| - |t|;
      && 0 <= i <= |s| - |r|
      && r == s[i..i + |r|]
      && IsBlank(s[..i])
      && IsBlank(s[i + |r|..])
    ensures r != [] ==> r[0] == t[0]
  {
  }

  /** In JavaScript, `!s.trim()` holds exactly when the trimmed string is the
      empty (falsy) string, that is, exactly when `s` is blank. */
  lemma TrimEmptyIffBlank(s: string)
    ensures Trim(s) == [] <==> IsBlank(s)
  {
  }

  /** Trimming keeps the characters between the first and the last
      non-white-space character: applying it twice changes nothing more. */
  lemma TrimIdempotent(s: string)
    ensures Trim(Trim(s)) == Trim(s)
  {
  }

  /** Whether a character lies in the Basic Multilingual Plane, so that it is
      one UTF-16 code unit; the others take a surrogate pair. */
  predicate IsBmp(c: char) {
    c as int <= 0xFFFF
  }

  function CodeUnits(c: char): nat {
    if IsBmp(c) then 1 else 2
  }

  /** JavaScript's `String.prototype.length`: the number of UTF-16 code units.
      It is at least the number of characters, at most twice that, and equal
      to it exactly when every character is in the Basic Multilingual Plane. */
  function Utf16Length(s: string): (n: nat)
    ensures |s| <= n <= 2 * |s|
    ensures n == |s| <==> forall i | 0 <= i < |s| :: IsBmp(s[i])
  {
    if s == [] then 0
    else
      var rest := Utf16Length(s[1..]);
      assert forall i | 1 <= i < |s| :: s[i] == s[1..][i - 1];
      CodeUnits(s[0]) + rest
  }

  /** The code-unit length of a concatenation is the sum of the lengths. */
  lemma {:induction false} Utf16LengthAppend(a: string, b: string)
    ensures Utf16Length(a + b) == Utf16Length(a) + Utf16Length(b)
    decreases |a|
  {
    if a == [] {
      assert a + b == b;
    } else {
      assert (a + b)[1..] == a[1..] + b;
      Utf16LengthAppend(a[1..], b);
    }
  }
}
