/** The JavaScript string built-ins that the session and trip code rely on:
    `String.prototype.trim`, `String.prototype.toUpperCase` and the relational
    comparison of two strings (`<`, `<=`, `>=`). */
module JsString {

  /** The WhiteSpace and LineTerminator code points of ECMA-262, which `trim` removes. */
  predicate IsWhitespace(c: char)
  {
    var n := c as int;
    n == 0x09 || n == 0x0A || n == 0x0B || n == 0x0C || n == 0x0D || n == 0x20 || n == 0xA0
    || n == 0x1680 || (0x2000 <= n <= 0x200A) || n == 0x2028 || n == 0x2029 || n == 0x202F
    || n == 0x205F || n == 0x3000 || n == 0xFEFF
  }

  predicate AllWhitespace(s: string)
  {
    forall k :: 0 <= k < |s| ==> IsWhitespace(s[k])
  }

  /** Number of whitespace characters at the start of `s`. */
  function LeadingSpace(s: string): (n: nat)
    ensures n <= |s|
  {
    if s != [] && IsWhitespace(s[0]) then 1 + LeadingSpace(s[1..]) else 0
  }

  /** Number of whitespace characters at the end of `s`. */
  function TrailingSpace(s: string): (n: nat)
    ensures n <= |s|
  {
    if s != [] && IsWhitespace(s[|s| - 1]) then 1 + TrailingSpace(s[..|s| - 1]) else 0
  }

  /** LeadingSpace counts the whole run of whitespace at the start. */
  lemma {:induction false} LeadingSpaceRun(s: string)
    ensures forall k :: 0 <= k < LeadingSpace(s) ==> IsWhitespace(s[k])
    ensures LeadingSpace(s) < |s| ==> !IsWhitespace(s[LeadingSpace(s)])
  {
    if s != [] && IsWhitespace(s[0]) {
      LeadingSpaceRun(s[1..]);
    }
  }

  /** TrailingSpace counts the whole run of whitespace at the end. */
  lemma {:induction false} TrailingSpaceRun(s: string)
    ensures forall k :: |s| - TrailingSpace(s) <= k < |s| ==> IsWhitespace(s[k])
    ensures TrailingSpace(s) < |s| ==> !IsWhitespace(s[|s| - TrailingSpace(s) - 1])
  {
    if s != [] && IsWhitespace(s[|s| - 1]) {
      TrailingSpaceRun(s[..|s| - 1]);
    }
  }

  /** `s.trim()`: `s` without its leading and trailing whitespace. */
  function Trim(s: string): (r: string)
    ensures |r| <= |s|
  {
    var t := s[LeadingSpace(s)..];
    t[..|t| - TrailingSpace(t)]
  }

  /** trim's result is what follows the leading run of `s`, followed only by
      whitespace, and does not end with whitespace. */
  lemma TrimTail(s: string)
    ensures LeadingSpace(s) + |Trim(s)| <= |s|
    ensures forall k :: 0 <= k < |Trim(s)| ==> Trim(s)[k] == s[LeadingSpace(s) + k]
    ensures forall k :: LeadingSpace(s) + |Trim(s)| <= k < |s| ==> IsWhitespace(s[k])
    ensures Trim(s) != [] ==> !IsWhitespace(Trim(s)[|Trim(s)| - 1])
  {
    var lead := LeadingSpace(s);
    var t := s[lead..];
    var e := |t| - TrailingSpace(t);
    var r := Trim(s);
    TrailingSpaceRun(t);
    assert r == t[..e];
    forall k | lead + e <= k < |s|
      ensures IsWhitespace(s[k])
    {
      assert s[k] == t[k - lead];
    }
    if e > 0 {
      assert r[e - 1] == t[e - 1];
    }
  }

  /** trim keeps a contiguous slice of `s`, is empty exactly when `s` is all
      whitespace, otherwise neither starts nor ends with whitespace, and what
      it drops on either side is whitespace. */
  lemma TrimSpec(s: string)
    ensures LeadingSpace(s) + |Trim(s)| <= |s|
    ensures forall k :: 0 <= k < |Trim(s)| ==> Trim(s)[k] == s[LeadingSpace(s) + k]
    ensures Trim(s) == [] <==> AllWhitespace(s)
    ensures Trim(s) != [] ==> !IsWhitespace(Trim(s)[0]) && !IsWhitespace(Trim(s)[|Trim(s)| - 1])
    ensures forall k :: 0 <= k < LeadingSpace(s) ==> IsWhitespace(s[k])
    ensures forall k :: LeadingSpace(s) + |Trim(s)| <= k < |s| ==> IsWhitespace(s[k])
  {
    var lead := LeadingSpace(s);
    LeadingSpaceRun(s);
    TrimTail(s);
    if Trim(s) == [] {
      assert lead == |s|;
    } else {
      assert Trim(s)[0] == s[lead];
    }
  }

  lemma {:induction false} TrimOfTrimmed(s: string)
    requires s != [] ==> !IsWhitespace(s[0]) && !IsWhitespace(s[|s| - 1])
    ensures Trim(s) == s
  {
    if s != [] {
      assert LeadingSpace(s) == 0;
      assert s[0..] == s;
      assert TrailingSpace(s) == 0;
    }
  }

  /** Trimming twice is trimming once. */
  lemma TrimIdempotent(s: string)
    ensures Trim(Trim(s)) == Trim(s)
  {
    TrimSpec(s);
    TrimOfTrimmed(Trim(s));
  }

  /** `c.toUpperCase()` for the characters it maps one-to-one in the ASCII and
      Latin-1 ranges: a-z, the Latin-1 small letters U+00E0..U+00FE except the
      division sign U+00F7, y with diaeresis (to U+0178) and micro sign (to U+039C). */
  function UpperChar(c: char): char
  {
    var n := c as int;
    if 'a' <= c <= 'z' || (0xE0 <= n <= 0xFE && n != 0xF7) then (n - 32) as char
    else if n == 0xFF then 0x178 as char
    else if n == 0xB5 then 0x39C as char
    else c
  }

  /** `s.toUpperCase()`, character by character. */
  function ToUpperCase(s: string): (r: string)
    ensures |r| == |s|
  {
    if s == [] then [] else [UpperChar(s[0])] + ToUpperCase(s[1..])
  }

  /** Each character of the upper case is the upper case of the character. */
  lemma {:induction false} ToUpperCaseChars(s: string)
    ensures forall k :: 0 <= k < |s| ==> ToUpperCase(s)[k] == UpperChar(s[k])
  {
    if s != [] {
      ToUpperCaseChars(s[1..]);
    }
  }

  /** Upper-casing neither creates nor removes whitespace. */
  lemma UpperCharKeepsWhitespace(c: char)
    ensures IsWhitespace(UpperChar(c)) <==> IsWhitespace(c)
  {
  }

  /** An upper-cased string is its own upper case. */
  lemma ToUpperCaseIdempotent(s: string)
    ensures ToUpperCase(ToUpperCase(s)) == ToUpperCase(s)
  {
    var u := ToUpperCase(s);
    ToUpperCaseChars(s);
    ToUpperCaseChars(u);
    assert forall k :: 0 <= k < |u| ==> UpperChar(u[k]) == u[k];
  }

  /** The relational comparison `a < b` on two strings: ordered by the first
      differing character, a proper prefix is smaller. */
  predicate LessThan(a: string, b: string)
  {
    if b == [] then false
    else if a == [] then true
    else if a[0] != b[0] then a[0] < b[0]
    else LessThan(a[1..], b[1..])
  }

  lemma {:induction false} LessThanIrreflexive(a: string)
    ensures !LessThan(a, a)
  {
    if a != [] {
      LessThanIrreflexive(a[1..]);
    }
  }

  lemma {:induction false} LessThanTransitive(a: string, b: string, c: string)
    requires LessThan(a, b) && LessThan(b, c)
    ensures LessThan(a, c)
  {
    if a != [] && a[0] == b[0] && b[0] == c[0] {
      LessThanTransitive(a[1..], b[1..], c[1..]);
    }
  }

  lemma {:induction false} LessThanTotal(a: string, b: string)
    ensures a == b || LessThan(a, b) || LessThan(b, a)
  {
    if a != [] && b != [] && a[0] == b[0] {
      LessThanTotal(a[1..], b[1..]);
      if a[1..] == b[1..] {
        assert a == [a[0]] + a[1..] && b == [b[0]] + b[1..];
      }
    }
  }

  /** `a <= b` on strings. */
  predicate AtMost(a: string, b: string)
  {
    !LessThan(b, a)
  }

  /** No string lies between a lower bound and an upper bound that is below it. */
  lemma EmptyRange(lo: string, hi: string, x: string)
    requires LessThan(hi, lo)
    ensures !(AtMost(lo, x) && AtMost(x, hi))
  {
    if AtMost(lo, x) && AtMost(x, hi) {
      LessThanTotal(lo, x);
      if lo != x {
        LessThanTransitive(hi, lo, x);
      }
    }
  }
}
