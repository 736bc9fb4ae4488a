/** JavaScript strings as both the mobile client and the Express backend see
    them: sequences of UTF-16 code units. `length` counts code units, and one
    whitespace set serves both `String.prototype.trim` and the regular
    expression classes `\s` / `\S` (ECMAScript WhiteSpace and LineTerminator). */
module JsText {

  /** One UTF-16 code unit. */
  newtype CodeUnit = x: int | 0 <= x < 0x1_0000

  type JsString = seq<CodeUnit>

  /** ECMAScript WhiteSpace (TAB, VT, FF, SPACE, NO-BREAK SPACE, ZERO WIDTH
      NO-BREAK SPACE and the Unicode category Zs: U+1680, U+2000 to U+200A,
      U+202F, U+205F, U+3000) together with LineTerminator (LF, CR, LINE
      SEPARATOR, PARAGRAPH SEPARATOR). */
  const WhitespaceUnits: set<CodeUnit> :=
    {0x0009, 0x000A, 0x000B, 0x000C, 0x000D, 0x0020, 0x00A0, 0x1680,
     0x2000, 0x2001, 0x2002, 0x2003, 0x2004, 0x2005, 0x2006, 0x2007, 0x2008, 0x2009, 0x200A,
     0x2028, 0x2029, 0x202F, 0x205F, 0x3000, 0xFEFF}

  predicate IsWhitespace(c: CodeUnit) {
    c in WhitespaceUnits
  }

  predicate AllWhitespace(s: JsString) {
    forall k | 0 <= k < |s| :: IsWhitespace(s[k])
  }

  predicate NoWhitespace(s: JsString) {
    forall k | 0 <= k < |s| :: !IsWhitespace(s[k])
  }

  /** Neither end of `t` is whitespace (true of the empty string). */
  predicate Trimmed(t: JsString) {
    t == [] || (!IsWhitespace(t[0]) && !IsWhitespace(t[|t| - 1]))
  }

  /** The length of the longest all-whitespace prefix of `s`. */
  function LeadingWhitespace(s: JsString): (n: nat)
    ensures n <= |s|
    ensures AllWhitespace(s[..n])
    ensures n < |s| ==> !IsWhitespace(s[n])
  {
    if |s| == 0 || !IsWhitespace(s[0]) then 0
    else
      var m := LeadingWhitespace(s[1..]);
      assert s[..1 + m] == [s[0]] + s[1..][..m];
      1 + m
  }

  /** The length of the longest all-whitespace suffix of `s`. */
  function TrailingWhitespace(s: JsString): (n: nat)
    ensures n <= |s|
    ensures AllWhitespace(s[|s| - n..])
    ensures n < |s| ==> !IsWhitespace(s[|s| - 1 - n])
  {
    if |s| == 0 || !IsWhitespace(s[|s| - 1]) then 0
    else
      var m := TrailingWhitespace(s[..|s| - 1]);
      assert s[|s| - (1 + m)..] == s[..|s| - 1][|s| - 1 - m..] + [s[|s| - 1]];
      1 + m
  }

  /** `String.prototype.trim`: `s` with its leading and trailing whitespace
      removed. The result is a slice of `s` bordered by non-whitespace, and
      what was cut on either side is whitespace only. */
  function Trim(s: JsString): (t: JsString)
    ensures |t| <= |s|
    ensures Trimmed(t)
    ensures exists i, j | 0 <= i <= j <= |s| ::
              t == s[i..j] && AllWhitespace(s[..i]) && AllWhitespace(s[j..])
  {
    var i := LeadingWhitespace(s);
    var rest := s[i..];
    var j := i + |rest| - TrailingWhitespace(rest);
    assert rest == s[i..j] + s[j..];
    s[i..j]
  }

  /** A prefix length with the two properties of `LeadingWhitespace` is that length. */
  lemma {:induction false} LeadingWhitespaceUnique(s: JsString, n: nat)
    requires n <= |s| && AllWhitespace(s[..n])
    requires n < |s| ==> !IsWhitespace(s[n])
    ensures LeadingWhitespace(s) == n
  {
  }

  /** A suffix length with the two properties of `TrailingWhitespace` is that length. */
  lemma {:induction false} TrailingWhitespaceUnique(s: JsString, n: nat)
    requires n <= |s| && AllWhitespace(s[|s| - n..])
    requires n < |s| ==> !IsWhitespace(s[|s| - 1 - n])
    ensures TrailingWhitespace(s) == n
  {
  }

  /** The converse of `Trim`'s contract: padding a trimmed string with
      whitespace on both sides and trimming gives the string back. Together
      the two say that `Trim(s) == t` exactly when `s` is `t` with
      whitespace around it and `t` is bordered by non-whitespace. */
  lemma TrimOfPadded(p: JsString, t: JsString, q: JsString)
    requires AllWhitespace(p) && AllWhitespace(q) && Trimmed(t)
    ensures Trim(p + t + q) == t
  {
    var s := p + t + q;
    if t == [] {
      assert s[..|s|] == s;
      LeadingWhitespaceUnique(s, |s|);
      assert s[|s|..] == [];
    } else {
      assert s[..|p|] == p;
      assert s[|p|] == t[0];
      LeadingWhitespaceUnique(s, |p|);
      var rest := s[|p|..];
      assert rest == t + q;
      assert rest[|rest| - |q|..] == q;
      assert rest[|rest| - 1 - |q|] == t[|t| - 1];
      TrailingWhitespaceUnique(rest, |q|);
      assert s[|p|..|p| + |t|] == t;
    }
  }

  /** Trimming twice is trimming once. */
  lemma TrimIdempotent(s: JsString)
    ensures Trim(Trim(s)) == Trim(s)
  {
    var t := Trim(s);
    assert [] + t + [] == t;
    TrimOfPadded([], t, []);
  }

  /** Whitespace followed by whitespace is whitespace. */
  lemma AllWhitespaceConcat(a: JsString, b: JsString)
    requires AllWhitespace(a) && AllWhitespace(b)
    ensures AllWhitespace(a + b)
  {
    forall k | 0 <= k < |a + b|
      ensures IsWhitespace((a + b)[k])
    {
      if k < |a| {
        assert (a + b)[k] == a[k];
      } else {
        assert (a + b)[k] == b[k - |a|];
      }
    }
  }

  /** Extra whitespace on either side does not change the trimmed string. */
  lemma {:induction false} TrimIgnoresPadding(p: JsString, t: JsString, q: JsString)
    requires AllWhitespace(p) && AllWhitespace(q)
    ensures Trim(p + t + q) == Trim(t)
  {
    var tt := Trim(t);
    var i, j :| 0 <= i <= j <= |t| && tt == t[i..j] && AllWhitespace(t[..i]) && AllWhitespace(t[j..]);
    AllWhitespaceConcat(p, t[..i]);
    AllWhitespaceConcat(t[j..], q);
    Regroup(p, t, q, i, j);
    TrimOfPadded(p + t[..i], tt, t[j..] + q);
  }

  lemma Regroup(p: JsString, t: JsString, q: JsString, i: int, j: int)
    requires 0 <= i <= j <= |t|
    ensures p + t + q == (p + t[..i]) + t[i..j] + (t[j..] + q)
  {
    assert t == t[..i] + t[i..j] + t[j..];
  }

  /** A string trims to two or more units exactly when it holds two
      non-whitespace units. */
  lemma {:induction false} TrimmedLengthAtLeastTwo(s: JsString)
    ensures |Trim(s)| >= 2 <==> exists i, j | 0 <= i < j < |s| :: !IsWhitespace(s[i]) && !IsWhitespace(s[j])
  {
    if |Trim(s)| >= 2 {
      var a, b := TrimEnds(s);
      assert !IsWhitespace(s[a]) && !IsWhitespace(s[b]);
    }
    if exists i, j | 0 <= i < j < |s| :: !IsWhitespace(s[i]) && !IsWhitespace(s[j]) {
      var i, j :| 0 <= i < j < |s| && !IsWhitespace(s[i]) && !IsWhitespace(s[j]);
      TrimKeepsTwoUnits(s, i, j);
    }
  }

  /** The first and last units a trim of two or more units keeps. */
  lemma TrimEnds(s: JsString) returns (a: int, b: int)
    requires |Trim(s)| >= 2
    ensures 0 <= a < b < |s| && !IsWhitespace(s[a]) && !IsWhitespace(s[b])
  {
    var t := Trim(s);
    var i, j :| 0 <= i <= j <= |s| && t == s[i..j] && AllWhitespace(s[..i]) && AllWhitespace(s[j..]);
    assert s[i] == t[0] && s[j - 1] == t[|t| - 1];
    a, b := i, j - 1;
  }

  lemma {:induction false} TrimKeepsTwoUnits(s: JsString, i: int, j: int)
    requires 0 <= i < j < |s| && !IsWhitespace(s[i]) && !IsWhitespace(s[j])
    ensures |Trim(s)| >= 2
  {
    var t := Trim(s);
    var a, b :| 0 <= a <= b <= |s| && t == s[a..b] && AllWhitespace(s[..a]) && AllWhitespace(s[b..]);
    NonWhitespaceInsideTrim(s, a, b, i);
    NonWhitespaceInsideTrim(s, a, b, j);
  }

  /** A non-whitespace unit lies inside the part that trimming keeps. */
  lemma NonWhitespaceInsideTrim(s: JsString, a: int, b: int, i: int)
    requires 0 <= a <= b <= |s| && AllWhitespace(s[..a]) && AllWhitespace(s[b..])
    requires 0 <= i < |s| && !IsWhitespace(s[i])
    ensures a <= i < b
  {
  }

  /** Writes an ASCII Dafny string as the code units a JavaScript engine
      holds for it; used for the handlers' response messages. */
  function Ascii(s: string): (r: JsString)
    requires forall k | 0 <= k < |s| :: s[k] as int < 0x80
    ensures |r| == |s|
    ensures forall k | 0 <= k < |s| :: r[k] as int == s[k] as int
  {
    seq(|s|, k requires 0 <= k < |s| => s[k] as int as CodeUnit)
  }
}
