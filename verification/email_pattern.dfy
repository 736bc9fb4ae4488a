/** The email check both client screens apply: the unanchored regular
    expression `/\S+@\S+\.\S+/` tested against the trimmed input. The regular
    expression is stated through its meaning (some substring splits as
    non-whitespace, `@`, non-whitespace, `.`, non-whitespace), then through an
    equivalent condition on two indices, then decided by a single scan. */
module EmailPattern {
  import opened JsText

  const AtSign: CodeUnit := 0x40
  const FullStop: CodeUnit := 0x2E

  /** `s[i..j]` matches `\S+@\S+\.\S+`, with the `@` at `a` and the `.` at `d`. */
  predicate MatchesAt(s: JsString, i: int, a: int, d: int, j: int) {
    && 0 <= i < a && a + 1 < d && d + 1 < j <= |s|
    && NoWhitespace(s[i..a]) && s[a] == AtSign
    && NoWhitespace(s[a + 1..d]) && s[d] == FullStop
    && NoWhitespace(s[d + 1..j])
  }

  /** `RegExp.prototype.test` for the unanchored pattern: some substring matches. */
  ghost predicate RegexTest(s: JsString) {
    exists i, a, d, j :: MatchesAt(s, i, a, d, j)
  }

  /** The shortest match around an `@` at `a` and a `.` at `d`: one
      non-whitespace unit before the `@`, only non-whitespace (at least one
      unit) between the two, and one non-whitespace unit after the `.`. */
  predicate ShapeAt(s: JsString, a: int, d: int) {
    && 1 <= a && a + 2 <= d && d + 1 < |s|
    && s[a] == AtSign && s[d] == FullStop
    && !IsWhitespace(s[a - 1])
    && NoWhitespace(s[a + 1..d])
    && !IsWhitespace(s[d + 1])
  }

  predicate HasEmailShape(s: JsString) {
    exists a, d | 0 <= a < d < |s| :: ShapeAt(s, a, d)
  }

  /** The index condition is exactly the regular expression's meaning. */
  lemma RegexTestIffShape(s: JsString)
    ensures RegexTest(s) <==> HasEmailShape(s)
  {
    if RegexTest(s) {
      var i, a, d, j :| MatchesAt(s, i, a, d, j);
      assert s[i..a][a - 1 - i] == s[a - 1];
      assert s[d + 1..j][0] == s[d + 1];
      assert ShapeAt(s, a, d);
    }
    if HasEmailShape(s) {
      var a, d :| 0 <= a < d < |s| && ShapeAt(s, a, d);
      assert s[a - 1..a] == [s[a - 1]];
      assert s[d + 1..d + 2] == [s[d + 1]];
      assert MatchesAt(s, a - 1, a, d, d + 2);
    }
  }

  /** The check on both screens (`emailOk`): the regular expression tested
      against the trimmed email. */
  predicate EmailOk(email: JsString)
    ensures EmailOk(email) <==> RegexTest(Trim(email))
  {
    RegexTestIffShape(Trim(email));
    HasEmailShape(Trim(email))
  }

  /** No match has its `.` before index `k`. */
  ghost predicate NoMatchBefore(s: JsString, k: int) {
    forall a, d | 0 <= a < d < k :: !ShapeAt(s, a, d)
  }

  /** Decides the pattern in one left-to-right pass. `run` is where the
      current stretch of non-whitespace began and `at` the first `@` inside
      that stretch that has a non-whitespace unit before it (or -1). A `.`
      completes a match exactly when such an `@` lies at least two units
      back and a non-whitespace unit follows the `.`. */
  method Test(s: JsString) returns (found: bool)
    ensures found <==> HasEmailShape(s)
    ensures found <==> RegexTest(s)
  {
    var run, at, k := 0, -1, 0;
    while k < |s|
      invariant 0 <= run <= k <= |s|
      invariant NoWhitespace(s[run..k])
      invariant 0 < run ==> IsWhitespace(s[run - 1])
      invariant at == -1 ==> forall a | run < a < k :: s[a] != AtSign
      invariant at != -1 ==> run < at < k && s[at] == AtSign
      invariant at != -1 ==> forall a | run < a < at :: s[a] != AtSign
      invariant NoMatchBefore(s, k)
    {
      if s[k] == FullStop && at != -1 && at + 2 <= k && k + 1 < |s| && !IsWhitespace(s[k + 1]) {
        assert s[at - 1] == s[run..k][at - 1 - run];
        assert s[at + 1..k] == s[run..k][at + 1 - run..];
        assert ShapeAt(s, at, k);
        RegexTestIffShape(s);
        return true;
      }
      if s[k] == FullStop {
        NoMatchAtDot(s, run, at, k);
      }
      NoMatchExtends(s, k);
      if IsWhitespace(s[k]) {
        run, at := k + 1, -1;
      } else {
        assert s[run..k + 1] == s[run..k] + [s[k]];
        if s[k] == AtSign && at == -1 && run < k {
          at := k;
        }
      }
      k := k + 1;
    }
    RegexTestIffShape(s);
    return false;
  }

  /** When the scan meets a `.` at `k` and the completion test fails, no
      match has its `.` at `k`: any usable `@` would be at or after `at`. */
  lemma NoMatchAtDot(s: JsString, run: int, at: int, k: int)
    requires 0 <= run <= k < |s| && s[k] == FullStop
    requires 0 < run ==> IsWhitespace(s[run - 1])
    requires at == -1 ==> forall a | run < a < k :: s[a] != AtSign
    requires at != -1 ==> run < at < k && forall a | run < a < at :: s[a] != AtSign
    requires !(at != -1 && at + 2 <= k && k + 1 < |s| && !IsWhitespace(s[k + 1]))
    ensures forall a | 0 <= a < k :: !ShapeAt(s, a, k)
  {
  }

  lemma NoMatchExtends(s: JsString, k: int)
    requires 0 <= k < |s| && NoMatchBefore(s, k)
    requires s[k] == FullStop ==> forall a | 0 <= a < k :: !ShapeAt(s, a, k)
    ensures NoMatchBefore(s, k + 1)
  {
  }

  /** An input already bordered by non-whitespace is tested as it stands. */
  lemma EmailOkOfTrimmed(s: JsString)
    requires Trimmed(s)
    ensures EmailOk(s) <==> HasEmailShape(s)
  {
    assert [] + s + [] == s;
    TrimOfPadded([], s, []);
  }

  /** A typical address, `jane@x.com`, passes. */
  lemma AcceptsPlainAddress()
    ensures EmailOk([0x6A, 0x61, 0x6E, 0x65, AtSign, 0x78, FullStop, 0x63, 0x6F, 0x6D])
  {
    var s: JsString := [0x6A, 0x61, 0x6E, 0x65, AtSign, 0x78, FullStop, 0x63, 0x6F, 0x6D];
    assert !IsWhitespace(s[0]) && !IsWhitespace(s[9]);
    assert s[5..6] == [s[5]];
    assert ShapeAt(s, 4, 6);
    EmailOkOfTrimmed(s);
  }

  /** Surrounding whitespace is trimmed before the pattern is tested:
      `"  a@b.c "` passes. */
  lemma AcceptsPaddedAddress()
    ensures EmailOk([0x20, 0x20] + [0x61, AtSign, 0x62, FullStop, 0x63] + [0x20])
  {
    var t: JsString := [0x61, AtSign, 0x62, FullStop, 0x63];
    TrimOfPadded([0x20, 0x20], t, [0x20]);
    assert t[2..3] == [t[2]];
    assert ShapeAt(t, 1, 3);
  }

  /** An address without a `.` after the `@`, `a@b`, fails. */
  lemma RejectsMissingDot()
    ensures !EmailOk([0x61, AtSign, 0x62])
  {
  }
}
