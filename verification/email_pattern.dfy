/** The email syntax check `/\S+@\S+\.\S+/.test(s)` used by both forms. The pattern
    is not anchored, so it accepts any string with a matching substring. */
module EmailPattern {
  import opened Text

  /** `s[lo..hi)` lies inside `s` and holds no whitespace (the regex class `\S`). */
  predicate NonWsRange(s: string, lo: int, hi: int) {
    0 <= lo <= hi <= |s| && forall k :: lo <= k < hi ==> !IsWs(s[k])
  }

  /** An `@` at index `a` preceded by a non-whitespace character: the `\S+@` part. */
  predicate AtSign(s: string, a: int) {
    1 <= a < |s| && s[a] == '@' && !IsWs(s[a - 1])
  }

  /** A `.` at index `d` closing the `\S+` run that starts right after the `@` at `a`. */
  predicate DotAfter(s: string, a: int, d: int) {
    AtSign(s, a) && a + 1 < d < |s| && s[d] == '.' && NonWsRange(s, a + 1, d)
  }

  /** A whole match: the dot is followed by at least one non-whitespace character. */
  predicate MatchAt(s: string, a: int, d: int) {
    DotAfter(s, a, d) && d + 1 < |s| && !IsWs(s[d + 1])
  }

  /** What the regular expression accepts. */
  predicate Matches(s: string)
    ensures Matches(s) ==> |s| >= 5
  {
    exists a, d :: 0 <= a < d < |s| && MatchAt(s, a, d)
  }

  // The state of a left-to-right scan after reading the prefix `s[..i]`.

  /** A valid `@` has been read and no whitespace since. */
  ghost predicate Open(s: string, i: int) {
    exists a :: 0 <= a < i && AtSign(s, a) && NonWsRange(s, a + 1, i)
  }

  /** As `Open`, with at least one character read after the `@`. */
  ghost predicate Armed(s: string, i: int) {
    exists a :: 0 <= a && a + 1 < i && AtSign(s, a) && NonWsRange(s, a + 1, i)
  }

  /** The last character read is a `.` that completes `\S+@\S+\.`. */
  ghost predicate DotLast(s: string, i: int) {
    DotAt(s, i - 1)
  }

  /** Some `@` is closed by the `.` at index `d`. */
  ghost predicate DotAt(s: string, d: int) {
    exists a :: 0 <= a && DotAfter(s, a, d)
  }

  /** A whole match lies inside the prefix. */
  ghost predicate Found(s: string, i: int) {
    exists a, d :: 0 <= a < d && d + 1 < i && MatchAt(s, a, d)
  }

  lemma OpenStep(s: string, i: int)
    requires 0 <= i < |s|
    ensures Open(s, i + 1) <==> (Open(s, i) && !IsWs(s[i])) || AtSign(s, i)
  {
    if Open(s, i + 1) {
      var a :| 0 <= a < i + 1 && AtSign(s, a) && NonWsRange(s, a + 1, i + 1);
      if a < i {
        assert NonWsRange(s, a + 1, i);
        assert !IsWs(s[i]);
      }
    }
    if Open(s, i) && !IsWs(s[i]) {
      var a :| 0 <= a < i && AtSign(s, a) && NonWsRange(s, a + 1, i);
      assert NonWsRange(s, a + 1, i + 1);
    }
    if AtSign(s, i) {
      assert NonWsRange(s, i + 1, i + 1);
    }
  }

  lemma ArmedStep(s: string, i: int)
    requires 0 <= i < |s|
    ensures Armed(s, i + 1) <==> Open(s, i) && !IsWs(s[i])
  {
    if Armed(s, i + 1) {
      var a :| 0 <= a && a + 1 < i + 1 && AtSign(s, a) && NonWsRange(s, a + 1, i + 1);
      assert NonWsRange(s, a + 1, i);
      assert !IsWs(s[i]);
    }
    if Open(s, i) && !IsWs(s[i]) {
      var a :| 0 <= a < i && AtSign(s, a) && NonWsRange(s, a + 1, i);
      assert NonWsRange(s, a + 1, i + 1);
    }
  }

  lemma DotLastStep(s: string, i: int)
    requires 0 <= i < |s|
    ensures DotLast(s, i + 1) <==> s[i] == '.' && Armed(s, i)
  {
    if DotLast(s, i + 1) {
      var a :| 0 <= a && DotAfter(s, a, i);
      assert NonWsRange(s, a + 1, i);
    }
    if s[i] == '.' && Armed(s, i) {
      var a :| 0 <= a && a + 1 < i && AtSign(s, a) && NonWsRange(s, a + 1, i);
      assert DotAfter(s, a, i);
    }
  }

  lemma FoundStep(s: string, i: int)
    requires 0 <= i < |s|
    ensures Found(s, i + 1) <==> Found(s, i) || (DotLast(s, i) && !IsWs(s[i]))
  {
    if Found(s, i + 1) {
      var a, d :| 0 <= a < d && d + 1 < i + 1 && MatchAt(s, a, d);
      if d + 1 == i {
        assert DotAfter(s, a, i - 1);
      }
    }
    if DotLast(s, i) && !IsWs(s[i]) {
      var a :| 0 <= a && DotAfter(s, a, i - 1);
      assert MatchAt(s, a, i - 1);
    }
  }

  /** `/\S+@\S+\.\S+/.test(s)` as a single left-to-right pass with four flags,
      proved to agree with the declarative meaning `Matches`. */
  method Test(s: string) returns (b: bool)
    ensures b <==> Matches(s)
  {
    var open, armed, dotLast, found := false, false, false, false;
    var i := 0;
    while i < |s|
      invariant 0 <= i <= |s|
      invariant open <==> Open(s, i)
      invariant armed <==> Armed(s, i)
      invariant dotLast <==> DotLast(s, i)
      invariant found <==> Found(s, i)
    {
      var c := s[i];
      OpenStep(s, i);
      ArmedStep(s, i);
      DotLastStep(s, i);
      FoundStep(s, i);
      found := found || (dotLast && !IsWs(c));
      dotLast := c == '.' && armed;
      armed := open && !IsWs(c);
      open := (open && !IsWs(c)) || (c == '@' && i >= 1 && !IsWs(s[i - 1]));
      i := i + 1;
    }
    b := found;
  }

  /** Any match contains an `@` and, later, a `.` with something between them. */
  lemma MatchNeedsAtThenDot(s: string)
    requires Matches(s)
    ensures exists a, d :: 0 <= a && a + 1 < d < |s| && s[a] == '@' && s[d] == '.'
  {
    var a, d :| 0 <= a < d < |s| && MatchAt(s, a, d);
  }

  /** `local@domain.tld` matches whenever the three parts are non-empty and free of
      whitespace. */
  lemma AddressMatches(local: string, domain: string, tld: string)
    requires |local| > 0 && |domain| > 0 && |tld| > 0
    requires forall k :: 0 <= k < |local| ==> !IsWs(local[k])
    requires forall k :: 0 <= k < |domain| ==> !IsWs(domain[k])
    requires !IsWs(tld[0])
    ensures Matches(local + "@" + domain + "." + tld)
  {
    var s := local + "@" + domain + "." + tld;
    var a := |local|;
    var d := a + 1 + |domain|;
    assert s[a - 1] == local[a - 1];
    assert forall k :: a + 1 <= k < d ==> s[k] == domain[k - a - 1];
    assert s[d + 1] == tld[0];
    assert MatchAt(s, a, d);
  }

  /** The pattern is unanchored: text around a matching string, whitespace included,
      never stops it matching. */
  lemma MatchesInContext(s: string, before: string, after: string)
    requires Matches(s)
    ensures Matches(before + s + after)
  {
    var a, d :| 0 <= a < d < |s| && MatchAt(s, a, d);
    var t := before + s + after;
    var n := |before|;
    assert forall k :: 0 <= k < |s| ==> t[n + k] == s[k];
    assert NonWsRange(t, n + a + 1, n + d) by {
      forall k | n + a + 1 <= k < n + d
        ensures !IsWs(t[k])
      {
        assert t[k] == s[k - n];
      }
    }
    assert MatchAt(t, n + a, n + d);
  }
}
