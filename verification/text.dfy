/** Whitespace and `String.prototype.trim`, as the forms use them. */
module Text {

  /** The characters ECMAScript counts as WhiteSpace or LineTerminator. The same set
      is matched by the regular-expression class `\s` and removed by `trim()`, so the
      email pattern and the name check share this one predicate. */
  predicate IsWs(c: char) {
    || c == ' ' || c == '\t' || c == '\n' || c == '\U{B}' || c == '\U{C}' || c == '\r'
    || c == '\U{A0}' || c == '\U{1680}' || ('\U{2000}' <= c <= '\U{200A}')
    || c == '\U{2028}' || c == '\U{2029}' || c == '\U{202F}' || c == '\U{205F}'
    || c == '\U{3000}' || c == '\U{FEFF}'
  }

  /** Every character of `s` is whitespace (true of the empty string). */
  predicate IsBlank(s: string) {
    forall k :: 0 <= k < |s| ==> IsWs(s[k])
  }

  /** Number of whitespace characters at the start of `s`. */
  function LeadingWs(s: string): (n: nat)
    ensures n <= |s|
    ensures forall k :: 0 <= k < n ==> IsWs(s[k])
    ensures n < |s| ==> !IsWs(s[n])
    decreases |s|
  {
    if |s| > 0 && IsWs(s[0]) then 1 + LeadingWs(s[1..]) else 0
  }

  /** Number of whitespace characters at the end of `s`. */
  function TrailingWs(s: string): (n: nat)
    ensures n <= |s|
    ensures forall k :: |s| - n <= k < |s| ==> IsWs(s[k])
    ensures n < |s| ==> !IsWs(s[|s| - n - 1])
    decreases |s|
  {
    if |s| > 0 && IsWs(s[|s| - 1]) then 1 + TrailingWs(s[..|s| - 1]) else 0
  }

  /** The slice `[lo, hi)` that `trim()` keeps: everything outside it is whitespace,
      and a non-empty slice starts and ends with a non-whitespace character. */
  function TrimBounds(s: string): (b: (nat, nat))
    ensures b.0 <= b.1 <= |s|
    ensures forall k :: 0 <= k < b.0 ==> IsWs(s[k])
    ensures forall k :: b.1 <= k < |s| ==> IsWs(s[k])
    ensures b.0 < b.1 ==> !IsWs(s[b.0]) && !IsWs(s[b.1 - 1])
  {
    var lo := LeadingWs(s);
    var rest := s[lo..];
    var hi := |s| - TrailingWs(rest);
    (lo, hi)
  }

  /** `s.trim()`. */
  function Trim(s: string): (t: string)
    ensures |t| <= |s|
    ensures exists lo, hi :: 0 <= lo <= hi <= |s| && t == s[lo..hi] && IsBlank(s[..lo]) && IsBlank(s[hi..])
    ensures |t| > 0 ==> !IsWs(t[0]) && !IsWs(t[|t| - 1])
    ensures t == [] <==> IsBlank(s)
  {
    var b := TrimBounds(s);
    var t := s[b.0..b.1];
    assert IsBlank(s[..b.0]) && IsBlank(s[b.1..]);
    t
  }

  /** The trimmed string has at least two characters exactly when `s` holds two
      non-whitespace characters at different positions. */
  lemma TrimAtLeastTwo(s: string)
    ensures |Trim(s)| >= 2 <==>
      exists i, j :: 0 <= i < j < |s| && !IsWs(s[i]) && !IsWs(s[j])
  {
    var b := TrimBounds(s);
    if |Trim(s)| >= 2 {
      assert !IsWs(s[b.0]) && !IsWs(s[b.1 - 1]);
    }
    if exists i, j :: 0 <= i < j < |s| && !IsWs(s[i]) && !IsWs(s[j]) {
      var i, j :| 0 <= i < j < |s| && !IsWs(s[i]) && !IsWs(s[j]);
      assert b.0 <= i;
      assert j < b.1;
    }
  }
}
