/** The string primitives the crawler relies on: `trim`, `substring(0, n)`,
    `includes` and `startsWith`. */
module Text {
  import opened Wrappers

  /** Characters removed by `trim`. The ASCII whitespace, the no-break space,
      the byte-order mark and the Unicode line and paragraph separators. */
  predicate IsSpace(c: char) {
    c == ' ' || c == '\t' || c == '\n' || c == '\r'
    || c == '\U{000B}' || c == '\U{000C}' || c == '\U{00A0}'
    || c == '\U{FEFF}' || c == '\U{2028}' || c == '\U{2029}'
  }

  predicate AllSpace(s: string) {
    forall i :: 0 <= i < |s| ==> IsSpace(s[i])
  }

  /** No whitespace at either end. */
  predicate Trimmed(s: string) {
    |s| == 0 || (!IsSpace(s[0]) && !IsSpace(s[|s| - 1]))
  }

  /** The number of whitespace characters at the front of `s`. */
  function LeadingSpaces(s: string): (k: nat)
    ensures k <= |s|
    ensures forall i :: 0 <= i < k ==> IsSpace(s[i])
    ensures k == |s| || !IsSpace(s[k])
  {
    if |s| > 0 && IsSpace(s[0]) then 1 + LeadingSpaces(s[1..]) else 0
  }

  /** Drops leading whitespace: the result is the suffix that starts at the
      first non-space character. */
  function TrimStart(s: string): (r: string)
    ensures |r| <= |s| && r == s[|s| - |r|..]
    ensures AllSpace(s[..|s| - |r|])
    ensures |r| == 0 || !IsSpace(r[0])
  {
    s[LeadingSpaces(s)..]
  }

  /** Drops trailing whitespace: the result is the prefix that ends at the
      last non-space character. */
  function TrimEnd(s: string): (r: string)
    ensures |r| <= |s| && r == s[..|r|]
    ensures AllSpace(s[|r|..])
    ensures |r| == 0 || !IsSpace(r[|r| - 1])
  {
    if |s| > 0 && IsSpace(s[|s| - 1]) then
      var t := s[..|s| - 1];
      var r := TrimEnd(t);
      assert s[|r|..] == t[|r|..] + [s[|s| - 1]];
      assert t[..|r|] == s[..|r|];
      r
    else
      assert s[|s|..] == [];
      s
  }

  /** `String.prototype.trim`: whitespace is cut from the front (leaving a
      suffix of `s`), then from the back (leaving a prefix of that suffix);
      what remains has no whitespace at either end. */
  function Trim(s: string): (r: string)
    ensures Trimmed(r)
    ensures |r| <= |s|
    ensures r <= TrimStart(s) && AllSpace(TrimStart(s)[|r|..])
  {
    TrimEnd(TrimStart(s))
  }

  /** Trimming twice is trimming once. */
  lemma {:induction false} TrimIdempotent(s: string)
    ensures Trim(Trim(s)) == Trim(s)
  {
    var t := Trim(s);
    TrimmedIsFixed(t);
  }

  /** A string without whitespace at its ends is left alone by `trim`. */
  lemma TrimmedIsFixed(s: string)
    requires Trimmed(s)
    ensures Trim(s) == s
  {
    if |s| > 0 {
      assert !IsSpace(s[0]);
      assert TrimStart(s) == s;
      assert !IsSpace(s[|s| - 1]);
      assert TrimEnd(s) == s;
    }
  }

  /** `trim` of a string made only of whitespace is empty. */
  lemma TrimAllSpace(s: string)
    requires AllSpace(s)
    ensures Trim(s) == ""
  {
    assert LeadingSpaces(s) == |s|;
  }

  /** `substring(0, n)`: the prefix of `s` of length min(|s|, n). */
  function Truncate(s: string, n: nat): (r: string)
    ensures |r| <= n && r <= s
    ensures |r| == n || r == s
  {
    if |s| <= n then s else s[..n]
  }

  /** Upper bound on the length of category, subcategory and product
      fields. */
  const FieldLimit: nat := 100

  /** `value?.trim().substring(0, 100) || ""`: a missing value is the empty
      string, otherwise the trimmed text cut to at most 100 characters. */
  function CleanField(value: Option<string>): (r: string)
    ensures |r| <= FieldLimit
    ensures value.None? ==> r == ""
    ensures value.Some? ==> r <= Trim(value.value)
    ensures value.Some? && |Trim(value.value)| <= FieldLimit ==> r == Trim(value.value)
    ensures value.Some? && |Trim(value.value)| > FieldLimit ==> r == Trim(value.value)[..FieldLimit]
  {
    match value
    case None => ""
    case Some(t) => Truncate(Trim(t), FieldLimit)
  }

  /** Whitespace around a value is cut before the limit applies: a raw value
      and its trimmed text are stored alike. */
  lemma CleanFieldTrimsFirst(t: string)
    ensures CleanField(Some(t)) == CleanField(Some(Trim(t)))
  {
    TrimIdempotent(t);
  }

  /** `startsWith`. */
  predicate StartsWith(s: string, prefix: string) {
    prefix <= s
  }

  /** `includes`: `sub` occurs somewhere in `s` (the empty string occurs
      everywhere). */
  predicate Contains(s: string, sub: string)
    decreases |s|
  {
    sub <= s || (|s| > 0 && Contains(s[1..], sub))
  }

  /** `includes` means an occurrence at some position. */
  lemma {:induction false} ContainsAt(s: string, sub: string)
    ensures Contains(s, sub) <==> exists i :: 0 <= i <= |s| && sub <= s[i..]
    decreases |s|
  {
    if sub <= s {
      assert s[0..] == s;
    } else if |s| > 0 {
      ContainsAt(s[1..], sub);
      if Contains(s[1..], sub) {
        var i :| 0 <= i <= |s| - 1 && sub <= s[1..][i..];
        assert s[1..][i..] == s[i + 1..];
      }
      if exists i :: 0 <= i <= |s| && sub <= s[i..] {
        var i :| 0 <= i <= |s| && sub <= s[i..];
        assert i > 0;
        assert s[1..][i - 1..] == s[i..];
      }
    } else {
      assert forall i :: 0 <= i <= |s| ==> s[i..] == s;
    }
  }

  /** A string cannot contain a substring holding a character it lacks. */
  lemma {:induction false} MissingCharNotContained(s: string, sub: string, c: char)
    requires c in sub && c !in s
    ensures !Contains(s, sub)
    decreases |s|
  {
    if |s| > 0 {
      MissingCharNotContained(s[1..], sub, c);
    }
    var k :| 0 <= k < |sub| && sub[k] == c;
    assert k < |s| ==> s[k] != c;
  }
}
