/** The JavaScript string operations the modelled code relies on: `replace`
    with a string pattern (first occurrence only), `concat` and `trim`.
    `IndexOf` is the first-occurrence search inside `replace`; `EndsWith` is
    used only to state properties. Strings are sequences of characters. */
module JsStrings {
  import opened Wrappers

  /** JavaScript truthiness of an optional string: `undefined`, `null` and
      `""` are falsy, every other string is truthy. */
  predicate IsTruthy(s: Option<string>) {
    s.Some? && s.value != ""
  }

  /** `pat` occurs in `s` starting at index `i`. */
  predicate MatchAt(s: string, pat: string, i: nat) {
    i + |pat| <= |s| && s[i..i + |pat|] == pat
  }

  /** `pat` occurs somewhere in `s`. */
  predicate Contains(s: string, pat: string) {
    exists i: nat :: i <= |s| && MatchAt(s, pat, i)
  }

  predicate EndsWith(s: string, suffix: string) {
    |suffix| <= |s| && s[|s| - |suffix|..] == suffix
  }

  /** The least index at or after `from` where `pat` occurs. */
  function IndexOfFrom(s: string, pat: string, from: nat): (r: Option<nat>)
    requires from <= |s|
    ensures r.Some? ==> from <= r.value && MatchAt(s, pat, r.value)
    ensures r.Some? ==> forall j: nat :: from <= j < r.value ==> !MatchAt(s, pat, j)
    ensures r.None? ==> forall j: nat :: from <= j ==> !MatchAt(s, pat, j)
    decreases |s| - from
  {
    if MatchAt(s, pat, from) then Some(from)
    else if from == |s| then None
    else IndexOfFrom(s, pat, from + 1)
  }

  /** `s.indexOf(pat)`: the first occurrence of `pat`, or none (-1). */
  function IndexOf(s: string, pat: string): (r: Option<nat>)
    ensures r.Some? ==> MatchAt(s, pat, r.value)
    ensures r.Some? ==> forall j: nat :: j < r.value ==> !MatchAt(s, pat, j)
    ensures r.None? <==> !Contains(s, pat)
  {
    IndexOfFrom(s, pat, 0)
  }

  /** `s.replace(pat, rep)` with a string pattern: only the first occurrence
      of `pat` is replaced; without one, `s` is returned unchanged. The
      replacement strings used by the modelled code contain no `$`, so
      JavaScript's replacement patterns play no part. */
  function ReplaceFirst(s: string, pat: string, rep: string): (r: string)
    ensures !Contains(s, pat) ==> r == s
    ensures Contains(s, pat) ==>
              exists i: nat :: i <= |s| && MatchAt(s, pat, i)
                && (forall j: nat :: j < i ==> !MatchAt(s, pat, j))
                && r == s[..i] + rep + s[i + |pat|..]
  {
    match IndexOf(s, pat)
    case None => s
    case Some(i) => s[..i] + rep + s[i + |pat|..]
  }

  /** The first occurrence is determined by any match with no earlier one. */
  lemma IndexOfIsLeastMatch(s: string, pat: string, i: nat)
    requires MatchAt(s, pat, i)
    requires forall j: nat :: j < i ==> !MatchAt(s, pat, j)
    ensures IndexOf(s, pat) == Some(i)
  {
    assert Contains(s, pat);
  }

  /** For a window lying wholly inside `a`, matching in `a + b` is matching
      in `a`. */
  lemma MatchInsidePrefix(a: string, b: string, pat: string, i: nat)
    requires i + |pat| <= |a|
    ensures MatchAt(a + b, pat, i) <==> MatchAt(a, pat, i)
  {
    assert (a + b)[i..i + |pat|] == a[i..i + |pat|];
  }

  /** Appending a suffix makes the result end with it. */
  lemma EndsWithConcat(a: string, b: string)
    ensures EndsWith(a + b, b)
  {
    assert (a + b)[|a + b| - |b|..] == b;
  }

  // ---------------------------------------------------------------------------
  // trim()

  /** The characters `String.prototype.trim` removes: the WhiteSpace and
      LineTerminator code points of section 12.2 and 12.3 of ECMA-262. */
  predicate IsJsWhitespace(c: char) {
    var n := c as int;
    n == 0x09 || n == 0x0A || n == 0x0B || n == 0x0C || n == 0x0D || n == 0x20
    || n == 0xA0 || n == 0x1680 || (0x2000 <= n <= 0x200A)
    || n == 0x2028 || n == 0x2029 || n == 0x202F || n == 0x205F || n == 0x3000
    || n == 0xFEFF
  }

  predicate AllWhitespace(s: string) {
    forall i :: 0 <= i < |s| ==> IsJsWhitespace(s[i])
  }

  /** `s` with its leading whitespace removed. */
  function TrimStart(s: string): (r: string)
    ensures |r| <= |s| && r == s[|s| - |r|..]
    ensures AllWhitespace(s[..|s| - |r|])
    ensures r == [] || !IsJsWhitespace(r[0])
  {
    if s != [] && IsJsWhitespace(s[0]) then
      var r := TrimStart(s[1..]);
      assert s[..|s| - |r|] == [s[0]] + s[1..][..|s| - 1 - |r|];
      r
    else s
  }

  /** `s` with its trailing whitespace removed. */
  function TrimEnd(s: string): (r: string)
    ensures |r| <= |s| && r == s[..|r|]
    ensures AllWhitespace(s[|r|..])
    ensures r == [] || !IsJsWhitespace(r[|r| - 1])
  {
    if s != [] && IsJsWhitespace(s[|s| - 1]) then
      var r := TrimEnd(s[..|s| - 1]);
      assert s[|r|..] == s[..|s| - 1][|r|..] + [s[|s| - 1]];
      r
    else s
  }

  /** `r` sits in `s` at `i` with nothing but whitespace on either side. */
  predicate SliceBetweenWhitespace(s: string, r: string, i: int) {
    0 <= i <= |s| - |r| && r == s[i..i + |r|]
    && AllWhitespace(s[..i]) && AllWhitespace(s[i + |r|..])
  }

  /** A whitespace-trimmed prefix of a whitespace-trimmed suffix of `s` is
      a slice of `s` between whitespace. */
  lemma PrefixOfSuffix(s: string, t: string, r: string)
    requires |t| <= |s| && t == s[|s| - |t|..] && AllWhitespace(s[..|s| - |t|])
    requires |r| <= |t| && r == t[..|r|] && AllWhitespace(t[|r|..])
    ensures exists i :: SliceBetweenWhitespace(s, r, i)
  {
    var i := |s| - |t|;
    assert r == s[i..i + |r|];
    assert s[i + |r|..] == t[|r|..];
    assert SliceBetweenWhitespace(s, r, i);
  }

  /** `s.trim()`: a slice of `s` with only whitespace cut from either side,
      and none left at its own ends. */
  function Trim(s: string): (r: string)
    ensures exists i :: SliceBetweenWhitespace(s, r, i)
    ensures r == [] || (!IsJsWhitespace(r[0]) && !IsJsWhitespace(r[|r| - 1]))
  {
    var t := TrimStart(s);
    var r := TrimEnd(t);
    PrefixOfSuffix(s, t, r);
    assert r == [] || !IsJsWhitespace(r[0]) by {
      if r != [] { assert r[0] == t[0]; }
    }
    r
  }

  /** `s.trim()` is empty exactly when every character of `s` is whitespace:
      the condition under which `!s.trim()` holds. */
  lemma TrimEmptyIff(s: string)
    ensures Trim(s) == [] <==> AllWhitespace(s)
  {
    var t := TrimStart(s);
    if !AllWhitespace(s) {
      var k :| 0 <= k < |s| && !IsJsWhitespace(s[k]);
      assert t[k - (|s| - |t|)] == s[k];
      assert TrimEnd(t) != [];
    }
  }
}
