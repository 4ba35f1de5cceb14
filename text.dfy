/** The few Python `str` operations the movie handler relies on: `str.index`,
    `in`, slicing with clamped and negative bounds, `strip()`, `capitalize()`
    and `re.split("(?<=[.])", ...)`. Strings are sequences of code points. */
module Text {
  import opened Wrappers

  // ---------------------------------------------------------------------------
  // Substring search: `s.index(pat)` and `pat in s`
  // ---------------------------------------------------------------------------

  /** `pat` occurs in `s` starting at position `i`. */
  predicate OccursAt(s: string, pat: string, i: int) {
    0 <= i && i + |pat| <= |s| && s[i..i + |pat|] == pat
  }

  /** First occurrence of `pat` in `s` at or after `from`. */
  function IndexFrom(s: string, pat: string, from: nat): (r: Option<nat>)
    ensures r.Some? ==> from <= r.value && OccursAt(s, pat, r.value)
    ensures r.Some? ==> forall j :: from <= j < r.value ==> !OccursAt(s, pat, j)
    ensures r.None? ==> forall j :: from <= j ==> !OccursAt(s, pat, j)
    decreases |s| - from
  {
    if from + |pat| > |s| then None
    else if s[from..from + |pat|] == pat then Some(from)
    else IndexFrom(s, pat, from + 1)
  }

  /** `s.index(pat)`, with `None` where Python raises `ValueError`. */
  function IndexOf(s: string, pat: string): (r: Option<nat>)
    ensures r.Some? ==> OccursAt(s, pat, r.value)
    ensures r.Some? ==> forall j :: 0 <= j < r.value ==> !OccursAt(s, pat, j)
    ensures r.None? <==> forall j :: !OccursAt(s, pat, j)
  {
    IndexFrom(s, pat, 0)
  }

  /** `pat in s`. */
  predicate Contains(s: string, pat: string) {
    IndexOf(s, pat).Some?
  }

  /** `s.startswith(prefix)`. */
  predicate StartsWith(s: string, prefix: string) {
    |prefix| <= |s| && s[..|prefix|] == prefix
  }

  // ---------------------------------------------------------------------------
  // Slicing: `s[i:j]` with Python's rules for negative and out-of-range bounds
  // ---------------------------------------------------------------------------

  /** Where a slice bound `i` lands in a string of length `n`: a negative bound
      counts from the end, and the result is clamped into `0..n`. */
  function SliceBound(i: int, n: nat): (r: nat)
    ensures r <= n
    ensures 0 <= i <= n ==> r == i
    ensures i > n ==> r == n
    ensures i < 0 && 0 <= i + n ==> r == i + n
    ensures i + n < 0 ==> r == 0
  {
    if i < 0 then (if i + n < 0 then 0 else i + n)
    else if i > n then n
    else i
  }

  /** `s[i:j]`; never fails, an empty window gives the empty string. */
  function Slice(s: string, i: int, j: int): (r: string)
    ensures |r| <= |s|
    ensures 0 <= i <= j <= |s| ==> r == s[i..j]
    ensures 0 <= i <= |s| <= j ==> r == s[i..]
    ensures 0 <= j <= i || |s| <= i ==> r == []
  {
    var lo, hi := SliceBound(i, |s|), SliceBound(j, |s|);
    if lo < hi then s[lo..hi] else []
  }

  /** `s[:-1]`: everything but the last character, nothing for the empty string. */
  lemma SliceDropLast(s: string)
    ensures Slice(s, 0, -1) == if s == [] then [] else s[..|s| - 1]
  {}

  /** `s[-k:j]` counts the start from the end: it is the window from `|s| - k`,
      and empty when `j` lies before that point. */
  lemma SliceFromEnd(s: string, k: int, j: int)
    requires 0 < k <= |s| && 0 <= j
    ensures |s| - k <= j <= |s| ==> Slice(s, -k, j) == s[|s| - k..j]
    ensures j <= |s| - k ==> Slice(s, -k, j) == []
  {}

  // ---------------------------------------------------------------------------
  // `strip()`
  // ---------------------------------------------------------------------------

  /** Python's `str.isspace()` for a single code point. */
  predicate IsSpace(c: char) {
    c == ' ' || ('\t' <= c <= '\r') || ('\U{1C}' <= c <= '\U{1F}')
    || c == '\U{85}' || c == '\U{A0}' || c == '\U{1680}'
    || ('\U{2000}' <= c <= '\U{200A}') || c == '\U{2028}' || c == '\U{2029}'
    || c == '\U{202F}' || c == '\U{205F}' || c == '\U{3000}'
  }

  predicate AllSpace(s: string) {
    forall k :: 0 <= k < |s| ==> IsSpace(s[k])
  }

  /** `s.lstrip()`: `s` after dropping its leading white space. */
  function TrimStart(s: string): (r: string)
    ensures |r| <= |s|
    ensures r == [] || !IsSpace(r[0])
  {
    if |s| > 0 && IsSpace(s[0]) then TrimStart(s[1..]) else s
  }

  /** What `lstrip()` keeps is a suffix, and what it drops is white space. */
  lemma {:induction false} TrimStartDropsSpace(s: string)
    ensures var r := TrimStart(s);
            r == s[|s| - |r|..] && AllSpace(s[..|s| - |r|])
  {
    if |s| > 0 && IsSpace(s[0]) {
      TrimStartDropsSpace(s[1..]);
      var r := TrimStart(s[1..]);
      assert s[1..][..|s| - 1 - |r|] == s[1..|s| - |r|];
    }
  }

  /** `s.rstrip()`: `s` after dropping its trailing white space. */
  function TrimEnd(s: string): (r: string)
    ensures |r| <= |s|
    ensures r == [] || !IsSpace(r[|r| - 1])
  {
    if |s| > 0 && IsSpace(s[|s| - 1]) then TrimEnd(s[..|s| - 1]) else s
  }

  /** What `rstrip()` keeps is a prefix, and what it drops is white space. */
  lemma {:induction false} TrimEndKeepsPrefix(s: string)
    ensures var r := TrimEnd(s);
            r == s[..|r|] && AllSpace(s[|r|..])
  {
    if |s| > 0 && IsSpace(s[|s| - 1]) {
      var init := s[..|s| - 1];
      TrimEndKeepsPrefix(init);
      var r := TrimEnd(init);
      assert init[..|r|] == s[..|r|];
      assert init[|r|..] == s[|r|..|s| - 1];
      assert s[|r|..] == s[|r|..|s| - 1] + [s[|s| - 1]];
    }
  }

  /** `s.strip()`: `s` without its leading and trailing white space. */
  function Strip(s: string): (r: string)
    ensures |r| <= |s|
    ensures r == [] || (!IsSpace(r[0]) && !IsSpace(r[|r| - 1]))
  {
    TrimEndKeepsPrefix(TrimStart(s));
    TrimEnd(TrimStart(s))
  }

  /** A string of white space strips to nothing. */
  lemma {:induction false} StripAllSpace(s: string)
    ensures AllSpace(s) ==> TrimStart(s) == [] && Strip(s) == []
  {
    if s != [] && AllSpace(s) {
      StripAllSpace(s[1..]);
    }
  }

  /** What `strip()` removes is white space, and only from the two ends. */
  lemma StripIsTrimmedSlice(s: string)
    ensures var r := Strip(s);
            exists lo :: 0 <= lo <= |s| - |r| && r == s[lo..lo + |r|]
                         && AllSpace(s[..lo]) && AllSpace(s[lo + |r|..])
  {
    TrimStartDropsSpace(s);
    TrimEndKeepsPrefix(TrimStart(s));
    TrimmedBothEnds(s, TrimStart(s), Strip(s));
  }

  /** Trimming a suffix of `s` from the right leaves a slice of `s` with only
      white space around it. */
  lemma TrimmedBothEnds(s: string, t: string, r: string)
    requires |t| <= |s| && t == s[|s| - |t|..] && AllSpace(s[..|s| - |t|])
    requires |r| <= |t| && r == t[..|r|] && AllSpace(t[|r|..])
    ensures exists lo :: 0 <= lo <= |s| - |r| && r == s[lo..lo + |r|]
                         && AllSpace(s[..lo]) && AllSpace(s[lo + |r|..])
  {
    var lo := |s| - |t|;
    assert s[lo + |r|..] == t[|r|..];
    assert r == s[lo..lo + |r|];
  }

  // ---------------------------------------------------------------------------
  // `capitalize()`
  // ---------------------------------------------------------------------------

  /** Upper case of a Latin or Cyrillic letter; every other code point maps to itself. */
  function Upper(c: char): char {
    if 'a' <= c <= 'z' then (c as int - 32) as char
    else if '\U{430}' <= c <= '\U{44F}' then (c as int - 0x20) as char
    else if '\U{450}' <= c <= '\U{45F}' then (c as int - 0x50) as char
    else c
  }

  /** Lower case of a Latin or Cyrillic letter; every other code point maps to itself. */
  function Lower(c: char): char {
    if 'A' <= c <= 'Z' then (c as int + 32) as char
    else if '\U{410}' <= c <= '\U{42F}' then (c as int + 0x20) as char
    else if '\U{400}' <= c <= '\U{40F}' then (c as int + 0x50) as char
    else c
  }

  function LowerAll(s: string): (r: string)
    ensures |r| == |s|
    ensures forall k :: 0 <= k < |s| ==> r[k] == Lower(s[k])
  {
    if s == [] then [] else [Lower(s[0])] + LowerAll(s[1..])
  }

  /** `s.capitalize()`: first character upper-cased, the rest lower-cased. */
  function Capitalize(s: string): (r: string)
    ensures |r| == |s|
  {
    if s == [] then [] else [Upper(s[0])] + LowerAll(s[1..])
  }

  lemma UpperLowerFixed(c: char)
    ensures Upper(Upper(c)) == Upper(c) && Lower(Lower(c)) == Lower(c)
    ensures c == '.' || IsSpace(c) ==> Upper(c) == c && Lower(c) == c
  {}

  /** Capitalising twice is capitalising once. */
  lemma CapitalizeIdempotent(s: string)
    ensures Capitalize(Capitalize(s)) == Capitalize(s)
  {
    if s != [] {
      var c := Capitalize(s);
      UpperLowerFixed(s[0]);
      forall k | 0 <= k < |s| - 1
        ensures LowerAll(c[1..])[k] == LowerAll(s[1..])[k]
      {
        UpperLowerFixed(s[k + 1]);
      }
    }
  }

  /** Capitalising changes letters only: dots and white space stay in place. */
  lemma CapitalizeKeepsPunctuation(s: string, k: nat)
    requires k < |s| && (s[k] == '.' || IsSpace(s[k]))
    ensures Capitalize(s)[k] == s[k]
  {
    UpperLowerFixed(s[k]);
    if k > 0 {
      assert Capitalize(s)[k] == LowerAll(s[1..])[k - 1];
    }
  }

  // ---------------------------------------------------------------------------
  // `re.split("(?<=[.])", s)`: split right after every '.'
  // ---------------------------------------------------------------------------

  /** Concatenation of a list of strings. */
  function Concat(ps: seq<string>): string {
    if ps == [] then [] else ps[0] + Concat(ps[1..])
  }

  function CountDots(s: string): nat {
    if s == [] then 0 else (if s[0] == '.' then 1 else 0) + CountDots(s[1..])
  }

  /** A piece that ends with its only dot. */
  predicate EndsSentence(p: string) {
    |p| > 0 && p[|p| - 1] == '.' && '.' !in p[..|p| - 1]
  }

  /** The pieces of `s` cut immediately after each '.'; a string with `n`
      dots gives `n + 1` pieces, the last one holding what follows the final dot. */
  function SplitAfterDots(s: string): (ps: seq<string>)
    ensures |ps| == CountDots(s) + 1
  {
    if s == [] then [[]]
    else
      var rest := SplitAfterDots(s[1..]);
      if s[0] == '.' then [[s[0]]] + rest
      else [[s[0]] + rest[0]] + rest[1..]
  }

  /** The pieces put back together give the input. */
  lemma {:induction false} SplitAfterDotsConcat(s: string)
    ensures Concat(SplitAfterDots(s)) == s
  {
    if s != [] {
      var rest := SplitAfterDots(s[1..]);
      SplitAfterDotsConcat(s[1..]);
      var ps := SplitAfterDots(s);
      if s[0] == '.' {
        assert ps[1..] == rest;
      } else {
        assert ps[1..] == rest[1..];
        assert Concat(rest) == rest[0] + Concat(rest[1..]);
      }
      assert s == [s[0]] + s[1..];
    }
  }

  /** Every piece but the last ends with its only dot. */
  lemma {:induction false} SplitAfterDotsSentences(s: string)
    ensures forall k :: 0 <= k < |SplitAfterDots(s)| - 1 ==> EndsSentence(SplitAfterDots(s)[k])
  {
    if s != [] {
      var rest := SplitAfterDots(s[1..]);
      SplitAfterDotsSentences(s[1..]);
      var ps := SplitAfterDots(s);
      if s[0] == '.' {
        assert EndsSentence(ps[0]);
        forall k | 1 <= k < |ps| - 1
          ensures EndsSentence(ps[k])
        {
          assert ps[k] == rest[k - 1];
        }
      } else {
        var first := [s[0]] + rest[0];
        if |rest| > 1 {
          assert EndsSentence(rest[0]);
          assert first[..|first| - 1] == [s[0]] + rest[0][..|rest[0]| - 1];
        }
        forall k | 1 <= k < |ps| - 1
          ensures EndsSentence(ps[k])
        {
          assert ps[k] == rest[k];
        }
      }
    }
  }

  /** The last piece, what follows the final dot, holds no dot. */
  lemma {:induction false} SplitAfterDotsLast(s: string)
    ensures var ps := SplitAfterDots(s);
            '.' !in ps[|ps| - 1]
  {
    if s != [] {
      var rest := SplitAfterDots(s[1..]);
      SplitAfterDotsLast(s[1..]);
      var ps := SplitAfterDots(s);
      if s[0] != '.' && |rest| == 1 {
        assert ps == [[s[0]] + rest[0]];
      } else {
        assert ps[|ps| - 1] == rest[|rest| - 1];
      }
    }
  }
}
