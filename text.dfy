/**
 * Text primitives the roadmap parser is built from: the character classes
 * Python uses for `re.IGNORECASE` (restricted to ASCII letters) and for
 * `str.strip()`, a case-insensitive literal search, and stripping.
 * Everything is defined on positions, so that no definition slices a string.
 */
module Text {
  import opened Wrappers

  /** The characters Python's `str.isspace()` accepts, which `str.strip()` removes. */
  predicate IsSpace(c: char)
  {
    || '\t' <= c <= '\r'
    || '\U{1C}' <= c <= ' '
    || c == '\U{85}' || c == '\U{A0}' || c == '\U{1680}'
    || '\U{2000}' <= c <= '\U{200A}'
    || c == '\U{2028}' || c == '\U{2029}' || c == '\U{202F}' || c == '\U{205F}' || c == '\U{3000}'
  }

  /** ASCII lower-casing: the folding under which two letters match case-insensitively. */
  function Lower(c: char): (d: char)
    ensures 'A' <= c <= 'Z' ==> 'a' <= d <= 'z' && d as int == c as int + 32
    ensures !('A' <= c <= 'Z') ==> d == c
  {
    if 'A' <= c <= 'Z' then (c as int + 32) as char else c
  }

  /** `pat[k..]` agrees with `s` from position `i + k` on, up to ASCII case. */
  predicate AgreeFrom(s: string, pat: string, i: nat, k: nat)
    requires i + |pat| <= |s| && k <= |pat|
    decreases |pat| - k
  {
    k == |pat| || (Lower(s[i + k]) == Lower(pat[k]) && AgreeFrom(s, pat, i, k + 1))
  }

  /** `pat` occurs in `s` at position `i`, ignoring the case of ASCII letters. */
  predicate MatchesAt(s: string, pat: string, i: int)
  {
    0 <= i && i + |pat| <= |s| && AgreeFrom(s, pat, i, 0)
  }

  lemma {:induction false} AgreeFromIff(s: string, pat: string, i: nat, k: nat)
    requires i + |pat| <= |s| && k <= |pat|
    decreases |pat| - k
    ensures AgreeFrom(s, pat, i, k) <==> forall n :: k <= n < |pat| ==> Lower(s[i + n]) == Lower(pat[n])
  {
    if k < |pat| {
      AgreeFromIff(s, pat, i, k + 1);
    }
  }

  /** The recursive definition is position-wise comparison after lower-casing. */
  lemma {:induction false} MatchesAtIff(s: string, pat: string, i: int)
    ensures MatchesAt(s, pat, i) <==>
            0 <= i && i + |pat| <= |s| && forall n :: 0 <= n < |pat| ==> Lower(s[i + n]) == Lower(pat[n])
  {
    if 0 <= i && i + |pat| <= |s| {
      AgreeFromIff(s, pat, i, 0);
    }
  }

  /** `i` is the leftmost case-insensitive occurrence of `pat` in `s`. */
  predicate IsFirst(s: string, pat: string, i: int)
  {
    MatchesAt(s, pat, i) && forall j :: 0 <= j < i ==> !MatchesAt(s, pat, j)
  }

  /**
   * The leftmost position at or after `from` where `pat` occurs
   * case-insensitively: what `re.search` finds for a literal pattern.
   */
  function FindFirst(s: string, pat: string, from: nat): (r: Option<nat>)
    decreases |s| - from
    ensures r.Some? ==> from <= r.value && r.value + |pat| <= |s|
  {
    if from + |pat| > |s| then None
    else if MatchesAt(s, pat, from) then Some(from)
    else FindFirst(s, pat, from + 1)
  }

  /** The search finds an occurrence, and none before it; it fails only when there is none. */
  lemma {:induction false} FindFirstSpec(s: string, pat: string, from: nat)
    decreases |s| - from
    ensures FindFirst(s, pat, from).Some? ==>
              && MatchesAt(s, pat, FindFirst(s, pat, from).value)
              && forall j :: from <= j < FindFirst(s, pat, from).value ==> !MatchesAt(s, pat, j)
    ensures FindFirst(s, pat, from).None? ==> forall j :: from <= j ==> !MatchesAt(s, pat, j)
  {
    if from + |pat| <= |s| && !MatchesAt(s, pat, from) {
      FindFirstSpec(s, pat, from + 1);
    }
  }

  /** The search from `from` finds `i` when `i` is the first occurrence at or after `from`. */
  lemma {:induction false} FindFirstIs(s: string, pat: string, from: nat, i: int)
    requires from <= i && MatchesAt(s, pat, i)
    requires forall j :: from <= j < i ==> !MatchesAt(s, pat, j)
    decreases i - from
    ensures FindFirst(s, pat, from) == Some(i)
  {
    if from < i {
      FindFirstIs(s, pat, from + 1, i);
    }
  }

  /** One of the patterns in `pats` occurs at position `i` of `s`. */
  predicate AnyMatchAt(s: string, pats: seq<string>, i: int)
  {
    pats != [] && (MatchesAt(s, pats[0], i) || AnyMatchAt(s, pats[1..], i))
  }

  /** `e` is where a lazy `(.*?)` started at `from` stops when followed by `(?=(p1|...|pn|$))`. */
  predicate IsFieldEnd(s: string, stops: seq<string>, from: int, e: int)
  {
    && 0 <= from <= e <= |s|
    && (e < |s| ==> AnyMatchAt(s, stops, e))
    && forall j :: from <= j < e ==> !AnyMatchAt(s, stops, j)
  }

  /**
   * The end of a field that starts at `from`: the first position at or after
   * `from` where one of `stops` occurs, or the end of `s` (the `$` alternative).
   */
  function FieldEnd(s: string, stops: seq<string>, from: nat): (e: nat)
    requires from <= |s|
    decreases |s| - from
    ensures from <= e <= |s|
  {
    if from == |s| then from
    else if AnyMatchAt(s, stops, from) then from
    else FieldEnd(s, stops, from + 1)
  }

  /** The field ends at the first stop marker, or at the end of `s` when none follows. */
  lemma {:induction false} FieldEndSpec(s: string, stops: seq<string>, from: nat)
    requires from <= |s|
    decreases |s| - from
    ensures IsFieldEnd(s, stops, from, FieldEnd(s, stops, from))
  {
    if from < |s| && !AnyMatchAt(s, stops, from) {
      FieldEndSpec(s, stops, from + 1);
    }
  }

  /** The position where a field ends is unique. */
  lemma {:induction false} FieldEndUnique(s: string, stops: seq<string>, from: int, e1: int, e2: int)
    requires IsFieldEnd(s, stops, from, e1) && IsFieldEnd(s, stops, from, e2)
    ensures e1 == e2
  {
  }

  /** Neither end of `s` is whitespace. */
  predicate IsStripped(s: string)
  {
    s == [] || (!IsSpace(s[0]) && !IsSpace(s[|s| - 1]))
  }

  /** `r` occurs in `s` as the slice starting at position `i`. */
  predicate OccursAt(r: string, s: string, i: int)
  {
    0 <= i <= |s| - |r| && s[i..i + |r|] == r
  }

  /** `r` occurs in `s` as a contiguous slice. */
  ghost predicate IsSubstring(r: string, s: string)
  {
    exists i :: OccursAt(r, s, i)
  }

  /** The first position in `[i, j)` that is not whitespace, or `j`. */
  function SkipSpace(s: string, i: nat, j: nat): (n: nat)
    requires i <= j <= |s|
    decreases j - i
    ensures i <= n <= j
  {
    if i < j && IsSpace(s[i]) then SkipSpace(s, i + 1, j) else i
  }

  /** Everything skipped is whitespace, and the skip stops at a non-space character. */
  lemma {:induction false} SkipSpaceSpec(s: string, i: nat, j: nat)
    requires i <= j <= |s|
    decreases j - i
    ensures forall k :: i <= k < SkipSpace(s, i, j) ==> IsSpace(s[k])
    ensures SkipSpace(s, i, j) < j ==> !IsSpace(s[SkipSpace(s, i, j)])
  {
    if i < j && IsSpace(s[i]) {
      SkipSpaceSpec(s, i + 1, j);
    }
  }

  /** The end of `s[lo..j]` once its trailing whitespace is dropped. */
  function TrimEnd(s: string, lo: nat, j: nat): (n: nat)
    requires lo <= j <= |s|
    decreases j
    ensures lo <= n <= j
  {
    if lo < j && IsSpace(s[j - 1]) then TrimEnd(s, lo, j - 1) else j
  }

  /** Everything dropped is whitespace, and what is kept ends in a non-space character. */
  lemma {:induction false} TrimEndSpec(s: string, lo: nat, j: nat)
    requires lo <= j <= |s|
    decreases j
    ensures forall k :: TrimEnd(s, lo, j) <= k < j ==> IsSpace(s[k])
    ensures lo < TrimEnd(s, lo, j) ==> !IsSpace(s[TrimEnd(s, lo, j) - 1])
  {
    if lo < j && IsSpace(s[j - 1]) {
      TrimEndSpec(s, lo, j - 1);
    }
  }

  /** `s[i..j].strip()`: the parser cuts every field from its input this way. */
  function StripSlice(s: string, i: int, j: int): string
    requires 0 <= i <= j <= |s|
  {
    var a := SkipSpace(s, i, j);
    s[a..TrimEnd(s, a, j)]
  }

  /** Python's `str.strip()` with no argument. */
  function Strip(s: string): string
  {
    StripSlice(s, 0, |s|)
  }

  /** `r` is `s` with its leading and trailing whitespace removed. */
  ghost predicate IsStripOf(r: string, s: string)
  {
    exists i ::
      && OccursAt(r, s, i)
      && (forall k :: 0 <= k < i ==> IsSpace(s[k]))
      && (forall k :: i + |r| <= k < |s| ==> IsSpace(s[k]))
  }

  /** A stripped slice starts and ends with a non-space character. */
  lemma {:induction false} StripSliceStripped(s: string, i: int, j: int)
    requires 0 <= i <= j <= |s|
    ensures IsStripped(StripSlice(s, i, j))
  {
    var a := SkipSpace(s, i, j);
    var b := TrimEnd(s, a, j);
    SkipSpaceSpec(s, i, j);
    TrimEndSpec(s, a, j);
    var r := s[a..b];
    if r != [] {
      assert r[0] == s[a];
      assert r[|r| - 1] == s[b - 1];
    }
  }

  /** A stripped slice of `s` occurs in `s`. */
  lemma {:induction false} StripSliceOccurs(s: string, i: int, j: int)
    requires 0 <= i <= j <= |s|
    ensures OccursAt(StripSlice(s, i, j), s, SkipSpace(s, i, j))
  {
  }

  /** Slicing a slice is slicing the whole with shifted bounds. */
  lemma {:induction false} SliceOfSlice(s: string, i: int, j: int, a: int, b: int)
    requires 0 <= i <= a <= b <= j <= |s|
    ensures s[i..j][a - i..b - i] == s[a..b]
  {
    forall k | 0 <= k < b - a ensures s[i..j][a - i..b - i][k] == s[a..b][k] {
      assert s[i..j][a - i..b - i][k] == s[i..j][a - i + k] == s[a + k];
    }
  }

  /** A stripped slice is that slice with exactly its leading and trailing whitespace removed. */
  lemma {:induction false} StripSliceIsStripOf(s: string, i: int, j: int)
    requires 0 <= i <= j <= |s|
    ensures IsStripOf(StripSlice(s, i, j), s[i..j])
  {
    var a := SkipSpace(s, i, j);
    var b := TrimEnd(s, a, j);
    SkipSpaceSpec(s, i, j);
    TrimEndSpec(s, a, j);
    var r := StripSlice(s, i, j);
    var t := s[i..j];
    SliceOfSlice(s, i, j, a, b);
    assert OccursAt(r, t, a - i);
    forall k | 0 <= k < a - i ensures IsSpace(t[k]) {
      assert t[k] == s[i + k];
    }
    forall k | b - i <= k < |t| ensures IsSpace(t[k]) {
      assert t[k] == s[i + k];
    }
  }

  /**
   * A stripped slice of `s` is stripped, occurs in `s`, and is the slice
   * `s[i..j]` with exactly its leading and trailing whitespace removed.
   */
  lemma {:induction false} StripSliceSpec(s: string, i: int, j: int)
    requires 0 <= i <= j <= |s|
    ensures IsStripped(StripSlice(s, i, j))
    ensures IsStripOf(StripSlice(s, i, j), s[i..j])
    ensures IsSubstring(StripSlice(s, i, j), s)
  {
    StripSliceStripped(s, i, j);
    StripSliceIsStripOf(s, i, j);
    StripSliceOccurs(s, i, j);
  }

  /** Stripping removes exactly the leading and trailing whitespace. */
  lemma {:induction false} StripSpec(s: string)
    ensures IsStripped(Strip(s)) && IsStripOf(Strip(s), s)
  {
    StripSliceSpec(s, 0, |s|);
    assert s[0..|s|] == s;
  }

  /** A slice of a slice is a slice. */
  lemma {:induction false} SubstringTransitive(a: string, b: string, c: string)
    requires IsSubstring(a, b) && IsSubstring(b, c)
    ensures IsSubstring(a, c)
  {
    var i :| OccursAt(a, b, i);
    var j :| OccursAt(b, c, j);
    forall k | 0 <= k < |a| ensures c[j + i + k] == a[k] {
      assert a[k] == b[i + k] == c[j + i + k];
    }
    assert c[j + i..j + i + |a|] == a;
    assert OccursAt(a, c, j + i);
  }
}
