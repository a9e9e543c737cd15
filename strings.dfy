/** Character classes and index searches over strings, shared by the response
    parser and the API-key check. */
module Strings {
  import opened Wrappers

  /** The characters Python's `str.isspace` accepts: U+0009 to U+000D, U+001C
      to U+0020, U+0085, U+00A0, U+1680, U+2000 to U+200A, U+2028, U+2029,
      U+202F, U+205F and U+3000. Both `str.strip()` with no argument and the
      regex class `\s` of a `str` pattern use exactly this set. */
  predicate IsSpace(c: char) {
    || '\t' <= c <= '\r'
    || '\U{1C}' <= c <= ' '
    || c == '\U{85}' || c == '\U{A0}' || c == '\U{1680}'
    || '\U{2000}' <= c <= '\U{200A}'
    || c == '\U{2028}' || c == '\U{2029}' || c == '\U{202F}' || c == '\U{205F}' || c == '\U{3000}'
  }

  predicate AllSpace(s: string) {
    forall k {:trigger IsSpace(s[k])} :: 0 <= k < |s| ==> IsSpace(s[k])
  }

  predicate StartsWith(s: string, prefix: string) {
    |prefix| <= |s| && s[..|prefix|] == prefix
  }

  /** `pat` occurs in `s` starting at index `i`. */
  predicate OccursAt(s: string, pat: string, i: int) {
    0 <= i && i + |pat| <= |s| && s[i..i + |pat|] == pat
  }

  /** The leftmost occurrence of `pat` in `s` at or after index `from`. */
  function FindFrom(s: string, pat: string, from: nat): (r: Option<nat>)
    ensures r.Some? ==> from <= r.value && OccursAt(s, pat, r.value)
    ensures r.Some? ==> forall j :: from <= j < r.value ==> !OccursAt(s, pat, j)
    ensures r.None? ==> forall j :: from <= j ==> !OccursAt(s, pat, j)
    decreases |s| - from
  {
    if from + |pat| > |s| then None
    else if s[from..from + |pat|] == pat then Some(from)
    else FindFrom(s, pat, from + 1)
  }

  /** The first occurrence of `pat` in `s` starts at `i`. */
  predicate FirstOccurrence(s: string, pat: string, i: int) {
    OccursAt(s, pat, i) && forall q :: 0 <= q < i ==> !OccursAt(s, pat, q)
  }

  /** A search from `from` finds `j` when `pat` occurs at `j` and nowhere
      between. */
  lemma {:induction false} FindFromIs(s: string, pat: string, from: nat, j: nat)
    requires from <= j && OccursAt(s, pat, j)
    requires forall q :: from <= q < j ==> !OccursAt(s, pat, q)
    ensures FindFrom(s, pat, from) == Some(j)
    decreases j - from
  {
    if from < j {
      assert !OccursAt(s, pat, from);
      FindFromIs(s, pat, from + 1, j);
    }
  }

  /** The occurrence a search from the start finds is the only first one. */
  lemma FirstOccurrenceUnique(s: string, pat: string, i: nat)
    requires FindFrom(s, pat, 0) == Some(i)
    ensures forall q :: FirstOccurrence(s, pat, q) <==> q == i
  {
    forall q | FirstOccurrence(s, pat, q) ensures q == i {
      assert OccursAt(s, pat, q);
    }
  }

  /** A search from the start finds exactly the first occurrence. */
  lemma FindFromFirst(s: string, pat: string, i: int)
    ensures FindFrom(s, pat, 0) == Some(i) <==> FirstOccurrence(s, pat, i)
  {
    if FirstOccurrence(s, pat, i) {
      FindFromIs(s, pat, 0, i);
    }
  }

  /** Length of the maximal run of whitespace starting at `from`. */
  function SpaceRun(s: string, from: nat): (n: nat)
    requires from <= |s|
    ensures from + n <= |s|
    ensures forall k {:trigger IsSpace(s[k])} :: from <= k < from + n ==> IsSpace(s[k])
    ensures from + n == |s| || !IsSpace(s[from + n])
    decreases |s| - from
  {
    if from < |s| && IsSpace(s[from]) then 1 + SpaceRun(s, from + 1) else 0
  }

  /** Length of the maximal run of non-whitespace starting at `from`. */
  function WordRun(s: string, from: nat): (n: nat)
    requires from <= |s|
    ensures from + n <= |s|
    ensures forall k {:trigger IsSpace(s[k])} :: from <= k < from + n ==> !IsSpace(s[k])
    ensures from + n == |s| || IsSpace(s[from + n])
    decreases |s| - from
  {
    if from < |s| && !IsSpace(s[from]) then 1 + WordRun(s, from + 1) else 0
  }

  /** `t` without its leading whitespace. */
  function TrimStart(t: string): string
    decreases |t|
  {
    if |t| > 0 && IsSpace(t[0]) then TrimStart(t[1..]) else t
  }

  /** `TrimStart` drops a prefix of whitespace and keeps the rest from its
      first non-space character on. */
  lemma {:induction false} TrimStartSpec(t: string)
    ensures var r := TrimStart(t);
            && |r| <= |t| && r == t[|t| - |r|..]
            && (forall k {:trigger IsSpace(t[k])} :: 0 <= k < |t| - |r| ==> IsSpace(t[k]))
            && (r == [] || !IsSpace(r[0]))
    decreases |t|
  {
    if |t| > 0 && IsSpace(t[0]) {
      TrimStartSpec(t[1..]);
      var r := TrimStart(t[1..]);
      assert t[1..][|t| - 1 - |r|..] == t[|t| - |r|..];
      forall k | 0 < k < |t| - |r| ensures IsSpace(t[k]) {
        assert t[k] == t[1..][k - 1];
      }
    }
  }

  /** `t` without its trailing whitespace. */
  function TrimEnd(t: string): string
    decreases |t|
  {
    if |t| > 0 && IsSpace(t[|t| - 1]) then TrimEnd(t[..|t| - 1]) else t
  }

  /** `TrimEnd` drops a suffix of whitespace and keeps the rest up to its
      last non-space character. */
  lemma {:induction false} TrimEndSpec(t: string)
    ensures var r := TrimEnd(t);
            && |r| <= |t| && r == t[..|r|]
            && (forall k {:trigger IsSpace(t[k])} :: |r| <= k < |t| ==> IsSpace(t[k]))
            && (r == [] || !IsSpace(r[|r| - 1]))
    decreases |t|
  {
    if |t| > 0 && IsSpace(t[|t| - 1]) {
      TrimEndSpec(t[..|t| - 1]);
      var r := TrimEnd(t[..|t| - 1]);
      assert t[..|t| - 1][..|r|] == t[..|r|];
      forall k | |r| <= k < |t| - 1 ensures IsSpace(t[k]) {
        assert t[k] == t[..|t| - 1][k];
      }
    }
  }

  /** `r` is the slice of `t` at `a` with only whitespace around it. */
  predicate TrimmedAt(t: string, a: int, r: string) {
    && 0 <= a <= |t| - |r| && r == t[a..a + |r|]
    && (forall k {:trigger IsSpace(t[k])} :: 0 <= k < a ==> IsSpace(t[k]))
    && (forall k {:trigger IsSpace(t[k])} :: a + |r| <= k < |t| ==> IsSpace(t[k]))
  }

  /** Python's `str.strip()`: `t` without leading and trailing whitespace. */
  function Strip(t: string): string {
    TrimEnd(TrimStart(t))
  }

  /** What `Strip` keeps is empty exactly for an all-whitespace argument, and
      otherwise begins and ends with a non-space character. */
  lemma StripSpec(t: string)
    ensures var r := Strip(t);
            && |r| <= |t|
            && (r == [] || (!IsSpace(r[0]) && !IsSpace(r[|r| - 1])))
            && (r == [] <==> AllSpace(t))
  {
    var u := TrimStart(t);
    TrimStartSpec(t);
    TrimEndSpec(u);
    var r := TrimEnd(u);
    if r != [] {
      assert r[0] == u[0];
      assert !IsSpace(t[|t| - |u|]);
    } else {
      assert |u| == 0;
    }
  }

  /** What `Strip` keeps is the slice of its argument after the leading
      whitespace, with only whitespace after it. */
  lemma StripIsTrimmed(t: string)
    ensures TrimmedAt(t, |t| - |TrimStart(t)|, Strip(t))
  {
    var u := TrimStart(t);
    TrimStartSpec(t);
    TrimEndSpec(u);
    TrimmedSlice(t, |t| - |u|, u, TrimEnd(u));
  }

  /** Trimming the end of a suffix `u` of `t` leaves a trimmed slice of `t`. */
  lemma TrimmedSlice(t: string, a: nat, u: string, r: string)
    requires a <= |t| && u == t[a..]
    requires forall k {:trigger IsSpace(t[k])} :: 0 <= k < a ==> IsSpace(t[k])
    requires |r| <= |u| && r == u[..|r|]
    requires forall k {:trigger IsSpace(u[k])} :: |r| <= k < |u| ==> IsSpace(u[k])
    ensures TrimmedAt(t, a, r)
  {
    assert r == t[a..a + |r|];
    forall k | a + |r| <= k < |t| ensures IsSpace(t[k]) {
      assert t[k] == u[k - a];
    }
  }

  /** A slice holding a non-space character does not strip to nothing. */
  lemma StripNonEmpty(s: string, a: nat, w: nat, b: nat)
    requires a <= w < b <= |s| && !IsSpace(s[w])
    ensures Strip(s[a..b]) != ""
  {
    StripSpec(s[a..b]);
    assert s[a..b][w - a] == s[w];
  }

  /** Leading whitespace does not change what `TrimStart` keeps. */
  lemma {:induction false} TrimStartSkipsSpace(t: string, k: nat)
    requires k <= |t|
    requires forall q {:trigger IsSpace(t[q])} :: 0 <= q < k ==> IsSpace(t[q])
    ensures TrimStart(t[k..]) == TrimStart(t)
  {
    if k > 0 {
      assert t[1..][k - 1..] == t[k..];
      TrimStartSkipsSpace(t[1..], k - 1);
    }
  }

  /** Whitespace that `\s*` consumed in front of a group does not change what
      `Strip` keeps of it. */
  lemma StripSkipsSpace(s: string, p: nat, w: nat, j: nat)
    requires p + w <= j <= |s|
    requires forall q {:trigger IsSpace(s[q])} :: p <= q < p + w ==> IsSpace(s[q])
    ensures Strip(s[p + w..j]) == Strip(s[p..j])
  {
    var t := s[p..j];
    assert t[w..] == s[p + w..j];
    forall q | 0 <= q < w ensures IsSpace(t[q]) {
      assert t[q] == s[p + q];
    }
    TrimStartSkipsSpace(t, w);
  }
}
