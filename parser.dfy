/** `parse_response`: extraction of a subject, a content block and the first
    `https://` link from the agent's final answer by three regular-expression
    searches. Each search is modelled as the regex engine runs it (leftmost
    start, greedy `\s*` that backtracks, lazy `.+?` or greedy `.+`), and each is
    proved equal to a plain description of what it finds. */
module ResponseParser {
  import opened Wrappers
  import opened Strings

  const SubjectMarker: string := "Subject:"
  const ContentMarker: string := "Content:"
  /** The lookahead that ends the subject. */
  const SubjectEnd: string := "\n\nContent:"
  const UrlScheme: string := "https://"
  const TimePrefix: string := "Updated on: "

  /** The dictionary `parse_response` returns. */
  datatype Parsed = Parsed(time: string, subject: string, content: string, url: string)

  // ---------------------------------------------------------------------------
  // Subject: r'Subject:\s*(.+?)(?=\n\nContent:)' with re.DOTALL

  /** The lazy group `(.+?)(?=\n\nContent:)` once `\s*` has taken `k` characters
      after `p`; `k` is tried from the greedy maximum down to zero. The group
      ends at the first position, one character on or more, where the
      lookahead holds. */
  function SubjectGroup(s: string, p: nat, k: nat): (g: Option<(nat, nat)>)
    requires p + k <= |s|
    ensures g.Some? ==> p <= g.value.0 <= p + k && g.value.0 < g.value.1
    ensures g.Some? ==> OccursAt(s, SubjectEnd, g.value.1)
    ensures g.Some? ==> forall q :: g.value.0 < q < g.value.1 ==> !OccursAt(s, SubjectEnd, q)
    ensures g.None? ==> forall q :: p < q ==> !OccursAt(s, SubjectEnd, q)
    decreases k
  {
    match FindFrom(s, SubjectEnd, p + k + 1)
    case Some(j) => Some((p + k, j))
    case None => if k == 0 then None else SubjectGroup(s, p, k - 1)
  }

  /** The subject pattern tried at start position `i`: the bounds of group 1. */
  function SubjectAt(s: string, i: nat): (g: Option<(nat, nat)>)
    ensures g.Some? ==> OccursAt(s, SubjectMarker, i)
    ensures g.Some? ==> i + |SubjectMarker| <= g.value.0 < g.value.1 && OccursAt(s, SubjectEnd, g.value.1)
    ensures g.None? && OccursAt(s, SubjectMarker, i) ==>
              forall q :: i + |SubjectMarker| < q ==> !OccursAt(s, SubjectEnd, q)
  {
    if OccursAt(s, SubjectMarker, i) then
      var p := i + |SubjectMarker|;
      SubjectGroup(s, p, SpaceRun(s, p))
    else None
  }

  /** `re.search(subject_pattern, text, re.DOTALL)`: the leftmost start at or after `i` where the pattern matches. */
  function SubjectSearch(s: string, i: nat): (r: Option<nat>)
    ensures r.Some? ==> i <= r.value <= |s| && SubjectAt(s, r.value).Some?
    ensures r.Some? ==> forall j :: i <= j < r.value ==> SubjectAt(s, j).None?
    ensures r.None? ==> forall j :: i <= j <= |s| ==> SubjectAt(s, j).None?
    decreases |s| + 1 - i
  {
    if i > |s| then None
    else if SubjectAt(s, i).Some? then Some(i)
    else SubjectSearch(s, i + 1)
  }

  /** The bounds of group 1 of `re.search(subject_pattern, text, re.DOTALL)`. */
  function SubjectSpan(s: string): (g: Option<(nat, nat)>)
    ensures g.Some? ==> g.value.0 < g.value.1 <= |s|
  {
    match SubjectSearch(s, 0)
    case Some(i) => SubjectAt(s, i)
    case None => None
  }

  /** The stripped text of a span, or "" without one. */
  function SubjectOf(s: string, g: Option<(nat, nat)>): string
    requires g.Some? ==> g.value.0 <= g.value.1 <= |s|
  {
    match g
    case Some(g) => Strip(s[g.0..g.1])
    case None => ""
  }

  /** `subject_match.group(1).strip() if subject_match else ""`. */
  function Subject(s: string): string {
    SubjectOf(s, SubjectSpan(s))
  }

  /** The span that follows a marker ending at `p`, stated without the regex
      engine: from the first non-space character after `p` up to the first
      `\n\nContent:` that starts after that character. */
  function SubjectSpanAfter(s: string, p: nat): (g: Option<(nat, nat)>)
    requires p <= |s|
    ensures g.Some? ==> p <= g.value.0 < g.value.1 <= |s|
  {
    var w := p + SpaceRun(s, p);
    match FindFrom(s, SubjectEnd, w + 1)
    case None => None
    case Some(j) => Some((w, j))
  }

  /** The reference span: the one after the first `Subject:`. */
  function SubjectSpanRef(s: string): (g: Option<(nat, nat)>)
    ensures g.Some? ==> g.value.0 < g.value.1 <= |s|
  {
    match FindFrom(s, SubjectMarker, 0)
    case None => None
    case Some(i) => SubjectSpanAfter(s, i + |SubjectMarker|)
  }

  /** The subject as the reference span describes it, stripped. */
  function SubjectRef(s: string): string {
    SubjectOf(s, SubjectSpanRef(s))
  }

  /** When a `\n\nContent:` follows the first non-space character, the search
      keeps the maximal `\s*` and the group is the reference span. */
  lemma SubjectGroupAtBreak(s: string, p: nat)
    requires p <= |s| && SubjectSpanAfter(s, p).Some?
    ensures SubjectGroup(s, p, SpaceRun(s, p)) == SubjectSpanAfter(s, p)
  {
  }

  /** Otherwise whatever group the backtracking finds lies inside the run of
      whitespace after the marker. */
  lemma SubjectGroupBlank(s: string, p: nat)
    requires p <= |s| && SubjectSpanAfter(s, p).None?
    requires SubjectGroup(s, p, SpaceRun(s, p)).Some?
    ensures var g := SubjectGroup(s, p, SpaceRun(s, p)).value;
            g.1 <= p + SpaceRun(s, p) && forall q {:trigger IsSpace(s[q])} :: g.0 <= q < g.1 ==> IsSpace(s[q])
  {
    assert FindFrom(s, SubjectEnd, p + SpaceRun(s, p) + 1).None?;
  }

  /** A span of whitespace gives the empty subject. */
  lemma SubjectOfBlank(s: string, g: (nat, nat))
    requires g.0 <= g.1 <= |s|
    requires forall q {:trigger IsSpace(s[q])} :: g.0 <= q < g.1 ==> IsSpace(s[q])
    ensures SubjectOf(s, Some(g)) == ""
  {
    forall k | 0 <= k < g.1 - g.0 ensures IsSpace(s[g.0..g.1][k]) {
      assert s[g.0..g.1][k] == s[g.0 + k];
    }
    StripSpec(s[g.0..g.1]);
  }

  /** The regex search and its reference description give the same subject. */
  lemma SubjectMatchesRef(s: string)
    ensures Subject(s) == SubjectRef(s)
  {
    match FindFrom(s, SubjectMarker, 0)
    case None =>
      SubjectSearchNone(s);
    case Some(i0) =>
      if SubjectSpanAfter(s, i0 + |SubjectMarker|).Some? {
        SubjectBreakSpan(s, i0);
      } else {
        SubjectAtBlank(s, i0);
      }
  }

  /** Case of `SubjectMatchesRef`: a break follows the first non-space
      character, and both searches find the same span. */
  lemma SubjectBreakSpan(s: string, i0: nat)
    requires FindFrom(s, SubjectMarker, 0) == Some(i0)
    requires SubjectSpanAfter(s, i0 + |SubjectMarker|).Some?
    ensures SubjectSpan(s) == SubjectSpanRef(s)
  {
    var p := i0 + |SubjectMarker|;
    SubjectGroupAtBreak(s, p);
    SubjectAtGroup(s, i0);
    SubjectSearchFirst(s, i0);
    SubjectSpanIs(s, i0);
  }

  /** Case of `SubjectMatchesRef`: only whitespace precedes every break. */
  lemma SubjectAtBlank(s: string, i0: nat)
    requires FindFrom(s, SubjectMarker, 0) == Some(i0)
    requires SubjectSpanAfter(s, i0 + |SubjectMarker|).None?
    ensures Subject(s) == SubjectRef(s) == ""
  {
    var p := i0 + |SubjectMarker|;
    if SubjectAt(s, i0).Some? {
      var g := SubjectAt(s, i0).value;
      SubjectAtGroup(s, i0);
      SubjectGroupBlank(s, p);
      SubjectOfBlank(s, g);
      SubjectSearchFirst(s, i0);
      SubjectSpanIs(s, i0);
    } else {
      SubjectSearchFails(s, i0);
    }
  }

  // The lemmas from here to the content section each take one step of the
  // proofs above, so that each proof sees only the definitions it needs.

  lemma SubjectAtGroup(s: string, i0: nat)
    requires OccursAt(s, SubjectMarker, i0)
    ensures SubjectAt(s, i0) == SubjectGroup(s, i0 + |SubjectMarker|, SpaceRun(s, i0 + |SubjectMarker|))
  {
  }

  lemma SubjectSpanIs(s: string, i0: nat)
    requires SubjectSearch(s, 0) == Some(i0)
    ensures SubjectSpan(s) == SubjectAt(s, i0)
  {
  }

  /** Without a `Subject:` neither search finds a span. */
  lemma SubjectSearchNone(s: string)
    requires FindFrom(s, SubjectMarker, 0).None?
    ensures SubjectSpan(s) == SubjectSpanRef(s) == None
  {
    SubjectNoStart(s);
  }

  lemma SubjectNoStart(s: string)
    requires FindFrom(s, SubjectMarker, 0).None?
    ensures SubjectSearch(s, 0).None?
  {
    assert forall j: nat :: SubjectAt(s, j).None?;
  }

  /** The search stops at the first `Subject:` when the pattern matches there. */
  lemma SubjectSearchFirst(s: string, i0: nat)
    requires FindFrom(s, SubjectMarker, 0) == Some(i0)
    requires SubjectAt(s, i0).Some?
    ensures SubjectSearch(s, 0) == Some(i0)
  {
    SubjectNoneBefore(s, i0);
    SubjectSearchAt(s, i0);
  }

  lemma SubjectNoneBefore(s: string, i0: nat)
    requires FindFrom(s, SubjectMarker, 0) == Some(i0)
    ensures forall j: nat :: j < i0 ==> SubjectAt(s, j).None?
  {
  }

  lemma SubjectSearchAt(s: string, i0: nat)
    requires SubjectAt(s, i0).Some?
    requires forall j: nat :: j < i0 ==> SubjectAt(s, j).None?
    ensures SubjectSearch(s, 0) == Some(i0)
  {
  }

  /** A first `Subject:` with no break after it leaves no later start either. */
  lemma SubjectSearchFails(s: string, i0: nat)
    requires FindFrom(s, SubjectMarker, 0) == Some(i0)
    requires SubjectAt(s, i0).None?
    ensures SubjectSpan(s).None?
  {
    SubjectNoneBefore(s, i0);
    SubjectNoneAfter(s, i0);
    SubjectSearchEmpty(s);
  }

  lemma SubjectSearchEmpty(s: string)
    requires forall j: nat :: SubjectAt(s, j).None?
    ensures SubjectSearch(s, 0).None?
  {
    assert forall j: nat :: SubjectAt(s, j).None?;
  }

  lemma SubjectNoneAfter(s: string, i0: nat)
    requires OccursAt(s, SubjectMarker, i0) && SubjectAt(s, i0).None?
    ensures forall j: nat :: i0 <= j ==> SubjectAt(s, j).None?
  {
  }

  // ---------------------------------------------------------------------------
  // Content: r'Content:\s*(.+)' with re.DOTALL

  /** The greedy group `(.+)` once `\s*` has taken `k` characters after `p`
      (tried from the greedy maximum down): it starts where `\s*` stopped if one
      character is left to take, and runs to the end of the text. */
  function ContentGroup(s: string, p: nat, k: nat): (g: Option<nat>)
    requires p + k <= |s|
    ensures g.Some? <==> p < |s|
    ensures g.Some? ==> p <= g.value <= p + k && g.value < |s|
    decreases k
  {
    if p + k < |s| then Some(p + k)
    else if k == 0 then None
    else ContentGroup(s, p, k - 1)
  }

  /** The content pattern tried at start position `i`: where group 1 starts. */
  function ContentAt(s: string, i: nat): (g: Option<nat>)
    ensures g.Some? <==> OccursAt(s, ContentMarker, i) && i + |ContentMarker| < |s|
    ensures g.Some? ==> i + |ContentMarker| <= g.value < |s|
    ensures g.Some? ==> forall q {:trigger IsSpace(s[q])} :: i + |ContentMarker| <= q < g.value ==> IsSpace(s[q])
  {
    if OccursAt(s, ContentMarker, i) then
      var p := i + |ContentMarker|;
      ContentGroup(s, p, SpaceRun(s, p))
    else None
  }

  /** `re.search(content_pattern, text, re.DOTALL)`: the leftmost start at or after `i` where the pattern matches. */
  function ContentSearch(s: string, i: nat): (r: Option<nat>)
    ensures r.Some? ==> i <= r.value <= |s| && ContentAt(s, r.value).Some?
    ensures r.Some? ==> forall j :: i <= j < r.value ==> ContentAt(s, j).None?
    ensures r.None? ==> forall j :: i <= j <= |s| ==> ContentAt(s, j).None?
    decreases |s| + 1 - i
  {
    if i > |s| then None
    else if ContentAt(s, i).Some? then Some(i)
    else ContentSearch(s, i + 1)
  }

  /** Where group 1 of `re.search(content_pattern, text, re.DOTALL)` starts. */
  function ContentStart(s: string): (g: Option<nat>)
    ensures g.Some? ==> g.value <= |s|
  {
    match ContentSearch(s, 0)
    case Some(i) => ContentAt(s, i)
    case None => None
  }

  /** The stripped text from `g` on, or the whole text, unchanged, without a
      start. */
  function ContentOf(s: string, g: Option<nat>): string
    requires g.Some? ==> g.value <= |s|
  {
    match g
    case Some(g) => Strip(s[g..])
    case None => s
  }

  /** `content_match.group(1).strip() if content_match else text`. */
  function Content(s: string): string {
    ContentOf(s, ContentStart(s))
  }

  /** What the content search finds, stated without the regex engine: the
      remainder starts right after the first `Content:`, when at least one
      character follows that marker. */
  function ContentStartRef(s: string): (g: Option<nat>)
    ensures g.Some? ==> g.value <= |s|
  {
    match FindFrom(s, ContentMarker, 0)
    case Some(i) => if i + |ContentMarker| < |s| then Some(i + |ContentMarker|) else None
    case None => None
  }

  /** The content as the reference start describes it: the stripped remainder,
      or else the whole text, unchanged. */
  function ContentRef(s: string): string {
    ContentOf(s, ContentStartRef(s))
  }

  /** The regex search and its reference description give the same content. */
  lemma ContentMatchesRef(s: string)
    ensures Content(s) == ContentRef(s)
  {
    match FindFrom(s, ContentMarker, 0)
    case None =>
      ContentNoStart(s);
    case Some(i0) =>
      if i0 + |ContentMarker| < |s| {
        ContentAtFirst(s, i0);
      } else {
        ContentAtEnd(s, i0);
      }
  }

  /** Without a `Content:` neither search finds a start. */
  lemma ContentNoStart(s: string)
    requires FindFrom(s, ContentMarker, 0).None?
    ensures ContentStart(s) == ContentStartRef(s) == None
  {
    assert forall j: nat :: ContentAt(s, j).None?;
  }

  /** Case of `ContentMatchesRef`: text follows the first `Content:`. */
  lemma ContentAtFirst(s: string, i0: nat)
    requires FindFrom(s, ContentMarker, 0) == Some(i0)
    requires i0 + |ContentMarker| < |s|
    ensures Content(s) == ContentRef(s)
  {
    var p := i0 + |ContentMarker|;
    ContentSearchFirst(s, i0);
    var g := ContentAt(s, i0).value;
    ContentStartIs(s, i0);
    ContentOfShift(s, p, g);
  }

  // The lemmas from here to `ContentAtEnd` each take one step of the proofs
  // above, so that each proof sees only the definitions it needs.

  lemma ContentStartIs(s: string, i0: nat)
    requires ContentSearch(s, 0) == Some(i0)
    ensures ContentStart(s) == ContentAt(s, i0)
  {
  }

  lemma ContentSearchFirst(s: string, i0: nat)
    requires FindFrom(s, ContentMarker, 0) == Some(i0)
    requires i0 + |ContentMarker| < |s|
    ensures ContentSearch(s, 0) == Some(i0)
    ensures ContentStartRef(s) == Some(i0 + |ContentMarker|)
  {
    ContentAtFirstMarker(s, i0);
    ContentNoneBefore(s, i0);
    ContentSearchAt(s, i0);
  }

  lemma ContentAtFirstMarker(s: string, i0: nat)
    requires FindFrom(s, ContentMarker, 0) == Some(i0)
    requires i0 + |ContentMarker| < |s|
    ensures ContentAt(s, i0).Some?
  {
  }

  lemma ContentNoneBefore(s: string, i0: nat)
    requires FindFrom(s, ContentMarker, 0) == Some(i0)
    ensures forall j: nat :: j < i0 ==> ContentAt(s, j).None?
  {
  }

  lemma ContentSearchAt(s: string, i0: nat)
    requires ContentAt(s, i0).Some?
    requires forall j: nat :: j < i0 ==> ContentAt(s, j).None?
    ensures ContentSearch(s, 0) == Some(i0)
  {
  }

  /** Whitespace in front of a start does not change its content. */
  lemma ContentOfShift(s: string, p: nat, g: nat)
    requires p <= g <= |s|
    requires forall q {:trigger IsSpace(s[q])} :: p <= q < g ==> IsSpace(s[q])
    ensures ContentOf(s, Some(g)) == ContentOf(s, Some(p))
  {
    assert s[g..] == s[p + (g - p)..|s|];
    assert s[p..] == s[p..|s|];
    StripSkipsSpace(s, p, g - p, |s|);
  }

  /** Case of `ContentMatchesRef`: the first `Content:` ends the text. */
  lemma ContentAtEnd(s: string, i0: nat)
    requires FindFrom(s, ContentMarker, 0) == Some(i0)
    requires i0 + |ContentMarker| >= |s|
    ensures ContentStart(s) == ContentStartRef(s) == None
  {
    assert forall j: nat :: ContentAt(s, j).None?;
  }

  // ---------------------------------------------------------------------------
  // URL: r'(https://[^\s]+)'

  /** A link starts at `i`: `https://` followed by a non-space character. */
  predicate UrlStartsAt(s: string, i: int) {
    OccursAt(s, UrlScheme, i) && i + |UrlScheme| < |s| && !IsSpace(s[i + |UrlScheme|])
  }

  /** The URL pattern tried at start position `i`: where the greedy
      `[^\s]+` stops. */
  function UrlAt(s: string, i: nat): (e: Option<nat>)
    ensures e.Some? <==> UrlStartsAt(s, i)
    ensures e.Some? ==> i + |UrlScheme| < e.value <= |s|
    ensures e.Some? ==> forall q {:trigger IsSpace(s[q])} :: i + |UrlScheme| <= q < e.value ==> !IsSpace(s[q])
    ensures e.Some? ==> e.value == |s| || IsSpace(s[e.value])
  {
    if UrlStartsAt(s, i) then
      var p := i + |UrlScheme|;
      Some(p + WordRun(s, p))
    else None
  }

  /** `re.search(r'(https://[^\s]+)', text)`: the leftmost start at or after `i` where the pattern matches. */
  function UrlSearch(s: string, i: nat): (r: Option<nat>)
    ensures r.Some? ==> i <= r.value <= |s| && UrlAt(s, r.value).Some?
    ensures r.Some? ==> forall j :: i <= j < r.value ==> UrlAt(s, j).None?
    ensures r.None? ==> forall j :: i <= j <= |s| ==> UrlAt(s, j).None?
    decreases |s| + 1 - i
  {
    if i > |s| then None
    else if UrlAt(s, i).Some? then Some(i)
    else UrlSearch(s, i + 1)
  }

  /** `re.search(r'(https://[^\s]+)', text).group(1)`, or "" without a match. */
  function Url(s: string): string {
    match UrlSearch(s, 0)
    case Some(i) => s[i..UrlAt(s, i).value]
    case None => ""
  }

  /** `u` is the link token at `i`: it makes up `s` from `i`, begins with
      `https://`, holds no whitespace and is followed by whitespace or the end. */
  predicate IsUrlToken(s: string, i: nat, u: string) {
    && i + |u| <= |s| && s[i..i + |u|] == u
    && StartsWith(u, UrlScheme) && |UrlScheme| < |u|
    && (forall k {:trigger IsSpace(u[k])} :: 0 <= k < |u| ==> !IsSpace(u[k]))
    && (i + |u| == |s| || IsSpace(s[i + |u|]))
  }

  /** The text matched at a link start is a link token. */
  lemma UrlAtIsToken(s: string, i: nat)
    requires UrlStartsAt(s, i)
    ensures IsUrlToken(s, i, s[i..UrlAt(s, i).value])
  {
    var e := UrlAt(s, i).value;
    var u := s[i..e];
    assert u[..|UrlScheme|] == s[i..i + |UrlScheme|];
    forall k | 0 <= k < |u| ensures !IsSpace(u[k]) {
      if k < |UrlScheme| {
        assert u[k] == UrlScheme[k];
      } else {
        assert u[k] == s[i + k];
      }
    }
  }

  lemma UrlFound(s: string)
    ensures Url(s) == "" <==> forall i :: !UrlStartsAt(s, i)
    ensures Url(s) != "" ==>
              exists i: nat :: UrlStartsAt(s, i) && (forall j :: 0 <= j < i ==> !UrlStartsAt(s, j))
                               && IsUrlToken(s, i, Url(s))
  {
    match UrlSearch(s, 0)
    case Some(i) => UrlFoundAt(s, i);
    case None => UrlNotFound(s);
  }

  /** Case of `UrlFound`: the search succeeds at `i`. */
  lemma UrlFoundAt(s: string, i: nat)
    requires UrlSearch(s, 0) == Some(i)
    ensures UrlStartsAt(s, i) && (forall j :: 0 <= j < i ==> !UrlStartsAt(s, j))
    ensures Url(s) == s[i..UrlAt(s, i).value] && IsUrlToken(s, i, Url(s)) && Url(s) != ""
  {
    assert UrlAt(s, i).Some?;
    forall j | 0 <= j < i ensures !UrlStartsAt(s, j) {
      assert UrlAt(s, j).None?;
    }
    UrlAtIsToken(s, i);
  }

  /** Case of `UrlFound`: the search fails. */
  lemma UrlNotFound(s: string)
    requires UrlSearch(s, 0).None?
    ensures Url(s) == "" && forall i :: !UrlStartsAt(s, i)
  {
    forall i | 0 <= i <= |s| ensures !UrlStartsAt(s, i) {
      assert UrlAt(s, i).None?;
    }
  }

  // ---------------------------------------------------------------------------
  // parse_response

  /** `parse_response(text)`, with the formatted wall-clock time passed in. */
  function ParseResponse(text: string, now: string): (r: Parsed)
    ensures r.time == TimePrefix + now
    ensures r.subject == SubjectRef(text)
    ensures r.content == ContentRef(text)
    ensures r.url == "" <==> forall i :: !UrlStartsAt(text, i)
    ensures r.url != "" ==>
              exists i: nat :: UrlStartsAt(text, i) && (forall j :: 0 <= j < i ==> !UrlStartsAt(text, j))
                               && IsUrlToken(text, i, r.url)
  {
    SubjectMatchesRef(text);
    ContentMatchesRef(text);
    UrlFound(text);
    Parsed(TimePrefix + now, Subject(text), Content(text), Url(text))
  }

  // ---------------------------------------------------------------------------
  // What parse_response finds, stated over occurrences of the markers

  /** Without a `Subject:` marker the subject is empty. */
  lemma NoSubjectMarker(text: string)
    requires forall i :: !OccursAt(text, SubjectMarker, i)
    ensures SubjectRef(text) == ""
  {
    assert FindFrom(text, SubjectMarker, 0).None?;
  }

  /** The subject is the stripped text from the first `Subject:` to the next
      `\n\nContent:`, when some non-space character lies between them (it is
      then non-empty, by `SubjectNonEmptyIff`). */
  lemma SubjectBetweenMarkers(text: string, i: nat, w: nat, j: nat)
    requires FirstOccurrence(text, SubjectMarker, i) && OccursAt(text, SubjectEnd, j)
    requires i + |SubjectMarker| <= w < j && !IsSpace(text[w])
    requires forall q :: i + |SubjectMarker| <= q < j ==> !OccursAt(text, SubjectEnd, q)
    ensures SubjectRef(text) == Strip(text[i + |SubjectMarker|..j])
  {
    var p := i + |SubjectMarker|;
    SubjectBreakFound(text, i, w, j);
    SubjectSpanRefAt(text, i, j);
    SubjectRefBetween(text, p, p + SpaceRun(text, p), j);
  }

  /** Both searches find the given markers. */
  lemma SubjectBreakFound(text: string, i: nat, w: nat, j: nat)
    requires FirstOccurrence(text, SubjectMarker, i) && OccursAt(text, SubjectEnd, j)
    requires i + |SubjectMarker| <= w < j && !IsSpace(text[w])
    requires forall q :: i + |SubjectMarker| <= q < j ==> !OccursAt(text, SubjectEnd, q)
    ensures FindFrom(text, SubjectMarker, 0) == Some(i)
    ensures FindFrom(text, SubjectEnd, i + |SubjectMarker| + SpaceRun(text, i + |SubjectMarker|) + 1) == Some(j)
  {
    var p := i + |SubjectMarker|;
    var n := SpaceRun(text, p);
    assert p + n <= w;
    FindFromIs(text, SubjectEnd, p + n + 1, j);
    FindFromIs(text, SubjectMarker, 0, i);
  }

  /** When the group starts after whitespace that follows `p`, the subject is
      the stripped text from `p` to the break. */
  lemma SubjectRefBetween(text: string, p: nat, b: nat, j: nat)
    requires SubjectSpanRef(text) == Some((b, j))
    requires p <= b <= j <= |text|
    requires forall q {:trigger IsSpace(text[q])} :: p <= q < b ==> IsSpace(text[q])
    ensures SubjectRef(text) == Strip(text[p..j])
  {
    SubjectOfShift(text, p, b, j);
  }

  /** Whitespace in front of a span does not change its subject. */
  lemma SubjectOfShift(text: string, a: nat, b: nat, j: nat)
    requires a <= b <= j <= |text|
    requires forall q {:trigger IsSpace(text[q])} :: a <= q < b ==> IsSpace(text[q])
    ensures SubjectOf(text, Some((b, j))) == SubjectOf(text, Some((a, j)))
  {
    StripSkipsSpace(text, a, b - a, j);
  }

  /** A span holding a non-space character has a non-empty subject. */
  lemma SubjectOfNonEmpty(text: string, g: (nat, nat), w: nat)
    requires g.0 <= w < g.1 <= |text| && !IsSpace(text[w])
    ensures SubjectOf(text, Some(g)) != ""
  {
    StripNonEmpty(text, g.0, w, g.1);
  }

  // `SubjectSpanRefAt`, `SubjectSpanAfterIs` and `SubjectSpanRefIs` unfold one
  // definition each, so that the proofs above see only the definitions they need.

  lemma SubjectSpanRefAt(text: string, i: nat, j: nat)
    requires FindFrom(text, SubjectMarker, 0) == Some(i)
    requires FindFrom(text, SubjectEnd, i + |SubjectMarker| + SpaceRun(text, i + |SubjectMarker|) + 1) == Some(j)
    ensures SubjectSpanRef(text) == Some((i + |SubjectMarker| + SpaceRun(text, i + |SubjectMarker|), j))
  {
    SubjectSpanAfterIs(text, i + |SubjectMarker|, j);
    SubjectSpanRefIs(text, i, Some((i + |SubjectMarker| + SpaceRun(text, i + |SubjectMarker|), j)));
  }

  lemma SubjectSpanAfterIs(text: string, p: nat, j: nat)
    requires p <= |text|
    requires FindFrom(text, SubjectEnd, p + SpaceRun(text, p) + 1) == Some(j)
    ensures SubjectSpanAfter(text, p) == Some((p + SpaceRun(text, p), j))
  {
  }

  lemma SubjectSpanRefIs(text: string, i: nat, g: Option<(nat, nat)>)
    requires FindFrom(text, SubjectMarker, 0) == Some(i)
    requires SubjectSpanAfter(text, i + |SubjectMarker|) == g
    ensures SubjectSpanRef(text) == g
  {
  }

  /** The subject is non-empty exactly when a `\n\nContent:` comes after
      some non-space character that follows the first `Subject:`. */
  lemma SubjectNonEmptyIff(text: string)
    ensures SubjectRef(text) != "" <==> SubjectWitnessed(text)
  {
    match FindFrom(text, SubjectMarker, 0)
    case None => SubjectUnwitnessed(text);
    case Some(i) => SubjectWitnessedAt(text, i);
  }

  lemma SubjectUnwitnessed(text: string)
    requires FindFrom(text, SubjectMarker, 0).None?
    ensures SubjectRef(text) == "" && !SubjectWitnessed(text)
  {
    assert SubjectSpanRef(text).None?;
    assert forall i :: !FirstOccurrence(text, SubjectMarker, i);
  }

  lemma SubjectWitnessedAt(text: string, i: nat)
    requires FindFrom(text, SubjectMarker, 0) == Some(i)
    ensures SubjectRef(text) != "" <==> SubjectWitnessed(text)
  {
    SubjectAfterMarker(text, i);
    WitnessedAfter(text, i);
  }

  lemma WitnessedAfter(text: string, i: nat)
    requires FindFrom(text, SubjectMarker, 0) == Some(i)
    ensures SubjectWitnessed(text) <==> BreakAfter(text, i)
  {
    FirstOccurrenceUnique(text, SubjectMarker, i);
    if SubjectWitnessed(text) {
      var i', j, w :| && FirstOccurrence(text, SubjectMarker, i') && OccursAt(text, SubjectEnd, j)
                      && i' + |SubjectMarker| <= w < j && !IsSpace(text[w]);
      assert i' == i;
    }
    if BreakAfter(text, i) {
      var j, w :| OccursAt(text, SubjectEnd, j) && i + |SubjectMarker| <= w < j && !IsSpace(text[w]);
      assert FirstOccurrence(text, SubjectMarker, i);
    }
  }

  /** Some non-space character after the first `Subject:` is followed by a
      `\n\nContent:`. */
  ghost predicate SubjectWitnessed(text: string) {
    exists i, j, w :: && FirstOccurrence(text, SubjectMarker, i) && OccursAt(text, SubjectEnd, j)
                      && i + |SubjectMarker| <= w < j && !IsSpace(text[w])
  }

  /** Some non-space character after the marker at `i` is followed by a
      `\n\nContent:`. */
  ghost predicate BreakAfter(text: string, i: nat) {
    exists j, w :: && OccursAt(text, SubjectEnd, j)
                   && i + |SubjectMarker| <= w < j && !IsSpace(text[w])
  }

  /** Case of `SubjectNonEmptyIff`: the first `Subject:` is at `i`. */
  lemma SubjectAfterMarker(text: string, i: nat)
    requires FindFrom(text, SubjectMarker, 0) == Some(i)
    ensures SubjectRef(text) != "" <==> BreakAfter(text, i)
  {
    var p := i + |SubjectMarker|;
    match FindFrom(text, SubjectEnd, p + SpaceRun(text, p) + 1)
    case Some(j) => SubjectBreakWitness(text, i, j);
    case None => SubjectNoBreak(text, i);
  }

  /** A break after the first non-space character witnesses a non-empty subject. */
  lemma SubjectBreakWitness(text: string, i: nat, j: nat)
    requires FindFrom(text, SubjectMarker, 0) == Some(i)
    requires FindFrom(text, SubjectEnd, i + |SubjectMarker| + SpaceRun(text, i + |SubjectMarker|) + 1) == Some(j)
    ensures SubjectRef(text) != "" && BreakAfter(text, i)
  {
    var w := i + |SubjectMarker| + SpaceRun(text, i + |SubjectMarker|);
    SubjectSpanRefAt(text, i, j);
    SubjectOfNonEmpty(text, (w, j), w);
    assert OccursAt(text, SubjectEnd, j) && i + |SubjectMarker| <= w < j && !IsSpace(text[w]);
  }

  /** Without such a break the subject is empty and every break has only
      whitespace between the marker and itself. */
  lemma SubjectNoBreak(text: string, i: nat)
    requires FindFrom(text, SubjectMarker, 0) == Some(i)
    requires FindFrom(text, SubjectEnd, i + |SubjectMarker| + SpaceRun(text, i + |SubjectMarker|) + 1).None?
    ensures SubjectRef(text) == "" && !BreakAfter(text, i)
  {
    var p := i + |SubjectMarker|;
    var n := SpaceRun(text, p);
    assert SubjectSpanRef(text).None?;
    forall j, w | OccursAt(text, SubjectEnd, j) && p <= w < j
      ensures IsSpace(text[w])
    {
      assert j <= p + n;
    }
  }

  /** The content is the stripped remainder after the first `Content:`, when
      at least one character follows that marker. */
  lemma ContentAfterMarker(text: string, i: nat)
    requires FirstOccurrence(text, ContentMarker, i) && i + |ContentMarker| < |text|
    ensures ContentRef(text) == Strip(text[i + |ContentMarker|..])
  {
    FindFromIs(text, ContentMarker, 0, i);
    assert ContentStartRef(text) == Some(i + |ContentMarker|);
  }

  /** Without a `Content:` marker followed by a character the content is the
      whole text, unchanged and not stripped. */
  lemma ContentFallback(text: string)
    requires forall i :: OccursAt(text, ContentMarker, i) ==> i + |ContentMarker| == |text|
    ensures ContentRef(text) == text
  {
  }

  /** The url found at the leftmost link start `i` runs to the next
      whitespace or the end of the text. */
  lemma UrlIsLeftmostToken(text: string, i: nat)
    requires UrlStartsAt(text, i) && forall j :: 0 <= j < i ==> !UrlStartsAt(text, j)
    ensures Url(text) == text[i..i + |UrlScheme| + WordRun(text, i + |UrlScheme|)]
  {
    assert UrlAt(text, i).Some?;
    assert forall j: nat :: j < i ==> UrlAt(text, j).None?;
  }
}
