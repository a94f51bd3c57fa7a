/**
  The table of contents of the DSA resources page: heading extraction from
  the markdown with the multi-line pattern `^(#{1,6})\s+(.+)$`, title
  cleaning, heading ids, the initially expanded set and its toggle, grouping
  under level-1 headings, the 5000-character chunks with their "load more"
  counter, and the view of one table-of-contents group.
 */
module Toc {
  import opened Seqs
  import opened Text
  import Paging

  // ---------------------------------------------------------------------------
  // Heading pattern, with the backtracking of the host's regular expressions
  // ---------------------------------------------------------------------------

  /** One match of the heading pattern: where it starts, its `#` count, where the title begins and ends. */
  datatype RawMatch = RawMatch(start: nat, level: nat, titleStart: nat, end: nat)

  /** Number of consecutive `#` starting at i. */
  function HashRun(t: string, i: nat): (n: nat)
    requires i <= |t|
    ensures i + n <= |t|
    ensures forall k :: i <= k < i + n ==> t[k] == '#'
    ensures i + n == |t| || t[i + n] != '#'
    decreases |t| - i
  {
    if i < |t| && t[i] == '#' then 1 + HashRun(t, i + 1) else 0
  }

  /** Number of consecutive `\s` characters starting at i (line terminators included). */
  function SpaceRun(t: string, i: nat): (n: nat)
    requires i <= |t|
    ensures i + n <= |t|
    ensures forall k :: i <= k < i + n ==> IsSpace(t[k])
    ensures i + n == |t| || !IsSpace(t[i + n])
    decreases |t| - i
  {
    if i < |t| && IsSpace(t[i]) then 1 + SpaceRun(t, i + 1) else 0
  }

  /** The title may start after taking j of the white-space characters. */
  predicate TitleCanStart(t: string, i: nat, j: nat)
  {
    i + j < |t| && !IsLineTerm(t[i + j])
  }

  /** `\s+` can take j characters at i and leave `.+` something to match. */
  predicate SpacesThenTitle(t: string, i: nat, j: nat)
    requires i <= |t|
  {
    1 <= j <= SpaceRun(t, i) && TitleCanStart(t, i, j)
  }

  /** After the run of `#` at p, `\s+` can take j characters and `.+` can follow. */
  predicate HeadingOpensAt(t: string, p: nat, j: nat)
  {
    p <= |t| && SpacesThenTitle(t, p + HashRun(t, p), j)
  }

  /**
    Greedy `\s+` giving back one character at a time: the largest j in 1..w
    after which `.+` can take at least one character, or 0 when none works.
   */
  function BackOff(t: string, i: nat, w: nat): (j: nat)
    ensures j <= w
    ensures j > 0 ==> TitleCanStart(t, i, j)
    ensures forall k :: j < k <= w ==> !TitleCanStart(t, i, k)
  {
    if w == 0 then 0
    else if TitleCanStart(t, i, w) then w
    else BackOff(t, i, w - 1)
  }

  /** What a match of the heading pattern looks like. */
  predicate ValidMatch(t: string, m: RawMatch)
  {
    && IsLineStart(t, m.start)
    && 1 <= m.level <= 6
    && m.start + m.level < m.titleStart < m.end <= |t|
    && (forall k :: m.start <= k < m.start + m.level ==> t[k] == '#')
    && t[m.start + m.level] != '#'
    && (forall k :: m.start + m.level <= k < m.titleStart ==> IsSpace(t[k]))
    && (forall k :: m.titleStart <= k < m.end ==> !IsLineTerm(t[k]))
    && (m.end == |t| || IsLineTerm(t[m.end]))
  }

  /**
    The pattern tried at position p. `#{1,6}` can only succeed with the whole
    run of `#` (a shorter take is followed by `#`, which `\s` rejects), and
    `\s+` may run across line ends; `MatchAtSound` and `MatchAtExact` state
    what a match is.
   */
  function MatchAt(t: string, p: nat): (m: Option<RawMatch>)
    requires p <= |t|
    ensures m.Some? ==> m.value.start == p < m.value.titleStart <= m.value.end <= |t|
  {
    if !IsLineStart(t, p) then None
    else
      var h := HashRun(t, p);
      if h < 1 || h > 6 then None
      else
        var w := BackOff(t, p + h, SpaceRun(t, p + h));
        if w == 0 then None
        else Some(RawMatch(p, h, p + h + w, LineEnd(t, p + h + w)))
  }

  /** Every match has the shape the pattern describes. */
  lemma MatchAtSound(t: string, p: nat)
    requires p <= |t| && MatchAt(t, p).Some?
    ensures ValidMatch(t, MatchAt(t, p).value)
    ensures MatchAt(t, p).value.level == HashRun(t, p)
  {
  }

  /**
    The pattern matches at p exactly when p starts a line, the run of `#`
    there has length 1..6, and some part of the white space after it can be
    followed by a title character; seven or more `#` never match.
   */
  lemma MatchAtExact(t: string, p: nat)
    requires p <= |t|
    ensures MatchAt(t, p).Some? <==> (IsLineStart(t, p) && 1 <= HashRun(t, p) <= 6
      && exists j :: HeadingOpensAt(t, p, j))
    ensures HashRun(t, p) > 6 ==> MatchAt(t, p).None?
  {
    if IsLineStart(t, p) && 1 <= HashRun(t, p) <= 6 {
      var h := HashRun(t, p);
      var w := BackOff(t, p + h, SpaceRun(t, p + h));
      if w > 0 {
        assert HeadingOpensAt(t, p, w);
      }
    }
  }

  // ---------------------------------------------------------------------------
  // The `exec` loop with the global flag, over any matcher
  // ---------------------------------------------------------------------------

  /** A match found by trying at p starts there, ends after it, and lies within a text of length n. */
  predicate Fits(n: nat, p: nat, m: RawMatch)
  {
    m.start == p < m.end <= n && m.titleStart <= m.end
  }

  /** The matcher `at` reports a match at p. */
  predicate HitAt(n: nat, at: nat -> Option<RawMatch>, p: nat)
  {
    at(p).Some? && Fits(n, p, at(p).value)
  }

  /** The matcher reports nothing at a..b-1. */
  predicate NoHitIn(n: nat, at: nat -> Option<RawMatch>, a: nat, b: nat)
  {
    forall p :: a <= p < b ==> !HitAt(n, at, p)
  }

  /**
    Search from `pos` for the first position where the matcher reports a
    match, record it, and resume the search at its end.
   */
  function ScanBy(n: nat, at: nat -> Option<RawMatch>, pos: nat): (r: seq<RawMatch>)
    requires pos <= n
    ensures forall i :: 0 <= i < |r| ==> pos <= r[i].start && Fits(n, r[i].start, r[i]) && at(r[i].start) == Some(r[i])
    ensures forall i :: 0 <= i < |r| - 1 ==> r[i].end <= r[i + 1].start
    decreases n - pos
  {
    if pos == n then []
    else if HitAt(n, at, pos) then [at(pos).value] + ScanBy(n, at, at(pos).value.end)
    else ScanBy(n, at, pos + 1)
  }

  /** The search records nothing exactly when the matcher reports nothing from `pos` on. */
  lemma {:induction false} ScanByEmpty(n: nat, at: nat -> Option<RawMatch>, pos: nat)
    requires pos <= n
    ensures ScanBy(n, at, pos) == [] <==> NoHitIn(n, at, pos, n)
    decreases n - pos
  {
    if pos < n && !HitAt(n, at, pos) {
      ScanByEmpty(n, at, pos + 1);
    }
  }

  /** The first record is the leftmost match from `pos` on. */
  lemma {:induction false} ScanByFirst(n: nat, at: nat -> Option<RawMatch>, pos: nat)
    requires pos <= n && ScanBy(n, at, pos) != []
    ensures NoHitIn(n, at, pos, ScanBy(n, at, pos)[0].start)
    decreases n - pos
  {
    if !HitAt(n, at, pos) {
      ScanByFirst(n, at, pos + 1);
    }
  }

  /** After any record, the later records are what the search finds from its end. */
  lemma {:induction false} ScanBySuffix(n: nat, at: nat -> Option<RawMatch>, pos: nat, i: nat)
    requires pos <= n && i < |ScanBy(n, at, pos)|
    ensures ScanBy(n, at, pos)[i + 1..] == ScanBy(n, at, ScanBy(n, at, pos)[i].end)
    decreases n - pos
  {
    var r := ScanBy(n, at, pos);
    if !HitAt(n, at, pos) {
      ScanBySuffix(n, at, pos + 1, i);
    } else if i > 0 {
      var rest := ScanBy(n, at, at(pos).value.end);
      assert r == [at(pos).value] + rest;
      assert r[i] == rest[i - 1];
      assert r[i + 1..] == rest[i - 1 + 1..];
      ScanBySuffix(n, at, at(pos).value.end, i - 1);
    }
  }

  /** Between two consecutive records the matcher reports nothing. */
  lemma ScanByGap(n: nat, at: nat -> Option<RawMatch>, pos: nat, i: nat)
    requires pos <= n && i + 1 < |ScanBy(n, at, pos)|
    ensures NoHitIn(n, at, ScanBy(n, at, pos)[i].end, ScanBy(n, at, pos)[i + 1].start)
  {
    var r := ScanBy(n, at, pos);
    ScanBySuffix(n, at, pos, i);
    assert ScanBy(n, at, r[i].end)[0] == r[i + 1];
    ScanByFirst(n, at, r[i].end);
  }

  // ---------------------------------------------------------------------------
  // The loop run with the heading pattern
  // ---------------------------------------------------------------------------

  /** The heading pattern as a matcher over the positions of t. */
  function Matcher(t: string): nat -> Option<RawMatch>
  {
    (p: nat) => if p <= |t| then MatchAt(t, p) else None
  }

  /** `exec` in a loop over the whole text: every match of the heading pattern, left to right. */
  function Scan(t: string, pos: nat): (r: seq<RawMatch>)
    requires pos <= |t|
    ensures forall i :: 0 <= i < |r| ==> pos <= r[i].start < r[i].end <= |t| && r[i].titleStart <= r[i].end
    ensures forall i :: 0 <= i < |r| ==> MatchAt(t, r[i].start) == Some(r[i])
    ensures forall i :: 0 <= i < |r| - 1 ==> r[i].end <= r[i + 1].start
  {
    ScanBy(|t|, Matcher(t), pos)
  }

  /** The pattern matches nowhere in a..b-1. */
  predicate NoMatchIn(t: string, a: nat, b: nat)
  {
    forall p :: a <= p < b && p <= |t| ==> MatchAt(t, p).None?
  }

  /** The matcher reports exactly the pattern's matches. */
  lemma NoHitIsNoMatch(t: string, a: nat, b: nat)
    ensures NoHitIn(|t|, Matcher(t), a, b) <==> NoMatchIn(t, a, b)
  {
    forall p | a <= p < b
      ensures HitAt(|t|, Matcher(t), p) <==> p <= |t| && MatchAt(t, p).Some?
    {
      if p <= |t| {
        assert Matcher(t)(p) == MatchAt(t, p);
      }
    }
  }

  /** Nothing is recorded exactly when the pattern matches nowhere from `pos` on. */
  lemma ScanEmpty(t: string, pos: nat)
    requires pos <= |t|
    ensures Scan(t, pos) == [] <==> NoMatchIn(t, pos, |t|)
  {
    ScanByEmpty(|t|, Matcher(t), pos);
    NoHitIsNoMatch(t, pos, |t|);
  }

  /** The first record is the leftmost match from `pos` on. */
  lemma ScanFirst(t: string, pos: nat)
    requires pos <= |t| && Scan(t, pos) != []
    ensures NoMatchIn(t, pos, Scan(t, pos)[0].start)
  {
    ScanByFirst(|t|, Matcher(t), pos);
    NoHitIsNoMatch(t, pos, Scan(t, pos)[0].start);
  }

  /** Between two consecutive records the pattern matches nowhere. */
  lemma ScanGap(t: string, pos: nat, i: nat)
    requires pos <= |t| && i + 1 < |Scan(t, pos)|
    ensures NoMatchIn(t, Scan(t, pos)[i].end, Scan(t, pos)[i + 1].start)
  {
    ScanByGap(|t|, Matcher(t), pos, i);
    NoHitIsNoMatch(t, Scan(t, pos)[i].end, Scan(t, pos)[i + 1].start);
  }

  // ---------------------------------------------------------------------------
  // Title cleaning: `**x**`, then `*x*`, then `[x](y)` replaced by x
  // ---------------------------------------------------------------------------

  /** Lazy search for the closing delimiter d from k; `.` does not cross a line end. */
  function FindClose(s: string, d: string, k: nat): (r: Option<nat>)
    requires k <= |s|
    ensures r.Some? ==> k <= r.value && r.value + |d| <= |s| && s[r.value..r.value + |d|] == d
    ensures r.Some? ==> forall j :: k <= j < r.value ==> !IsLineTerm(s[j])
    decreases |s| - k
  {
    if StartsWith(s[k..], d) then Some(k)
    else if k == |s| || IsLineTerm(s[k]) then None
    else FindClose(s, d, k + 1)
  }

  /** `s.replace(/D(.*?)D/g, '$1')` for the delimiter D = d. */
  function StripPairs(s: string, d: string): (r: string)
    requires |d| > 0
    ensures |r| <= |s|
    decreases |s|
  {
    if |s| == 0 then ""
    else if StartsWith(s, d) then
      match FindClose(s, d, |d|)
        case Some(k) => s[|d|..k] + StripPairs(s[k + |d|..], d)
        case None => [s[0]] + StripPairs(s[1..], d)
    else [s[0]] + StripPairs(s[1..], d)
  }

  /** Text without the delimiter's first character has no pair to remove. */
  lemma {:induction false} StripPairsPlain(s: string, d: string)
    requires |d| > 0 && forall i :: 0 <= i < |s| ==> s[i] != d[0]
    ensures StripPairs(s, d) == s
    decreases |s|
  {
    if |s| > 0 {
      assert !StartsWith(s, d) by { if |d| <= |s| { assert s[..|d|][0] == s[0]; } }
      StripPairsPlain(s[1..], d);
      assert s == [s[0]] + s[1..];
    }
  }

  /** First `)` at or after k on the same line. */
  function FindParen(s: string, k: nat): (r: Option<nat>)
    requires k <= |s|
    ensures r.Some? ==> k <= r.value < |s| && s[r.value] == ')'
    decreases |s| - k
  {
    if k == |s| || IsLineTerm(s[k]) then None
    else if s[k] == ')' then Some(k)
    else FindParen(s, k + 1)
  }

  /**
    For `\[(.*?)\]\(.*?\)` matched at a `[`: the smallest k at or after `from`
    where `](` starts and a `)` follows on the line, paired with that `)`.
   */
  function FindLinkEnd(s: string, from: nat): (r: Option<(nat, nat)>)
    requires from <= |s|
    ensures r.Some? ==> (from <= r.value.0 && r.value.0 + 2 <= r.value.1 < |s|
      && s[r.value.0] == ']' && s[r.value.0 + 1] == '(' && s[r.value.1] == ')')
    decreases |s| - from
  {
    if from + 1 < |s| && s[from] == ']' && s[from + 1] == '(' && FindParen(s, from + 2).Some? then
      Some((from, FindParen(s, from + 2).value))
    else if from == |s| || IsLineTerm(s[from]) then None
    else FindLinkEnd(s, from + 1)
  }

  /** `s.replace(/\[(.*?)\]\(.*?\)/g, '$1')` */
  function StripLinks(s: string): (r: string)
    ensures |r| <= |s|
    decreases |s|
  {
    if |s| == 0 then ""
    else if s[0] == '[' then
      match FindLinkEnd(s, 1)
        case Some(ends) => s[1..ends.0] + StripLinks(s[ends.1 + 1..])
        case None => [s[0]] + StripLinks(s[1..])
    else [s[0]] + StripLinks(s[1..])
  }

  /** Text without `[` has no link to remove. */
  lemma {:induction false} StripLinksPlain(s: string)
    requires '[' !in s
    ensures StripLinks(s) == s
    decreases |s|
  {
    if |s| > 0 {
      assert s[0] != '[';
      assert '[' !in s[1..];
      StripLinksPlain(s[1..]);
    }
  }

  /** Bold, then italic, then links, in that order. */
  function CleanTitle(raw: string): (r: string)
    ensures |r| <= |raw|
    ensures (forall i :: 0 <= i < |raw| ==> raw[i] != '*' && raw[i] != '[') ==> r == raw
  {
    var r := StripLinks(StripPairs(StripPairs(raw, "**"), "*"));
    assert (forall i :: 0 <= i < |raw| ==> raw[i] != '*' && raw[i] != '[') ==> r == raw by {
      if forall i :: 0 <= i < |raw| ==> raw[i] != '*' && raw[i] != '[' {
        NoStarIdentity(raw);
        StripLinksPlain(raw);
      }
    }
    r
  }

  /** Plain text between delimiters: no `*`, no brackets, no line end. */
  predicate Plain(x: string)
  {
    forall i :: 0 <= i < |x| ==> x[i] != '*' && x[i] != '[' && x[i] != ']' && !IsLineTerm(x[i])
  }

  lemma StripPairsOfPair(x: string, d: string, rest: string)
    requires |d| > 0 && d[0] == '*' && Plain(x)
    ensures StripPairs(d + x + d + rest, d) == x + StripPairs(rest, d)
  {
    var s := d + x + d + rest;
    Concat4(d, x, d, rest);
    PairCloses(s, d, x);
    StripPairsAt(s, d, |d| + |x|);
  }

  /** In a text spelling d, then plain x, then d, the search for the closing d stops right after x. */
  lemma PairCloses(s: string, d: string, x: string)
    requires |d| > 0 && d[0] == '*' && Plain(x)
    requires |d| + |x| + |d| <= |s| && s[..|d|] == d
    requires s[|d|..|d| + |x|] == x && s[|d| + |x|..|d| + |x| + |d|] == d
    ensures StartsWith(s, d)
    ensures FindClose(s, d, |d|) == Some(|d| + |x|)
  {
    forall j | |d| <= j < |d| + |x| ensures s[j] != d[0] && !IsLineTerm(s[j]) {
      assert s[j] == s[|d|..|d| + |x|][j - |d|];
    }
    FindCloseOver(s, d, |d|, |d| + |x|);
  }

  /** A pair that closes at k is replaced by what lies between its delimiters. */
  lemma StripPairsAt(s: string, d: string, k: nat)
    requires |d| > 0 && StartsWith(s, d) && |d| <= k <= |s| && FindClose(s, d, |d|) == Some(k)
    ensures StripPairs(s, d) == s[|d|..k] + StripPairs(s[k + |d|..], d)
  {
    assert |s| != 0;
  }

  /** Over text free of line ends and of the delimiter's first character, the search runs on to where d is spelt. */
  lemma {:induction false} FindCloseOver(s: string, d: string, k: nat, e: nat)
    requires |d| > 0 && k <= e && e + |d| <= |s| && s[e..e + |d|] == d
    requires forall j :: k <= j < e ==> s[j] != d[0] && !IsLineTerm(s[j])
    ensures FindClose(s, d, k) == Some(e)
    decreases e - k
  {
    if k == e {
      FindCloseHere(s, d, k);
    } else {
      FindCloseSkip(s, d, k);
      FindCloseOver(s, d, k + 1, e);
    }
  }

  /** The lazy search stops at once where the delimiter is spelt. */
  lemma FindCloseHere(s: string, d: string, k: nat)
    requires k + |d| <= |s| && s[k..k + |d|] == d
    ensures FindClose(s, d, k) == Some(k)
  {
    assert s[k..][..|d|] == s[k..k + |d|];
  }

  /** The lazy search steps over a character that is neither a line end nor the delimiter's first. */
  lemma FindCloseSkip(s: string, d: string, k: nat)
    requires |d| > 0 && k < |s| && s[k] != d[0] && !IsLineTerm(s[k])
    ensures FindClose(s, d, k) == FindClose(s, d, k + 1)
  {
    assert !StartsWith(s[k..], d) by { assert s[k..][0] == s[k]; }
  }

  /** A bold title loses its markers and nothing else. */
  lemma CleanBoldTitle(x: string)
    requires Plain(x)
    ensures CleanTitle("**" + x + "**") == x
  {
    StripPairsOfPair(x, "**", "");
    assert "**" + x + "**" == "**" + x + "**" + "";
    assert StripPairs("", "**") == "";
    assert x + "" == x;
    StripPairsPlain(x, "*");
    StripLinksPlain(x);
  }

  /** `s` holds `x](u)` at k. */
  predicate LinkAt(s: string, k: nat, x: string, u: string)
  {
    && k + |x| + 3 + |u| <= |s|
    && s[k..k + |x|] == x
    && s[k + |x|] == ']' && s[k + |x| + 1] == '('
    && s[k + |x| + 2..k + |x| + 2 + |u|] == u
    && s[k + |x| + 2 + |u|] == ')'
  }

  lemma {:induction false} FindLinkEndOverText(s: string, k: nat, x: string, u: string)
    requires Plain(x) && forall i :: 0 <= i < |u| ==> u[i] != ')' && !IsLineTerm(u[i])
    requires LinkAt(s, k, x, u)
    ensures FindLinkEnd(s, k) == Some((k + |x|, k + |x| + 2 + |u|))
    decreases |x|
  {
    FindParenOverText(s, k + |x| + 2, u);
    if |x| > 0 {
      LinkAtNext(s, k, x, u);
      FindLinkEndOverText(s, k + 1, x[1..], u);
    }
  }

  /** Past the first character of the text, the same link is still ahead. */
  lemma LinkAtNext(s: string, k: nat, x: string, u: string)
    requires LinkAt(s, k, x, u) && |x| > 0
    ensures s[k] == x[0] && LinkAt(s, k + 1, x[1..], u)
  {
    assert s[k] == s[k..k + |x|][0];
    assert s[k + 1..k + 1 + |x[1..]|] == s[k..k + |x|][1..];
  }

  lemma {:induction false} FindParenOverText(s: string, k: nat, u: string)
    requires forall i :: 0 <= i < |u| ==> u[i] != ')' && !IsLineTerm(u[i])
    requires k + |u| < |s| && s[k..k + |u|] == u && s[k + |u|] == ')'
    ensures FindParen(s, k) == Some(k + |u|)
    decreases |u|
  {
    if |u| > 0 {
      assert s[k] == u[0];
      assert s[k + 1..k + 1 + |u[1..]|] == u[1..];
      FindParenOverText(s, k + 1, u[1..]);
    }
  }

  lemma NoStarIdentity(s: string)
    requires forall i :: 0 <= i < |s| ==> s[i] != '*'
    ensures StripPairs(StripPairs(s, "**"), "*") == s
  {
    StripPairsPlain(s, "**");
    StripPairsPlain(s, "*");
  }

  lemma StripLinksOfLink(s: string, x: string, u: string)
    requires Plain(x) && Plain(u) && forall i :: 0 <= i < |u| ==> u[i] != ')'
    requires |s| == |x| + |u| + 4 && s[0] == '[' && LinkAt(s, 1, x, u)
    ensures StripLinks(s) == x
  {
    FindLinkEndOverText(s, 1, x, u);
    var head := s[1..1 + |x|];
    var tail := StripLinks(s[|s|..]);
    assert StripLinks(s) == head + tail;
    assert tail == [];
  }

  /** A link keeps its text and loses its target. */
  lemma CleanLinkTitle(x: string, u: string)
    requires Plain(x) && Plain(u) && forall i :: 0 <= i < |u| ==> u[i] != ')'
    ensures CleanTitle("[" + x + "](" + u + ")") == x
  {
    var s := "[" + x + "](" + u + ")";
    assert forall i :: 0 <= i < |s| ==> s[i] != '*' by {
      assert '*' !in x && '*' !in u;
      assert '*' !in s;
    }
    NoStarIdentity(s);
    assert LinkAt(s, 1, x, u) by {
      assert s[1..1 + |x|] == x;
      assert s[|x| + 3..|x| + 3 + |u|] == u;
    }
    StripLinksOfLink(s, x, u);
  }


  /** Text without the delimiter's first character passes through the pair pass unchanged, whatever follows it. */
  lemma {:induction false} StripPairsPrefix(p: string, rest: string, d: string)
    requires |d| > 0 && forall i :: 0 <= i < |p| ==> p[i] != d[0]
    ensures StripPairs(p + rest, d) == p + StripPairs(rest, d)
    decreases |p|
  {
    if |p| == 0 {
      assert p + rest == rest;
    } else {
      var s := p + rest;
      assert !StartsWith(s, d) by { if |d| <= |s| { assert s[..|d|][0] == p[0]; } }
      assert s == [p[0]] + (p[1..] + rest);
      StripPairsCons(p[0], p[1..] + rest, d);
      StripPairsPrefix(p[1..], rest, d);
      assert p == [p[0]] + p[1..];
    }
  }

  /** Text without `[` passes through the link pass unchanged, whatever follows it. */
  lemma {:induction false} StripLinksPrefix(p: string, rest: string)
    requires '[' !in p
    ensures StripLinks(p + rest) == p + StripLinks(rest)
    decreases |p|
  {
    if |p| == 0 {
      assert p + rest == rest;
    } else {
      var s := p + rest;
      assert s[0] == p[0];
      assert s[1..] == p[1..] + rest;
      assert '[' !in p[1..];
      StripLinksPrefix(p[1..], rest);
      assert p == [p[0]] + p[1..];
    }
  }

  /** A link at the head of the text gives way to its text; what follows it is cleaned on. */
  lemma StripLinksAtLink(s: string, x: string, u: string)
    requires Plain(x) && Plain(u) && forall i :: 0 <= i < |u| ==> u[i] != ')'
    requires |x| + |u| + 4 <= |s| && s[0] == '[' && LinkAt(s, 1, x, u)
    ensures StripLinks(s) == x + StripLinks(s[|x| + |u| + 4..])
  {
    FindLinkEndOverText(s, 1, x, u);
    var ends := (1 + |x|, 1 + |x| + 2 + |u|);
    assert StripLinks(s) == s[1..ends.0] + StripLinks(s[ends.1 + 1..]);
  }

  /** Bold text after plain text anywhere in a title: the markers go, the text around stays, the rest is cleaned on. */
  lemma CleanBoldInside(p: string, x: string, q: string)
    requires Plain(p) && Plain(x)
    ensures CleanTitle(p + "**" + x + "**" + q) == p + x + CleanTitle(q)
  {
    BoldPassInside(p, x, q);
    PlainJoin(p, x);
    StripPairsPrefix(p + x, StripPairs(q, "**"), "*");
    CleanTitleVia(p + "**" + x + "**" + q, q, p + x);
  }

  /** The bold pass over plain text, a bold pair and a rest. */
  lemma BoldPassInside(p: string, x: string, q: string)
    requires Plain(p) && Plain(x)
    ensures StripPairs(p + "**" + x + "**" + q, "**") == (p + x) + StripPairs(q, "**")
  {
    assert p + "**" + x + "**" + q == p + ("**" + x + "**" + q);
    StripPairsOfPair(x, "**", q);
    StripPairsPrefix(p, "**" + x + "**" + q, "**");
  }

  /** When the two star passes leave a `[`-free head before what they make of q, cleaning does too. */
  lemma CleanTitleVia(s: string, q: string, w: string)
    requires '[' !in w
    requires StripPairs(StripPairs(s, "**"), "*") == w + StripPairs(StripPairs(q, "**"), "*")
    ensures CleanTitle(s) == w + CleanTitle(q)
  {
    StripLinksPrefix(w, StripPairs(StripPairs(q, "**"), "*"));
  }

  /** Plain text joined to plain text is plain, and has neither `*` nor `[`. */
  lemma PlainJoin(p: string, x: string)
    requires Plain(p) && Plain(x)
    ensures Plain(p + x) && '[' !in p + x && forall i :: 0 <= i < |p + x| ==> (p + x)[i] != '*'
  {
    assert Plain(p + x);
  }

  /**
    Italic text after plain text anywhere in a title. The closing `*` must not
    be followed by another `*`, or the bold pass would take the two together.
   */
  lemma CleanItalicInside(p: string, x: string, q: string)
    requires Plain(p) && Plain(x) && |x| > 0 && (|q| == 0 || q[0] != '*')
    ensures CleanTitle(p + "*" + x + "*" + q) == p + x + CleanTitle(q)
  {
    BoldPassOverItalic(p, x, q);
    ItalicPassInside(p, x, StripPairs(q, "**"));
    PlainJoin(p, x);
    CleanTitleVia(p + "*" + x + "*" + q, q, p + x);
  }

  /** The bold pass over plain text, an italic pair and a rest. */
  lemma BoldPassOverItalic(p: string, x: string, q: string)
    requires Plain(p) && Plain(x) && |x| > 0 && (|q| == 0 || q[0] != '*')
    ensures StripPairs(p + "*" + x + "*" + q, "**") == p + ("*" + x + "*" + StripPairs(q, "**"))
  {
    assert p + "*" + x + "*" + q == p + ("*" + x + "*" + q);
    ItalicSurvivesBold(x, q);
    StripPairsPrefix(p, "*" + x + "*" + q, "**");
  }

  /** The italic pass over plain text, an italic pair and a rest. */
  lemma ItalicPassInside(p: string, x: string, a: string)
    requires Plain(p) && Plain(x)
    ensures StripPairs(p + ("*" + x + "*" + a), "*") == (p + x) + StripPairs(a, "*")
  {
    StripPairsOfPair(x, "*", a);
    StripPairsPrefix(p, "*" + x + "*" + a, "*");
  }

  /** The bold pass leaves a single-starred pair alone. */
  lemma ItalicSurvivesBold(x: string, q: string)
    requires Plain(x) && |x| > 0 && (|q| == 0 || q[0] != '*')
    ensures StripPairs("*" + x + "*" + q, "**") == "*" + x + "*" + StripPairs(q, "**")
  {
    var d := "**";
    var a := StripPairs(q, d);
    assert StripPairs(['*'] + q, d) == ['*'] + a by {
      NoOpenAtSecond(['*'] + q, d);
      StripPairsCons('*', q, d);
    }
    assert StripPairs(x + (['*'] + q), d) == x + (['*'] + a) by {
      StripPairsPrefix(x, ['*'] + q, d);
    }
    assert StripPairs(['*'] + (x + (['*'] + q)), d) == ['*'] + (x + (['*'] + a)) by {
      NoOpenAtSecond(['*'] + (x + (['*'] + q)), d);
      StripPairsCons('*', x + (['*'] + q), d);
    }
    Enclosed('*', x, q);
    Enclosed('*', x, a);
  }

  lemma Enclosed<T>(c: T, x: seq<T>, q: seq<T>)
    ensures [c] + x + [c] + q == [c] + (x + ([c] + q))
  {
  }

  /** Where the second character differs from the delimiter's second, no delimiter opens. */
  lemma NoOpenAtSecond(s: string, d: string)
    requires |d| >= 2 && (|s| < 2 || s[1] != d[1])
    ensures !StartsWith(s, d)
  {
    if |d| <= |s| {
      assert s[..|d|][1] == s[1];
    }
  }

  /** Where no delimiter opens, the first character is kept as it is. */
  lemma StripPairsCons(c: char, rest: string, d: string)
    requires |d| > 0 && !StartsWith([c] + rest, d)
    ensures StripPairs([c] + rest, d) == [c] + StripPairs(rest, d)
  {
    assert ([c] + rest)[1..] == rest;
  }

  /** A link after plain text anywhere in a title keeps its text and loses its target; the rest is cleaned on. */
  lemma CleanLinkInside(p: string, x: string, u: string, q: string)
    requires Plain(p) && Plain(x) && Plain(u) && forall i :: 0 <= i < |u| ==> u[i] != ')'
    ensures CleanTitle(p + "[" + x + "](" + u + ")" + q) == p + x + CleanTitle(q)
  {
    var l := "[" + x + "](" + u + ")";
    var b := StripPairs(StripPairs(q, "**"), "*");
    assert p + "[" + x + "](" + u + ")" + q == (p + l) + q;
    assert StripPairs(StripPairs((p + l) + q, "**"), "*") == (p + l) + b by {
      LinkHasNoStar(p, x, u);
      StarPassesOver(p + l, q);
    }
    LinkPassInside(p, x, u, b);
    assert CleanTitle(q) == StripLinks(b);
  }

  lemma LinkHasNoStar(p: string, x: string, u: string)
    requires Plain(p) && Plain(x) && Plain(u)
    ensures var w := p + ("[" + x + "](" + u + ")"); forall i :: 0 <= i < |w| ==> w[i] != '*'
  {
    assert '*' !in p && '*' !in x && '*' !in u;
    assert '*' !in p + ("[" + x + "](" + u + ")");
  }

  /** Text without `*` passes through both star passes unchanged, whatever follows it. */
  lemma StarPassesOver(w: string, q: string)
    requires forall i :: 0 <= i < |w| ==> w[i] != '*'
    ensures StripPairs(StripPairs(w + q, "**"), "*") == w + StripPairs(StripPairs(q, "**"), "*")
  {
    StripPairsPrefix(w, q, "**");
    StripPairsPrefix(w, StripPairs(q, "**"), "*");
  }

  /** The link pass over plain text, a link and a rest. */
  lemma LinkPassInside(p: string, x: string, u: string, b: string)
    requires Plain(p) && Plain(x) && Plain(u) && forall i :: 0 <= i < |u| ==> u[i] != ')'
    ensures StripLinks(p + ("[" + x + "](" + u + ")") + b) == p + x + StripLinks(b)
  {
    var s := "[" + x + "](" + u + ")" + b;
    assert p + ("[" + x + "](" + u + ")") + b == p + s;
    assert '[' !in p;
    StripLinksPrefix(p, s);
    assert LinkAt(s, 1, x, u) by {
      assert s[1..1 + |x|] == x;
      assert s[|x| + 3..|x| + 3 + |u|] == u;
    }
    StripLinksAtLink(s, x, u);
    assert s[|x| + |u| + 4..] == b;
  }

  // ---------------------------------------------------------------------------
  // Heading ids
  // ---------------------------------------------------------------------------

  /** `\w` of the host's regular expressions. */
  predicate IsWordChar(c: char)
  {
    ('a' <= c <= 'z') || ('A' <= c <= 'Z') || ('0' <= c <= '9') || c == '_'
  }

  /** The characters an id can hold: lower-case letters, digits, `_` and `-`. */
  predicate IsIdChar(c: char)
  {
    ('a' <= c <= 'z') || ('0' <= c <= '9') || c == '_' || c == '-'
  }

  predicate IsSlug(s: string)
  {
    && (forall i :: 0 <= i < |s| ==> IsIdChar(s[i]))
    && (forall i :: 0 <= i < |s| - 1 ==> !(s[i] == '-' && s[i + 1] == '-'))
  }

  /** `replace(/[^\w\s-]/g, '')` */
  function KeepIdChars(s: string): (r: string)
    ensures |r| <= |s|
    ensures forall i :: 0 <= i < |r| ==> IsWordChar(r[i]) || IsSpace(r[i]) || r[i] == '-'
    ensures (forall i :: 0 <= i < |s| ==> IsWordChar(s[i]) || IsSpace(s[i]) || s[i] == '-') ==> r == s
    ensures forall c :: c in r ==> c in s
  {
    if |s| == 0 then ""
    else
      var rest := KeepIdChars(s[1..]);
      if IsWordChar(s[0]) || IsSpace(s[0]) || s[0] == '-' then [s[0]] + rest else rest
  }

  /** `replace(/\s+/g, '-')`: each maximal run of white space becomes one `-`. */
  function SpacesToHyphen(s: string): (r: string)
    ensures |r| <= |s|
    ensures forall i :: 0 <= i < |r| ==> !IsSpace(r[i])
    ensures forall c :: c in r ==> c in s || c == '-'
    ensures |s| > 0 ==> |r| > 0 && r[0] == (if IsSpace(s[0]) then '-' else s[0])
    ensures (forall i :: 0 <= i < |s| ==> !IsSpace(s[i])) ==> r == s
  {
    if |s| == 0 then ""
    else if |s| >= 2 && IsSpace(s[0]) && IsSpace(s[1]) then SpacesToHyphen(s[1..])
    else [if IsSpace(s[0]) then '-' else s[0]] + SpacesToHyphen(s[1..])
  }

  /** `replace(/-+/g, '-')`: each maximal run of `-` becomes one `-`. */
  function CollapseHyphens(s: string): (r: string)
    ensures |r| <= |s|
    ensures forall c :: c in r ==> c in s
    ensures forall i :: 0 <= i < |r| - 1 ==> !(r[i] == '-' && r[i + 1] == '-')
    ensures |s| > 0 ==> |r| > 0 && r[0] == s[0]
    ensures (forall i :: 0 <= i < |s| - 1 ==> !(s[i] == '-' && s[i + 1] == '-')) ==> r == s
  {
    if |s| == 0 then ""
    else if |s| >= 2 && s[0] == '-' && s[1] == '-' then CollapseHyphens(s[1..])
    else
      var rest := CollapseHyphens(s[1..]);
      assert forall c :: c in [s[0]] + rest ==> c in s;
      [s[0]] + rest
  }

  /** The id of a heading: lower-case, special characters dropped, white space and `-` runs made one `-`. */
  function Slug(title: string): (id: string)
    ensures IsSlug(id)
    ensures |id| <= |title|
  {
    var kept := KeepIdChars(Lower(title));
    var dashed := SpacesToHyphen(kept);
    var r := CollapseHyphens(dashed);
    assert forall c :: c in kept ==> IsIdChar(c) || IsSpace(c) by {
      forall c | c in kept ensures IsIdChar(c) || IsSpace(c) {
        var i :| 0 <= i < |kept| && kept[i] == c;
        assert c in Lower(title);
        var k :| 0 <= k < |title| && Lower(title)[k] == c;
      }
    }
    assert forall i :: 0 <= i < |r| ==> IsIdChar(r[i]) by {
      forall i | 0 <= i < |r| ensures IsIdChar(r[i]) {
        assert r[i] in r;
        assert r[i] in dashed;
        var k :| 0 <= k < |dashed| && dashed[k] == r[i];
      }
    }
    r
  }

  /** An id is its own id: applying the rule twice changes nothing. */
  lemma SlugIdempotent(title: string)
    ensures Slug(Slug(title)) == Slug(title)
  {
    var s := Slug(title);
    assert Lower(s) == s by {
      forall i | 0 <= i < |s| ensures Lower(s)[i] == s[i] {
        assert IsIdChar(s[i]);
      }
    }
    assert forall i :: 0 <= i < |s| ==> IsWordChar(s[i]) || s[i] == '-' by {
      forall i | 0 <= i < |s| ensures IsWordChar(s[i]) || s[i] == '-' {
        assert IsIdChar(s[i]);
      }
    }
    assert KeepIdChars(s) == s;
    assert forall i :: 0 <= i < |s| ==> !IsSpace(s[i]) by {
      forall i | 0 <= i < |s| ensures !IsSpace(s[i]) {
        assert IsIdChar(s[i]);
      }
    }
    assert SpacesToHyphen(s) == s;
  }

  // ---------------------------------------------------------------------------
  // Extracted headings
  // ---------------------------------------------------------------------------

  datatype Heading = Heading(id: string, title: string, level: nat)

  function HeadingOf(t: string, m: RawMatch): Heading
    requires m.titleStart <= m.end <= |t|
  {
    var title := CleanTitle(t[m.titleStart..m.end]);
    Heading(Slug(title), title, m.level)
  }

  /** `extractHeadings`: one heading per match of the pattern, in document order. */
  function ExtractHeadings(t: string): (hs: seq<Heading>)
    ensures |hs| == |Scan(t, 0)|
    ensures forall i :: 0 <= i < |hs| ==> hs[i] == HeadingOf(t, Scan(t, 0)[i])
    ensures forall i :: 0 <= i < |hs| ==> 1 <= hs[i].level <= 6 && IsSlug(hs[i].id)
    ensures forall i :: 0 <= i < |hs| ==> hs[i].level == HashRun(t, Scan(t, 0)[i].start)
  {
    var ms := Scan(t, 0);
    forall i | 0 <= i < |ms| ensures 1 <= ms[i].level <= 6 && ms[i].level == HashRun(t, ms[i].start) {
      MatchAtSound(t, ms[i].start);
    }
    seq(|ms|, i requires 0 <= i < |ms| => HeadingOf(t, ms[i]))
  }

  /** A line opening with seven or more `#` never yields a heading of its own. */
  lemma NoHeadingAtSevenHashes(t: string, p: nat)
    requires p <= |t| && HashRun(t, p) >= 7
    ensures forall i :: 0 <= i < |Scan(t, 0)| ==> Scan(t, 0)[i].start != p
  {
    MatchAtExact(t, p);
  }

  /**
    `\s+` runs across the line end: a bare `#` line swallows the next line as
    its title, so `## foo` below it is not a heading of its own.
   */
  lemma BareHashSwallowsNextLine()
    ensures ExtractHeadings("#\n## foo") == [Heading("-foo", "## foo", 1)]
  {
    var t := "#\n## foo";
    BareHashScan();
    BareHashHeading();
    var hs := ExtractHeadings(t);
    assert |hs| == 1 && hs[0] == HeadingOf(t, RawMatch(0, 1, 2, 8));
  }

  lemma BareHashHeading()
    ensures HeadingOf("#\n## foo", RawMatch(0, 1, 2, 8)) == Heading("-foo", "## foo", 1)
  {
    var title := "## foo";
    assert "#\n## foo"[2..8] == title;
    assert forall i :: 0 <= i < |title| ==> title[i] != '*' && title[i] != '[';
    assert CleanTitle(title) == title;
    BareHashSlug();
  }

  lemma BareHashMatch()
    ensures MatchAt("#\n## foo", 0) == Some(RawMatch(0, 1, 2, 8))
  {
    var t := "#\n## foo";
    assert HashRun(t, 1) == 0;
    assert HashRun(t, 0) == 1;
    assert SpaceRun(t, 2) == 0;
    assert SpaceRun(t, 1) == 1;
    assert BackOff(t, 1, 1) == 1;
    assert LineEnd(t, 8) == 8;
    assert LineEnd(t, 2) == 8;
  }

  lemma BareHashScan()
    ensures Scan("#\n## foo", 0) == [RawMatch(0, 1, 2, 8)]
  {
    var t := "#\n## foo";
    BareHashMatch();
    assert Scan(t, 8) == [];
  }

  lemma BareHashSlug()
    ensures Slug("## foo") == "-foo"
  {
    BareHashLower();
    BareHashKept();
    BareHashDashed();
    BareHashCollapsed();
  }

  lemma BareHashLower()
    ensures Lower("## foo") == "## foo"
  {
    var s := "## foo";
    forall i | 0 <= i < |s| ensures Lower(s)[i] == s[i] {
      assert !('A' <= s[i] <= 'Z');
    }
  }

  lemma BareHashKept()
    ensures KeepIdChars("## foo") == " foo"
  {
    var t := " foo";
    assert forall i :: 0 <= i < |t| ==> IsWordChar(t[i]) || IsSpace(t[i]) || t[i] == '-';
    assert KeepIdChars(t) == t;
    assert "## foo"[1..] == "# foo" && "# foo"[1..] == t;
  }

  lemma BareHashDashed()
    ensures SpacesToHyphen(" foo") == "-foo"
  {
    var t := "foo";
    assert forall i :: 0 <= i < |t| ==> !IsSpace(t[i]);
    assert SpacesToHyphen(t) == t;
    assert " foo"[1..] == t;
    assert ['-'] + t == "-foo";
  }

  lemma BareHashCollapsed()
    ensures CollapseHyphens("-foo") == "-foo"
  {
    var t := "-foo";
    assert forall i :: 0 <= i < |t| - 1 ==> !(t[i] == '-' && t[i + 1] == '-');
  }

  // ---------------------------------------------------------------------------
  // Expanded sections
  // ---------------------------------------------------------------------------

  /** `expandedSections[id]` is truthy: present and true. */
  predicate IsOpen(expanded: map<string, bool>, id: string)
  {
    id in expanded && expanded[id]
  }

  /** The `forEach` that sets `initialExpanded[heading.id] = true` for levels 1 and 2. */
  function InitialExpanded(hs: seq<Heading>): (m: map<string, bool>)
    ensures forall id :: id in m ==> m[id]
    ensures forall id :: id in m <==> exists h :: h in hs && h.level <= 2 && h.id == id
  {
    if |hs| == 0 then map[]
    else
      var init := hs[..|hs| - 1];
      var h := hs[|hs| - 1];
      var m := InitialExpanded(init);
      SnocSplit(hs);
      if h.level <= 2 then m[h.id := true] else m
  }

  /** A heading of level 1 or 2 starts open, any other id starts closed. */
  lemma InitiallyOpen(hs: seq<Heading>, id: string)
    ensures IsOpen(InitialExpanded(hs), id) <==> exists h :: h in hs && h.level <= 2 && h.id == id
  {
  }

  /** `toggleSection(id)`: `{...prev, [id]: !prev[id]}`. */
  function Toggle(expanded: map<string, bool>, id: string): (r: map<string, bool>)
    ensures IsOpen(r, id) == !IsOpen(expanded, id)
    ensures forall k :: k != id ==> (k in r <==> k in expanded) && (k in r ==> r[k] == expanded[k])
    ensures id in r
  {
    expanded[id := !IsOpen(expanded, id)]
  }

  /** Toggling the same id twice restores every flag's truthiness. */
  lemma ToggleTwice(expanded: map<string, bool>, id: string)
    ensures forall k :: IsOpen(Toggle(Toggle(expanded, id), id), k) == IsOpen(expanded, k)
  {
  }

  // ---------------------------------------------------------------------------
  // Grouping under level-1 headings
  // ---------------------------------------------------------------------------

  datatype Section = Section(head: Heading, children: seq<Heading>)

  predicate IsTop(h: Heading) { h.level == 1 }

  /** The `forEach` building `groupedHeadings`, one heading at a time. */
  function GroupHeadings(hs: seq<Heading>): seq<Section>
  {
    if |hs| == 0 then []
    else
      var gs := GroupHeadings(hs[..|hs| - 1]);
      var h := hs[|hs| - 1];
      if h.level == 1 then gs + [Section(h, [])]
      else if |gs| > 0 && h.level > 1 then
        var last := gs[|gs| - 1];
        gs[..|gs| - 1] + [Section(last.head, last.children + [h])]
      else gs
  }

  /** Children are never level-1 headings. */
  lemma {:induction false} ChildrenBelowTop(hs: seq<Heading>)
    ensures forall i, j :: 0 <= i < |GroupHeadings(hs)| && 0 <= j < |GroupHeadings(hs)[i].children| ==>
      GroupHeadings(hs)[i].children[j].level > 1
    decreases |hs|
  {
    if |hs| > 0 {
      ChildrenBelowTop(hs[..|hs| - 1]);
    }
  }

  function Heads(gs: seq<Section>): (r: seq<Heading>)
    ensures |r| == |gs|
    ensures forall i :: 0 <= i < |gs| ==> r[i] == gs[i].head
  {
    seq(|gs|, i requires 0 <= i < |gs| => gs[i].head)
  }

  /** The level-1 headings, in order. */
  function Tops(hs: seq<Heading>): (r: seq<Heading>)
    ensures forall h :: h in r ==> h in hs && IsTop(h)
  {
    if |hs| == 0 then []
    else
      var rest := Tops(hs[..|hs| - 1]);
      assert forall h :: h in hs[..|hs| - 1] ==> h in hs;
      if IsTop(hs[|hs| - 1]) then rest + [hs[|hs| - 1]] else rest
  }

  /** One group per level-1 heading, in document order. */
  lemma {:induction false} GroupHeads(hs: seq<Heading>)
    ensures Heads(GroupHeadings(hs)) == Tops(hs)
    decreases |hs|
  {
    if |hs| > 0 {
      GroupHeads(hs[..|hs| - 1]);
      GroupHeadsStep(hs);
    }
  }

  lemma GroupHeadsStep(hs: seq<Heading>)
    requires |hs| > 0 && Heads(GroupHeadings(hs[..|hs| - 1])) == Tops(hs[..|hs| - 1])
    ensures Heads(GroupHeadings(hs)) == Tops(hs)
  {
    var gs := GroupHeadings(hs[..|hs| - 1]);
    var h := hs[|hs| - 1];
    if h.level == 1 {
      HeadsSnoc(gs, Section(h, []));
    } else if |gs| > 0 {
      var last := gs[|gs| - 1];
      HeadsReplaceLast(gs, Section(last.head, last.children + [h]));
    }
  }

  lemma HeadsSnoc(gs: seq<Section>, g: Section)
    ensures Heads(gs + [g]) == Heads(gs) + [g.head]
  {
  }

  lemma HeadsReplaceLast(gs: seq<Section>, g: Section)
    requires |gs| > 0 && g.head == gs[|gs| - 1].head
    ensures Heads(gs[..|gs| - 1] + [g]) == Heads(gs)
  {
    var r := gs[..|gs| - 1] + [g];
    assert forall i :: 0 <= i < |r| ==> r[i].head == gs[i].head;
  }

  /** `Tops` is the host's `filter` on level 1. */
  lemma {:induction false} TopsIsFilter(hs: seq<Heading>)
    ensures Tops(hs) == Filter(IsTop, hs)
    decreases |hs|
  {
    if |hs| > 0 {
      var init := hs[..|hs| - 1];
      var h := hs[|hs| - 1];
      SnocSplit(hs);
      TopsIsFilter(init);
      FilterAppend(IsTop, init, [h]);
      FilterSingle(IsTop, h);
      assert hs[..|hs| - 1] == init;
    }
  }

  /** The headings of the sections, each followed by its children, in section order. */
  function Unfold(gs: seq<Section>): seq<Heading>
  {
    if |gs| == 0 then [] else Unfold(gs[..|gs| - 1]) + [gs[|gs| - 1].head] + gs[|gs| - 1].children
  }

  /** Number of headings before the first level-1 heading. */
  function Lead(hs: seq<Heading>): (n: nat)
    ensures n <= |hs|
  {
    if |hs| == 0 || IsTop(hs[0]) then 0 else 1 + Lead(hs[1..])
  }

  /** `Lead` counts exactly the headings before the first level-1 heading. */
  lemma {:induction false} LeadSpec(hs: seq<Heading>)
    ensures forall i :: 0 <= i < Lead(hs) ==> !IsTop(hs[i])
    ensures Lead(hs) < |hs| ==> IsTop(hs[Lead(hs)])
    decreases |hs|
  {
    if |hs| > 0 && !IsTop(hs[0]) {
      LeadSpec(hs[1..]);
    }
  }

  lemma {:induction false} LeadSnoc(hs: seq<Heading>, h: Heading)
    ensures Lead(hs + [h]) == (if Lead(hs) < |hs| then Lead(hs) else if IsTop(h) then |hs| else |hs| + 1)
    decreases |hs|
  {
    if |hs| > 0 {
      assert (hs + [h])[1..] == hs[1..] + [h];
      LeadSnoc(hs[1..], h);
    }
  }

  /** There are no groups exactly when no heading has level 1. */
  lemma {:induction false} NoGroupsIffNoTop(hs: seq<Heading>)
    ensures GroupHeadings(hs) == [] <==> Lead(hs) == |hs|
    decreases |hs|
  {
    if |hs| > 0 {
      var init := hs[..|hs| - 1];
      var h := hs[|hs| - 1];
      SnocSplit(hs);
      NoGroupsIffNoTop(init);
      LeadSnoc(init, h);
    }
  }

  /**
    Grouping loses and invents nothing after the first level-1 heading: listing
    each section's heading followed by its children gives back exactly the
    headings from the first level-1 heading on, in order. Headings before it
    are dropped.
   */
  lemma {:induction false} GroupingKeepsOrder(hs: seq<Heading>)
    requires forall i :: 0 <= i < |hs| ==> 1 <= hs[i].level
    ensures Unfold(GroupHeadings(hs)) == hs[Lead(hs)..]
    decreases |hs|
  {
    if |hs| > 0 {
      var init := hs[..|hs| - 1];
      GroupingKeepsOrder(init);
      GroupingStep(hs);
    }
  }

  /** One more heading extends the unfolded groups exactly as it extends the headings from the first level-1 one. */
  lemma {:induction false} GroupingStep(hs: seq<Heading>)
    requires |hs| > 0 && 1 <= hs[|hs| - 1].level
    requires Unfold(GroupHeadings(hs[..|hs| - 1])) == hs[..|hs| - 1][Lead(hs[..|hs| - 1])..]
    ensures Unfold(GroupHeadings(hs)) == hs[Lead(hs)..]
  {
    var init := hs[..|hs| - 1];
    var h := hs[|hs| - 1];
    SnocSplit(hs);
    var gs := GroupHeadings(init);
    LeadSnoc(init, h);
    NoGroupsIffNoTop(init);
    var lead := Lead(init);
    if h.level == 1 {
      assert GroupHeadings(hs) == gs + [Section(h, [])];
      UnfoldNewGroup(gs, h);
      assert hs[Lead(hs)..] == init[lead..] + [h];
    } else if |gs| > 0 {
      var last := gs[|gs| - 1];
      assert GroupHeadings(hs) == gs[..|gs| - 1] + [Section(last.head, last.children + [h])];
      UnfoldExtend(gs, h);
      assert Lead(hs) == lead;
      assert hs[lead..] == init[lead..] + [h];
    } else {
      assert GroupHeadings(hs) == [];
      assert Lead(hs) == |hs|;
    }
  }

  lemma UnfoldNewGroup(gs: seq<Section>, h: Heading)
    ensures Unfold(gs + [Section(h, [])]) == Unfold(gs) + [h]
  {
    var r := gs + [Section(h, [])];
    assert r[..|r| - 1] == gs;
  }

  lemma UnfoldExtend(gs: seq<Section>, h: Heading)
    requires |gs| > 0
    ensures var last := gs[|gs| - 1];
      Unfold(gs[..|gs| - 1] + [Section(last.head, last.children + [h])]) == Unfold(gs) + [h]
  {
    var last := gs[|gs| - 1];
    var front := gs[..|gs| - 1];
    UnfoldSnoc(front, Section(last.head, last.children + [h]));
    SnocSplit(gs);
    UnfoldSnoc(front, last);
    ConcatAssoc(Unfold(front) + [last.head], last.children, [h]);
  }

  lemma UnfoldSnoc(gs: seq<Section>, g: Section)
    ensures Unfold(gs + [g]) == Unfold(gs) + [g.head] + g.children
  {
    assert (gs + [g])[..|gs|] == gs;
  }

  // ---------------------------------------------------------------------------
  // Chunks and the "load more" counter
  // ---------------------------------------------------------------------------

  const ChunkSize: nat := 5000

  /** `markdown.slice(i, i + 5000)` for i = 0, 5000, ... below the length. */
  function Chunks(md: string): (cs: seq<string>)
    ensures Flatten(cs) == md
    ensures forall i :: 0 <= i < |cs| ==> 0 < |cs[i]| <= ChunkSize
    ensures forall i :: 0 <= i < |cs| - 1 ==> |cs[i]| == ChunkSize
    ensures |cs| == Paging.TotalPages(|md|, ChunkSize)
    decreases |md|
  {
    if |md| == 0 then []
    else if |md| <= ChunkSize then
      assert Flatten([md]) == md + Flatten([]);
      [md]
    else
      var rest := Chunks(md[ChunkSize..]);
      assert ([md[..ChunkSize]] + rest)[1..] == rest;
      assert md == md[..ChunkSize] + md[ChunkSize..];
      [md[..ChunkSize]] + rest
  }

  /** Chunk i is page i + 1 of the text, pages being 5000 characters long. */
  lemma {:induction false} ChunkIsPage(md: string, i: nat)
    requires i < |Chunks(md)|
    ensures Chunks(md)[i] == Paging.Page(md, i + 1, ChunkSize)
    decreases |md|
  {
    if |md| > ChunkSize && i > 0 {
      var rest := md[ChunkSize..];
      ChunkIsPage(rest, i - 1);
      assert Chunks(md)[i] == Chunks(rest)[i - 1] by {
        assert Chunks(md) == [md[..ChunkSize]] + Chunks(rest);
      }
      PageOfTail(md, i);
    }
  }

  /** Page i of the text after the first chunk is page i + 1 of the whole text. */
  lemma PageOfTail(md: string, i: nat)
    requires |md| > ChunkSize && i >= 1
    ensures Paging.Page(md[ChunkSize..], i, ChunkSize) == Paging.Page(md, i + 1, ChunkSize)
  {
    var rest := md[ChunkSize..];
    var a := Min((i - 1) * ChunkSize, |rest|);
    var b := Min(i * ChunkSize, |rest|);
    assert Paging.Page(rest, i, ChunkSize) == rest[a..b];
    assert Paging.Page(md, i + 1, ChunkSize) == md[ChunkSize + a..ChunkSize + b];
    SliceOfSuffix(md, ChunkSize, a, b);
  }

  /** The rendered chunks and how many of them are shown. */
  datatype Loader = Loader(chunks: seq<string>, loaded: nat)

  predicate LoaderValid(st: Loader)
  {
    && st.loaded <= |st.chunks|
    && forall i :: 0 <= i < |st.chunks| ==> |st.chunks[i]| > 0
  }

  const InitialLoader := Loader([], 0)

  /** The effect on `markdown`: a non-empty text is cut and the first three chunks shown. */
  function OnMarkdown(st: Loader, md: string): (r: Loader)
    ensures LoaderValid(st) ==> LoaderValid(r)
    ensures md != "" ==> Flatten(r.chunks) == md && r.loaded == Min(3, |r.chunks|)
    ensures md == "" ==> r == st
  {
    if md != "" then
      var cs := Chunks(md);
      Loader(cs, Min(3, |cs|))
    else st
  }

  /** `loadMoreChunks`: two more chunks, never past the last. */
  function LoadMore(st: Loader): (r: Loader)
    ensures r.chunks == st.chunks
    ensures st.loaded <= r.loaded
    ensures st.loaded <= |st.chunks| ==> r.loaded <= |st.chunks|
    ensures st.loaded < |st.chunks| ==> r.loaded - st.loaded == Min(2, |st.chunks| - st.loaded)
    ensures st.loaded >= |st.chunks| ==> r == st
    ensures LoaderValid(st) ==> LoaderValid(r)
  {
    if st.loaded < |st.chunks| then st.(loaded := Min(st.loaded + 2, |st.chunks|)) else st
  }

  function LoadMoreTimes(st: Loader, k: nat): Loader
  {
    if k == 0 then st else LoadMore(LoadMoreTimes(st, k - 1))
  }

  /** After k requests for more, min(3 + 2k, n) of the n chunks are shown. */
  lemma {:induction false} LoadMoreCount(md: string, k: nat)
    requires md != ""
    ensures LoadMoreTimes(OnMarkdown(InitialLoader, md), k).loaded == Min(3 + 2 * k, |Chunks(md)|)
    ensures LoadMoreTimes(OnMarkdown(InitialLoader, md), k).chunks == Chunks(md)
  {
    if k > 0 {
      LoadMoreCount(md, k - 1);
    }
  }

  /** The text on screen: the loaded chunks, in order. */
  function Visible(st: Loader): string
    requires st.loaded <= |st.chunks|
  {
    Flatten(st.chunks[..st.loaded])
  }

  /** "Loading more content" shows exactly when part of the text is not yet on screen. */
  lemma IndicatorIffHidden(st: Loader)
    requires LoaderValid(st)
    ensures st.loaded < |st.chunks| <==> Visible(st) != Flatten(st.chunks)
  {
    FlattenPrefix(st.chunks, st.loaded);
    if st.loaded < |st.chunks| {
      assert Flatten(st.chunks[st.loaded..]) == st.chunks[st.loaded] + Flatten(st.chunks[st.loaded..][1..]);
      assert |Flatten(st.chunks[st.loaded..])| > 0;
    } else {
      assert st.chunks[..st.loaded] == st.chunks;
    }
  }

  // ---------------------------------------------------------------------------
  // One table-of-contents group
  // ---------------------------------------------------------------------------

  datatype ItemView = ItemView(id: string, title: string, level: nat, indent: int, active: bool)

  datatype SectionView = SectionView(
    id: string, title: string, active: bool,
    hasToggle: bool, toggleOpen: bool,
    listed: bool, items: seq<ItemView>)

  function ViewItem(h: Heading, activeHeading: string): ItemView
  {
    ItemView(h.id, h.title, h.level, (h.level - 2) * 15, h.id == activeHeading)
  }

  /** `TOCSection` as data: the header link, the toggle, and the child list when shown. */
  function ViewSection(s: Section, activeHeading: string, expanded: map<string, bool>): (v: SectionView)
    ensures v.id == s.head.id && v.title == s.head.title
    ensures v.active <==> s.head.id == activeHeading
    ensures v.hasToggle <==> |s.children| > 0
    ensures v.listed <==> |s.children| > 0 && IsOpen(expanded, s.head.id)
    ensures v.listed ==> |v.items| == |s.children|
    ensures !v.listed ==> v.items == []
    ensures forall i :: 0 <= i < |v.items| ==>
      v.items[i].id == s.children[i].id && v.items[i].title == s.children[i].title
      && v.items[i].indent == (s.children[i].level - 2) * 15
      && (v.items[i].active <==> s.children[i].id == activeHeading)
  {
    var listed := |s.children| > 0 && IsOpen(expanded, s.head.id);
    SectionView(
      s.head.id, s.head.title, s.head.id == activeHeading,
      |s.children| > 0, IsOpen(expanded, s.head.id),
      listed,
      if listed then seq(|s.children|, i requires 0 <= i < |s.children| => ViewItem(s.children[i], activeHeading)) else [])
  }

  /** The toggle of a group with children shows and hides its list. */
  lemma ToggleFlipsList(s: Section, activeHeading: string, expanded: map<string, bool>)
    requires |s.children| > 0
    ensures ViewSection(s, activeHeading, Toggle(expanded, s.head.id)).listed
      == !ViewSection(s, activeHeading, expanded).listed
  {
  }

  /** Under the initial expansion state every group that has children lists them: group heads are level-1 headings, which start expanded. */
  lemma OpenGroupsListed(hs: seq<Heading>, i: nat, activeHeading: string)
    requires i < |GroupHeadings(hs)| && |GroupHeadings(hs)[i].children| > 0
    ensures ViewSection(GroupHeadings(hs)[i], activeHeading, InitialExpanded(hs)).listed
  {
    var head := GroupHeadings(hs)[i].head;
    GroupHeads(hs);
    assert head == Heads(GroupHeadings(hs))[i] == Tops(hs)[i];
    assert head in hs && head.level <= 2;
    InitiallyOpen(hs, head.id);
  }
}
