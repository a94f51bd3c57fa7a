/**
  How the markdown cheat-sheet page cuts a subsection's content for
  display: fenced code blocks split out by `/(```[\s\S]*?```)/g`, the other
  text cut into lists, tables and paragraphs line by line, and inline links
  split out by `/\[([^\]]+)\]\(([^)]+)\)/g`.
 */
module MarkdownRender {
  import opened Seqs
  import opened Text

  const Ticks := "```"

  // ---------------------------------------------------------------------------
  // Fenced code: `/(```[\s\S]*?```)/g`
  // ---------------------------------------------------------------------------

  /** The fence pattern tried at q: three backticks, then the shortest stretch up to the next three. */
  function FenceHit(s: string, q: nat): (r: Option<Hit>)
    ensures r.Some? ==> q + 6 <= r.value.end <= |s|
    ensures r.Some? ==> r.value.groups == [s[q..r.value.end]]
  {
    if q + 3 <= |s| && s[q..q + 3] == Ticks then
      match FindFrom(s, Ticks, q + 3)
        case None => None
        case Some(c) => Some(Hit(c + 3, [s[q..c + 3]]))
    else None
  }

  function FenceMatcher(s: string): nat -> Option<Hit>
  {
    (q: nat) => FenceHit(s, q)
  }

  /** A captured fence: at least six characters, opening and closing with three backticks. */
  function IsFenced(): string -> bool
  {
    (x: string) => |x| >= 6 && StartsWith(x, Ticks) && EndsWith(x, Ticks)
  }

  lemma FenceMatcherValid(s: string)
    ensures ValidMatcher(s, FenceMatcher(s))
    ensures forall q: nat :: q < |s| && FenceMatcher(s)(q).Some? ==>
      |FenceMatcher(s)(q).value.groups| == 1 &&
      IsFenced()(FenceMatcher(s)(q).value.groups[0]) &&
      Flatten(FenceMatcher(s)(q).value.groups) == s[q..FenceMatcher(s)(q).value.end]
  {
    forall q: nat | q < |s| && FenceHit(s, q).Some?
      ensures IsFenced()(FenceHit(s, q).value.groups[0])
      ensures Flatten(FenceHit(s, q).value.groups) == s[q..FenceHit(s, q).value.end]
    {
      var e := FenceHit(s, q).value.end;
      var x := s[q..e];
      assert x[..3] == s[q..q + 3];
      assert x[|x| - 3..] == s[e - 3..e];
      assert Flatten([x]) == x + Flatten([]);
    }
  }

  /** `content.split(/(```[\s\S]*?```)/g)` */
  function FenceSplit(s: string): seq<string>
  {
    FenceMatcherValid(s);
    RegexSplit(s, FenceMatcher(s), 0)
  }

  /** The split loses nothing, and every odd piece is a whole fenced block. */
  lemma FenceSplitShape(s: string)
    ensures Flatten(FenceSplit(s)) == s
    ensures |FenceSplit(s)| % 2 == 1
    ensures forall i :: 0 <= i < |FenceSplit(s)| && i % 2 == 1 ==> IsFenced()(FenceSplit(s)[i])
  {
    FenceMatcherValid(s);
    RegexSplitCovers(s, FenceMatcher(s), 0);
    RegexSplitOdd(s, FenceMatcher(s), 0, IsFenced());
  }

  /** `s.replace(t, '')` with a string pattern: only the first occurrence goes. */
  function RemoveFirst(s: string, t: string): string
  {
    match FindFrom(s, t, 0)
      case None => s
      case Some(k) => s[..k] + s[k + |t|..]
  }

  /** `lines.slice(1, -1)` */
  function Inner(lines: seq<string>): (r: seq<string>)
  {
    if |lines| >= 2 then lines[1..|lines| - 1] else []
  }

  /** A code block: the language on the opening line and the lines strictly between the fence lines. */
  datatype Code = Code(language: string, code: string)

  function CodeOf(part: string): Code
  {
    var lines := Split(part, '\n');
    Code(Trim(RemoveFirst(lines[0], Ticks)), Join(Inner(lines), '\n'))
  }

  /** Removing the backticks from an opening line leaves its language word. */
  lemma RemoveTicks(language: string)
    ensures RemoveFirst(Ticks + language, Ticks) == language
  {
    var w := Ticks + language;
    assert w[0..][..3] == Ticks;
    assert FindFrom(w, Ticks, 0) == Some(0);
    assert w[3..] == language;
  }

  lemma FenceLinesClean(language: string, body: seq<string>)
    requires '\n' !in language
    requires forall i :: 0 <= i < |body| ==> '\n' !in body[i]
    ensures forall i :: 0 <= i < |[Ticks + language] + body + [Ticks]| ==>
      '\n' !in ([Ticks + language] + body + [Ticks])[i]
  {
    var lines := [Ticks + language] + body + [Ticks];
    forall i | 0 <= i < |lines| ensures '\n' !in lines[i] {
      if i == 0 {
        assert lines[i] == Ticks + language;
        assert '\n' !in Ticks;
      } else if i < |lines| - 1 {
        assert lines[i] == body[i - 1];
      } else {
        assert lines[i] == Ticks;
      }
    }
  }

  /**
    For a block written as an opening line with a language, body lines and a
    closing line, the code is exactly the body lines and the language the
    opening line's word.
   */
  lemma CodeOfFence(language: string, body: seq<string>)
    requires '\n' !in language
    requires forall i :: 0 <= i < |body| ==> '\n' !in body[i]
    ensures CodeOf(Join([Ticks + language] + body + [Ticks], '\n')) ==
      Code(Trim(language), Join(body, '\n'))
  {
    var lines := [Ticks + language] + body + [Ticks];
    FenceLinesClean(language, body);
    SplitJoin(lines, '\n');
    assert Inner(lines) == body;
    RemoveTicks(language);
  }

  // ---------------------------------------------------------------------------
  // Lists, tables and paragraphs
  // ---------------------------------------------------------------------------

  datatype Block =
    | List(items: seq<string>)
    | Table(headers: seq<string>, rows: seq<seq<string>>)
    | Para(line: string)

  /** `line.trim().startsWith('- ') || line.trim().startsWith('* ')` */
  predicate IsListLine(line: string)
  {
    StartsWith(Trim(line), "- ") || StartsWith(Trim(line), "* ")
  }

  function ListLine(): string -> bool
  {
    (x: string) => IsListLine(x)
  }

  function PipeLine(): string -> bool
  {
    (x: string) => '|' in x
  }

  /** A line with a pipe, followed by one with a pipe and `---`. */
  predicate TableAt(lines: seq<string>, i: nat)
  {
    i + 1 < |lines| && '|' in lines[i] && '|' in lines[i + 1] && Contains(lines[i + 1], "---")
  }

  /** The end of the run of list lines from i. */
  function ListEnd(lines: seq<string>, i: nat): (j: nat)
    requires i <= |lines|
    ensures i <= j <= |lines|
    ensures forall k :: i <= k < j ==> IsListLine(lines[k])
    ensures j == |lines| || !IsListLine(lines[j])
  {
    RunEnd(ListLine(), lines, i)
  }

  /** The end of the run of lines with a pipe from i. */
  function PipeEnd(lines: seq<string>, i: nat): (j: nat)
    requires i <= |lines|
    ensures i <= j <= |lines|
    ensures forall k :: i <= k < j ==> '|' in lines[k]
    ensures j == |lines| || '|' !in lines[j]
  {
    RunEnd(PipeLine(), lines, i)
  }

  /** `lines[j].substring(2).trim()`, on the untrimmed line. */
  function ItemText(line: string): string
  {
    Trim(if |line| >= 2 then line[2..] else "")
  }

  function NotBlank(): string -> bool
  {
    (x: string) => Trim(x) != ""
  }

  /** `row.split('|').filter(cell => cell.trim() !== '')`, each cell trimmed as shown. */
  function Cells(row: string): (r: seq<string>)
  {
    var cells := Filter(NotBlank(), Split(row, '|'));
    seq(|cells|, k requires 0 <= k < |cells| => Trim(cells[k]))
  }

  /** The number of lines a block took. */
  function Size(b: Block): nat
  {
    match b
      case List(items) => |items|
      case Table(_, rows) => 2 + |rows|
      case Para(_) => 1
  }

  function TotalSize(bs: seq<Block>): nat
  {
    if bs == [] then 0 else Size(bs[0]) + TotalSize(bs[1..])
  }

  /** No list block is directly followed by another: consecutive list lines always merge. */
  ghost predicate ListsMerged(bs: seq<Block>)
  {
    forall k :: 0 <= k < |bs| - 1 ==> !(bs[k].List? && bs[k + 1].List?)
  }

  lemma ListsMergedCons(b: Block, bs: seq<Block>)
    requires ListsMerged(bs)
    requires b.List? && |bs| > 0 ==> !bs[0].List?
    ensures ListsMerged([b] + bs)
  {
    var r := [b] + bs;
    forall k | 0 <= k < |r| - 1 ensures !(r[k].List? && r[k + 1].List?) {
      if k > 0 {
        assert r[k] == bs[k - 1] && r[k + 1] == bs[k];
      }
    }
  }

  /** The lines the loop sees: blank ones were filtered out before. */
  predicate NonBlankLines(lines: seq<string>)
  {
    forall k :: 0 <= k < |lines| ==> Trim(lines[k]) != ""
  }

  lemma FilterNonBlank(xs: seq<string>)
    ensures NonBlankLines(Filter(NotBlank(), xs))
  {
    var r := Filter(NotBlank(), xs);
    forall k | 0 <= k < |r| ensures Trim(r[k]) != "" {
      assert r[k] in r;
    }
  }

  /** The list that starts at line i: one item per list line of the run. */
  function ListBlock(lines: seq<string>, i: nat): (r: (Block, nat))
    requires i < |lines|
    ensures r.0.List? && i <= r.1 <= |lines| && |r.0.items| == r.1 - i
    ensures IsListLine(lines[i]) ==> i < r.1
    ensures r.1 == |lines| || !IsListLine(lines[r.1])
  {
    var j := ListEnd(lines, i);
    (List(seq(j - i, k requires 0 <= k < j - i => ItemText(lines[i + k]))), j)
  }

  /** The table that starts at line i: its header, the separator line, then every following line with a pipe. */
  function TableBlock(lines: seq<string>, i: nat): (r: (Block, nat))
    requires i + 2 <= |lines|
    ensures r.0.Table? && i + 2 <= r.1 <= |lines| && |r.0.rows| == r.1 - (i + 2)
  {
    var j := PipeEnd(lines, i + 2);
    (Table(Cells(lines[i]), seq(j - (i + 2), k requires 0 <= k < j - (i + 2) => Cells(lines[i + 2 + k]))), j)
  }

  /** One pass of the loop at line i: the list or table that starts there, or that line as a paragraph, and where the next pass starts. */
  function NextBlock(lines: seq<string>, i: nat): (r: (Block, nat))
    requires i < |lines|
    ensures i < r.1 <= |lines| && Size(r.0) == r.1 - i
    ensures r.0.List? <==> IsListLine(lines[i])
    ensures r.0.List? ==> r.1 == |lines| || !IsListLine(lines[r.1])
    ensures r.0.Table? <==> !IsListLine(lines[i]) && TableAt(lines, i)
  {
    if IsListLine(lines[i]) then ListBlock(lines, i)
    else if TableAt(lines, i) then TableBlock(lines, i)
    else (Para(lines[i]), i + 1)
  }

  /**
    The `for` loop over the non-blank lines, from line i on. Its last test,
    that a paragraph line is not blank, always holds on these lines.
   */
  function Blocks(lines: seq<string>, i: nat): (r: seq<Block>)
    requires i <= |lines| && NonBlankLines(lines)
    decreases |lines| - i
  {
    if i == |lines| then []
    else
      var (b, j) := NextBlock(lines, i);
      [b] + Blocks(lines, j)
  }

  /** A list block only starts on a list line, and no list block directly follows another. */
  lemma {:induction false} BlocksListsMerged(lines: seq<string>, i: nat)
    requires i <= |lines| && NonBlankLines(lines)
    ensures var r := Blocks(lines, i);
      (|r| > 0 && r[0].List? ==> i < |lines| && IsListLine(lines[i])) && ListsMerged(r)
    decreases |lines| - i
  {
    if i < |lines| {
      var (b, j) := NextBlock(lines, i);
      BlocksListsMerged(lines, j);
      ListsMergedCons(b, Blocks(lines, j));
    }
  }

  lemma {:induction false} TotalSizeCons(b: Block, bs: seq<Block>)
    ensures TotalSize([b] + bs) == Size(b) + TotalSize(bs)
  {
    assert ([b] + bs)[1..] == bs;
  }

  /** Over non-blank lines every line lands in exactly one block: the sizes add up to the line count. */
  lemma {:induction false} BlocksCoverLines(lines: seq<string>, i: nat)
    requires i <= |lines| && NonBlankLines(lines)
    ensures TotalSize(Blocks(lines, i)) == |lines| - i
    decreases |lines| - i
  {
    if i < |lines| {
      var (b, j) := NextBlock(lines, i);
      BlocksCoverLines(lines, j);
      TotalSizeCons(b, Blocks(lines, j));
    }
  }

  /** What a non-code part becomes. */
  datatype Piece = Fenced(code: Code) | Prose(blocks: seq<Block>) | Empty

  /** One piece of the fence split: a code block, the blocks of its non-blank lines, or nothing. */
  function RenderPart(part: string): (r: Piece)
    ensures r.Fenced? <==> StartsWith(part, Ticks) && EndsWith(part, Ticks)
    ensures r.Empty? <==> !(StartsWith(part, Ticks) && EndsWith(part, Ticks)) && Trim(part) == ""
    ensures r.Prose? ==> TotalSize(r.blocks) == |Filter(NotBlank(), Split(part, '\n'))|
    ensures r.Prose? ==> ListsMerged(r.blocks)
  {
    if StartsWith(part, Ticks) && EndsWith(part, Ticks) then Fenced(CodeOf(part))
    else if Trim(part) != "" then
      var lines := Filter(NotBlank(), Split(part, '\n'));
      FilterNonBlank(Split(part, '\n'));
      BlocksCoverLines(lines, 0);
      BlocksListsMerged(lines, 0);
      Prose(Blocks(lines, 0))
    else Empty
  }

  /** `renderContent`: every piece of the fence split, in order. */
  function RenderContent(content: string): (r: seq<Piece>)
    ensures |r| == |FenceSplit(content)|
  {
    var parts := FenceSplit(content);
    seq(|parts|, i requires 0 <= i < |parts| => RenderPart(parts[i]))
  }

  /** Every block the fence pattern cuts out is shown as code. */
  lemma FencedPiecesAreCode(content: string)
    ensures forall i :: 0 <= i < |RenderContent(content)| && i % 2 == 1 ==> RenderContent(content)[i].Fenced?
  {
    FenceSplitShape(content);
  }

  // ---------------------------------------------------------------------------
  // Inline links: `/\[([^\]]+)\]\(([^)]+)\)/g`
  // ---------------------------------------------------------------------------

  /**
    The link pattern tried at q. Each `[^x]+` can only succeed with its whole
    run (a shorter take is followed by a character other than x), so the
    match is fixed by the first `]` and the first `)` after it.
   */
  function LinkHit(s: string, q: nat): (r: Option<Hit>)
    ensures r.Some? ==> q < r.value.end <= |s|
  {
    if q < |s| && s[q] == '[' then
      var a := RunTo(s, q + 1, ']');
      if a > q + 1 && a + 1 < |s| && s[a + 1] == '(' then
        var b := RunTo(s, a + 2, ')');
        if b > a + 2 && b < |s| then Some(Hit(b + 1, [s[q + 1..a], s[a + 2..b]]))
        else None
      else None
    else None
  }

  /** `[t](u)` with a non-empty t free of `]` and a non-empty u free of `)`. */
  predicate IsLink(x: string, t: string, u: string)
  {
    x == "[" + t + "](" + u + ")" && t != "" && ']' !in t && u != "" && ')' !in u
  }

  /** A match is a link whose two groups are its text and its target. */
  lemma LinkHitSound(s: string, q: nat)
    ensures LinkHit(s, q).Some? ==>
      |LinkHit(s, q).value.groups| == 2 &&
      IsLink(s[q..LinkHit(s, q).value.end], LinkHit(s, q).value.groups[0], LinkHit(s, q).value.groups[1])
  {
    if LinkHit(s, q).Some? {
      var a := RunTo(s, q + 1, ']');
      var b := RunTo(s, a + 2, ')');
      var t := s[q + 1..a];
      var u := s[a + 2..b];
      assert ']' !in t by {
        forall k | 0 <= k < |t| ensures t[k] != ']' {
          assert t[k] == s[q + 1 + k];
        }
      }
      assert ')' !in u by {
        forall k | 0 <= k < |u| ensures u[k] != ')' {
          assert u[k] == s[a + 2 + k];
        }
      }
      assert s[q..b + 1] == "[" + t + "](" + u + ")";
    }
  }

  /** Where the brackets, the parentheses and the two groups of a written link sit. */
  lemma LinkShape(x: string, t: string, u: string)
    requires x == "[" + t + "](" + u + ")"
    ensures |x| == |t| + |u| + 4
    ensures x[0] == '[' && x[1 + |t|] == ']' && x[2 + |t|] == '(' && x[3 + |t| + |u|] == ')'
    ensures x[1..1 + |t|] == t && x[3 + |t|..3 + |t| + |u|] == u
  {
  }

  /** Wherever a link is written, the pattern matches it there, with that text and target. */
  lemma LinkHitComplete(s: string, q: nat, t: string, u: string)
    requires q + |t| + |u| + 4 <= |s|
    requires IsLink(s[q..q + |t| + |u| + 4], t, u)
    ensures LinkHit(s, q) == Some(Hit(q + |t| + |u| + 4, [t, u]))
  {
    var e := q + |t| + |u| + 4;
    var x := s[q..e];
    var a := q + 1 + |t|;
    var b := a + 2 + |u|;
    LinkShape(x, t, u);
    SliceOfSlice(s, q, e, 1, 1 + |t|);
    SliceOfSlice(s, q, e, 3 + |t|, 3 + |t| + |u|);
    assert s[q] == x[0] && s[a] == x[1 + |t|] && s[a + 1] == x[2 + |t|] && s[b] == x[3 + |t| + |u|];
    LinkHitAt(s, q, a, b);
  }

  /** The pattern at q given where the first `]` and the first `)` after it sit. */
  lemma LinkHitAt(s: string, q: nat, a: nat, b: nat)
    requires q + 1 < a && a + 2 < b < |s|
    requires s[q] == '[' && s[a] == ']' && s[a + 1] == '(' && s[b] == ')'
    requires ']' !in s[q + 1..a] && ')' !in s[a + 2..b]
    ensures LinkHit(s, q) == Some(Hit(b + 1, [s[q + 1..a], s[a + 2..b]]))
  {
    NotInSlice(s, q + 1, a, ']');
    NotInSlice(s, a + 2, b, ')');
    RunToFirst(s, q + 1, a, ']');
    RunToFirst(s, a + 2, b, ')');
  }

  function LinkMatcher(s: string): nat -> Option<Hit>
  {
    (q: nat) => LinkHit(s, q)
  }

  /** What an inline piece shows. */
  datatype Inline = Plain(text: string) | Link(text: string, href: string) | Skipped

  /** The `parts.map` over the split: index 1 mod 3 is link text with the next part as its target, 2 mod 3 is skipped. */
  function RenderParts(parts: seq<string>): (r: seq<Inline>)
    ensures |r| == |parts|
  {
    seq(|parts|, i requires 0 <= i < |parts| =>
      if i % 3 == 1 then Link(parts[i], if i + 1 < |parts| then parts[i + 1] else "")
      else if i % 3 == 2 then Skipped
      else Plain(parts[i]))
  }

  /** `renderInlineMarkdown` */
  function RenderInline(text: string): seq<Inline>
  {
    RenderParts(RegexSplit(text, LinkMatcher(text), 0))
  }

  /** The markdown an inline piece stands for. */
  function Source(x: Inline): string
  {
    match x
      case Plain(t) => t
      case Link(t, u) => "[" + t + "](" + u + ")"
      case Skipped => ""
  }

  function Sources(xs: seq<Inline>): string
  {
    if xs == [] then "" else Source(xs[0]) + Sources(xs[1..])
  }

  lemma {:induction false} SourcesAppend(a: seq<Inline>, b: seq<Inline>)
    ensures Sources(a + b) == Sources(a) + Sources(b)
    decreases |a|
  {
    if a == [] {
      assert a + b == b;
    } else {
      assert (a + b)[0] == a[0];
      assert (a + b)[1..] == a[1..] + b;
      SourcesAppend(a[1..], b);
    }
  }

  lemma RenderPartsCons(t: string, caption: string, target: string, rest: seq<string>)
    ensures RenderParts([t, caption, target] + rest) == [Plain(t), Link(caption, target), Skipped] + RenderParts(rest)
  {
    var parts := [t, caption, target] + rest;
    var a := RenderParts(parts);
    var b := [Plain(t), Link(caption, target), Skipped] + RenderParts(rest);
    forall i | 3 <= i < |parts| ensures a[i] == b[i] {
      assert parts[i] == rest[i - 3];
      assert i + 1 < |parts| <==> i - 3 + 1 < |rest|;
      assert i + 1 < |parts| ==> parts[i + 1] == rest[i - 2];
    }
  }

  lemma SourcesTriple(t: string, caption: string, target: string)
    ensures Sources([Plain(t), Link(caption, target), Skipped]) == t + ("[" + caption + "](" + target + ")")
  {
    var xs := [Plain(t), Link(caption, target), Skipped];
    assert xs[1..] == [Link(caption, target), Skipped];
    assert [Link(caption, target), Skipped][1..] == [Skipped];
    assert Sources([Skipped]) == "" + Sources([]);
    assert Sources(xs[1..]) == "[" + caption + "](" + target + ")" + Sources([Skipped]);
  }

  lemma SourcesStep(a: string, t: string, u: string, rest: seq<string>, tail: string)
    requires Sources(RenderParts(rest)) == tail
    ensures Sources(RenderParts([a, t, u] + rest)) == a + ("[" + t + "](" + u + ")") + tail
  {
    var head := [Plain(a), Link(t, u), Skipped];
    RenderPartsCons(a, t, u, rest);
    SourcesAppend(head, RenderParts(rest));
    SourcesTriple(a, t, u);
  }

  /** Every match of `at` is a link, captured as its text and its target. */
  ghost predicate MatchesLinks(s: string, at: nat -> Option<Hit>)
  {
    forall q: nat :: q < |s| && at(q).Some? ==>
      q < at(q).value.end <= |s| && |at(q).value.groups| == 2 &&
      IsLink(s[q..at(q).value.end], at(q).value.groups[0], at(q).value.groups[1])
  }

  lemma LinkMatcherMatchesLinks(s: string)
    ensures ValidMatcher(s, LinkMatcher(s)) && MatchesLinks(s, LinkMatcher(s))
  {
    forall q: nat | q < |s| && LinkMatcher(s)(q).Some?
      ensures |LinkMatcher(s)(q).value.groups| == 2
      ensures IsLink(s[q..LinkMatcher(s)(q).value.end], LinkMatcher(s)(q).value.groups[0], LinkMatcher(s)(q).value.groups[1])
    {
      LinkHitSound(s, q);
    }
  }

  /** One step of a split by a link pattern: the text before the match, its two groups, then the rest. */
  lemma LinkSplitStep(s: string, at: nat -> Option<Hit>, p: nat, q: nat)
    requires p <= |s| && ValidMatcher(s, at) && MatchesLinks(s, at)
    requires FirstHit(|s|, at, p) == Some(q)
    ensures var h := at(q).value;
      |h.groups| == 2 && IsLink(s[q..h.end], h.groups[0], h.groups[1]) &&
      RegexSplit(s, at, p) == [s[p..q], h.groups[0], h.groups[1]] + RegexSplit(s, at, h.end)
  {
    RegexSplitStep(s, at, p, q);
    var h := at(q).value;
    assert h.groups == [h.groups[0], h.groups[1]];
  }

  lemma {:induction false} LinkSplitSources(s: string, at: nat -> Option<Hit>, p: nat)
    requires p <= |s| && ValidMatcher(s, at) && MatchesLinks(s, at)
    ensures Sources(RenderParts(RegexSplit(s, at, p))) == s[p..]
    decreases |s| - p
  {
    match FirstHit(|s|, at, p)
      case None =>
        assert RenderParts([s[p..]]) == [Plain(s[p..])];
        assert Sources([Plain(s[p..])]) == s[p..] + Sources([]);
      case Some(q) =>
        LinkSplitStep(s, at, p, q);
        var h := at(q).value;
        LinkSplitSources(s, at, h.end);
        SourcesStep(s[p..q], h.groups[0], h.groups[1], RegexSplit(s, at, h.end), s[h.end..]);
        SliceThree(s, p, q, h.end);
  }

  /** Writing the pieces back as markdown gives the text: no character is lost or invented. */
  lemma RenderInlineRoundTrip(text: string)
    ensures Sources(RenderInline(text)) == text
  {
    LinkMatcherMatchesLinks(text);
    LinkSplitSources(text, LinkMatcher(text), 0);
  }

  /** Every link a split by a link pattern shows is one written in the text. */
  lemma {:induction false} LinkSplitLinks(s: string, at: nat -> Option<Hit>, p: nat)
    requires p <= |s| && ValidMatcher(s, at) && MatchesLinks(s, at)
    ensures forall i :: 0 <= i < |RenderParts(RegexSplit(s, at, p))| ==>
      var x := RenderParts(RegexSplit(s, at, p))[i];
      x.Link? ==> IsLink(Source(x), x.text, x.href)
    decreases |s| - p
  {
    match FirstHit(|s|, at, p)
      case None =>
        assert RenderParts([s[p..]]) == [Plain(s[p..])];
      case Some(q) =>
        LinkSplitStep(s, at, p, q);
        var h := at(q).value;
        var rest := RegexSplit(s, at, h.end);
        RenderPartsCons(s[p..q], h.groups[0], h.groups[1], rest);
        LinkSplitLinks(s, at, h.end);
        var r := RenderParts(RegexSplit(s, at, p));
        forall i | 0 <= i < |r| && r[i].Link? ensures IsLink(Source(r[i]), r[i].text, r[i].href) {
          if i >= 3 {
            assert r[i] == RenderParts(rest)[i - 3];
          }
        }
  }

  /** Every link shown is one written in the text: non-empty text free of `]`, non-empty target free of `)`. */
  lemma RenderInlineLinks(text: string)
    ensures forall i :: 0 <= i < |RenderInline(text)| ==>
      var x := RenderInline(text)[i];
      x.Link? ==> IsLink(Source(x), x.text, x.href)
  {
    LinkMatcherMatchesLinks(text);
    LinkSplitLinks(text, LinkMatcher(text), 0);
  }
}
