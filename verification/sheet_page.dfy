/**
  The static cheat-sheet page: the inline markdown-to-HTML rewriting, the
  cutting of a sheet's content into sections and subsections, the grid class
  chosen by the number of subsections, and how each part of a subsection is
  shown (code, list, table or paragraph).
 */
module SheetPage {
  import opened Seqs
  import opened Text
  import MarkdownRender

  // ---------------------------------------------------------------------------
  // processMarkdownContent: links, then bold, then italic, then line breaks
  // ---------------------------------------------------------------------------

  const AnchorOpen := "<a href=\""
  const AnchorRest := "\" class=\"text-indigo-600 hover:underline dark:text-slate-300\" target=\"_blank\" rel=\"noopener noreferrer\">"

  /** `'<a href="$2" …>$1</a>'` */
  function Anchor(): seq<string> -> string
  {
    (g: seq<string>) => if |g| == 2 then AnchorOpen + g[1] + AnchorRest + g[0] + "</a>" else ""
  }

  /** `'<strong>$1</strong>'` */
  function Strong(): seq<string> -> string
  {
    (g: seq<string>) => if |g| == 1 then "<strong>" + g[0] + "</strong>" else ""
  }

  /** `'<em>$1</em>'` */
  function Em(): seq<string> -> string
  {
    (g: seq<string>) => if |g| == 1 then "<em>" + g[0] + "</em>" else ""
  }

  // `/\*\*([^*]+)\*\*/` tried at q: the run of non-stars after `**` must be followed by `**`.
  function BoldHit(s: string, q: nat): (r: Option<Hit>)
    ensures r.Some? ==> q < r.value.end <= |s|
  {
    if q + 1 < |s| && s[q] == '*' && s[q + 1] == '*' then
      var a := RunTo(s, q + 2, '*');
      if a > q + 2 && a + 1 < |s| && s[a + 1] == '*' then Some(Hit(a + 2, [s[q + 2..a]]))
      else None
    else None
  }

  function BoldMatcher(s: string): nat -> Option<Hit>
  {
    (q: nat) => BoldHit(s, q)
  }

  // `/\*([^*]+)\*/` tried at q.
  function ItalicHit(s: string, q: nat): (r: Option<Hit>)
    ensures r.Some? ==> q < r.value.end <= |s|
  {
    if q < |s| && s[q] == '*' then
      var a := RunTo(s, q + 1, '*');
      if a > q + 1 && a < |s| then Some(Hit(a + 1, [s[q + 1..a]]))
      else None
    else None
  }

  function ItalicMatcher(s: string): nat -> Option<Hit>
  {
    (q: nat) => ItalicHit(s, q)
  }

  /** A non-empty run free of stars, between the given delimiters. */
  predicate Delimited(x: string, mark: string, t: string)
  {
    x == mark + t + mark && t != "" && '*' !in t
  }

  lemma BoldHitSound(s: string, q: nat)
    ensures BoldHit(s, q).Some? ==>
      |BoldHit(s, q).value.groups| == 1 && Delimited(s[q..BoldHit(s, q).value.end], "**", BoldHit(s, q).value.groups[0])
  {
    if BoldHit(s, q).Some? {
      var a := RunTo(s, q + 2, '*');
      var t := s[q + 2..a];
      forall k | 0 <= k < |t| ensures t[k] != '*' {
        assert t[k] == s[q + 2 + k];
      }
      assert s[q..a + 2] == "**" + t + "**";
    }
  }

  lemma ItalicHitSound(s: string, q: nat)
    ensures ItalicHit(s, q).Some? ==>
      |ItalicHit(s, q).value.groups| == 1 && Delimited(s[q..ItalicHit(s, q).value.end], "*", ItalicHit(s, q).value.groups[0])
  {
    if ItalicHit(s, q).Some? {
      var a := RunTo(s, q + 1, '*');
      var t := s[q + 1..a];
      forall k | 0 <= k < |t| ensures t[k] != '*' {
        assert t[k] == s[q + 1 + k];
      }
      assert s[q..a + 1] == "*" + t + "*";
    }
  }

  function Links(s: string): string
  {
    RegexReplace(s, MarkdownRender.LinkMatcher(s), Anchor(), 0)
  }

  function Bold(s: string): string
  {
    RegexReplace(s, BoldMatcher(s), Strong(), 0)
  }

  function Italic(s: string): string
  {
    RegexReplace(s, ItalicMatcher(s), Em(), 0)
  }

  /** `s.replace(/\n/g, '<br>')` */
  function Breaks(s: string): (r: string)
    ensures '\n' !in r
  {
    if s == [] then ""
    else (if s[0] == '\n' then "<br>" else [s[0]]) + Breaks(s[1..])
  }

  lemma {:induction false} BreaksAppend(a: string, b: string)
    ensures Breaks(a + b) == Breaks(a) + Breaks(b)
    decreases |a|
  {
    if a == [] {
      assert a + b == b;
    } else {
      assert (a + b)[0] == a[0];
      assert (a + b)[1..] == a[1..] + b;
      BreaksAppend(a[1..], b);
    }
  }

  lemma {:induction false} BreaksKeeps(s: string)
    requires '\n' !in s
    ensures Breaks(s) == s
    decreases |s|
  {
    if s != [] {
      assert s[0] in s;
      assert forall c :: c in s[1..] ==> c in s;
      BreaksKeeps(s[1..]);
    }
  }

  lemma BreaksStep(a: string, b: string)
    requires '\n' !in a
    ensures Breaks(a + "\n" + b) == a + "<br>" + Breaks(b)
  {
    BreaksAppend(a + "\n", b);
    BreaksAppend(a, "\n");
    assert Breaks("\n") == "<br>" + Breaks([]);
    BreaksKeeps(a);
  }

  /** Replacing every newline is splitting at newlines and joining with `<br>`. */
  lemma {:induction false} BreaksIsJoin(s: string)
    ensures Breaks(s) == JoinStr(Split(s, '\n'), "<br>")
    decreases |s|
  {
    match IndexOf(s, '\n')
      case None =>
        BreaksKeeps(s);
      case Some(k) =>
        var rest := Split(s[k + 1..], '\n');
        assert Split(s, '\n') == [s[..k]] + rest;
        BreaksIsJoin(s[k + 1..]);
        assert s == s[..k] + "\n" + s[k + 1..];
        BreaksStep(s[..k], s[k + 1..]);
        JoinStrCons(s[..k], rest, "<br>");
  }

  /** `processMarkdownContent`: the output holds no newline. */
  function Process(content: string): (r: string)
    ensures '\n' !in r
  {
    Breaks(Italic(Bold(Links(content))))
  }

  /** Each rewriting is the split by its pattern with each match's groups put through its template. */
  lemma RewritesAreSplits(s: string)
    ensures Links(s) == Interleave(RegexSplit(s, MarkdownRender.LinkMatcher(s), 0), 2, Anchor())
    ensures Bold(s) == Interleave(RegexSplit(s, BoldMatcher(s), 0), 1, Strong())
    ensures Italic(s) == Interleave(RegexSplit(s, ItalicMatcher(s), 0), 1, Em())
  {
    assert GroupCount(s, MarkdownRender.LinkMatcher(s), 2) by {
      forall q: nat | q < |s| && MarkdownRender.LinkMatcher(s)(q).Some?
        ensures |MarkdownRender.LinkMatcher(s)(q).value.groups| == 2
      {
        MarkdownRender.LinkHitSound(s, q);
      }
    }
    assert GroupCount(s, BoldMatcher(s), 1) by {
      forall q: nat | q < |s| && BoldMatcher(s)(q).Some? ensures |BoldMatcher(s)(q).value.groups| == 1 {
        BoldHitSound(s, q);
      }
    }
    assert GroupCount(s, ItalicMatcher(s), 1) by {
      forall q: nat | q < |s| && ItalicMatcher(s)(q).Some? ensures |ItalicMatcher(s)(q).value.groups| == 1 {
        ItalicHitSound(s, q);
      }
    }
    RegexReplaceIsSplit(s, MarkdownRender.LinkMatcher(s), 2, Anchor(), 0);
    RegexReplaceIsSplit(s, BoldMatcher(s), 1, Strong(), 0);
    RegexReplaceIsSplit(s, ItalicMatcher(s), 1, Em(), 0);
  }

  /** Text without brackets, stars or newlines comes out unchanged. */
  lemma ProcessPlain(content: string)
    requires '[' !in content && '*' !in content && '\n' !in content
    ensures Process(content) == content
  {
    var s := content;
    forall q: nat | q < |s| ensures MarkdownRender.LinkMatcher(s)(q).None? {
      assert s[q] in s;
    }
    RegexReplaceNoMatch(s, MarkdownRender.LinkMatcher(s), Anchor(), 0);
    forall q: nat | q < |s| ensures BoldMatcher(s)(q).None? {
      assert s[q] in s;
    }
    RegexReplaceNoMatch(s, BoldMatcher(s), Strong(), 0);
    forall q: nat | q < |s| ensures ItalicMatcher(s)(q).None? {
      assert s[q] in s;
    }
    RegexReplaceNoMatch(s, ItalicMatcher(s), Em(), 0);
    BreaksKeeps(s);
  }

  // ---------------------------------------------------------------------------
  // formatContent: sections, subsections and the grid class
  // ---------------------------------------------------------------------------

  const SectionMark := "## "
  const SubsectionMark := "### "

  /** `lines[0]` of `piece.split('\n')` */
  function FirstLine(piece: string): string
  {
    Split(piece, '\n')[0]
  }

  /** `lines.slice(1).join('\n')` */
  function AfterFirstLine(piece: string): string
  {
    Join(Split(piece, '\n')[1..], '\n')
  }

  /** A piece is its first line, a newline and the rest; a piece of one line has nothing after it. */
  lemma FirstLineSplit(piece: string)
    ensures '\n' in piece ==> piece == FirstLine(piece) + "\n" + AfterFirstLine(piece)
    ensures '\n' !in piece ==> FirstLine(piece) == piece && AfterFirstLine(piece) == ""
  {
    var lines := Split(piece, '\n');
    JoinSplit(piece, '\n');
    if |lines| >= 2 {
      JoinCons(lines[0], lines[1..], '\n');
      assert [lines[0]] + lines[1..] == lines;
    } else {
      assert Join(lines, '\n') == lines[0];
    }
  }

  /** `x.split(sep).filter(x => x.trim() !== '')` */
  function Pieces(s: string, sep: string): seq<string>
    requires |sep| > 0
  {
    Filter(MarkdownRender.NotBlank(), SplitStr(s, sep))
  }

  const DefaultGrid := "grid grid-cols-1 md:grid-cols-1 lg:grid-cols-2 xl:grid-cols-3 gap-6"

  /** The grid class: one of its own for one to four subsections, the default otherwise. */
  function GridClass(n: nat): (r: string)
    ensures r == DefaultGrid <==> !(1 <= n <= 4)
  {
    if n == 1 then "grid grid-cols-1 gap-6"
    else if n == 2 then "grid grid-cols-1 md:grid-cols-2 gap-6"
    else if n == 3 then "grid grid-cols-1 md:grid-cols-2 lg:grid-cols-3 gap-6"
    else if n == 4 then "grid grid-cols-1 md:grid-cols-2 lg:grid-cols-4 gap-6"
    else DefaultGrid
  }

  /** The four specific classes are different from one another. */
  lemma GridClassDistinct(n: nat, m: nat)
    requires 1 <= n <= 4 && 1 <= m <= 4
    ensures GridClass(n) == GridClass(m) <==> n == m
  {
    if n != m {
      assert |GridClass(1)| == 22 && |GridClass(2)| == 37 && |GridClass(3)| == 52 && |GridClass(4)| == 52;
      assert GridClass(3)[45] != GridClass(4)[45];
    }
  }

  // ---------------------------------------------------------------------------
  // The subsection title: `subTitle.replace(/{.*}/, '').trim()`
  // ---------------------------------------------------------------------------

  /** The last position in [i, e) holding c. */
  function LastIn(s: string, i: nat, e: nat, c: char): (r: Option<nat>)
    requires i <= e <= |s|
    ensures r.Some? ==> i <= r.value < e && s[r.value] == c && forall k :: r.value < k < e ==> s[k] != c
    ensures r.None? ==> forall k :: i <= k < e ==> s[k] != c
    decreases e - i
  {
    if e == i then None
    else if s[e - 1] == c then Some(e - 1)
    else LastIn(s, i, e - 1, c)
  }

  /** `/{.*}/` tried at q: `.` stops at a line terminator, and the greedy `.*` backs off to the last `}` before it. */
  function BraceHit(s: string, q: nat): (r: Option<Hit>)
    ensures r.Some? ==> q < r.value.end <= |s|
  {
    if q < |s| && s[q] == '{' then
      match LastIn(s, q + 1, LineEnd(s, q + 1), '}')
        case None => None
        case Some(k) => Some(Hit(k + 1, []))
    else None
  }

  function BraceMatcher(s: string): nat -> Option<Hit>
  {
    (q: nat) => BraceHit(s, q)
  }

  /** The span the pattern removes, if it matches: the leftmost brace with a closing one later on its line. */
  function BraceSpan(s: string): (r: Option<(nat, nat)>)
    ensures r.Some? ==> r.value.0 + 2 <= r.value.1 <= |s|
    ensures r.Some? ==> s[r.value.0] == '{' && s[r.value.1 - 1] == '}'
    ensures r.Some? ==> forall k :: r.value.0 <= k < r.value.1 ==> !IsLineTerm(s[k])
    ensures r.Some? ==> forall k :: r.value.1 <= k < LineEnd(s, r.value.0 + 1) ==> s[k] != '}'
    ensures r.Some? ==> BraceHit(s, r.value.0) == Some(Hit(r.value.1, []))
    ensures r.Some? ==> forall k :: 0 <= k < r.value.0 ==> BraceHit(s, k).None?
    ensures r.None? <==> forall k :: 0 <= k < |s| ==> BraceHit(s, k).None?
  {
    FirstBrace(s);
    match FirstHit(|s|, BraceMatcher(s), 0)
      case None => None
      case Some(q) => Some((q, BraceHit(s, q).value.end))
  }

  lemma FirstBrace(s: string)
    ensures FirstHit(|s|, BraceMatcher(s), 0).None? ==> forall k :: 0 <= k < |s| ==> BraceHit(s, k).None?
    ensures FirstHit(|s|, BraceMatcher(s), 0).Some? ==>
      forall k :: 0 <= k < FirstHit(|s|, BraceMatcher(s), 0).value ==> BraceHit(s, k).None?
  {
    var r := FirstHit(|s|, BraceMatcher(s), 0);
    if r.None? {
      forall k | 0 <= k < |s| ensures BraceHit(s, k).None? {
        assert BraceMatcher(s)(k).None?;
      }
    } else {
      forall k | 0 <= k < r.value ensures BraceHit(s, k).None? {
        assert BraceMatcher(s)(k).None?;
      }
    }
  }

  /** No match at q means: no brace there, or no closing brace after it on its line. */
  lemma BraceHitNone(s: string, q: nat)
    requires q < |s|
    ensures BraceHit(s, q).None? <==>
      s[q] != '{' || forall k :: q < k < LineEnd(s, q + 1) ==> s[k] != '}'
  {
  }

  function StripBraces(s: string): (r: string)
    ensures BraceSpan(s).None? ==> r == s
    ensures BraceSpan(s).Some? ==> r == s[..BraceSpan(s).value.0] + s[BraceSpan(s).value.1..]
  {
    match BraceSpan(s)
      case None => s
      case Some((q, e)) => s[..q] + s[e..]
  }

  /** A title without a brace is only trimmed. */
  lemma StripNoBrace(s: string)
    requires '{' !in s
    ensures Trim(StripBraces(s)) == Trim(s)
  {
    forall k | 0 <= k < |s| ensures BraceHit(s, k).None? {
      assert s[k] in s;
    }
  }

  // ---------------------------------------------------------------------------
  // The parts of a subsection
  // ---------------------------------------------------------------------------

  datatype PartView =
    | CodeView(code: MarkdownRender.Code)
    | ListView(items: seq<string>)
    | TableView(headers: seq<string>, rows: seq<seq<string>>)
    | ParaView(html: string)
    | NoView

  /** The test `renderListItems` applies: the untrimmed line starts with a marker. */
  function ItemLine(): string -> bool
  {
    (x: string) => Trim(x) != "" && (StartsWith(x, "- ") || StartsWith(x, "* "))
  }

  /** A table row: not blank and not a separator line. */
  function TableRow(): string -> bool
  {
    (x: string) => Trim(x) != "" && !Contains(x, "---")
  }

  /** `renderListItems`: each untrimmed list line, its marker cut, trimmed and rewritten. */
  function ListItems(part: string): (r: seq<string>)
    ensures |r| == |Filter(ItemLine(), Split(part, '\n'))|
  {
    var items := Filter(ItemLine(), Split(part, '\n'));
    seq(|items|, k requires 0 <= k < |items| => Process(MarkdownRender.ItemText(items[k])))
  }

  /** The cells of a data row, each trimmed and rewritten. */
  function DataCells(row: string): (r: seq<string>)
    ensures |r| == |MarkdownRender.Cells(row)|
  {
    var cells := MarkdownRender.Cells(row);
    seq(|cells|, k requires 0 <= k < |cells| => Process(cells[k]))
  }

  /** Which of the page's branches a part takes. */
  datatype Kind = CodeKind | BlankKind | ListKind | TableKind | ParaKind

  function KindOf(part: string): (k: Kind)
    ensures k == CodeKind <==> StartsWith(part, MarkdownRender.Ticks) && EndsWith(part, MarkdownRender.Ticks)
    ensures k == BlankKind <==> k != CodeKind && Trim(part) == ""
    ensures k == ListKind <==> k != CodeKind && Trim(part) != "" && Filter(MarkdownRender.ListLine(), Split(part, '\n')) != []
    ensures k == TableKind ==> '|' in part && Contains(part, "---") && Filter(TableRow(), Split(part, '\n')) != []
  {
    if StartsWith(part, MarkdownRender.Ticks) && EndsWith(part, MarkdownRender.Ticks) then CodeKind
    else if Trim(part) == "" then BlankKind
    else if Filter(MarkdownRender.ListLine(), Split(part, '\n')) != [] then ListKind
    else if '|' in part && Contains(part, "---") && Filter(TableRow(), Split(part, '\n')) != [] then TableKind
    else ParaKind
  }

  /** The table from its rows: the first gives the headers, the others the data. */
  function TableOf(rows: seq<string>): (r: PartView)
    requires |rows| > 0
    ensures r.TableView? && |r.rows| + 1 == |rows|
  {
    TableView(MarkdownRender.Cells(rows[0]), seq(|rows| - 1, k requires 0 <= k < |rows| - 1 => DataCells(rows[k + 1])))
  }

  /** How one part of a subsection's body is shown. */
  function ViewPart(part: string): (r: PartView)
  {
    match KindOf(part)
      case CodeKind => CodeView(MarkdownRender.CodeOf(part))
      case BlankKind => NoView
      case ListKind => ListView(ListItems(part))
      case TableKind => TableOf(Filter(TableRow(), Split(part, '\n')))
      case ParaKind => ParaView(Process(Trim(part)))
  }

  lemma TrimIndented()
    ensures Trim("  - a") == "- a"
  {
    var part := "  - a";
    assert part[1..] == " - a" && " - a"[1..] == "- a";
    assert IsSpace(part[0]) && IsSpace(" - a"[0]) && !IsSpace("- a"[0]) && !IsSpace("- a"[2]);
    assert TrimStart(part) == "- a";
    assert TrimEnd("- a") == "- a";
  }

  lemma IndentedLineKinds()
    ensures MarkdownRender.ListLine()("  - a") && !ItemLine()("  - a")
  {
    IndentedIsListed();
    IndentedIsNoItem();
  }

  lemma IndentedIsListed()
    ensures MarkdownRender.IsListLine("  - a")
  {
    TrimIndented();
    assert "- a"[..2] == "- ";
  }

  lemma IndentedIsNoItem()
    ensures !StartsWith("  - a", "- ") && !StartsWith("  - a", "* ")
  {
    assert "  - a"[..2][0] == ' ';
  }

  /**
    A part whose list lines are all indented is shown as a list, yet
    `renderListItems` keeps only lines whose untrimmed text starts with a
    marker, so that list is empty.
   */
  lemma IndentedListIsEmpty()
    ensures ViewPart("  - a") == ListView([])
  {
    IndentedKind();
    IndentedItems();
  }

  lemma IndentedKind()
    ensures KindOf("  - a") == ListKind
  {
    var part := "  - a";
    SplitWithout(part, '\n');
    TrimIndented();
    IndentedIsListed();
    assert Filter(MarkdownRender.ListLine(), [part]) == [part];
    assert !StartsWith(part, MarkdownRender.Ticks) by {
      assert part[..3][0] == ' ';
    }
  }

  lemma IndentedItems()
    ensures ListItems("  - a") == []
  {
    var part := "  - a";
    SplitWithout(part, '\n');
    IndentedIsNoItem();
    assert !ItemLine()(part);
    FilterNone(ItemLine(), [part]);
    assert |ListItems(part)| == 0;
  }

  // ---------------------------------------------------------------------------
  // Sections
  // ---------------------------------------------------------------------------

  datatype Subsection = Subsection(title: string, parts: seq<PartView>)

  datatype Section = Section(title: string, grid: string, subsections: seq<Subsection>)

  /** A subsection: its first line, braces removed and trimmed, as the title; the rest split at fences. */
  function SubsectionOf(piece: string): (r: Subsection)
    ensures |r.parts| == |MarkdownRender.FenceSplit(AfterFirstLine(piece))|
  {
    var parts := MarkdownRender.FenceSplit(AfterFirstLine(piece));
    Subsection(Trim(StripBraces(FirstLine(piece))), seq(|parts|, k requires 0 <= k < |parts| => ViewPart(parts[k])))
  }

  /** A section from its piece and the pieces of its subsections. */
  function SectionOf(piece: string, subs: seq<string>): (r: Section)
    ensures r.title == FirstLine(piece) && r.grid == GridClass(|subs|)
    ensures |r.subsections| == |subs|
  {
    Section(FirstLine(piece), GridClass(|subs|), seq(|subs|, k requires 0 <= k < |subs| => SubsectionOf(subs[k])))
  }

  /** `formatContent` as written: sections cut at every `'## '`, subsections at every `'### '`. */
  function FormatContent(content: string): (r: seq<Section>)
    ensures |r| == |Pieces(content, SectionMark)|
  {
    var ps := Pieces(content, SectionMark);
    seq(|ps|, i requires 0 <= i < |ps| => SectionOf(ps[i], Pieces(AfterFirstLine(ps[i]), SubsectionMark)))
  }

  /** A text free of `'## '` is free of `'### '`, and so is every suffix of it. */
  lemma AbsentSubsectionMark(piece: string, m: nat)
    requires m <= |piece| && Absent(piece, SectionMark)
    ensures Absent(piece[m..], SubsectionMark)
  {
    var body := piece[m..];
    forall k | 0 <= k <= |body| ensures !StartsWith(body[k..], SubsectionMark) {
      if k + 4 <= |body| {
        assert !StartsWith(piece[m + k + 1..], SectionMark);
        assert piece[m + k + 1..][..3] == body[k..][..4][1..];
      }
    }
  }

  /** A section piece free of `'## '` has at most one subsection. */
  lemma OneSubsection(piece: string)
    requires Absent(piece, SectionMark)
    ensures |Pieces(AfterFirstLine(piece), SubsectionMark)| <= 1
  {
    FirstLineSplit(piece);
    var body := AfterFirstLine(piece);
    if '\n' in piece {
      AbsentSubsectionMark(piece, |FirstLine(piece)| + 1);
      assert piece[|FirstLine(piece)| + 1..] == body;
    }
    assert Absent(body, SubsectionMark);
    assert FindFrom(body, SubsectionMark, 0).None? by {
      if FindFrom(body, SubsectionMark, 0).Some? {
        var k := FindFrom(body, SubsectionMark, 0).value;
        assert StartsWith(body[k..], SubsectionMark);
      }
    }
    assert SplitStr(body, SubsectionMark) == [body];
  }

  /**
    Because `'## '` also occurs inside `'### '`, the section split has already
    cut at every subsection heading: no section body holds a `'### '`, and
    no section ever has more than one subsection.
   */
  lemma FormatContentOneSubsection(content: string)
    ensures forall i :: 0 <= i < |FormatContent(content)| ==> |FormatContent(content)[i].subsections| <= 1
  {
    var ps := Pieces(content, SectionMark);
    SplitStrAbsent(content, SectionMark);
    forall i | 0 <= i < |ps| ensures |Pieces(AfterFirstLine(ps[i]), SubsectionMark)| <= 1 {
      assert ps[i] in SplitStr(content, SectionMark);
      OneSubsection(ps[i]);
    }
  }

  lemma AsWrittenSplitExample()
    ensures SplitStr("A\n### B", SectionMark) == ["A\n#", "B"]
  {
    var r1 := "A\n### B";
    assert r1[0] == 'A' && r1[1] == '\n' && r1[4] == '#';
    assert r1[0..][..3][0] != SectionMark[0];
    assert r1[1..][..3][0] != SectionMark[0];
    assert r1[2..][..3][2] != SectionMark[2];
    assert r1[3..][..3] == SectionMark;
    assert FindFrom(r1, SectionMark, 3) == Some(3);
    assert FindFrom(r1, SectionMark, 0) == Some(3);
    var r2 := r1[6..];
    assert r2 == "B";
    assert FindFrom(r2, SectionMark, 1) == None;
    assert FindFrom(r2, SectionMark, 0) == None;
    assert SplitStr(r2, SectionMark) == ["B"];
    assert r1[..3] == "A\n#";
  }

  lemma DropBlankFirst(a: string, b: string)
    requires Trim(a) != "" && Trim(b) != ""
    ensures Filter(MarkdownRender.NotBlank(), ["", a, b]) == [a, b]
  {
    assert Trim("") == "";
    FilterCons(MarkdownRender.NotBlank(), ["", a, b]);
    assert ["", a, b][1..] == [a, b];
  }

  lemma LettersNotBlank()
    ensures Trim("A\n#") != "" && Trim("B") != ""
  {
    assert !IsSpace("A\n#"[0]) && !IsBlank("A\n#");
    assert !IsSpace("B"[0]) && !IsBlank("B");
  }

  lemma AsWrittenFullSplitExample()
    ensures SplitStr("## A\n### B", SectionMark) == ["", "A\n#", "B"]
  {
    var c := "## A\n### B";
    assert c[0..][..3] == SectionMark;
    assert FindFrom(c, SectionMark, 0) == Some(0);
    assert c[3..] == "A\n### B";
    AsWrittenSplitExample();
  }

  lemma AsWrittenPiecesExample()
    ensures Pieces("## A\n### B", SectionMark) == ["A\n#", "B"]
  {
    AsWrittenFullSplitExample();
    LettersNotBlank();
    DropBlankFirst("A\n#", "B");
  }

  /** The as-written split turns a subsection heading into a section of its own. */
  lemma FormatContentPromotesSubsection()
    ensures var r := FormatContent("## A\n### B");
      |r| == 2 && r[0].title == "A" && r[1].title == "B"
  {
    AsWrittenPiecesExample();
    FirstLineExamples();
    var ps := Pieces("## A\n### B", SectionMark);
    var r := FormatContent("## A\n### B");
    assert r[0].title == FirstLine(ps[0]);
    assert r[1].title == FirstLine(ps[1]);
  }

  lemma FirstLineExamples()
    ensures FirstLine("A\n#") == "A" && FirstLine("B") == "B"
  {
    assert IndexOf("B", '\n') == None;
    assert IndexOf("A\n#", '\n') == Some(1);
    assert "A\n#"[..1] == "A";
  }

  // ---------------------------------------------------------------------------
  // The intended split: a heading marker counts only at the start of a line
  // ---------------------------------------------------------------------------

  /** The marker at q, at the start of a line. */
  function MarkHit(s: string, mark: string, q: nat): (r: Option<Hit>)
    requires |mark| > 0
    ensures r.Some? ==> q < r.value.end <= |s|
  {
    if IsLineStart(s, q) && q + |mark| <= |s| && s[q..q + |mark|] == mark then Some(Hit(q + |mark|, []))
    else None
  }

  function MarkMatcher(s: string, mark: string): nat -> Option<Hit>
    requires |mark| > 0
  {
    (q: nat) => MarkHit(s, mark, q)
  }

  /** The text cut at every line that starts with the marker, the markers dropped. */
  function LineMarkSplit(s: string, mark: string): seq<string>
    requires |mark| > 0
  {
    RegexSplit(s, MarkMatcher(s, mark), 0)
  }

  /** Nothing but the markers is lost: joining the pieces with the marker gives the text back. */
  lemma LineMarkSplitJoin(s: string, mark: string)
    requires |mark| > 0
    ensures JoinStr(LineMarkSplit(s, mark), mark) == s
  {
    RegexSplitJoin(s, MarkMatcher(s, mark), 0, mark);
  }

  /** A `'### '` heading is never a section cut, neither at its first `#` nor inside it. */
  lemma SubheadingIsNoSectionCut(s: string, q: nat)
    requires q + 4 <= |s| && s[q..q + 4] == SubsectionMark
    ensures MarkHit(s, SectionMark, q).None? && MarkHit(s, SectionMark, q + 1).None?
  {
    assert s[q + 2] == SubsectionMark[2];
    assert s[q] == '#';
  }

  function LinePieces(s: string, mark: string): seq<string>
    requires |mark| > 0
  {
    Filter(MarkdownRender.NotBlank(), LineMarkSplit(s, mark))
  }

  /** `formatContent` with both splits at line-start headings, as the page evidently intends. */
  function FormatContentFixed(content: string): (r: seq<Section>)
    ensures |r| == |LinePieces(content, SectionMark)|
  {
    var ps := LinePieces(content, SectionMark);
    seq(|ps|, i requires 0 <= i < |ps| => SectionOf(ps[i], LinePieces(AfterFirstLine(ps[i]), SubsectionMark)))
  }

  /** A split whose only cut is a marker at the very start: an empty piece, then the rest. */
  lemma SplitAtHeadOnly(s: string, at: nat -> Option<Hit>, e: nat)
    requires ValidMatcher(s, at) && 0 < e <= |s| && at(0) == Some(Hit(e, []))
    requires FirstHit(|s|, at, e) == None
    ensures RegexSplit(s, at, 0) == ["", s[e..]]
  {
    assert FirstHit(|s|, at, 0) == Some(0);
    RegexSplitStep(s, at, 0, 0);
  }

  /** Dropping blank pieces from an empty piece and a non-blank one leaves the latter. */
  lemma DropBlankHead(b: string)
    requires |b| > 0 && !IsSpace(b[0])
    ensures Filter(MarkdownRender.NotBlank(), ["", b]) == [b]
  {
    assert !IsBlank(b);
    assert Trim("") == "";
    FilterCons(MarkdownRender.NotBlank(), ["", b]);
    assert ["", b][1..] == [b];
  }

  lemma SubsectionSplitExample()
    ensures LinePieces("### B", SubsectionMark) == ["B"]
  {
    var t := "### B";
    var at := MarkMatcher(t, SubsectionMark);
    assert at(0) == Some(Hit(4, [])) by {
      assert t[0..4] == SubsectionMark;
    }
    assert at(4).None? by {
      assert !IsLineTerm(t[3]);
    }
    FirstHitNone(5, at, 4);
    SplitAtHeadOnly(t, at, 4);
    assert t[4..] == "B";
    DropBlankHead("B");
  }

  /** In "## A\n### B" no line starts with `## ` after the first. */
  lemma NoSecondSectionCut()
    ensures FirstHit(10, MarkMatcher("## A\n### B", SectionMark), 3) == None
  {
    var c := "## A\n### B";
    var at := MarkMatcher(c, SectionMark);
    forall q: nat | 3 <= q < 10 ensures at(q).None? {
      if q == 5 {
        assert c[5..8] != SectionMark by {
          assert c[7] == '#';
        }
      } else {
        assert !IsLineTerm(c[q - 1]);
      }
    }
    FirstHitNone(10, at, 3);
  }

  lemma SectionSplitExample()
    ensures LinePieces("## A\n### B", SectionMark) == ["A\n### B"]
  {
    var c := "## A\n### B";
    var at := MarkMatcher(c, SectionMark);
    assert at(0) == Some(Hit(3, [])) by {
      assert c[0..3] == SectionMark;
    }
    NoSecondSectionCut();
    SplitAtHeadOnly(c, at, 3);
    assert c[3..] == "A\n### B";
    DropBlankHead("A\n### B");
  }

  lemma SectionPieceExample()
    ensures FirstLine("A\n### B") == "A" && AfterFirstLine("A\n### B") == "### B"
  {
    var piece := "A\n### B";
    assert IndexOf(piece, '\n') == Some(1);
    assert piece[..1] == "A" && piece[2..] == "### B";
    assert IndexOf("### B", '\n') == None;
    assert Split(piece, '\n') == ["A", "### B"];
    assert Split(piece, '\n')[1..] == ["### B"];
  }

  lemma SubsectionTitleExample()
    ensures SubsectionOf("B").title == "B"
  {
    assert FirstLine("B") == "B" by {
      assert IndexOf("B", '\n') == None;
    }
    assert BraceSpan("B").None? by {
      assert BraceHit("B", 0).None?;
    }
    assert Trim("B") == "B" by {
      assert !IsSpace('B') && "B"[0] == 'B';
    }
  }

  /** With line-start cuts the same text is one section holding its subsection. */
  lemma FormatContentFixedKeepsSubsection()
    ensures var r := FormatContentFixed("## A\n### B");
      |r| == 1 && r[0].title == "A" && |r[0].subsections| == 1 && r[0].subsections[0].title == "B"
  {
    SectionSplitExample();
    SectionPieceExample();
    SubsectionSplitExample();
    SubsectionTitleExample();
  }
}
