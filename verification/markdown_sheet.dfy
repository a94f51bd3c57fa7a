/**
  Loading one markdown cheat sheet by route id: the leading `---` block and
  its line-by-line metadata parser, the default title, and the split of the
  rest into `##` sections and `###` subsections.
 */
module MarkdownSheet {
  import opened Seqs
  import opened Text

  // ---------------------------------------------------------------------------
  // The frontmatter block: `^---\n([\s\S]*?)\n---\n` without the multi-line flag
  // ---------------------------------------------------------------------------

  const Fence := "---\n"
  const FenceClose := "\n---\n"

  /** A matched block: the captured lines and the text after the whole match. */
  datatype Block = Block(inner: string, rest: string)

  /**
    The block matches only at the very start; the lazy group takes the
    shortest stretch that the closing line can follow.
   */
  function MatchBlock(text: string): (r: Option<Block>)
    ensures r.Some? ==> text == Fence + r.value.inner + FenceClose + r.value.rest
    ensures r.Some? ==> forall k :: 4 <= k < 4 + |r.value.inner| ==> !StartsWith(text[k..], FenceClose)
    ensures r.None? ==> !StartsWith(text, Fence) || forall k :: 4 <= k <= |text| ==> !StartsWith(text[k..], FenceClose)
  {
    if !StartsWith(text, Fence) then None
    else match FindFrom(text, FenceClose, 4)
      case None => None
      case Some(q) =>
        assert text == text[..4] + text[4..q] + text[q..q + 5] + text[q + 5..];
        Some(Block(text[4..q], text[q + 5..]))
  }

  // ---------------------------------------------------------------------------
  // Metadata
  // ---------------------------------------------------------------------------

  /** The `metadata` object: plain string keys, and the two list keys. */
  datatype Meta = Meta(fields: map<string, string>, tags: Option<seq<string>>, categories: Option<seq<string>>)

  /** The parser's loop state: the metadata so far and `currentKey`. */
  datatype Reader = Reader(meta: Meta, key: string)

  function Items(o: Option<seq<string>>): seq<string>
  {
    if o.Some? then o.value else []
  }

  predicate ItemLine(line: string)
  {
    StartsWith(line, "  -")
  }

  predicate KeyLine(line: string)
  {
    ':' in line && !ItemLine(line)
  }

  /** A stored tag: a dash, then trimmed text. */
  predicate Dashed(tag: string)
  {
    |tag| >= 1 && tag[0] == '-'
  }

  /** `value.split(' -').filter(tag => tag.trim()).map(tag => `-${tag.trim()}`)` over the pieces. */
  function DashTags(pieces: seq<string>): (r: seq<string>)
    ensures |r| <= |pieces|
    ensures forall i :: 0 <= i < |r| ==> Dashed(r[i]) && Trim(r[i][1..]) != ""
  {
    if pieces == [] then []
    else
      var t := Trim(pieces[0]);
      var rest := DashTags(pieces[1..]);
      if t == "" then rest
      else
        assert ("-" + t)[1..] == t;
        assert !IsBlank(t) by {
          assert !IsSpace(t[0]);
        }
        [("-" + t)] + rest
  }

  /** An inline `tags` value. */
  function InlineTags(value: string): (r: seq<string>)
    ensures forall i :: 0 <= i < |r| ==> Dashed(r[i])
  {
    DashTags(SplitStr(value, " -"))
  }

  /** What the parser sees in a line. */
  datatype LineKind = KeyValue(key: string, value: string) | Item(text: string) | Other

  /** A key line splits at its first colon; an item line gives its text after `  -`, trimmed. */
  function Classify(line: string): (k: LineKind)
    ensures k.KeyValue? <==> KeyLine(line)
    ensures k.Item? <==> ItemLine(line)
  {
    if KeyLine(line) then KeyValue(KeyOf(line), ValueOf(line))
    else if ItemLine(line) then Item(Trim(line[3..]))
    else Other
  }

  /** Storing a non-empty inline value under key. */
  function Store(meta: Meta, key: string, value: string): (r: Meta)
  {
    if key == "tags" then meta.(tags := Some(InlineTags(value)))
    else if key == "categories" then meta.(categories := Some([value]))
    else meta.(fields := meta.fields[key := value])
  }

  function Apply(r: Reader, kind: LineKind): (r': Reader)
  {
    match kind
      case KeyValue(key, value) => Reader(if value != "" then Store(r.meta, key, value) else r.meta, key)
      case Item(text) =>
        if r.key == "tags" then r.(meta := r.meta.(tags := Some(Items(r.meta.tags) + ["-" + text])))
        else if r.key == "categories" then r.(meta := r.meta.(categories := Some(Items(r.meta.categories) + [text])))
        else r
      case Other => r
  }

  /** One frontmatter line. */
  function ReadLine(r: Reader, line: string): (r': Reader)
  {
    Apply(r, Classify(line))
  }

  /** The `forEach` over the lines. */
  function ReadLines(r: Reader, lines: seq<string>): (r': Reader)
    decreases |lines|
  {
    if lines == [] then r else ReadLines(ReadLine(r, lines[0]), lines[1..])
  }

  /** Whether a line stores a non-empty value under the plain key k. */
  predicate SetsField(line: string, k: string)
  {
    Sets(Classify(line), k)
  }

  predicate Sets(kind: LineKind, k: string)
  {
    kind.KeyValue? && kind.key == k && kind.value != "" && k != "tags" && k != "categories"
  }

  lemma ApplyKeeps(r: Reader, kind: LineKind, k: string)
    requires !Sets(kind, k)
    ensures k in Apply(r, kind).meta.fields <==> k in r.meta.fields
    ensures k in r.meta.fields ==> Apply(r, kind).meta.fields[k] == r.meta.fields[k]
  {
  }

  /** A plain key no line sets keeps the value it had. */
  lemma {:induction false} ReadLinesKeeps(r: Reader, lines: seq<string>, k: string)
    requires forall i :: 0 <= i < |lines| ==> !SetsField(lines[i], k)
    ensures k in ReadLines(r, lines).meta.fields <==> k in r.meta.fields
    ensures k in r.meta.fields ==> ReadLines(r, lines).meta.fields[k] == r.meta.fields[k]
    decreases |lines|
  {
    if lines != [] {
      ApplyKeeps(r, Classify(lines[0]), k);
      ReadLinesKeeps(ReadLine(r, lines[0]), lines[1..], k);
    }
  }

  predicate AllDashed(tags: seq<string>)
  {
    forall i :: 0 <= i < |tags| ==> Dashed(tags[i])
  }

  lemma ApplyDashesTags(r: Reader, kind: LineKind)
    requires AllDashed(Items(r.meta.tags))
    ensures AllDashed(Items(Apply(r, kind).meta.tags))
  {
    if kind.Item? && r.key == "tags" {
      var t := "-" + kind.text;
      assert Dashed(t);
      assert Items(Apply(r, kind).meta.tags) == Items(r.meta.tags) + [t];
    }
  }

  /** Every tag the parser stores starts with a dash, inline or listed. */
  lemma {:induction false} ReadLinesDashesTags(r: Reader, lines: seq<string>)
    requires AllDashed(Items(r.meta.tags))
    ensures AllDashed(Items(ReadLines(r, lines).meta.tags))
    decreases |lines|
  {
    if lines != [] {
      ApplyDashesTags(r, Classify(lines[0]));
      ReadLinesDashesTags(ReadLine(r, lines[0]), lines[1..]);
    }
  }

  /** An inline `categories` value is a one-element list that later item lines extend. */
  lemma InlineCategories(r: Reader, value: string, text: string)
    requires value != ""
    ensures Apply(r, KeyValue("categories", value)).meta.categories == Some([value])
    ensures Apply(Apply(r, KeyValue("categories", value)), Item(text)).meta.categories == Some([value, text])
  {
    var r' := Apply(r, KeyValue("categories", value));
    assert r'.key == "categories" && r'.key != "tags";
    assert Items(r'.meta.categories) == [value];
    assert Apply(r', Item(text)).meta.categories == Some(Items(r'.meta.categories) + [text]);
    assert [value] + [text] == [value, text];
  }

  /** Item lines under `tags` are stored with a dash in front, after any inline tags. */
  lemma ListedTags(r: Reader, value: string, text: string)
    ensures Apply(Apply(r, KeyValue("tags", value)), Item(text)).meta.tags ==
      Some(Items(Apply(r, KeyValue("tags", value)).meta.tags) + ["-" + text])
  {
  }

  /** The loaded sheet: its metadata and the markdown after the block. */
  datatype Loaded = Loaded(meta: Meta, content: string)

  /** `loadCheatSheet` after the fetch: the block, the metadata, the default title. */
  function Load(id: string, text: string): (r: Loaded)
    ensures "id" in r.meta.fields && "title" in r.meta.fields
  {
    var start := Meta(map["id" := id], None, None);
    var (meta, content) :=
      match MatchBlock(text)
        case None => (start, text)
        case Some(b) => (ReadLines(Reader(start, ""), Split(b.inner, '\n')).meta, b.rest);
    var meta' := if "title" in meta.fields && meta.fields["title"] != "" then meta
                 else meta.(fields := meta.fields["title" := ReplaceChar(id, '-', ' ')]);
    assert "id" in meta'.fields by {
      if MatchBlock(text).Some? {
        ReadLinesFieldsGrow(Reader(start, ""), Split(MatchBlock(text).value.inner, '\n'), "id");
      }
    }
    Loaded(meta', content)
  }

  /** No line removes a plain key. */
  lemma ApplyFieldsGrow(r: Reader, kind: LineKind, k: string)
    requires k in r.meta.fields
    ensures k in Apply(r, kind).meta.fields
  {
  }

  lemma {:induction false} ReadLinesFieldsGrow(r: Reader, lines: seq<string>, k: string)
    requires k in r.meta.fields
    ensures k in ReadLines(r, lines).meta.fields
    decreases |lines|
  {
    if lines != [] {
      ApplyFieldsGrow(r, Classify(lines[0]), k);
      ReadLinesFieldsGrow(ReadLine(r, lines[0]), lines[1..], k);
    }
  }

  /** The frontmatter lines of a text, none without a block. */
  function BlockLines(text: string): seq<string>
  {
    match MatchBlock(text)
      case None => []
      case Some(b) => Split(b.inner, '\n')
  }

  /**
    Without a block the content is the whole text; with one it is the text
    after the closing line.
   */
  lemma LoadContent(id: string, text: string)
    ensures MatchBlock(text).None? ==> Load(id, text).content == text
    ensures MatchBlock(text).Some? ==> text == Fence + MatchBlock(text).value.inner + FenceClose + Load(id, text).content
  {
  }

  /**
    The id is the route id unless a frontmatter line sets `id`; the title,
    when no line sets it, is the id with every `-` made a space.
   */
  lemma LoadDefaults(id: string, text: string)
    ensures (forall i :: 0 <= i < |BlockLines(text)| ==> !SetsField(BlockLines(text)[i], "id")) ==>
      Load(id, text).meta.fields["id"] == id
    ensures (forall i :: 0 <= i < |BlockLines(text)| ==> !SetsField(BlockLines(text)[i], "title")) ==>
      Load(id, text).meta.fields["title"] == ReplaceChar(id, '-', ' ')
  {
    var start := Meta(map["id" := id], None, None);
    if MatchBlock(text).Some? {
      var lines := BlockLines(text);
      if forall i :: 0 <= i < |lines| ==> !SetsField(lines[i], "id") {
        ReadLinesKeeps(Reader(start, ""), lines, "id");
      }
      if forall i :: 0 <= i < |lines| ==> !SetsField(lines[i], "title") {
        ReadLinesKeeps(Reader(start, ""), lines, "title");
      }
    }
  }

  /** Every stored tag starts with a dash. */
  lemma LoadTagsDashed(id: string, text: string)
    ensures AllDashed(Items(Load(id, text).meta.tags))
  {
    if MatchBlock(text).Some? {
      ReadLinesDashesTags(Reader(Meta(map["id" := id], None, None), ""), BlockLines(text));
    }
  }

  // ---------------------------------------------------------------------------
  // Grouping a list of parts under opener parts (the `currentSection` loop)
  // ---------------------------------------------------------------------------

  /** An opener part and the parts that follow it up to the next opener. */
  datatype Group = Group(header: string, body: seq<string>)

  /** The loop state: closed groups and the open one, if any. */
  datatype Grouping = Grouping(done: seq<Group>, current: Option<Group>)

  function Close(g: Grouping): seq<Group>
  {
    g.done + (if g.current.Some? then [g.current.value] else [])
  }

  /** An opener closes the open group and opens a new one; other parts join the open group or are dropped. */
  function GroupStep(opener: string, g: Grouping, part: string): Grouping
  {
    if StartsWith(part, opener) then Grouping(Close(g), Some(Group(part, [])))
    else if g.current.Some? then g.(current := Some(g.current.value.(body := g.current.value.body + [part])))
    else g
  }

  function GroupFrom(opener: string, g: Grouping, parts: seq<string>): Grouping
    decreases |parts|
  {
    if parts == [] then g else GroupFrom(opener, GroupStep(opener, g, parts[0]), parts[1..])
  }

  /** Each group opens with an opener and holds no other. */
  ghost predicate Shaped(opener: string, gs: seq<Group>)
  {
    forall i :: 0 <= i < |gs| ==>
      StartsWith(gs[i].header, opener) && forall j :: 0 <= j < |gs[i].body| ==> !StartsWith(gs[i].body[j], opener)
  }

  lemma ShapedAppend(opener: string, a: seq<Group>, b: seq<Group>)
    requires Shaped(opener, a) && Shaped(opener, b)
    ensures Shaped(opener, a + b)
  {
    forall i | 0 <= i < |a + b| ensures (a + b)[i] == if i < |a| then a[i] else b[i - |a|] {}
  }

  lemma GroupStepShaped(opener: string, g: Grouping, part: string)
    requires Shaped(opener, Close(g))
    ensures Shaped(opener, Close(GroupStep(opener, g, part)))
  {
    if StartsWith(part, opener) {
      ShapedAppend(opener, Close(g), [Group(part, [])]);
    } else if g.current.Some? {
      var c := g.current.value;
      var c' := c.(body := c.body + [part]);
      assert Close(g) == g.done + [c];
      assert Shaped(opener, g.done) by {
        forall i | 0 <= i < |g.done| ensures g.done[i] == Close(g)[i] {}
      }
      assert Shaped(opener, [c']) by {
        assert c == Close(g)[|g.done|];
      }
      ShapedAppend(opener, g.done, [c']);
    }
  }

  lemma {:induction false} GroupFromShaped(opener: string, g: Grouping, parts: seq<string>)
    requires Shaped(opener, Close(g))
    ensures Shaped(opener, Close(GroupFrom(opener, g, parts)))
    decreases |parts|
  {
    if parts != [] {
      var g' := GroupStep(opener, g, parts[0]);
      GroupStepShaped(opener, g, parts[0]);
      GroupFromShaped(opener, g', parts[1..]);
    }
  }

  /** The groups of a part list. */
  function GroupParts(opener: string, parts: seq<string>): (gs: seq<Group>)
    ensures Shaped(opener, gs)
  {
    GroupFromShaped(opener, Grouping([], None), parts);
    Close(GroupFrom(opener, Grouping([], None), parts))
  }

  function Headers(gs: seq<Group>): (hs: seq<string>)
    ensures |hs| == |gs| && forall i :: 0 <= i < |gs| ==> hs[i] == gs[i].header
  {
    seq(|gs|, i requires 0 <= i < |gs| => gs[i].header)
  }

  function Opens(opener: string): string -> bool
  {
    (part: string) => StartsWith(part, opener)
  }

  lemma GroupStepHeaders(opener: string, g: Grouping, part: string)
    ensures Headers(Close(GroupStep(opener, g, part))) ==
      Headers(Close(g)) + (if StartsWith(part, opener) then [part] else [])
  {
    if !StartsWith(part, opener) && g.current.Some? {
      var c := g.current.value;
      assert Close(g) == g.done + [c];
      assert Close(GroupStep(opener, g, part)) == g.done + [c.(body := c.body + [part])];
    }
  }

  lemma {:induction false} GroupFromHeaders(opener: string, g: Grouping, parts: seq<string>)
    ensures Headers(Close(GroupFrom(opener, g, parts))) == Headers(Close(g)) + Filter(Opens(opener), parts)
    decreases |parts|
  {
    if parts != [] {
      var g' := GroupStep(opener, g, parts[0]);
      var head := if StartsWith(parts[0], opener) then [parts[0]] else [];
      var rest := Filter(Opens(opener), parts[1..]);
      GroupFromHeaders(opener, g', parts[1..]);
      GroupStepHeaders(opener, g, parts[0]);
      FilterCons(Opens(opener), parts);
      assert GroupFrom(opener, g, parts) == GroupFrom(opener, g', parts[1..]);
      ConcatAssoc(Headers(Close(g)), head, rest);
    }
  }

  /** The groups open exactly at the opener parts, in their order. */
  lemma GroupHeaders(opener: string, parts: seq<string>)
    ensures Headers(GroupParts(opener, parts)) == Filter(Opens(opener), parts)
  {
    GroupFromHeaders(opener, Grouping([], None), parts);
  }

  /** The parts up to the first opener: the ones the loop drops. */
  function DropLeading(opener: string, parts: seq<string>): (r: seq<string>)
    decreases |parts|
  {
    if parts == [] || StartsWith(parts[0], opener) then parts else DropLeading(opener, parts[1..])
  }

  /** The groups written back out, each opener followed by its parts. */
  function Unfold(gs: seq<Group>): seq<string>
  {
    if gs == [] then [] else [gs[0].header] + gs[0].body + Unfold(gs[1..])
  }

  lemma {:induction false} UnfoldAppend(a: seq<Group>, b: seq<Group>)
    ensures Unfold(a + b) == Unfold(a) + Unfold(b)
    decreases |a|
  {
    if a == [] {
      assert a + b == b;
    } else {
      assert (a + b)[0] == a[0];
      assert (a + b)[1..] == a[1..] + b;
      UnfoldAppend(a[1..], b);
    }
  }

  lemma GroupStepUnfold(opener: string, g: Grouping, part: string)
    ensures var g' := GroupStep(opener, g, part);
      && g'.current.Some? == (g.current.Some? || StartsWith(part, opener))
      && Unfold(Close(g')) == Unfold(Close(g)) + (if g'.current.Some? then [part] else [])
  {
    var g' := GroupStep(opener, g, part);
    if StartsWith(part, opener) {
      UnfoldAppend(Close(g), [Group(part, [])]);
    } else if g.current.Some? {
      var c := g.current.value;
      UnfoldAppend(g.done, [c]);
      UnfoldAppend(g.done, [c.(body := c.body + [part])]);
    }
  }

  lemma {:induction false} GroupFromUnfold(opener: string, g: Grouping, parts: seq<string>)
    ensures Unfold(Close(GroupFrom(opener, g, parts))) ==
      Unfold(Close(g)) + (if g.current.Some? then parts else DropLeading(opener, parts))
    decreases |parts|
  {
    if parts != [] {
      var g' := GroupStep(opener, g, parts[0]);
      var rest := parts[1..];
      GroupStepUnfold(opener, g, parts[0]);
      GroupFromUnfold(opener, g', rest);
      assert GroupFrom(opener, g, parts) == GroupFrom(opener, g', rest);
      if g'.current.Some? {
        assert parts == [parts[0]] + rest;
        ConcatAssoc(Unfold(Close(g)), [parts[0]], rest);
      }
    }
  }

  /**
    Nothing but the parts before the first opener is lost: writing the groups
    back out gives the part list from its first opener on.
   */
  lemma GroupRebuild(opener: string, parts: seq<string>)
    ensures Unfold(GroupParts(opener, parts)) == DropLeading(opener, parts)
  {
    GroupFromUnfold(opener, Grouping([], None), parts);
  }

  // ---------------------------------------------------------------------------
  // Sections: `split(/(^##\s.*)/gm)` and `split(/(^###\s.*)/gm)`
  // ---------------------------------------------------------------------------

  /** The heading pattern with `marker` tried at q: a line start, the marker, one `\s`, the rest of the line. */
  function HeadingHit(s: string, marker: string, q: nat): (r: Option<Hit>)
    ensures r.Some? ==> q < r.value.end <= |s|
  {
    if IsLineStart(s, q) && q + |marker| < |s| && s[q..q + |marker|] == marker && IsSpace(s[q + |marker|]) then
      var e := LineEnd(s, q + |marker| + 1);
      Some(Hit(e, [s[q..e]]))
    else None
  }

  function HeadingMatcher(s: string, marker: string): nat -> Option<Hit>
  {
    (q: nat) => HeadingHit(s, marker, q)
  }

  /** What a captured heading line looks like. */
  function IsHeading(marker: string): string -> bool
  {
    (x: string) => StartsWith(x, marker) && |x| > |marker| && IsSpace(x[|marker|])
  }

  lemma HeadingMatcherValid(s: string, marker: string)
    ensures ValidMatcher(s, HeadingMatcher(s, marker))
    ensures forall q: nat :: q < |s| && HeadingMatcher(s, marker)(q).Some? ==>
      |HeadingMatcher(s, marker)(q).value.groups| == 1 &&
      IsHeading(marker)(HeadingMatcher(s, marker)(q).value.groups[0]) &&
      Flatten(HeadingMatcher(s, marker)(q).value.groups) == s[q..HeadingMatcher(s, marker)(q).value.end]
  {
    forall q: nat | q < |s| && HeadingHit(s, marker, q).Some?
      ensures Flatten(HeadingHit(s, marker, q).value.groups) == s[q..HeadingHit(s, marker, q).value.end]
    {
      var x := HeadingHit(s, marker, q).value.groups[0];
      assert Flatten([x]) == x + Flatten([]);
    }
  }

  /** The split pieces of s at its heading lines. */
  function HeadingSplit(s: string, marker: string): (r: seq<string>)
  {
    HeadingMatcherValid(s, marker);
    RegexSplit(s, HeadingMatcher(s, marker), 0)
  }

  /** The split loses nothing, and every odd piece is a captured heading line. */
  lemma HeadingSplitShape(s: string, marker: string)
    ensures Flatten(HeadingSplit(s, marker)) == s
    ensures |HeadingSplit(s, marker)| % 2 == 1
    ensures forall i :: 0 <= i < |HeadingSplit(s, marker)| && i % 2 == 1 ==>
      IsHeading(marker)(HeadingSplit(s, marker)[i])
  {
    HeadingMatcherValid(s, marker);
    RegexSplitCovers(s, HeadingMatcher(s, marker), 0);
    RegexSplitOdd(s, HeadingMatcher(s, marker), 0, IsHeading(marker));
  }

  function NotBlank(): string -> bool
  {
    (x: string) => Trim(x) != ""
  }

  /** `.filter(s => s.trim() !== '')` on the pieces. */
  function Pieces(s: string, marker: string): seq<string>
  {
    Filter(NotBlank(), HeadingSplit(s, marker))
  }

  datatype Subsection = Subsection(title: string, content: string)
  datatype Section = Section(title: string, subsections: seq<Subsection>)

  /** The subsections of one section part: a `### ` piece opens one, later pieces are its content. */
  function Subsections(part: string): (r: seq<Subsection>)
    ensures |r| == |Filter(Opens("### "), Pieces(part, "###"))|
  {
    var gs := GroupParts("### ", Pieces(part, "###"));
    GroupHeaders("### ", Pieces(part, "###"));
    seq(|gs|, i requires 0 <= i < |gs| => Subsection(Trim(gs[i].header[4..]), Flatten(gs[i].body)))
  }

  /** `parseContent`: a `## ` piece opens a section; the other pieces fill its subsections. */
  function ParseContent(content: string): (r: seq<Section>)
  {
    Sections(Pieces(content, "##"))
  }

  /** The sections built from the non-blank pieces. */
  function Sections(parts: seq<string>): (r: seq<Section>)
  {
    var gs := GroupParts("## ", parts);
    seq(|gs|, i requires 0 <= i < |gs| => SectionOf(gs[i]))
  }

  /** One section: the rest of its `## ` line, trimmed, and the subsections of every part under it. */
  function SectionOf(g: Group): (r: Section)
    requires StartsWith(g.header, "## ")
    ensures r.title == Trim(g.header[3..])
  {
    Section(Trim(g.header[3..]), Flatten(seq(|g.body|, j requires 0 <= j < |g.body| => Subsections(g.body[j]))))
  }

  function Titles(sections: seq<Section>): (ts: seq<string>)
    ensures |ts| == |sections|
  {
    seq(|sections|, i requires 0 <= i < |sections| => sections[i].title)
  }

  function TrimAfter(n: nat, xs: seq<string>): (r: seq<string>)
    requires forall i :: 0 <= i < |xs| ==> |xs[i]| >= n
  {
    seq(|xs|, i requires 0 <= i < |xs| => Trim(xs[i][n..]))
  }

  /**
    The sections are the `## ` pieces in document order, each titled with
    the rest of its line trimmed; pieces before the first are dropped.
   */
  lemma SectionTitles(content: string)
    ensures forall i :: 0 <= i < |Filter(Opens("## "), Pieces(content, "##"))| ==>
      |Filter(Opens("## "), Pieces(content, "##"))[i]| >= 3
    ensures Titles(ParseContent(content)) == TrimAfter(3, Filter(Opens("## "), Pieces(content, "##")))
  {
    SectionsTitles(Pieces(content, "##"));
  }

  /** Over any list of pieces: one section per `## ` piece, in order, titled with the rest of that piece's line. */
  lemma SectionsTitles(parts: seq<string>)
    ensures forall i :: 0 <= i < |Filter(Opens("## "), parts)| ==> |Filter(Opens("## "), parts)[i]| >= 3
    ensures Titles(Sections(parts)) == TrimAfter(3, Filter(Opens("## "), parts))
  {
    var gs := GroupParts("## ", parts);
    var hs := Filter(Opens("## "), parts);
    GroupHeaders("## ", parts);
    forall i | 0 <= i < |hs| ensures |hs[i]| >= 3 {
      assert hs[i] in hs;
    }
    var ts := Titles(Sections(parts));
    forall i | 0 <= i < |hs| ensures ts[i] == Trim(hs[i][3..]) {
      assert hs[i] == Headers(gs)[i] == gs[i].header;
    }
  }
}
