/**
  The cheat-sheet converter: it splits a markdown file into its frontmatter
  block and body, parses the YAML-like key/value lines, fills in defaults to
  make a sheet record, sorts the sheets by first category and title, and
  groups them by first category. Reading and writing files is not modelled;
  the file name and content are inputs.
 */
module Convert {
  import opened Seqs
  import opened Text

  // ---------------------------------------------------------------------------
  // The block `^---\s*\n([\s\S]*?)\n---\s*\n`
  // ---------------------------------------------------------------------------

  /** End of the run of `\s` characters from i. */
  function SpaceRunEnd(s: string, i: nat): (e: nat)
    requires i <= |s|
    ensures i <= e <= |s|
    ensures forall k :: i <= k < e ==> IsSpace(s[k])
    ensures e == |s| || !IsSpace(s[e])
    decreases |s| - i
  {
    if i < |s| && IsSpace(s[i]) then SpaceRunEnd(s, i + 1) else i
  }

  /** `\s*\n` can match s[p..e]. */
  predicate SpacesNewline(s: string, p: nat, e: nat)
  {
    p < e <= |s| && s[e - 1] == '\n' && forall k :: p <= k < e - 1 ==> IsSpace(s[k])
  }

  /** Backs `\s*` off from position j towards p until a line feed follows. */
  function BackToNewline(s: string, p: nat, j: nat): (r: Option<nat>)
    requires p <= j <= |s|
    requires forall k :: p <= k < j ==> IsSpace(s[k])
    ensures r.Some? ==> SpacesNewline(s, p, r.value) && r.value <= j + 1
    ensures r.Some? ==> forall e :: r.value < e <= j + 1 ==> !SpacesNewline(s, p, e)
    ensures r.None? ==> forall e :: p < e <= j + 1 ==> !SpacesNewline(s, p, e)
    decreases j - p
  {
    if j < |s| && s[j] == '\n' then Some(j + 1)
    else if j == p then None
    else BackToNewline(s, p, j - 1)
  }

  /** `\s*\n` from p, greedy: the match that ends at the last possible line feed. */
  function SpacesThenNewline(s: string, p: nat): (r: Option<nat>)
    requires p <= |s|
    ensures r.Some? ==> SpacesNewline(s, p, r.value)
    ensures r.Some? ==> forall e :: r.value < e ==> !SpacesNewline(s, p, e)
    ensures r.None? ==> forall e :: !SpacesNewline(s, p, e)
  {
    var j := SpaceRunEnd(s, p);
    var r := BackToNewline(s, p, j);
    assert forall e :: j + 1 < e ==> !SpacesNewline(s, p, e) by {
      forall e | j + 1 < e ensures !SpacesNewline(s, p, e) {
        if j < |s| && e <= |s| {
          assert !IsSpace(s[j]) && p <= j < e - 1;
        }
      }
    }
    r
  }

  /** `\n---\s*\n` matches at q. */
  predicate CloseAt(s: string, q: nat)
  {
    q + 4 <= |s| && s[q..q + 4] == "\n---" && SpacesThenNewline(s, q + 4).Some?
  }

  /** The lazy group: the first q from c where the closing line matches. */
  function FindClose(s: string, c: nat): (r: Option<nat>)
    requires c <= |s|
    ensures r.Some? ==> c <= r.value && CloseAt(s, r.value)
    ensures r.Some? ==> forall q :: c <= q < r.value ==> !CloseAt(s, q)
    ensures r.None? ==> forall q :: c <= q ==> !CloseAt(s, q)
    decreases |s| - c
  {
    if CloseAt(s, c) then Some(c)
    else if c == |s| then None
    else FindClose(s, c + 1)
  }

  /** Where the block matched: the group is s[groupStart..groupEnd], the match is s[..end]. */
  datatype Block = Block(groupStart: nat, groupEnd: nat, end: nat)

  /** The block has the shape the pattern describes, with the lazy group as short as possible. */
  predicate BlockShape(s: string, b: Block)
  {
    && |s| >= 3 && s[..3] == "---"
    && SpacesNewline(s, 3, b.groupStart)
    && b.groupStart <= b.groupEnd && b.groupEnd + 4 <= |s| && s[b.groupEnd..b.groupEnd + 4] == "\n---"
    && SpacesNewline(s, b.groupEnd + 4, b.end)
    && (forall q :: b.groupStart <= q < b.groupEnd ==> !CloseAt(s, q))
  }

  /** Backs the opening `\s*` off from j until a line feed follows and the rest of the pattern matches. */
  function TryOpen(s: string, j: nat): (r: Option<Block>)
    requires 3 <= j <= |s| && |s| >= 3 && s[..3] == "---"
    requires forall k :: 3 <= k < j ==> IsSpace(s[k])
    ensures r.Some? ==> BlockShape(s, r.value)
    decreases j
  {
    if j < |s| && s[j] == '\n' && FindClose(s, j + 1).Some? then
      var q := FindClose(s, j + 1).value;
      Some(Block(j + 1, q, SpacesThenNewline(s, q + 4).value))
    else if j == 3 then None
    else TryOpen(s, j - 1)
  }

  /** `content.match(frontmatterRegex)`; the pattern is anchored at the start. */
  function MatchBlock(s: string): (r: Option<Block>)
    ensures r.Some? ==> BlockShape(s, r.value)
  {
    if |s| >= 3 && s[..3] == "---" then TryOpen(s, SpaceRunEnd(s, 3)) else None
  }

  /** Whenever the text has the block's shape at all, the match is found. */
  lemma MatchBlockComplete(s: string, c: nat, q: nat, e: nat)
    requires |s| >= 3 && s[..3] == "---"
    requires SpacesNewline(s, 3, c) && c <= q && q + 4 <= |s| && s[q..q + 4] == "\n---"
    requires SpacesNewline(s, q + 4, e)
    ensures MatchBlock(s).Some?
  {
    assert CloseAt(s, q);
    assert FindClose(s, c).Some?;
    var j := SpaceRunEnd(s, 3);
    assert c - 1 < j by {
      assert IsSpace(s[c - 1]);
    }
    TryOpenComplete(s, j, c);
  }

  lemma {:induction false} TryOpenComplete(s: string, j: nat, c: nat)
    requires 3 <= j <= |s| && |s| >= 3 && s[..3] == "---"
    requires forall k :: 3 <= k < j ==> IsSpace(s[k])
    requires 3 < c <= j + 1 && c <= |s| && s[c - 1] == '\n' && FindClose(s, c).Some?
    ensures TryOpen(s, j).Some?
    decreases j
  {
    if j < |s| && s[j] == '\n' && FindClose(s, j + 1).Some? {
    } else if j == c - 1 {
    } else {
      TryOpenComplete(s, j - 1, c);
    }
  }

  // ---------------------------------------------------------------------------
  // Key/value lines
  // ---------------------------------------------------------------------------

  /** A stored frontmatter value: a list for `tags` and `categories`, a string otherwise. */
  datatype FmValue = Items(items: seq<string>) | Scalar(value: string)

  type Frontmatter = map<string, FmValue>

  const Quotes: set<char> := {'\'', '"'}

  predicate IsListKey(key: string)
  {
    key == "tags" || key == "categories"
  }

  /** No quote character in x. */
  predicate Unquoted(x: string)
  {
    forall k :: 0 <= k < |x| ==> x[k] !in Quotes
  }

  /** `item.replace(/['"]/g, '').trim()` */
  function CleanItem(item: string): (r: string)
    ensures Unquoted(r)
  {
    var removed := RemoveChars(item, Quotes);
    TrimKeeps(removed);
    var r := Trim(removed);
    assert forall k :: 0 <= k < |r| ==> r[k] in removed;
    r
  }

  /** Every item non-empty and free of quotes. */
  predicate CleanList(items: seq<string>)
  {
    forall i :: 0 <= i < |items| ==> items[i] != "" && Unquoted(items[i])
  }

  /** Each item unquoted and trimmed, empty items dropped, order kept. */
  function CleanItems(vals: seq<string>): (r: seq<string>)
    ensures |r| <= |vals|
    ensures CleanList(r)
  {
    if vals == [] then []
    else
      var c := CleanItem(vals[0]);
      var rest := CleanItems(vals[1..]);
      if c == "" then rest
      else
        CleanCons(c, rest);
        [c] + rest
  }

  lemma CleanCons(c: string, rest: seq<string>)
    requires c != "" && Unquoted(c) && CleanList(rest)
    ensures CleanList([c] + rest)
  {
  }

  /** The value a key gets from its collected lines. */
  function Finish(key: string, vals: seq<string>): (v: FmValue)
    ensures v.Items? <==> IsListKey(key)
    ensures v.Scalar? ==> Unquoted(v.value)
  {
    if IsListKey(key) then Items(CleanItems(vals))
    else Scalar(RemoveChars(Trim(Join(vals, '\n')), Quotes))
  }

  /** Saving the pending key: only a non-empty key with at least one collected line is stored. */
  function Save(fm: Frontmatter, key: string, vals: seq<string>): (r: Frontmatter)
    ensures key != "" && |vals| > 0 ==> r == fm[key := Finish(key, vals)]
    ensures key == "" || |vals| == 0 ==> r == fm
  {
    if key != "" && |vals| > 0 then fm[key := Finish(key, vals)] else fm
  }

  predicate IsKeyLine(line: string)
  {
    ':' in line && !StartsWith(line, " ") && !StartsWith(line, "-")
  }

  predicate IsContinuation(line: string)
  {
    StartsWith(line, " ") || StartsWith(line, "-")
  }

  /** `line.trim().replace(/^-/, '').trim()` */
  function ItemText(line: string): string
  {
    var t := Trim(line);
    Trim(if |t| > 0 && t[0] == '-' then t[1..] else t)
  }

  /** The parser's loop state: the pending key, its collected lines, the stored pairs. */
  datatype Acc = Acc(key: string, vals: seq<string>, fm: Frontmatter)

  /** One line of the block. */
  function Step(acc: Acc, line: string): (r: Acc)
  {
    if IsKeyLine(line) then
      var v := ValueOf(line);
      Acc(KeyOf(line), if v != "" then [v] else [], Save(acc.fm, acc.key, acc.vals))
    else if IsContinuation(line) then acc.(vals := acc.vals + [ItemText(line)])
    else if Trim(line) != "" then acc.(vals := acc.vals + [Trim(line)])
    else acc
  }

  function Run(acc: Acc, lines: seq<string>): Acc
    decreases |lines|
  {
    if |lines| == 0 then acc else Run(Step(acc, lines[0]), lines[1..])
  }

  /** The `for` loop over the lines, then the final save. */
  function ParseLines(lines: seq<string>): Frontmatter
  {
    var a := Run(Acc("", [], map[]), lines);
    Save(a.fm, a.key, a.vals)
  }

  /** What every parsed frontmatter satisfies. */
  ghost predicate WellFormed(fm: Frontmatter)
  {
    forall key :: key in fm ==>
      && key != "" && ':' !in key
      && (fm[key].Items? <==> IsListKey(key))
      && (fm[key].Items? ==> CleanList(fm[key].items))
      && (fm[key].Scalar? ==> Unquoted(fm[key].value))
  }

  lemma SaveWellFormed(fm: Frontmatter, key: string, vals: seq<string>)
    requires WellFormed(fm) && ':' !in key
    ensures WellFormed(Save(fm, key, vals))
  {
  }

  lemma {:induction false} RunWellFormed(acc: Acc, lines: seq<string>)
    requires WellFormed(acc.fm) && ':' !in acc.key
    ensures WellFormed(Run(acc, lines).fm) && ':' !in Run(acc, lines).key
    decreases |lines|
  {
    if |lines| > 0 {
      var next := Step(acc, lines[0]);
      SaveWellFormed(acc.fm, acc.key, acc.vals);
      assert WellFormed(next.fm) && ':' !in next.key;
      RunWellFormed(next, lines[1..]);
    }
  }

  /**
    Every key stored is non-empty and holds no colon; `tags` and `categories`
    hold lists of non-empty unquoted items and every other key an unquoted string.
   */
  lemma ParseLinesWellFormed(lines: seq<string>)
    ensures WellFormed(ParseLines(lines))
  {
    var a := Run(Acc("", [], map[]), lines);
    RunWellFormed(Acc("", [], map[]), lines);
    SaveWellFormed(a.fm, a.key, a.vals);
  }

  /** A later line for the same key replaces the earlier value. */
  lemma RepeatedKeyOverwrites(fm: Frontmatter, key: string, first: seq<string>, second: seq<string>)
    requires key != "" && |second| > 0
    ensures Save(Save(fm, key, first), key, second)[key] == Finish(key, second)
  {
  }

  /** `parseFrontmatter`: the parsed pairs and the body after the block. */
  function ParseFrontmatter(content: string): (r: (Frontmatter, string))
    ensures MatchBlock(content).None? ==> r == (map[], content)
    ensures MatchBlock(content).Some? ==> r.1 == content[MatchBlock(content).value.end..]
    ensures WellFormed(r.0)
  {
    match MatchBlock(content)
      case None => (map[], content)
      case Some(b) =>
        var lines := Split(content[b.groupStart..b.groupEnd], '\n');
        ParseLinesWellFormed(lines);
        (ParseLines(lines), content[b.end..])
  }

  // ---------------------------------------------------------------------------
  // Defaults
  // ---------------------------------------------------------------------------

  datatype Sheet = Sheet(id: string, title: string, intro: string, tags: seq<string>,
                         categories: seq<string>, background: string, content: string)

  const DefaultBackground := "bg-gray-500"
  const DefaultCategory := "General"

  /** A string field with a fallback for a missing or empty value. */
  function TextField(fm: Frontmatter, key: string, default: string): (r: string)
    requires WellFormed(fm) && !IsListKey(key)
    ensures key in fm && fm[key].value != "" ==> r == fm[key].value
    ensures !(key in fm && fm[key].value != "") ==> r == default
  {
    if key in fm && fm[key].value != "" then fm[key].value else default
  }

  /** A list field with a fallback for a missing one (an empty list is kept: it is truthy). */
  function ListField(fm: Frontmatter, key: string, default: seq<string>): (r: seq<string>)
    requires WellFormed(fm) && IsListKey(key)
    ensures key in fm ==> r == fm[key].items
    ensures key !in fm ==> r == default
  {
    if key in fm then fm[key].items else default
  }

  /** `convertMarkdownFile` on a file's base name and content. */
  function ConvertFile(fileName: string, content: string): (sheet: Sheet)
    ensures sheet.id == fileName
    ensures sheet.content == ParseFrontmatter(content).1
    ensures var fm := ParseFrontmatter(content).0;
      sheet.categories == if "categories" in fm then fm["categories"].items else [DefaultCategory]
    ensures var fm := ParseFrontmatter(content).0;
      sheet.tags == if "tags" in fm then fm["tags"].items else []
    ensures var fm := ParseFrontmatter(content).0;
      sheet.title == if "title" in fm && fm["title"].value != "" then fm["title"].value else fileName
    ensures var fm := ParseFrontmatter(content).0;
      sheet.intro == if "intro" in fm && fm["intro"].value != "" then fm["intro"].value else ""
    ensures var fm := ParseFrontmatter(content).0;
      sheet.background == if "background" in fm && fm["background"].value != "" then fm["background"].value else DefaultBackground
    ensures fileName != "" ==> sheet.title != ""
    ensures sheet.background != ""
  {
    var (fm, body) := ParseFrontmatter(content);
    Sheet(fileName,
          TextField(fm, "title", fileName),
          TextField(fm, "intro", ""),
          ListField(fm, "tags", []),
          ListField(fm, "categories", [DefaultCategory]),
          TextField(fm, "background", DefaultBackground),
          body)
  }

  /** A file without a frontmatter block becomes a sheet of defaults whose content is the whole file. */
  lemma NoBlockDefaults(fileName: string, content: string)
    requires MatchBlock(content).None?
    ensures ConvertFile(fileName, content) ==
      Sheet(fileName, fileName, "", [], [DefaultCategory], DefaultBackground, content)
  {
  }

  // ---------------------------------------------------------------------------
  // Sorting and grouping
  // ---------------------------------------------------------------------------

  /** `sheet.categories[0] || 'General'` */
  function FirstCategory(sheet: Sheet): (c: string)
    ensures c != ""
    ensures |sheet.categories| > 0 && sheet.categories[0] != "" ==> c == sheet.categories[0]
  {
    if |sheet.categories| > 0 && sheet.categories[0] != "" then sheet.categories[0] else DefaultCategory
  }

  /** The converter's comparator: by first category, then by title. */
  function SheetLe(le: (string, string) -> bool): (Sheet, Sheet) -> bool
  {
    (a: Sheet, b: Sheet) =>
      if FirstCategory(a) != FirstCategory(b) then le(FirstCategory(a), FirstCategory(b))
      else le(a.title, b.title)
  }

  /** With `localeCompare` a total order, the two-key comparator is a total preorder. */
  lemma SheetLeTotal(le: (string, string) -> bool)
    requires TotalOrder(le)
    ensures TotalPreorder(SheetLe(le))
  {
    var sle := SheetLe(le);
    forall a ensures sle(a, a) {
      assert le(a.title, a.title);
    }
    forall a, b ensures sle(a, b) || sle(b, a) {
      assert le(FirstCategory(a), FirstCategory(b)) || le(FirstCategory(b), FirstCategory(a));
      assert le(a.title, b.title) || le(b.title, a.title);
    }
    forall a, b, c | sle(a, b) && sle(b, c) ensures sle(a, c) {
      var x, y, z := FirstCategory(a), FirstCategory(b), FirstCategory(c);
      if x == y && y == z {
        assert le(a.title, b.title) && le(b.title, c.title);
      } else if x == y {
        assert le(y, z);
      } else if y == z {
        assert le(x, y);
      } else {
        assert le(x, y) && le(y, z);
      }
    }
  }

  function SortSheets(sheets: seq<Sheet>, le: (string, string) -> bool): (r: seq<Sheet>)
    ensures multiset(r) == multiset(sheets)
    ensures TotalOrder(le) ==> forall i, j :: 0 <= i < j < |r| ==>
      if FirstCategory(r[i]) != FirstCategory(r[j]) then le(FirstCategory(r[i]), FirstCategory(r[j]))
      else le(r[i].title, r[j].title)
  {
    var r := SortBy(SheetLe(le), sheets);
    assert TotalOrder(le) ==> Sorted(SheetLe(le), r) by {
      if TotalOrder(le) {
        SheetLeTotal(le);
        SortBySorted(SheetLe(le), sheets);
      }
    }
    r
  }

  /** In the sorted list the sheets of one first category are contiguous. */
  lemma SortedCategoriesContiguous(sheets: seq<Sheet>, le: (string, string) -> bool, i: nat, j: nat, k: nat)
    requires TotalOrder(le)
    requires i < j < k < |SortSheets(sheets, le)|
    requires FirstCategory(SortSheets(sheets, le)[i]) == FirstCategory(SortSheets(sheets, le)[k])
    ensures FirstCategory(SortSheets(sheets, le)[j]) == FirstCategory(SortSheets(sheets, le)[i])
  {
    var r := SortSheets(sheets, le);
    var a, b := FirstCategory(r[i]), FirstCategory(r[j]);
    assert a != b ==> le(a, b) && le(b, a);
  }

  function FirstCategories(sheets: seq<Sheet>): (cs: seq<string>)
    ensures |cs| == |sheets|
    ensures forall i :: 0 <= i < |sheets| ==> cs[i] == FirstCategory(sheets[i])
  {
    seq(|sheets|, i requires 0 <= i < |sheets| => FirstCategory(sheets[i]))
  }

  /** The group keys in order of first appearance (the insertion order of the object). */
  function GroupKeys(sheets: seq<Sheet>): (keys: seq<string>)
    ensures NoDuplicates(keys)
    ensures forall k :: k in keys <==> exists i :: 0 <= i < |sheets| && FirstCategory(sheets[i]) == k
  {
    var cs := FirstCategories(sheets);
    assert forall k :: k in cs <==> exists i :: 0 <= i < |sheets| && FirstCategory(sheets[i]) == k;
    Dedup(cs)
  }

  function InCategory(key: string): Sheet -> bool
  {
    (s: Sheet) => FirstCategory(s) == key
  }

  /** The sheets of one group, in input order. */
  function GroupOf(sheets: seq<Sheet>, key: string): (g: seq<Sheet>)
    ensures forall s :: s in g <==> s in sheets && FirstCategory(s) == key
  {
    Filter(InCategory(key), sheets)
  }

  lemma GroupOfSnoc(sheets: seq<Sheet>, i: nat, key: string)
    requires i < |sheets|
    ensures GroupOf(sheets[..i + 1], key) ==
      GroupOf(sheets[..i], key) + (if FirstCategory(sheets[i]) == key then [sheets[i]] else [])
  {
    assert sheets[..i + 1] == sheets[..i] + [sheets[i]];
    FilterAppend(InCategory(key), sheets[..i], [sheets[i]]);
  }

  /** A category not seen among the first i sheets has an empty group so far. */
  lemma UnseenGroupEmpty(sheets: seq<Sheet>, i: nat, key: string)
    requires i <= |sheets| && key !in FirstCategories(sheets)[..i]
    ensures GroupOf(sheets[..i], key) == []
  {
    forall x | x in sheets[..i] ensures !InCategory(key)(x) {
      var j :| 0 <= j < i && sheets[..i][j] == x;
      assert FirstCategories(sheets)[..i][j] == FirstCategory(x);
    }
    FilterNone(InCategory(key), sheets[..i]);
  }

  /** The keys after one more sheet: its category is appended on first sight. */
  lemma KeysStep(cs: seq<string>, i: nat, keys: seq<string>)
    requires i < |cs| && keys == Dedup(cs[..i])
    ensures Dedup(cs[..i + 1]) == if cs[i] in keys then keys else keys + [cs[i]]
  {
    PrefixSnoc(cs, i);
    DedupSnoc(cs[..i], cs[i]);
  }

  /** The groups after one more sheet: it is pushed onto its category's list, created if new. */
  lemma GroupsStep(sheets: seq<Sheet>, i: nat, groups: map<string, seq<Sheet>>)
    requires i < |sheets|
    requires forall k :: k in groups ==> groups[k] == GroupOf(sheets[..i], k)
    requires FirstCategory(sheets[i]) !in groups ==> FirstCategory(sheets[i]) !in FirstCategories(sheets)[..i]
    ensures var c := FirstCategory(sheets[i]);
      var groups' := groups[c := if c in groups then groups[c] + [sheets[i]] else [sheets[i]]];
      forall k :: k in groups' ==> groups'[k] == GroupOf(sheets[..i + 1], k)
  {
    var c := FirstCategory(sheets[i]);
    var groups' := groups[c := if c in groups then groups[c] + [sheets[i]] else [sheets[i]]];
    forall k | k in groups' ensures groups'[k] == GroupOf(sheets[..i + 1], k) {
      GroupOfSnoc(sheets, i, k);
      if k == c && c !in groups {
        UnseenGroupEmpty(sheets, i, c);
      }
    }
  }

  /**
    The `forEach` that pushes each sheet onto the list of its first category,
    creating the list on first sight; keys come out in insertion order.
   */
  method GroupSheets(sheets: seq<Sheet>) returns (keys: seq<string>, groups: map<string, seq<Sheet>>)
    ensures keys == GroupKeys(sheets)
    ensures forall k :: k in groups <==> k in keys
    ensures forall k :: k in groups ==> groups[k] == GroupOf(sheets, k)
  {
    keys := [];
    groups := map[];
    ghost var cs := FirstCategories(sheets);
    for i := 0 to |sheets|
      invariant keys == Dedup(cs[..i])
      invariant forall k :: k in groups <==> k in keys
      invariant forall k :: k in groups ==> groups[k] == GroupOf(sheets[..i], k)
    {
      var sheet := sheets[i];
      var c := FirstCategory(sheet);
      KeysStep(cs, i, keys);
      GroupsStep(sheets, i, groups);
      if c !in groups {
        keys := keys + [c];
        groups := groups[c := [sheet]];
      } else {
        groups := groups[c := groups[c] + [sheet]];
      }
    }
    assert cs[..|sheets|] == cs;
    assert sheets[..|sheets|] == sheets;
  }

  /** Every sheet is in exactly one group: the one of its first category. */
  lemma GroupsPartition(sheets: seq<Sheet>, s: Sheet, key: string)
    requires s in sheets
    ensures key in GroupKeys(sheets) && s in GroupOf(sheets, key) <==> key == FirstCategory(s)
  {
  }
}
