# pdflibaury, modelled in Dafny

pdflibaury is a React site for study material. It offers:

- a PDF library, with search, a category filter, sorting and pagination;
- a PDF viewer, which embeds Google Drive files and lists related resources;
- cheat sheets, written in Markdown with a YAML-like frontmatter block, plus an
  index page that groups and filters them;
- a DSA section, with questions grouped by company and a long Markdown
  reference that has a collapsible table of contents and loads in chunks;
- a header, with protected navigation and an admin entry.

This project models the logic behind those screens as pure Dafny functions
and proves what they promise. The logic covered is: list filtering, sorting
and pagination; the data-service fallbacks; Drive-link rewriting; the
frontmatter parsers and cheat-sheet renderers; heading extraction and slugs;
and the state of the viewer and the header.

JavaScript behaviour is written out exactly:

- `String.prototype.split` with a string, a character or a capturing regular
  expression;
- `trim` and the `\s` class over the full JavaScript whitespace set;
- `slice`, including its clamping and negative indices, counted in characters (see "## Left out");
- the default `sort()` order, on UTF-16 code units;
- the lazy and greedy regex quantifiers, including the backtracking the
  heading pattern does;
- `Math.ceil` for the page count.

Each regular expression is modelled as a matcher function: given a position,
it returns the end of the match there and its capture groups. Two generic
operations, `Text.RegexSplit` and `Text.RegexReplace`, give them the meaning
of `split` and `replace` with the `g` flag.

Modules, one per file:

- `Seqs` and `Text`: shared sequence and string operations.
- `Paging`: the page arithmetic and the page-button window. Library.jsx and
  DSACompanyWise.jsx both use it.
- `Library`: Library.jsx.
- `PdfData`: pdfDataService.js.
- `Company`: DSACompanyWise.jsx.
- `SheetIndex`: CheatSheets.jsx.
- `Convert`: convert.cjs.
- `MarkdownSheet`: the loading and parsing half of MarkdownCheatSheet.jsx.
- `MarkdownRender`: the rendering half of MarkdownCheatSheet.jsx.
- `SheetPage`: CheatSheet.jsx.
- `DriveLinks`: supabase.js, plus the thumbnail code of adminDataService.js.
- `Toc`: DSAResources.jsx and TOCSection.jsx.
- `Viewer`: PDFViewer.jsx.
- `Header`: Header.jsx.

Outside services become parameters:

- the Supabase replies (`Reply`, `SingleReply`, `Outcome`);
- whether Supabase is configured;
- the signed-in user;
- the admin lookup;
- the related-resource fetch.

`localeCompare` becomes a comparison parameter, which each sort contract
requires to be a total preorder. `toLowerCase` is modelled on ASCII letters.

## Model

| member | source | states |
|---|---|---|
| Paging.TotalPages | src/pages/Library.jsx:175 | the page count is the least t with n <= t*size: no item is left off and no page is empty; zero items give zero pages |
| Paging.Page | src/pages/Library.jsx:176-178 | a page is the window of at most `size` items starting at (page-1)*size, clamped to the list |
| Paging.PagesCoverList | src/pages/Library.jsx:175-178 | the pages 1..TotalPages, concatenated, give back the whole list |
| Paging.PageItem | src/pages/Library.jsx:176-178 | item i of page p is item (p-1)*size+i of the list |
| Paging.PagePastEndEmpty | src/pages/Library.jsx:175-178 | a page number past the last page shows nothing |
| Paging.WindowBounded | src/pages/Library.jsx:442-453 | the window draws at most 2*radius+3 page buttons and at most two ellipses, however many pages there are |
| Paging.WindowShowsCurrent | src/pages/Library.jsx:442-453 | the current page is a highlighted button; the first and last pages are always buttons; no other button is highlighted |
| Paging.Pagination | src/pages/Library.jsx:427-472 | controls exist only with more than one page; Previous is disabled exactly on page 1 and Next exactly on the last page |
| Paging.ClampedMovesStayInRange | src/pages/DSACompanyWise.jsx:278-320 | the clamped Previous and Next of the company pages stay in 1..total, and Next then Previous returns to the same page unless already on the last |
| Library.FilterPdfs | src/pages/Library.jsx:150-156 | a PDF is kept iff its title, author or a tag contains the term, ignoring case, and its category matches; nothing else is added |
| Library.EmptySearchKeepsAll | src/pages/Library.jsx:150-156 | an empty search filters on category alone, and with category "all" the list is unchanged |
| Library.SortLeTotal | src/pages/Library.jsx:159-172 | each sort key orders PDFs by a total preorder (title given a total preorder on strings) |
| Library.SortPdfs | src/pages/Library.jsx:159-172 | the result is a permutation, ordered newest, most downloaded, best rated or by title; an unknown key leaves the order alone |
| Library.CurrentPdfs | src/pages/Library.jsx:176-178 | the shown page holds at most 12 PDFs, each at its position in the sorted list |
| Library.PageInRangeNotEmpty | src/pages/Library.jsx:175-178 | every page from 1 to totalPages shows at least one PDF |
| Library.Listing | src/pages/Library.jsx:150-178 | the shown PDFs come from the list and pass both the search and the category filter |
| Library.SetFilters | src/pages/Library.jsx:180-182 | changing the term, category or sort key returns to page 1; setting the same values changes nothing |
| Library.Prev | src/pages/Library.jsx:435-436 | Previous on page 1 does nothing; otherwise it moves back one page |
| Library.Next | src/pages/Library.jsx:471-472 | Next on the last page does nothing; otherwise it moves forward one page |
| Library.ControlsStayInRange | src/pages/Library.jsx:427-472 | from a valid page, Previous, Next and every page button lead to a page in 1..totalPages |
| PdfData.ApplyFiltersIsFilter | src/utils/pdfDataService.js:107-125 | the three optional fallback stages equal one filter by the combined predicate |
| PdfData.SortResources | src/utils/pdfDataService.js:128-139 | a permutation; with no sortBy, the stored order; for "title", by name; for any other key, newest first |
| PdfData.LocalQuery | src/utils/pdfDataService.js:101-141 | the fallback query keeps exactly the resources that pass the filters, in the requested order |
| PdfData.FallbackQuery | src/utils/pdfDataService.js:4-32 | against the built-in data, the query returns at most the three sample resources, exactly those that pass the filters |
| PdfData.GetAllResources | src/utils/pdfDataService.js:61-145 | unconfigured, the fallback query; configured, the rows returned; an error gives the empty list |
| PdfData.ResourcesWithoutBackend | src/utils/pdfDataService.js:101-144 | without a backend, a resource is returned iff it is a sample that passes the filters; a failing backend returns nothing |
| PdfData.FindById | src/utils/pdfDataService.js:152 | the first resource with the id, or none iff no resource has it |
| PdfData.GetResourceById | src/utils/pdfDataService.js:149-168 | unconfigured or on error, the lookup falls back to the samples; a found row is returned as is |
| PdfData.FallbackIds | src/utils/pdfDataService.js:149-168 | ids "1", "2" and "3" give the three samples, and any other id gives nothing |
| PdfData.UniquePairs | src/utils/pdfDataService.js:179-187 | the distinct (category, subcategory) pairs: no pair twice, and every pair of the data present |
| PdfData.UniqueCombinations | src/utils/pdfDataService.js:179-187 | the key-set loop computes exactly the distinct pairs in first-seen order |
| PdfData.GetAllCategories | src/utils/pdfDataService.js:172-215 | unconfigured or failing, the distinct pairs of the samples; otherwise the rows returned |
| PdfData.FallbackCategoryPairs | src/utils/pdfDataService.js:172-215 | the three sample records yield their two distinct pairs in first-seen order |
| PdfData.FallbackNewestFirst | src/utils/pdfDataService.js:4-32 | the samples are stored newest first |
| Seqs.SortByOrdered | src/utils/pdfDataService.js:128-139 | the stable sort leaves an already ordered list unchanged |
| PdfData.DefaultQueryIsStoredOrder | src/utils/pdfDataService.js:128-139 | a default query over the samples returns them in their stored order |
| Company.CompaniesOf | src/pages/DSACompanyWise.jsx:37-41 | one company per input entry, keeping its name and questions and counting them |
| Company.BuildCompanies | src/pages/DSACompanyWise.jsx:37-41 | the companies are a permutation of the entries, sorted by name, each with questionCount equal to its question list's length |
| Company.FilterCompanies | src/pages/DSACompanyWise.jsx:56-60 | a company is kept iff its lower-cased name contains the lower-cased term |
| Company.EmptyCompanySearchKeepsAll | src/pages/DSACompanyWise.jsx:56-60 | an empty company search keeps every company in order |
| Company.FilterQuestions | src/pages/DSACompanyWise.jsx:68-74 | an empty term keeps every question; otherwise a question is kept iff its title or its difficulty contains the term, ignoring case |
| Company.EarlyReturnIsFilter | src/pages/DSACompanyWise.jsx:68-74 | the early return for an empty term agrees with the plain filter |
| Company.Loaded | src/pages/DSACompanyWise.jsx:37-41 | after loading, no company is selected, both searches are empty and both paginations start at page 1 |
| Company.Settle | src/pages/DSACompanyWise.jsx:82-85 | a change to either search term resets both page numbers; otherwise the state is unchanged |
| Company.SearchResetsPages | src/pages/DSACompanyWise.jsx:82-85 | typing a new term resets both paginations; typing the same term changes nothing |
| Company.SelectShowsCompany | src/pages/DSACompanyWise.jsx:87-94 | selecting a company shows all its questions from page 1 and clears the question search |
| Company.SearchShowsFirstPage | src/pages/DSACompanyWise.jsx:56-85 | after a new company search the first nine matches are shown |
| Company.ProblemNumberIsPosition | src/pages/DSACompanyWise.jsx:414 | the displayed problem number is the question's 1-based position in the filtered list |
| Company.CompanyControls | src/pages/DSACompanyWise.jsx:290-316 | company page controls appear iff there is more than one page |
| Company.QuestionControls | src/pages/DSACompanyWise.jsx:447-473 | question page controls appear iff there is more than one page |
| Company.MovesStayInRange | src/pages/DSACompanyWise.jsx:435-477 | every move stays in range and leaves the other pagination alone; the company window draws at most five buttons and two gaps |
| SheetIndex.PriorityNoDuplicates | src/pages/CheatSheets.jsx:42-61 | the priority list names no category twice |
| SheetIndex.GroupOrderIsReordering | src/pages/CheatSheets.jsx:42-61 | the group order is a reordering of the keys: the present priority categories in priority order, then the others in the UTF-16 code-unit order of the default `sort()` |
| SheetIndex.TaggedCount | src/pages/CheatSheets.jsx:91-96 | a group's cards carry its key and occur as often as their sheet occurs in the group |
| SheetIndex.GroupedViewPartition | src/pages/CheatSheets.jsx:32-96 | in the grouped view, each sheet appears exactly once, under its first category |
| SheetIndex.FilterSheets | src/pages/CheatSheets.jsx:68-81 | a sheet is kept iff it passes both the category filter and the search, which looks in the title, the intro, the tags and the categories, ignoring case |
| SheetIndex.FilterSheetsOnePass | src/pages/CheatSheets.jsx:68-81 | the two successive filters equal one filter by their conjunction |
| SheetIndex.Display | src/pages/CheatSheets.jsx:91-96 | the grouped view is shown iff there is no search and no category; otherwise the flat list of passing sheets |
| SheetIndex.Dropdown | src/pages/CheatSheets.jsx:99-104 | the dropdown begins with "All Categories" and the three priority categories |
| SheetIndex.DropdownTail | src/pages/CheatSheets.jsx:99-104 | after the fixed entries come exactly the other categories, once each, in the UTF-16 code-unit order of the default `sort()` |
| Text.CodeUnits | src/pages/CheatSheets.jsx:56 | a character is one code unit inside the Basic Multilingual Plane and a high-then-low surrogate pair above it, and the pair decodes back to the character |
| Text.Utf16Injective | src/pages/CheatSheets.jsx:56 | distinct strings have distinct code-unit sequences |
| Text.CodeUnitOrderTotal | src/pages/CheatSheets.jsx:56 | the default `sort()` comparison, lexicographic on code units, is a total order on strings, so the sorted keys are fully determined |
| Text.SurrogateSortsFirst | src/pages/CheatSheets.jsx:102 | a character above the Basic Multilingual Plane sorts before U+FF01, though its scalar value is larger |
| Convert.MatchBlock | src/cheatsheets/convert.cjs:6-12 | a match is a leading `---` line, the inner text up to the first `\n---`, and a closing line; what follows is the body |
| Convert.MatchBlockComplete | src/cheatsheets/convert.cjs:6-7 | whenever the text has the shape the pattern describes, the block is found |
| Convert.CleanItem | src/cheatsheets/convert.cjs:25 | a cleaned item holds no quote characters and has no surrounding space |
| Convert.CleanItems | src/cheatsheets/convert.cjs:25 | a cleaned list holds only non-empty items without quotes |
| Convert.Finish | src/cheatsheets/convert.cjs:23-28 | tags and categories become lists; every other key becomes one string without quotes |
| Convert.Save | src/cheatsheets/convert.cjs:23-28 | the pending key is stored only when it is named and has values; otherwise the frontmatter is unchanged |
| Convert.ParseLinesWellFormed | src/cheatsheets/convert.cjs:20-57 | the parsed frontmatter maps list keys to lists and every other key to a string, with no ':' in a key |
| Convert.RepeatedKeyOverwrites | src/cheatsheets/convert.cjs:51-56 | a key written twice keeps its last values |
| Convert.ParseFrontmatter | src/cheatsheets/convert.cjs:5-60 | without a block, an empty frontmatter and the whole text as body; with one, the body starts right after the block |
| Convert.TextField | src/cheatsheets/convert.cjs:84-88 | a present, non-empty value wins; otherwise the default |
| Convert.ListField | src/cheatsheets/convert.cjs:71-80 | a present list is used as is; otherwise the default |
| Convert.ConvertFile | src/cheatsheets/convert.cjs:63-91 | the id is the file name and the content is the text after the block; categories and tags are the frontmatter lists when present, else ["General"] and []; title, intro and background are the frontmatter values when present and non-empty, else the file name, "" and "bg-gray-500" |
| Convert.NoBlockDefaults | src/cheatsheets/convert.cjs:63-91 | a file without frontmatter becomes a sheet of all defaults whose content is the whole file |
| Convert.FirstCategory | src/cheatsheets/convert.cjs:127-128 | a non-empty first category, or "General" |
| Convert.SheetLeTotal | src/cheatsheets/convert.cjs:125-136 | the two-key comparator is a total preorder when the string order is total |
| Convert.SortSheets | src/cheatsheets/convert.cjs:125-136 | a permutation sorted by first category, then by title |
| Convert.SortedCategoriesContiguous | src/cheatsheets/convert.cjs:125-136 | after sorting, the sheets of one first category are contiguous |
| Convert.GroupKeys | src/cheatsheets/convert.cjs:138-146 | the group keys are the distinct first categories |
| Convert.GroupOf | src/cheatsheets/convert.cjs:138-146 | a group holds exactly the sheets whose first category is its key |
| Convert.GroupSheets | src/cheatsheets/convert.cjs:138-146 | the loop builds a map whose keys are the group keys, each key holding its group in input order |
| Convert.GroupsPartition | src/cheatsheets/convert.cjs:138-146 | each sheet is in exactly one group, the one of its first category |
| MarkdownSheet.MatchBlock | src/pages/MarkdownCheatSheet.jsx:26-34 | a block is `---\n`, inner text, `\n---\n`, rest, with the inner text ending at the first closing fence; no block iff no opening or no closing fence |
| MarkdownSheet.DashTags | src/pages/MarkdownCheatSheet.jsx:47 | each tag gets a leading dash and holds text after it |
| MarkdownSheet.Classify | src/pages/MarkdownCheatSheet.jsx:41-58 | a line is an item line iff it starts with two spaces and a dash, and a key line iff it holds a colon and is no item line |
| MarkdownSheet.ReadLinesKeeps | src/pages/MarkdownCheatSheet.jsx:40-63 | a field that no line sets keeps its value |
| MarkdownSheet.ReadLinesDashesTags | src/pages/MarkdownCheatSheet.jsx:40-63 | every tag collected from frontmatter carries a leading dash |
| MarkdownSheet.InlineCategories | src/pages/MarkdownCheatSheet.jsx:48-61 | an inline categories value starts the list, and later items append to it |
| MarkdownSheet.ListedTags | src/pages/MarkdownCheatSheet.jsx:54-57 | tag items after a tags key append a dashed tag |
| MarkdownSheet.Load | src/pages/MarkdownCheatSheet.jsx:26-69 | the loaded metadata always holds an id and a title |
| MarkdownSheet.LoadContent | src/pages/MarkdownCheatSheet.jsx:26-34 | the content is the text after the block, or the whole text when there is none |
| MarkdownSheet.LoadDefaults | src/pages/MarkdownCheatSheet.jsx:30-69 | without an id line the id is the route id; without a title line the title is the id with hyphens as spaces |
| MarkdownSheet.GroupParts | src/pages/MarkdownCheatSheet.jsx:84-135 | every group starts with a heading part |
| MarkdownSheet.GroupHeaders | src/pages/MarkdownCheatSheet.jsx:84-135 | the group headers are exactly the heading parts, in order |
| MarkdownSheet.GroupRebuild | src/pages/MarkdownCheatSheet.jsx:84-135 | the groups, unfolded, give back the parts after the first heading |
| MarkdownSheet.HeadingSplitShape | src/pages/MarkdownCheatSheet.jsx:86 | the capturing split concatenates back to the text, with the headings at the odd positions |
| MarkdownSheet.Subsections | src/pages/MarkdownCheatSheet.jsx:101-130 | one subsection per `###` heading |
| MarkdownSheet.SectionTitles | src/pages/MarkdownCheatSheet.jsx:84-135 | section titles are the `##` headings with their marker cut off |
| MarkdownRender.FenceSplitShape | src/pages/MarkdownCheatSheet.jsx:143-146 | the split on code fences concatenates back to the content, with every fence at an odd position |
| MarkdownRender.CodeOfFence | src/pages/MarkdownCheatSheet.jsx:146-152 | a fence gives its language and its body lines back |
| MarkdownRender.ListEnd | src/pages/MarkdownCheatSheet.jsx:184-205 | a list runs to the first line that is not a list line |
| MarkdownRender.PipeEnd | src/pages/MarkdownCheatSheet.jsx:208-251 | a table runs to the first line without a pipe |
| MarkdownRender.ListBlock | src/pages/MarkdownCheatSheet.jsx:184-205 | one item per list line taken; at least one when the first line is a list line |
| MarkdownRender.TableBlock | src/pages/MarkdownCheatSheet.jsx:208-251 | one row per line after the header and divider |
| MarkdownRender.NextBlock | src/pages/MarkdownCheatSheet.jsx:176-263 | each step consumes at least one line and accounts for each; it yields a list iff the line is a list line, and then the list runs until a non-list line; a table iff no list and a table starts there |
| MarkdownRender.BlocksListsMerged | src/pages/MarkdownCheatSheet.jsx:176-263 | no two lists are adjacent: consecutive list lines form one list |
| MarkdownRender.BlocksCoverLines | src/pages/MarkdownCheatSheet.jsx:176-263 | the blocks account for every non-blank line exactly once |
| MarkdownRender.RenderPart | src/pages/MarkdownCheatSheet.jsx:143-263 | a part is code iff fenced, empty iff blank, and otherwise blocks covering its non-blank lines |
| MarkdownRender.FencedPiecesAreCode | src/pages/MarkdownCheatSheet.jsx:143-152 | every fence of the content renders as code |
| MarkdownRender.LinkHitSound | src/pages/MarkdownCheatSheet.jsx:269-297 | a link match is `[text](url)` with no `]` in the text and no `)` in the url |
| MarkdownRender.LinkHitComplete | src/pages/MarkdownCheatSheet.jsx:269-297 | every such link at a position is matched there |
| MarkdownRender.RenderParts | src/pages/MarkdownCheatSheet.jsx:269-297 | one inline element per split part |
| MarkdownRender.RenderInlineRoundTrip | src/pages/MarkdownCheatSheet.jsx:269-297 | the rendered elements spell the original text back |
| MarkdownRender.RenderInlineLinks | src/pages/MarkdownCheatSheet.jsx:269-297 | every rendered link comes from a well-formed link in the text |
| SheetPage.BoldHitSound | src/pages/CheatSheet.jsx:33 | a bold match is `**text**` with non-empty text free of `*` |
| SheetPage.ItalicHitSound | src/pages/CheatSheet.jsx:36 | an italic match is `*text*` with non-empty text free of `*` |
| SheetPage.BreaksIsJoin | src/pages/CheatSheet.jsx:39 | newline replacement equals splitting on newlines and joining with `<br>` |
| SheetPage.Process | src/pages/CheatSheet.jsx:28-42 | processed content holds no newline |
| SheetPage.RewritesAreSplits | src/pages/CheatSheet.jsx:28-42 | each global replace is the capturing split with the groups rewritten |
| SheetPage.ProcessPlain | src/pages/CheatSheet.jsx:28-42 | text without brackets, asterisks or newlines is unchanged |
| SheetPage.FirstLineSplit | src/pages/CheatSheet.jsx:69-71 | a piece is its first line, a newline and the rest |
| SheetPage.GridClass | src/pages/CheatSheet.jsx:77-86 | counts 1 to 4 get their own grid class; any other count gets the default |
| SheetPage.GridClassDistinct | src/pages/CheatSheet.jsx:77-86 | the four sized classes are distinct |
| SheetPage.BraceSpan | src/pages/CheatSheet.jsx:107 | the first `{…}` on one line, ending at the last `}` of that line |
| SheetPage.StripBraces | src/pages/CheatSheet.jsx:107 | the brace span is cut out, or nothing changes when there is none |
| SheetPage.StripNoBrace | src/pages/CheatSheet.jsx:107 | a title without braces is only trimmed |
| SheetPage.KindOf | src/pages/CheatSheet.jsx:102-157 | code iff fenced, blank iff empty after trimming, list iff some trimmed line starts with "- " or "* "; tables need pipes and a divider |
| SheetPage.TableOf | src/pages/CheatSheet.jsx:141-157 | a table keeps every row after the header |
| SheetPage.IndentedListIsEmpty | src/pages/CheatSheet.jsx:44-49 | an indented list is classified as a list but renders no item |
| SheetPage.SectionOf | src/pages/CheatSheet.jsx:69-86 | a section's title is its first line, with one subsection per piece and the grid for that count |
| SheetPage.FormatContent | src/pages/CheatSheet.jsx:64-86 | one section per non-blank piece between `## ` marks |
| SheetPage.FormatContentOneSubsection | src/pages/CheatSheet.jsx:66-74 | as written, no section ever has more than one subsection |
| SheetPage.FormatContentPromotesSubsection | src/pages/CheatSheet.jsx:66 | as written, `## A\n### B` gives two sections, A and B |
| SheetPage.LineMarkSplitJoin | src/pages/CheatSheet.jsx:66 | the corrected split at line-start marks joins back to the text |
| SheetPage.SubheadingIsNoSectionCut | src/pages/CheatSheet.jsx:66 | the corrected split does not cut inside a `### ` heading |
| SheetPage.FormatContentFixed | src/pages/CheatSheet.jsx:64-86 | one section per piece of the corrected split |
| SheetPage.FormatContentFixedKeepsSubsection | src/pages/CheatSheet.jsx:64-86 | corrected, `## A\n### B` gives one section A with subsection B |
| DriveLinks.FileId | src/utils/supabase.js:18-26 | the id is the maximal id-character run after the first `/d/`; none iff there is no such match |
| DriveLinks.DirectLink | src/utils/supabase.js:18-26 | a link with an id becomes its download URL; any other link is unchanged |
| DriveLinks.EmbedLink | src/utils/supabase.js:29-36 | a link with an id becomes its preview URL; any other link is unchanged |
| DriveLinks.Thumbnail | src/utils/adminDataService.js:98-105 | a thumbnail URL for the link's id, or none iff the link has no id |
| DriveLinks.PreviewUrlId | src/utils/supabase.js:29-36 | the id of a preview URL is the id it was built from |
| DriveLinks.ThumbnailUrlId | src/utils/adminDataService.js:98-105 | the id of a thumbnail URL is the id it was built from |
| DriveLinks.DownloadUrlHasNoId | src/utils/supabase.js:18-26 | a download URL holds no `/d/` id |
| DriveLinks.EmbedLinkIdempotent | src/utils/supabase.js:29-36 | embedding keeps the id, and embedding twice equals embedding once |
| DriveLinks.DirectLinkIdempotent | src/utils/supabase.js:18-26 | converting twice equals converting once; a link changes iff it has an id |
| DriveLinks.ThumbnailKeepsId | src/utils/adminDataService.js:98-105 | a thumbnail URL carries the same id as its source link |
| DriveLinks.SameIdBothWays | src/utils/supabase.js:18-36 | the download and preview links of a link name the same file |
| DriveLinks.ShareLinkThumbnail | src/utils/adminDataService.js:98-105 | a Drive share link yields its id, its thumbnail, its download URL and its preview URL |
| DriveLinks.SampleThumbnails | src/utils/pdfDataService.js:4-32 | the sample resources' share links yield thumbnails for their ids |
| DriveLinks.PlainLinkUnchanged | src/utils/supabase.js:18-36 | a non-Drive link passes through both rewrites and gets no thumbnail |
| DriveLinks.FinalThumbnail | src/utils/adminDataService.js:36 | a given thumbnail wins; otherwise the one derived from the link; none iff neither exists |
| DriveLinks.InsertedRow | src/utils/adminDataService.js:36-46 | the inserted row keeps the name, link and category and carries the final thumbnail |
| DriveLinks.StoredPlusFailed | src/utils/adminDataService.js:108-127 | stored rows plus failures account for every PDF |
| DriveLinks.BulkAdd | src/utils/adminDataService.js:108-127 | successes plus failures equal the input count; the results are the stored rows and the errors are the failures |
| DriveLinks.FailuresNamePdfs | src/utils/adminDataService.js:108-127 | each reported error names an input PDF whose insertion threw that error |
| Toc.MatchAtSound | src/pages/DSAResources.jsx:35-40 | a match is a line start, one to six hashes, whitespace and a non-empty title to the end of the line; its level is the hash count |
| Toc.MatchAtExact | src/pages/DSAResources.jsx:35-40 | a heading matches at a position iff it starts a line with one to six hashes followed as the pattern requires; seven or more hashes never match |
| Toc.ScanBy | src/pages/DSAResources.jsx:39 | the global `exec` loop, for any matcher: the records are matches reported at their starts, in order, inside the text and not overlapping |
| Toc.ScanByEmpty | src/pages/DSAResources.jsx:39 | the loop records nothing iff the matcher reports nothing from the start position on |
| Toc.ScanByFirst | src/pages/DSAResources.jsx:39 | the first record is the leftmost reported match |
| Toc.ScanBySuffix | src/pages/DSAResources.jsx:39 | after each record the loop resumes at its end: the later records are what a search from there finds |
| Toc.ScanByGap | src/pages/DSAResources.jsx:39 | between two consecutive records the matcher reports nothing |
| Toc.Scan | src/pages/DSAResources.jsx:35-39 | with the heading pattern, every record is the pattern's match at its start, inside the text, and the records are ordered and do not overlap |
| Toc.NoHitIsNoMatch | src/pages/DSAResources.jsx:35-39 | the matcher reports a match at a position iff the heading pattern matches there |
| Toc.ScanEmpty | src/pages/DSAResources.jsx:39 | the scan finds nothing iff the pattern matches nowhere from the start position on |
| Toc.ScanFirst | src/pages/DSAResources.jsx:39 | no match is skipped before the first one found |
| Toc.ScanGap | src/pages/DSAResources.jsx:39 | no match is skipped between two consecutive matches found |
| Toc.CleanTitle | src/pages/DSAResources.jsx:42-45 | cleaning never lengthens a title, and a title without `*` or `[` is unchanged |
| Toc.CleanBoldTitle | src/pages/DSAResources.jsx:43 | `**x**` cleans to x |
| Toc.CleanLinkTitle | src/pages/DSAResources.jsx:45 | `[x](u)` cleans to x |
| Toc.StripPairsPrefix | src/pages/DSAResources.jsx:43-44 | a stretch without the delimiter's first character comes out of a star pass verbatim, ahead of whatever the pass makes of the text after it |
| Toc.StripLinksPrefix | src/pages/DSAResources.jsx:45 | a stretch without `[` comes out of the link pass verbatim, ahead of whatever the pass makes of the text after it |
| Toc.StripLinksAtLink | src/pages/DSAResources.jsx:45 | a link at the head of the text is replaced by its text, and the pass goes on after its `)` |
| Toc.ItalicSurvivesBold | src/pages/DSAResources.jsx:43 | the bold pass leaves a single-starred pair alone when no `*` follows it |
| Toc.StarPassesOver | src/pages/DSAResources.jsx:43-44 | a stretch without `*` comes through both star passes verbatim, ahead of what they make of the rest |
| Toc.CleanBoldInside | src/pages/DSAResources.jsx:42-45 | plain text p, then `**x**`, then any rest q, cleans to p, x and the cleaned q |
| Toc.CleanItalicInside | src/pages/DSAResources.jsx:42-45 | plain text p, then `*x*` with x non-empty, then a rest q not starting with `*`, cleans to p, x and the cleaned q |
| Toc.CleanLinkInside | src/pages/DSAResources.jsx:42-45 | plain text p, then `[x](u)`, then any rest q, cleans to p, x and the cleaned q |
| Toc.KeepIdChars | src/pages/DSAResources.jsx:50 | only word characters, whitespace and hyphens remain, and text made only of them is unchanged |
| Toc.SpacesToHyphen | src/pages/DSAResources.jsx:51 | no whitespace remains; each whitespace run becomes one hyphen |
| Toc.CollapseHyphens | src/pages/DSAResources.jsx:52 | no two hyphens are adjacent, and text without a double hyphen is unchanged |
| Toc.Slug | src/pages/DSAResources.jsx:48-52 | the id is lower-case, with only word characters and single hyphens |
| Toc.SlugIdempotent | src/pages/DSAResources.jsx:48-52 | a slug of a slug is the slug itself |
| Toc.ExtractHeadings | src/pages/DSAResources.jsx:34-61 | one heading per match, with its level (1 to 6), its cleaned title and a slug id |
| Toc.NoHeadingAtSevenHashes | src/pages/DSAResources.jsx:35 | a run of seven hashes starts no heading |
| Toc.BareHashSwallowsNextLine | src/pages/DSAResources.jsx:35 | a lone `#` line swallows the next line as its title, because `\s+` crosses the newline |
| Toc.InitialExpanded | src/pages/DSAResources.jsx:63-70 | exactly the level-1 and level-2 headings start expanded |
| Toc.InitiallyOpen | src/pages/DSAResources.jsx:63-70 | a section starts open iff a heading of level 1 or 2 has its id |
| Toc.Toggle | src/pages/DSAResources.jsx:95-100 | toggling flips one section and leaves every other entry alone |
| Toc.ToggleTwice | src/pages/DSAResources.jsx:95-100 | toggling twice restores every section's state |
| Toc.ChildrenBelowTop | src/pages/DSAResources.jsx:74-93 | every child of a group has level above 1 |
| Toc.GroupHeads | src/pages/DSAResources.jsx:74-93 | the group heads are exactly the level-1 headings, in order |
| Toc.LeadSpec | src/pages/DSAResources.jsx:86 | the headings before the first level-1 heading belong to no group |
| Toc.NoGroupsIffNoTop | src/pages/DSAResources.jsx:74-93 | there are no groups iff there is no level-1 heading |
| Toc.GroupingKeepsOrder | src/pages/DSAResources.jsx:74-93 | the groups, unfolded, give back the headings from the first level-1 heading on, in order |
| Toc.Chunks | src/pages/DSAResources.jsx:171-182 | the chunks concatenate back to the markdown; all but the last have 5000 characters and none is empty |
| Toc.ChunkIsPage | src/pages/DSAResources.jsx:176-178 | chunk i is page i+1 of the markdown at 5000 characters a page |
| Toc.OnMarkdown | src/pages/DSAResources.jsx:171-182 | new markdown loads its chunks with the first three shown; empty markdown changes nothing |
| Toc.LoadMore | src/pages/DSAResources.jsx:185-189 | loading more shows up to two more chunks, never more than exist, and does nothing once all are shown |
| Toc.LoadMoreCount | src/pages/DSAResources.jsx:171-189 | after k loads, min(3+2k, number of chunks) chunks are shown |
| Toc.IndicatorIffHidden | src/pages/DSAResources.jsx:326 | the loading indicator is shown iff some text is still hidden |
| Toc.ViewSection | src/components/TOCSection.jsx:8-46 | the header is active iff its id is the active heading; the toggle shows iff there are children; the list shows iff expanded; children are indented by (level-2)*15 pixels |
| Toc.ToggleFlipsList | src/components/TOCSection.jsx:14-31 | toggling a section with children flips whether its list is shown |
| Toc.OpenGroupsListed | src/pages/DSAResources.jsx:63-93 | every group with children starts with its list shown |
| Viewer.ZoomIn | src/components/PDFViewer.jsx:179-181 | zooming in stays at most 200% and never shrinks a level within range |
| Viewer.ZoomOut | src/components/PDFViewer.jsx:183-185 | zooming out stays at least 50% and never grows a level within range |
| Viewer.ZoomInOut | src/components/PDFViewer.jsx:179-185 | zoom in and out undo each other away from the limits; each is a no-op exactly at its limit |
| Viewer.ZoomInTimesSaturates | src/components/PDFViewer.jsx:179-181 | n zoom-ins give min(z+25n, 200) |
| Viewer.Rotate | src/components/PDFViewer.jsx:187-189 | rotation stays in 0..359 and keeps quarter turns |
| Viewer.RotateFour | src/components/PDFViewer.jsx:187-189 | four rotations return to the start, and one always changes the angle |
| Viewer.RotateTimesAngle | src/components/PDFViewer.jsx:187-189 | n rotations from 0 give 90n mod 360 |
| Viewer.Step | src/components/PDFViewer.jsx:122-208 | frame load clears loading and error; frame failure sets the error; selecting a related resource restarts loading; leaving fullscreen shows the controls |
| Viewer.Close | src/components/PDFViewer.jsx:191-202 | closing resets zoom, rotation, fullscreen and error, and exits fullscreen iff it was on |
| Viewer.CloseForgetsView | src/components/PDFViewer.jsx:179-202 | zooming or rotating before closing makes no difference to the closed state |
| Viewer.CloseIdempotent | src/components/PDFViewer.jsx:191-202 | closing twice equals closing once, and the second close needs no fullscreen exit |
| Viewer.SelectThenFrame | src/components/PDFViewer.jsx:122-130 | after selecting a resource, the frame's load or failure ends loading |
| Viewer.Related | src/components/PDFViewer.jsx:104-106 | at most six related resources, each fetched and different from the current one |
| Viewer.RelatedIsCollect | src/components/PDFViewer.jsx:104-106 | the related list is the first six other resources, in fetch order |
| Viewer.RelatedComplete | src/components/PDFViewer.jsx:104-106 | when fewer than six are shown, every other fetched resource is among them |
| Viewer.Fetched | src/components/PDFViewer.jsx:96-111 | a successful fetch replaces only the related list; a failed one changes nothing |
| Viewer.InitialValid | src/components/PDFViewer.jsx:12-19 | the initial state is valid: 100%, no rotation, loading, no error, no related resources |
| Viewer.StepValid | src/components/PDFViewer.jsx:122-208 | every event, fetch and close keeps zoom in 50..200 in steps of 25, rotation a quarter turn, no error while loading, and at most six related |
| Viewer.RunValid | src/components/PDFViewer.jsx:122-208 | any sequence of events keeps the state valid |
| Viewer.Render | src/components/PDFViewer.jsx:210-227 | nothing is drawn unless open with a resource; the frame shows the embed link; controls and sidebar follow their conditions |
| Viewer.ControlsOutsideFullscreen | src/components/PDFViewer.jsx:227-432 | outside fullscreen the controls always show; the sidebar only shows outside fullscreen |
| Viewer.ControlsAfterClose | src/components/PDFViewer.jsx:191-202 | after closing, the controls show, and the sidebar shows iff there are related resources |
| Header.NavItems | src/components/Header.jsx:69-78 | Home always comes first; a visitor gets Home alone; every entry but Home is protected |
| Header.Navigate | src/components/Header.jsx:86-93 | a visitor going to cheat sheets or DSA is asked to sign in; any other navigation goes to the path and closes the menu |
| Header.ItemClick | src/components/Header.jsx:136-183 | a protected entry clicked by a visitor asks to sign in, and closes the menu only from the mobile menu (Header.jsx:307-314); every other click, a signed-in user's on a protected entry included, is the ordinary navigation |
| Header.DrawnItemsNavigate | src/components/Header.jsx:136-183 | every drawn entry navigates to its own path and closes the menu |
| Header.LibraryPathUngated | src/components/Header.jsx:86-93 | the library entry is protected, yet its path passes the sign-in gate |
| Header.ActiveEntryUnique | src/components/Header.jsx:136-138 | at most one entry is active |
| Header.DisplayName | src/components/Header.jsx:204 | the shown name is never empty, and is the metadata name when there is one |
| Header.DisplayNameFromEmail | src/components/Header.jsx:204 | without a name, the e-mail up to its first `@`, or "User" when that part is empty |
| Header.CheckStarted | src/components/Header.jsx:23-42 | a user with an e-mail starts a check; otherwise the admin flag is cleared |
| Header.CheckSettled | src/components/Header.jsx:28-35 | once settled, the check is over, and the flag is true iff the lookup answered true |
| Header.AdminEntryAfterCheck | src/components/Header.jsx:23-42 | after the check, the admin entry shows iff a user with an e-mail was confirmed admin |
| Header.AdminEntryHiddenWhileChecking | src/components/Header.jsx:26-27 | while a check is running, the admin entry is hidden |
| Header.Render | src/components/Header.jsx:81-260 | hidden on the resources page or under the viewer; otherwise the entries, the active flags and the user menu, loading notice or login button |
| Header.VisitorSeesNoAdmin | src/components/Header.jsx:195-260 | a visitor sees only Home and no user menu; the resources page shows no header |

## Left out

- Network, database and authentication calls are replaced by parameters. This covers Supabase queries, Google sign-in, the admin lookup and the markdown fetch.
- `isSupabaseConfigured` is a boolean parameter. The unconfigured client is null, so every query throws and takes the fallback branch.
- The file I/O of convert.cjs is left out: reading the directory, writing the JSON and logging. So is its try/catch around each file.
- DOM work is left out: scrolling, the IntersectionObserver behind the active heading, the 70% scroll trigger for loading more, and animations.
- The viewer's timers are left out, including the controls auto-hide. So are the fullscreen API calls, the clipboard and share calls, the download counter, the favourite toggle and the `onClose`/`onResourceChange` callbacks.
- The fullscreen-change listener is modelled only as an event.
- Header's click-outside handler and scroll shadow are left out. They change styling, not content.
- Rendering to JSX is left out. The model stops at the structures the JSX is built from.
- Ratings are modelled as integer sort keys, not floating point.
- Dates are integer timestamps, and "newest" compares them.
- `localeCompare` is a comparison parameter. Each sort contract holds when that parameter is a total preorder.
- `toLowerCase` is modelled on ASCII letters only.
- Strings are sequences of Unicode scalar values, where JavaScript strings are sequences of UTF-16 code units. Lengths, indices and `slice` therefore count characters; they agree with JavaScript only on text inside the Basic Multilingual Plane. The default `sort()` is the exception: it is modelled on code units.
- Toc.CleanTitle: its lemmas cover titles built piece by piece from plain text, `**x**`, `*x*` and `[x](u)` with plain insides. Nested markup, unclosed markers and markers that span a line end are described only by the definition.
- Toc.Chunks: cuts the markdown every 5000 characters, where `slice` cuts every 5000 code units. On text with characters above the Basic Multilingual Plane the boundaries and the number of chunks differ, and JavaScript can split a surrogate pair, which a Dafny string cannot hold.
- Toc.ChunkIsPage: the same character-versus-code-unit difference as Toc.Chunks.
- Convert.GroupSheets: assumes no first category names an `Object.prototype` property such as "constructor" or "toString". The source indexes a plain object, so for such a name `grouped[category]` is the inherited value, `.push` throws and the converter stops; the model groups the sheet normally.
- SheetIndex.GroupedViewPartition: the same assumption for CheatSheets.jsx:33-38, whose effect throws on such a first category.
- Convert.GroupsPartition: the same assumption as Convert.GroupSheets.
- The host sort is modelled as a stable insertion sort. Contracts claim only a sorted permutation, plus the stored order when the comparator always answers 0.
- The order of JavaScript object keys is left out. Integer-like category keys would come first; the model keeps insertion order.
- Convert.SheetLeTotal: requires a total order on strings, not a preorder. Two distinct strings that compare equal would make the two-key comparator inconsistent.
- MarkdownSheet.LoadDefaults: states the route id only when no frontmatter line sets `id`. A frontmatter `id:` key overwrites the route id.
- Viewer.Fetched: a failed related-resource fetch is the `None` argument. The error is only logged, so the list is kept.
- Header.AdminCheck: models one lookup running to its end. Two lookups that overlap after quick user changes can settle in either order; that race is left out.
- Viewer.Rotate: requires a non-negative angle. Every reachable rotation is non-negative, and JavaScript `%` differs from Dafny's on negative operands.

## Findings

| source | as written | input that shows it | evidently intended | confidence | as-written member | corrected member |
|---|---|---|---|---|---|---|
| src/pages/CheatSheet.jsx:66 | `content.split('## ')` also cuts inside every `### ` heading, so the later `split('### ')` never finds a subsection mark: each `###` subsection becomes a section of its own | `"## A\n### B"` gives sections A and B, not section A with subsection B | split only at `## ` headings that start a line, so that `###` headings stay inside their section | not executed | SheetPage.FormatContentPromotesSubsection | SheetPage.FormatContentFixedKeepsSubsection |
