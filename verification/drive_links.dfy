/**
  Google Drive link rewriting: the file id is the run of `[A-Za-z0-9_-]`
  after the leftmost `/d/` that is followed by such a character (the pattern
  `\/d\/([a-zA-Z0-9-_]+)` without flags), and from it the download, preview
  and thumbnail URLs are built. Also the admin side that uses the thumbnail:
  which thumbnail a new PDF is stored with, and the tally of a bulk insert.
 */
module DriveLinks {
  import opened Seqs

  predicate IsFileIdChar(c: char)
  {
    ('a' <= c <= 'z') || ('A' <= c <= 'Z') || ('0' <= c <= '9') || c == '_' || c == '-'
  }

  /** The three characters `/d/` start at p. */
  predicate Triple(s: string, p: int)
  {
    0 <= p && p + 3 <= |s| && s[p] == '/' && s[p + 1] == 'd' && s[p + 2] == '/'
  }

  /** The pattern matches at p: `/d/` and at least one id character after it. */
  predicate MatchAt(s: string, p: int)
  {
    Triple(s, p) && p + 3 < |s| && IsFileIdChar(s[p + 3])
  }

  /** The leftmost match at or after `from`. */
  function FirstMatch(s: string, from: nat): (r: Option<nat>)
    ensures r.Some? ==> from <= r.value && MatchAt(s, r.value)
    ensures r.Some? ==> forall q :: from <= q < r.value ==> !MatchAt(s, q)
    ensures r.None? ==> forall q :: from <= q < |s| ==> !MatchAt(s, q)
    decreases |s| - from
  {
    if from + 3 >= |s| then None
    else if MatchAt(s, from) then Some(from)
    else FirstMatch(s, from + 1)
  }

  /** End of the run of id characters starting at i (the greedy `+`). */
  function IdEnd(s: string, i: nat): (e: nat)
    requires i <= |s|
    ensures i <= e <= |s|
    ensures forall k :: i <= k < e ==> IsFileIdChar(s[k])
    ensures e == |s| || !IsFileIdChar(s[e])
    decreases |s| - i
  {
    if i < |s| && IsFileIdChar(s[i]) then IdEnd(s, i + 1) else i
  }

  /** The pattern matches at p and nowhere before it. */
  predicate Leftmost(s: string, p: nat)
  {
    MatchAt(s, p) && forall q :: 0 <= q < p ==> !MatchAt(s, q)
  }

  /** `id` stands at i in s and the next character, if any, does not continue the run. */
  predicate RunAfter(s: string, i: nat, id: string)
  {
    i + |id| <= |s| && s[i..i + |id|] == id && (i + |id| == |s| || !IsFileIdChar(s[i + |id|]))
  }

  /** The captured group `fileIdMatch[1]`, or nothing when the pattern does not match. */
  function FileId(s: string): (r: Option<string>)
    ensures r.None? <==> forall p :: 0 <= p < |s| ==> !MatchAt(s, p)
    ensures r.Some? ==> exists p :: 0 <= p < |s| && Leftmost(s, p) && RunAfter(s, p + 3, r.value)
    ensures r.Some? ==> |r.value| > 0 && forall k :: 0 <= k < |r.value| ==> IsFileIdChar(r.value[k])
  {
    match FirstMatch(s, 0)
      case None =>
        None
      case Some(p) =>
        var e := IdEnd(s, p + 3);
        var id := s[p + 3..e];
        assert forall k :: 0 <= k < |id| ==> IsFileIdChar(id[k]) by {
          forall k | 0 <= k < |id| ensures IsFileIdChar(id[k]) {
            assert id[k] == s[p + 3 + k];
          }
        }
        assert Leftmost(s, p) && RunAfter(s, p + 3, id);
        Some(id)
  }

  const DriveHost := "https://drive.google.com/"
  const DownloadQuery := "uc?export=download&id="
  const PreviewPrefix := "https://drive.google.com/file/d/"
  const PreviewSuffix := "/preview"
  const ThumbnailPrefix := "https://lh3.googleusercontent.com/d/"
  const ThumbnailSuffix := "=s1024?authuser=0"

  function DownloadUrl(id: string): string
  {
    DriveHost + DownloadQuery + id
  }

  function PreviewUrl(id: string): string
  {
    PreviewPrefix + id + PreviewSuffix
  }

  function ThumbnailUrl(id: string): string
  {
    ThumbnailPrefix + id + ThumbnailSuffix
  }

  /** `getGoogleDriveDirectLink` */
  function DirectLink(viewLink: string): (r: string)
    ensures FileId(viewLink).None? ==> r == viewLink
    ensures FileId(viewLink).Some? ==> r == DownloadUrl(FileId(viewLink).value)
  {
    match FileId(viewLink)
      case Some(id) => DownloadUrl(id)
      case None => viewLink
  }

  /** `getGoogleDriveEmbedLink` */
  function EmbedLink(viewLink: string): (r: string)
    ensures FileId(viewLink).None? ==> r == viewLink
    ensures FileId(viewLink).Some? ==> r == PreviewUrl(FileId(viewLink).value)
  {
    match FileId(viewLink)
      case Some(id) => PreviewUrl(id)
      case None => viewLink
  }

  /** `generateGoogleDriveThumbnail`; `None` stands for `null`. */
  function Thumbnail(fileLink: string): (r: Option<string>)
    ensures r.None? <==> FileId(fileLink).None?
    ensures r.Some? ==> r.value == ThumbnailUrl(FileId(fileLink).value)
  {
    match FileId(fileLink)
      case Some(id) => Some(ThumbnailUrl(id))
      case None => None
  }

  // ---------------------------------------------------------------------------
  // Reading the id back from a link of known shape
  // ---------------------------------------------------------------------------

  /** No `/d/` anywhere in s. */
  predicate NoTriple(s: string)
  {
    forall p :: 0 <= p < |s| ==> !Triple(s, p)
  }

  predicate IdChars(id: string)
  {
    forall k :: 0 <= k < |id| ==> IsFileIdChar(id[k])
  }

  /**
    A string laid out as `pre + id + post`, where `pre` ends in its only `/d/`,
    the id is a non-empty run of id characters and `post` does not continue
    the run, yields exactly that id.
   */
  lemma IdOfLayout(pre: string, id: string, post: string)
    requires |pre| >= 3 && Triple(pre, |pre| - 3)
    requires NoTriple(pre[..|pre| - 1])
    requires |id| > 0 && IdChars(id)
    requires post == [] || !IsFileIdChar(post[0])
    ensures FileId(pre + id + post) == Some(id)
  {
    var s := pre + id + post;
    var m := |pre| - 3;
    assert s[m + 3] == id[0];
    assert MatchAt(s, m);
    forall q | 0 <= q < m ensures !MatchAt(s, q) {
      assert !Triple(pre[..|pre| - 1], q);
    }
    assert FirstMatch(s, 0) == Some(m) by {
      FirstMatchIs(s, 0, m);
    }
    var e := |pre| + |id|;
    forall k | |pre| <= k < e ensures IsFileIdChar(s[k]) {
      assert s[k] == id[k - |pre|];
    }
    assert e == |s| || !IsFileIdChar(s[e]);
    IdEndIs(s, |pre|, e);
    assert s[|pre|..e] == id;
  }

  lemma {:induction false} FirstMatchIs(s: string, from: nat, m: nat)
    requires from <= m && MatchAt(s, m)
    requires forall q :: from <= q < m ==> !MatchAt(s, q)
    ensures FirstMatch(s, from) == Some(m)
    decreases m - from
  {
    if from < m {
      FirstMatchIs(s, from + 1, m);
    }
  }

  lemma {:induction false} IdEndIs(s: string, i: nat, e: nat)
    requires i <= e <= |s|
    requires forall k :: i <= k < e ==> IsFileIdChar(s[k])
    requires e == |s| || !IsFileIdChar(s[e])
    ensures IdEnd(s, i) == e
    decreases e - i
  {
    if i < e {
      IdEndIs(s, i + 1, e);
    }
  }

  /**
    A string `a + b + tail` has no match when `a` holds no `/d/`, `b` does not
    start with `d` and holds no `/`, and the tail holds no `/`.
   */
  lemma NoIdOfLayout(a: string, b: string, tail: string)
    requires NoTriple(a)
    requires |b| > 0 && b[0] != 'd' && '/' !in b && '/' !in tail
    ensures FileId(a + b + tail) == None
  {
    var s := a + b + tail;
    assert b[0] in b;
    forall p | 0 <= p && p + 3 <= |s| ensures !Triple(s, p) {
      if p + 3 <= |a| {
        assert s[p] == a[p] && s[p + 1] == a[p + 1] && s[p + 2] == a[p + 2];
        assert !Triple(a, p);
      } else if p + 2 == |a| {
        assert s[p + 2] == b[0];
      } else if p + 1 == |a| {
        assert s[p + 1] == b[0];
      } else if p < |a| + |b| {
        assert s[p] == b[p - |a|];
        assert s[p] in b;
      } else {
        assert s[p] == tail[p - |a| - |b|];
        assert s[p] in tail;
      }
    }
  }

  lemma PreviewPrefixShape()
    ensures |PreviewPrefix| >= 3 && Triple(PreviewPrefix, |PreviewPrefix| - 3)
    ensures NoTriple(PreviewPrefix[..|PreviewPrefix| - 1])
  {
    assert PreviewPrefix[..|PreviewPrefix| - 1] == "https://drive.google.com/file/d";
  }

  lemma ThumbnailPrefixShape()
    ensures |ThumbnailPrefix| >= 3 && Triple(ThumbnailPrefix, |ThumbnailPrefix| - 3)
    ensures NoTriple(ThumbnailPrefix[..|ThumbnailPrefix| - 1])
  {
    assert ThumbnailPrefix[..|ThumbnailPrefix| - 1] == "https://lh3.googleusercontent.com/d";
  }

  lemma DriveHostShape()
    ensures NoTriple(DriveHost)
  {
  }

  // ---------------------------------------------------------------------------
  // Properties of the rewrites
  // ---------------------------------------------------------------------------

  /** The id can be read back from a preview URL. */
  lemma PreviewUrlId(id: string)
    requires |id| > 0 && IdChars(id)
    ensures FileId(PreviewUrl(id)) == Some(id)
  {
    PreviewPrefixShape();
    IdOfLayout(PreviewPrefix, id, PreviewSuffix);
  }

  /** The id can be read back from a thumbnail URL. */
  lemma ThumbnailUrlId(id: string)
    requires |id| > 0 && IdChars(id)
    ensures FileId(ThumbnailUrl(id)) == Some(id)
  {
    ThumbnailPrefixShape();
    IdOfLayout(ThumbnailPrefix, id, ThumbnailSuffix);
  }

  /** A download URL has no `/d/` segment at all. */
  lemma DownloadUrlHasNoId(id: string)
    requires IdChars(id)
    ensures FileId(DownloadUrl(id)) == None
  {
    DriveHostShape();
    assert '/' !in id by {
      forall k | 0 <= k < |id| ensures id[k] != '/' {
        assert IsFileIdChar(id[k]);
      }
    }
    NoIdOfLayout(DriveHost, DownloadQuery, id);
  }

  /** The embed rewrite is idempotent and keeps the id. */
  lemma EmbedLinkIdempotent(s: string)
    ensures FileId(EmbedLink(s)) == FileId(s)
    ensures EmbedLink(EmbedLink(s)) == EmbedLink(s)
  {
    if FileId(s).Some? {
      PreviewUrlId(FileId(s).value);
    }
  }

  /**
    The download rewrite is idempotent, and it changes its input exactly when
    the input holds a Drive file id.
   */
  lemma DirectLinkIdempotent(s: string)
    ensures DirectLink(DirectLink(s)) == DirectLink(s)
    ensures DirectLink(s) != s <==> FileId(s).Some?
  {
    if FileId(s).Some? {
      DownloadUrlHasNoId(FileId(s).value);
    }
  }

  /** The thumbnail keeps the id of the link it was made from. */
  lemma ThumbnailKeepsId(s: string)
    ensures Thumbnail(s).Some? ==> FileId(Thumbnail(s).value) == FileId(s)
  {
    if FileId(s).Some? {
      ThumbnailUrlId(FileId(s).value);
    }
  }

  /** Download and preview links name the same file: either both rewrite to an id or neither. */
  lemma SameIdBothWays(s: string, id: string)
    requires FileId(s).Some?
    ensures DirectLink(s) == DownloadUrl(id) <==> EmbedLink(s) == PreviewUrl(id)
  {
    var x := FileId(s).value;
    if DirectLink(s) == DownloadUrl(id) {
      assert (DriveHost + DownloadQuery) + x == (DriveHost + DownloadQuery) + id;
      assert x == ((DriveHost + DownloadQuery) + x)[|DriveHost + DownloadQuery|..];
    }
    if EmbedLink(s) == PreviewUrl(id) {
      assert |x| == |id|;
      assert x == (PreviewPrefix + x + PreviewSuffix)[|PreviewPrefix|..|PreviewPrefix| + |x|];
      assert id == (PreviewPrefix + id + PreviewSuffix)[|PreviewPrefix|..|PreviewPrefix| + |id|];
    }
  }

  /** The share link of a Drive file, as the sample records store them. */
  function ShareLink(id: string): string
  {
    PreviewPrefix + id + "/view?usp=sharing"
  }

  /** A share link's thumbnail is the stored one, for any valid id. */
  lemma ShareLinkThumbnail(id: string)
    requires |id| > 0 && IdChars(id)
    ensures FileId(ShareLink(id)) == Some(id)
    ensures Thumbnail(ShareLink(id)) == Some(ThumbnailUrl(id))
    ensures DirectLink(ShareLink(id)) == DownloadUrl(id)
    ensures EmbedLink(ShareLink(id)) == PreviewUrl(id)
  {
    PreviewPrefixShape();
    IdOfLayout(PreviewPrefix, id, "/view?usp=sharing");
  }

  /**
    The sample records store, for each Drive id, the share link and the
    thumbnail URL built from it: the generated thumbnail is the stored one,
    ids with `_` and `-` included.
   */
  lemma SampleThumbnails()
    ensures Thumbnail(ShareLink("14M-9ZZmD9oAgE1UprFG7ywLpBi9CBCYV")) == Some(ThumbnailUrl("14M-9ZZmD9oAgE1UprFG7ywLpBi9CBCYV"))
    ensures Thumbnail(ShareLink("1jkHSy8VI5u2etxcueN1SbVOpeLkN21l_")) == Some(ThumbnailUrl("1jkHSy8VI5u2etxcueN1SbVOpeLkN21l_"))
    ensures Thumbnail(ShareLink("19LpQSN46RN_dt65cogaI8b4-6W9yGoVg")) == Some(ThumbnailUrl("19LpQSN46RN_dt65cogaI8b4-6W9yGoVg"))
  {
    SampleIdValidA();
    SampleIdValidB();
    SampleIdValidC();
    ShareLinkThumbnail("14M-9ZZmD9oAgE1UprFG7ywLpBi9CBCYV");
    ShareLinkThumbnail("1jkHSy8VI5u2etxcueN1SbVOpeLkN21l_");
    ShareLinkThumbnail("19LpQSN46RN_dt65cogaI8b4-6W9yGoVg");
  }

  lemma SampleIdValidA()
    ensures IdChars("14M-9ZZmD9oAgE1UprFG7ywLpBi9CBCYV")
  {
  }

  lemma SampleIdValidB()
    ensures IdChars("1jkHSy8VI5u2etxcueN1SbVOpeLkN21l_")
  {
  }

  lemma SampleIdValidC()
    ensures IdChars("19LpQSN46RN_dt65cogaI8b4-6W9yGoVg")
  {
  }

  /** Input without a match passes through both rewrites and has no thumbnail. */
  lemma PlainLinkUnchanged()
    ensures DirectLink("https://example.com/file.pdf") == "https://example.com/file.pdf"
    ensures EmbedLink("https://example.com/file.pdf") == "https://example.com/file.pdf"
    ensures Thumbnail("https://example.com/file.pdf") == None
  {
    var s := "https://example.com/file.pdf";
    assert NoTriple(s);
    assert FileId(s) == None;
  }

  // ---------------------------------------------------------------------------
  // Adding PDFs
  // ---------------------------------------------------------------------------

  /** The fields of a PDF handed to `addNewPDF`; an empty thumbnail stands for a falsy one. */
  datatype NewPdf = NewPdf(category: string, subcategory: string, name: string, fileLink: string, thumbnail: string)

  /** The thumbnail stored with a new PDF: the supplied one when truthy, else the generated one. */
  function FinalThumbnail(pdf: NewPdf): (r: Option<string>)
    ensures pdf.thumbnail != "" ==> r == Some(pdf.thumbnail)
    ensures pdf.thumbnail == "" ==> r == Thumbnail(pdf.fileLink)
    ensures r.None? <==> pdf.thumbnail == "" && FileId(pdf.fileLink).None?
  {
    if pdf.thumbnail != "" then Some(pdf.thumbnail) else Thumbnail(pdf.fileLink)
  }

  /** The row `addNewPDF` inserts, given the id of the category record it found or created. */
  datatype Row = Row(categoryId: int, name: string, fileLink: string, thumbnail: Option<string>)

  function InsertedRow(pdf: NewPdf, categoryId: int): (r: Row)
    ensures r.name == pdf.name && r.fileLink == pdf.fileLink && r.categoryId == categoryId
    ensures r.thumbnail == FinalThumbnail(pdf)
  {
    Row(categoryId, pdf.name, pdf.fileLink, FinalThumbnail(pdf))
  }

  /** What one `addNewPDF` call did: returned the stored row, or threw with a message. */
  datatype Outcome = Stored(row: Row) | Threw(message: string)

  datatype BulkError = BulkError(pdf: string, error: string)

  datatype BulkReport = BulkReport(success: nat, failed: nat, results: seq<Row>, errors: seq<BulkError>)

  /** The rows of the successful calls, in input order. */
  function StoredRows(outcomes: seq<Outcome>): seq<Row>
  {
    if |outcomes| == 0 then []
    else StoredRows(outcomes[..|outcomes| - 1])
         + (if outcomes[|outcomes| - 1].Stored? then [outcomes[|outcomes| - 1].row] else [])
  }

  /** The names and messages of the failed calls, in input order. */
  function Failures(pdfs: seq<NewPdf>, outcomes: seq<Outcome>): seq<BulkError>
    requires |pdfs| == |outcomes|
  {
    if |outcomes| == 0 then []
    else
      var n := |outcomes| - 1;
      Failures(pdfs[..n], outcomes[..n])
      + (if outcomes[n].Threw? then [BulkError(pdfs[n].name, outcomes[n].message)] else [])
  }

  lemma {:induction false} StoredPlusFailed(pdfs: seq<NewPdf>, outcomes: seq<Outcome>)
    requires |pdfs| == |outcomes|
    ensures |StoredRows(outcomes)| + |Failures(pdfs, outcomes)| == |outcomes|
    decreases |outcomes|
  {
    if |outcomes| > 0 {
      var n := |outcomes| - 1;
      StoredPlusFailed(pdfs[..n], outcomes[..n]);
    }
  }

  /**
    `bulkAddPDFs`: one `addNewPDF` call per input in order (its outcome is an
    input here), collecting rows and errors; a failure never escapes.
   */
  method BulkAdd(pdfs: seq<NewPdf>, outcomes: seq<Outcome>) returns (report: BulkReport)
    requires |outcomes| == |pdfs|
    ensures report.success + report.failed == |pdfs|
    ensures report.success == |report.results| && report.failed == |report.errors|
    ensures report.results == StoredRows(outcomes)
    ensures report.errors == Failures(pdfs, outcomes)
  {
    var results: seq<Row> := [];
    var errors: seq<BulkError> := [];
    for i := 0 to |pdfs|
      invariant results == StoredRows(outcomes[..i])
      invariant errors == Failures(pdfs[..i], outcomes[..i])
    {
      assert outcomes[..i + 1][..i] == outcomes[..i];
      assert pdfs[..i + 1][..i] == pdfs[..i];
      match outcomes[i]
        case Stored(row) =>
          results := results + [row];
        case Threw(message) =>
          errors := errors + [BulkError(pdfs[i].name, message)];
    }
    assert outcomes[..|pdfs|] == outcomes;
    assert pdfs[..|pdfs|] == pdfs;
    StoredPlusFailed(pdfs, outcomes);
    report := BulkReport(|results|, |errors|, results, errors);
  }

  /** Each error names the PDF whose call failed, and only failed calls leave errors. */
  lemma {:induction false} FailuresNamePdfs(pdfs: seq<NewPdf>, outcomes: seq<Outcome>, e: BulkError)
    requires |pdfs| == |outcomes|
    requires e in Failures(pdfs, outcomes)
    ensures exists i :: 0 <= i < |pdfs| && outcomes[i] == Threw(e.error) && pdfs[i].name == e.pdf
    decreases |outcomes|
  {
    var n := |outcomes| - 1;
    if e in Failures(pdfs[..n], outcomes[..n]) {
      FailuresNamePdfs(pdfs[..n], outcomes[..n], e);
      var i :| 0 <= i < n && outcomes[..n][i] == Threw(e.error) && pdfs[..n][i].name == e.pdf;
      assert outcomes[i] == Threw(e.error) && pdfs[i].name == e.pdf;
    } else {
      assert outcomes[n] == Threw(e.error) && pdfs[n].name == e.pdf;
    }
  }
}
