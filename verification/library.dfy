/**
  The library page: search and category filter over the PDF catalogue,
  the sort selected by key, twelve PDFs per page, the page reset when a
  filter changes, and the pagination row with its prev/next buttons.
 */
module Library {
  import opened Seqs
  import opened Text
  import Paging

  const ItemsPerPage: nat := 12
  /** The page-button window reaches two pages either side of the current one. */
  const WindowRadius: nat := 2

  /** A catalogue entry; `rating` is an opaque ordered key standing for the source's decimal. */
  datatype Pdf = Pdf(id: int, title: string, author: string, category: string,
                     downloads: int, rating: int, tags: seq<string>)

  predicate MatchesSearch(p: Pdf, term: string)
  {
    || ContainsIgnoringCase(p.title, term)
    || ContainsIgnoringCase(p.author, term)
    || exists i :: 0 <= i < |p.tags| && ContainsIgnoringCase(p.tags[i], term)
  }

  predicate MatchesCategory(p: Pdf, category: string)
  {
    category == "all" || p.category == category
  }

  /** `filteredPdfs` */
  function FilterPdfs(pdfs: seq<Pdf>, term: string, category: string): (r: seq<Pdf>)
    ensures |r| <= |pdfs|
    ensures forall p :: p in r <==> p in pdfs && MatchesSearch(p, term) && MatchesCategory(p, category)
    ensures multiset(r) <= multiset(pdfs)
  {
    Filter((p: Pdf) => MatchesSearch(p, term) && MatchesCategory(p, category), pdfs)
  }

  /** An empty search term matches every title, so only the category decides. */
  lemma EmptySearchKeepsAll(pdfs: seq<Pdf>, category: string)
    ensures FilterPdfs(pdfs, "", category) == Filter((p: Pdf) => MatchesCategory(p, category), pdfs)
    ensures category == "all" ==> FilterPdfs(pdfs, "", category) == pdfs
  {
    forall p: Pdf ensures MatchesSearch(p, "") {
      ContainsEmpty(Lower(p.title));
    }
    FilterExt((p: Pdf) => MatchesSearch(p, "") && MatchesCategory(p, category),
      (p: Pdf) => MatchesCategory(p, category), pdfs);
  }

  /**
    The comparator of each sort key, as "a may come before b": `newest` and
    `popular` and `rating` descending, `title` by the host's `localeCompare`,
    and any other key comparing everything equal.
   */
  function SortLe(key: string, titleLe: (string, string) -> bool): (Pdf, Pdf) -> bool
  {
    if key == "newest" then (a: Pdf, b: Pdf) => a.id >= b.id
    else if key == "popular" then (a: Pdf, b: Pdf) => a.downloads >= b.downloads
    else if key == "rating" then (a: Pdf, b: Pdf) => a.rating >= b.rating
    else if key == "title" then (a: Pdf, b: Pdf) => titleLe(a.title, b.title)
    else (a: Pdf, b: Pdf) => true
  }

  /** Each key's comparator is a total preorder, `title` as far as `localeCompare` is one. */
  lemma SortLeTotal(key: string, titleLe: (string, string) -> bool)
    requires key == "title" ==> TotalPreorder(titleLe)
    ensures TotalPreorder(SortLe(key, titleLe))
  {
    var le := SortLe(key, titleLe);
    if key == "newest" {
      assert forall a, b :: le(a, b) == (a.id >= b.id);
    } else if key == "popular" {
      assert forall a, b :: le(a, b) == (a.downloads >= b.downloads);
    } else if key == "rating" {
      assert forall a, b :: le(a, b) == (a.rating >= b.rating);
    } else if key == "title" {
      assert forall a, b :: le(a, b) == titleLe(a.title, b.title);
    } else {
      assert forall a, b :: le(a, b);
    }
  }

  /** `sortedPdfs`: a sorted copy of the filtered list. */
  function SortPdfs(pdfs: seq<Pdf>, key: string, titleLe: (string, string) -> bool): (r: seq<Pdf>)
    ensures multiset(r) == multiset(pdfs)
    ensures key == "newest" ==> forall i, j :: 0 <= i < j < |r| ==> r[i].id >= r[j].id
    ensures key == "popular" ==> forall i, j :: 0 <= i < j < |r| ==> r[i].downloads >= r[j].downloads
    ensures key == "rating" ==> forall i, j :: 0 <= i < j < |r| ==> r[i].rating >= r[j].rating
    ensures key == "title" && TotalPreorder(titleLe) ==>
      forall i, j :: 0 <= i < j < |r| ==> titleLe(r[i].title, r[j].title)
    ensures key !in {"newest", "popular", "rating", "title"} ==> r == pdfs
  {
    var le := SortLe(key, titleLe);
    var r := SortBy(le, pdfs);
    assert (key in {"newest", "popular", "rating"} || (key == "title" && TotalPreorder(titleLe))) ==> Sorted(le, r) by {
      if key in {"newest", "popular", "rating"} || (key == "title" && TotalPreorder(titleLe)) {
        SortLeTotal(key, titleLe);
        SortBySorted(le, pdfs);
      }
    }
    assert key !in {"newest", "popular", "rating", "title"} ==> r == pdfs by {
      if key !in {"newest", "popular", "rating", "title"} {
        SortByAllEqual(le, pdfs);
      }
    }
    r
  }

  /** `currentPdfs`: the slice shown on `page`. */
  function CurrentPdfs(sorted: seq<Pdf>, page: int): (r: seq<Pdf>)
    ensures |r| <= ItemsPerPage
    ensures page >= 1 ==> forall i :: 0 <= i < |r| ==>
      (page - 1) * ItemsPerPage + i < |sorted| && r[i] == sorted[(page - 1) * ItemsPerPage + i]
  {
    var r := Paging.Page(sorted, page, ItemsPerPage);
    assert page >= 1 ==> forall i :: 0 <= i < |r| ==>
      (page - 1) * ItemsPerPage + i < |sorted| && r[i] == sorted[(page - 1) * ItemsPerPage + i] by {
      if page >= 1 {
        forall i | 0 <= i < |r|
          ensures (page - 1) * ItemsPerPage + i < |sorted| && r[i] == sorted[(page - 1) * ItemsPerPage + i]
        {
          Paging.PageItem(sorted, page, ItemsPerPage, i);
        }
      }
    }
    r
  }

  /** A page between 1 and the last holds at least one PDF. */
  lemma PageInRangeNotEmpty(sorted: seq<Pdf>, page: int)
    requires 1 <= page <= Paging.TotalPages(|sorted|, ItemsPerPage)
    ensures |CurrentPdfs(sorted, page)| > 0
  {
    assert (page - 1) * ItemsPerPage < |sorted|;
  }

  /** The whole listing: filter, sort a copy, cut out the current page. */
  function Listing(pdfs: seq<Pdf>, term: string, category: string, key: string,
                   titleLe: (string, string) -> bool, page: int): (r: seq<Pdf>)
    ensures |r| <= ItemsPerPage
    ensures forall p :: p in r ==> p in pdfs && MatchesSearch(p, term) && MatchesCategory(p, category)
  {
    var filtered := FilterPdfs(pdfs, term, category);
    var sorted := SortPdfs(filtered, key, titleLe);
    Paging.PageMembers(sorted, page, ItemsPerPage);
    MultisetMembers(sorted, filtered);
    CurrentPdfs(sorted, page)
  }

  // ---------------------------------------------------------------------------
  // Page state
  // ---------------------------------------------------------------------------

  datatype View = View(term: string, category: string, sortBy: string, page: int)

  const InitialView := View("", "all", "newest", 1)

  /**
    A change of the search term, category or sort key: the effect that depends
    on the three sets the page back to 1 when any of them changed.
   */
  function SetFilters(v: View, term: string, category: string, sortBy: string): (r: View)
    ensures r.term == term && r.category == category && r.sortBy == sortBy
    ensures (term != v.term || category != v.category || sortBy != v.sortBy) ==> r.page == 1
    ensures (term == v.term && category == v.category && sortBy == v.sortBy) ==> r == v
  {
    if term != v.term || category != v.category || sortBy != v.sortBy then View(term, category, sortBy, 1)
    else v
  }

  /** `handlePageChange(page)` from a page button. */
  function GoTo(v: View, page: int): (r: View)
    ensures r.page == page && r.term == v.term && r.category == v.category && r.sortBy == v.sortBy
  {
    v.(page := page)
  }

  /** The previous-page button; it is disabled on page 1. */
  function Prev(v: View): (r: View)
    ensures v.page == 1 ==> r == v
    ensures v.page != 1 ==> r.page == v.page - 1
  {
    if v.page == 1 then v else GoTo(v, v.page - 1)
  }

  /** The next-page button; it is disabled on the last page. */
  function Next(v: View, total: nat): (r: View)
    ensures v.page == total ==> r == v
    ensures v.page != total ==> r.page == v.page + 1
  {
    if v.page == total then v else GoTo(v, v.page + 1)
  }

  /**
    Every control of a shown row keeps the page in range: the enabled prev and
    next buttons and every page button.
   */
  lemma ControlsStayInRange(v: View, total: nat)
    requires 1 <= v.page <= total && Paging.Pagination(total, v.page, WindowRadius).Some?
    ensures 1 <= Prev(v).page <= total
    ensures 1 <= Next(v, total).page <= total
    ensures forall i :: 0 <= i < total && Paging.Pagination(total, v.page, WindowRadius).value.slots[i].Button? ==>
      1 <= GoTo(v, Paging.Pagination(total, v.page, WindowRadius).value.slots[i].page).page <= total
  {
  }
}
