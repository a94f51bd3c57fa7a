/**
  The resource service's answers when the hosted database cannot be used:
  the built-in catalogue of three records, the search, category, subcategory
  and sort applied to it, lookup by id, and the de-duplicated list of
  (category, subcategory) pairs. Whether the backend is configured is a
  parameter, and the backend's reply is an input.
 */
module PdfData {
  import opened Seqs
  import opened Text

  /** A record; `createdAt` is the instant of `created_at` as an integer timestamp. */
  datatype Resource = Resource(id: string, name: string, fileLink: string, thumbnail: string,
                               createdAt: int, category: string, subcategory: string)

  /** `2024-01-15T10:00:00Z` and friends, as minutes since 2024-01-01T00:00Z. */
  const Jan15At1000: int := 14 * 1440 + 600
  const Jan12At1530: int := 11 * 1440 + 930
  const Jan10At0915: int := 9 * 1440 + 555

  const Fallback: seq<Resource> := [
    Resource("1", "100 Python Interview Questions",
      "https://drive.google.com/file/d/14M-9ZZmD9oAgE1UprFG7ywLpBi9CBCYV/view?usp=sharing",
      "https://lh3.googleusercontent.com/d/14M-9ZZmD9oAgE1UprFG7ywLpBi9CBCYV=s1024?authuser=0",
      Jan15At1000, "Placement Material", "C & DSA Notes"),
    Resource("2", "C Code for Raspberry Pi (92 pages)",
      "https://drive.google.com/file/d/1jkHSy8VI5u2etxcueN1SbVOpeLkN21l_/view?usp=sharing",
      "https://lh3.googleusercontent.com/d/1jkHSy8VI5u2etxcueN1SbVOpeLkN21l_=s1024?authuser=0",
      Jan12At1530, "Placement Material", "C & DSA Notes"),
    Resource("3", "Word Power Made Easy by Norman Lewis",
      "https://drive.google.com/file/d/19LpQSN46RN_dt65cogaI8b4-6W9yGoVg/view?usp=sharing",
      "https://lh3.googleusercontent.com/d/19LpQSN46RN_dt65cogaI8b4-6W9yGoVg=s1024?authuser=0",
      Jan10At0915, "Placement Material", "English")
  ]

  /** The query options; an empty string stands for an absent (falsy) option. */
  datatype Filters = Filters(search: string, category: string, subcategory: string, sortBy: string)

  /** What the backend answered to a list query. */
  datatype Reply<T> = Rows(data: seq<T>) | Failed

  predicate NameMatches(r: Resource, search: string)
  {
    search == "" || ContainsIgnoringCase(r.name, search)
  }

  predicate CategoryMatches(r: Resource, category: string)
  {
    category == "" || category == "all" || r.category == category
  }

  predicate SubcategoryMatches(r: Resource, subcategory: string)
  {
    subcategory == "" || subcategory == "all" || r.subcategory == subcategory
  }

  predicate Passes(r: Resource, f: Filters)
  {
    NameMatches(r, f.search) && CategoryMatches(r, f.category) && SubcategoryMatches(r, f.subcategory)
  }

  /** The test a record passes when it meets all three filters. */
  function Passing(f: Filters): Resource -> bool
  {
    (x: Resource) => Passes(x, f)
  }

  /** One stage of the query: `filter(p)` when the option is present, else nothing. */
  function Stage(present: bool, p: Resource -> bool, data: seq<Resource>): seq<Resource>
  {
    if present then Filter(p, data) else data
  }

  /** The three filters in the source's order, each skipped when its option is absent. */
  function ApplyFilters(data: seq<Resource>, f: Filters): seq<Resource>
  {
    var a := Stage(f.search != "", (x: Resource) => ContainsIgnoringCase(x.name, f.search), data);
    var b := Stage(f.category != "" && f.category != "all", (x: Resource) => x.category == f.category, a);
    Stage(f.subcategory != "" && f.subcategory != "all", (x: Resource) => x.subcategory == f.subcategory, b)
  }

  /** A stage whose skipped case is one where its test passes anyway is a plain filter by that test. */
  lemma StageIsFilter(present: bool, p: Resource -> bool, q: Resource -> bool, data: seq<Resource>)
    requires forall x :: q(x) == (!present || p(x))
    ensures Stage(present, p, data) == Filter(q, data)
  {
    if present {
      FilterExt(p, q, data);
    }
  }

  /** The three filters keep exactly the records that pass all of them, in input order. */
  lemma ApplyFiltersIsFilter(data: seq<Resource>, f: Filters)
    ensures ApplyFilters(data, f) == Filter(Passing(f), data)
  {
    var p1 := (x: Resource) => NameMatches(x, f.search);
    var p2 := (x: Resource) => CategoryMatches(x, f.category);
    var p3 := (x: Resource) => SubcategoryMatches(x, f.subcategory);
    var p12 := (x: Resource) => NameMatches(x, f.search) && CategoryMatches(x, f.category);
    var a := Stage(f.search != "", (x: Resource) => ContainsIgnoringCase(x.name, f.search), data);
    var b := Stage(f.category != "" && f.category != "all", (x: Resource) => x.category == f.category, a);
    var c := Stage(f.subcategory != "" && f.subcategory != "all", (x: Resource) => x.subcategory == f.subcategory, b);
    assert c == ApplyFilters(data, f);
    assert a == Filter(p1, data) by {
      StageIsFilter(f.search != "", (x: Resource) => ContainsIgnoringCase(x.name, f.search), p1, data);
    }
    assert b == Filter(p12, data) by {
      StageIsFilter(f.category != "" && f.category != "all", (x: Resource) => x.category == f.category, p2, a);
      FilterFilter(p1, p2, p12, data);
    }
    assert c == Filter(Passing(f), data) by {
      StageIsFilter(f.subcategory != "" && f.subcategory != "all", (x: Resource) => x.subcategory == f.subcategory, p3, b);
      forall x ensures Passes(x, f) == (p12(x) && p3(x)) {
      }
      FilterFilter(p12, p3, Passing(f), data);
    }
  }

  /** "Newest first" compares the creation instants, latest first. */
  function NewestFirst(): (Resource, Resource) -> bool
  {
    (a: Resource, b: Resource) => a.createdAt >= b.createdAt
  }

  function SortLe(sortBy: string, nameLe: (string, string) -> bool): (Resource, Resource) -> bool
  {
    if sortBy == "title" then (a: Resource, b: Resource) => nameLe(a.name, b.name) else NewestFirst()
  }

  /** `filteredData.sort(...)` on the copy, when a sort key is given. */
  function SortResources(data: seq<Resource>, sortBy: string, nameLe: (string, string) -> bool): (r: seq<Resource>)
    ensures multiset(r) == multiset(data)
    ensures sortBy == "" ==> r == data
    ensures sortBy != "" && sortBy != "title" ==>
      forall i, j :: 0 <= i < j < |r| ==> r[i].createdAt >= r[j].createdAt
    ensures sortBy == "title" && TotalPreorder(nameLe) ==>
      forall i, j :: 0 <= i < j < |r| ==> nameLe(r[i].name, r[j].name)
  {
    if sortBy == "" then data
    else
      var le := SortLe(sortBy, nameLe);
      var r := SortBy(le, data);
      assert (sortBy != "title" || TotalPreorder(nameLe)) ==> Sorted(le, r) by {
        if sortBy != "title" || TotalPreorder(nameLe) {
          assert TotalPreorder(le) by {
            if sortBy == "title" {
              assert forall a, b :: le(a, b) == nameLe(a.name, b.name);
            } else {
              assert forall a, b :: le(a, b) == (a.createdAt >= b.createdAt);
            }
          }
          SortBySorted(le, data);
        }
      }
      r
  }

  /** The fallback branch on a list of records: filter a copy, then sort it when a sort is asked for. */
  function LocalQuery(data: seq<Resource>, f: Filters, nameLe: (string, string) -> bool): (r: seq<Resource>)
    ensures multiset(r) == multiset(Filter(Passing(f), data))
    ensures forall x :: x in r <==> x in data && Passes(x, f)
    ensures f.sortBy == "" ==> r == Filter(Passing(f), data)
    ensures f.sortBy != "" && f.sortBy != "title" ==>
      forall i, j :: 0 <= i < j < |r| ==> r[i].createdAt >= r[j].createdAt
    ensures f.sortBy == "title" && TotalPreorder(nameLe) ==>
      forall i, j :: 0 <= i < j < |r| ==> nameLe(r[i].name, r[j].name)
  {
    var filtered := ApplyFilters(data, f);
    ApplyFiltersIsFilter(data, f);
    var r := SortResources(filtered, f.sortBy, nameLe);
    MultisetMembers(r, filtered);
    r
  }

  /** The fallback branch proper, on the built-in records. */
  function FallbackQuery(f: Filters, nameLe: (string, string) -> bool): (r: seq<Resource>)
    ensures forall x :: x in r <==> x in Fallback && Passes(x, f)
    ensures |r| <= 3
  {
    var r := LocalQuery(Fallback, f, nameLe);
    assert |r| <= |Fallback| by {
      assert |r| == |multiset(r)|;
      assert |multiset(Filter(Passing(f), Fallback))| == |Filter(Passing(f), Fallback)|;
    }
    r
  }

  /**
    `getAllResources`: the backend's rows when the query succeeds; on a failed
    query the fallback branch when the backend is not configured, else nothing.
    An unconfigured backend has no client, so its query always fails.
   */
  function GetAllResources(configured: bool, reply: Reply<Resource>, f: Filters,
                           nameLe: (string, string) -> bool): (r: seq<Resource>)
    ensures !configured ==> r == FallbackQuery(f, nameLe)
    ensures configured && reply.Rows? ==> r == reply.data
    ensures configured && reply.Failed? ==> r == []
  {
    if !configured then FallbackQuery(f, nameLe)
    else match reply
      case Rows(data) => data
      case Failed => []
  }

  /**
    Without a configured backend every answer comes from the built-in records:
    exactly those that pass the filters. A configured backend whose query fails
    yields nothing, whatever the filters.
   */
  lemma ResourcesWithoutBackend(reply: Reply<Resource>, f: Filters, nameLe: (string, string) -> bool)
    ensures forall x :: x in GetAllResources(false, reply, f, nameLe) <==> x in Fallback && Passes(x, f)
    ensures GetAllResources(true, Failed, f, nameLe) == []
  {
  }

  /** The first record with the given id (`find(...) || null`). */
  function FindById(data: seq<Resource>, id: string): (r: Option<Resource>)
    ensures r.Some? ==> r.value in data && r.value.id == id
    ensures r.None? <==> forall i :: 0 <= i < |data| ==> data[i].id != id
    ensures r.Some? ==> exists k :: 0 <= k < |data| && data[k] == r.value && forall j :: 0 <= j < k ==> data[j].id != id
  {
    if |data| == 0 then None
    else if data[0].id == id then
      assert data[0] == data[0];
      Some(data[0])
    else
      var r := FindById(data[1..], id);
      if r.Some? then
        var k :| 0 <= k < |data[1..]| && data[1..][k] == r.value && forall j :: 0 <= j < k ==> data[1..][j].id != id;
        assert data[k + 1] == r.value && forall j :: 0 <= j < k + 1 ==> data[j].id != id;
        r
      else r
  }

  /** What the backend answered to a single-row query. */
  datatype SingleReply = Found(row: Resource) | QueryError

  /** `getResourceById`: unconfigured, or on a failed query, the built-in record with that id. */
  function GetResourceById(configured: bool, reply: SingleReply, id: string): (r: Option<Resource>)
    ensures !configured || reply.QueryError? ==> r == FindById(Fallback, id)
    ensures configured && reply.Found? ==> r == Some(reply.row)
  {
    if !configured then FindById(Fallback, id)
    else match reply
      case Found(row) => Some(row)
      case QueryError => FindById(Fallback, id)
  }

  /** The built-in records are found by their ids "1", "2", "3", and no other id is. */
  lemma FallbackIds(id: string)
    ensures id == "1" ==> GetResourceById(false, QueryError, id) == Some(Fallback[0])
    ensures id == "2" ==> GetResourceById(false, QueryError, id) == Some(Fallback[1])
    ensures id == "3" ==> GetResourceById(false, QueryError, id) == Some(Fallback[2])
    ensures id !in {"1", "2", "3"} ==> GetResourceById(false, QueryError, id) == None
  {
  }

  // ---------------------------------------------------------------------------
  // Categories
  // ---------------------------------------------------------------------------

  datatype CategoryPair = CategoryPair(category: string, subcategory: string)

  function PairsOf(data: seq<Resource>): (ps: seq<CategoryPair>)
    ensures |ps| == |data|
    ensures forall i :: 0 <= i < |data| ==> ps[i] == CategoryPair(data[i].category, data[i].subcategory)
  {
    seq(|data|, i requires 0 <= i < |data| => CategoryPair(data[i].category, data[i].subcategory))
  }

  /** The `forEach`/`some` loop: each pair once, in order of first appearance. */
  function UniquePairs(data: seq<Resource>): (ps: seq<CategoryPair>)
    ensures NoDuplicates(ps)
    ensures forall p :: p in ps <==> exists i :: 0 <= i < |data| && p == CategoryPair(data[i].category, data[i].subcategory)
  {
    var all := PairsOf(data);
    var ps := Dedup(all);
    assert forall p :: p in all <==> exists i :: 0 <= i < |data| && p == CategoryPair(data[i].category, data[i].subcategory);
    ps
  }

  /**
    The loop as the source writes it: walk the records and push a pair unless
    `some` finds it already among those collected.
   */
  method UniqueCombinations(data: seq<Resource>) returns (combos: seq<CategoryPair>)
    ensures combos == UniquePairs(data)
  {
    var all := PairsOf(data);
    combos := [];
    for i := 0 to |data|
      invariant combos == Dedup(all[..i])
    {
      var p := CategoryPair(data[i].category, data[i].subcategory);
      var found := false;
      for j := 0 to |combos|
        invariant found <==> p in combos[..j]
      {
        if combos[j] == p {
          found := true;
        }
      }
      assert combos[..|combos|] == combos;
      assert all[..i + 1][..i] == all[..i] && all[..i + 1][i] == p;
      if !found {
        combos := combos + [p];
      }
    }
    assert all[..|data|] == all;
  }

  /** `getAllCategories`: unconfigured or on a failed query, the pairs of the built-in records. */
  function GetAllCategories(configured: bool, reply: Reply<CategoryPair>): (r: seq<CategoryPair>)
    ensures !configured || reply.Failed? ==> r == UniquePairs(Fallback)
    ensures configured && reply.Rows? ==> r == reply.data
  {
    if !configured then UniquePairs(Fallback)
    else match reply
      case Rows(data) => data
      case Failed => UniquePairs(Fallback)
  }

  /** The three built-in records give two pairs. */
  lemma FallbackCategoryPairs()
    ensures UniquePairs(Fallback) == [
      CategoryPair("Placement Material", "C & DSA Notes"),
      CategoryPair("Placement Material", "English")]
  {
    var all := PairsOf(Fallback);
    var a := CategoryPair("Placement Material", "C & DSA Notes");
    var b := CategoryPair("Placement Material", "English");
    assert all == [a, a, b];
    assert [a, a, b][..2] == [a, a];
    assert [a, a][..1] == [a];
    assert [a][..0] == [];
    assert Dedup([a]) == [a];
    assert Dedup([a, a]) == [a];
    assert a != b;
    assert Dedup([a, a, b]) == [a, b];
  }

  /** The built-in records are stored newest first. */
  lemma FallbackNewestFirst()
    ensures Sorted(NewestFirst(), Fallback)
  {
    forall i, j | 0 <= i < j < |Fallback| ensures Fallback[i].createdAt >= Fallback[j].createdAt {
    }
  }

  /** With the default options the built-in records come back newest first, as stored. */
  lemma DefaultQueryIsStoredOrder(nameLe: (string, string) -> bool)
    ensures FallbackQuery(Filters("", "", "", "newest"), nameLe) == Fallback
  {
    var f := Filters("", "", "", "newest");
    assert ApplyFilters(Fallback, f) == Fallback;
    FallbackNewestFirst();
    SortByOrdered(NewestFirst(), Fallback);
    assert SortLe("newest", nameLe) == NewestFirst();
  }
}
