/**
  The company-wise question browser: the company list built from the loaded
  data and sorted by name, the company and question searches, nine companies
  and ten questions per page with a one-page button window and clamped
  prev/next, selecting a company, and the page reset when a search changes.
 */
module Company {
  import opened Seqs
  import opened Text
  import Paging

  const CompaniesPerPage: nat := 9
  const QuestionsPerPage: nat := 10
  /** The page-button window reaches one page either side of the current one. */
  const WindowRadius: nat := 1

  datatype Question = Question(title: string, difficulty: string, acceptance: string, url: string)

  /** One item of the loaded data: a company and its question list. */
  datatype Item = Item(company: string, questions: seq<Question>)

  datatype Company = Company(name: string, questionCount: nat, data: seq<Question>)

  function CompanyOf(item: Item): (c: Company)
    ensures c.name == item.company && c.data == item.questions && c.questionCount == |c.data|
  {
    Company(item.company, |item.questions|, item.questions)
  }

  /** `data.map(...)` before sorting: one company per item, in item order. */
  function CompaniesOf(items: seq<Item>): (cs: seq<Company>)
    ensures |cs| == |items|
    ensures forall i :: 0 <= i < |items| ==> cs[i] == CompanyOf(items[i])
  {
    seq(|items|, i requires 0 <= i < |items| => CompanyOf(items[i]))
  }

  function ByName(nameLe: (string, string) -> bool): (Company, Company) -> bool
  {
    (a: Company, b: Company) => nameLe(a.name, b.name)
  }

  /** The company list: one entry per item, sorted by name with `localeCompare`. */
  function BuildCompanies(items: seq<Item>, nameLe: (string, string) -> bool): (cs: seq<Company>)
    ensures multiset(cs) == multiset(CompaniesOf(items))
    ensures forall c :: c in cs ==> c.questionCount == |c.data|
    ensures forall c :: c in cs <==> exists i :: 0 <= i < |items| && c == CompanyOf(items[i])
    ensures TotalPreorder(nameLe) ==> forall i, j :: 0 <= i < j < |cs| ==> nameLe(cs[i].name, cs[j].name)
  {
    var unsorted := CompaniesOf(items);
    var cs := SortBy(ByName(nameLe), unsorted);
    assert forall c :: c in cs <==> c in unsorted by {
      forall c ensures c in cs <==> c in unsorted {
        assert c in cs <==> c in multiset(cs);
        assert c in unsorted <==> c in multiset(unsorted);
      }
    }
    assert TotalPreorder(nameLe) ==> Sorted(ByName(nameLe), cs) by {
      if TotalPreorder(nameLe) {
        assert forall a, b :: ByName(nameLe)(a, b) == nameLe(a.name, b.name);
        SortBySorted(ByName(nameLe), unsorted);
      }
    }
    cs
  }

  predicate NameMatches(c: Company, term: string)
  {
    ContainsIgnoringCase(c.name, term)
  }

  /** `filteredCompanies` */
  function FilterCompanies(cs: seq<Company>, term: string): (r: seq<Company>)
    ensures forall c :: c in r <==> c in cs && NameMatches(c, term)
    ensures multiset(r) <= multiset(cs)
  {
    Filter((c: Company) => NameMatches(c, term), cs)
  }

  /** An empty company search keeps the whole list, in order. */
  lemma EmptyCompanySearchKeepsAll(cs: seq<Company>)
    ensures FilterCompanies(cs, "") == cs
  {
    forall c: Company ensures NameMatches(c, "") {
      ContainsEmpty(Lower(c.name));
    }
  }

  predicate QuestionMatches(q: Question, term: string)
  {
    ContainsIgnoringCase(q.title, term) || ContainsIgnoringCase(q.difficulty, term)
  }

  /** `filteredQuestions`: everything for an empty term, else title or difficulty must contain it. */
  function FilterQuestions(qs: seq<Question>, term: string): (r: seq<Question>)
    ensures term == "" ==> r == qs
    ensures forall q :: q in r <==> q in qs && QuestionMatches(q, term)
    ensures multiset(r) <= multiset(qs)
  {
    if term == "" then
      assert forall q :: QuestionMatches(q, term) by {
        forall q: Question ensures QuestionMatches(q, term) {
          ContainsEmpty(Lower(q.title));
        }
      }
      qs
    else Filter((q: Question) => QuestionMatches(q, term), qs)
  }

  /** The early return for an empty term agrees with the filter itself. */
  lemma EarlyReturnIsFilter(qs: seq<Question>, term: string)
    ensures FilterQuestions(qs, term) == Filter((q: Question) => QuestionMatches(q, term), qs)
  {
    if term == "" {
      forall q: Question ensures QuestionMatches(q, term) {
        ContainsEmpty(Lower(q.title));
      }
    }
  }

  // ---------------------------------------------------------------------------
  // Page state
  // ---------------------------------------------------------------------------

  datatype State = State(companies: seq<Company>, selected: Option<Company>, questions: seq<Question>,
                         search: string, questionSearch: string, page: int, questionPage: int)

  /** The state once the data has loaded. */
  function Loaded(items: seq<Item>, nameLe: (string, string) -> bool): (s: State)
    ensures s.selected.None? && s.questions == [] && s.search == "" && s.questionSearch == ""
    ensures s.page == 1 && s.questionPage == 1
    ensures multiset(s.companies) == multiset(CompaniesOf(items))
  {
    State(BuildCompanies(items, nameLe), None, [], "", "", 1, 1)
  }

  /**
    The effect on the two search terms: when either differs from its value
    before the update, both pages go back to 1.
   */
  function Settle(before: State, after: State): (r: State)
    ensures (after.search != before.search || after.questionSearch != before.questionSearch) ==>
      r == after.(page := 1, questionPage := 1)
    ensures (after.search == before.search && after.questionSearch == before.questionSearch) ==> r == after
  {
    if after.search != before.search || after.questionSearch != before.questionSearch then
      after.(page := 1, questionPage := 1)
    else after
  }

  function SetSearch(s: State, term: string): (r: State)
  {
    Settle(s, s.(search := term))
  }

  function SetQuestionSearch(s: State, term: string): (r: State)
  {
    Settle(s, s.(questionSearch := term))
  }

  /**
    `handleCompanySelect`: show the company's questions with the question
    search cleared and the question page at 1. Clearing a non-empty question
    search also triggers the effect, which puts the company page back to 1.
   */
  function Select(s: State, c: Company): (r: State)
  {
    Settle(s, s.(selected := Some(c), questions := c.data, questionSearch := "", questionPage := 1))
  }

  /** The back button. */
  function Back(s: State): (r: State)
  {
    s.(selected := None)
  }

  /** Changing a search term resets both pages; setting the same term changes nothing. */
  lemma SearchResetsPages(s: State, term: string)
    ensures term != s.search ==> SetSearch(s, term).page == 1 && SetSearch(s, term).questionPage == 1
    ensures term != s.questionSearch ==> SetQuestionSearch(s, term).page == 1 && SetQuestionSearch(s, term).questionPage == 1
    ensures term == s.search ==> SetSearch(s, term) == s
    ensures term == s.questionSearch ==> SetQuestionSearch(s, term) == s
    ensures SetSearch(s, term).search == term && SetQuestionSearch(s, term).questionSearch == term
  {
  }

  /**
    Selecting a company shows exactly its questions, unfiltered, from the
    first question page; the company page is kept unless a question search
    was active.
   */
  lemma SelectShowsCompany(s: State, c: Company)
    ensures Select(s, c).selected == Some(c)
    ensures Select(s, c).questions == c.data && Select(s, c).questionSearch == ""
    ensures FilteredQuestions(Select(s, c)) == c.data
    ensures Select(s, c).questionPage == 1
    ensures Select(s, c).page == (if s.questionSearch == "" then s.page else 1)
    ensures Select(s, c).companies == s.companies && Select(s, c).search == s.search
  {
  }

  // ---------------------------------------------------------------------------
  // What is shown
  // ---------------------------------------------------------------------------

  function FilteredCompanies(s: State): seq<Company>
  {
    FilterCompanies(s.companies, s.search)
  }

  function CompanyPages(s: State): nat
  {
    Paging.TotalPages(|FilteredCompanies(s)|, CompaniesPerPage)
  }

  function VisibleCompanies(s: State): seq<Company>
  {
    Paging.Page(FilteredCompanies(s), s.page, CompaniesPerPage)
  }

  function FilteredQuestions(s: State): seq<Question>
  {
    FilterQuestions(s.questions, s.questionSearch)
  }

  function QuestionPages(s: State): nat
  {
    Paging.TotalPages(|FilteredQuestions(s)|, QuestionsPerPage)
  }

  function VisibleQuestions(s: State): seq<Question>
  {
    Paging.Page(FilteredQuestions(s), s.questionPage, QuestionsPerPage)
  }

  /** After a search change the first page of matches is shown: up to nine, from the first match. */
  lemma SearchShowsFirstPage(s: State, term: string)
    requires term != s.search
    ensures VisibleCompanies(SetSearch(s, term)) == FilteredCompanies(SetSearch(s, term))[..Min(CompaniesPerPage, |FilteredCompanies(SetSearch(s, term))|)]
  {
  }

  /** `Problem #{questionsStartIndex + index + 1}` */
  function ProblemNumber(questionPage: int, index: nat): int
  {
    (questionPage - 1) * QuestionsPerPage + index + 1
  }

  /** The problem number of a shown question is its 1-based position in the filtered list. */
  lemma ProblemNumberIsPosition(s: State, index: nat)
    requires s.questionPage >= 1 && index < |VisibleQuestions(s)|
    ensures 1 <= ProblemNumber(s.questionPage, index) <= |FilteredQuestions(s)|
    ensures VisibleQuestions(s)[index] == FilteredQuestions(s)[ProblemNumber(s.questionPage, index) - 1]
  {
    Paging.PageItem(FilteredQuestions(s), s.questionPage, QuestionsPerPage, index);
    Paging.MulMono(s.questionPage - 1, 0, QuestionsPerPage);
  }

  /** The company pagination controls. */
  function CompanyControls(s: State): (r: Option<Paging.Controls>)
    ensures r.Some? <==> CompanyPages(s) > 1
  {
    Paging.Pagination(CompanyPages(s), s.page, WindowRadius)
  }

  /** The question pagination controls. */
  function QuestionControls(s: State): (r: Option<Paging.Controls>)
    ensures r.Some? <==> QuestionPages(s) > 1
  {
    Paging.Pagination(QuestionPages(s), s.questionPage, WindowRadius)
  }

  function CompanyPrev(s: State): State
  {
    s.(page := Paging.ClampedPrev(s.page))
  }

  function CompanyNext(s: State): State
  {
    s.(page := Paging.ClampedNext(s.page, CompanyPages(s)))
  }

  function QuestionPrev(s: State): State
  {
    s.(questionPage := Paging.ClampedPrev(s.questionPage))
  }

  function QuestionNext(s: State): State
  {
    s.(questionPage := Paging.ClampedNext(s.questionPage, QuestionPages(s)))
  }

  /**
    With both pages in range, the four clamped moves keep them in range and
    touch nothing else; the row has at most five page buttons and two ellipses.
   */
  lemma MovesStayInRange(s: State)
    requires 1 <= s.page <= CompanyPages(s) && 1 <= s.questionPage <= QuestionPages(s)
    ensures 1 <= CompanyPrev(s).page <= CompanyPages(s) && 1 <= CompanyNext(s).page <= CompanyPages(s)
    ensures 1 <= QuestionPrev(s).questionPage <= QuestionPages(s)
    ensures 1 <= QuestionNext(s).questionPage <= QuestionPages(s)
    ensures CompanyPrev(s).questionPage == s.questionPage && CompanyNext(s).questionPage == s.questionPage
    ensures QuestionPrev(s).page == s.page && QuestionNext(s).page == s.page
    ensures |Paging.ButtonPages(Paging.Window(CompanyPages(s), s.page, WindowRadius))| <= 5
    ensures |Paging.GapPages(Paging.Window(CompanyPages(s), s.page, WindowRadius))| <= 2
  {
    Paging.ClampedMovesStayInRange(s.page, CompanyPages(s));
    Paging.ClampedMovesStayInRange(s.questionPage, QuestionPages(s));
    Paging.WindowBounded(CompanyPages(s), s.page, WindowRadius);
  }
}
