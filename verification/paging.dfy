/**
  Client-side pagination shared by the library page (12 per page, button
  window of two pages around the current one) and the company-wise question
  browser (9 companies and 10 questions per page, window of one page): the
  page count, the page slice, the row of page buttons and the prev/next moves.
 */
module Paging {
  import opened Seqs

  /** `Math.ceil(n / size)` */
  function TotalPages(n: nat, size: nat): (t: nat)
    requires size > 0
    ensures n <= t * size
    ensures t > 0 ==> (t - 1) * size < n
    ensures t == 0 <==> n == 0
  {
    var t := (n + size - 1) / size;
    var r := (n + size - 1) % size;
    assert n + size - 1 == t * size + r;
    assert (t - 1) * size == t * size - size;
    t
  }

  /** `xs.slice((page - 1) * size, (page - 1) * size + size)` */
  function Page<T>(xs: seq<T>, page: int, size: nat): (r: seq<T>)
    ensures |r| <= size
    ensures page >= 1 ==> r == xs[Min((page - 1) * size, |xs|)..Min((page - 1) * size + size, |xs|)]
  {
    var start := (page - 1) * size;
    SliceWindow(xs, start, size);
    PageStartNat(page, size);
    Slice(xs, start, start + size)
  }

  /** A page holds only items of the list. */
  lemma PageMembers<T>(xs: seq<T>, page: int, size: nat)
    ensures forall x :: x in Page(xs, page, size) ==> x in xs
  {
    SliceMembers(xs, (page - 1) * size, (page - 1) * size + size);
  }

  /** A slice of `size` elements from `start`: never longer than `size`, clamped to the list. */
  lemma SliceWindow<T>(xs: seq<T>, start: int, size: nat)
    ensures |Slice(xs, start, start + size)| <= size
    ensures start >= 0 ==> Slice(xs, start, start + size) == xs[Min(start, |xs|)..Min(start + size, |xs|)]
  {
  }

  /** The pages 1..k in order. */
  function PagesUpTo<T>(xs: seq<T>, size: nat, k: nat): seq<seq<T>>
  {
    if k == 0 then [] else PagesUpTo(xs, size, k - 1) + [Page(xs, k, size)]
  }

  lemma {:induction false} PagesUpToCover<T>(xs: seq<T>, size: nat, k: nat)
    ensures Flatten(PagesUpTo(xs, size, k)) == xs[..Min(k * size, |xs|)]
    decreases k
  {
    if k > 0 {
      PagesUpToCover(xs, size, k - 1);
      var s0 := (k - 1) * size;
      var s1 := k * size;
      assert s1 == s0 + size by { MulStep(k, size); }
      assert s0 >= 0 by { MulMono(k - 1, 0, size); }
      var a := Min(s0, |xs|);
      var b := Min(s1, |xs|);
      var pg := Page(xs, k, size);
      assert pg == xs[a..b];
      FlattenAppend(PagesUpTo(xs, size, k - 1), [pg]);
      assert Flatten([pg]) == pg;
      PrefixSplit(xs, a, b);
    }
  }

  /**
    Reading every page from 1 to the last one gives back the whole list,
    each element exactly once and in order.
   */
  lemma PagesCoverList<T>(xs: seq<T>, size: nat)
    requires size > 0
    ensures Flatten(PagesUpTo(xs, size, TotalPages(|xs|, size))) == xs
  {
    PagesUpToCover(xs, size, TotalPages(|xs|, size));
  }

  /** Item i of page p is item (p - 1) * size + i of the list. */
  lemma PageItem<T>(xs: seq<T>, page: int, size: nat, i: nat)
    requires page >= 1 && i < |Page(xs, page, size)|
    ensures (page - 1) * size + i < |xs|
    ensures Page(xs, page, size)[i] == xs[(page - 1) * size + i]
  {
    var start := (page - 1) * size;
    assert start >= 0 by { MulMono(page - 1, 0, size); }
  }

  /** A page past the last one is empty rather than an error. */
  lemma PagePastEndEmpty<T>(xs: seq<T>, page: int, size: nat)
    requires size > 0 && page > TotalPages(|xs|, size)
    ensures Page(xs, page, size) == []
  {
    var t := TotalPages(|xs|, size);
    assert (page - 1) * size >= t * size by {
      assert page - 1 >= t;
      MulMono(page - 1, t, size);
    }
  }

  lemma PageStartNat(page: int, size: nat)
    ensures page >= 1 ==> (page - 1) * size >= 0
  {
    if page >= 1 { MulMono(page - 1, 0, size); }
  }

  lemma MulMono(a: int, b: int, c: nat)
    requires a >= b
    ensures a * c >= b * c
  {
  }

  lemma MulStep(k: int, size: int)
    ensures (k - 1) * size + size == k * size
  {
  }

  // ---------------------------------------------------------------------------
  // Row of page buttons
  // ---------------------------------------------------------------------------

  /** What the row shows for one page number. */
  datatype Slot = Button(page: nat, isCurrent: bool) | Gap | Hidden

  /**
    Page k gets a button when it is first, last, or within `radius` of the
    current page; otherwise an ellipsis when it is exactly one step beyond
    that window, and nothing else.
   */
  function SlotFor(k: nat, total: nat, current: int, radius: nat): Slot
  {
    if k == 1 || k == total || (current - radius <= k <= current + radius) then Button(k, k == current)
    else if k == current - radius - 1 || k == current + radius + 1 then Gap
    else Hidden
  }

  /** The row for pages 1..total, one slot per page. */
  function Window(total: nat, current: int, radius: nat): (w: seq<Slot>)
    ensures |w| == total
    ensures forall i :: 0 <= i < total ==> w[i] == SlotFor(i + 1, total, current, radius)
  {
    seq(total, i requires 0 <= i < total => SlotFor(i + 1, total, current, radius))
  }

  function ButtonPages(w: seq<Slot>): set<int>
  {
    set i | 0 <= i < |w| && w[i].Button? :: i + 1
  }

  function GapPages(w: seq<Slot>): set<int>
  {
    set i | 0 <= i < |w| && w[i].Gap? :: i + 1
  }

  /** The page numbers a..b. */
  function Range(a: int, b: int): (r: set<int>)
    ensures forall k :: k in r <==> a <= k <= b
    ensures a <= b + 1 ==> |r| == b - a + 1
    decreases b - a + 1
  {
    if a > b then {} else Range(a, b - 1) + {b}
  }

  lemma SubsetSize<T>(a: set<T>, b: set<T>)
    requires a <= b
    ensures |a| <= |b|
  {
    assert b == a + (b - a);
  }

  /**
    The row never grows with the number of pages: at most 2 * radius + 3
    buttons and at most two ellipses.
   */
  lemma WindowBounded(total: nat, current: int, radius: nat)
    ensures |ButtonPages(Window(total, current, radius))| <= 2 * radius + 3
    ensures |GapPages(Window(total, current, radius))| <= 2
  {
    var w := Window(total, current, radius);
    var near := Range(current - radius, current + radius);
    assert ButtonPages(w) <= {1, total} + near;
    SubsetSize(ButtonPages(w), {1, total} + near);
    assert |{1, total} + near| <= 2 + |near|;
    assert GapPages(w) <= {current - radius - 1, current + radius + 1};
    SubsetSize(GapPages(w), {current - radius - 1, current + radius + 1});
  }

  /**
    With the current page in range, its button is present and is the only
    one marked current; the first and last pages always have buttons.
   */
  lemma WindowShowsCurrent(total: nat, current: int, radius: nat)
    requires 1 <= current <= total
    ensures Window(total, current, radius)[current - 1] == Button(current, true)
    ensures forall i :: 0 <= i < total ==>
      (Window(total, current, radius)[i].Button? && Window(total, current, radius)[i].isCurrent ==> i == current - 1)
    ensures Window(total, current, radius)[0].Button?
    ensures Window(total, current, radius)[total - 1].Button?
  {
  }

  /** The pagination controls: prev button, page slots, next button. */
  datatype Controls = Controls(prevDisabled: bool, slots: seq<Slot>, nextDisabled: bool)

  /** The controls are rendered only for more than one page; prev is disabled on page 1 and next on the last. */
  function Pagination(total: nat, current: int, radius: nat): (r: Option<Controls>)
    ensures r.Some? <==> total > 1
    ensures r.Some? ==> r.value.prevDisabled == (current == 1) && r.value.nextDisabled == (current == total)
    ensures r.Some? ==> r.value.slots == Window(total, current, radius)
  {
    if total > 1 then Some(Controls(current == 1, Window(total, current, radius), current == total)) else None
  }

  // ---------------------------------------------------------------------------
  // Moving between pages
  // ---------------------------------------------------------------------------

  /** `setPage(prev => Math.max(prev - 1, 1))` */
  function ClampedPrev(page: int): (r: int)
    ensures r >= 1
    ensures page > 1 ==> r == page - 1
    ensures page <= 1 ==> r == 1
  {
    Max(page - 1, 1)
  }

  /** `setPage(prev => Math.min(prev + 1, total))` */
  function ClampedNext(page: int, total: nat): (r: int)
    ensures r <= total
    ensures page < total ==> r == page + 1
    ensures page >= total ==> r == total
  {
    Min(page + 1, total)
  }

  /** Both clamped moves keep a page that is in range in range. */
  lemma ClampedMovesStayInRange(page: int, total: nat)
    requires 1 <= page <= total
    ensures 1 <= ClampedPrev(page) <= total
    ensures 1 <= ClampedNext(page, total) <= total
    ensures ClampedPrev(ClampedNext(page, total)) == page || page == total
  {
  }
}
