/**
 * Client-side pagination of the filtered list: a fixed page size of five, the
 * visible window `slice((p - 1) * 5, (p - 1) * 5 + 5)`, the page count
 * `ceil(n / 5)` (as the integer division `(n + 4) / 5`), the page-change guard,
 * the row numbers shown beside each record and the page buttons.
 */
module Pagination {

  const ItemsPerPage: nat := 5

  function Min(a: int, b: int): int { if a <= b then a else b }

  /** A position argument of `Array.prototype.slice`: negative counts from the end; the result lies in [0, n]. */
  function SlicePosition(k: int, n: nat): (r: nat)
    ensures r <= n
    ensures 0 <= k ==> r == Min(k, n)
  {
    if k < 0 then (if n + k < 0 then 0 else n + k)
    else if k > n then n
    else k
  }

  /** `xs.slice(start, end)`: empty when the clamped start is not before the clamped end. */
  function Slice<T>(xs: seq<T>, start: int, end: int): (r: seq<T>)
    ensures |r| <= |xs|
    ensures start <= end ==> |r| <= end - start
    ensures forall x :: x in r ==> x in xs
    ensures 0 <= start <= end ==> r == xs[Min(start, |xs|)..Min(end, |xs|)]
  {
    var from := SlicePosition(start, |xs|);
    var to := SlicePosition(end, |xs|);
    if from < to then xs[from..to] else []
  }

  /** `startIndex`: the position of the first record of page `page`. */
  function StartIndex(page: int): (start: int) { (page - 1) * ItemsPerPage }

  /** `endIndex`: one past the position of the last record of page `page`. */
  function EndIndex(page: int): (end: int) { StartIndex(page) + ItemsPerPage }

  /** `paginatedEmployees`: the records shown on page `page`, for any page number: never more than five, all from the list. */
  function Paginated<T>(xs: seq<T>, page: int): (r: seq<T>)
    ensures |r| <= ItemsPerPage
    ensures forall x :: x in r ==> x in xs
  {
    Slice(xs, StartIndex(page), EndIndex(page))
  }

  /** `Math.ceil(n / 5)`: the least number of full-or-partial pages of five that hold `n` records. */
  function TotalPages(n: nat): (r: nat)
    ensures r == 0 <==> n == 0
    ensures n > 0 ==> ItemsPerPage * (r - 1) < n <= ItemsPerPage * r
  {
    (n + ItemsPerPage - 1) / ItemsPerPage
  }

  /** For a page number of at least one, the page is the window [(p-1)*5, p*5) cut to the list: at most five records, none exactly when the window starts past the end. */
  lemma PageIsWindow<T>(xs: seq<T>, page: int)
    requires page >= 1
    ensures Paginated(xs, page) == xs[Min((page - 1) * ItemsPerPage, |xs|)..Min(page * ItemsPerPage, |xs|)]
    ensures |Paginated(xs, page)| <= ItemsPerPage
    ensures Paginated(xs, page) == [] <==> (page - 1) * ItemsPerPage >= |xs|
  {
  }

  /** Every page before the last holds exactly five records, the last one holds the remaining one to five, and pages past the last are empty. */
  lemma PageSizes<T>(xs: seq<T>, page: int)
    requires page >= 1
    ensures var n, last := |xs|, TotalPages(|xs|);
      && (page < last ==> |Paginated(xs, page)| == ItemsPerPage)
      && (page == last ==> |Paginated(xs, page)| == n - ItemsPerPage * (last - 1)
                           && 1 <= |Paginated(xs, page)| <= ItemsPerPage)
      && (page > last ==> Paginated(xs, page) == [])
  {
    PageIsWindow(xs, page);
  }

  /** Pages `page`, `page + 1`, ... `page + count - 1` laid end to end. */
  function PagesFrom<T>(xs: seq<T>, page: int, count: nat): seq<T>
    decreases count
  {
    if count == 0 then [] else Paginated(xs, page) + PagesFrom(xs, page + 1, count - 1)
  }

  /** Pages `page` to the last one, laid end to end, are the list from the first record of `page` on. */
  lemma {:induction false} PagesFromIsSuffix<T>(xs: seq<T>, page: int, count: nat)
    requires page >= 1 && page - 1 + count == TotalPages(|xs|)
    ensures PagesFrom(xs, page, count) == xs[Min((page - 1) * ItemsPerPage, |xs|)..]
    decreases count
  {
    PageIsWindow(xs, page);
    if count == 0 {
    } else {
      PagesFromIsSuffix(xs, page + 1, count - 1);
      var a := Min((page - 1) * ItemsPerPage, |xs|);
      var b := Min(page * ItemsPerPage, |xs|);
      assert xs[a..b] + xs[b..] == xs[a..];
    }
  }

  /** Pages 1 to totalPages, in order, are exactly the list: nothing is lost, repeated or reordered. */
  lemma AllPagesAreTheList<T>(xs: seq<T>)
    ensures PagesFrom(xs, 1, TotalPages(|xs|)) == xs
  {
    PagesFromIsSuffix(xs, 1, TotalPages(|xs|));
  }

  /** Page 1 shows the first five records (or all of them, when there are fewer). */
  lemma FirstPage<T>(xs: seq<T>)
    ensures Paginated(xs, 1) == xs[..Min(ItemsPerPage, |xs|)]
  {
    PageIsWindow(xs, 1);
  }

  /** The number shown beside the record at `index` of page `page`: `(page - 1) * 5 + index + 1`. */
  function RowNumber(page: int, index: int): (number: int)
    ensures 0 <= index < ItemsPerPage ==> StartIndex(page) < number <= EndIndex(page)
  {
    (page - 1) * ItemsPerPage + index + 1
  }

  /** The number beside a record is its 1-based position in the whole filtered list. */
  lemma RowNumberIsPosition<T>(xs: seq<T>, page: int, index: int)
    requires page >= 1 && 0 <= index < |Paginated(xs, page)|
    ensures 1 <= RowNumber(page, index) <= |xs|
    ensures xs[RowNumber(page, index) - 1] == Paginated(xs, page)[index]
  {
    PageIsWindow(xs, page);
  }

  /** The row numbers a page shows, top to bottom. */
  function PageRowNumbers<T>(xs: seq<T>, page: int): (numbers: seq<int>) {
    seq(|Paginated(xs, page)|, i => RowNumber(page, i))
  }

  /** The row numbers of pages `page` .. `page + count - 1`, laid end to end. */
  function RowNumbersFrom<T>(xs: seq<T>, page: int, count: nat): seq<int>
    decreases count
  {
    if count == 0 then [] else PageRowNumbers(xs, page) + RowNumbersFrom(xs, page + 1, count - 1)
  }

  /** `[from + 1, from + 2, ..., to]`. */
  function Range(from: int, to: int): (r: seq<int>)
    requires from <= to
    ensures |r| == to - from
    ensures forall i :: 0 <= i < |r| ==> r[i] == from + i + 1
  {
    seq(to - from, i => from + i + 1)
  }

  lemma {:induction false} RowNumbersFromAreRange<T>(xs: seq<T>, page: int, count: nat)
    requires page >= 1 && page - 1 + count == TotalPages(|xs|)
    ensures Min((page - 1) * ItemsPerPage, |xs|) <= |xs|
    ensures RowNumbersFrom(xs, page, count) == Range(Min((page - 1) * ItemsPerPage, |xs|), |xs|)
    decreases count
  {
    PageIsWindow(xs, page);
    if count > 0 {
      RowNumbersFromAreRange(xs, page + 1, count - 1);
      var a := Min((page - 1) * ItemsPerPage, |xs|);
      var b := Min(page * ItemsPerPage, |xs|);
      assert a == (page - 1) * ItemsPerPage;
      assert Range(a, b) + Range(b, |xs|) == Range(a, |xs|);
    }
  }

  /** Across pages 1 to totalPages the row numbers are exactly 1, 2, ..., n: consecutive, no gaps, no repeats. */
  lemma RowNumbersAreOneToN<T>(xs: seq<T>)
    ensures RowNumbersFrom(xs, 1, TotalPages(|xs|)) == Range(0, |xs|)
  {
    RowNumbersFromAreRange(xs, 1, TotalPages(|xs|));
  }

  /** `handlePageChange`: the request is taken only when it names an existing page. */
  function PageAfterChange(current: int, requested: int, totalPages: nat): (r: int)
    ensures r != current ==> 1 <= r <= totalPages && r == requested
  {
    if requested >= 1 && requested <= totalPages then requested else current
  }

  /** Prev on page 1, Next on the last page and any request when there are no pages change nothing. */
  lemma PageChangeNoOps(current: int, totalPages: nat, requested: int)
    ensures PageAfterChange(1, 0, totalPages) == 1
    ensures PageAfterChange(totalPages, totalPages + 1, totalPages) == totalPages
    ensures totalPages == 0 ==> PageAfterChange(current, requested, totalPages) == current
  {
  }

  /** An accepted page change always lands on a non-empty page, and a page change keeps a valid page valid. */
  lemma PageChangeLandsOnRecords<T>(xs: seq<T>, current: int, requested: int)
    requires 1 <= current
    ensures 1 <= PageAfterChange(current, requested, TotalPages(|xs|))
    ensures 1 <= requested <= TotalPages(|xs|) ==> Paginated(xs, requested) != []
    ensures current <= TotalPages(|xs|) ==> PageAfterChange(current, requested, TotalPages(|xs|)) <= TotalPages(|xs|)
  {
    if 1 <= requested <= TotalPages(|xs|) {
      PageSizes(xs, requested);
    }
  }

  /** The pagination control renders when there is more than one page, that is, more than five records. */
  predicate ShowPagination(n: nat) {
    TotalPages(n) > 1
  }

  lemma ShowPaginationThreshold(n: nat)
    ensures ShowPagination(n) <==> n > ItemsPerPage
  {
  }

  /** `Array.from({ length: totalPages }, (_, index) => index + 1)`: the page buttons. */
  function PageButtons(totalPages: nat): (buttons: seq<int>) {
    seq(totalPages, i => i + 1)
  }

  /** There is one button per page, in increasing order, and the buttons are exactly the pages 1 to totalPages. */
  lemma PageButtonsArePages(totalPages: nat)
    ensures |PageButtons(totalPages)| == totalPages
    ensures forall i, j :: 0 <= i < j < totalPages ==> PageButtons(totalPages)[i] < PageButtons(totalPages)[j]
    ensures forall b :: b in PageButtons(totalPages) <==> 1 <= b <= totalPages
  {
    var r := PageButtons(totalPages);
    forall b | 1 <= b <= totalPages
      ensures b in r
    {
      assert r[b - 1] == b;
    }
  }

  /** Every page button sends a request that is accepted, and it lands on that page. */
  lemma ButtonsAreAccepted(current: int, totalPages: nat, b: int)
    requires b in PageButtons(totalPages)
    ensures PageAfterChange(current, b, totalPages) == b
  {
    PageButtonsArePages(totalPages);
  }
}
