/**
 * The client table's pagination: the page count, the rows shown on one
 * page, and the row of page buttons with ellipses that the pager draws.
 */
module TablePaging {
  import opened JsBuiltins

  /** The choices of the rows-per-page selector. */
  const RowsPerPageOptions: set<int> := {10, 15, 30}

  /** `Math.ceil(count / rowsPerPage)`. */
  function TotalPages(count: nat, rowsPerPage: nat): (pages: nat)
    requires rowsPerPage > 0
    ensures count <= pages * rowsPerPage
    ensures pages > 0 ==> (pages - 1) * rowsPerPage < count
    ensures pages == 0 <==> count == 0
  {
    (count + rowsPerPage - 1) / rowsPerPage
  }

  /**
   * `sorted.slice((page - 1) * rowsPerPage, page * rowsPerPage)`: the rows
   * shown on page `page`.
   */
  function PageRows<T>(sorted: seq<T>, page: int, rowsPerPage: nat): (rows: seq<T>)
    ensures |rows| <= rowsPerPage
    ensures page >= 1 ==>
      var lo, hi := Min((page - 1) * rowsPerPage, |sorted|), Min(page * rowsPerPage, |sorted|);
      lo <= hi && rows == sorted[lo..hi]
  {
    var lo := (page - 1) * rowsPerPage;
    assert page >= 1 ==> 0 <= lo <= lo + rowsPerPage == page * rowsPerPage;
    Slice(sorted, lo, page * rowsPerPage)
  }

  /** A page past the last one shows no rows. */
  lemma PageBeyondLastIsEmpty<T>(sorted: seq<T>, page: int, rowsPerPage: nat)
    requires rowsPerPage > 0 && page > TotalPages(|sorted|, rowsPerPage)
    ensures PageRows(sorted, page, rowsPerPage) == []
  {
    var pages := TotalPages(|sorted|, rowsPerPage);
    assert (page - 1) * rowsPerPage >= pages * rowsPerPage;
  }

  /** Pages 1 to `k` laid end to end. */
  function PagesUpTo<T>(sorted: seq<T>, rowsPerPage: nat, k: nat): seq<T> {
    if k == 0 then [] else PagesUpTo(sorted, rowsPerPage, k - 1) + PageRows(sorted, k, rowsPerPage)
  }

  /** Page `k` is the stretch of rows from `(k - 1) * rowsPerPage` up to `k * rowsPerPage`, cut at the end. */
  lemma PageSpan<T>(sorted: seq<T>, rowsPerPage: nat, k: nat, before: nat)
    requires k > 0 && before == (k - 1) * rowsPerPage
    ensures k * rowsPerPage == before + rowsPerPage
    ensures PageRows(sorted, k, rowsPerPage) == sorted[Min(before, |sorted|)..Min(before + rowsPerPage, |sorted|)]
  {
  }

  /** A prefix followed by the stretch right after it is the longer prefix. */
  lemma PrefixThenStretch<T>(sorted: seq<T>, lo: nat, hi: nat)
    requires lo <= hi <= |sorted|
    ensures sorted[..lo] + sorted[lo..hi] == sorted[..hi]
  {
  }

  lemma {:induction false} PagesUpToIsPrefix<T>(sorted: seq<T>, rowsPerPage: nat, k: nat)
    ensures PagesUpTo(sorted, rowsPerPage, k) == sorted[..Min(k * rowsPerPage, |sorted|)]
  {
    if k > 0 {
      var before: nat := (k - 1) * rowsPerPage;
      PagesUpToIsPrefix(sorted, rowsPerPage, k - 1);
      PageSpan(sorted, rowsPerPage, k, before);
      PrefixThenStretch(sorted, Min(before, |sorted|), Min(before + rowsPerPage, |sorted|));
    }
  }

  /** Reading pages 1 to `TotalPages` in order gives back every row exactly once, in order. */
  lemma AllPagesReassemble<T>(sorted: seq<T>, rowsPerPage: nat)
    requires rowsPerPage > 0
    ensures PagesUpTo(sorted, rowsPerPage, TotalPages(|sorted|, rowsPerPage)) == sorted
  {
    var pages := TotalPages(|sorted|, rowsPerPage);
    PagesUpToIsPrefix(sorted, rowsPerPage, pages);
  }

  // ---------------------------------------------------------------------------
  // The page buttons.

  /** One entry of the pager: a page button or a `...` separator. */
  datatype PageItem = Page(number: int) | Ellipsis

  /** The buttons for pages `lo` to `hi`, both included. */
  function PageRun(lo: int, hi: int): (run: seq<PageItem>)
    ensures |run| == Max(0, hi - lo + 1)
    ensures forall k :: 0 <= k < |run| ==> run[k] == Page(lo + k)
  {
    seq(Max(0, hi - lo + 1), k => Page(lo + k))
  }

  /**
   * An abbreviated pager for `total` pages: it starts at page 1 and ends at
   * page `total`, page numbers strictly increase, pages next to each other
   * are consecutive, and a `...` stands between two pages exactly where
   * page numbers are skipped.
   */
  ghost predicate AbbreviatesPages(items: seq<PageItem>, total: int) {
    && |items| >= 2
    && items[0] == Page(1)
    && items[|items| - 1] == Page(total)
    && (forall i, j :: 0 <= i < j < |items| && items[i].Page? && items[j].Page? ==> items[i].number < items[j].number)
    && (forall i :: 0 <= i < |items| - 1 && items[i].Page? && items[i + 1].Page? ==> items[i + 1].number == items[i].number + 1)
    && (forall i :: 0 < i < |items| - 1 && items[i].Ellipsis? ==>
          items[i - 1].Page? && items[i + 1].Page? && items[i - 1].number + 1 < items[i + 1].number)
  }

  /** The pager assembled from page 1, an optional `...`, a window of pages, an optional `...` and the last page. */
  function Assembled(total: int, start: int, end: int, leading: bool, trailing: bool): seq<PageItem> {
    [Page(1)] + (if leading then [Ellipsis] else []) + PageRun(start, end)
      + (if trailing then [Ellipsis] else []) + [Page(total)]
  }

  /** Entry `k` of an assembled pager of `n` entries with `lead` leading `...` marks and `m` window pages. */
  function EntryAt(k: int, n: int, total: int, start: int, lead: int, m: int): PageItem {
    if k == 0 then Page(1)
    else if k < 1 + lead then Ellipsis
    else if k < 1 + lead + m then Page(start + k - 1 - lead)
    else if k < n - 1 then Ellipsis
    else Page(total)
  }

  /** Where each entry of an assembled pager comes from. */
  lemma AssembledEntries(total: int, start: int, end: int, leading: bool, trailing: bool)
    requires start <= end
    ensures var items := Assembled(total, start, end, leading, trailing);
      && |items| == 2 + (if leading then 1 else 0) + (end - start + 1) + (if trailing then 1 else 0)
      && forall k :: 0 <= k < |items| ==>
           items[k] == EntryAt(k, |items|, total, start, if leading then 1 else 0, end - start + 1)
  {
  }

  /** The layout of an assembled pager, with each `...` exactly where the run leaves a gap. */
  ghost predicate Laid(items: seq<PageItem>, total: int, start: int, lead: int, m: int) {
    && 0 <= lead <= 1 && m >= 1 && 2 <= start && start + m - 1 <= total - 1
    && 2 + lead + m <= |items| <= 3 + lead + m
    && (forall k :: 0 <= k < |items| ==> items[k] == EntryAt(k, |items|, total, start, lead, m))
    && (lead == 1 <==> start > 2)
    && (|items| == 3 + lead + m <==> start + m - 1 < total - 1)
  }

  lemma EntriesIncrease(items: seq<PageItem>, total: int, start: int, lead: int, m: int)
    requires Laid(items, total, start, lead, m)
    ensures forall i, j :: 0 <= i < j < |items| && items[i].Page? && items[j].Page? ==> items[i].number < items[j].number
  {
  }

  lemma EntriesConsecutive(items: seq<PageItem>, total: int, start: int, lead: int, m: int)
    requires Laid(items, total, start, lead, m)
    ensures forall i :: 0 <= i < |items| - 1 && items[i].Page? && items[i + 1].Page? ==> items[i + 1].number == items[i].number + 1
  {
  }

  lemma EntriesMarkGaps(items: seq<PageItem>, total: int, start: int, lead: int, m: int)
    requires Laid(items, total, start, lead, m)
    ensures forall i :: 0 < i < |items| - 1 && items[i].Ellipsis? ==>
      items[i - 1].Page? && items[i + 1].Page? && items[i - 1].number + 1 < items[i + 1].number
  {
  }

  /**
   * A pager laid out as page 1, at most one `...`, a run of pages from
   * `start`, at most one `...` and the last page abbreviates the pages when
   * each `...` stands exactly where the run leaves a gap.
   */
  lemma EntriesAbbreviate(items: seq<PageItem>, total: int, start: int, lead: int, m: int)
    requires Laid(items, total, start, lead, m)
    ensures AbbreviatesPages(items, total)
  {
    EntriesIncrease(items, total, start, lead, m);
    EntriesConsecutive(items, total, start, lead, m);
    EntriesMarkGaps(items, total, start, lead, m);
  }

  /** An assembled pager whose `...` marks stand exactly where the window leaves a gap abbreviates the pages. */
  lemma AssembledAbbreviates(total: int, start: int, end: int, leading: bool, trailing: bool)
    requires 2 <= start <= end <= total - 1
    requires leading <==> start > 2
    requires trailing <==> end < total - 1
    ensures AbbreviatesPages(Assembled(total, start, end, leading, trailing), total)
  {
    AssembledEntries(total, start, end, leading, trailing);
    EntriesAbbreviate(Assembled(total, start, end, leading, trailing), total, start, if leading then 1 else 0, end - start + 1);
  }

  /**
   * The window `getPageNumbers` picks for more than seven pages: pages 2 to 4
   * near the start, the last three inner pages near the end, and the current
   * page with its two neighbours in between. Assembled with page 1, the last
   * page and its two `...` conditions, it abbreviates the pages, has at most
   * seven entries, and shows the current page and its neighbours.
   */
  lemma WindowAbbreviates(currentPage: int, totalPages: int, start: int, end: int)
    requires totalPages > 7
    requires start == if currentPage > 3 && currentPage >= totalPages - 2 then totalPages - 3 else Max(2, currentPage - 1)
    requires end == if currentPage <= 3 then 4 else Min(totalPages - 1, currentPage + 1)
    ensures var pages := Assembled(totalPages, start, end, currentPage > 3, currentPage < totalPages - 2);
      && AbbreviatesPages(pages, totalPages)
      && |pages| <= 7
      && (1 <= currentPage <= totalPages ==>
            && Page(currentPage) in pages
            && (currentPage > 1 ==> Page(currentPage - 1) in pages)
            && (currentPage < totalPages ==> Page(currentPage + 1) in pages))
  {
    var leading, trailing := currentPage > 3, currentPage < totalPages - 2;
    var pages := Assembled(totalPages, start, end, leading, trailing);
    AssembledAbbreviates(totalPages, start, end, leading, trailing);
    if 1 <= currentPage <= totalPages {
      var lead := if leading then 1 else 0;
      forall p | Max(1, currentPage - 1) <= p <= Min(totalPages, currentPage + 1)
        ensures Page(p) in pages
      {
        if p == 1 {
          assert pages[0] == Page(p);
        } else if p == totalPages {
          assert pages[|pages| - 1] == Page(p);
        } else {
          assert pages[1 + lead + p - start] == Page(p);
        }
      }
    }
  }

  /** `for (let i = lo; i <= hi; i++) pages.push(i)`. */
  method PushRun(pages: seq<PageItem>, lo: int, hi: int) returns (pushed: seq<PageItem>)
    ensures pushed == pages + PageRun(lo, hi)
  {
    pushed := pages;
    var i := lo;
    while i <= hi
      invariant lo <= i <= Max(lo, hi + 1)
      invariant |pushed| == |pages| + i - lo
      invariant pushed[..|pages|] == pages
      invariant forall k :: |pages| <= k < |pushed| ==> pushed[k] == Page(lo + k - |pages|)
    {
      pushed := pushed + [Page(i)];
      i := i + 1;
    }
    assert pushed == pages + PageRun(lo, hi);
  }

  /**
   * `getPageNumbers()`: with at most seven pages every page gets a button;
   * otherwise page 1, the window around the current page and the last page,
   * with `...` where pages are skipped.
   */
  method PageNumbers(currentPage: int, totalPages: nat) returns (pages: seq<PageItem>)
    ensures totalPages <= 7 ==> pages == PageRun(1, totalPages)
    ensures totalPages > 7 ==> AbbreviatesPages(pages, totalPages) && |pages| <= 7
    ensures totalPages > 7 && 1 <= currentPage <= totalPages ==>
      && Page(currentPage) in pages
      && (currentPage > 1 ==> Page(currentPage - 1) in pages)
      && (currentPage < totalPages ==> Page(currentPage + 1) in pages)
  {
    pages := [];
    if totalPages <= 7 {
      pages := PushRun(pages, 1, totalPages);
    } else {
      pages := pages + [Page(1)];
      if currentPage > 3 {
        pages := pages + [Ellipsis];
      }
      var start := Max(2, currentPage - 1);
      var end := Min(totalPages - 1, currentPage + 1);
      if currentPage <= 3 {
        end := 4;
      } else if currentPage >= totalPages - 2 {
        start := totalPages - 3;
      }
      pages := PushRun(pages, start, end);
      if currentPage < totalPages - 2 {
        pages := pages + [Ellipsis];
      }
      pages := pages + [Page(totalPages)];
      assert pages == Assembled(totalPages, start, end, currentPage > 3, currentPage < totalPages - 2);
      WindowAbbreviates(currentPage, totalPages, start, end);
    }
  }
}
