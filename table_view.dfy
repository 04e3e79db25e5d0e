/**
 * The client table's own state (current page, rows per page, sort column
 * and direction), the handlers that change it, and the rows it derives
 * from the client list.
 */
module TableView {
  import opened JsBuiltins
  import opened Records
  import opened TableSort
  import opened TablePaging

  /** The "previous" button: one page back, never below page 1. */
  function PreviousPageOf(page: int): (previous: int)
    ensures page > 1 ==> previous == page - 1
    ensures page <= 1 ==> previous == 1
    ensures previous >= 1
  {
    Max(1, page - 1)
  }

  /** The "next" button: one page forward, never past the last page. */
  function NextPageOf(page: int, totalPages: nat): (next: int)
    ensures page < totalPages ==> next == page + 1
    ensures page >= totalPages ==> next == totalPages
    ensures next <= totalPages
  {
    Min(totalPages, page + 1)
  }

  /** With at least one page, the previous and next buttons keep the page in range. */
  lemma StepsStayInRange(page: int, totalPages: nat)
    requires 1 <= page <= totalPages
    ensures 1 <= PreviousPageOf(page) <= totalPages
    ensures 1 <= NextPageOf(page, totalPages) <= totalPages
    ensures PreviousPageOf(page) <= page <= NextPageOf(page, totalPages)
  {
  }

  /** The previous button is disabled on page 1. */
  predicate PreviousDisabled(page: int) { page == 1 }

  /** The next button is disabled on the last page. */
  predicate NextDisabled(page: int, totalPages: nat) { page == totalPages }

  /** Pressing an enabled previous or next button always moves to another page. */
  lemma EnabledStepsMove(page: int, totalPages: nat)
    requires 1 <= page <= totalPages
    ensures !PreviousDisabled(page) ==> PreviousPageOf(page) == page - 1
    ensures !NextDisabled(page, totalPages) ==> NextPageOf(page, totalPages) == page + 1
  {
  }

  /** The table is drawn while loading or when there is at least one client. */
  predicate TableShown(clientCount: nat, loading: bool) {
    loading || clientCount > 0
  }

  /**
   * Outside loading, the table is drawn exactly when its first page, where it
   * opens and where a new rows-per-page choice returns, has rows to show; that
   * page holds as many rows as fit, up to the whole list.
   */
  lemma FirstPageShowsTable<T>(sorted: seq<T>, rowsPerPage: nat)
    requires rowsPerPage > 0
    ensures TableShown(|sorted|, false) <==> PageRows(sorted, 1, rowsPerPage) != []
    ensures |PageRows(sorted, 1, rowsPerPage)| == Min(rowsPerPage, |sorted|)
  {
  }

  class RecoveryTableState {
    var currentPage: int
    var rowsPerPage: int
    var sortConfig: SortConfig

    /** The rows-per-page selector only offers 10, 15 and 30. */
    ghost predicate Valid()
      reads this
    {
      rowsPerPage in RowsPerPageOptions
    }

    /** Page 1, ten rows per page, sorted by total revenue, highest first. */
    constructor ()
      ensures Valid()
      ensures currentPage == 1 && rowsPerPage == 10 && sortConfig == DefaultSort
    {
      currentPage := 1;
      rowsPerPage := 10;
      sortConfig := DefaultSort;
    }

    /** A click on a sortable column header; the page is kept. */
    method RequestSortOn(key: SortKey)
      requires Valid()
      modifies this
      ensures Valid()
      ensures sortConfig == RequestSort(old(sortConfig), key)
      ensures currentPage == old(currentPage) && rowsPerPage == old(rowsPerPage)
    {
      sortConfig := RequestSort(sortConfig, key);
    }

    method PreviousPage()
      requires Valid()
      modifies this
      ensures Valid()
      ensures currentPage == PreviousPageOf(old(currentPage))
      ensures rowsPerPage == old(rowsPerPage) && sortConfig == old(sortConfig)
    {
      currentPage := Max(1, currentPage - 1);
    }

    method NextPage(totalPages: nat)
      requires Valid()
      modifies this
      ensures Valid()
      ensures currentPage == NextPageOf(old(currentPage), totalPages)
      ensures rowsPerPage == old(rowsPerPage) && sortConfig == old(sortConfig)
    {
      currentPage := Min(totalPages, currentPage + 1);
    }

    /** A click on a numbered page button. */
    method GoToPage(page: int)
      requires Valid()
      modifies this
      ensures Valid()
      ensures currentPage == page
      ensures rowsPerPage == old(rowsPerPage) && sortConfig == old(sortConfig)
    {
      currentPage := page;
    }

    /** A new choice in the rows-per-page selector, which also returns to page 1. */
    method ChangeRowsPerPage(rows: int)
      requires Valid() && rows in RowsPerPageOptions
      modifies this
      ensures Valid()
      ensures rowsPerPage == rows && currentPage == 1
      ensures sortConfig == old(sortConfig)
    {
      rowsPerPage := rows;
      currentPage := 1;
    }

    /**
     * What the table derives from `clients` in its current state: the sorted
     * copy, the page count and the rows of the current page. The client list
     * itself is a value and is never changed.
     */
    method Derive(clients: seq<ClientRecord>) returns (sorted: seq<ClientRecord>, ghost origin: seq<nat>, totalPages: nat, rows: seq<ClientRecord>)
      requires Valid()
      ensures StableSortOf(sorted, origin, clients, sortConfig)
      ensures multiset(sorted) == multiset(clients)
      ensures totalPages == TotalPages(|clients|, rowsPerPage)
      ensures rows == PageRows(sorted, currentPage, rowsPerPage)
      ensures |rows| <= rowsPerPage
      ensures currentPage > totalPages ==> rows == []
    {
      sorted, origin := SortClients(clients, sortConfig);
      totalPages := TotalPages(|sorted|, rowsPerPage);
      rows := PageRows(sorted, currentPage, rowsPerPage);
      if currentPage > totalPages {
        PageBeyondLastIsEmpty(sorted, currentPage, rowsPerPage);
      }
    }
  }
}
