/**
 * The dashboard page's component state and the handlers that change it:
 * loading the collection, editing the search, changing the page, and the
 * delete confirmation. The views the page renders (filtered list, visible
 * page, page count, skeleton, pagination control) are functions of that state.
 * The network, the token store and navigation are parameters and results.
 */
module Dashboard {
  import opened Listing
  import opened Pagination
  import opened DeleteWorkflow

  /** What a request for the full collection came to. */
  datatype FetchOutcome = Fetched(data: seq<Employee>) | FetchFailed

  /** The collection after `fetchEmployees`: without a token nothing is requested; a failure keeps the old list. */
  function AfterFetch(current: seq<Employee>, hasToken: bool, outcome: FetchOutcome): (r: seq<Employee>)
    ensures !hasToken || outcome == FetchFailed ==> r == current
    ensures hasToken && outcome.Fetched? ==> r == outcome.data
  {
    if !hasToken then current
    else match outcome
      case Fetched(data) => data
      case FetchFailed => current
  }

  /** The skeleton placeholder is rendered exactly while the fetched collection is empty. */
  predicate ShowSkeleton(employees: seq<Employee>) {
    |employees| == 0
  }

  /** While the skeleton shows, whatever the search, nothing passes the filter, there are no pages and no pagination control. */
  lemma SkeletonMeansNoRecords(employees: seq<Employee>, search: string, page: int)
    requires ShowSkeleton(employees)
    ensures Filter(employees, search) == []
    ensures TotalPages(|Filter(employees, search)|) == 0
    ensures Paginated(Filter(employees, search), page) == []
    ensures !ShowPagination(|Filter(employees, search)|)
  {
  }

  /** A search that matches nothing shows an empty table, not the skeleton. */
  lemma NoMatchIsNotSkeleton(employees: seq<Employee>, search: string)
    requires employees != [] && Filter(employees, search) == []
    ensures !ShowSkeleton(employees)
    ensures TotalPages(|Filter(employees, search)|) == 0
  {
  }

  class DashboardPage {
    var employees: seq<Employee>
    var search: string
    var currentPage: int
    var modalOpen: bool
    var selectedId: Option<int>

    /** The page number never drops below 1, and the modal is never open with nothing chosen. */
    ghost predicate Valid()
      reads this
    {
      currentPage >= 1 && Consistent(Modal())
    }

    /** The state the component mounts with. */
    constructor ()
      ensures Valid()
      ensures employees == [] && search == "" && currentPage == 1
      ensures Modal() == Idle
    {
      employees := [];
      search := "";
      currentPage := 1;
      modalOpen := false;
      selectedId := None;
    }

    function Modal(): (m: ModalState)
      reads this
    {
      ModalState(modalOpen, selectedId)
    }

    /** `filteredEmployees`. */
    function FilteredEmployees(): (r: seq<Employee>)
      reads this
    {
      Filter(employees, search)
    }

    /** `paginatedEmployees`: the records the table and the card list show. */
    function PaginatedEmployees(): (r: seq<Employee>)
      reads this
    {
      Paginated(FilteredEmployees(), currentPage)
    }

    /** `totalPages`. */
    function PageCount(): (r: nat)
      reads this
    {
      TotalPages(|FilteredEmployees()|)
    }

    /** The skeleton guard: the skeleton view replaces the page. */
    function ShowsSkeleton(): (r: bool)
      reads this
    {
      ShowSkeleton(employees)
    }

    /** The pagination control renders. */
    function ShowsPagination(): (r: bool)
      reads this
    {
      ShowPagination(|FilteredEmployees()|)
    }

    /**
     * In every valid state the visible records are the current page's window
     * into the filtered list, at most five of them, and the number shown
     * beside each is its 1-based position in the filtered list.
     */
    lemma VisibleRecordsAreTheWindow()
      requires Valid()
      ensures var xs, p := FilteredEmployees(), currentPage;
        PaginatedEmployees() == xs[Min((p - 1) * ItemsPerPage, |xs|)..Min(p * ItemsPerPage, |xs|)]
      ensures |PaginatedEmployees()| <= ItemsPerPage
      ensures forall i :: 0 <= i < |PaginatedEmployees()| ==>
        1 <= RowNumber(currentPage, i) <= |FilteredEmployees()| &&
        FilteredEmployees()[RowNumber(currentPage, i) - 1] == PaginatedEmployees()[i]
    {
      PageIsWindow(FilteredEmployees(), currentPage);
      forall i | 0 <= i < |PaginatedEmployees()|
        ensures 1 <= RowNumber(currentPage, i) <= |FilteredEmployees()|
        ensures FilteredEmployees()[RowNumber(currentPage, i) - 1] == PaginatedEmployees()[i]
      {
        RowNumberIsPosition(FilteredEmployees(), currentPage, i);
      }
    }

    /** `fetchEmployees`: store the fetched collection; redirect to the login view when there is no token. */
    method FetchEmployees(hasToken: bool, outcome: FetchOutcome) returns (redirected: bool)
      requires Valid()
      modifies this
      ensures Valid()
      ensures redirected == !hasToken
      ensures employees == AfterFetch(old(employees), hasToken, outcome)
      ensures search == old(search) && currentPage == old(currentPage) && Modal() == old(Modal())
    {
      redirected := !hasToken;
      if !hasToken {
        return;
      }
      match outcome {
        case Fetched(data) => employees := data;
        case FetchFailed =>
      }
    }

    /** `handlePageChange(page)`: move to `page` when it is an existing page, otherwise do nothing. */
    method HandlePageChange(page: int)
      requires Valid()
      modifies this
      ensures Valid()
      ensures currentPage == PageAfterChange(old(currentPage), page, old(PageCount()))
      ensures employees == old(employees) && search == old(search) && Modal() == old(Modal())
    {
      if page >= 1 && page <= PageCount() {
        currentPage := page;
      }
    }

    /** The Prev button: request the page before the current one. */
    method PrevPage()
      requires Valid()
      modifies this
      ensures Valid()
      ensures currentPage == PageAfterChange(old(currentPage), old(currentPage) - 1, old(PageCount()))
      ensures old(currentPage) == 1 ==> currentPage == 1
      ensures employees == old(employees) && search == old(search) && Modal() == old(Modal())
    {
      HandlePageChange(currentPage - 1);
    }

    /** The Next button: request the page after the current one. */
    method NextPage()
      requires Valid()
      modifies this
      ensures Valid()
      ensures currentPage == PageAfterChange(old(currentPage), old(currentPage) + 1, old(PageCount()))
      ensures old(currentPage) >= old(PageCount()) ==> currentPage == old(currentPage)
      ensures employees == old(employees) && search == old(search) && Modal() == old(Modal())
    {
      HandlePageChange(currentPage + 1);
    }

    /** The search box's `onChange`: store the new search and go back to page 1. */
    method SearchChanged(value: string)
      requires Valid()
      modifies this
      ensures Valid()
      ensures search == value && currentPage == 1
      ensures employees == old(employees) && Modal() == old(Modal())
      ensures PaginatedEmployees() == Filter(employees, value)[..Min(ItemsPerPage, |Filter(employees, value)|)]
    {
      search := value;
      currentPage := 1;
      FirstPage(FilteredEmployees());
    }

    /** `onDeleteClick(id)`: choose the record and open the confirmation modal. */
    method OnDeleteClick(id: int)
      requires Valid()
      modifies this
      ensures Valid()
      ensures Modal() == Choose(old(Modal()), id)
      ensures employees == old(employees) && search == old(search) && currentPage == old(currentPage)
    {
      selectedId := Some(id);
      modalOpen := true;
    }

    /** The modal's Cancel button: close the modal only. */
    method CancelDelete()
      requires Valid()
      modifies this
      ensures Valid()
      ensures Modal() == Cancel(old(Modal()))
      ensures employees == old(employees) && search == old(search) && currentPage == old(currentPage)
    {
      modalOpen := false;
    }

    /**
     * `handleConfirmDelete`: the delete request goes out for the chosen record
     * when there is a token; on success the collection is fetched again with
     * the same token. `requested` is the identifier the request names.
     */
    method HandleConfirmDelete(hasToken: bool, outcome: Outcome, refetch: FetchOutcome)
      returns (redirected: bool, requested: Option<int>)
      requires Valid()
      modifies this
      ensures Valid()
      ensures redirected == !hasToken
      ensures requested == RequestedId(old(Modal()), hasToken)
      ensures Modal() == Confirm(old(Modal()), hasToken, outcome)
      ensures employees ==
        if requested != None && outcome == Succeeded then AfterFetch(old(employees), hasToken, refetch)
        else old(employees)
      ensures search == old(search) && currentPage == old(currentPage)
    {
      redirected := !hasToken;
      requested := None;
      if !hasToken {
        return;
      }
      if selectedId == None {
        return;
      }
      requested := selectedId;
      match outcome {
        case Succeeded =>
          var _ := FetchEmployees(hasToken, refetch);
        case Failed =>
      }
      modalOpen := false;
      selectedId := None;
    }
  }

  /**
   * Deleting the only record of the last page leaves the page number where it
   * was: with six records on two pages, the user is on page 2, deletes the
   * sixth record and the refetch returns five. Page 2 is now empty and, with a
   * single page left, the pagination control to go back is gone.
   */
  method StrandedPageAfterDelete(six: seq<Employee>) returns (page: DashboardPage)
    requires |six| == 6
    ensures page.Valid()
    ensures page.currentPage == 2 && page.PageCount() == 1
    ensures page.PaginatedEmployees() == [] && !page.ShowsPagination() && !page.ShowsSkeleton()
  {
    page := new DashboardPage();
    var _ := page.FetchEmployees(true, Fetched(six));
    FilterEmptySearch(six);
    page.HandlePageChange(2);
    page.OnDeleteClick(six[5].employeeId);
    var _, _ := page.HandleConfirmDelete(true, Succeeded, Fetched(six[..5]));
    FilterEmptySearch(six[..5]);
  }

  /** Seven records and no search: page 1 shows records 1 to 5, page 2 records 6 and 7, and there are two page buttons. */
  lemma SevenRecordsTwoPages(seven: seq<Employee>)
    requires |seven| == 7
    ensures Paginated(Filter(seven, ""), 1) == seven[..5]
    ensures Paginated(Filter(seven, ""), 2) == seven[5..]
    ensures ShowPagination(|Filter(seven, "")|) && PageButtons(TotalPages(|Filter(seven, "")|)) == [1, 2]
  {
    FilterEmptySearch(seven);
    PageIsWindow(seven, 1);
    PageIsWindow(seven, 2);
  }

  /** A search that matches one record gives one page and no pagination control. */
  lemma SingleMatchOnePage(employees: seq<Employee>, search: string)
    requires |Filter(employees, search)| == 1
    ensures TotalPages(|Filter(employees, search)|) == 1
    ensures !ShowPagination(|Filter(employees, search)|)
  {
  }
}
