/** The cursor pagination of the process-instance list: the state the list keeps,
    the two navigation buttons, the bookkeeping after a page arrives, and the reset
    when the process filter changes. The fetch itself is remote: a navigation step
    returns the request it would send, and the page (or the failure) that comes back
    is an argument of `ApplyFetch`. */
module Pagination {
  import opened Wrappers
  import opened Sdk

  const PageSize := 25

  /** The value of the process filter that selects every process */
  const AllProcesses := "all"

  const FetchFailedMessage := "Failed to fetch instances"

  datatype Cursor = Cursor(value: string)

  /** The list's pagination state together with the page shown and the error banner */
  datatype PageState = PageState(
    currentPage: int,
    totalPages: int,
    totalCount: int,
    nextCursor: Option<Cursor>,
    previousCursor: Option<Cursor>,
    hasNextPage: bool,
    hasPreviousPage: bool,
    instances: seq<ProcessInstance>,
    error: Option<string>)

  /** The state before anything is fetched */
  const Initial := PageState(1, 0, 0, None, None, false, false, [], None)

  /** The options passed to `getAll`; `packageId` is set unless the filter selects all */
  datatype Request = Request(pageSize: int, cursor: Option<Cursor>, packageId: Option<string>)

  /** What a step asks of the network: nothing, or one page fetch */
  datatype Effect = NoFetch | Fetch(request: Request)

  /** A page of the paginated response; `totalCount` and `currentPage` may be absent */
  datatype PageResponse = PageResponse(
    items: seq<ProcessInstance>,
    hasNextPage: bool,
    nextCursor: Option<Cursor>,
    previousCursor: Option<Cursor>,
    totalCount: Option<int>,
    currentPage: Option<int>)

  /** How the fetch settles: a page, or a thrown value (its message when it is an `Error`) */
  datatype Outcome = Loaded(response: PageResponse) | Failed(message: Option<string>)

  /** The request `fetchInstancesPage(cursor)` sends under the current filter */
  function RequestFor(selectedProcess: string, cursor: Option<Cursor>): (r: Request)
    ensures r.pageSize == PageSize && r.cursor == cursor
    ensures r.packageId.None? <==> selectedProcess == AllProcesses
    ensures r.packageId.Some? ==> r.packageId.value == selectedProcess
  {
    Request(PageSize, cursor, if selectedProcess != AllProcesses then Some(selectedProcess) else None)
  }

  /** A JavaScript number used as a condition: absent and zero are false */
  predicate Truthy(n: Option<int>) {
    n.Some? && n.value != 0
  }

  /** `Math.ceil(n / pageSize)` */
  function PagesFor(n: int): (r: int)
    ensures (r - 1) * PageSize < n <= r * PageSize
    ensures n > 0 ==> r >= 1
  {
    -((-n) / PageSize)
  }

  /** The state updates of `fetchInstancesPage` once its request has settled */
  function ApplyFetch(s: PageState, outcome: Outcome): (r: PageState)
    ensures outcome.Failed? ==>
      && r.instances == [] && r.error.Some?
      && r == s.(instances := [], error := r.error)
    ensures outcome.Failed? ==> r.error == Some(outcome.message.GetOr(FetchFailedMessage))
    ensures outcome.Failed? && outcome.message.None? ==> r.error == Some(FetchFailedMessage)
    ensures outcome.Loaded? ==>
      var p := outcome.response;
      && r.instances == p.items && r.error.None?
      && r.hasNextPage == p.hasNextPage && r.nextCursor == p.nextCursor
      && r.previousCursor == p.previousCursor
      && (r.hasPreviousPage <==> p.previousCursor.Some?)
      && (Truthy(p.totalCount) ==>
            r.totalCount == p.totalCount.value
            && (r.totalPages - 1) * PageSize < r.totalCount <= r.totalPages * PageSize)
      && (!Truthy(p.totalCount) ==> r.totalCount == s.totalCount && r.totalPages == s.totalPages)
      && r.currentPage == (if Truthy(p.currentPage) then p.currentPage.value else s.currentPage)
  {
    match outcome
    case Failed(message) =>
      s.(error := Some(message.GetOr(FetchFailedMessage)), instances := [])
    case Loaded(p) =>
      var s1 := s.(error := None, instances := p.items,
                   hasNextPage := p.hasNextPage, nextCursor := p.nextCursor,
                   previousCursor := p.previousCursor, hasPreviousPage := p.previousCursor.Some?);
      var s2 := if Truthy(p.totalCount)
                then s1.(totalCount := p.totalCount.value, totalPages := PagesFor(p.totalCount.value))
                else s1;
      if Truthy(p.currentPage) then s2.(currentPage := p.currentPage.value) else s2
  }

  /** `goToNextPage`: only when the next flag and the next cursor are both there. The
      page number moves first; the fetch then returns at once unless `ready` (the
      instance service exists), so without it the page moves with no request. */
  function GoToNextPage(s: PageState, ready: bool, selectedProcess: string): (r: (PageState, Effect))
    ensures !(s.hasNextPage && s.nextCursor.Some?) ==> r == (s, NoFetch)
    ensures s.hasNextPage && s.nextCursor.Some? ==>
      && r.0 == s.(currentPage := s.currentPage + 1)
      && (ready ==> r.1 == Fetch(RequestFor(selectedProcess, s.nextCursor)))
      && (!ready ==> r.1 == NoFetch)
  {
    if s.hasNextPage && s.nextCursor.Some? then
      (s.(currentPage := s.currentPage + 1),
       if ready then Fetch(RequestFor(selectedProcess, s.nextCursor)) else NoFetch)
    else
      (s, NoFetch)
  }

  /** `goToPreviousPage`: only when the previous flag and the previous cursor are both
      there; `ready` as for `GoToNextPage` */
  function GoToPreviousPage(s: PageState, ready: bool, selectedProcess: string): (r: (PageState, Effect))
    ensures !(s.hasPreviousPage && s.previousCursor.Some?) ==> r == (s, NoFetch)
    ensures s.hasPreviousPage && s.previousCursor.Some? ==>
      && r.0 == s.(currentPage := s.currentPage - 1)
      && (ready ==> r.1 == Fetch(RequestFor(selectedProcess, s.previousCursor)))
      && (!ready ==> r.1 == NoFetch)
  {
    if s.hasPreviousPage && s.previousCursor.Some? then
      (s.(currentPage := s.currentPage - 1),
       if ready then Fetch(RequestFor(selectedProcess, s.previousCursor)) else NoFetch)
    else
      (s, NoFetch)
  }

  /** The effect that runs when the process filter changes; `ready` stands for
      "authenticated and the instance service exists" */
  function ResetForFilter(s: PageState, ready: bool, selectedProcess: string): (r: (PageState, Effect))
    ensures !ready ==> r == (s, NoFetch)
    ensures ready ==>
      && r.0.currentPage == 1 && r.0.nextCursor.None? && r.0.previousCursor.None?
      && r.0 == s.(currentPage := 1, nextCursor := None, previousCursor := None)
      && r.1 == Fetch(RequestFor(selectedProcess, None))
  {
    if ready then
      (s.(currentPage := 1, nextCursor := None, previousCursor := None),
       Fetch(RequestFor(selectedProcess, None)))
    else
      (s, NoFetch)
  }

  const FetchDataFailedMessage := "Failed to fetch data"

  /** The process list shown above the instances, together with the instance pages */
  datatype Dashboard = Dashboard(processes: seq<ProcessSummary>, page: PageState)

  /** How the process-list call settles: the processes, or a thrown value */
  datatype ProcessesOutcome = ProcessesLoaded(processes: seq<ProcessSummary>) | ProcessesFailed(message: Option<string>)

  /** `fetchData` once the process-list call has settled: on success the processes are
      stored and the first page is fetched; a failure empties both lists and shows the
      message. `ready` stands for "the SDK exists": it creates both the process
      service and the instance service, so it covers the early returns of `fetchData`
      and of the `fetchInstancesPage` call it makes. */
  function FetchData(d: Dashboard, ready: bool, outcome: ProcessesOutcome, selectedProcess: string): (r: (Dashboard, Effect))
    ensures !ready ==> r == (d, NoFetch)
    ensures ready && outcome.ProcessesLoaded? ==>
      && r.0 == d.(processes := outcome.processes)
      && r.1 == Fetch(RequestFor(selectedProcess, None))
    ensures ready && outcome.ProcessesFailed? ==>
      && r.1 == NoFetch
      && r.0.processes == [] && r.0.page.instances == [] && r.0.page.error.Some?
      && r.0.page == d.page.(instances := [], error := r.0.page.error)
      && r.0.page.error == Some(outcome.message.GetOr(FetchDataFailedMessage))
      && (outcome.message.None? ==> r.0.page.error == Some(FetchDataFailedMessage))
  {
    if !ready then (d, NoFetch)
    else
      match outcome
      case ProcessesLoaded(ps) => (d.(processes := ps), Fetch(RequestFor(selectedProcess, None)))
      case ProcessesFailed(message) =>
        (Dashboard([], d.page.(error := Some(message.GetOr(FetchDataFailedMessage)), instances := [])), NoFetch)
  }

  /** The previous flag mirrors the presence of the previous cursor */
  predicate PreviousFlagMatches(s: PageState) {
    s.hasPreviousPage <==> s.previousCursor.Some?
  }

  /** The initial state already keeps the previous flag in step with its cursor */
  lemma InitialFlagMatches()
    ensures PreviousFlagMatches(Initial) && Initial.currentPage == 1 && Initial.instances == []
  {
  }

  /** Every settled fetch keeps the previous flag in step with the previous cursor,
      and so does navigation */
  lemma PreviousFlagKept(s: PageState, outcome: Outcome, ready: bool, selectedProcess: string)
    requires PreviousFlagMatches(s)
    ensures PreviousFlagMatches(ApplyFetch(s, outcome))
    ensures PreviousFlagMatches(GoToNextPage(s, ready, selectedProcess).0)
    ensures PreviousFlagMatches(GoToPreviousPage(s, ready, selectedProcess).0)
  {
  }

  /** Right after a filter change neither button does anything until the first page
      arrives: the cursors are gone, although the flags still hold their old values */
  lemma NavigationAfterReset(s: PageState, ready: bool, selectedProcess: string, other: string)
    ensures var t := ResetForFilter(s, true, selectedProcess).0;
      && GoToNextPage(t, ready, other) == (t, NoFetch)
      && GoToPreviousPage(t, ready, other) == (t, NoFetch)
  {
  }

  /** A reset followed by the first page: page 1 unless the response names a page, and
      the page count comes from the response's total */
  lemma ResetThenLoad(s: PageState, selectedProcess: string, p: PageResponse)
    requires !Truthy(p.currentPage)
    ensures var t := ApplyFetch(ResetForFilter(s, true, selectedProcess).0, Loaded(p));
      && t.currentPage == 1
      && t.instances == p.items
      && PreviousFlagMatches(t)
  {
  }

  /** Navigating forward and then back, with the requests failing, returns to the same page */
  lemma NextThenPreviousPage(s: PageState, selectedProcess: string, m1: Option<string>, m2: Option<string>)
    requires s.hasNextPage && s.nextCursor.Some? && s.hasPreviousPage && s.previousCursor.Some?
    ensures var t := ApplyFetch(GoToNextPage(s, true, selectedProcess).0, Failed(m1));
      var u := ApplyFetch(GoToPreviousPage(t, true, selectedProcess).0, Failed(m2));
      u.currentPage == s.currentPage
  {
  }
}
