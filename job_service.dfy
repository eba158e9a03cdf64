/**
 * The job source (src/services/jobService.ts): the paginated listing of
 * waiting jobs and the validation of a job's detail. Requests are not sent:
 * the reply the service gives to each request is an input.
 */
module JobService {
  import opened Wrappers
  import opened Types

  /** Why a job-list request made the whole listing throw. */
  datatype FetchError = TransportFailure | ApiFailure(code: int, message: string)

  /** The client-side filter: status `Waiting`, scheduled, with a non-empty scheduled time. */
  predicate IsWaitingScheduled(job: JobSummary) {
    && job.status == "Waiting"
    && job.isScheduled
    && job.scheduledExecutionTime.Some?
    && job.scheduledExecutionTime.value != ""
  }

  /** The jobs of `list` that pass the filter, in list order. */
  function WaitingOnly(list: seq<JobSummary>): (r: seq<JobSummary>)
    ensures |r| <= |list|
    ensures forall job :: job in r ==> job in list && IsWaitingScheduled(job)
    ensures forall job :: job in list && IsWaitingScheduled(job) ==> job in r
  {
    if |list| == 0 then []
    else
      var last := list[|list| - 1];
      WaitingOnly(list[..|list| - 1]) + (if IsWaitingScheduled(last) then [last] else [])
  }

  /** A single job is kept exactly when it passes the filter. */
  lemma WaitingOnlyOne(job: JobSummary)
    ensures WaitingOnly([job]) == if IsWaitingScheduled(job) then [job] else []
  {
    assert [job][..0] == [];
  }

  /**
   * Filtering two lists one after the other is filtering each: with
   * `WaitingOnlyOne` this fixes the order of the kept jobs and keeps repeats,
   * as the array filter does.
   */
  lemma {:induction false} WaitingOnlyAppend(p: seq<JobSummary>, q: seq<JobSummary>)
    ensures WaitingOnly(p + q) == WaitingOnly(p) + WaitingOnly(q)
    decreases |q|
  {
    if |q| == 0 {
      assert p + q == p;
    } else {
      var q0, last := q[..|q| - 1], q[|q| - 1];
      var tail := if IsWaitingScheduled(last) then [last] else [];
      assert (p + q)[..|p + q| - 1] == p + q0;
      assert (p + q)[|p + q| - 1] == last;
      calc {
        WaitingOnly(p + q);
        WaitingOnly(p + q0) + tail;
        { WaitingOnlyAppend(p, q0); }
        WaitingOnly(p) + WaitingOnly(q0) + tail;
        WaitingOnly(p) + (WaitingOnly(q0) + tail);
        WaitingOnly(p) + WaitingOnly(q);
      }
    }
  }

  /** The job list of one page reply: a failure, or its list (missing counts as empty). */
  function PageList(response: HttpResponse<JobListData>): (r: Result<seq<JobSummary>, FetchError>)
    ensures r.Failure? <==> response.TransportError? || response.code != 0 || response.data.None?
  {
    match response
    case TransportError => Failure(TransportFailure)
    case Reply(code, message, data) =>
      if code != 0 || data.None? then Failure(ApiFailure(code, message))
      else Success(data.value.list.GetOr([]))
  }

  /** After this reply no further page is requested: it failed, or its list was short. */
  predicate PageStops(response: HttpResponse<JobListData>, pageSize: int) {
    PageList(response).Failure? || |PageList(response).value| < pageSize
  }

  /**
   * Some page from index `i` on (page number `i + 1`) ends the listing. The
   * listing loop relies on the service eventually answering a short page or
   * an error; this is that assumption.
   */
  predicate EndsFrom(pages: seq<HttpResponse<JobListData>>, pageSize: int, i: nat) {
    exists j :: i <= j < |pages| && PageStops(pages[j], pageSize)
  }

  /** The index of the first page from `i` on that ends the listing. */
  function FirstStopFrom(pages: seq<HttpResponse<JobListData>>, pageSize: int, i: nat): (k: nat)
    requires EndsFrom(pages, pageSize, i)
    ensures i <= k < |pages| && PageStops(pages[k], pageSize)
    ensures forall j :: i <= j < k ==> !PageStops(pages[j], pageSize)
    decreases |pages| - i
  {
    if PageStops(pages[i], pageSize) then i else FirstStopFrom(pages, pageSize, i + 1)
  }

  /**
   * The listing from page index `i` on: the filtered lists of consecutive
   * pages, concatenated in order, up to and including the first page that
   * stops it; a failing page fails the whole listing.
   */
  function CollectFrom(pages: seq<HttpResponse<JobListData>>, pageSize: int, i: nat): (r: Result<seq<JobSummary>, FetchError>)
    requires EndsFrom(pages, pageSize, i)
    ensures r.Success? ==> forall job :: job in r.value ==> IsWaitingScheduled(job)
    decreases |pages| - i
  {
    match PageList(pages[i])
    case Failure(e) => Failure(e)
    case Success(list) =>
      if |list| < pageSize then Success(WaitingOnly(list))
      else
        match CollectFrom(pages, pageSize, i + 1)
        case Failure(e) => Failure(e)
        case Success(rest) => Success(WaitingOnly(list) + rest)
  }

  /** `acc` followed by a listing; a failure stays a failure. */
  function Prepend(acc: seq<JobSummary>, r: Result<seq<JobSummary>, FetchError>): Result<seq<JobSummary>, FetchError> {
    match r
    case Failure(e) => Failure(e)
    case Success(v) => Success(acc + v)
  }

  lemma PrependTwice(acc: seq<JobSummary>, more: seq<JobSummary>, r: Result<seq<JobSummary>, FetchError>)
    ensures Prepend(acc, Prepend(more, r)) == Prepend(acc + more, r)
  {
    if r.Success? {
      assert acc + (more + r.value) == (acc + more) + r.value;
    }
  }

  /** The whole listing fails exactly when the page that ends it failed. */
  lemma {:induction false} CollectFailsIffStopPageFails(pages: seq<HttpResponse<JobListData>>, pageSize: int, i: nat)
    requires EndsFrom(pages, pageSize, i)
    ensures CollectFrom(pages, pageSize, i).Failure?
            <==> PageList(pages[FirstStopFrom(pages, pageSize, i)]).Failure?
    ensures CollectFrom(pages, pageSize, i).Failure? ==>
            CollectFrom(pages, pageSize, i) == PageList(pages[FirstStopFrom(pages, pageSize, i)])
    decreases |pages| - i
  {
    if !PageStops(pages[i], pageSize) {
      CollectFailsIffStopPageFails(pages, pageSize, i + 1);
    }
  }

  /** The filtered lists of pages `i` .. `k`, concatenated in order. */
  function FilteredPages(pages: seq<HttpResponse<JobListData>>, i: nat, k: nat): seq<JobSummary>
    requires i <= k < |pages|
    requires forall j :: i <= j <= k ==> PageList(pages[j]).Success?
    decreases k - i
  {
    WaitingOnly(PageList(pages[i]).value) + (if i == k then [] else FilteredPages(pages, i + 1, k))
  }

  /**
   * A successful listing is the in-order concatenation of the filtered lists
   * of every page up to the one that ends it, all of which succeeded.
   */
  lemma {:induction false} CollectIsConcatenation(pages: seq<HttpResponse<JobListData>>, pageSize: int, i: nat)
    requires EndsFrom(pages, pageSize, i) && CollectFrom(pages, pageSize, i).Success?
    ensures var k := FirstStopFrom(pages, pageSize, i);
      && (forall j :: i <= j <= k ==> PageList(pages[j]).Success?)
      && CollectFrom(pages, pageSize, i).value == FilteredPages(pages, i, k)
    decreases |pages| - i
  {
    if !PageStops(pages[i], pageSize) {
      CollectIsConcatenation(pages, pageSize, i + 1);
    }
  }

  /**
   * `fetchWaitingJobs`: requests pages 1, 2, ... in turn until a page's list
   * is shorter than the page size, keeping the filtered jobs of each page; a
   * transport error, a non-zero code or missing data on any page throws.
   * `pagesRequested` is the number of page requests sent.
   */
  method FetchWaitingJobs(pages: seq<HttpResponse<JobListData>>, pageSize: int)
    returns (result: Result<seq<JobSummary>, FetchError>, pagesRequested: nat)
    requires EndsFrom(pages, pageSize, 0)
    ensures result == CollectFrom(pages, pageSize, 0)
    ensures pagesRequested == FirstStopFrom(pages, pageSize, 0) + 1
    ensures result.Success? ==> forall job :: job in result.value ==> IsWaitingScheduled(job)
  {
    ghost var k := FirstStopFrom(pages, pageSize, 0);
    var waitingJobs: seq<JobSummary> := [];
    var page: nat := 1;
    var hasMore := true;
    assert Prepend([], CollectFrom(pages, pageSize, 0)) == CollectFrom(pages, pageSize, 0) by {
      if CollectFrom(pages, pageSize, 0).Success? {
        assert [] + CollectFrom(pages, pageSize, 0).value == CollectFrom(pages, pageSize, 0).value;
      }
    }
    while hasMore
      invariant 1 <= page <= k + 1
      invariant hasMore ==> EndsFrom(pages, pageSize, page - 1) && FirstStopFrom(pages, pageSize, page - 1) == k
      invariant hasMore ==> CollectFrom(pages, pageSize, 0) == Prepend(waitingJobs, CollectFrom(pages, pageSize, page - 1))
      invariant !hasMore ==> CollectFrom(pages, pageSize, 0) == Success(waitingJobs) && page == k + 1
      decreases k + 1 - page + (if hasMore then 1 else 0)
    {
      var response := pages[page - 1];
      if response.TransportError? {
        return Failure(TransportFailure), page;
      }
      if response.code != 0 || response.data.None? {
        return Failure(ApiFailure(response.code, response.message)), page;
      }
      var list := response.data.value.list.GetOr([]);
      var filtered := WaitingOnly(list);
      ghost var before := waitingJobs;
      waitingJobs := waitingJobs + filtered;
      if |list| < pageSize {
        hasMore := false;
      } else {
        PrependTwice(before, filtered, CollectFrom(pages, pageSize, page));
        page := page + 1;
      }
    }
    result, pagesRequested := Success(waitingJobs), page;
  }

  /**
   * `fetchJobDetail`: a transport error, a non-zero code, missing data or a
   * missing or empty account list give `None`; otherwise the reply's data,
   * whose account list is then present and non-empty.
   */
  function FetchJobDetail(response: HttpResponse<JobDetail>): (r: Option<JobDetail>)
    ensures r.Some? <==> && response.Reply? && response.code == 0 && response.data.Some?
                         && |response.data.value.accountList.GetOr([])| > 0
    ensures r.Some? ==> r == response.data
    ensures r.Some? ==> r.value.accountList.Some? && |r.value.accountList.value| > 0
  {
    match response
    case TransportError => None
    case Reply(code, _, data) =>
      if code != 0 || data.None? then None
      else if |data.value.accountList.GetOr([])| == 0 then None
      else data
  }
}
