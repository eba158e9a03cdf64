/**
 * The account-check scheduler (src/scheduler.ts): the per-account timer map
 * and the steps that change it. Each poll lists the waiting jobs, groups them
 * by account and reconciles the timers with the groups; each timer that
 * fires runs one account check. Replies of the remote services, the current
 * time and the order in which concurrent detail requests complete are
 * inputs; a poll and a firing are separate atomic steps.
 */
module Scheduler {
  import opened Wrappers
  import opened Types
  import opened Time
  import opened Config
  import opened JobService
  import opened AccountService
  import opened Grouping
  import opened Reconciliation

  /**
   * The body run for each job once its detail request completes: a job with
   * a valid time (read on a host `zoneOffset` milliseconds ahead of UTC) and
   * a valid detail is pushed onto the list of every non-empty account id the
   * detail lists, in list order.
   */
  method RecordJob(order: seq<string>, accountJobs: map<string, seq<WaitingJob>>, job: JobSummary,
                   detailResponse: HttpResponse<JobDetail>, zoneOffset: int)
    returns (order': seq<string>, accountJobs': map<string, seq<WaitingJob>>)
    ensures AccountJobs(order', accountJobs')
         == Accumulate(AccountJobs(order, accountJobs), JobResult(job, detailResponse, zoneOffset))
  {
    order', accountJobs' := order, accountJobs;
    var scheduledTime := ParseScheduledTime(job.scheduledExecutionTime, zoneOffset);
    if scheduledTime.None? {
      return;
    }
    var detail := FetchJobDetail(detailResponse);
    if detail.None? {
      return;
    }
    var jobEntry := WaitingJob(job.id, scheduledTime.value);
    var items := detail.value.accountList.value;
    var k := 0;
    while k < |items|
      invariant 0 <= k <= |items|
      invariant AccountJobs(order', accountJobs')
             == AddToAccounts(AccountJobs(order, accountJobs), AccountIds(items[..k]), jobEntry)
    {
      AddToAccountsStep(AccountJobs(order, accountJobs), items, jobEntry, k);
      var id := items[k].adAccountId;
      if id != "" {
        if id in accountJobs' {
          accountJobs' := accountJobs'[id := accountJobs'[id] + [jobEntry]];
        } else {
          order' := order' + [id];
          accountJobs' := accountJobs'[id := [jobEntry]];
        }
      }
      k := k + 1;
    }
    assert items[..|items|] == items;
  }

  /**
   * `buildAccountJobGroups` with the detail requests completing in the order
   * of `jobs`: every job is recorded; then each account, in first-insertion
   * order, gets its list sorted by time, its earliest time and its check
   * time `leadMinutes` before that.
   */
  method BuildAccountJobGroups(jobs: seq<JobSummary>, details: int -> HttpResponse<JobDetail>, leadMinutes: int,
                               zoneOffset: int)
    returns (groups: seq<AccountJobGroup>)
    ensures groups == AccountJobGroups(Outcomes(jobs, details, zoneOffset), leadMinutes)
    ensures forall i :: 0 <= i < |groups| ==>
              WellFormedGroup(groups[i], leadMinutes) && HoldsContribution(Outcomes(jobs, details, zoneOffset), groups[i])
    ensures DistinctAccounts(groups)
  {
    var order: seq<string> := [];
    var accountJobs: map<string, seq<WaitingJob>> := map[];
    var i := 0;
    while i < |jobs|
      invariant 0 <= i <= |jobs|
      invariant AccountJobs(order, accountJobs) == GroupOutcomes(Outcomes(jobs[..i], details, zoneOffset))
    {
      OutcomesStep(jobs, details, zoneOffset, i);
      order, accountJobs := RecordJob(order, accountJobs, jobs[i], details(jobs[i].id), zoneOffset);
      i := i + 1;
    }
    assert jobs[..|jobs|] == jobs;
    ghost var acc := AccountJobs(order, accountJobs);
    assert WellFormed(acc);
    groups := [];
    var n := 0;
    while n < |order|
      invariant 0 <= n <= |order|
      invariant groups == GroupsFor(acc, order[..n], leadMinutes)
    {
      GroupsForStep(acc, order, leadMinutes, n);
      var adAccountId := order[n];
      var jobsList := accountJobs[adAccountId];
      if |jobsList| > 0 {
        var sorted := SortByTime(jobsList);
        assert jobsList[0] in multiset(sorted);
        var earliestExecutionTime := sorted[0].scheduledExecutionTime;
        var checkTime := MinutesBefore(earliestExecutionTime, leadMinutes);
        groups := groups + [AccountJobGroup(adAccountId, sorted, earliestExecutionTime, checkTime)];
      }
      n := n + 1;
    }
    assert order[..|order|] == order;
    GroupsHoldContributions(Outcomes(jobs, details, zoneOffset), leadMinutes);
  }

  /** The detail lists the account (compared exactly, empty ids included). */
  predicate ListsAccount(detail: JobDetail, accountId: string) {
    exists k :: 0 <= k < |detail.accountList.GetOr([])| && detail.accountList.GetOr([])[k].adAccountId == accountId
  }

  /** The detail reply is valid and lists the account. */
  predicate DetailLists(response: HttpResponse<JobDetail>, accountId: string) {
    FetchJobDetail(response).Some? && ListsAccount(FetchJobDetail(response).value, accountId)
  }

  /**
   * The recheck's answer: the listing's failure, or whether some listed
   * waiting job has a valid detail that lists the account.
   */
  function StillWaiting(accountId: string, pages: seq<HttpResponse<JobListData>>, pageSize: int,
                        details: int -> HttpResponse<JobDetail>): (r: Result<bool, FetchError>)
    requires EndsFrom(pages, pageSize, 0)
    ensures r.Failure? <==> CollectFrom(pages, pageSize, 0).Failure?
    ensures r.Failure? ==> PageList(pages[FirstStopFrom(pages, pageSize, 0)]) == Failure(r.error)
    ensures r.Success? ==>
      (r.value <==> exists job :: job in CollectFrom(pages, pageSize, 0).value
                                 && IsWaitingScheduled(job) && DetailLists(details(job.id), accountId))
  {
    CollectFailsIffStopPageFails(pages, pageSize, 0);
    match CollectFrom(pages, pageSize, 0)
    case Failure(e) => Failure(e)
    case Success(jobs) => Success(exists i :: 0 <= i < |jobs| && DetailLists(details(jobs[i].id), accountId))
  }

  /**
   * `confirmAccountHasWaitingJobs`: lists the waiting jobs again (a failure
   * propagates), then requests the details in list order and stops at the
   * first one that lists the account. `detailsRequested` counts the detail
   * requests sent.
   */
  method ConfirmAccountHasWaitingJobs(accountId: string, pages: seq<HttpResponse<JobListData>>, pageSize: int,
                                      details: int -> HttpResponse<JobDetail>)
    returns (r: Result<bool, FetchError>, detailsRequested: nat)
    requires EndsFrom(pages, pageSize, 0)
    ensures r == StillWaiting(accountId, pages, pageSize, details)
    ensures r.Failure? ==> detailsRequested == 0
    ensures r.Success? ==> var jobs := CollectFrom(pages, pageSize, 0).value;
      && detailsRequested <= |jobs|
      && (r.value ==> 0 < detailsRequested && DetailLists(details(jobs[detailsRequested - 1].id), accountId))
      && (!r.value ==> detailsRequested == |jobs|)
      && forall j :: 0 <= j < detailsRequested - 1 ==> !DetailLists(details(jobs[j].id), accountId)
  {
    var fetched, _ := FetchWaitingJobs(pages, pageSize);
    if fetched.Failure? {
      return Failure(fetched.error), 0;
    }
    var waitingJobs := fetched.value;
    var i := 0;
    while i < |waitingJobs|
      invariant 0 <= i <= |waitingJobs|
      invariant forall j :: 0 <= j < i ==> !DetailLists(details(waitingJobs[j].id), accountId)
    {
      var detail := FetchJobDetail(details(waitingJobs[i].id));
      if detail.Some? && ListsAccount(detail.value, accountId) {
        return Success(true), i + 1;
      }
      i := i + 1;
    }
    return Success(false), |waitingJobs|;
  }

  /** How one account check ended. */
  datatype CheckOutcome =
    | RecheckFailed(error: FetchError)
    | NoLongerWaiting
    | NoTargetAccount
    | AlreadyEnabled(record: AccountRecord)
    | EnableAttempted(record: AccountRecord, call: EnableCall)

  /**
   * `handleAccountCheck` after the map entry is gone: the optional recheck,
   * the account lookup (its reply is `accountResponse`), the already-enabled
   * test and the single enable call (its reply is `enableResponse`).
   */
  function AccountCheck(accountId: string, cfg: AppConfig, pages: seq<HttpResponse<JobListData>>,
                        details: int -> HttpResponse<JobDetail>, accountResponse: HttpResponse<AccountListData>,
                        enableResponse: HttpResponse<StatusData>): (r: CheckOutcome)
    requires cfg.enableAccountRecheck ==> EndsFrom(pages, cfg.jobListPageSize, 0)
    ensures r.EnableAttempted? <==>
      && (cfg.enableAccountRecheck ==> StillWaiting(accountId, pages, cfg.jobListPageSize, details) == Success(true))
      && FindTargetAccount(accountResponse, cfg.createUserNameKeywords, cfg.companyShortName).Some?
      && FindTargetAccount(accountResponse, cfg.createUserNameKeywords, cfg.companyShortName).value.status != EnabledStatus
    ensures r.EnableAttempted? ==>
      && MatchesFilters(r.record, cfg.createUserNameKeywords, cfg.companyShortName)
      && r.call.request == StatusRequest(r.record.id, EnabledStatus)
    ensures r.RecheckFailed? || r.NoLongerWaiting? ==> cfg.enableAccountRecheck
    ensures r.AlreadyEnabled? ==> r.record.status == EnabledStatus
  {
    var recheck := if cfg.enableAccountRecheck then StillWaiting(accountId, pages, cfg.jobListPageSize, details)
                   else Success(true);
    match recheck
    case Failure(e) => RecheckFailed(e)
    case Success(stillWaiting) =>
      if !stillWaiting then NoLongerWaiting
      else
        match FindTargetAccount(accountResponse, cfg.createUserNameKeywords, cfg.companyShortName)
        case None => NoTargetAccount
        case Some(record) =>
          if record.status == EnabledStatus then AlreadyEnabled(record)
          else EnableAttempted(record, EnableAccount(record.id, enableResponse))
  }

  /** The jobs the listing returns, or nothing when it fails. */
  function ListedJobs(pages: seq<HttpResponse<JobListData>>, pageSize: int): seq<JobSummary>
    requires EndsFrom(pages, pageSize, 0)
  {
    match CollectFrom(pages, pageSize, 0)
    case Success(jobs) => jobs
    case Failure(_) => []
  }

  /**
   * The scheduler's state: `accountTimers`, and the runtime's pending timers
   * (`armed`) with the counter that names the next one.
   */
  class AccountCheckScheduler {
    var accountTimers: map<string, TimerEntry>
    var armed: map<nat, ArmedTimer>
    var nextHandle: nat

    function State(): TimerState
      reads this
    {
      TimerState(accountTimers, armed, nextHandle)
    }

    predicate Valid()
      reads this
    {
      Consistent(State())
    }

    constructor ()
      ensures Valid()
      ensures accountTimers == map[] && armed == map[]
    {
      accountTimers := map[];
      armed := map[];
      nextHandle := 0;
    }

    /** `setTimeout`: a fresh handle, pending with the account and the delay Node actually waits. */
    method SetTimeout(accountId: string, delay: int) returns (handle: nat)
      modifies this
      ensures handle == old(nextHandle) && nextHandle == old(nextHandle) + 1
      ensures armed == old(armed)[handle := ArmedTimer(accountId, TimerDelay(delay))]
      ensures accountTimers == old(accountTimers)
    {
      handle := nextHandle;
      armed := armed[handle := ArmedTimer(accountId, TimerDelay(delay))];
      nextHandle := nextHandle + 1;
    }

    /** `clearTimeout`: the handle is no longer pending. */
    method ClearTimeout(handle: nat)
      modifies this
      ensures armed == old(armed) - {handle}
      ensures accountTimers == old(accountTimers) && nextHandle == old(nextHandle)
    {
      armed := armed - {handle};
    }

    /**
     * `applySchedules`: each group in order is kept or re-armed, then every
     * account no group names is cleared and removed.
     */
    method ApplySchedules(groups: seq<AccountJobGroup>, now: Instant)
      requires Valid()
      modifies this
      ensures Valid()
      ensures State() == Reconcile(old(State()), groups, now)
      ensures accountTimers.Keys == IdSet(groups)
    {
      ghost var st0 := State();
      var currentAccounts := ScheduleGroups(groups, now);
      ghost var mid := State();
      var accountsToRemove := AccountsToRemove(currentAccounts);
      RemoveAccounts(accountsToRemove);
      ReconcileByGone(st0, groups, now, accountsToRemove, State());
    }

    /**
     * The first loop of `applySchedules`: each group in order is kept or
     * re-armed, and the accounts the groups name are collected.
     */
    method ScheduleGroups(groups: seq<AccountJobGroup>, now: Instant) returns (currentAccounts: set<string>)
      modifies this
      ensures currentAccounts == IdSet(groups)
      ensures State() == ApplyGroups(old(State()), groups, now)
    {
      ghost var st0 := State();
      currentAccounts := {};
      var i := 0;
      while i < |groups|
        invariant 0 <= i <= |groups|
        invariant currentAccounts == IdSet(groups[..i])
        invariant State() == ApplyGroups(st0, groups[..i], now)
      {
        var group := groups[i];
        IdSetStep(groups, i);
        ApplyGroupsStep(st0, groups, now, i);
        currentAccounts := currentAccounts + {group.adAccountId};
        ScheduleGroup(group, now);
        i := i + 1;
      }
      assert groups[..|groups|] == groups;
    }

    /**
     * The body run for each group: an existing entry due no later is kept;
     * otherwise its timer is cleared, a new one is armed with the delay until
     * the check time, and the entry is replaced.
     */
    method ScheduleGroup(group: AccountJobGroup, now: Instant)
      modifies this
      ensures State() == ApplyGroup(old(State()), group, now)
    {
      var existing := group.adAccountId in accountTimers;
      if existing && accountTimers[group.adAccountId].checkTime <= group.checkTime {
        return;
      }
      if existing {
        ClearTimeout(accountTimers[group.adAccountId].handle);
      }
      var delay := MillisUntil(group.checkTime, now);
      var timeoutId := SetTimeout(group.adAccountId, delay);
      accountTimers := accountTimers[group.adAccountId :=
        TimerEntry(timeoutId, group.checkTime, group.earliestExecutionTime, group.jobs)];
    }

    /** The accounts in the map that `currentAccounts` does not name, collected key by key. */
    method AccountsToRemove(currentAccounts: set<string>) returns (accountsToRemove: set<string>)
      ensures accountsToRemove == accountTimers.Keys - currentAccounts
    {
      accountsToRemove := {};
      var keys := accountTimers.Keys;
      while keys != {}
        invariant keys <= accountTimers.Keys
        invariant accountsToRemove == (accountTimers.Keys - keys) - currentAccounts
        decreases keys
      {
        var accountId :| accountId in keys;
        if accountId !in currentAccounts {
          accountsToRemove := accountsToRemove + {accountId};
        }
        keys := keys - {accountId};
      }
    }

    /** Clears the timer of each account of `accountsToRemove` and deletes its entry. */
    method RemoveAccounts(accountsToRemove: set<string>)
      modifies this
      ensures accountTimers == (map a | a in old(accountTimers) && a !in accountsToRemove :: old(accountTimers)[a])
      ensures armed == (map h | h in old(armed) && h !in HandlesOf(old(accountTimers), accountsToRemove) :: old(armed)[h])
      ensures nextHandle == old(nextHandle)
    {
      ghost var timers0, armed0 := accountTimers, armed;
      var remaining := accountsToRemove;
      while remaining != {}
        invariant remaining <= accountsToRemove
        invariant accountTimers == (map a | a in timers0 && a !in accountsToRemove - remaining :: timers0[a])
        invariant armed == (map h | h in armed0 && h !in HandlesOf(timers0, accountsToRemove - remaining) :: armed0[h])
        invariant nextHandle == old(nextHandle)
        decreases remaining
      {
        var accountId :| accountId in remaining;
        ghost var done := accountsToRemove - remaining;
        assert accountsToRemove - (remaining - {accountId}) == done + {accountId};
        if accountId in accountTimers {
          assert HandlesOf(timers0, done + {accountId}) == HandlesOf(timers0, done) + {timers0[accountId].handle};
          ClearTimeout(accountTimers[accountId].handle);
          accountTimers := accountTimers - {accountId};
        } else {
          assert accountId !in timers0;
          assert HandlesOf(timers0, done + {accountId}) == HandlesOf(timers0, done);
        }
        remaining := remaining - {accountId};
      }
    }

    /**
     * `handleAccountCheck`: drops the account's entry (if any) without
     * touching the pending timers, then runs the check.
     */
    method HandleAccountCheck(accountId: string, cfg: AppConfig, pages: seq<HttpResponse<JobListData>>,
                              details: int -> HttpResponse<JobDetail>,
                              accountResponse: HttpResponse<AccountListData>,
                              enableResponse: HttpResponse<StatusData>)
      returns (outcome: CheckOutcome)
      requires cfg.enableAccountRecheck ==> EndsFrom(pages, cfg.jobListPageSize, 0)
      modifies this
      ensures accountTimers == old(accountTimers) - {accountId}
      ensures armed == old(armed) && nextHandle == old(nextHandle)
      ensures outcome == AccountCheck(accountId, cfg, pages, details, accountResponse, enableResponse)
    {
      if accountId in accountTimers {
        accountTimers := accountTimers - {accountId};
      }
      if cfg.enableAccountRecheck {
        var stillWaiting, _ := ConfirmAccountHasWaitingJobs(accountId, pages, cfg.jobListPageSize, details);
        if stillWaiting.Failure? {
          return RecheckFailed(stillWaiting.error);
        }
        if !stillWaiting.value {
          return NoLongerWaiting;
        }
      }
      var accountRecord := FindTargetAccount(accountResponse, cfg.createUserNameKeywords, cfg.companyShortName);
      if accountRecord.None? {
        return NoTargetAccount;
      }
      if accountRecord.value.status == EnabledStatus {
        return AlreadyEnabled(accountRecord.value);
      }
      var result := EnableAccount(accountRecord.value.id, enableResponse);
      return EnableAttempted(accountRecord.value, result);
    }

    /**
     * A pending timer fires: it stops being pending and checks its account,
     * whose entry (the only one that changes) is removed.
     */
    method FireTimer(handle: nat, cfg: AppConfig, pages: seq<HttpResponse<JobListData>>,
                     details: int -> HttpResponse<JobDetail>,
                     accountResponse: HttpResponse<AccountListData>,
                     enableResponse: HttpResponse<StatusData>)
      returns (outcome: CheckOutcome)
      requires Valid() && handle in armed
      requires cfg.enableAccountRecheck ==> EndsFrom(pages, cfg.jobListPageSize, 0)
      modifies this
      ensures Valid()
      ensures accountTimers == old(accountTimers) - {old(armed[handle].accountId)}
      ensures armed == old(armed) - {handle} && nextHandle == old(nextHandle)
      ensures outcome == AccountCheck(old(armed[handle].accountId), cfg, pages, details, accountResponse, enableResponse)
    {
      var accountId := armed[handle].accountId;
      armed := armed - {handle};
      outcome := HandleAccountCheck(accountId, cfg, pages, details, accountResponse, enableResponse);
    }

    /**
     * `pollAndSchedule`: lists the waiting jobs; a failed listing is logged
     * and changes nothing. Otherwise the jobs' details complete in the order
     * `arrived` (any order of the listed jobs), the groups are built and the
     * timers reconciled with them. Job times are read on a host `zoneOffset`
     * milliseconds ahead of UTC, as the process's zone decides.
     */
    method PollAndSchedule(cfg: AppConfig, pages: seq<HttpResponse<JobListData>>,
                           details: int -> HttpResponse<JobDetail>, arrived: seq<JobSummary>, now: Instant,
                           zoneOffset: int)
      returns (result: Result<seq<AccountJobGroup>, FetchError>)
      requires Valid() && EndsFrom(pages, cfg.jobListPageSize, 0)
      requires multiset(arrived) == multiset(ListedJobs(pages, cfg.jobListPageSize))
      modifies this
      ensures Valid()
      ensures CollectFrom(pages, cfg.jobListPageSize, 0).Failure? ==>
        result == Failure(CollectFrom(pages, cfg.jobListPageSize, 0).error) && State() == old(State())
      ensures CollectFrom(pages, cfg.jobListPageSize, 0).Success? ==>
        && result == Success(AccountJobGroups(Outcomes(arrived, details, zoneOffset), cfg.checkLeadTimeMinutes))
        && State() == Reconcile(old(State()), result.value, now)
    {
      var waitingJobs, _ := FetchWaitingJobs(pages, cfg.jobListPageSize);
      if waitingJobs.Failure? {
        return Failure(waitingJobs.error);
      }
      var accountGroups := BuildAccountJobGroups(arrived, details, cfg.checkLeadTimeMinutes, zoneOffset);
      ApplySchedules(accountGroups, now);
      result := Success(accountGroups);
    }
  }
}
