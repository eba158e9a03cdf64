/**
 * The meaning of `buildAccountJobGroups` (src/scheduler.ts): each waiting
 * job yields an outcome (skipped, or an entry for the accounts its detail
 * lists); the outcomes are folded into per-account job lists kept in the
 * order accounts were first seen; each list becomes a group with its jobs
 * sorted by time, its earliest time and the time its check is due.
 */
module Grouping {
  import opened Wrappers
  import opened Types
  import opened Time
  import JobService

  /** What one job contributes: nothing, or its entry for each listed account id. */
  datatype JobOutcome = Skipped | Contributes(entry: WaitingJob, accountIds: seq<string>)

  /** The account ids of a detail's account list in list order, skipping empty ones. */
  function AccountIds(items: seq<AccountItem>): (r: seq<string>)
    ensures forall k :: 0 <= k < |r| ==> r[k] != ""
    ensures forall k :: 0 <= k < |items| && items[k].adAccountId != "" ==> items[k].adAccountId in r
    ensures forall a :: a in r ==> exists k :: 0 <= k < |items| && items[k].adAccountId == a
  {
    if |items| == 0 then []
    else
      var init := items[..|items| - 1];
      var last := items[|items| - 1].adAccountId;
      var r := AccountIds(init) + (if last == "" then [] else [last]);
      assert forall k :: 0 <= k < |items| - 1 ==> items[k] == init[k];
      r
  }

  /** A single item gives its id, unless the id is empty. */
  lemma AccountIdsOne(item: AccountItem)
    ensures AccountIds([item]) == if item.adAccountId == "" then [] else [item.adAccountId]
  {
    assert [item][..0] == [];
  }

  /**
   * The ids of two lists one after the other are the ids of the first list
   * followed by those of the second: with `AccountIdsOne` this fixes the
   * result's order and its repeats (an id listed twice is pushed twice).
   */
  lemma {:induction false} AccountIdsAppend(p: seq<AccountItem>, q: seq<AccountItem>)
    ensures AccountIds(p + q) == AccountIds(p) + AccountIds(q)
    decreases |q|
  {
    if |q| == 0 {
      assert p + q == p;
    } else {
      var q0, last := q[..|q| - 1], q[|q| - 1];
      var tail := if last.adAccountId == "" then [] else [last.adAccountId];
      assert (p + q)[..|p + q| - 1] == p + q0;
      assert (p + q)[|p + q| - 1] == last;
      calc {
        AccountIds(p + q);
        AccountIds(p + q0) + tail;
        { AccountIdsAppend(p, q0); }
        AccountIds(p) + AccountIds(q0) + tail;
        AccountIds(p) + (AccountIds(q0) + tail);
        AccountIds(p) + AccountIds(q);
      }
    }
  }

  /**
   * One job, its time read on a host `zoneOffset` milliseconds ahead of UTC:
   * an unparsable scheduled time or a detail that fails validation skips it;
   * otherwise its entry goes to the account ids of the detail's list, in list
   * order, one copy per non-empty occurrence.
   */
  function JobResult(job: JobSummary, detail: HttpResponse<JobDetail>, zoneOffset: int): (r: JobOutcome)
    ensures r.Skipped? <==> ParseScheduledTime(job.scheduledExecutionTime, zoneOffset).None?
                            || JobService.FetchJobDetail(detail).None?
    ensures r.Contributes? ==>
      && r.entry == WaitingJob(job.id, ParseScheduledTime(job.scheduledExecutionTime, zoneOffset).value)
      && r.accountIds == AccountIds(detail.data.value.accountList.value)
      && (forall k :: 0 <= k < |r.accountIds| ==> r.accountIds[k] != "")
      && (forall a :: a in r.accountIds <==>
            a != "" && exists item :: item in detail.data.value.accountList.value && item.adAccountId == a)
  {
    match ParseScheduledTime(job.scheduledExecutionTime, zoneOffset)
    case None => Skipped
    case Some(t) =>
      match JobService.FetchJobDetail(detail)
      case None => Skipped
      case Some(d) =>
        var ids := AccountIds(d.accountList.value);
        assert forall item :: item in d.accountList.value && item.adAccountId != "" ==> item.adAccountId in ids by {
          forall item | item in d.accountList.value && item.adAccountId != "" ensures item.adAccountId in ids {
            var k :| 0 <= k < |d.accountList.value| && d.accountList.value[k] == item;
          }
        }
        Contributes(WaitingJob(job.id, t), ids)
  }

  /**
   * On a host running at UTC+8, a recorded job's time shows on a Shanghai
   * clock exactly the reading its text gives.
   */
  lemma {:induction false} ShanghaiHostEntries(job: JobSummary, detail: HttpResponse<JobDetail>)
    requires JobResult(job, detail, ShanghaiOffsetMillis).Contributes?
    ensures var t := JobResult(job, detail, ShanghaiOffsetMillis).entry.scheduledExecutionTime;
      WallClockIs(t, ShanghaiOffsetMillis, ParseFields(job.scheduledExecutionTime.value).value)
  {
    var s := job.scheduledExecutionTime.value;
    ShanghaiTimeReadsBack(s, ParseShanghaiTime(Some(s)).value, ParseFields(s).value);
  }

  /** The outcome of each job, the detail endpoint answering `details(id)` for job `id`. */
  function Outcomes(jobs: seq<JobSummary>, details: int -> HttpResponse<JobDetail>, zoneOffset: int): seq<JobOutcome> {
    seq(|jobs|, i requires 0 <= i < |jobs| => JobResult(jobs[i], details(jobs[i].id), zoneOffset))
  }

  /** One more job's outcome, folded in after the others. */
  lemma OutcomesStep(jobs: seq<JobSummary>, details: int -> HttpResponse<JobDetail>, zoneOffset: int, i: nat)
    requires i < |jobs|
    ensures GroupOutcomes(Outcomes(jobs[..i + 1], details, zoneOffset))
         == Accumulate(GroupOutcomes(Outcomes(jobs[..i], details, zoneOffset)),
                       JobResult(jobs[i], details(jobs[i].id), zoneOffset))
  {
    var p := Outcomes(jobs[..i], details, zoneOffset);
    var x := JobResult(jobs[i], details(jobs[i].id), zoneOffset);
    assert Outcomes(jobs[..i + 1], details, zoneOffset) == p + [x];
    assert (p + [x])[..i] == p;
  }

  /** The per-account map being filled: its keys in first-insertion order, and each key's list. */
  datatype AccountJobs = AccountJobs(order: seq<string>, lists: map<string, seq<WaitingJob>>)

  const NoAccountJobs := AccountJobs([], map[])

  /** The list of account `a` (none yet counts as empty). */
  function Jobs(acc: AccountJobs, a: string): seq<WaitingJob> {
    if a in acc.lists then acc.lists[a] else []
  }

  /** The insertion order lists each key once, and no key holds an empty list. */
  predicate WellFormed(acc: AccountJobs) {
    && (forall i, j :: 0 <= i < j < |acc.order| ==> acc.order[i] != acc.order[j])
    && (forall a :: a in acc.lists ==> a in acc.order)
    && (forall i :: 0 <= i < |acc.order| ==> acc.order[i] in acc.lists)
    && (forall a :: a in acc.lists ==> |acc.lists[a]| > 0)
  }

  /** Push `e` onto the list of `id`, creating it (and its place in the order) when new. */
  function AddJob(acc: AccountJobs, id: string, e: WaitingJob): (r: AccountJobs)
    ensures WellFormed(acc) ==> WellFormed(r)
    ensures r.order == if id in acc.lists then acc.order else acc.order + [id]
    ensures Jobs(r, id) == Jobs(acc, id) + [e]
    ensures forall a :: a != id ==> Jobs(r, a) == Jobs(acc, a)
  {
    if id in acc.lists then AccountJobs(acc.order, acc.lists[id := acc.lists[id] + [e]])
    else AccountJobs(acc.order + [id], acc.lists[id := [e]])
  }

  /** The copies of `e` that account `a` receives from a job listing `ids`: one per occurrence. */
  function ContributionOf(ids: seq<string>, e: WaitingJob, a: string): (r: seq<WaitingJob>)
    ensures forall k :: 0 <= k < |r| ==> r[k] == e
    ensures |r| > 0 <==> a in ids
  {
    if |ids| == 0 then []
    else
      var init := ids[..|ids| - 1];
      assert ids == init + [ids[|ids| - 1]];
      ContributionOf(init, e, a) + (if ids[|ids| - 1] == a then [e] else [])
  }

  /** Push `e` for each id of `ids` in turn. */
  function AddToAccounts(acc: AccountJobs, ids: seq<string>, e: WaitingJob): (r: AccountJobs)
    ensures WellFormed(acc) ==> WellFormed(r)
  {
    if |ids| == 0 then acc else AddJob(AddToAccounts(acc, ids[..|ids| - 1], e), ids[|ids| - 1], e)
  }

  /** Account `a` receives one copy of `e` per occurrence of `a` in `ids`, after what it had. */
  lemma {:induction false} AddToAccountsAt(acc: AccountJobs, ids: seq<string>, e: WaitingJob, a: string)
    ensures Jobs(AddToAccounts(acc, ids, e), a) == Jobs(acc, a) + ContributionOf(ids, e, a)
  {
    if |ids| == 0 {
      assert Jobs(acc, a) + [] == Jobs(acc, a);
    } else {
      var init := ids[..|ids| - 1];
      var tail := if ids[|ids| - 1] == a then [e] else [];
      AddToAccountsAt(acc, init, e, a);
      assert Jobs(acc, a) + ContributionOf(init, e, a) + tail
          == Jobs(acc, a) + (ContributionOf(init, e, a) + tail);
    }
  }

  /** One more item of a detail's account list: pushed when its id is not empty. */
  lemma AddToAccountsStep(acc: AccountJobs, items: seq<AccountItem>, e: WaitingJob, k: nat)
    requires k < |items|
    ensures AddToAccounts(acc, AccountIds(items[..k + 1]), e)
         == if items[k].adAccountId == "" then AddToAccounts(acc, AccountIds(items[..k]), e)
            else AddJob(AddToAccounts(acc, AccountIds(items[..k]), e), items[k].adAccountId, e)
  {
    var ids := AccountIds(items[..k]);
    assert items[..k + 1][..k] == items[..k];
    if items[k].adAccountId == "" {
      assert AccountIds(items[..k + 1]) == ids + [];
      assert ids + [] == ids;
    } else {
      assert AccountIds(items[..k + 1]) == ids + [items[k].adAccountId];
      assert (ids + [items[k].adAccountId])[..|ids|] == ids;
    }
  }

  /** Fold one outcome into the map. */
  function Accumulate(acc: AccountJobs, o: JobOutcome): AccountJobs {
    match o
    case Skipped => acc
    case Contributes(e, ids) => AddToAccounts(acc, ids, e)
  }

  /** What outcome `o` gives account `a`. */
  function Contribution(o: JobOutcome, a: string): seq<WaitingJob> {
    match o
    case Skipped => []
    case Contributes(e, ids) => ContributionOf(ids, e, a)
  }

  /** Everything account `a` receives from the outcomes, in outcome order: the reference for a group's jobs. */
  function ContributedTo(os: seq<JobOutcome>, a: string): seq<WaitingJob> {
    if |os| == 0 then [] else ContributedTo(os[..|os| - 1], a) + Contribution(os[|os| - 1], a)
  }

  /** The map after folding the outcomes in order. */
  function GroupOutcomes(os: seq<JobOutcome>): (r: AccountJobs)
    ensures WellFormed(r)
  {
    if |os| == 0 then NoAccountJobs else Accumulate(GroupOutcomes(os[..|os| - 1]), os[|os| - 1])
  }

  /** After the fold, each account's list is exactly what it received, in outcome order. */
  lemma {:induction false} GroupOutcomesAt(os: seq<JobOutcome>, a: string)
    ensures Jobs(GroupOutcomes(os), a) == ContributedTo(os, a)
  {
    if |os| > 0 {
      var init := os[..|os| - 1];
      GroupOutcomesAt(init, a);
      match os[|os| - 1]
      case Skipped =>
        assert ContributedTo(init, a) + [] == ContributedTo(init, a);
      case Contributes(e, ids) =>
        AddToAccountsAt(GroupOutcomes(init), ids, e, a);
    }
  }

  /** An entry reaches account `a` exactly when some contributing job has it and lists `a`. */
  lemma {:induction false} ContributedToMembers(os: seq<JobOutcome>, a: string, x: WaitingJob)
    ensures x in ContributedTo(os, a) <==>
            exists i :: 0 <= i < |os| && os[i].Contributes? && os[i].entry == x && a in os[i].accountIds
  {
    if |os| > 0 {
      var init := os[..|os| - 1];
      var last := os[|os| - 1];
      ContributedToMembers(init, a, x);
      assert forall i :: 0 <= i < |init| ==> init[i] == os[i];
      if x in Contribution(last, a) {
        assert last.Contributes? && last.entry == x && a in last.accountIds;
        assert os[|os| - 1] == last;
      }
      if exists i :: 0 <= i < |os| && os[i].Contributes? && os[i].entry == x && a in os[i].accountIds {
        var i :| 0 <= i < |os| && os[i].Contributes? && os[i].entry == x && a in os[i].accountIds;
        if i == |os| - 1 {
          var c := ContributionOf(last.accountIds, x, a);
          assert c[0] == x;
        }
      }
    }
  }

  /** Folding two runs of outcomes one after the other adds up their contributions. */
  lemma {:induction false} ContributedToSplit(p: seq<JobOutcome>, q: seq<JobOutcome>, a: string)
    ensures ContributedTo(p + q, a) == ContributedTo(p, a) + ContributedTo(q, a)
    decreases |q|
  {
    if |q| == 0 {
      assert p + q == p;
    } else {
      var qi := q[..|q| - 1];
      assert (p + q)[..|p + q| - 1] == p + qi;
      assert (p + q)[|p + q| - 1] == q[|q| - 1];
      ContributedToSplit(p, qi, a);
    }
  }

  /**
   * The detail requests run concurrently, so outcomes arrive in any order;
   * what each account receives is the same, up to order, for every order.
   */
  lemma {:induction false} ContributedToPermutation(os1: seq<JobOutcome>, os2: seq<JobOutcome>, a: string)
    requires multiset(os1) == multiset(os2)
    ensures multiset(ContributedTo(os1, a)) == multiset(ContributedTo(os2, a))
    decreases |os1|
  {
    if |os1| == 0 {
      assert |os2| == |multiset(os2)| == 0;
    } else {
      var x := os1[|os1| - 1];
      var init := os1[..|os1| - 1];
      assert x in multiset(os2);
      var k :| 0 <= k < |os2| && os2[k] == x;
      var before, after := os2[..k], os2[k + 1..];
      RemoveOne(os1, os2, k);
      ContributedToPermutation(init, before + after, a);
      assert os2 == (before + [x]) + after;
      ContributedToSplit(before + [x], after, a);
      assert (before + [x])[..|before|] == before;
      ContributedToSplit(before, after, a);
    }
  }

  /** Taking the last outcome of one run and its copy at `k` in the other leaves equal multisets. */
  lemma RemoveOne(os1: seq<JobOutcome>, os2: seq<JobOutcome>, k: nat)
    requires multiset(os1) == multiset(os2) && |os1| > 0 && k < |os2| && os2[k] == os1[|os1| - 1]
    ensures multiset(os1[..|os1| - 1]) == multiset(os2[..k] + os2[k + 1..])
  {
    var x := os2[k];
    assert os1 == os1[..|os1| - 1] + [x];
    assert os2 == os2[..k] + [x] + os2[k + 1..];
    assert multiset(os1[..|os1| - 1]) == multiset(os1) - multiset{x};
    assert multiset(os2[..k] + os2[k + 1..]) == multiset(os2) - multiset{x};
  }

  /** Ascending by scheduled time. */
  predicate Sorted(s: seq<WaitingJob>) {
    forall i, j :: 0 <= i < j < |s| ==> s[i].scheduledExecutionTime <= s[j].scheduledExecutionTime
  }

  /** Putting a job no later than any job of a sorted list in front keeps it sorted. */
  lemma SortedCons(x: WaitingJob, t: seq<WaitingJob>)
    requires Sorted(t)
    requires forall y :: y in t ==> x.scheduledExecutionTime <= y.scheduledExecutionTime
    ensures Sorted([x] + t)
  {
    forall i, j | 0 <= i < j < |[x] + t|
      ensures ([x] + t)[i].scheduledExecutionTime <= ([x] + t)[j].scheduledExecutionTime
    {
      assert ([x] + t)[j] == t[j - 1];
      if i > 0 {
        assert ([x] + t)[i] == t[i - 1];
      }
    }
  }

  /** Insert `e` after every element of `s` not later than it. */
  function Insert(e: WaitingJob, s: seq<WaitingJob>): (r: seq<WaitingJob>)
    ensures multiset(r) == multiset(s) + multiset{e}
    ensures forall x :: x in r ==> x in s || x == e
    ensures Sorted(s) ==> Sorted(r)
  {
    if |s| == 0 || e.scheduledExecutionTime < s[0].scheduledExecutionTime then
      assert Sorted(s) ==> forall y :: y in s ==> e.scheduledExecutionTime <= y.scheduledExecutionTime;
      if Sorted(s) then SortedCons(e, s); [e] + s else [e] + s
    else
      var rest := Insert(e, s[1..]);
      assert s == [s[0]] + s[1..];
      assert Sorted(s) ==> Sorted(s[1..]) && forall y :: y in rest ==> s[0].scheduledExecutionTime <= y.scheduledExecutionTime;
      if Sorted(s) then SortedCons(s[0], rest); [s[0]] + rest else [s[0]] + rest
  }

  /**
   * The list's sort by ascending scheduled time (a stable sort, as the
   * runtime's is): sorted, and a permutation of its input.
   */
  function SortByTime(s: seq<WaitingJob>): (r: seq<WaitingJob>)
    ensures Sorted(r)
    ensures multiset(r) == multiset(s)
  {
    if |s| == 0 then []
    else
      assert s == s[..|s| - 1] + [s[|s| - 1]];
      Insert(s[|s| - 1], SortByTime(s[..|s| - 1]))
  }

  /** A group as emitted: non-empty, sorted, the first job's time first, the check `lead` minutes before it. */
  predicate WellFormedGroup(g: AccountJobGroup, lead: int) {
    && |g.jobs| > 0
    && Sorted(g.jobs)
    && g.earliestExecutionTime == g.jobs[0].scheduledExecutionTime
    && g.checkTime + lead * MillisPerMinute == g.earliestExecutionTime
  }

  /** The group of account `id` for its list of jobs. */
  function MakeGroup(id: string, jobs: seq<WaitingJob>, lead: int): (g: AccountJobGroup)
    requires |jobs| > 0
    ensures WellFormedGroup(g, lead)
    ensures g.adAccountId == id && multiset(g.jobs) == multiset(jobs)
  {
    var sorted := SortByTime(jobs);
    assert jobs[0] in multiset(sorted);
    var earliest := sorted[0].scheduledExecutionTime;
    AccountJobGroup(id, sorted, earliest, MinutesBefore(earliest, lead))
  }

  /** The groups of the accounts `ids`, in that order; an account with an empty list gives none. */
  function GroupsFor(acc: AccountJobs, ids: seq<string>, lead: int): (r: seq<AccountJobGroup>)
    ensures forall i :: 0 <= i < |r| ==> WellFormedGroup(r[i], lead)
    ensures forall i :: 0 <= i < |r| ==>
              r[i].adAccountId in ids && multiset(r[i].jobs) == multiset(Jobs(acc, r[i].adAccountId))
  {
    if |ids| == 0 then []
    else
      var init := ids[..|ids| - 1];
      var id := ids[|ids| - 1];
      var front := GroupsFor(acc, init, lead);
      assert forall a :: a in init ==> a in ids;
      front + (if |Jobs(acc, id)| == 0 then [] else [MakeGroup(id, Jobs(acc, id), lead)])
  }

  /** One more account of the order: its group follows the others, unless its list is empty. */
  lemma GroupsForStep(acc: AccountJobs, ids: seq<string>, lead: int, n: nat)
    requires n < |ids|
    ensures GroupsFor(acc, ids[..n + 1], lead)
         == GroupsFor(acc, ids[..n], lead)
            + (if |Jobs(acc, ids[n])| == 0 then [] else [MakeGroup(ids[n], Jobs(acc, ids[n]), lead)])
  {
    assert ids[..n + 1][..n] == ids[..n];
  }

  /** Every account of `ids` whose list is non-empty gets a group. */
  lemma {:induction false} GroupsForCovers(acc: AccountJobs, ids: seq<string>, lead: int, a: string)
    requires a in ids && |Jobs(acc, a)| > 0
    ensures exists i :: 0 <= i < |GroupsFor(acc, ids, lead)| && GroupsFor(acc, ids, lead)[i].adAccountId == a
  {
    var init := ids[..|ids| - 1];
    var r := GroupsFor(acc, ids, lead);
    if ids[|ids| - 1] == a {
      assert r[|r| - 1].adAccountId == a;
    } else {
      assert a in init by {
        var k :| 0 <= k < |ids| && ids[k] == a;
        assert init[k] == a;
      }
      GroupsForCovers(acc, init, lead, a);
      var i :| 0 <= i < |GroupsFor(acc, init, lead)| && GroupsFor(acc, init, lead)[i].adAccountId == a;
      assert r[i] == GroupsFor(acc, init, lead)[i];
    }
  }

  /** No two groups are for the same account. */
  predicate DistinctAccounts(gs: seq<AccountJobGroup>) {
    forall i, j :: 0 <= i < j < |gs| ==> gs[i].adAccountId != gs[j].adAccountId
  }

  /** Distinct accounts give groups of distinct accounts. */
  lemma {:induction false} GroupsForDistinct(acc: AccountJobs, ids: seq<string>, lead: int)
    requires forall i, j :: 0 <= i < j < |ids| ==> ids[i] != ids[j]
    ensures DistinctAccounts(GroupsFor(acc, ids, lead))
  {
    if |ids| > 0 {
      var init := ids[..|ids| - 1];
      var id := ids[|ids| - 1];
      var front := GroupsFor(acc, init, lead);
      var r := GroupsFor(acc, ids, lead);
      assert forall i, j :: 0 <= i < j < |init| ==> init[i] != init[j] by {
        forall i, j | 0 <= i < j < |init| ensures init[i] != init[j] {
          assert init[i] == ids[i] && init[j] == ids[j];
        }
      }
      GroupsForDistinct(acc, init, lead);
      assert id !in init;
      if |Jobs(acc, id)| == 0 {
        assert r == front;
      } else {
        assert r == front + [MakeGroup(id, Jobs(acc, id), lead)];
      }
      forall i, j | 0 <= i < j < |r| ensures r[i].adAccountId != r[j].adAccountId {
        assert r[i] == front[i];
        assert r[i].adAccountId in init;
        if j < |front| {
          assert r[j] == front[j];
          assert front[i].adAccountId != front[j].adAccountId;
        } else {
          assert r[j].adAccountId == id;
          assert r[i].adAccountId != id;
        }
      }
    }
  }

  /** `buildAccountJobGroups` after the fan-out: the groups of the folded outcomes, in first-insertion order. */
  function AccountJobGroups(os: seq<JobOutcome>, lead: int): (gs: seq<AccountJobGroup>)
    ensures forall i :: 0 <= i < |gs| ==> WellFormedGroup(gs[i], lead)
    ensures DistinctAccounts(gs)
  {
    var acc := GroupOutcomes(os);
    GroupsForDistinct(acc, acc.order, lead);
    GroupsFor(acc, acc.order, lead)
  }

  /** The jobs of each group are, up to order, exactly what its account received. */
  predicate HoldsContribution(os: seq<JobOutcome>, g: AccountJobGroup) {
    multiset(g.jobs) == multiset(ContributedTo(os, g.adAccountId))
  }

  /** Every group is well formed and holds, up to order, exactly what its account received. */
  lemma {:induction false} GroupsHoldContributions(os: seq<JobOutcome>, lead: int)
    ensures var gs := AccountJobGroups(os, lead);
      forall i :: 0 <= i < |gs| ==> WellFormedGroup(gs[i], lead) && HoldsContribution(os, gs[i])
  {
    var acc := GroupOutcomes(os);
    var gs := GroupsFor(acc, acc.order, lead);
    forall i | 0 <= i < |gs| ensures HoldsContribution(os, gs[i]) {
      GroupOutcomesAt(os, gs[i].adAccountId);
    }
  }

  /** An account gets a group exactly when it received at least one job. */
  lemma {:induction false} GroupAccountsReceived(os: seq<JobOutcome>, lead: int, a: string)
    ensures var gs := AccountJobGroups(os, lead);
      (exists i :: 0 <= i < |gs| && gs[i].adAccountId == a) <==> |ContributedTo(os, a)| > 0
  {
    var acc := GroupOutcomes(os);
    GroupOutcomesAt(os, a);
    if i :| 0 <= i < |AccountJobGroups(os, lead)| && AccountJobGroups(os, lead)[i].adAccountId == a {
      GroupReceived(acc, lead, a, i);
    }
    if |ContributedTo(os, a)| > 0 {
      assert a in acc.lists;
      GroupsForCovers(acc, acc.order, lead, a);
    }
  }

  /** A group's account has a non-empty list. */
  lemma GroupReceived(acc: AccountJobs, lead: int, a: string, i: nat)
    requires i < |GroupsFor(acc, acc.order, lead)| && GroupsFor(acc, acc.order, lead)[i].adAccountId == a
    ensures |Jobs(acc, a)| > 0
  {
    var g := GroupsFor(acc, acc.order, lead)[i];
    assert g.jobs[0] in multiset(Jobs(acc, a));
  }

  /** An account's earliest time is the earliest of the jobs it received. */
  lemma {:induction false} EarliestIsMinimum(os: seq<JobOutcome>, lead: int, i: nat)
    requires i < |AccountJobGroups(os, lead)|
    ensures var g := AccountJobGroups(os, lead)[i];
      && (forall x :: x in ContributedTo(os, g.adAccountId) ==> g.earliestExecutionTime <= x.scheduledExecutionTime)
      && (exists x :: x in ContributedTo(os, g.adAccountId) && x.scheduledExecutionTime == g.earliestExecutionTime)
  {
    var g := AccountJobGroups(os, lead)[i];
    GroupsHoldContributions(os, lead);
    forall x | x in ContributedTo(os, g.adAccountId) ensures g.earliestExecutionTime <= x.scheduledExecutionTime {
      assert x in multiset(g.jobs);
      var k :| 0 <= k < |g.jobs| && g.jobs[k] == x;
      assert k == 0 || g.jobs[0].scheduledExecutionTime <= g.jobs[k].scheduledExecutionTime;
    }
    assert g.jobs[0] in multiset(ContributedTo(os, g.adAccountId));
  }

  /** Two sorted lists holding the same jobs start at the same time. */
  lemma {:induction false} SortedSameFirst(s: seq<WaitingJob>, t: seq<WaitingJob>)
    requires Sorted(s) && Sorted(t) && |s| > 0 && multiset(s) == multiset(t)
    ensures |t| > 0 && s[0].scheduledExecutionTime == t[0].scheduledExecutionTime
  {
    assert s[0] in multiset(t);
    var i :| 0 <= i < |t| && t[i] == s[0];
    assert t[0] in multiset(s);
    var j :| 0 <= j < |s| && s[j] == t[0];
    assert i == 0 || t[0].scheduledExecutionTime <= t[i].scheduledExecutionTime;
    assert j == 0 || s[0].scheduledExecutionTime <= s[j].scheduledExecutionTime;
  }

  /**
   * Whatever order the jobs' outcomes arrive in, the same accounts get a
   * group, and each account's group holds the same jobs (up to the order of
   * equal times), the same earliest time and the same check time.
   */
  lemma {:induction false} GroupsOrderIndependent(os1: seq<JobOutcome>, os2: seq<JobOutcome>, lead: int, i: nat, j: nat)
    requires multiset(os1) == multiset(os2)
    requires i < |AccountJobGroups(os1, lead)| && j < |AccountJobGroups(os2, lead)|
    requires AccountJobGroups(os1, lead)[i].adAccountId == AccountJobGroups(os2, lead)[j].adAccountId
    ensures var g1, g2 := AccountJobGroups(os1, lead)[i], AccountJobGroups(os2, lead)[j];
      && multiset(g1.jobs) == multiset(g2.jobs)
      && g1.earliestExecutionTime == g2.earliestExecutionTime
      && g1.checkTime == g2.checkTime
  {
    var g1, g2 := AccountJobGroups(os1, lead)[i], AccountJobGroups(os2, lead)[j];
    GroupsHoldContributions(os1, lead);
    GroupsHoldContributions(os2, lead);
    ContributedToPermutation(os1, os2, g1.adAccountId);
    SortedSameFirst(g1.jobs, g2.jobs);
  }

  /** The accounts that get a group do not depend on the order of the outcomes either. */
  lemma {:induction false} GroupAccountsOrderIndependent(os1: seq<JobOutcome>, os2: seq<JobOutcome>, lead: int, a: string)
    requires multiset(os1) == multiset(os2)
    ensures (exists i :: 0 <= i < |AccountJobGroups(os1, lead)| && AccountJobGroups(os1, lead)[i].adAccountId == a)
        <==> (exists j :: 0 <= j < |AccountJobGroups(os2, lead)| && AccountJobGroups(os2, lead)[j].adAccountId == a)
  {
    GroupAccountsReceived(os1, lead, a);
    GroupAccountsReceived(os2, lead, a);
    ContributedToPermutation(os1, os2, a);
    assert |ContributedTo(os1, a)| == |multiset(ContributedTo(os1, a))|;
    assert |ContributedTo(os2, a)| == |multiset(ContributedTo(os2, a))|;
  }
}
