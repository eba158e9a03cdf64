# Account-check scheduler, modelled in Dafny

This project models the core of `build-account-check`, a small service with
two jobs:

- On each poll, it lists the batch jobs that are waiting and scheduled.
- It arms one timer per advertising account a few minutes before that
  account's earliest job runs.

When a timer fires, the service:

- optionally re-confirms that the account still has a waiting job;
- looks the account up, filtered by creator-name keywords and company short
  name;
- sends one "enable" request if the account is not already enabled
  (status 1).

The model follows the program's files:

| module | file | form |
|---|---|---|
| `Wrappers`, `Types` | `types.dfy`, `wrappers.dfy` | `Option`/`Result`; the wire records of `src/types.ts` as datatypes |
| `Time` | `time.dfy` | strict `YYYY/MM/DD HH:mm` parsing into millisecond instants, lead-time offsets, timer delays |
| `Config` | `config.dfy` | the boolean-setting normaliser; the validated configuration the core reads |
| `Logger` | `logger.dfy` | the level threshold |
| `JobService` | `job_service.dfy` | the paginated listing loop (a method proved against `CollectFrom`) and detail validation |
| `AccountService` | `account_service.dfy` | the account lookup and the enable call |
| `Grouping` | `grouping.dfy` | the specification of `buildAccountJobGroups`: fold of job outcomes into per-account lists, sort, group construction |
| `Reconciliation` | `reconcile.dfy` | the specification of `applySchedules` on a value `TimerState` (entries, pending timers, next handle) |
| `Scheduler` | `scheduler.dfy` | the imperative core: `RecordJob`, `BuildAccountJobGroups`, `ConfirmAccountHasWaitingJobs`, and the class `AccountCheckScheduler` |

`AccountCheckScheduler` holds three fields that its methods update in place:

- `accountTimers`, the account-to-entry map;
- `armed`, the runtime's pending timers;
- `nextHandle`, the handle the next `setTimeout` returns.

Replies of the remote services are inputs:

- the list pages are a sequence;
- the detail endpoint is a function from job id to reply;
- the account list and the status replies are single values.

The current time is also an input, and so is the offset from UTC of the
zone the process runs in (`zoneOffset`), since job times are read in that
zone. Detail requests run concurrently in the source. Their completion order
is an input too: any permutation `arrived` of the listed jobs. The grouping
lemmas prove that each account's group does not depend on that order: the
same accounts get a group, and each account's group has the same jobs (up to
the order of jobs with equal times), the same earliest time and the same
check time. The order of the groups in the returned sequence does follow
first arrival, and so does the order in which timer handles are issued.

Timers are armed with the delay Node's `setTimeout` actually waits: a delay
above 2^31 - 1 milliseconds (about 24.8 days) or below 1 becomes 1
millisecond (`Reconciliation.TimerDelay`). So a check time more than about
24.8 days ahead fires 1 millisecond after it is armed
(`Reconciliation.DistantCheckFiresAtOnce`). The check for that account then
runs at once, and each later poll re-arms it the same way.

## Model

| member | source | states |
|---|---|---|
| Time.ParseScheduledTime | src/time.ts:12-21 | absent or empty text gives nothing; a value is returned exactly when the text is a strict, existing `YYYY/MM/DD HH:mm`; the instant shows that reading on a clock in the process's zone |
| Time.ParseFields | src/time.ts:16-17 | whatever is accepted has the `YYYY/MM/DD HH:mm` shape and denotes an existing date (year 100 to 9999) and clock time |
| Time.ParseShanghaiTime | src/time.ts:12-21 | the intended reading in Asia/Shanghai: defined exactly for strictly well-formed text |
| Time.ShanghaiTimeReadsBack | src/time.ts:16-20 | the parsed instant shows, on a Shanghai clock, exactly the written reading and no other; the reading re-renders to the original text |
| Time.ProcessZoneMisreadsShanghaiTime | src/time.ts:16-20 | as written, in any other process zone the instant is off by the zone difference and does not show the written reading in Shanghai |
| Time.ParseThenFormat | src/time.ts:16-17 | strict parsing: whatever is accepted is a valid date and re-renders to exactly its text |
| Time.FormatThenParse | src/time.ts:16-17 | every valid reading is accepted in its own rendering |
| Time.WallClockOrder | src/time.ts:20 | an earlier wall-clock reading denotes a strictly earlier instant |
| Time.WallClockUnique | src/time.ts:20 | an instant shows at most one reading in a fixed zone |
| Time.MinutesBefore | src/time.ts:23-24 | the result plus the lead in milliseconds is the input; a positive lead is strictly earlier |
| Time.MinutesBeforeSameDay | src/time.ts:23-24 | going back within a day moves the wall-clock reading back by the same minutes |
| Time.LeadTimeExample | src/time.ts:23-24 | `2024/05/01 10:00` with lead 3 is checked at `2024/05/01 09:57` |
| Time.MillisUntil | src/time.ts:26 | the delay is never negative, is zero exactly for past or present instants, and otherwise reaches the instant |
| Time.MillisUntilMonotone | src/time.ts:26 | later instants never get shorter delays |
| Config.ParseBoolSetting | src/config.ts:6-25 | absent defaults to true; booleans pass; numbers are true iff 1; strings mean true iff their normalised form is one of `1 true yes y`, false iff one of `0 false no n`; anything else fails |
| Config.ParseBoolIgnoresPadding | src/config.ts:15 | surrounding white space never changes the setting's meaning |
| Config.LowerAsciiIdempotent | src/config.ts:15 | lower-casing twice is lower-casing once |
| Config.ParseBoolIgnoresCase | src/config.ts:15 | upper- and lower-case spellings of a string setting mean the same |
| Config.TrimLowerCommute | src/config.ts:15 | trimming and lower-casing can be done in either order |
| Config.ParseBoolExamples | src/config.ts:15-21 | `" Yes "` is true, `"No"` is false, `""` fails |
| Logger.Rank | src/logger.ts:5-10 | ranks are the multiples of ten from 10 to 40 |
| Logger.RanksStrictlyOrdered | src/logger.ts:5-10 | debug < info < warn < error |
| Logger.ShouldLog | src/logger.ts:14 | errors always print; a level prints at its own threshold; debug prints only at threshold debug |
| Logger.ShouldLogUpwardClosed | src/logger.ts:14 | if a level prints, every more severe level prints |
| Logger.ShouldLogAntitone | src/logger.ts:14 | raising the threshold never prints more |
| JobService.WaitingOnly | src/services/jobService.ts:47-49 | keeps only jobs with status `Waiting`, scheduled and with a non-empty time, and every such job |
| JobService.WaitingOnlyOne | src/services/jobService.ts:47-49 | a single job is kept exactly when it passes the filter |
| JobService.WaitingOnlyAppend | src/services/jobService.ts:47-49 | filtering distributes over concatenation, so the kept jobs stay in list order with their repeats |
| JobService.PageList | src/services/jobService.ts:39-46 | a page fails exactly on a transport error, a non-zero code or missing data |
| JobService.FirstStopFrom | src/services/jobService.ts:52-56 | the first page that fails or is short |
| JobService.CollectFrom | src/services/jobService.ts:13-61 | a successful listing holds only waiting scheduled jobs |
| JobService.CollectFailsIffStopPageFails | src/services/jobService.ts:29-44 | the listing fails exactly when the page that ends it fails, and with that page's error |
| JobService.CollectIsConcatenation | src/services/jobService.ts:46-56 | a successful listing is the in-order concatenation of the filtered pages up to the short page |
| JobService.FetchWaitingJobs | src/services/jobService.ts:13-61 | the loop returns `CollectFrom` and sends exactly one request per page up to the one that ends the listing |
| JobService.FetchJobDetail | src/services/jobService.ts:63-91 | a detail is returned exactly for a code-0 reply with data and a non-empty account list, and it is that data |
| AccountService.IncludesIffOccurs | src/services/accountService.ts:50-52 | `includes` holds exactly when the keyword occurs at some position |
| AccountService.FirstMatch | src/services/accountService.ts:48-57 | the index of the first record passing both filters, or none exactly when no record passes |
| AccountService.FindTargetAccount | src/services/accountService.ts:10-68 | failed replies give nothing; a result passes both filters and is the first such record; none exactly when no record passes |
| AccountService.FindTargetAccountAsDeclared | src/services/accountService.ts:48-65 | with the keyword setting declared as one string, the lookup succeeds exactly on failed replies and then returns nothing; every successful reply throws |
| AccountService.DeclaredKeywordCounterexample | src/services/accountService.ts:48-65 | a reply whose one record matches is found with a keyword list and throws with the declared string |
| AccountService.EnableAccount | src/services/accountService.ts:70-98 | always requests status 1 for the given id; succeeds exactly on a code-0 reply |
| Grouping.AccountIds | src/scheduler.ts:47-57 | holds only non-empty ids the detail lists, and every such id |
| Grouping.AccountIdsOne | src/scheduler.ts:47-50 | one item gives its id, or nothing when the id is empty |
| Grouping.AccountIdsAppend | src/scheduler.ts:47-57 | ids of concatenated lists concatenate, so ids keep list order and an id listed twice is pushed twice |
| Grouping.JobResult | src/scheduler.ts:35-57 | a job is skipped exactly when its time does not parse in the host zone or its detail is invalid; otherwise its id and parsed time go to the detail's ids in list order, which are exactly the non-empty ids it lists |
| Grouping.ShanghaiHostEntries | src/scheduler.ts:35 | on a UTC+8 host a recorded job time shows, on a Shanghai clock, exactly its written reading |
| Grouping.AddJob | src/scheduler.ts:51-56 | pushes onto one account's list, creating it at the end of the order when new, leaving the order alone otherwise, and leaves the other lists alone |
| Grouping.AddToAccountsAt | src/scheduler.ts:47-57 | after one detail, each account's list gains the entry once per time the detail lists it |
| Grouping.GroupOutcomes | src/scheduler.ts:31-58 | the map stays well formed: distinct order, keys equal to the order, no empty list |
| Grouping.GroupOutcomesAt | src/scheduler.ts:34-58 | each account's list is exactly what the outcomes contributed to it, in completion order |
| Grouping.ContributedToMembers | src/scheduler.ts:34-58 | an entry reaches an account exactly when some contributing job has it and lists the account |
| Grouping.ContributedToSplit | src/scheduler.ts:34-58 | contributions of consecutive outcome runs concatenate |
| Grouping.ContributedToPermutation | src/scheduler.ts:34-58 | reordering the outcomes permutes each account's list |
| Grouping.Insert | src/scheduler.ts:68-70 | inserting keeps the list sorted and adds exactly the one entry |
| Grouping.SortByTime | src/scheduler.ts:68-70 | the result is sorted by time and a permutation of the input |
| Grouping.MakeGroup | src/scheduler.ts:71-82 | the group is well formed: sorted, earliest time first, check time the lead before it |
| Grouping.GroupsFor | src/scheduler.ts:63-85 | every group is well formed, for an account of the order, holding that account's jobs |
| Grouping.GroupsForCovers | src/scheduler.ts:63-67 | every account of the order with a non-empty list gets a group |
| Grouping.GroupsForDistinct | src/scheduler.ts:63-85 | distinct accounts give groups of distinct accounts |
| Grouping.GroupsHoldContributions | src/scheduler.ts:60-85 | every group is well formed and holds exactly, up to order, what its account received |
| Grouping.AccountJobGroups | src/scheduler.ts:30-86 | every group is well formed and no two groups share an account |
| Grouping.GroupAccountsReceived | src/scheduler.ts:63-67 | an account has a group exactly when it received at least one job |
| Grouping.EarliestIsMinimum | src/scheduler.ts:68-76 | the earliest time is the minimum time of the account's jobs and is attained |
| Grouping.SortedSameFirst | src/scheduler.ts:68-75 | sorted permutations start at the same time |
| Grouping.GroupsOrderIndependent | src/scheduler.ts:34-85 | whatever order details complete in, an account's group has the same jobs, earliest time and check time |
| Grouping.GroupAccountsOrderIndependent | src/scheduler.ts:34-85 | whatever order details complete in, the same accounts get groups |
| Reconciliation.ApplyGroup | src/scheduler.ts:91-126 | an existing entry due no later is kept; otherwise the old timer is cleared, a fresh one armed with the delay to the check time as Node clamps it, and the entry replaced; the check time becomes the earlier of the two; other accounts are untouched; consistency is kept |
| Reconciliation.ApplyGroups | src/scheduler.ts:91-126 | keys become the old keys plus the named accounts; unnamed entries are untouched; consistency is kept |
| Reconciliation.TimerDelay | src/scheduler.ts:107-112 | the delay Node waits is between 1 and 2^31 - 1; a request in that range is kept and a longer one becomes 1 |
| Reconciliation.ArmedForCheckTime | src/scheduler.ts:107-112 | a check time at most 2^31 - 1 ms ahead fires exactly at that time; a due one fires after 1 ms |
| Reconciliation.DistantCheckFiresAtOnce | src/scheduler.ts:107-112 | a check time more than 2^31 - 1 ms ahead fires after 1 ms, long before it is due |
| Reconciliation.RemoveAbsent | src/scheduler.ts:128-144 | keeps exactly the named accounts, unchanged, and clears the timers of the dropped ones |
| Reconciliation.RemoveAbsentConsistent | src/scheduler.ts:128-144 | removing absent accounts keeps entries and pending timers in one-to-one correspondence |
| Reconciliation.Reconcile | src/scheduler.ts:88-145 | afterwards the map holds exactly the accounts the groups name, and a consistent state stays consistent |
| Reconciliation.ReconcileByGone | src/scheduler.ts:128-144 | dropping the collected absent accounts with their timers is reconciliation, and it keeps exactly the named accounts |
| Reconciliation.ReconcileClearsRemoved | src/scheduler.ts:128-144 | an account no group names is dropped and its timer is no longer pending |
| Reconciliation.ReconcileGroup | src/scheduler.ts:91-126 | per group: the check time becomes the earlier one; a kept entry keeps its timer; a replaced one has a fresh timer with the right delay and the old timer cleared |
| Reconciliation.ApplyGroupsAppend | src/scheduler.ts:91 | groups are applied one after another |
| Reconciliation.AppliedNoLater | src/scheduler.ts:94 | every named account ends due no later than its group |
| Reconciliation.AllKeptUnchanged | src/scheduler.ts:94-101 | groups that all keep their entries change nothing |
| Reconciliation.ReconcileIdempotent | src/scheduler.ts:88-145 | reconciling again with the same groups, at any later time, changes nothing |
| Scheduler.RecordJob | src/scheduler.ts:34-57 | the job callback performs exactly one fold step of the specification |
| Scheduler.StillWaiting | src/scheduler.ts:183-195 | fails exactly when the listing fails, with the error of the page that ended it; otherwise true exactly when some listed waiting job has a valid detail that lists the account |
| Scheduler.BuildAccountJobGroups | src/scheduler.ts:30-86 | the groups are those of the outcomes in completion order; each is well formed and holds what its account received; accounts are distinct |
| Scheduler.ConfirmAccountHasWaitingJobs | src/scheduler.ts:183-195 | the answer is whether some listed job's valid detail lists the account; failures propagate; it stops at the first such job |
| Scheduler.AccountCheck | src/scheduler.ts:155-180 | an enable request is sent exactly when the recheck (if on) is positive and a matching account is not yet enabled; the request is for status 1 of a record passing both filters |
| Scheduler.AccountCheckScheduler.constructor | src/scheduler.ts:16 | the map and the pending timers start empty and consistent |
| Scheduler.AccountCheckScheduler.SetTimeout | src/scheduler.ts:108-112 | a fresh handle is pending for the account with the delay Node actually waits |
| Scheduler.AccountCheckScheduler.ClearTimeout | src/scheduler.ts:104 | the handle stops being pending; nothing else changes |
| Scheduler.AccountCheckScheduler.ScheduleGroup | src/scheduler.ts:92-125 | one group's step changes the state exactly as `ApplyGroup` |
| Scheduler.AccountCheckScheduler.ScheduleGroups | src/scheduler.ts:89-126 | the first loop yields the named accounts and the state `ApplyGroups` gives |
| Scheduler.AccountCheckScheduler.AccountsToRemove | src/scheduler.ts:128-133 | exactly the map's accounts that no group names |
| Scheduler.AccountCheckScheduler.RemoveAccounts | src/scheduler.ts:135-144 | those entries are deleted and exactly their timers cleared |
| Scheduler.AccountCheckScheduler.ApplySchedules | src/scheduler.ts:88-145 | the new state is `Reconcile` of the old one, it stays consistent, and the map holds exactly the named accounts |
| Scheduler.AccountCheckScheduler.HandleAccountCheck | src/scheduler.ts:147-181 | the entry is removed and the outcome is `AccountCheck` |
| Scheduler.AccountCheckScheduler.FireTimer | src/scheduler.ts:108-112 | a firing timer stops being pending, removes its account's entry, keeps the state consistent and checks that account |
| Scheduler.AccountCheckScheduler.PollAndSchedule | src/scheduler.ts:18-28 | a failed listing changes nothing; otherwise the groups of the arrived outcomes, with times read in the host zone, are returned and the state reconciled with them |

## Left out

- The entry point (`src/index.ts`) is not part of this model. This covers the poll interval, start-up and shutdown.
- The HTTP client is not modelled. Each request's reply is an input; URLs, team id, token and query parameters are not modelled. In particular, `findTargetAccount` passes the account id only as the search key of its request. The account-list reply is therefore an input of `FindTargetAccount`, and the id does not appear in it.
- `runWithConcurrency` (`src/utils/concurrency.ts`) is not part of this model. Its effect on the result is the completion order `arrived`, which may be any permutation of the listed jobs. A callback runs atomically between awaits. The concurrency limit is not modelled.
- Real timers and the event loop are not modelled. A timer firing is the separate step `FireTimer`. A poll and a firing never interleave; in the source they interleave only at awaits.
- The timer callback's error logging is not modelled. `FireTimer` requires the listing to end when the recheck is on. When the listing throws, the outcome is `RecheckFailed`.
- Logging output is not modelled. This covers `formatDateTime`, the timestamp, `console` and every log message. Only the threshold is modelled.
- Asia/Shanghai is modelled as a fixed UTC+8 offset. That holds since 1992; the zone database records daylight saving in 1986-1991 and earlier years, and times in those years are not modelled exactly. The process's own zone is a fixed `zoneOffset`, so zones with daylight saving are not captured.
- `Time.MinutesBefore`: lead times are whole minutes. Fractional minutes, which the configuration schema would accept, are not modelled.
- Years below 100 are rejected by strict parsing, because they never re-render to themselves.
- `Grouping.SortByTime`: the library sort is specified by its result, sorted and a permutation. The source sort is stable. The model's insertion sort also keeps equal times in arrival order, but no lemma states stability.
- `JobService.FetchWaitingJobs`: every caller must supply pages that end the listing (`EndsFrom`). A service that never answers a short page or an error would make the source loop forever, and that run is not modelled.
- `JobService.FetchJobDetail` is called once per job. The detail endpoint is a function, so a job id always gets the same reply within one step.
- The empty-list and empty-first-job guards in `buildAccountJobGroups` are dead code, because lists are never empty. The model keeps the empty-list test and omits the unreachable `firstJob` test.
- `Config.ParseBoolSetting`: `toLowerCase` is modelled for ASCII letters only. No other character lower-cases into one of the eight accepted words.
- Only the settings the core reads are modelled. The other fields of the configuration schema and the environment loading are not.
- Wire fields the core never reads are omitted from the datatypes.

## Findings

| source | as written | input that shows it | evidently intended | confidence | as-written member | corrected member |
|---|---|---|---|---|---|---|
| src/time.ts:16-20 | the text is parsed in the zone of the running process, and `.tz('Asia/Shanghai')` only changes the display zone, not the instant | `2024/05/01 10:00` on a host running in UTC gives 10:00Z, which is 18:00 in Shanghai | the reading is taken as Shanghai wall-clock time | not executed | Time.ProcessZoneMisreadsShanghaiTime | Time.ShanghaiTimeReadsBack |
| src/services/accountService.ts:50 | the configuration declares `ACCOUNT_FILTER_CREATE_USER_NAME` as a single string (src/config.ts:47), but the lookup calls `.some` on it (and `.join` in the warning) | a code-0 reply with one record, creator `alice`, company `Acme`, and the setting `alice`: `some` is not a function | a list of keywords, any one of which the creator name includes | not executed | AccountService.DeclaredKeywordCounterexample | AccountService.FindTargetAccount |

The scheduler reads job times as written, in the host zone `zoneOffset` (`Grouping.JobResult`, `Scheduler.AccountCheckScheduler.PollAndSchedule`). On a UTC+8 host that is the corrected reading (`Grouping.ShanghaiHostEntries`). The account lookup uses the corrected `FindTargetAccount` with a keyword list.
