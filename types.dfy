/**
 * The records exchanged with the remote job and account services, and the
 * records the scheduler derives from them (src/types.ts). Field names follow
 * the wire format, written in camel case. Optional wire fields are `Option`s;
 * fields that no modelled code reads are left out.
 */
module Types {
  import opened Wrappers

  /** An instant: milliseconds since the Unix epoch. */
  type Instant = int

  /**
   * The envelope `{code, message, data?}` every endpoint answers with, or the
   * transport failure that makes the HTTP client throw.
   */
  datatype HttpResponse<T> =
    | TransportError
    | Reply(code: int, message: string, data: Option<T>)

  /** One job of the job list (JobSummary). */
  datatype JobSummary = JobSummary(
    id: int,
    isScheduled: bool,
    scheduledExecutionTime: Option<string>,
    status: string)

  /** The `data` of a job-list page; its `list` may be missing. */
  datatype JobListData = JobListData(list: Option<seq<JobSummary>>)

  /** One account associated with a job (AccountItem). */
  datatype AccountItem = AccountItem(id: int, adAccountId: string)

  /** The `data` of a job-detail reply; its `account_list` may be missing. */
  datatype JobDetail = JobDetail(accountList: Option<seq<AccountItem>>)

  /** One record of the account list (AccountRecord). */
  datatype AccountRecord = AccountRecord(
    id: int,
    adAccountId: string,
    status: int,
    createUserName: Option<string>,
    companyShortName: Option<string>)

  /** The `data` of an account-list reply. */
  datatype AccountListData = AccountListData(list: seq<AccountRecord>)

  /** The (empty) `data` of an account-status reply. */
  datatype StatusData = StatusData

  /** A job paired with its parsed execution instant (WaitingJob). */
  datatype WaitingJob = WaitingJob(jobId: int, scheduledExecutionTime: Instant)

  /** All waiting jobs of one account, earliest first (AccountJobGroup). */
  datatype AccountJobGroup = AccountJobGroup(
    adAccountId: string,
    jobs: seq<WaitingJob>,
    earliestExecutionTime: Instant,
    checkTime: Instant)
}
