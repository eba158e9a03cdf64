/**
 * The account source (src/services/accountService.ts): finding the account
 * record to act on, and classifying the reply to the enable request. The
 * reply to each request is an input.
 */
module AccountService {
  import opened Wrappers
  import opened Types

  /** The status value of an enabled account. */
  const EnabledStatus := 1

  /** JavaScript's `s.includes(k)`, by recursion on `s`. */
  predicate Includes(s: string, k: string)
    decreases |s|
  {
    k <= s || (|s| > 0 && Includes(s[1..], k))
  }

  /** `k` occurs in `s` at some position: the reference meaning of `Includes`. */
  predicate OccursAt(s: string, k: string, i: int) {
    0 <= i && i + |k| <= |s| && s[i..i + |k|] == k
  }

  /** `Includes` holds exactly when `k` occurs somewhere in `s`. */
  lemma {:induction false} IncludesIffOccurs(s: string, k: string)
    ensures Includes(s, k) <==> exists i :: OccursAt(s, k, i)
    decreases |s|
  {
    if k <= s {
      assert OccursAt(s, k, 0);
    } else if |s| > 0 {
      IncludesIffOccurs(s[1..], k);
      if Includes(s[1..], k) {
        var i :| OccursAt(s[1..], k, i);
        assert s[i + 1..i + 1 + |k|] == s[1..][i..i + |k|];
        assert OccursAt(s, k, i + 1);
      }
      if i :| OccursAt(s, k, i) {
        assert i != 0;
        assert s[1..][i - 1..i - 1 + |k|] == s[i..i + |k|];
        assert OccursAt(s[1..], k, i - 1);
      }
    }
  }

  /** The creator name (missing counts as empty) includes at least one keyword. */
  predicate MatchesCreateUser(record: AccountRecord, keywords: seq<string>) {
    exists i :: 0 <= i < |keywords| && Includes(record.createUserName.GetOr(""), keywords[i])
  }

  /** Both filters: a keyword in the creator name, and exactly the configured company. */
  predicate MatchesFilters(record: AccountRecord, keywords: seq<string>, company: string) {
    MatchesCreateUser(record, keywords) && record.companyShortName == Some(company)
  }

  /** The index of the first record in list order that passes both filters. */
  function FirstMatch(list: seq<AccountRecord>, keywords: seq<string>, company: string): (r: Option<nat>)
    ensures r.Some? ==> r.value < |list| && MatchesFilters(list[r.value], keywords, company)
    ensures r.Some? ==> forall j :: 0 <= j < r.value ==> !MatchesFilters(list[j], keywords, company)
    ensures r.None? <==> forall j :: 0 <= j < |list| ==> !MatchesFilters(list[j], keywords, company)
  {
    if |list| == 0 then None
    else if MatchesFilters(list[0], keywords, company) then Some(0)
    else
      match FirstMatch(list[1..], keywords, company)
      case None => None
      case Some(k) => Some(k + 1)
  }

  /** The reply carries a list: no transport error, code 0, data present. */
  predicate Succeeded<T>(response: HttpResponse<T>) {
    response.Reply? && response.code == 0 && response.data.Some?
  }

  /**
   * `findTargetAccount`, with the creator-name filter a list of keywords: a
   * transport error, a non-zero code or missing data give `None`; otherwise
   * the first record in list order that passes both filters, if any.
   */
  function FindTargetAccount(response: HttpResponse<AccountListData>, keywords: seq<string>, company: string)
    : (r: Option<AccountRecord>)
    ensures !Succeeded(response) ==> r.None?
    ensures r.Some? ==> MatchesFilters(r.value, keywords, company)
    ensures r.Some? ==> exists i :: 0 <= i < |response.data.value.list| && response.data.value.list[i] == r.value
                         && forall j :: 0 <= j < i ==> !MatchesFilters(response.data.value.list[j], keywords, company)
    ensures Succeeded(response) ==>
      (r.None? <==> forall j :: 0 <= j < |response.data.value.list| ==>
                     !MatchesFilters(response.data.value.list[j], keywords, company))
  {
    match response
    case TransportError => None
    case Reply(code, _, data) =>
      if code != 0 || data.None? then None
      else
        match FirstMatch(data.value.list, keywords, company)
        case None => None
        case Some(i) => Some(data.value.list[i])
  }

  /** What happens when a method is called on a value that does not have it. */
  datatype ScriptError = NotAFunction(name: string)

  /**
   * `findTargetAccount` as the configuration declares the keyword setting: a
   * single string. Strings have neither `some` nor `join`, so on every
   * successful reply the filter (or, for an empty list, the warning that
   * lists the keywords) throws, and no account record is ever returned.
   */
  function FindTargetAccountAsDeclared(response: HttpResponse<AccountListData>, keyword: string, company: string)
    : (r: Result<Option<AccountRecord>, ScriptError>)
    ensures r.Success? <==> !Succeeded(response)
    ensures r.Success? ==> r.value.None?
  {
    match response
    case TransportError => Success(None)
    case Reply(code, _, data) =>
      if code != 0 || data.None? then Success(None)
      else if |data.value.list| > 0 then Failure(NotAFunction("some"))
      else Failure(NotAFunction("join"))
  }

  /**
   * The case that shows it: a successful reply whose only record has the
   * configured company and a creator name containing the configured keyword.
   * The keyword list finds it; the single string throws.
   */
  lemma DeclaredKeywordCounterexample()
    ensures var record := AccountRecord(7, "AD1", 0, Some("alice"), Some("Acme"));
      var response := Reply(0, "ok", Some(AccountListData([record])));
      && FindTargetAccount(response, ["alice"], "Acme") == Some(record)
      && FindTargetAccountAsDeclared(response, "alice", "Acme") == Failure(NotAFunction("some"))
  {
    var record := AccountRecord(7, "AD1", 0, Some("alice"), Some("Acme"));
    assert Includes(record.createUserName.GetOr(""), ["alice"][0]);
    assert MatchesFilters(record, ["alice"], "Acme");
  }

  /** The request `enableAccount` sends: set account `id` to `status`. */
  datatype StatusRequest = StatusRequest(id: int, status: int)

  /** One enable call: what was requested and whether it reported success. */
  datatype EnableCall = EnableCall(request: StatusRequest, succeeded: bool)

  /**
   * `enableAccount`: always requests status 1 for the given id, and reports
   * success exactly when the reply arrived with code 0.
   */
  function EnableAccount(accountId: int, response: HttpResponse<StatusData>): (r: EnableCall)
    ensures r.request == StatusRequest(accountId, EnabledStatus)
    ensures r.succeeded <==> response.Reply? && response.code == 0
  {
    var request := StatusRequest(accountId, EnabledStatus);
    match response
    case TransportError => EnableCall(request, false)
    case Reply(code, _, _) => EnableCall(request, code == 0)
  }
}
