/**
 * The decision logic of fetchUserContributions. The request itself is not modelled:
 * what it produced arrives as a `Transport` value, and the function classifies it.
 */
module GitHub {
  import opened Types
  import Decimal

  const NotFoundType := "NOT_FOUND"
  const FetchErrorType := "FETCH_ERROR"
  const FallbackMessage := "Failed to fetch contributions"
  const StatusPrefix := "GitHub API error: "

  /** What reading the body as JSON produced. */
  datatype Body = Json(parsed: GitHubAPIResponse) | JsonFailed(thrown: Thrown)

  /** What the `fetch` call produced: it threw, or it answered with a status and a body. */
  datatype Transport =
    | FetchThrew(thrown: Thrown)
    | Responded(status: nat, statusText: string, body: Body)

  /** `response.ok`: a status in the range 200 to 299. */
  predicate IsOk(status: nat) {
    200 <= status <= 299
  }

  /** The message of the Error thrown for a status that is not ok. */
  function StatusErrorMessage(status: nat, statusText: string): (m: string)
    ensures |m| > |StatusPrefix| + |Decimal.FromNat(status)|
    ensures m[..|StatusPrefix|] == StatusPrefix
    ensures m[|StatusPrefix|..|StatusPrefix| + |Decimal.FromNat(status)|] == Decimal.FromNat(status)
    ensures m[|StatusPrefix| + |Decimal.FromNat(status)|..] == " " + statusText
  {
    StatusPrefix + Decimal.FromNat(status) + " " + statusText
  }

  /** The message the catch block records: the Error's own message, or a fixed fallback. */
  function ThrownMessage(e: Thrown): (m: string)
    ensures e.ErrorInstance? ==> m == e.message
    ensures e.NonErrorValue? ==> m == FallbackMessage
  {
    match e
    case ErrorInstance(message) => message
    case NonErrorValue => FallbackMessage
  }

  /** A response carrying no data and exactly one error. */
  function SingleError(message: string, errorType: string): GitHubAPIResponse {
    GitHubAPIResponse(None, Some([APIError(message, errorType)]))
  }

  /** `User "<username>" not found`: the username, verbatim, between quotes. */
  function NotFoundMessage(username: string): (m: string)
    ensures |m| == |username| + 17
    ensures m[..6] == "User \"" && m[6..6 + |username|] == username && m[6 + |username|..] == "\" not found"
  {
    "User \"" + username + "\" not found"
  }

  /** `data.data?.user === null`: only an explicit null user, not a missing `data` or `user`. */
  predicate HasNullUser(r: GitHubAPIResponse): (isNull: bool)
    ensures isNull ==> r.data.Some? && !r.data.value.user.UserUndefined?
    ensures r.data.Some? && r.data.value.user.UserPresent? ==> !isNull
  {
    r.data.Some? && r.data.value.user.UserNull?
  }

  /** The value of the catch block for a thrown value. */
  function Caught(e: Thrown): (r: GitHubAPIResponse)
    ensures r.data.None? && r.errors.Some? && |r.errors.value| == 1
    ensures r.errors.value[0].errorType == FetchErrorType
    ensures r.errors.value[0].message == ThrownMessage(e)
  {
    SingleError(ThrownMessage(e), FetchErrorType)
  }

  /**
   * fetchUserContributions, once the transport has answered. It never fails: every
   * outcome is a response value.
   */
  function FetchUserContributions(username: string, t: Transport): (r: GitHubAPIResponse)
    // a thrown fetch, a status that is not ok, or a body that is not JSON: one FETCH_ERROR
    ensures t.FetchThrew? ==> r == SingleError(ThrownMessage(t.thrown), FetchErrorType)
    ensures t.Responded? && !IsOk(t.status) ==> r == SingleError(StatusErrorMessage(t.status, t.statusText), FetchErrorType)
    ensures t.Responded? && IsOk(t.status) && t.body.JsonFailed? ==> r == SingleError(ThrownMessage(t.body.thrown), FetchErrorType)
    // a parsed body: an explicit null user becomes NOT_FOUND, anything else passes through
    ensures t.Responded? && IsOk(t.status) && t.body.Json? ==>
              r == if HasNullUser(t.body.parsed) then SingleError(NotFoundMessage(username), NotFoundType)
                   else t.body.parsed
  {
    match t
    case FetchThrew(e) => Caught(e)
    case Responded(status, statusText, body) =>
      if !IsOk(status) then Caught(ErrorInstance(StatusErrorMessage(status, statusText)))
      else
        match body
        case JsonFailed(e) => Caught(e)
        case Json(data) =>
          if HasNullUser(data) then SingleError(NotFoundMessage(username), NotFoundType)
          else if data.errors.Some? && |data.errors.value| > 0 then data
          else data
  }

  /** The transport failed: fetch threw, the status was not ok, or the body was not JSON. */
  predicate TransportFailed(t: Transport) {
    t.FetchThrew? || !IsOk(t.status) || t.body.JsonFailed?
  }

  /** Every transport failure ends as a response with no data and exactly one FETCH_ERROR. */
  lemma FailureIsOneFetchError(username: string, t: Transport)
    requires TransportFailed(t)
    ensures var r := FetchUserContributions(username, t);
            r.data.None? && r.errors.Some? && |r.errors.value| == 1 && r.errors.value[0].errorType == FetchErrorType
  {
  }

  /** For a status that is not ok, the error message carries the status in decimal, right after the prefix. */
  lemma NonOkStatusIsReported(username: string, status: nat, statusText: string, body: Body)
    requires !IsOk(status)
    ensures var r := FetchUserContributions(username, Responded(status, statusText, body));
            var m := r.errors.value[0].message;
            && r.errors.value[0].errorType == FetchErrorType
            && |m| > |StatusPrefix|
            && m[..|StatusPrefix|] == StatusPrefix
            && exists k :: |StatusPrefix| < k <= |m|
                 && (forall i :: |StatusPrefix| <= i < k ==> Decimal.IsDigit(m[i]))
                 && Decimal.ToNat(m[|StatusPrefix|..k]) == status
  {
    var m := StatusErrorMessage(status, statusText);
    var d := Decimal.FromNat(status);
    var k := |StatusPrefix| + |d|;
    assert m[|StatusPrefix|..k] == d;
    Decimal.FromNatRoundTrip(status);
    assert forall i :: |StatusPrefix| <= i < k ==> Decimal.IsDigit(m[i]) by {
      forall i | |StatusPrefix| <= i < k ensures Decimal.IsDigit(m[i]) {
        assert m[i] == d[i - |StatusPrefix|];
      }
    }
  }

  /** An explicit null user yields one NOT_FOUND error, even when the body also lists errors. */
  lemma NullUserIsNotFound(username: string, status: nat, statusText: string, parsed: GitHubAPIResponse)
    requires IsOk(status) && parsed.data.Some? && parsed.data.value.user.UserNull?
    ensures var r := FetchUserContributions(username, Responded(status, statusText, Json(parsed)));
            r.data.None? && r.errors == Some([APIError("User \"" + username + "\" not found", NotFoundType)])
  {
  }

  /** A body without `data`, or whose `user` is missing rather than null, is returned as it is. */
  lemma MissingUserIsNotNotFound(username: string, status: nat, statusText: string, parsed: GitHubAPIResponse)
    requires IsOk(status)
    requires parsed.data.None? || parsed.data.value.user.UserUndefined?
    ensures FetchUserContributions(username, Responded(status, statusText, Json(parsed))) == parsed
  {
  }

  /** The success path: a body whose user is present is returned unchanged, errors or not. */
  lemma PresentUserPassesThrough(username: string, status: nat, statusText: string, parsed: GitHubAPIResponse)
    requires IsOk(status) && parsed.data.Some? && parsed.data.value.user.UserPresent?
    ensures FetchUserContributions(username, Responded(status, statusText, Json(parsed))) == parsed
  {
  }
}
