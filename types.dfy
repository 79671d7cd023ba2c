/** Data shapes of the widget: the GitHub GraphQL response and the theme. */
module Types {

  /** A value that may be missing (`undefined` or `null` on the JavaScript side). */
  datatype Option<+T> = None | Some(value: T)

  /** The two colour themes a page can be rendered in. */
  datatype Theme = Light | Dark

  /** One cell of the calendar: how many contributions on which date. */
  datatype ContributionDay = ContributionDay(
    contributionCount: int,
    date: string,
    color: string,
    weekday: int)

  /** One column of the calendar (up to seven days). */
  datatype ContributionWeek = ContributionWeek(contributionDays: seq<ContributionDay>)

  datatype ContributionCalendar = ContributionCalendar(
    totalContributions: int,
    weeks: seq<ContributionWeek>)

  datatype ContributionsCollection = ContributionsCollection(contributionCalendar: ContributionCalendar)

  datatype GitHubUser = GitHubUser(contributionsCollection: ContributionsCollection)

  /** The `user` field of a parsed response: missing, explicitly `null`, or an object. */
  datatype UserField = UserUndefined | UserNull | UserPresent(user: GitHubUser)

  datatype ResponseData = ResponseData(user: UserField)

  /** One entry of the `errors` list; `errorType` is the field the source calls `type`. */
  datatype APIError = APIError(message: string, errorType: string)

  /** The whole response: both `data` and `errors` are optional. */
  datatype GitHubAPIResponse = GitHubAPIResponse(
    data: Option<ResponseData>,
    errors: Option<seq<APIError>>)

  /** A thrown JavaScript value: an `Error` instance with its message, or anything else. */
  datatype Thrown = ErrorInstance(message: string) | NonErrorValue
}
