# notion-github-widget: a Dafny model of its core logic

The widget renders a GitHub user's contribution calendar for embedding in Notion. Three
parts of it hold logic that can be stated exactly, and this project models them and
proves properties about them:

- **Username and theme validation** (`lib/validation.ts`), module `Validation`. The
  username is sanitized by deleting every character outside `[a-zA-Z0-9-]`, then checked
  against GitHub's username grammar. The regular expression
  `^[a-zA-Z0-9](?:[a-zA-Z0-9]|-(?=[a-zA-Z0-9])){0,38}$` is modelled as a matcher
  (`UsernameRegexTest`). It is proved equal to an explicit grammar (`IsGitHubUsername`):
  1 to 39 characters, an alphanumeric first character, only alphanumerics and hyphens,
  and every hyphen followed by an alphanumeric. The theme choice and the safe error
  message are modelled too.
- **Response classification in `fetchUserContributions`** (`lib/github.ts`), module
  `GitHub`. The request is not modelled. Its result arrives as a `Transport` value: fetch
  threw, or the server answered with a status and a body that did or did not parse as
  JSON. `FetchUserContributions` turns that value into the `GitHubAPIResponse` the source
  returns. The response types of `lib/types.ts` are the datatypes of module `Types`. A
  response's `user` has three states: missing, explicit `null`, or present. Module
  `Decimal` writes the HTTP status as decimal text for the error message.
- **The contribution graph's logic** (`components/ContributionGraph.tsx`), module
  `ContributionGraph`. This covers the count-to-intensity buckets, the two five-colour
  palettes, the legend's sample counts and the tooltip's singular/plural noun. It also
  covers the `hoveredDay` state, which is a class `HoverTracker` with mouse-enter and
  mouse-leave methods. `Replay` runs a sequence of hover events.

Contribution counts are JavaScript numbers, but the GitHub API's `contributionCount` is
always an integer, so the model takes them as `int`. The source
sends a negative count to level 1, because its first check is `count === 0` and its
second is `count <= 3`. The model keeps that behaviour. Monotonicity is stated only for
counts of 0 and above.

A parsed response with a non-empty `errors` list is returned unchanged
(lib/github.ts:63-68), and `FetchUserContributions` states exactly that. The API and page
handlers turn it into an error afterwards (app/api/contributions/[username]/route.ts:33-57);
those handlers are not part of this model.

## Model

| member | source | states |
|---|---|---|
| `Validation.SanitizeUsername` | lib/validation.ts:31-38 | The result holds only characters from `[a-zA-Z0-9-]`. |
| `Validation.SanitizeKeepsOrder` | lib/validation.ts:37 | The sanitized string is a subsequence of the input, so the kept characters stay in their original order. |
| `Validation.SanitizeKeepsCounts` | lib/validation.ts:37 | Each allowed character keeps its number of occurrences. Every other character occurs zero times. Together with the subsequence fact, the result is exactly the filter of the input. |
| `Validation.SanitizeFixedPoint` | lib/validation.ts:31-38 | Sanitizing leaves a string unchanged if and only if all its characters are allowed. |
| `Validation.SanitizeIdempotent` | lib/validation.ts:37 | Sanitizing twice gives the same result as sanitizing once. |
| `Validation.SanitizeAppend` | lib/validation.ts:37 | Sanitizing a concatenation gives the concatenation of the sanitized parts. |
| `Validation.UsernameRegexTest` | lib/validation.ts:22 | The matcher for the regular expression: one alphanumeric, then at most 38 one-character groups, then the end. A match is 1 to 39 characters long. |
| `Validation.RegexMatchesGrammar` | lib/validation.ts:22-24 | The regular expression accepts a string if and only if the string satisfies the explicit username grammar. |
| `Validation.ValidateGitHubUsername` | lib/validation.ts:11-25 | The result is true if and only if the string satisfies the username grammar. The empty string and strings longer than 39 characters are therefore rejected. |
| `Validation.ProcessUsername` | lib/validation.ts:44-52 | The result is present if and only if the sanitized input is a valid username. A present result is exactly the sanitized input, so it is a valid username and a subsequence of the raw input. |
| `Validation.ProcessIdempotent` | lib/validation.ts:44-52 | Processing a processed username gives it back unchanged. |
| `Validation.ProcessFixedPoints` | lib/validation.ts:44-52 | `ProcessUsername(t) == Some(t)` holds exactly for valid usernames `t`. |
| `Validation.ProcessPlainName` | lib/validation.ts:44-52 | `"torvalds"` is accepted unchanged. |
| `Validation.ProcessLeadingHyphen` | lib/validation.ts:44-52 | `"-bad"` is rejected. |
| `Validation.ProcessDoubleHyphen` | lib/validation.ts:44-52 | `"a--b"` is rejected. |
| `Validation.ProcessStripsMarkup` | lib/validation.ts:44-52 | `"<script>"` is sanitized to `"script"`, which is then accepted. |
| `Validation.ProcessTooLong` | lib/validation.ts:17-19 | A 40-character string of allowed characters is rejected. |
| `Validation.ValidateTheme` | lib/validation.ts:58-63 | The result is `Light` if and only if the input is exactly `"light"`. Anything else, including a missing value, gives `Dark`. |
| `Validation.CreateSafeErrorMessage` | lib/validation.ts:68-74 | The result is one of two fixed texts. It is the "fetching data" text if and only if the thrown value is an `Error`. |
| `Validation.SafeMessageIgnoresText` | lib/validation.ts:68-74 | Two `Error`s with different messages get the same safe message. |
| `Decimal.FromNat` | lib/github.ts:46 | The text of a status is non-empty, has only digits, and has no leading zero. |
| `Decimal.FromNatRoundTrip` | lib/github.ts:46 | Reading the decimal text of `n` back gives `n`. |
| `GitHub.StatusErrorMessage` | lib/github.ts:45-47 | The message starts with `GitHub API error: `. The status's decimal text comes right after that prefix, and then a space and the status text. |
| `GitHub.ThrownMessage` | lib/github.ts:74 | An `Error` contributes its own message. Any other thrown value gives `Failed to fetch contributions`. |
| `GitHub.NotFoundMessage` | lib/github.ts:56 | The message is `User "`, then the username verbatim, then `" not found`. |
| `GitHub.HasNullUser` | lib/github.ts:52 | `data.data?.user === null` holds only when `data` is present and `user` is not missing, and never when `user` is present. |
| `GitHub.Caught` | lib/github.ts:69-79 | The catch block returns no data and exactly one error, of type `FETCH_ERROR`, whose message is the thrown `Error`'s message or `Failed to fetch contributions`. |
| `GitHub.FetchUserContributions` | lib/github.ts:26-80 | A thrown fetch, a status outside 200..299 and an unparsable body each give one `FETCH_ERROR`. A parsed object body with an explicit null user gives one `NOT_FOUND`. Any other parsed object body is returned unchanged (non-object bodies: see "Left out"). |
| `GitHub.FailureIsOneFetchError` | lib/github.ts:45-79 | Every transport failure gives a response with no data and exactly one `FETCH_ERROR`. |
| `GitHub.NonOkStatusIsReported` | lib/github.ts:45-46 | For a status outside 200..299, the single `FETCH_ERROR` message has decimal digits right after the prefix, and those digits read back as the status. |
| `GitHub.NullUserIsNotFound` | lib/github.ts:51-66 | An explicit null user gives exactly one `NOT_FOUND` error with the message `User "<username>" not found`. This holds even when the body also lists errors. |
| `GitHub.PresentUserPassesThrough` | lib/github.ts:52-68 | A parsed body whose `user` is present is returned unchanged, whether or not it also lists errors. |
| `GitHub.MissingUserIsNotNotFound` | lib/github.ts:52-68 | A body with no `data`, or with `user` missing rather than null, is returned as it is and not classified as not found. |
| `ContributionGraph.IntensityLevel` | components/ContributionGraph.tsx:19-25 | The level is between 0 and 4. It is 0 if and only if the count is 0. |
| `ContributionGraph.IntensityBuckets` | components/ContributionGraph.tsx:19-25 | The exact cut points: 1..3 gives 1, 4..6 gives 2, 7..9 gives 3, and 10 or more gives 4. A negative count gives 1. |
| `ContributionGraph.IntensityIsCappedThirds` | components/ContributionGraph.tsx:19-25 | A second definition: a positive count's level is ceil(count / 3), capped at 4. |
| `ContributionGraph.IntensityMonotone` | components/ContributionGraph.tsx:19-25 | For non-negative counts, a larger count never gets a lower level. |
| `ContributionGraph.Palette` | components/ContributionGraph.tsx:31-51 | Each palette has five entries. The light palette is used if and only if the theme is `light`; the dark theme gets the dark palette. |
| `ContributionGraph.ColorClass` | components/ContributionGraph.tsx:28-51 | The colour is the theme's palette entry at the count's intensity level. A count of 0 therefore gets the "no activity" entry. |
| `ContributionGraph.PaletteDistinct` | components/ContributionGraph.tsx:32-49 | The five entries of each palette are pairwise different. |
| `ContributionGraph.SameColorIffSameLevel` | components/ContributionGraph.tsx:28-51 | Two counts get the same colour if and only if they have the same intensity level. |
| `ContributionGraph.LegendSampleCount` | components/ContributionGraph.tsx:136 | The legend's sample count for level L (0, 2, 5, 8, 12) has intensity level exactly L. |
| `ContributionGraph.LegendColors` | components/ContributionGraph.tsx:132-137 | The legend's five squares are the theme's whole palette, each entry once and in order. |
| `ContributionGraph.TooltipLabel` | components/ContributionGraph.tsx:158 | The noun is `contribution` if and only if the count is 1, and `contributions` otherwise. |
| `ContributionGraph.NextHover` | components/ContributionGraph.tsx:64-76 | Entering a cell replaces the hovered day, whatever it was. Leaving clears it. |
| `ContributionGraph.ReplayLastWins` | components/ContributionGraph.tsx:64-76 | After any non-empty run of hover events, the state depends only on the last event. Events overwrite and never queue. |
| `ContributionGraph.HoverTracker.constructor` | components/ContributionGraph.tsx:11-16 | Nothing is hovered at first. |
| `ContributionGraph.HoverTracker.HandleMouseEnter` | components/ContributionGraph.tsx:64-76 | The new state is the entered cell's date, count and anchor, whatever was there before. |
| `ContributionGraph.HoverTracker.HandleMouseLeave` | components/ContributionGraph.tsx:115 | The new state is "nothing hovered". |
| `ContributionGraph.HoverTracker.ShownLabel` | components/ContributionGraph.tsx:149-159 | A tooltip label exists if and only if a day is hovered, and it is then `TooltipLabel` of that day's count: singular if and only if the count is 1, `contributions` otherwise. |

## Left out

- The `fetch` call itself, its headers, JSON body, the one-hour `revalidate` hint and `console.error` (lib/github.ts:30-43, 70). They are network I/O and framework caching. Their outcome enters the model as a `Transport` value.
- `response.json()` is not modelled as parsing. Its outcome is part of `Transport`: a parsed `GitHubAPIResponse`, or a thrown value.
- JSON bodies that are not objects are outside `Transport`. A `null` body makes `data.data?.user` (lib/github.ts:52) throw a `TypeError`, which the catch block turns into a `FETCH_ERROR`: it belongs under `JsonFailed`. A body such as `5` or `[]` passes every check and is returned as it is; `Json(parsed)` cannot express it, so `FetchUserContributions` says nothing about it.
- Contribution counts that are not integers. JavaScript would send a fractional count such as 2.5 to level 1 and `NaN` to level 4 (components/ContributionGraph.tsx:21, 24). The model's `int` counts cannot express either, and the GitHub API never returns them.
- `formatDate` (components/ContributionGraph.tsx:54-61). It relies on JavaScript `Date` parsing and locale formatting.
- Tooltip geometry (components/ContributionGraph.tsx:69-75, 153-154). The anchor `rect.left + rect.width / 2`, `rect.top` comes from DOM measurement in floating point. It enters `HandleMouseEnter` as a given `Anchor`, and the `y - 8` offset is not modelled.
- The JSX markup and class-name templates of components/ContributionGraph.tsx:78-167, except for the legend, colour and tooltip-label logic modelled above. This includes the cell `title` text, which always says "contributions".
- components/ErrorDisplay.tsx and components/ContributionSkeleton.tsx. They are presentation only.
- The page and API handlers (app/[username]/page.tsx, app/api/contributions/[username]/route.ts). They map the modelled outcomes to HTTP statuses, views and cache headers.
- The `typeof username !== 'string'` guards (lib/validation.ts:12, 32). Inputs are modelled as strings, so the guards cannot fire. `validateTheme`'s `null` and `undefined` inputs are both `None`.
- JavaScript strings are UTF-16 code units, while Dafny's `char` is a Unicode scalar value. Every character outside ASCII is deleted either way, so sanitization and validation give the same verdicts.
