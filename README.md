# Fetch, filter and report users — a Dafny model

The program sends one GET request for a list of user records. It keeps
the records whose city starts with a given prefix, ignoring case. For
each kept record it prints a numbered six-line block, and it ends with a
summary line. Two failures are reported instead: an HTTP status error and
a network failure. An empty list gets its own success message.

This project models `fetch_and_display_users` from the point where the
request has produced its outcome:

- `text.dfy`, module `Text`: ASCII upper-casing (`Upper`) and the decimal
  form of a number (`NatToString`), with `ParseDecimal`, which reads the
  decimal form back (a left inverse: `ParseDecimal(NatToString(n)) == n`).
- `user_report.dfy`, module `UserReport`:
  - the records. `User` has an optional `name`, `username`, `email` and
    `address`, and `Address` has an optional `city`.
  - the request outcome, `FetchOutcome = Ok(records) | HttpError(statusCode) | NetworkError(details)`.
  - the field accessors, which fall back to `"N/A"`, and the filter `Matches`.
  - the reference definition `Report`: the header, then the error line, the
    empty-list line, or the numbered blocks of `Matching(users, prefix)`
    followed by the summary.
  - the procedure. `DisplayMatching` is the `for` loop that bumps
    `recordIndex` and appends blocks. `FetchAndDisplayUsers` is the whole
    function with its early returns. Both are proved equal to the reference
    definition.

Printed output is a `seq<string>` with one element per `print` call.

## Model

| member | source | states |
|---|---|---|
| `Text.Upper` | python_Intern_Task.py:55 | upper-casing keeps the length and upper-cases each character on its own (ASCII letters only) |
| `Text.UpperIdempotent` | python_Intern_Task.py:55 | upper-casing an upper-cased string changes nothing, so the filter compares case-normalised strings |
| `Text.NatToString` | python_Intern_Task.py:59 | the printed counter is a non-empty string of decimal digits with no leading zero (`"0"` only for zero) |
| `Text.ParseNatToString` | python_Intern_Task.py:59 | reading the printed decimal form back gives the number: the text of `{record_index}` determines the counter |
| `Text.NatToStringInjective` | python_Intern_Task.py:59 | two different counter values never print the same `User N:` number |
| `UserReport.OrNotAvailable` | python_Intern_Task.py:47-49 | `get(key, 'N/A')`: a present value comes back unchanged and a missing key gives `N/A` |
| `UserReport.Name` | python_Intern_Task.py:47 | the printed name is the record's `name` when present and `N/A` when the key is missing |
| `UserReport.Username` | python_Intern_Task.py:48 | the printed username is the record's `username` when present and `N/A` when the key is missing |
| `UserReport.Email` | python_Intern_Task.py:49 | the printed email is the record's `email` when present and `N/A` when the key is missing |
| `UserReport.City` | python_Intern_Task.py:52 | the city is `address.city` when both keys are present, and `N/A` when `address` or `address.city` is missing |
| `UserReport.Matches` | python_Intern_Task.py:55 | the empty filter keeps every record, and a kept record's city is at least as long as the filter |
| `UserReport.Matching` | python_Intern_Task.py:45-56 | the matching records never outnumber the input records |
| `UserReport.MatchingMembers` | python_Intern_Task.py:45-56 | a record is selected exactly when it is in the input and its upper-cased city starts with the upper-cased prefix |
| `UserReport.MatchingAppend` | python_Intern_Task.py:45 | the selection from a concatenation is the selection from the first part followed by that from the second, so input order is kept |
| `UserReport.MatchingSnoc` | python_Intern_Task.py:45-56 | one more input record extends the selection by that record exactly when it matches |
| `UserReport.MatchingAll` | python_Intern_Task.py:45-56 | nothing is dropped exactly when every record matches |
| `UserReport.Header` | python_Intern_Task.py:16-18 | the header is three lines and the third is the rule |
| `UserReport.RuleIsFiftyDashes` | python_Intern_Task.py:18 | the rule under the header is exactly fifty `-` characters |
| `UserReport.HttpErrorLine` | python_Intern_Task.py:31 | the status-error line opens with the error mark and the status-error prefix, followed by the status code in decimal |
| `UserReport.NetworkErrorLine` | python_Intern_Task.py:34 | the network-failure line opens with the error mark and the failure prefix, and ends with the exception's text unchanged |
| `UserReport.Block` | python_Intern_Task.py:59-64 | a block is six lines. The first is `User ` and the block number in decimal, followed by one more character. The last is the closing separator |
| `UserReport.BlockFirstLine` | python_Intern_Task.py:59 | the first line of a block is exactly `User `, the block number in decimal, and a colon |
| `UserReport.Render` | python_Intern_Task.py:59-64 | each selected record contributes exactly six lines |
| `UserReport.RenderAppend` | python_Intern_Task.py:56-64 | rendering one more record appends its block, numbered one past the records before it |
| `UserReport.RenderBlockAt` | python_Intern_Task.py:59-64 | lines `6j` to `6j+5` of a rendering are the block of the `j`-th record, numbered `start + j + 1` |
| `UserReport.RenderStep` | python_Intern_Task.py:45-64 | after one more record the match count grows by one and a block is appended exactly when the record matches; otherwise both stay the same |
| `UserReport.ZeroMatchLine` | python_Intern_Task.py:68 | the zero-match summary opens with the newline and `Result: `, and ends with the filter as given followed by `'.` |
| `UserReport.DisplayedLine` | python_Intern_Task.py:70 | the count summary opens with the newline and `Result: ` and its fixed text, followed by the count in decimal |
| `UserReport.Summary` | python_Intern_Task.py:66-70 | whichever branch the counter selects, the summary opens with the newline and `Result: ` |
| `UserReport.Report` | python_Intern_Task.py:16-70 | for every outcome of the request, the output has at least four lines and starts with the three header lines. The `Report*` lemmas below state what follows them |
| `UserReport.DisplayStep` | python_Intern_Task.py:45-64 | one turn of the loop keeps its invariant: the counter is the number of matches so far and the lines are their blocks |
| `UserReport.DisplayMatching` | python_Intern_Task.py:42-64 | after the loop, `record_index` equals the number of matching records, at most the input length, and the emitted lines are their blocks numbered 1 to that count |
| `UserReport.FetchAndDisplayUsers` | python_Intern_Task.py:10-70 | the printed lines are exactly the reference `Report` for every outcome of the request |
| `UserReport.ReportBlocks` | python_Intern_Task.py:42-70 | a non-empty list prints 3 header lines, 6 lines per match and one summary line, with the `j`-th block belonging to the `j`-th match and numbered `j+1` |
| `UserReport.ReportFieldDefaults` | python_Intern_Task.py:47-63 | in every block a present name, username, email or city is printed unchanged and a missing one as `N/A`; the city is `N/A` when `address` or `address.city` is missing |
| `UserReport.ReportUserLineCount` | python_Intern_Task.py:38-70 | the number of `User N:` lines equals the number of matching records, and is zero on either error or on an empty list |
| `UserReport.ReportEmpty` | python_Intern_Task.py:38-40 | an empty list prints the header and the empty-list message `EmptyResultLine` only: no block, no summary |
| `UserReport.ReportHttpError` | python_Intern_Task.py:16-32 | a status error prints the header and one error line only, and that line carries the exact status code in decimal |
| `UserReport.ReportNetworkError` | python_Intern_Task.py:16-35 | a network failure prints the header and one error line only, and that line ends with the failure's details |
| `UserReport.SummaryAgreesWithCounter` | python_Intern_Task.py:66-70 | the summary is the "Zero records matched" line exactly when the counter is zero; otherwise it carries the counter's value |
| `UserReport.MatchesIgnoresFilterCase` | python_Intern_Task.py:55 | upper-casing the filter first gives the same verdict, so the filter ignores case |
| `UserReport.MatchesIsPrefixTest` | python_Intern_Task.py:55 | a record matches exactly when its upper-cased city is the upper-cased filter followed by something: a prefix test |
| `UserReport.MissingCityMatches` | python_Intern_Task.py:52-55 | a record without a city reads `N/A` and matches exactly when the upper-cased filter is a prefix of `N/A`, so the filters `N` and `n` keep it |
| `UserReport.MatchesOneLetter` | python_Intern_Task.py:55 | with a one-character filter, the city's first character alone decides the match, ignoring case |
| `UserReport.FourCitiesExample` | python_Intern_Task.py:45-70 | with cities starting S, D, S, O and filter `S`, the first and third records are printed as blocks 1 and 2, followed by the summary for two records |

## Left out

- The request itself is not modelled: `requests.get` with its 10-second timeout, `raise_for_status` and `response.json()` (python_Intern_Task.py:22-28). These are network I/O and calls into a library. Their result is the input `FetchOutcome`.
- `HttpError` carries any natural number as the status code. Which codes count as errors (4xx and 5xx) is decided by `raise_for_status`, which is not part of this model.
- `NetworkError(details)` takes the text of the caught exception (`{e}`) as given.
- A body that is not valid JSON: with `requests` 2.27 or later, `response.json()` raises `requests.exceptions.JSONDecodeError`, which is a `RequestException`. The handler at python_Intern_Task.py:33-35 catches it, prints the network-failure line with the decoder's message and returns normally. `NetworkError(details)` models that case, with the decoder's message as `details`. With `requests` older than 2.27 the error is a plain `ValueError`, nothing catches it and the program crashes. That crash has no outcome in this model.
- Payloads of the wrong type are not modelled. Examples: a field value that is not a string, an `address` that is `null` or not an object, a top-level value that is not a list (`null` or `{}` would also take the empty-list branch). Records are assumed to be well-typed.
- Text.Upper: upper-cases only the ASCII letters `a`-`z`. Python's `str.upper()` also maps other letters and can change the length (`ß` becomes `SS`).
- The `__main__` entry point and the two constants (URL and `'S'`, python_Intern_Task.py:5-7, 74-75) are not modelled. Both values are parameters of `FetchAndDisplayUsers`. The filter may be any string, as `startswith` accepts, not only one character.
- Each `print` call is one element of the output. The newline `print` adds at the end is not written out. The newline at the start of the summary is kept inside its string. The emoji of the error and success lines are the characters U+274C and U+2705.
- UserReport.FourCitiesExample: covers any four cities whose first letters are S, D, S and O, which includes Springfield, Denver, Seattle and Omaha. Only the first letters matter to the filter `S`.
