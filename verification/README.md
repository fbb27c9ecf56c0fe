# Repository activity report: the report generators

This project models, in Dafny, the report-generation core of a tool that
turns one repository's GitHub activity (open, merged, active and stale pull
requests; open, closed, active and stale issues) into a markdown report:

- the **pull-request section**: the open-PR count, the unrounded average
  time to merge, the "Top Active PRs" listing (first `#` of title and
  snippet escaped, comment count shown twice) and the "Top Stale PRs"
  listing;
- the **issue section**: the open-issue count, the partition of open issues
  into commented and uncommented ones, three averages rounded with
  `Math.round` (time to respond, time since last update, time to close),
  and the active and stale issue listings;
- the **repository report**: a `## name` heading over the PR section, the
  issue section and a `___` rule.

Modules follow the program: `Api` (the records), `Listing` (the shared
`reduce` fold, entry layout and 140-character snippet), `PrReport`,
`IssueReport` and `RepositoryReport`, over the helper modules `Text`
(`substr`, first-occurrence `replace`, concatenation), `Numbers`
(day differences, NaN-aware sums, averages, `Math.round`), `Decimal`
(integer printing and its parser) and `Wrappers`.

How JavaScript behaviour is represented:

- A timestamp is an instant in milliseconds. `differenceInDays` is the whole
  number of days between two instants, truncated toward zero.
- A JavaScript Number is `NaN` or an integer. An average is NaN or an exact
  ratio with a positive denominator. An empty collection gives `0 / 0`,
  which prints as `NaN`, and so does a missing `mergedAt` or `closedAt`:
  `parseISO(undefined)` is an invalid date.
- Reading `comments.nodes[0].createdAt` on a commented issue whose comment
  list is empty throws. This is the `Crash` result, and it aborts the issue
  section and the whole repository report.
- The layouts are the exact text the `outdent` templates yield: blocks
  separated by a blank line and bullets separated by a newline.
- Behaviour that looks unintended is reproduced, not corrected:
  - both placeholders of the active-listing details read `comments.totalCount`,
    and the reaction count is never used;
  - the merge bullet is spelled "On averge";
  - the respond bullet says "out of the last 100" whatever the sample size.

Behaviour of the program worth noting:

- Listings render every node passed in; the limit of ten comes from the
  query, not from the generators.
- Only the first `#` of an active PR title or snippet is escaped. The escape
  is applied after truncation, so the emitted snippet can be 141 characters.
- The merge average is printed unrounded.
- An undefined average prints `NaN`.
- The open-PR and open-issue counts are `totalCount` verbatim.

## Model

| member | source | states |
|---|---|---|
| Listing.Reduce | src/report-generator/pr-report-generator.ts:53-61 | the fold only appends: the start text is a prefix of the result, which is the start text itself when there are no nodes |
| Listing.ReduceIsConcat | src/report-generator/pr-report-generator.ts:53-61 | the `reduce` over the nodes appends exactly the concatenation of one entry per node, in node order |
| Listing.ListingAppend | src/report-generator/issue-report-generator.ts:36-44 | listing two runs of nodes is listing the first and then the second: order kept, nothing dropped |
| Listing.ListingOnePerNode | src/report-generator/pr-report-generator.ts:52-61 | node i contributes its own entry, after the entries of earlier nodes and before those of later nodes, however many nodes there are |
| Listing.PlainEntryLayout | src/report-generator/pr-report-generator.ts:55-58 | a stale entry is exactly `[title](url)<br />` (title right after `[`), then the body's first min(140, length) characters, then `...<br /><br />`; a body of at most 140 characters appears unchanged |
| Listing.EntryOpensWithTitle | src/report-generator/issue-report-generator.ts:56 | every entry, with or without details, has `[` as its first character and the title as given to the link right after it |
| Listing.EntriesSplit | src/report-generator/issue-report-generator.ts:36-44 | the concatenated entries are those of the nodes before node i, then node i's entry, then those of the nodes after it |
| Listing.CountPlaceholder | src/report-generator/pr-report-generator.ts:77-82 | the placeholder is `no` exactly when the count is 0, and otherwise digits that parse back to the count |
| PrReport.StalePrsText | src/report-generator/pr-report-generator.ts:52-67 | the stale-PR text is `**Top Stale PRs**`, a blank line, then the concatenation of one plain entry per node in node order |
| PrReport.StalePrsOnePerNode | src/report-generator/pr-report-generator.ts:52-67 | the stale-PR text is its heading, a blank line, and one plain entry per node in node order |
| PrReport.StalePrsEmpty | src/report-generator/pr-report-generator.ts:52-67 | no stale PRs gives the heading over an empty body |
| PrReport.StalePrTitleVerbatim | src/report-generator/pr-report-generator.ts:55 | stale entries carry the title unescaped |
| PrReport.ActivePrsText | src/report-generator/pr-report-generator.ts:70-94 | the active-PR text is `**Top Active PRs**`, a blank line, then the concatenation of one active entry per node in node order |
| PrReport.ActivePrsOnePerNode | src/report-generator/pr-report-generator.ts:70-94 | the active-PR text is its heading over one active entry per node, in node order |
| PrReport.ActivePrPlaceholders | src/report-generator/pr-report-generator.ts:77-83 | comment and reaction placeholders are the same text, taken from `comments.totalCount` (`no` when 0); changing the reactions leaves the entry unchanged |
| PrReport.ActivePrSnippetLength | src/report-generator/pr-report-generator.ts:74-76 | the escaped snippet is one longer than the cut body exactly when the cut holds a `#`; it is at most 141 characters, and exactly 141 precisely when the body has at least 140 characters with a `#` among the first 140 |
| PrReport.ActivePrTitleRecoverable | src/report-generator/pr-report-generator.ts:73 | the entry shows the escaped title, and undoing the escape yields the original title |
| PrReport.MergeDaysSum | src/report-generator/pr-report-generator.ts:98-107 | the per-PR merge durations sum to the reference total of `differenceInDays(mergedAt, createdAt)` |
| PrReport.AvgTimeToMerge | src/report-generator/pr-report-generator.ts:97-109 | the average is NaN exactly when there are no nodes or some node lacks `mergedAt`; otherwise it is that total over the node count, unrounded |
| PrReport.AvgTimeToMergeText | src/report-generator/pr-report-generator.ts:109-111 | the merge bullet is "On averge it takes ", then text that reads back as the average (NaN as `NaN`, an exact quotient as its integer), then " days to merge a PR." |
| PrReport.AvgTimeToMergeEmpty | src/report-generator/pr-report-generator.ts:109-111 | with no merged PRs the bullet reads "On averge it takes NaN days to merge a PR." |
| PrReport.OpenPrsLineVerbatim | src/report-generator/pr-report-generator.ts:178 | the open-PR line shows digits that parse to `openPullRequests.totalCount`, and replacing the nodes does not change it |
| PrReport.Report | src/report-generator/pr-report-generator.ts:177-204 | the section opens with `### Pull Requests` and ends with the stale listing |
| PrReport.ReportLayout | src/report-generator/pr-report-generator.ts:184-201 | the section is heading, the open-count and merge bullets, the active listing, then the stale listing; the active listing lies strictly before the stale listing, which ends the section |
| IssueReport.StaleIssuesText | src/report-generator/issue-report-generator.ts:35-50 | the stale-issue text is `**Top Stale Issues**`, a blank line, then one plain entry per node in node order |
| IssueReport.StaleIssuesOnePerNode | src/report-generator/issue-report-generator.ts:35-50 | the stale-issue text is its heading over one plain entry per node, the same layout as stale PRs |
| IssueReport.ActiveIssuesText | src/report-generator/issue-report-generator.ts:53-79 | the active-issue text is `**Top Active Issues**`, a blank line, then one active entry per node in node order |
| IssueReport.ActiveIssuesOnePerNode | src/report-generator/issue-report-generator.ts:53-79 | the active-issue text is its heading over one active entry per node, in node order |
| IssueReport.ActiveIssuePlaceholders | src/report-generator/issue-report-generator.ts:56-68 | both placeholders come from `comments.totalCount` (`no` when 0), the reactions are ignored, and the title is not escaped |
| IssueReport.PartitionExact | src/report-generator/issue-report-generator.ts:118-128 | every open issue is in exactly one list: the lengths sum to the node count, the multisets add up to the nodes, commented issues have a nonzero count and uncommented ones zero |
| IssueReport.WithCommentsAppend | src/report-generator/issue-report-generator.ts:122-127 | the with-comments list keeps relative order: it distributes over concatenation |
| IssueReport.WithoutCommentsAppend | src/report-generator/issue-report-generator.ts:122-127 | the without-comments list keeps relative order: it distributes over concatenation |
| IssueReport.Partition | src/report-generator/issue-report-generator.ts:119-128 | the push loop builds exactly the two order-preserving filters |
| IssueReport.ResponseDays | src/report-generator/issue-report-generator.ts:130-141 | the response durations are computed in order; the computation throws exactly when a commented issue has no comment nodes, and then with the first such issue |
| IssueReport.ResponseDaysSum | src/report-generator/issue-report-generator.ts:130-141 | the response durations sum to the reference total of days from opening to first comment |
| IssueReport.WithCommentsMembers | src/report-generator/issue-report-generator.ts:122-127 | an issue is in the with-comments list exactly when it is an open issue whose comment count is nonzero |
| IssueReport.AvgTimeToRespondThrows | src/report-generator/issue-report-generator.ts:130-141 | the response average computes without a throw exactly when every open issue with a nonzero comment count lists at least one comment node |
| IssueReport.AvgTimeToRespond | src/report-generator/issue-report-generator.ts:118-143 | throws exactly when a commented issue lacks comment nodes; otherwise NaN exactly when no issue is commented, and else the total over the number of commented issues |
| IssueReport.RespondErrorNamesIssue | src/report-generator/issue-report-generator.ts:130-141 | when the response average throws, the issue it names is an open issue with a nonzero comment count and no comment nodes |
| IssueReport.RespondText | src/report-generator/issue-report-generator.ts:118-150 | the respond bullet is produced exactly when every commented open issue lists a comment node |
| IssueReport.RespondTextCounts | src/report-generator/issue-report-generator.ts:145-149 | when every commented issue lists a comment, the respond bullet is produced and shows the uncommented count, equal to the node count minus the commented count, followed by the fixed words "out of the last 100" |
| IssueReport.UpdateDaysSum | src/report-generator/issue-report-generator.ts:100-109 | the per-issue update durations sum to the reference total of `differenceInDays(updatedAt, createdAt)` |
| IssueReport.AvgTimeSinceLastUpdate | src/report-generator/issue-report-generator.ts:99-116 | NaN exactly when there are no open issues, otherwise floor((2 * total + n) / (2 * n)) for n issues |
| IssueReport.AvgTimeSinceLastUpdateText | src/report-generator/issue-report-generator.ts:111-115 | the since-update bullet is its fixed opening and closing words around text that reads back as the rounded average: `NaN` exactly for NaN, otherwise an integer |
| IssueReport.CloseDaysSum | src/report-generator/issue-report-generator.ts:83-90 | the per-issue close durations sum to the reference total of `differenceInDays(closedAt, createdAt)` |
| IssueReport.AvgTimeToClose | src/report-generator/issue-report-generator.ts:82-97 | NaN exactly when there are no closed issues or one lacks `closedAt`, otherwise floor((2 * total + n) / (2 * n)) |
| IssueReport.AvgTimeToCloseText | src/report-generator/issue-report-generator.ts:92-96 | the close bullet is its fixed opening and closing words around text that reads back as the rounded average: `NaN` exactly for NaN, otherwise an integer |
| IssueReport.AvgTimeToCloseEmpty | src/report-generator/issue-report-generator.ts:92-96 | no closed issues: the bullet reads "about NaN day(s)", with no throw |
| IssueReport.CloseDayTotalTwoAndFour | src/report-generator/issue-report-generator.ts:83-90 | closings 2 and 4 whole days after opening total 6 days |
| IssueReport.AvgTimeToCloseTwoAndFourValue | src/report-generator/issue-report-generator.ts:92-96 | those two issues average, rounded, to 3 |
| IssueReport.AvgTimeToCloseTwoAndFour | src/report-generator/issue-report-generator.ts:82-97 | and the bullet then reads "On average it takes about 3 day(s) to close an issue." |
| IssueReport.OpenIssuesLineVerbatim | src/report-generator/issue-report-generator.ts:153 | the open-issue line shows digits that parse to `openIssuesForStats.totalCount`, and replacing the nodes does not change it |
| IssueReport.ReportFailsWithRespond | src/report-generator/issue-report-generator.ts:159-161 | the issue section throws exactly when the respond bullet does |
| IssueReport.Report | src/report-generator/issue-report-generator.ts:152-189 | the issue section is produced exactly when every commented open issue lists a comment node; otherwise the error names an open issue with a nonzero comment count and no comment nodes |
| IssueReport.ReportLayout | src/report-generator/issue-report-generator.ts:159-186 | when every commented open issue lists a comment, the section is produced, and it is heading, then open-count, respond, since-update and close bullets in that order, then the active listing, then the stale listing, which ends it |
| RepositoryReport.Report | src/report-generator/index.ts:11-27 | the report is produced exactly when every commented open issue lists a comment node, otherwise the error names such an issue; a produced report opens with `## ` + name and ends with `___` |
| RepositoryReport.ReportFailsWithIssues | src/report-generator/index.ts:13-14 | the repository report throws exactly when the issue section does, with the same error |
| RepositoryReport.ReportLayout | src/report-generator/index.ts:11-24 | when every commented open issue lists a comment, the report is produced, and it is `## ` + name, then the PR section, the issue section and `___`, separated by blank lines; each part is found at its offset and the PR section precedes the issue section |
| Text.Prefix | src/report-generator/pr-report-generator.ts:56 | `substr(0, n)` is a prefix of the input, of length min(n, length) |
| Text.PrefixKeepsShort | src/report-generator/issue-report-generator.ts:39 | a text no longer than n is kept whole |
| Text.IndexOf | src/report-generator/pr-report-generator.ts:73 | finds the first occurrence, and reports none exactly when the character is absent |
| Text.ReplaceFirst | src/report-generator/pr-report-generator.ts:73-76 | string-pattern `replace` rewrites only the first occurrence (the text is unchanged without one) and grows by the replacement's extra length |
| Text.EscapeAddsOneBackslash | src/report-generator/pr-report-generator.ts:73-76 | the `#` escape adds exactly one backslash when there is a `#` and changes nothing otherwise |
| Text.UnescapeEscape | src/report-generator/pr-report-generator.ts:73-76 | removing the inserted backslash gives back the original text |
| Numbers.DiffDays | src/report-generator/issue-report-generator.ts:86 | `differenceInDays` counts whole days, truncated toward zero, for either order of the instants |
| Numbers.DiffDaysAntisymmetric | src/report-generator/issue-report-generator.ts:104 | swapping the instants negates the day count |
| Numbers.DiffDaysWholeDays | src/report-generator/pr-report-generator.ts:102 | instants n whole days apart are exactly n days apart |
| Numbers.DiffDaysNewYear2024 | src/report-generator/issue-report-generator.ts:86 | 2024-01-01 to 2024-01-04 counts 3 days |
| Numbers.SumLeftTotal | src/report-generator/issue-report-generator.ts:83-90 | the `reduce` sum is NaN exactly when the start value or an entry is NaN, and otherwise the plain sum |
| Numbers.Mean | src/report-generator/issue-report-generator.ts:92 | `sum / length` is NaN exactly for an empty input or one holding NaN, and otherwise the sum over the length |
| Numbers.MathRound | src/report-generator/issue-report-generator.ts:94-96 | `Math.round` keeps NaN and otherwise returns the integer k with k - 1/2 <= p/d < k + 1/2 |
| Numbers.RoundUnique | src/report-generator/issue-report-generator.ts:113-115 | any integer in that half-open interval is the rounded value, so halves round up |
| Numbers.RoundBounds | src/report-generator/issue-report-generator.ts:145-147 | the value floor((2p + d) / (2d)) used for `Math.round(p / d)` lies within half a unit of p/d, halves going up |
| Numbers.NumberText | src/report-generator/issue-report-generator.ts:94-96 | a Number prints as "NaN" exactly when it is NaN, and otherwise as text that parses back to it |
| Numbers.QuotientText | src/report-generator/pr-report-generator.ts:111 | the unrounded average prints "NaN" for NaN, and an exact quotient prints as its integer |
| Decimal.NatToString | src/report-generator/pr-report-generator.ts:178 | a count prints as at least one decimal digit, with no leading zero |
| Decimal.ParseNatToString | src/report-generator/issue-report-generator.ts:153 | the printed count parses back to the count |
| Decimal.ParseIntToString | src/report-generator/issue-report-generator.ts:94-96 | a printed integer, sign included, parses back to the integer |

## Left out

- The aggregator, API client, bearer-token read, concurrent fan-out, webhook delivery and process exit in src/index.ts are not part of this model. They are I/O and concurrency.
- The GraphQL query document (src/query.ts) and the repository list and title (src/config.ts) are not part of this model. They hold no behaviour; the cap of 10 listed items lives in the query.
- ISO-8601 parsing is left out: timestamps are given as instants. `differenceInDays` is modelled as truncated division by 86,400,000 ms, which matches date-fns for a process whose time zone has no daylight-saving shifts.
- `formatDistance(updatedAt, new Date())` and the clock are the `ago` parameter: the relative-time text is opaque.
- Numbers.QuotientText: prints only NaN and exact integral quotients itself. A non-integral merge average is printed by the `showReal` parameter, because JavaScript's floating-point number formatting is not modelled.
- Integers are unbounded. JavaScript's 2^53 limit on exact integers is not modelled, since day sums never approach it.
- Strings are sequences of Unicode scalar values. `substr(0, 140)` counts UTF-16 code units, so a body containing characters outside the Basic Multilingual Plane may be cut at a different place.
- The indentation stripping that `outdent` performs is not modelled. Each template is modelled as the text it yields: blocks joined by a blank line, bullets joined by a newline.
- `replace`'s `$` substitution patterns are not modelled. The one replacement used, `\#`, contains none.
- The commented-out review metrics (pr-report-generator.ts lines 114-175) are left out. The reviews of a pull request are read only by those metrics. A pull request's `lastEditedAt` and `updatedAt` are read by no code. The data model keeps all three fields.
- `comments.totalCount` is a natural number. A missing or non-numeric count, with its JavaScript truthiness, is not modelled.
