# fetch-commits-azure, modelled in Dafny

The tool pulls commits from an Azure DevOps project and counts them. It
fetches commits repository by repository, page by page. Each commit is
classified as an (author, project, month) triple:

- the author is the e-mail's local part, with dots turned into spaces;
- the project is a tag matched in the commit title by `(PREFIX.*?)-`;
- the month is the author date's `YYYY-MM`.

Each repository's commits are tallied in a nested author → project →
month → count mapping. These mappings are merged into a running total.
The total is flattened into (Author, Project, Month, Commits) rows. The
report generator turns project names into spreadsheet tab titles.

Modules:

- `Dates`: the author timestamp as a record, its wire form and its month key.
- `Classifier`: author name, project tag (a hand-written leftmost-match scanner for the regular expression) and the classification of a commit.
- `Aggregation`: the nested count mapping, the per-repository tally loop and the merge loop.
- `Export`: flattening the mapping into rows, and reading the rows back.
- `Pagination`: the page-request loop. The service's answers are an input sequence.
- `Pipeline`: fetching and merging over all repositories.
- `SheetTitle`: the tab-title sanitiser of the report generator.
- `Scenarios`: the cases the repository's tests check, stated on the model.

The tally and merge loops work like the source: they reassign a nested
`map` value where the source increments a nested default-dictionary in
place. A key is created only on the path to the leaf being bumped, so
every materialised leaf is at least 1 and no inner map is empty
(`Aggregation.WellFormed`). Each leaf of a per-repository mapping equals
how often its triple occurs among the classified commits
(`Aggregation.Tallies`).

## Model

| member | source | states |
|---|---|---|
| Dates.MonthKey | fetch_commits.py:104 | the month bucket is 7 characters: four digits, `-`, two digits |
| Dates.MonthKeyIsPrefixOfRender | fetch_commits.py:102-104 | for a well-formed `%Y-%m-%dT%H:%M:%SZ` date, the month key is its first 7 characters |
| Dates.MonthKeyRoundTrip | fetch_commits.py:104 | a month key reads back as the year and month it was formatted from |
| Dates.MonthKeySeparatesMonths | fetch_commits.py:102-104 | two commits share a month bucket if and only if they share year and month |
| Classifier.LocalPart | fetch_commits.py:84 | the result is the prefix of the address up to the first `@` (the whole address when it has none), and it holds no `@` |
| Classifier.DotsToSpaces | fetch_commits.py:85 | same length; every `.` becomes a space and every other character stays in place |
| Classifier.ExtractNameFromEmail | fetch_commits.py:82-85 | the name holds no `@` and no `.`; character by character it is the address before the first `@` with dots as spaces; the whole address is used when there is no `@` |
| Classifier.NameOfAddress | fetch_commits.py:82-85 | for `local@domain` whose local part has no `@`, the name is the local part with dots as spaces, whatever the domain |
| Classifier.DashAfter | fetch_commits.py:90 | the lazy `.*?-` stops at the first `-` on the same line, and finds none exactly when no `-` precedes the next line break |
| Classifier.SearchFrom | fetch_commits.py:90 | the scan returns the leftmost start from which the pattern matches, or reports that no start matches |
| Classifier.ExtractProjectFromTitle | fetch_commits.py:88-93 | with no match the tag is `N/A`; otherwise it is the text of the leftmost match, from the prefix up to (not including) the next `-` |
| Classifier.MatchedTag | fetch_commits.py:90-92 | with a match, the tag is the leftmost match's text, starts with the prefix, and after the prefix holds neither `-` nor a line break |
| Classifier.NotFoundExactlyWithoutMatch | fetch_commits.py:88-93 | for a prefix that `N/A` does not start with, the tag is `N/A` if and only if no prefix occurrence is followed by `-` on its line |
| Classifier.Classify | fetch_commits.py:99-106 | a commit's author key has no `@` or `.`, and its month key has 7 characters |
| Aggregation.LeavesArePositive | fetch_commits.py:97 | in a well-formed mapping, the materialised leaves are exactly the non-zero counts |
| Aggregation.Bump | fetch_commits.py:108 | incrementing `data[a][p][m]` by n adds n to that leaf and leaves every other leaf unchanged |
| Aggregation.BumpKeepsWellFormed | fetch_commits.py:97-108 | incrementing by at least one keeps every leaf positive and no inner map empty |
| Aggregation.ClassifyAll | fetch_commits.py:99-106 | one triple per commit, in order, each the commit's classification |
| Aggregation.TalliesOneMore | fetch_commits.py:99-108 | one more pass of the tally loop tallies one more commit |
| Aggregation.Organize | fetch_commits.py:96-110 | the result is well-formed and each leaf equals the number of commits classified as that triple |
| Aggregation.TalliesAdd | fetch_commits.py:136-143 | adding the tallies of two batches leaf by leaf tallies their concatenation |
| Aggregation.MergeInto | fetch_commits.py:140-143 | after the merge, each leaf is the old total's leaf plus the repository's leaf; well-formedness is kept |
| Aggregation.LeavesDetermine | fetch_commits.py:97 | two well-formed mappings with the same count at every triple are the same mapping |
| Export.Flatten | fetch_commits.py:113-122 | the rows list every leaf exactly once with the leaf's count, and there are as many rows as leaves |
| Export.AppendRow | fetch_commits.py:116-119 | appending the row of a leaf not yet emitted keeps the keys distinct and the counts exact |
| Export.RowTotalIsLeaf | fetch_commits.py:113-122 | the table's total for any triple is the mapping's count for it |
| Export.Rebuild | fetch_commits.py:113-122 | reading rows back into a mapping gives each triple the total of its rows; rows of positive counts give a well-formed mapping |
| Export.RebuildFlatten | fetch_commits.py:113-122 | reading back the table of a well-formed mapping gives the mapping back |
| Export.TableCountsEveryCommit | fetch_commits.py:96-122 | the `Commits` column of an aggregate's table sums to the number of commits |
| Pagination.Payload | fetch_commits.py:54-62 | a response contributes commits if and only if it is an OK reply with a non-empty page |
| Pagination.RequestCount | fetch_commits.py:47-77 | requests are issued up to and including the first response that ends the loop |
| Pagination.GetCommits | fetch_commits.py:38-79 | the result concatenates the pages before the loop ends; the k-th request's `$skip` is 1000 times the number of earlier non-empty pages; a timeout repeats the offset; a page moves it on by 1000 |
| Pagination.ProgressStep | fetch_commits.py:47-77 | one response handled extends the result by its page and the offset by one page size when it is a page |
| Pagination.OffsetSteps | fetch_commits.py:49-74 | consecutive offsets are equal after a timeout and 1000 apart after a page |
| Pagination.FetchedCons | fetch_commits.py:47-77 | an ending response yields nothing more; a timeout is retried and adds nothing; a page is kept and followed by the rest |
| Pipeline.FetchCommits | fetch_commits.py:125-145 | the total is well-formed and each leaf counts that triple over all repositories' commits in order |
| Pipeline.TotalIsSumOfRepositories | fetch_commits.py:129-145 | each count in the total is the sum of the per-repository counts |
| Pipeline.EmptyRepositoryContributesNothing | fetch_commits.py:136 | a repository that yields no commits changes nothing, wherever it stands |
| Pipeline.RepositoryOrderIrrelevant | fetch_commits.py:129-145 | fetching the same repositories in any order gives every triple the same count |
| Pipeline.MergeIsAggregateOfConcatenation | fetch_commits.py:136-143 | merging the aggregates of two batches is the aggregate of both batches together |
| SheetTitle.Truncate | generate_report.py:13 | the title's first 31 characters, or all of a shorter one |
| SheetTitle.StripForbidden | generate_report.py:14 | at most as long as the input, and none of `\ / * ? : " < > \|` remains |
| SheetTitle.StripKeepsAllowed | generate_report.py:14 | every allowed character survives as often as it occurred |
| SheetTitle.StripConcat | generate_report.py:14 | removal respects order: stripping a concatenation strips each part |
| SheetTitle.CleanTitle | generate_report.py:12-15 | at most 31 characters, no forbidden character, every allowed character of the first 31 kept as often as it occurred |
| SheetTitle.CleanTitleIdempotent | generate_report.py:12-15 | cleaning a cleaned title changes nothing |
| SheetTitle.CleanTitleOfCleanPrefix | generate_report.py:13-14 | when the first 31 characters hold nothing forbidden, the title is just cut to 31 |
| SheetTitle.TruncateBeforeStrip | generate_report.py:13-14 | truncation comes first, so a long title with a forbidden character up front comes out shorter than 31 |
| Scenarios.DottedNameExample | tests/test_fetch_commits.py:22 | `john.doe@example.com` gives `john doe` |
| Scenarios.PlainNameExample | tests/test_fetch_commits.py:23 | `alice@example.com` gives `alice` |
| Scenarios.ProjectExamples | tests/test_fetch_commits.py:26-28 | `XXXXX123-fix issue` is tagged `XXXXX123` and `no match` is tagged `N/A` |
| Scenarios.OnePageThenEmpty | tests/test_fetch_commits.py:105-118 | one single-commit page then an empty page: two requests and that one commit |

## Left out

- HTTP: `get_repositories` and the requests in `get_commits` are not modelled. The repositories and the outcome of each page request are inputs (`Pipeline.Repository`, `Pagination.Response`).
- Configuration and authentication (fetch_commits.py:9-24), the base64 token and the request headers.
- The table library: the DataFrame built from the rows, and the CSV written and read back. The model stops at the row sequence.
- Report rendering in generate_report.py beyond `clean_title`: plots, workbook construction, column widths, the evidence directory and the current date.
- `main` and all printing and progress messages.
- Date parsing: `strptime` is not modelled. A commit carries the date record it parses to, and years are limited to 1000..9999 so that `%Y` has four digits.
- Malformed commit records: a record missing a field raises an error in the source. Here a `Commit` always has its e-mail, date and title.
- Pagination.GetCommits: a timeout is retried without limit in the source. The model consumes a finite response sequence and also stops when it runs out, so it claims nothing about termination of the original.
- Dictionary iteration order: the merge and flatten loops go over each (author, project, month) leaf once, in an unspecified order, instead of three nested loops. Row order is not stated; the row properties are about which rows there are.
- SheetTitle.CleanTitle: its contract states the kept characters by count, not by order. Order is stated by `SheetTitle.StripConcat`.
- The project-tag pattern is matched with its prefix taken literally. A prefix containing regular-expression metacharacters is not modelled.
