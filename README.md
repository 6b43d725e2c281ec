# Cloud Architect job-market dashboards: a Dafny model of the data rules

The repository holds three dashboards and a validation script, all over one
table of job postings (title, salary in USD, experience level, Skills text,
location, date posted):

- `dv.py`: a field-level validation script. It runs four independent masks
  (salary range, experience level, common skills, location format) and lists
  the rows each mask rejects, then the four counts.
- `marketanalysis.py`: a Streamlit dashboard. It rewrites the Skills column on
  load and has a Salary Analysis filter, skill counts and a skills picker, an
  inclusive date window sorted by date, and a Career Simulator (rows for one
  level and location, and the top-five skills the user lacks).
- `main.py`: a second, smaller Streamlit dashboard. It has the exact location/level
  filter, the top-10 skill counts and the date window.
- `page.js`: a React job board. It builds a distinct trimmed skill list and
  narrows the jobs by successive filters, where an empty choice means no
  filter. It shows 15 jobs per page with clamped Previous/Next and a page reset
  on every filter change. It counts and groups jobs per key, picks a top
  location, and matches the skills named in a resume.

The model is split by the program's structure:

| file | module | models |
|---|---|---|
| `strings.dfy` | `Strings` | whitespace, ASCII case, substring search, `trim`, split / join / replace-all |
| `seqs.dfy` | `Seqs` | order-preserving filter, distinct elements, stable sort by key, counts |
| `frame.dfy` | `Frame` | the CSV row, split-and-explode of Skills, `value_counts().head(n)`, the exact location/level filter, the date window |
| `validation.dfy` | `Validation` | `dv.py` |
| `market_analysis.dfy` | `MarketAnalysis` | `marketanalysis.py` (it uses `Frame` for the shared table operations) |
| `job_board.dfy` | `JobBoard` | `page.js`: pure functions for the list logic, loops for the reducers, class `Dashboard` for the React state |

`main.py` has no module of its own. Its three data rules are the same
operations as in `marketanalysis.py`: the exact filter, the top-n skill counts
and the date window. Each is defined once in `Frame`.

Dates are abstract integers (days). Strings are character sequences. Case
folding and whitespace are ASCII. Where the repository's written description
and its code differ, the model follows the code:

- The Skills rewrite is only `replace(', ', ',')` followed by
  `replace(',', ', ')`. It does not trim tokens or drop empty ones.
- The location pattern's `\s` accepts a whitespace character after the
  comma, not only a space.
- The validators produce the rejected rows themselves
  (`df[~mask]`), not booleans.

## Model

| member | source | states |
|---|---|---|
| Validation.SingleSalaryOutlier | dv.py:6-8 | both salary bounds are inclusive: a table whose only out-of-range row is row i has exactly that row as its invalid salaries and a salary count of 1 |
| Validation.InvalidSalaries | dv.py:8 | the rejected rows are a subsequence of the table, hold exactly the rows with salary outside [50000, 250000], and keep each such row's multiplicity |
| Validation.SalaryPartition | dv.py:6-8 | valid and invalid salary rows partition the table: sizes add up to the table size and each row is in exactly one part |
| Validation.InvalidExperience | dv.py:11-13 | the rejected rows are exactly the rows whose level is not one of Entry-Level, Mid-Level, Senior (exact, case-sensitive), in table order |
| Validation.SkillsValidIff | dv.py:16-19 | a Skills cell passes iff one of DevOps, AWS, Azure, Kubernetes, GCP, Machine Learning is a substring of it |
| Validation.SkillsExamples | dv.py:18-19 | the test is case-sensitive substring search: "AWSome" passes and "aws" fails |
| Validation.SkillsLaterTokenExample | dv.py:18-19 | a common skill anywhere in the cell counts: "Python, Machine Learning" passes |
| Validation.InvalidSkills | dv.py:18-19 | the rejected rows are exactly the rows whose Skills cell contains no common skill, in table order |
| Validation.LocationValidIff | dv.py:22 | the hand-written recognizer accepts a location iff it is a non-empty run of letters/whitespace, a comma, one whitespace character and two upper-case letters |
| Validation.LocationValidMatches | dv.py:22 | a string the recognizer accepts splits into the pattern's four parts |
| Validation.MatchesLocationValid | dv.py:22 | a string made of the pattern's four parts is accepted by the recognizer |
| Validation.LocationOneComma | dv.py:22 | a valid location contains exactly one comma |
| Validation.LocationExamples | dv.py:22 | "Austin, TX" and "San Francisco, CA" are valid; "Austin TX", "Austin,TX", "Austin, tx" and "" are not |
| Validation.InvalidLocations | dv.py:23 | the rejected rows are exactly the rows whose location is invalid, in table order |
| Validation.Summarize | dv.py:25-29 | each printed count is the number of rows its own rule rejects (the length of that rule's subset), at most the table size, and zero iff every row passes that rule |
| Validation.RulesIndependent | dv.py:8-29 | the rules are independent: one row can be rejected by all four rules at once and then adds one to every count |
| MarketAnalysis.NormalizeJoinsPieces | marketanalysis.py:111 | the loaded cell is the comma-separated pieces of the text with every ", " collapsed to ",", joined again with ", " |
| MarketAnalysis.NormalizeIsSpaceCommas | marketanalysis.py:111 | the two chained replace-alls equal a one-pass rewrite that turns each comma into ", " and absorbs one space already after it |
| MarketAnalysis.NormalizeSpacesCommas | marketanalysis.py:111 | after the rewrite every comma is followed by a space |
| MarketAnalysis.NormalizeKeepsSpaces | marketanalysis.py:111 | a comma followed by k >= 1 spaces keeps exactly those k spaces; the text on either side is rewritten on its own |
| MarketAnalysis.NormalizeSpacesBareComma | marketanalysis.py:111 | a comma not followed by a space gets exactly one |
| MarketAnalysis.NormalizeKeepsCommaCount | marketanalysis.py:111 | the rewrite neither adds nor removes commas |
| MarketAnalysis.NormalizeNoComma | marketanalysis.py:111 | a cell without a comma is unchanged |
| MarketAnalysis.NormalizeFixesSpaced | marketanalysis.py:111 | a cell whose commas are all followed by a space is unchanged |
| MarketAnalysis.NormalizeIdempotent | marketanalysis.py:110-111 | rewriting twice equals rewriting once |
| MarketAnalysis.SpacedTokensHaveNoComma | marketanalysis.py:110-111 | once every comma is followed by a space, the tokens split on ", " contain no comma |
| MarketAnalysis.LoadSkills | marketanalysis.py:111 | loading rewrites only Skills: other columns are kept, every cell has its commas spaced, comma counts are kept, already-spaced cells are unchanged |
| MarketAnalysis.LoadSkillsIdempotent | marketanalysis.py:111 | loading a loaded table changes nothing |
| MarketAnalysis.LoadedTokensHaveNoComma | marketanalysis.py:184 | no exploded token of the loaded table contains a comma |
| Frame.Tokens | marketanalysis.py:184 | splitting on ", " gives one more token than there are occurrences of ", " |
| Frame.TokensJoin | marketanalysis.py:184 | joining the tokens with ", " gives the cell back |
| MarketAnalysis.SalaryAnalysis | marketanalysis.py:162-164 | keeps a row iff its location and level are among the chosen ones and lo <= salary <= hi; the result is a subsequence with each kept row's multiplicity |
| MarketAnalysis.SalaryAnalysisEmpty | marketanalysis.py:162-164 | an empty salary window, or no chosen location or level, shows nothing |
| MarketAnalysis.SkillFrequency | marketanalysis.py:184-187 | the top ten: min(10, number of distinct tokens) entries with distinct names, by non-increasing count; each is a token of the loaded table with its exact count, at least 1, and has no comma; a token left out is counted no more than any shown one |
| MarketAnalysis.SkillOptions | marketanalysis.py:233 | the picker's options are the distinct tokens of the loaded table, none with a comma |
| MarketAnalysis.MissingSkills | marketanalysis.py:239 | a subset of the top five skills, disjoint from the user's skills, containing every top-five skill not picked, at most 5, empty when all five are picked |
| Frame.AtLocationAndLevel | main.py:57 | keeps exactly the rows with the chosen location and level, in table order, with their multiplicities (the Salary page; the simulator at marketanalysis.py:237 selects its rows the same way) |
| Frame.AtLocationAndLevelKeepsAll | main.py:57 | when every row has the chosen location and level, nothing is dropped |
| Frame.ExplodeLength | main.py:73 | the exploded column has as many tokens as the sum over rows of (occurrences of ", " + 1) |
| Frame.ExplodeSource | main.py:73 | every exploded token comes from the Skills cell of some row |
| Frame.ExplodeHasRowTokens | main.py:73 | every token of every row's Skills cell is in the exploded column |
| Frame.SkillCounts | main.py:73-74 | exactly min(n, number of distinct tokens) entries with distinct names and non-increasing counts; each count is at least 1, is the exact number of that token, and at most the token total; an omitted token is counted no more than any shown one |
| Frame.ValueCountsSpec | main.py:74 | value_counts lists every token once with its exact count, by non-increasing count |
| Frame.TopSpec | main.py:74 | head(n) of value_counts has min(n, number of distinct tokens) entries, distinct, each a token with its exact count, by non-increasing count, and no token left out is counted more than a shown one |
| Frame.DateRange | main.py:92-95 | the trends window keeps exactly the rows with start <= date <= end, inclusive at both ends, with their multiplicities, sorted ascending by date (marketanalysis.py:208-209 is the same window) |
| JobBoard.SkillPieces | page.js:76 | a job without Skills has no pieces; otherwise one piece per comma-separated part |
| JobBoard.SkillPiecesTrimmed | page.js:76 | every piece is trimmed |
| JobBoard.EmptySkillsText | page.js:76 | an empty Skills text yields the single empty piece |
| JobBoard.AllSkills | page.js:75-77 | the skill list has no duplicates and holds exactly the pieces of all jobs |
| Seqs.DistinctFirstOccurrenceOrder | page.js:75-77 | the distinct elements keep the order of their first occurrences |
| JobBoard.AllSkillsSource | page.js:75-77 | every listed skill is the trimmed i-th comma-separated part of the Skills of some job k |
| JobBoard.AllSkillsHas | page.js:75-77 | every trimmed part of every job's Skills is listed |
| JobBoard.AllSkillsIgnoresMissing | page.js:76 | removing the jobs without Skills does not change the list |
| JobBoard.MatchingJobs | page.js:85-99 | keeps a job iff every selected skill is a case-insensitive substring of its Skills, and its location and experience equal the chosen ones when those are non-empty; a subsequence of the data with multiplicities |
| JobBoard.ApplyFilters | page.js:82-101 | the successive filters, each applied only when its choice is set, compute exactly the matching jobs |
| JobBoard.NoFilters | page.js:82-101 | with no skill, location or experience chosen the list is the whole data |
| JobBoard.TotalPages | page.js:66 | the number of pages is ceil(n / 15): the fewest pages of 15 that hold n jobs |
| JobBoard.PageOf | page.js:67 | page p >= 1 holds max(0, min(15, n - (p - 1) * 15)) jobs, so at most 15 and full before the last page; it is non-empty iff 1 <= p <= totalPages, and its i-th job is job (p - 1) * 15 + i |
| JobBoard.PagesPrefix | page.js:64-67 | pages 1..k together are the first min(15 k, n) jobs |
| JobBoard.PagesCover | page.js:64-67 | pages 1..totalPages together are the whole filtered list |
| JobBoard.Dashboard.PaginatedJobs | page.js:67 | the shown page is the whole slice of the current page: max(0, min(15, n - (p - 1) * 15)) jobs, those at the page's positions of the filtered list, and some whenever the filtered list has any |
| JobBoard.Dashboard.constructor | page.js:58-63 | the first render shows every job on page 1 with nothing chosen |
| JobBoard.Dashboard.RunEffects | page.js:70-72 | the effects on the three filter values reset the page to 1 and recompute the list |
| JobBoard.Dashboard.SetSelectedSkills | page.js:206 | a new selection always recomputes the list and goes back to page 1 |
| JobBoard.Dashboard.SetLocation | page.js:217 | a different location recomputes the list and goes back to page 1; the same one changes nothing |
| JobBoard.Dashboard.SetExperience | page.js:212 | a different experience recomputes the list and goes back to page 1; the same one changes nothing |
| JobBoard.Dashboard.Previous | page.js:305 | the page becomes max(p - 1, 1): never below 1; nothing else changes |
| JobBoard.Dashboard.Next | page.js:313 | the page becomes min(p + 1, totalPages): never above the last page; nothing else changes |
| JobBoard.CountBy | page.js:110-113 | each key is counted with the exact number of jobs that have it, keys in first-set order, and the counts add up to the number of jobs |
| JobBoard.GroupSalaries | page.js:116-132 | each key's group is the salaries of its jobs in order, keys in first-set order, and the groups together hold one salary per job |
| JobBoard.SalariesWithCount | page.js:116-132 | a key's group has one salary per job with that key |
| JobBoard.FirstMax | page.js:108 | the chosen entry has the largest count, and every earlier entry has a smaller one |
| JobBoard.TopLocation | page.js:105-108 | none iff the list is empty; otherwise a location of some job with the most jobs, the first such location in job order |
| JobBoard.MatchedSkills | page.js:361-363 | the matched skills are the listed skills, in order and with their multiplicities, whose lower-case form is a substring of the lower-cased text |
| JobBoard.ResumeJobs | page.js:367-371 | the resume's jobs are exactly the jobs containing every matched skill, case-insensitively, in order and with their multiplicities |
| JobBoard.ResumeJobsAreMatching | page.js:367-371 | the resume's jobs are the filter effect's result for the matched skills with no location and no experience |
| JobBoard.Dashboard.UploadResume | page.js:361-374 | the matched skills become the selection; the effect then recomputes the list with the current location and experience, which is the resume's jobs when both are empty; page 1 |

## Left out

- Pages, widgets, tabs, charts and styles. These are UI from Streamlit, React,
  Recharts and Plotly.
- Reading the CSV and JSON files, the hard-coded paths, the caching and
  `df.columns.str.strip()`. This is I/O; the model starts from the rows.
- Date parsing (`pd.to_datetime`, `dayjs(...).format`), unparsable dates
  (`NaT`), and the per-month grouping and sort of `salaryByMonth`. These are
  library calls; dates are integers here.
- Every floating-point result: means, `avgSalary` with its `NaN || 0`, the
  per-group averages, the rolling averages and the min/max of averages.
- `Object.entries` moving integer-like keys to the front. The model keeps
  plain insertion order, which is right for location and title strings.
- The reducers' accumulator `{}` inheriting `Object.prototype` (page.js:106,
  111, 117, 126). A key such as "constructor" or "toString" reads a function
  instead of `undefined`, so its count becomes a string and its salary group
  throws on `push`. The model's maps start empty and have no such keys.
- `chartData`, which only renames the count entries.
- Prophet forecasting, the word cloud and the unused imports. These are
  external libraries.
- The order in which pandas `value_counts` and `mode()` list equal counts. The
  model states the counts and their order only.
- The Home page metrics (`df.shape[0]`, `mode()[0]`).
- The table's `groupby(...).mean()` charts.
- Unicode case mapping and whitespace. The model's `toLowerCase` and `trim`
  are ASCII only, and its `\s` is `\s` as under `re.ASCII`, the set
  space, tab, newline, carriage return, vertical tab and form feed. Python's
  default `\s` on a str pattern also matches `\x1c` to `\x1f` and Unicode
  spaces. A location such as "Austin,\x1fTX" passes dv.py:22 but not the
  model's `LocationValid`.
- Python's `$` also matching just before a final newline.
- NaN Skills or Location cells, and the syntax errors from the line breaks at
  dv.py:6-7 and dv.py:12-13. The rules are modelled as intended, over present
  strings and integers.
- Reading the uploaded file (`file.text()`). The model takes the text as a
  parameter. The switch to the Skill Match tab is UI.
- JobBoard.Dashboard.Next: requires that the current page has jobs. The
  button is only rendered when it does, and that is what keeps totalPages at
  least 1.
- MarketAnalysis.SkillFrequency: shows the counts, not which of several
  equally counted tokens pandas puts first.
- Frame.SkillCounts: same as SkillFrequency for tied tokens.
