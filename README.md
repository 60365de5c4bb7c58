# HTML report aggregation and log rotation of ecommerce-selenium-suite

This project models in Dafny the two pieces of infrastructure logic of the
Selenium test suite:

* **`HTMLReportGenerator`** (`utils/html_reporter.py`), the result sink of a
  test run. It records one result per test (status upper-cased, browser tag
  lower-cased). From those records it derives four things:
  * the summary counts and the pass rate;
  * a per-browser counter dictionary;
  * one browser card per dictionary key except `'unknown'`;
  * two table rows per record, numbered from 1.

  The report is modelled as a structure of summary, cards and rows, not as
  HTML text.
* **`pytest_configure`** (`conftest.py`), which names the run's log file,
  rotates older logs and writes the header:
  * the run name is the first argument's basename without its extension, or
    `full_suite`;
  * the file name is `<run>_<YYYY-mm-dd_HHMM>.txt`;
  * the header is `"\n\n" + RUN + " TEST\n" + "\n"`;
  * the retention rule removes all but the four newest logs once there are
    five or more.

Files:

* `text.dfy`
  * `Wrappers`: `Option` and `Result`.
  * `Text`: the Python string operations the code uses, namely `str.upper`,
    `str.lower`, `os.path.basename` and `os.path.splitext`.
* `html_reporter.dfy`, module `HtmlReporter`:
  * the class `ReportGenerator`, whose `results` field is appended to in
    place;
  * the counting, card and row loops, as methods proved against fold
    functions (`StatsOf`, `CardsOf`, `RowsOf`);
  * lemmas about those functions.
* `conftest.dfy`, module `Conftest`:
  * the naming functions;
  * the glob and the retention rule as functions with lemmas;
  * the class `LogFolder`, whose `files` map (name to modification time and
    content) is changed by `Rotate` and `Configure`.

The clock, the directory listing order and the set of files the operating
system refuses to remove are all parameters.

Where the code and its design intent differ, the model follows the code:

* An `os.remove` failure during rotation propagates as an error (`Failure`).
  It is not swallowed.
* `add_test_result` stores `""` for a missing browser, and the card loop
  skips only the key `'unknown'`. So the empty tag gets a card of its own
  (`EmptyTagGetsCard`).
* The time column is `timestamp.split('T')[1][:8]`. That is the text between
  the first and the second `'T'`, not everything after the first `'T'`.
* A non-empty timestamp without a `'T'` raises `IndexError`, modelled as
  `TimestampWithoutT`.
* An output path without a directory part makes `os.makedirs("")` raise,
  modelled as `MissingOutputDirectory`.

The one place where the code departs from its own intent is the selection
of a run's logs for rotation, described under "## Findings". Rotation takes
the selection as a parameter: `AsWritten` is the glob the code uses,
`OwnLogsOnly` the run's own logs. The retention bounds are proved for both.

## Model

| member | source | states |
|---|---|---|
| Text.Upper | utils/html_reporter.py:21 | `str.upper()`: same length; no lower-case letter is left; each character agrees with the input up to case |
| Text.Lower | utils/html_reporter.py:27 | `str.lower()`: same length; no capital is left; each character agrees with the input up to case |
| Text.LowerIdempotent | utils/html_reporter.py:268 | lower-casing an already lower-cased tag changes nothing |
| Text.UpperIgnoresCase | conftest.py:19 | two names that agree up to case have the same upper-case form |
| Text.Basename | conftest.py:16 | `os.path.basename`: a '/'-free suffix of the path that follows its last '/'; the whole path when it has no '/' |
| Text.SplitExt | conftest.py:16 | `os.path.splitext`: root + extension is the name; the extension is empty or a '.' followed by no further '.'; it is non-empty exactly when some dot is preceded by a non-dot character |
| HtmlReporter.NewResult | utils/html_reporter.py:19-28 | the stored record: the status upper-cased; the browser lower-cased, and `""` when none is given; all other fields as passed, and the timestamp as read from the clock |
| HtmlReporter.StatusIcon | utils/html_reporter.py:270-278 | the table icon for the four known statuses; the question mark exactly for any other status |
| HtmlReporter.StatusIconsDistinct | utils/html_reporter.py:272-277 | distinct known statuses get distinct icons |
| HtmlReporter.BrowserIcon | utils/html_reporter.py:261-268 | the table icon of the lower-cased tag when it is chrome, firefox or edge; the globe exactly when it is none of them |
| HtmlReporter.BrowserIconIgnoresCase | utils/html_reporter.py:268 | the upper-cased, lower-cased and original tag all get the same icon |
| HtmlReporter.CountStatusIsOccurrences | utils/html_reporter.py:42-44 | each status count is the number of records that carry that status |
| HtmlReporter.PassRate | utils/html_reporter.py:46 | 0 when the total is not positive (no division by zero); otherwise `rate * total == passed * 100`; within [0, 100] whenever 0 <= passed <= total |
| HtmlReporter.Summarize | utils/html_reporter.py:41-46 | the total is the number of records; passed, failed and skipped are the counts of those statuses, and together stay within the total; the rate is 0 for an empty run and is otherwise the passed share in percent, within [0, 100] |
| HtmlReporter.CountStatus | utils/html_reporter.py:42-44 | a status count never exceeds the number of records; it is 0 exactly when no record has that status, and the number of records exactly when all have it |
| HtmlReporter.CountsWithinTotal | utils/html_reporter.py:41-44 | passed + failed + skipped <= total, with equality exactly when every record's status is PASSED, FAILED or SKIPPED |
| HtmlReporter.FirstSeenKeys | utils/html_reporter.py:199-203 | the first-seen keys are exactly the tags that occur, each listed once |
| HtmlReporter.FirstSeenOrder | utils/html_reporter.py:199-203 | the first-seen keys come in the order of the tags' first occurrences |
| HtmlReporter.TallyAbsent | utils/html_reporter.py:200-211 | a tag that never occurs has all-zero counters |
| HtmlReporter.StatsOrder | utils/html_reporter.py:199-203 | the dictionary's keys are the tags that occur, in insertion (first-seen) order |
| HtmlReporter.StatsTally | utils/html_reporter.py:200-211 | each key is mapped to the counters of its own records |
| HtmlReporter.StatsKeys | utils/html_reporter.py:197-213 | both facts above together, and the dictionary invariant (each key listed once, no others) |
| HtmlReporter.TallyTotalIsOccurrences | utils/html_reporter.py:201-205 | each key's total is the number of records with that tag |
| HtmlReporter.TallyBounds | utils/html_reporter.py:205-211 | within each browser the three status counters are non-negative and add up to at most its total |
| HtmlReporter.PartitionByTally | utils/html_reporter.py:197-213 | the per-tag counters, summed over the distinct tags, equal the global (length, passed, failed, skipped) |
| HtmlReporter.BrowserStatsPartitionTotals | utils/html_reporter.py:197-213 | the counters in the dictionary partition the global ones: their totals sum to the number of records, and their passed/failed/skipped sum to the global counts |
| HtmlReporter.CountResult | utils/html_reporter.py:201-211 | one iteration of the counting loop: a new tag is inserted with zero counters at the end of the key order, then its total and its status counter go up by one |
| HtmlReporter.BrowserStatistics | utils/html_reporter.py:197-213 | the counting loop returns the dictionary of the whole list (the loop invariant: the dictionary of the prefix seen so far) |
| HtmlReporter.CardsOfShape | utils/html_reporter.py:222-227 | every card belongs to a key other than 'unknown' and carries that key's counters and pass rate |
| HtmlReporter.CardsOfCount | utils/html_reporter.py:222-224 | one card per key, one fewer when 'unknown' is a key |
| HtmlReporter.CardsOfCover | utils/html_reporter.py:222-226 | every key other than 'unknown' gets a card |
| HtmlReporter.CardsOfOrder | utils/html_reporter.py:222 | cards follow the key order |
| HtmlReporter.BrowserSectionOfRun | utils/html_reporter.py:217-218 | the card section is absent exactly when nothing was recorded |
| HtmlReporter.BrowserCardsCount | utils/html_reporter.py:222-224 | a run has one card per distinct tag, one fewer when 'unknown' occurs |
| HtmlReporter.BrowserCardsCover | utils/html_reporter.py:222-226 | every tag of the run other than 'unknown' has a card |
| HtmlReporter.CountersCard | utils/html_reporter.py:226-227 | a card built from valid counters has its rate in [0, 100] and rate * total == passed * 100 |
| HtmlReporter.TallyCard | utils/html_reporter.py:226-227 | the card of a tag of the run: its total is the tag's number of records (> 0); passed + failed stays within it; its rate is the passed share in percent |
| HtmlReporter.BrowserCardsContent | utils/html_reporter.py:222-227 | every card of a run satisfies the above |
| HtmlReporter.BrowserCardsFirstSeenOrder | utils/html_reporter.py:222 | the cards of a run come in the order in which their tags were first recorded |
| HtmlReporter.BrowserSummaryCards | utils/html_reporter.py:215-259 | the card loop, skipping 'unknown', produces the card section of the dictionary |
| HtmlReporter.EmptyTagGetsCard | utils/html_reporter.py:223 | a record stored without a browser puts the empty tag on a card of its own |
| HtmlReporter.TimeColumn | utils/html_reporter.py:102 | "N/A" for an empty timestamp; an error exactly for a non-empty timestamp without 'T'; otherwise the text that follows the first 'T', up to the next 'T' or the end, cut to its first 8 characters |
| HtmlReporter.TimeOfIsoTimestamp | utils/html_reporter.py:102 | for an ISO-8601 timestamp `date T clock`, the column is the first 8 characters of the clock |
| HtmlReporter.RowFor | utils/html_reporter.py:72-112 | the row pair carries its index, the name, status, browser and details; the status class is the lower-cased status; the status and browser icons are those of the icon tables; the duration is "N/A" exactly when it is not positive and the seconds otherwise; the time is the time column; the error block holds the error message exactly when there is one; the row fails exactly on an unsplittable timestamp |
| HtmlReporter.RowsSucceed | utils/html_reporter.py:102 | the table renders exactly when every timestamp is empty or contains 'T' |
| HtmlReporter.RowsNumbered | utils/html_reporter.py:72-92 | on success, one row pair per record; pair i is record i's, numbered i + 1 |
| HtmlReporter.RowsFirstFailure | utils/html_reporter.py:72-102 | on failure, the error names the first record whose timestamp cannot be split |
| HtmlReporter.RowsFailAfter | utils/html_reporter.py:72-102 | a failure among the first n rows is the failure of the whole table |
| HtmlReporter.RenderRow | utils/html_reporter.py:73-112 | the loop body computes exactly that record's row pair, or the error |
| HtmlReporter.ResultRows | utils/html_reporter.py:71-112 | the row loop produces the table of all records, or stops at the first error |
| HtmlReporter.ReportConsistent | utils/html_reporter.py:35-59 | a rendered report has one row pair per record; its summary counts are the status occurrences; its browser count is the number of distinct tags; it has no card section exactly when nothing was recorded |
| HtmlReporter.ReportGenerator.constructor | utils/html_reporter.py:9-13 | the project name is set, the result list is empty, and there are no session times |
| HtmlReporter.ReportGenerator.AddTestResult | utils/html_reporter.py:15-28 | appends exactly the normalised record at the end; earlier records, the name and the times are unchanged |
| HtmlReporter.ReportGenerator.SetSessionTimes | utils/html_reporter.py:30-33 | sets both times and changes nothing else |
| HtmlReporter.ReportGenerator.GenerateHtmlReport | utils/html_reporter.py:35-59 | the report of the recorded results, or the exception that stops the rendering |
| Conftest.RunName | conftest.py:14-18 | `full_suite` without arguments; otherwise a '/'-free prefix of the first argument's basename; what follows it is empty or a '.' with no further '.', and is non-empty exactly when some dot of the basename follows a non-dot character |
| Conftest.BasenameOfPath | conftest.py:16 | the basename of `dir/file` is `file` |
| Conftest.SplitExtOfScript | conftest.py:16 | the root of `stem.ext` is `stem` |
| Conftest.RunNameOfScript | conftest.py:14-18 | `pytest dir/login.py` gives the run `login` |
| Conftest.LogFileName | conftest.py:22-24 | the file name `run_stamp.txt` always matches its run's glob |
| Conftest.MatchesIsLogFileName | conftest.py:22-27 | a name matches the glob `<run>_*.txt` exactly when it is the run's log file name for some stamp |
| Conftest.Header | conftest.py:38-41 | the header is `"\n\n"`, the upper-cased run name, `" TEST\n"` and `"\n"` |
| Conftest.HeaderIgnoresCase | conftest.py:19 | two runs share a header exactly when their names agree once upper-cased |
| Conftest.OwnLogOfLogFileName | conftest.py:22-23 | a file name is one of the run's own logs exactly when its stamp has the strftime shape |
| Conftest.OwnLogIsGlobMatch | conftest.py:27 | every log of the run matches the run's glob |
| Conftest.OwnLogsDisjoint | conftest.py:27 | a log belongs to one run only |
| Conftest.GlobCatchesOtherRun | conftest.py:27 | the glob of `login` matches a log of `login_basic`, which is not a log of `login` |
| Conftest.Filter | conftest.py:27 | the names kept are exactly the listed names the test accepts, without duplicates when the listing has none |
| Conftest.Glob | conftest.py:27 | the glob keeps exactly the listed names that match `<run>_*.txt`, each once |
| Conftest.OwnLogs | conftest.py:27 | the run's own logs: exactly the listed names that are the run's log file name for a strftime stamp, each once |
| Conftest.Candidates | conftest.py:27 | the names the rotation considers are exactly the listed names the selection (glob as written, or own logs) attributes to the run, each once |
| Conftest.InsertByMtime | conftest.py:28 | inserting a name adds exactly that name (as a multiset) |
| Conftest.SortByMtime | conftest.py:28 | the sort is a permutation of the names |
| Conftest.InsertKeepsOrder | conftest.py:28 | insertion into an oldest-first list keeps it oldest first |
| Conftest.SortIsOldestFirst | conftest.py:28 | the sorted list runs oldest first |
| Conftest.Retire | conftest.py:29-30 | the names removed are a prefix of the sorted list; four are kept when there are at least five, all of them otherwise |
| Conftest.Doomed | conftest.py:27-30 | only candidates are removed; none with fewer than five candidates, otherwise exactly n - 4 |
| Conftest.RetentionPolicy | conftest.py:28-31 | no file is removed twice, and no removed file is newer than a kept candidate |
| Conftest.RemoveNames | conftest.py:30-31 | removal keeps exactly the other files, unchanged |
| Conftest.FirstBlocked | conftest.py:30-31 | the position of the first name that cannot be removed: all before it can be |
| Conftest.AtMostFiveLogs | conftest.py:26-41 | after rotation and the creation of the new log, at most five files the selection attributes to the run remain, with the glob as written and with the run's own logs alike |
| Conftest.OthersUntouched | conftest.py:27-31 | files the selection does not attribute to the run (other than the new log's own name) keep their place and content, with the glob as written and with the run's own logs alike |
| Conftest.OtherRunsKept | conftest.py:27-31 | with the run's own logs selected, the logs of every other run survive |
| Conftest.GlobRotatesOtherRun | conftest.py:27-31 | as written, starting `login` in a folder of five `login_basic` logs removes one of them; the run's own-log selection removes none |
| Conftest.LogFolder.constructor | conftest.py:10-11 | the folder holds the given files |
| Conftest.LogFolder.Rotate | conftest.py:26-31 | removes the selected files oldest first, all but the four newest, stopping at the first one that cannot be removed and reporting it; the folder is the old one minus exactly the names removed |
| Conftest.LogFolder.Configure | conftest.py:7-41 | names the run and its log; rotates the selected files; on success creates the log with its header and returns its name; a failed removal stops it before the log is created |

## Left out

- HTML, CSS and JavaScript text of the report (utils/html_reporter.py:114-195 and 280-661): the report is a structure of summary, cards and rows. The page title, project heading and "Generated" line are not modelled.
- Float formatting (`:.2f`, `:.1f`) and the `total_duration` sum: durations are reals, and only their sign is used. Pass rates are exact reals, not floats.
- Clock reads (`datetime.now()`, `isoformat`, `strftime`): timestamps are parameters. `IsStamp` describes the shape `strftime("%Y-%m-%d_%H%M")` yields for four-digit years.
- Filesystem I/O: `os.makedirs` of the logs and report folders, `open`/`write`, `glob`'s directory scan, `os.path.getmtime`. The folder is a map; the listing order is a parameter; an `os.remove` failure is a parameter set of names.
- The logging-handler setup and the "Logging initialized" line (conftest.py:33-53).
- Case mapping is ASCII only; paths are POSIX paths; glob metacharacters inside a run name are not modelled; directories in the logs folder are not modelled.
- Page objects, helpers, browser drivers and tests: they are Selenium calls, not part of this model.
- Text.Upper, Text.Lower: only ASCII letters change case; Python also maps non-ASCII letters.
- Conftest.SortByMtime: it is stable as defined (equal times keep listing order), but no lemma states stability; only the permutation and the order are proved.
- Conftest.LogFolder.Rotate: takes the selection as a parameter: `AsWritten` is the glob of conftest.py:27, `OwnLogsOnly` the corrected selection of "## Findings". Only `OwnLogsOnly` keeps other runs' logs (`Conftest.OtherRunsKept` against `Conftest.GlobRotatesOtherRun`).
- Conftest.LogFolder.Configure: takes the same selection parameter as `Rotate`; it returns the log's name instead of a handler, and stops after writing the header.

## Findings

| source | as written | input that shows it | evidently intended | confidence | as-written member | corrected member |
|---|---|---|---|---|---|---|
| conftest.py:27 | the rotation selects files with the glob `<run>_*.txt`, which also matches the logs of any run whose name starts with `<run>_` | starting `tests/login.py` (run `login`) with five logs of `tests/login_basic.py` in the folder, such as `login_basic_2024-01-31_0915.txt`: the oldest `login_basic` log is removed | keep the most recent logs "for this test type" only, touching no other run's logs | not executed | Conftest.GlobRotatesOtherRun | Conftest.OtherRunsKept |
