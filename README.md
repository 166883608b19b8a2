# Android logcat analyzer: a verified model of `LogcatAnalyzer`

This project models the analysis core of `LogcatAnalyzer` from `logcat_analyzer.py`. That
class reads a text dump of Android's `adb logcat` and does five things:

- It **parses** one line of the `time` format that `adb logcat -v time` writes,
  `MM-DD HH:MM:SS.mmm L/Tag( pid): message`, into a record with a timestamp, a level, a tag,
  a pid and a message. It skips the `--------- beginning of` buffer separators and anything
  that does not match.
- It **analyses** a file. It counts the records per level and per tag. It lists
  `tag: message[:100]` for every error and every warning. It reports:
  - the level distribution, in the order E W I D V F, with percentages;
  - the total;
  - the ten most active tags;
  - at most ten errors and ten warnings, each section shown only when its list is non-empty,
    and a list longer than ten followed by "and N more".
- It **filters** a file by level or by tag. It copies every line whose record has that
  level, or whose tag contains the requested tag ignoring case, to an output file. The
  output file's name defaults to `logcat_<level lower-cased>.txt` or
  `logcat_<tag with _ for spaces>.txt`.
- It **searches** for a keyword, case-sensitively or not. It shows every matching line with
  its 1-based line number, stripped of surrounding white space, and stops after 20 matches.
- It writes a **critical report** from the file's errors and warnings:
  - the total number of errors and of warnings;
  - the ten most frequent `tag: message[:50]` error groups;
  - the ten tags with most errors;
  - the first twenty errors whose `tag: message[:80]` headline has not been seen before;
  - the ten tags with most warnings.

  Alongside the written report it prints the totals again and the number of distinct
  error groups, which is not written into the report file.

A file is modelled as the sequence of its lines, each with its line terminator, as Python's
file iteration yields them.

- Python's `Counter` is modelled as an association list kept in first-insertion order, which
  is the order a `dict` keeps.
- `most_common(n)` is modelled as a stable insertion sort by decreasing count, cut to `n`
  entries.
- The regular expression is modelled as a hand-written scanner over the stripped line.

## Layout

| file | module | contents |
|---|---|---|
| `wrappers.dfy` | `Wrappers` | `Option` |
| `text.dfy` | `Text` | white space and digit classes, `strip`, slicing, `lower`, substring test, `replace` |
| `counters.dfy` | `Counters` | `Counter` as an association list, `most_common` |
| `parser.dfy` | `LogLine` | log levels, the record, `parse_logcat_line` and its round trip with a formatter |
| `records.dfy` | `Records` | the records of a file, per-level selection, headlines `tag: message[:w]` |
| `analysis.dfy` | `Analysis` | `analyze_file` |
| `filters.dfy` | `Filters` | `filter_by_level`, `filter_by_tag` |
| `search.dfy` | `Search` | `search_keyword` |
| `report.dfy` | `CriticalReport` | `create_critical_report` |

The loops of the source become methods proved against specification functions:
`Analysis.CountLines`, `Filters.Filter`, `Search.SearchKeyword`,
`CriticalReport.CollectIssues` and `CriticalReport.FirstUniqueErrors`. Parsing, counting and
selection are functions, and lemmas state their properties.

## Model

| member | source | states |
|---|---|---|
| LogLine.LevelOf | logcat_analyzer.py:48 | a level letter is recognised exactly when it is one of `VDIWEF`, and the level found has that letter |
| LogLine.TimestampLength | logcat_analyzer.py:48 | the timestamp scanner takes every fractional digit: what follows the timestamp it finds is not a digit |
| LogLine.TimestampMeaning | logcat_analyzer.py:48 | a string is a timestamp to the scanner exactly when it matches `\d{2}-\d{2}\s+\d{2}:\d{2}:\d{2}\.\d+` as a whole: date, non-empty white space, clock, non-empty fraction |
| LogLine.TimestampPrefix | logcat_analyzer.py:48 | what the timestamp scanner accepts at the start of a line is a timestamp by itself, so it matches the timestamp pattern |
| LogLine.Parse | logcat_analyzer.py:40-58 | a separator line gives no record, and every record returned is well shaped: a stripped tag without `(`, a non-empty all-digit pid, and a message with no leading white space and no line feed |
| LogLine.ParseHeader | logcat_analyzer.py:48-57 | the part after the timestamp yields a record with that timestamp, a stripped tag, a digit pid and a clean message |
| LogLine.ParsePid | logcat_analyzer.py:48-57 | the part after `(` keeps the level and tag already read, and yields an all-digit pid and a clean message |
| LogLine.SeparatorFailsPattern | logcat_analyzer.py:42-49 | a separator line would not match the pattern either, so the early return only saves work |
| LogLine.StripFormat | logcat_analyzer.py:49 | stripping a printed record gives it back unchanged, except that the space before an empty message goes, and a printed record never starts like a separator |
| LogLine.ParseFormat | logcat_analyzer.py:46-57 | round trip: parsing a record printed as `ts L/tag(pad pid): message` gives back that record, for any pid padding |
| LogLine.ParseLayout | logcat_analyzer.py:46-57 | every field of a parsed record comes from its place in the stripped line: the timestamp, white space, the level letter and `/`, a raw tag without `(` that strips to the tag, `(`, white space, the pid, `):`, white space, the message, then nothing or a line feed |
| LogLine.ProseRejected | logcat_analyzer.py:49-58 | a line of prose is not a log record |
| Text.Strip | logcat_analyzer.py:49 | the result has no white space at either end, a stripped string is unchanged, and no character is invented |
| Text.StripSlice | logcat_analyzer.py:49 | stripping removes white space from the two ends only: the result is a contiguous slice of the input, with only white space before and after it |
| Text.StripDropsOneSpace | logcat_analyzer.py:49 | stripping a line that starts and ends with a non-space, with one space appended, gives back the line |
| Text.Take | logcat_analyzer.py:80 | slicing `[:n]` gives the prefix of length `min(n, len)` |
| Text.Lower | logcat_analyzer.py:145 | lower-casing keeps the length and maps every character by itself |
| Text.ContainsAt | logcat_analyzer.py:145 | `sub in s` holds exactly when `sub` occurs in `s` at some position |
| Text.ReplaceChar | logcat_analyzer.py:138 | `replace(" ", "_")` keeps the length, changes exactly the spaces, and leaves no space behind |
| Counters.AddGet | logcat_analyzer.py:76-77 | `counter[k] += 1` raises the count of `k` by one and no other count |
| Counters.AddSum | logcat_analyzer.py:76-77 | each increment raises `sum(counter.values())` by one |
| Counters.AddKeys | logcat_analyzer.py:76-77 | a new key is appended after the existing keys, and an existing key keeps its place |
| Counters.CounterOfCounts | logcat_analyzer.py:66-77 | the counter built from a sequence holds, for every key, its number of occurrences |
| Counters.CounterOfTotal | logcat_analyzer.py:89 | the counts of a counter built from a sequence add up to the sequence's length |
| Counters.CounterOfKeys | logcat_analyzer.py:99 | the keys of a counter are the distinct elements in order of first occurrence |
| Counters.CounterOfPositive | logcat_analyzer.py:99 | no key of a built counter has count zero |
| Counters.FirstSeenElements | logcat_analyzer.py:232-237 | the first occurrences are distinct and are exactly the elements of the sequence |
| Counters.SortPermutes | logcat_analyzer.py:99 | the sort behind `most_common` is a permutation of the entries |
| Counters.SortSorted | logcat_analyzer.py:99 | the sort orders entries by non-increasing count |
| Counters.SortStable | logcat_analyzer.py:99 | the sort is stable: entries with equal counts keep their counter order |
| Counters.MostCommonShape | logcat_analyzer.py:99 | `most_common(n)` returns `min(n, len)` entries in non-increasing count, all taken from the counter |
| Counters.MostCommonTop | logcat_analyzer.py:99 | no entry left out of `most_common(n)` has a larger count than one kept |
| Counters.MostCommonTies | logcat_analyzer.py:99 | among entries with the same count, those kept are the first ones in counter order |
| Counters.MostCommonCounts | logcat_analyzer.py:99 | on a counter of a sequence, `most_common(n)` has `min(n, distinct)` entries, each with its true number of occurrences |
| Records.AtLevelMembers | logcat_analyzer.py:79-82 | a record is selected for a level exactly when it is a record of the file with that level |
| Records.AtLevelCount | logcat_analyzer.py:76-82 | the records selected for a level are as many as that level's occurrences |
| Records.LevelsPartition | logcat_analyzer.py:89-90 | the six level counts add up to the number of records |
| Analysis.CountLines | logcat_analyzer.py:66-82 | the loop ends with the level counter, the tag counter and the error and warning headline lists of the whole file |
| Analysis.ListStep | logcat_analyzer.py:79-82 | a parsed record adds its `tag: message[:100]` headline to the list of its own level and to no other list |
| Analysis.Shares | logcat_analyzer.py:90-93 | every distribution line is a level of the order with its positive count |
| Analysis.Section | logcat_analyzer.py:102-114 | a section exists exactly when its list is non-empty, shows the first `min(10, len)` entries, and has an "and N more" exactly when the list is longer than ten, with shown plus more equal to the total |
| Analysis.AnalyzeFile | logcat_analyzer.py:60-116 | a missing file gives no summary, and an existing one gives the summary of its lines |
| Analysis.SummaryTotals | logcat_analyzer.py:89 | the total is the number of parsed lines, and both the tag counts and the per-level counts add up to it |
| Analysis.SummaryIssueLists | logcat_analyzer.py:79-82 | the error and warning lists are as long as the numbers of error and warning records; each error entry is `tag: message[:100]` of an error record, and each warning entry that of a warning record |
| Analysis.ErrorListEntries | logcat_analyzer.py:79-80 | the error list has one entry per error record, each the headline of an error record |
| Analysis.WarningListEntries | logcat_analyzer.py:81-82 | the warning list has one entry per warning record, each the headline of a warning record |
| Analysis.SharesPercents | logcat_analyzer.py:91-93 | every shown percentage is the level's count over the total times 100 |
| Analysis.SharesComplete | logcat_analyzer.py:90-92 | a level of the order is shown exactly when its count is positive |
| Analysis.SharesOrdered | logcat_analyzer.py:90 | when the order list is strictly ranked, the shown levels keep its order |
| Analysis.ReportOrderTotal | logcat_analyzer.py:89-90 | the counts over the report order are the sum of the six level counts |
| Analysis.SharesCount | logcat_analyzer.py:90-92 | the counts shown add up to the counts of the listed levels |
| Analysis.SharesPercent | logcat_analyzer.py:93 | the shown percentages add up to the percentage of the shown counts |
| Analysis.Distribution | logcat_analyzer.py:88-94 | for E W I D V F, a level is shown exactly when it occurs, in that order, the counts shown add up to the total, and the percentages add up to 100 when there is a record |
| Analysis.SummaryDistribution | logcat_analyzer.py:88-96 | the same facts for the summary of a file: each occurring level is shown once, with its number of records, and the shown counts make up the total |
| Analysis.SummaryEmpty | logcat_analyzer.py:88-114 | a file without records shows no distribution, a zero total, no tags and no error or warning section, so no percentage divides by zero |
| Analysis.SummaryTopTags | logcat_analyzer.py:98-100 | the top tags are `min(10, distinct tags)` tags with their true counts, in non-increasing order, with no tag left out that outnumbers a shown one and ties broken by first appearance |
| Filters.Filter | logcat_analyzer.py:123-130 | the loop writes exactly the lines the criterion keeps, in order, and counts them |
| Filters.FilterByLevel | logcat_analyzer.py:118-133 | the destination is the given name or `logcat_<level lower-cased>.txt`, and the lines written are the file's lines whose record has that level |
| Filters.FilterByTag | logcat_analyzer.py:135-150 | the destination is the given name or `logcat_<tag with _ for spaces>.txt`, and the lines written are those whose record's tag contains the tag, ignoring case |
| Filters.SelectedMembers | logcat_analyzer.py:143-147 | a line is written exactly when it is a line of the file whose record passes the test |
| Filters.SelectedPrefix | logcat_analyzer.py:143-147 | what a prefix of the file writes is a prefix of what the whole file writes |
| Filters.SelectedRecords | logcat_analyzer.py:126-130 | re-parsing the written lines gives exactly the matching records, one per written line |
| Filters.MatchingLevel | logcat_analyzer.py:128 | the level filter keeps the records of that level |
| Filters.MatchingEmptyTag | logcat_analyzer.py:145 | the empty tag is contained in every tag |
| Filters.LevelFilterCount | logcat_analyzer.py:118-133 | the level filter writes as many lines as the analysis counts for that level |
| Filters.EmptyTagKeepsAll | logcat_analyzer.py:135-150 | filtering by the empty tag writes every line that parses |
| Filters.LowerIdempotent | logcat_analyzer.py:145 | lower-casing twice is lower-casing once |
| Filters.TagTestIgnoresCase | logcat_analyzer.py:145 | the tag test gives the same answer whatever the case of the requested tag or of the record's tag |
| Filters.LevelFileNamesDiffer | logcat_analyzer.py:121 | different levels get different default output files |
| Filters.TagFileNames | logcat_analyzer.py:138 | the default tag file name has no space in it, and a tag shares its file with the tag that has `_` for each of its spaces |
| Filters.TagFileNamesShared | logcat_analyzer.py:138 | two tags get the same default file exactly when they have the same length and differ only where both hold a space or an underscore |
| Search.Hits | logcat_analyzer.py:158-166 | every matching line number is between 1 and the number of lines |
| Search.HitsMembers | logcat_analyzer.py:158-166 | a number is a hit exactly when it is a 1-based line number whose line matches the keyword |
| Search.HitsOrdered | logcat_analyzer.py:158 | hits come in strictly increasing line order |
| Search.HitsPrefix | logcat_analyzer.py:158-166 | the hits of a prefix of the file are a prefix of the hits of the file |
| Search.SearchStep | logcat_analyzer.py:158-166 | reading one more line adds its number to the hits exactly when it matches, and a match adds the line's number and stripped text to the output |
| Search.Stripped | logcat_analyzer.py:161 | each shown line is the stripped source line |
| Search.PrintedEntries | logcat_analyzer.py:161-165 | each printed entry is a hit's line number paired with that line, stripped |
| Search.ScanEnd | logcat_analyzer.py:168-170 | when the scan ends, the results are the first 20 hits, the stop happens exactly when there are at least 20 hits, and it happens at the 20th hit's line |
| Search.SearchKeyword | logcat_analyzer.py:152-175 | the results are the first 20 matching lines, numbered and stripped; the "found more" notice appears exactly when there are at least 20 matches; otherwise the whole file is read |
| Search.SensitiveMatchIsInsensitive | logcat_analyzer.py:159-165 | a case-sensitive match is also a case-insensitive match |
| CriticalReport.IssueStep | logcat_analyzer.py:192-202 | one more issue raises its tag count and its `tag: message[:50]` group count by one |
| CriticalReport.CollectIssues | logcat_analyzer.py:181-202 | the loop ends with the error and warning records of the file, their per-tag counters and their per-group counters |
| CriticalReport.FirstByKeyHeadlines | logcat_analyzer.py:232-237 | the errors kept by the unique-message scan carry exactly the distinct headlines, in order of first appearance |
| CriticalReport.FirstByKeyPrefix | logcat_analyzer.py:232-237 | the unique errors of a prefix are a prefix of the unique errors of the whole list |
| CriticalReport.SeenHeadline | logcat_analyzer.py:236-237 | a headline is in the seen set exactly when some error carries it |
| CriticalReport.FirstOccurrenceLast | logcat_analyzer.py:236-237 | the latest error passes the `not in seen_messages` test exactly when no earlier error has its headline |
| CriticalReport.UniqueStep | logcat_analyzer.py:234-240 | one error either extends the shown list, when there is room and its headline is new, or leaves it unchanged |
| CriticalReport.FirstUniqueErrors | logcat_analyzer.py:230-240 | the loop shows the first twenty errors whose `tag: message[:80]` headline is new |
| CriticalReport.CreateCriticalReport | logcat_analyzer.py:177-263 | the report file's totals, three most-common sections and unique errors, and the printed number of distinct groups, are those of the file |
| CriticalReport.FirstByKeyMembers | logcat_analyzer.py:234-237 | every error that is the first with its headline is kept |
| CriticalReport.FirstByKeyFirst | logcat_analyzer.py:234-237 | every kept error is the first error with its headline |
| CriticalReport.ReportTotals | logcat_analyzer.py:211-212 | the totals are the numbers of error and warning records, every tag and group counter adds up to its total, and the number of unique error types printed at line 262 is the number of distinct `tag: message[:50]` groups |
| CriticalReport.ReportFrequencies | logcat_analyzer.py:218-247 | each frequency section is `most_common(10)` of its counter: at most ten entries, non-increasing, with the true number of errors per group, errors per tag and warnings per tag |
| CriticalReport.TakeFirstByKey | logcat_analyzer.py:232-240 | the first `n` unique entries have distinct headlines, are each the first of their headline, and include every first occurrence when fewer than `n` are shown |
| CriticalReport.ReportUniqueErrors | logcat_analyzer.py:230-240 | at most twenty unique errors are shown, with distinct headlines, each the first error of its headline, and every distinct headline is shown when fewer than twenty are |

## Left out

- `capture_logcat`, `monitor_app`, the `adb` subprocess calls and the interactive menu: these
  are process and terminal I/O and are not part of this model.
- File reading and writing: a file is its sequence of lines. In `analyze_file` a missing
  file is the `None` input of `Analysis.AnalyzeFile`. The other operations take the lines
  directly, because the source lets their `FileNotFoundError` escape. The filters return what
  they would write and where, not a written file.
- Undecodable bytes are dropped by `errors='ignore'` before a line reaches the model, so the
  model starts from decoded characters.
- All console output: banners, emoji and column widths.
  - `Analysis.AnalyzeFile` returns the numbers that would be printed.
  - `Search.SearchKeyword` returns the `(line number, stripped line)` pairs. Its `stopped`
    flag says whether the "found more" notice appears.
- `Analysis.Percent`: the percentage is an exact real, not a binary double. Rounding to two
  decimals for printing is not modelled.
- `CriticalReport.CreateCriticalReport`: the report's date line (a clock), the file header,
  the fixed recommendations text and the returned file name are not modelled.
- `Text.Strip`, `Text.Lower`, `LogLine.TimestampLength`: `str.strip`, the regex classes `\s`
  and `\d`, and `str.lower` are modelled on ASCII. Space is 9-13 and 28-32, a digit is 0-9,
  and only `A`-`Z` are lowered. Python also treats other Unicode white space, digits and
  cased letters this way.
- `Filters.FilterByLevel` takes a `Level`. The source takes any string and raises `KeyError`
  when printing its summary for a string outside `VDIWEF`; that error path is not modelled.
- `LogLine.Parse`: the record's level is the `Level` datatype. The source stores the letter.
  `Level.Letter` maps between the two. The `log_levels` table of display names serves only
  the printed filter summary, which is console output and not modelled.
- The source's counters of warning groups (`unique_warnings`) are modelled in
  `CriticalReport.Issues`, but the source never shows them.

Where the code and its documentation differ, this model follows the code:

- A tag may be empty after stripping. The pattern reads at least one character that is not
  `(` before stripping, so `E/ (12): x` gives the empty tag.
- `search_keyword` prints each matching line stripped.
- The "found more" notice appears as soon as the 20th match is printed, even when no
  further line would match.
- Different tags can share one default output file: `a b` and `a_b` both give
  `logcat_a_b.txt`.
