# PoC1 environment summary generator — a verified model

This project models the log summariser of the PoC1 environment (`scripts/summary.py`).
The summariser reads the log of an environment check run and does three things:

- It classifies every log line as a passed check, a failed check, a warning and/or an error.
- It extracts the state of every `poc1_*` container that the log mentions.
- It assembles a summary report: an overall verdict, a container table, the listed
  checks (passed checks capped at 10, errors capped at 5), and recommendations.

The model is split into one Dafny module per concern:

- `text.dfy`, modules `Text` and `Wrappers`: Python's `in`, `str.lower()`, `str.strip()`, `str.split('\n')`, `'\n'.join`, and the classes `\s` and `\w`.
- `ansi.dfy`, module `Ansi`: the colour-code removal `re.sub(r'\x1b\[[0-9;]*m', '', line)`.
- `classifier.dfy`, module `Classifier`: the four line rules and the four lists that `parse_logs` fills.
- `containers.dfy`, module `Containers`: a scanner for the container pattern that follows the regular-expression engine's backtracking order, `re.finditer`, and the ordered dictionary of container states.
- `report.dfy`, module `Report`: the report as a sequence of abstract lines, and its decisions.
- `summary.dfy`, module `Summary`: the class `SummaryGenerator`. It holds the fields and the constructor, with `ParseLogs`, `DetectContainerStatus` and `GenerateReport` as imperative methods.

## How the model is written

Pure logic is written as functions:

- The colour strip, the line rules, and the container scanner are functions.
- The report layout is a function, `Report.ReportLines`.

The generator object is a `class`:

- Its four lists are `seq<string>` fields that the methods append to.
- `ParseLogs` is a loop over the lines, with loop invariants.
- `DetectContainerStatus` is a loop over the matches, updating a dictionary.
- `GenerateReport` appends line after line to the report.

Each method's `ensures` ties its result or its new state to the specification functions.
The properties the source promises are proved as lemmas about those functions.

The container pattern `poc1_(\w+)\s+.*\s+(running|exited|created|restarting|paused)` is not handed to a general regular-expression engine:

- `Containers.IsMatchAt` says declaratively where each piece of the pattern may lie.
- `Containers.Prefers` gives the engine's backtracking order. Greedy quantifiers are tried longest first, and earlier quantifiers before later ones. The order of the state-word alternatives does not matter, because no two of them can start at the same index (`Containers.StateWordsExclusive`).
- `Containers.FindAt` is a search function. It is proved to return exactly the preferred placement, or nothing when there is none.

### Where the code and the stated intent differ

The error rule at `scripts/summary.py:49` is `'error' in low and 'error' not in low[:10]`. It is easy to read this as "contains `error`, but not at the very start".

What the code actually does is reject any line where an occurrence of `error` starts at index 5 or earlier, because such an occurrence lies inside the first ten characters. Some examples:

- `foo error bar` is **not** collected as an error: `error` starts at index 4.
- `error: later error` is not collected either, even though a later occurrence lies outside the window.

The model follows the code. `Classifier.ErrorRule` states the exact rule and `Classifier.ErrorInWindow` proves these examples.

## Model

| member | source | states |
|---|---|---|
| Text.LowerIdempotent | scripts/summary.py:49 | the lower-cased text has no upper-case ASCII letter, every other character is kept, and lower-casing again changes nothing |
| Text.Contains | scripts/summary.py:37 | `pat in s` holds exactly when `pat` occurs at some index of `s` |
| Text.Strip | scripts/summary.py:38 | the stripped text occurs in the original and is empty (for an all-whitespace line) or starts and ends with non-whitespace, and a text already without surrounding whitespace is returned unchanged |
| Text.StripExact | scripts/summary.py:38 | stripping removes exactly the leading and trailing whitespace and nothing in between |
| Text.SplitLines | scripts/summary.py:30 | splitting on newlines always yields at least one piece, even for the empty text |
| Text.SplitLinesCount | scripts/summary.py:30 | the number of pieces is the number of newlines plus one |
| Text.SplitLinesPieces | scripts/summary.py:30 | no piece contains a newline |
| Text.SplitThenJoin | scripts/summary.py:30 | joining the pieces with newlines gives the log text back |
| Text.JoinThenSplit | scripts/summary.py:30 | splitting a newline-join of newline-free pieces gives the same pieces back |
| Ansi.CodeLength | scripts/summary.py:34 | the length of the colour code a text starts with; 0 exactly when no prefix is a colour code |
| Ansi.StripAnsi | scripts/summary.py:34 | removing colour codes never makes a line longer |
| Ansi.StripPlain | scripts/summary.py:34 | a line with no escape character is unchanged |
| Ansi.StripPlainPrefix | scripts/summary.py:34 | text without escape characters passes through, and the scan resumes after it |
| Ansi.StripCodePrefix | scripts/summary.py:34 | a colour code at the front is deleted as a whole |
| Ansi.StripColoured | scripts/summary.py:34 | a line of escape-free text wrapped in an opening and a closing colour code strips back to that text |
| Ansi.StripSubsequence | scripts/summary.py:34 | the cleaned line is a subsequence of the raw line |
| Ansi.StripSinglePass | scripts/summary.py:34 | one pass only: a code formed by deleting another code is left in place |
| Classifier.CleanLines | scripts/summary.py:30-34 | one cleaned line per newline-separated piece |
| Classifier.ErrorRule | scripts/summary.py:49 | a line is an error exactly when its lower-cased form contains `error` and every occurrence starts after index 5 |
| Classifier.ErrorPastWindow | scripts/summary.py:49 | a line whose lower-cased form has `error` at index 6 or later, and no `e` in its first six characters, is an error |
| Classifier.ErrorInWindow | scripts/summary.py:49 | `foo error bar`, `error: foo bar` and `error: later error` are not errors |
| Classifier.ErrorWindowBoundary | scripts/summary.py:49 | an occurrence starting at index 5 suppresses the line, one at index 6 does not, and case is ignored |
| Classifier.LeadingBlanksShiftWindow | scripts/summary.py:49-50 | the rule is applied to the untrimmed line, so leading blanks can make a line qualify whose recorded trimmed text would not |
| Classifier.PassedOnlyExample | scripts/summary.py:37-50 | `[PASS] check one` is a passed check and falls into no other category |
| Classifier.NotFailed | scripts/summary.py:41 | a line without `F`, `E` and the cross mark is not a failed check |
| Classifier.NoErrorWord | scripts/summary.py:49 | a line without `r` or `R` is not an error |
| Classifier.FailedOnlyExample | scripts/summary.py:37-50 | `[FAIL] check two ✗` is a failed check and falls into no other category |
| Classifier.FailedAndErrorExample | scripts/summary.py:41-50 | the rules are independent: `[FAIL] disk error` is both a failed check and an error |
| Classifier.BucketMembership | scripts/summary.py:32-50 | a trimmed text is in a category's list exactly when some cleaned line satisfies that category's rule and trims to it |
| Classifier.BucketEmpty | scripts/summary.py:32-50 | a list stays empty exactly when no cleaned line satisfies its rule |
| Classifier.BucketOrder | scripts/summary.py:32-50 | each list is a subsequence, in input order, of the trimmed cleaned lines |
| Classifier.BucketLength | scripts/summary.py:32-50 | no list has more entries than there are lines |
| Classifier.BucketAppend | scripts/summary.py:32-50 | classifying two runs of lines one after the other concatenates their lists |
| Classifier.ClassifiedLength | scripts/summary.py:30-50 | one pass adds at most one entry per newline-separated piece to each list |
| Classifier.EmptyLog | scripts/summary.py:28-50 | an empty log, which is also what a missing file gives, yields four empty lists |
| Containers.RunEnd | scripts/summary.py:55 | the end of the longest run of a character class: every character up to it is in the class, and the next one is not |
| Containers.StateAt | scripts/summary.py:55 | a state word that occurs at the index, or nothing exactly when no state word starts there |
| Containers.StateWordsExclusive | scripts/summary.py:55 | no two different state words start at the same index, so the order of the alternatives does not matter |
| Containers.StateAtExact | scripts/summary.py:55 | the state word found at an index is exactly the state word that occurs there |
| Containers.MatchShape | scripts/summary.py:55 | in any match the name is the whole word run after `poc1_`, the first gap stays within the following whitespace, `.*` stays on its line, and the second gap is all the whitespace before the state word |
| Containers.SearchDotHit | scripts/summary.py:55 | the `.*` that the search picks can be followed by `\s+` and a state word |
| Containers.SearchDotLongest | scripts/summary.py:55 | no longer `.*` can be completed than the one picked, and none at all when nothing is picked |
| Containers.SearchGap | scripts/summary.py:55 | the match the engine prefers among those whose first gap ends at or before a given point, or none when no match's first gap ends there or earlier |
| Containers.FindAt | scripts/summary.py:55-57 | the match found at a position is a match and is preferred over every other match there; nothing exactly when no match exists |
| Containers.MatchAt | scripts/summary.py:57-60 | group 1 is the text between `poc1_` and the end of the name, group 2 the state word, and the match ends inside the text |
| Containers.NextStart | scripts/summary.py:57 | a position at or after the resume point where the pattern matches |
| Containers.NextStartFirst | scripts/summary.py:57 | no position between the resume point and the reported start has a match, and none at all when no start is reported |
| Containers.ScanSound | scripts/summary.py:57-58 | every reported match is what the engine finds at its start |
| Containers.ScanOrdered | scripts/summary.py:57-58 | reported matches come in text order and do not overlap |
| Containers.ScanComplete | scripts/summary.py:57-58 | every position where the pattern could match is either reported or lies inside a reported match |
| Containers.NoPrefixNoMatch | scripts/summary.py:55-57 | without `poc1_` nothing is reported |
| Containers.PutWellFormed | scripts/summary.py:61 | assigning a key keeps each key listed once, sets its value, and leaves every other key as it was |
| Containers.RecordKeys | scripts/summary.py:58-61 | a name is a key exactly when it was one already or some match carries it |
| Containers.RecordLastWins | scripts/summary.py:58-61 | a name keeps the state of the last match that carries it |
| Containers.RecordUntouched | scripts/summary.py:58-61 | a name no match carries keeps its entry |
| Containers.RecordValues | scripts/summary.py:58-61 | values recorded from state words are state words |
| Containers.FirstSeenMembers | scripts/summary.py:58-61 | the first-appearance list holds a name exactly when it occurs and was not already seen |
| Containers.RecordOrder | scripts/summary.py:58-61 | assigning in match order keeps the existing keys in place and appends each new name once, when it is first matched |
| Containers.ContainerOrder | scripts/summary.py:54-63 | the dictionary lists the containers in the order in which each is first matched in the lower-cased log |
| Containers.ContainerTableWellFormed | scripts/summary.py:54-63 | the returned dictionary lists each key once, and exactly its keys |
| Containers.ContainerStates | scripts/summary.py:54-63 | every value is one of running, exited, created, restarting, paused |
| Containers.MatchName | scripts/summary.py:55-59 | a reported name is a non-empty run of word characters right after `poc1_`, followed by whitespace |
| Containers.ContainerNames | scripts/summary.py:55-63 | every key is a non-empty run of word characters that directly follows `poc1_` in the lower-cased log and is followed by whitespace |
| Containers.ContainerLastWins | scripts/summary.py:58-61 | a container matched several times keeps the state of its last match |
| Containers.NoPrefixNoContainers | scripts/summary.py:54-63 | a log without `poc1_` in any case gives an empty dictionary |
| Containers.SingleSpaceExample | scripts/summary.py:55 | `poc1_web running` gives no entry: one space cannot serve both gaps |
| Containers.DoubleSpaceExample | scripts/summary.py:55 | `poc1_web  running` gives `web -> running` |
| Containers.NewlineGapExample | scripts/summary.py:55 | `\s` crosses a line end: `poc1_web \n running` gives `web -> running` |
| Report.ContainerRowsOrder | scripts/summary.py:95-97 | one container row per key, in insertion order, each with its state and the success icon exactly when the state is `running` |
| Report.ListingPicks | scripts/summary.py:101-134 | a listed section holds its title when non-empty, its first `cap` entries, and a "more" line exactly when entries were left out |
| Report.PassedTruncation | scripts/summary.py:104-107 | the report shows the first `min(n, 10)` passed checks, then "... and n-10 more" exactly when n > 10 |
| Report.ErrorTruncation | scripts/summary.py:130-133 | the report shows the first `min(m, 5)` errors, then "... and m-5 more errors" exactly when m > 5 |
| Report.FullListings | scripts/summary.py:111-124 | failed checks and warnings are listed in full, with no "more" line |
| Report.SectionTitles | scripts/summary.py:101-128 | a section title, with the full count, appears for each non-empty list, in the order passed, failed, warnings, errors |
| Report.ReportVerdict | scripts/summary.py:79-87 | exactly one verdict: FAILED when any check failed, else PASSED when any check passed, else UNKNOWN, with the number of failures or passes |
| Report.ReportContainers | scripts/summary.py:91-98 | the rows list every container once in insertion order, and a row shows the success icon exactly when its state is `running` |
| Report.ContainerSectionPresent | scripts/summary.py:92 | the container section appears exactly when some container was found |
| Report.ReportAdvice | scripts/summary.py:146-154 | four recommendation steps after a failure and three otherwise |
| Report.StatusFromLog | scripts/summary.py:37-42 | the verdict from a log is FAILED exactly when some cleaned line is a failed check, and PASSED exactly when none is but some line is a passed check |
| Summary.SummaryGenerator.constructor | scripts/summary.py:13-26 | the log is the file's contents, or empty when there is no file; the four lists start empty |
| Summary.SummaryGenerator.ParseLogs | scripts/summary.py:28-50 | each list becomes its old contents followed by the trimmed cleaned lines that satisfy its rule, in input order |
| Summary.SummaryGenerator.ClassifyLine | scripts/summary.py:36-50 | one line is appended, trimmed, to every list whose rule its untrimmed cleaned form satisfies |
| Summary.SummaryGenerator.DetectContainerStatus | scripts/summary.py:52-63 | the result is the dictionary built from every match of the pattern in the lower-cased log, in order |
| Summary.SummaryGenerator.GenerateReport | scripts/summary.py:65-161 | parses the log once more, then returns the report built from the updated lists and the container dictionary |
| Summary.AppendStatus | scripts/summary.py:79-88 | appends the verdict block chosen by the failed-then-passed priority |
| Summary.AppendContainers | scripts/summary.py:91-98 | appends the container section, with one row per container and an icon chosen by the state |
| Summary.AppendListing | scripts/summary.py:101-134 | appends a listed section with at most `cap` entries and a "more" line for the rest |
| Summary.AppendClosing | scripts/summary.py:137-159 | appends the endpoints, the recommendations for the failed or passed case, and the closing banner |
| Summary.ReportMissingLog | scripts/summary.py:20-26 | a generator built for a missing log file reports the UNKNOWN verdict with no count, and no container row |
| Summary.GenerateTwice | scripts/summary.py:65-67 | two reports from one object: the second lists every check, warning and error twice, because parsing appends without clearing |

## Left out

- Reading the log file, and the warning printed when it is missing: the constructor takes what the read produced, as an optional text (`scripts/summary.py:20-26`).
- `main`, command-line arguments and printing the report: these are I/O.
- The timestamp from `datetime.now()`: it is nondeterministic and appears as a `Timestamp` line.
- The exact report text:
  - emoji, banner and rule lines, the endpoint lines and the wording of each line are not modelled;
  - fixed lines are `Fixed`, and each decision is its own line kind;
  - `Verdict` stands for the status line together with its explanation;
  - `status.upper()` in a container row is not applied.
- Full Unicode case mapping and word characters:
  - `Text.Lower` lower-cases ASCII letters only;
  - `Text.IsWordChar` (`\w`) accepts ASCII letters, digits and `_` only.

  Python's Unicode-aware versions accept more characters, and Unicode lower-casing can change the length of a string. The whitespace class used by `\s` and `str.strip()` is Python's full list of whitespace code points.
- `GenerateReport` returns the report as a sequence of lines; the final `"\n".join` into one string is not applied.
- A general regular-expression engine: only the one container pattern is modelled.
- `re.finditer` runs lazily: the model computes the complete list of matches before recording them, which gives the same dictionary.
- `Summary.SummaryGenerator.ClassifyLine`: the body of the loop in `parse_logs` is its own method. The method tests the same four rules in the same order, and its contract names them through `Classifier.Matches`.
- `Summary.AppendStatus`, `Summary.AppendContainers`, `Summary.AppendListing`, `Summary.AppendClosing`: each section of `generate_report` is its own method that appends the section's lines to the report. The order of the lines is unchanged.
