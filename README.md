# Prompt recommender: a verified model of its classification engine

`recommend_prompts.py` reads a manifest of prompt-related files (one path per
line), checks each path against a source tree and against the components found
in a target installation, and writes seven report lists:

- `recommended.txt`
- `system_critical.txt`
- `not_needed.txt`
- `optional_unmatched.txt`
- `install_list.txt`
- `invalid_entries.txt`
- `missing_files.txt`

It also writes a summary of counts and of detected and missing components.

This project models the engine behind those reports and proves what it
promises.

- **`text.dfy`, module `Text`.** The parts of Python's `str` and `pathlib` that the engine uses:
  - `strip()` with the full `isspace()` set;
  - ASCII `lower()`;
  - `startswith`, `endswith` and substring `in`;
  - `split('/')`;
  - `Path(rel).name`;
  - `splitlines()` with its full set of line boundaries, where "\r\n" counts as one boundary.
- **`rules.dfy`, module `Rules`.** The pure path predicates:
  - `is_not_needed`, `is_system_critical`, `is_prompt_content` and `is_valid_relative_path`;
  - `classify_component`, over a `Component` datatype whose `Name()` gives the strings of `COMPONENTS`.

  Classification is also stated as a declarative rule table, and the if-chain is proved to read that table top to bottom.
- **`dedupe.dfy`, module `Dedupe`.** The order-preserving `dedupe`:
  - an imperative method with a `seen` set;
  - proved against the specification function `Deduped`.
- **`recommend.dfy`, module `Recommend`.**
  - `ClassifyEntry` is the body of the per-line loop: the checks in program order, each appending to the lists it selects.
  - `Analyze` is the loop itself. It strips each line, skips blank lines and `#` comments, counts the rest in `totalNonempty`, and classifies each entry.
  - `Summarize` builds the summary.
  - `Run` is `main` without its I/O.

  Each method is proved against specification functions:
  - `Judge` gives the verdict for one entry;
  - `Columns` gives the lists before deduplication;
  - `Outputs` gives the lists as written.
- **`recommend_laws.dfy`, module `RecommendLaws`.** The properties of the reports:
  - which entries each list holds;
  - the precedence of the checks;
  - the install rules and the install count;
  - that the profiles are monotone;
  - what the summary counts mean;
  - that the components are partitioned;
  - two concrete scenarios.
- **`report.dfy`, module `Report`.** `write_list`'s file content, and the proof that reading a report back with `splitlines()` gives its list again.

The model takes two facts about the environment as inputs:

- **Whether a file exists.** `source_dir / rel` being a file is the function `Env.isFile`.
- **Which components were detected.** The result of the component scan is the map `Env.detected`. It is keyed by component name and read with `detected.get(name, False)`.

Behaviour of the code worth knowing, beyond what the module docstring
(recommend_prompts.py:2-15) lists:

- **Check order.** An entry is checked for validity before existence, and an invalid entry is never looked up on disk.
- **System-critical entries.** "System-critical" is decided only by file extension (`.ts`, `.js`, `.py`, `.sh`) or by the two Roo-Code source prefixes.
- **Duplicates.** Duplicate manifest lines are not rejected. They are classified again and collapsed by `dedupe`, so a count can be smaller than `total_in_manifest`.
- **Overlapping lists under `full`.** An entry can be both recommended and in `optional_unmatched` (`FullProfileOverlap`).
- **Dropped entries under `safe`.** An existing entry can end up in no list at all (`SafeProfileDropsEntry`).
- **Counts.** The category counts need not add up to the total.
- **Tests and snapshots.** `is_not_needed` is case-sensitive, unlike the other predicates (`NotNeededIsCaseSensitive`).

## Model

| member | source | states |
|---|---|---|
| `Text.Strip` | recommend_prompts.py:216 | `str.strip()`: drops whitespace from both ends; characterised by `TrimStartSpec`, `TrimEndSpec` and `StripEmptyIff` |
| `Text.Lower` | recommend_prompts.py:67 | ASCII `str.lower()`, character by character; the result has the input's length |
| `Text.BaseName` | recommend_prompts.py:79 | `Path(rel).name`: the last `/`-separated piece that is neither empty nor `.`; related to lower-casing by `BaseNameLower` |
| `Text.SplitLines` | recommend_prompts.py:212 | `str.splitlines()`: no piece holds a line boundary |
| `Text.ContainsIff` | recommend_prompts.py:63 | `t in s` holds exactly when some window of `s` spells `t` |
| `Text.TrimStartSpec` | recommend_prompts.py:216 | the left half of `strip()`: the longest suffix that does not start with whitespace; everything removed is whitespace |
| `Text.TrimEndSpec` | recommend_prompts.py:216 | the right half of `strip()`: the longest prefix that does not end with whitespace; everything removed is whitespace |
| `Text.StripEmptyIff` | recommend_prompts.py:216-218 | a stripped line is empty exactly when the raw line is all whitespace (the `if not rel` skip and the blank check of path validation) |
| `Text.StripKeepsNoLineBreak` | recommend_prompts.py:212-216 | stripping a line cut by `splitlines()` cannot introduce a line boundary |
| `Text.SplitParentSegment` | recommend_prompts.py:176-178 | the path has a `..` part exactly when some `..` is bounded by `/` or the string ends on both sides |
| `Text.BaseNameLower` | recommend_prompts.py:79 | `Path(rel.lower()).name` equals `Path(rel).name.lower()` |
| `Rules.ComponentsListed` | recommend_prompts.py:26-34 | every component, and so every result of `classify_component`, is in `COMPONENTS`; the tuple has no repeats and no two components share a name |
| `Rules.IsNotNeeded` | recommend_prompts.py:62-63 | `is_not_needed`: the path contains `/__tests__/` or ends in `.spec.ts` or `.snap`, without lower-casing; characterised by `NotNeededIff` |
| `Rules.NotNeededIff` | recommend_prompts.py:62-63 | a path is not needed exactly when `/__tests__/` occurs at some position of it or it ends in `.spec.ts` or `.snap` |
| `Rules.IsSystemCritical` | recommend_prompts.py:66-74 | `is_system_critical`: on the lower-cased path, a `.ts`, `.js`, `.py` or `.sh` extension, or a `roo-code/src/` or `roo-code/webview-ui/src/components/` prefix |
| `Rules.IsPromptContent` | recommend_prompts.py:77-88 | `is_prompt_content`: `/prompts/` or `/templates/` in the lower-cased path, `prompt` in the lower-cased file name, or a lower-cased path ending in `system_prompt.txt` or `support-prompt.ts` |
| `Rules.ClassifyComponent` | recommend_prompts.py:91-114 | `classify_component`: the chain of `if` tests on the lower-cased path; characterised by `ClassifyFollowsTable` and `ClassifyPriority` |
| `Rules.IsValidRelativePath` | recommend_prompts.py:171-179 | `is_valid_relative_path`; characterised by `ValidRelativePathIff` |
| `Rules.ValidRelativePathIff` | recommend_prompts.py:171-179 | a path is rejected exactly when it is all whitespace, starts with `/`, or has a `..` segment; otherwise it is accepted |
| `Rules.ParentSegmentIsInvalid` | recommend_prompts.py:177-178 | a `..` segment anywhere in the path makes it invalid |
| `Rules.DotFreeIsValid` | recommend_prompts.py:171-179 | a path that starts with a visible character other than `/` and holds no `.` is valid |
| `Rules.FirstMatchIsFirst` | recommend_prompts.py:91-114 | first-match-wins lookup: the component of the earliest matching rule, `general` when none matches |
| `Rules.RowConditions` | recommend_prompts.py:94-112 | each row of the rule table matches exactly when the corresponding `if` condition of `classify_component` holds |
| `Rules.ClassifyFollowsTable` | recommend_prompts.py:91-114 | `classify_component` is first-match lookup in the ordered rule table on the lower-cased path |
| `Rules.ClassifyPriority` | recommend_prompts.py:94-114 | the first matching row decides; any path that starts with `roo-code/` or contains `/roo-code/` is `roo_code` whatever later rules say; `general` exactly when no row matches |
| `Rules.CodeAgentPath` | recommend_prompts.py:94-101 | a lower-cased path that starts with `skills/code-agent/` and has no `/roo-code/` part is `skill_code_agent` |
| `Rules.ClassifyIgnoresCase` | recommend_prompts.py:92 | classification gives the same component for a path and its lower-cased form |
| `Rules.SystemCriticalIgnoresCase` | recommend_prompts.py:66-74 | the system-critical check gives the same answer for a path and its lower-cased form |
| `Rules.PromptContentIgnoresCase` | recommend_prompts.py:77-88 | the prompt-content check, which looks at both the path and its file name, ignores ASCII case |
| `Rules.NotNeededIsCaseSensitive` | recommend_prompts.py:62-63 | the test/snapshot check is case-sensitive: `a.snap` counts as not-needed, `A.SNAP` does not |
| `Dedupe.Deduped` | recommend_prompts.py:267-275 | `dedupe` as a function: keep each value the first time it is seen; the `Deduped*` lemmas state its properties |
| `Dedupe.Dedupe` | recommend_prompts.py:267-275 | the `seen`-set loop returns `Deduped(values)`: no duplicates, the same elements as its input |
| `Dedupe.DedupedHas` | recommend_prompts.py:267-275 | a value is in the output exactly when it is in the input |
| `Dedupe.DedupedElements` | recommend_prompts.py:267-275 | output and input have the same set of values |
| `Dedupe.DedupedNoDuplicates` | recommend_prompts.py:267-275 | the output has no duplicates |
| `Dedupe.DedupedNotLonger` | recommend_prompts.py:267-275 | the output is never longer than the input |
| `Dedupe.DedupedFirstOccurrenceOrder` | recommend_prompts.py:267-275 | output values appear in the order of their first occurrence in the input |
| `Dedupe.DedupedOfDistinct` | recommend_prompts.py:267-275 | a list without duplicates is returned unchanged |
| `Dedupe.DedupedIdempotent` | recommend_prompts.py:267-275 | deduplicating twice is the same as once |
| `Dedupe.DedupedLength` | recommend_prompts.py:267-275 | the output length is the number of distinct input values |
| `Recommend.Entries` | recommend_prompts.py:215-221 | the manifest entries: each line stripped, blank and `#` lines dropped; characterised by `EntriesSkip`, `EntriesKeep` and `EntriesAreKeptLines` |
| `Recommend.Judge` | recommend_prompts.py:223-264 | the loop body's decision for one entry: invalid, missing, not-needed, critical, or a candidate with its recommended and optional flags; spelled out by `JudgeCases` |
| `Recommend.Columns` | recommend_prompts.py:215-264 | the seven lists the loop builds, before deduplication; characterised by `ColumnsHas` |
| `Recommend.Outputs` | recommend_prompts.py:215-283 | the seven lists as written, each deduplicated; characterised by `OutputsHas` |
| `Recommend.EntriesSkip` | recommend_prompts.py:217-221 | a blank or `#` line adds no entry and is not counted |
| `Recommend.EntriesKeep` | recommend_prompts.py:217-221 | any other line adds its stripped text as the next entry |
| `Recommend.ClassifyEntry` | recommend_prompts.py:223-264 | one pass of the loop body appends the entry to exactly the lists its verdict selects and leaves every other list as it was |
| `Recommend.Analyze` | recommend_prompts.py:212-264 | the loop counts every stripped, non-blank, non-comment line (invalid and missing ones included) and leaves the seven lists equal to `Columns` of the entries |
| `Recommend.ComponentsWhere` | recommend_prompts.py:293-294 | the filtered component list holds exactly the components whose detection flag has the wanted value, and is no longer than `COMPONENTS` |
| `Recommend.Summarize` | recommend_prompts.py:293-310 | `detected_components` holds exactly the detected components and `missing_components` exactly the others |
| `Recommend.Run` | recommend_prompts.py:212-310 | the whole run: the written lists are `Outputs` of the manifest's lines, and the summary carries their lengths, the kept-line count and the component split |
| `RecommendLaws.JudgeCases` | recommend_prompts.py:223-264 | the verdict of one entry, stage by stage, with the install and optional flags |
| `RecommendLaws.ColumnsHas` | recommend_prompts.py:215-264 | before deduplication a list holds exactly the entries whose verdict selects it |
| `RecommendLaws.OutputsHas` | recommend_prompts.py:215-283 | every written list holds exactly the manifest entries whose verdict selects it |
| `RecommendLaws.InvalidListed` | recommend_prompts.py:223-225 | `invalid_entries` holds exactly the entries that fail path validation |
| `RecommendLaws.MissingListed` | recommend_prompts.py:227-230 | `missing_files` holds exactly the valid entries that are not files |
| `RecommendLaws.NotNeededListed` | recommend_prompts.py:237-241 | `not_needed` holds exactly the valid, existing tests and snapshots |
| `RecommendLaws.CriticalListed` | recommend_prompts.py:243-247 | `system_critical` holds exactly the valid, existing, non-test entries that are system-critical |
| `RecommendLaws.OptionalListed` | recommend_prompts.py:259-260 | `optional_unmatched` holds exactly the entries that reach the recommendation step and whose component is not `general` and not detected |
| `RecommendLaws.RecommendedListed` | recommend_prompts.py:249-264 | `recommended` holds exactly the entries that reach the recommendation step and that the profile recommends |
| `RecommendLaws.InstallListed` | recommend_prompts.py:237-264 | an entry is installed exactly when it is recommended, or not-needed with `--include-not-needed` or `full`, or critical with `--include-critical` or `full` |
| `RecommendLaws.InstallVerdict` | recommend_prompts.py:237-264 | the install rule for one verdict |
| `RecommendLaws.InvalidOnlyInvalid` | recommend_prompts.py:223-225 | an invalid entry appears in `invalid_entries` and in no other list |
| `RecommendLaws.MissingOnlyMissing` | recommend_prompts.py:227-230 | a missing entry appears in `missing_files` and in no other list |
| `RecommendLaws.NotNeededBeatsCritical` | recommend_prompts.py:237-247 | a not-needed entry is never also critical, and neither kind is recommended or optional |
| `RecommendLaws.InstallDrawsOnThreeLists` | recommend_prompts.py:237-264 | every installed entry is recommended, critical or not-needed, and never invalid or missing |
| `RecommendLaws.InstallCount` | recommend_prompts.py:237-264 | `install_count` is the recommended count, plus the critical count when those are installed, plus the not-needed count when those are |
| `RecommendLaws.ProfilesMonotone` | recommend_prompts.py:249-257 | a `safe` recommendation is an `auto` one and an `auto` one is a `full` one; `full` recommends exactly the entries that reach the step |
| `RecommendLaws.OptionalIgnoresOptions` | recommend_prompts.py:259-260 | `optional_unmatched` does not depend on the profile or the two include switches |
| `RecommendLaws.InvalidIgnoresFiles` | recommend_prompts.py:223-230 | `invalid_entries` does not depend on which files exist |
| `RecommendLaws.InvalidVerdictIgnoresFiles` | recommend_prompts.py:223-230 | whether one entry is invalid does not depend on which files exist |
| `RecommendLaws.NoOverlapUnlessFull` | recommend_prompts.py:249-264 | outside `full`, no entry is both recommended and optional |
| `RecommendLaws.ColumnsCategoryTotal` | recommend_prompts.py:215-264 | outside `full`, the six category lists before deduplication hold at most one item per entry |
| `RecommendLaws.CountsWithinTotal` | recommend_prompts.py:296-304 | outside `full`, the six category counts add up to at most `total_in_manifest` |
| `RecommendLaws.SummaryCounts` | recommend_prompts.py:296-304 | each `*_count` is the number of distinct entries selected for that list, and the written list has no duplicates |
| `RecommendLaws.EntriesAreKeptLines` | recommend_prompts.py:215-221 | the entries are exactly the stripped, kept manifest lines, and there are no more of them than lines |
| `RecommendLaws.ComponentPartition` | recommend_prompts.py:293-294 | `detected_components` and `missing_components` are disjoint, their union is `COMPONENTS`, and their lengths add up to seven |
| `RecommendLaws.ComponentsWhereOrdered` | recommend_prompts.py:293-294 | a filtered component list keeps the order of the list it filters |
| `RecommendLaws.ComponentListsOrdered` | recommend_prompts.py:293-294 | both component lists follow `COMPONENTS` order |
| `RecommendLaws.OneEntry` | recommend_prompts.py:215-221 | a manifest with one kept, already-stripped line has that line as its only entry |
| `RecommendLaws.SingleLine` | recommend_prompts.py:215-283 | for a one-line manifest, each list is that line when the verdict selects it, and empty otherwise |
| `RecommendLaws.CountedTwice` | recommend_prompts.py:259-264 | in a one-line manifest, an entry that is both optional and recommended is in both lists, and the six category counts exceed the total |
| `RecommendLaws.FullProfileOverlap` | recommend_prompts.py:249-264 | under `full` with nothing detected, `skills/code-agent/x` is both recommended and optional, and the counts exceed the total |
| `RecommendLaws.SafeProfileDropsEntry` | recommend_prompts.py:249-257 | under `safe` with nothing detected, the existing entry `x` is counted but appears in no list |
| `Report.JoinLines` | recommend_prompts.py:183 | `"\n".join(values)`; related to the file text by `WriteListIsJoin` |
| `Report.WriteList` | recommend_prompts.py:182-183 | the file text is empty exactly for an empty list, and otherwise ends in a newline |
| `Report.WriteListIsJoin` | recommend_prompts.py:182-183 | the file text is `"\n".join(values)` plus one `"\n"`, or `""` for no values |
| `Report.WriteListRoundTrip` | recommend_prompts.py:182-183 | `splitlines()` of the written text gives back the list when no value holds a line boundary |
| `Report.ReportEntryIsOneLine` | recommend_prompts.py:212-216 | no report entry holds a line boundary, because entries are stripped `splitlines()` pieces |
| `Report.ReportRoundTrip` | recommend_prompts.py:212-291 | every report file, read back line by line, gives exactly its list |

## Left out

- Command-line parsing (`parse_args`, recommend_prompts.py:37-59): the options are the `Options` value.
- The component scan in `detect_components` (recommend_prompts.py:117-168): it globs a real filesystem. Its result is the input map `Env.detected`.
- The found-flag loop in `detect_components` is left out with the scan itself.
- Path resolution, `mkdir`, and the `is_file`/`is_dir` checks with their `SystemExit` aborts (recommend_prompts.py:189-200): these are I/O.
- Reading the manifest with UTF-8 decoding: `Run` takes the decoded text.
- `Env.isFile` stands for `(source_dir / rel).is_file()`. Joining paths and the filesystem are not modelled, so a path such as `a//b` is only as good as the function says.
- Writing the report files, `summary.txt` and `analysis.json` (recommend_prompts.py:285-331). The content of the list files is modelled by `Report.WriteList`. The JSON serialisation and the padded text lines of `summary.txt` are left out; `Summary` holds their values.
- `Summary` holds the profile as the `Profile` datatype and the component lists as `Component` values. `Component.Name()` gives the strings the program writes.
- `lower()` is modelled for ASCII letters only. Python also lower-cases other Unicode letters, which this model leaves unchanged.
- `Analyze` keeps the seven lists as the fields of one `Lists` value rather than seven local variables, so aliasing between them is not modelled (the program has none).
- `tests/run_checks.py`: it drives the script through `sys.argv` and checks that output files exist. It has no logic of its own.
- The program has no drift comparison and no baseline store, so there is nothing to model for them.
