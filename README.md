# A verified model of the E2ETune PostgreSQL knob-tuning harness

The harness tunes PostgreSQL configuration knobs with SMAC. For every workload file
it applies a knob configuration, runs the workload, and reports a performance
figure that SMAC minimises after negating it.
- OLAP workloads (`tpch`, `job`, …) are `.wg` files of SQL statements. The
  multi-threaded executor runs them, or the sequential loop of
  `workload_executor`.
- OLTP workloads (`tpcc`, `ycsb`, …) are BenchBase XML profiles. The harness
  rewrites a profile's connection and scale settings, runs BenchBase, and parses
  the throughput from its JSON results.

Two maintenance scripts complete the core:
- one resets the `<time>` of SmallBank profiles;
- one combines HEBO run histories into one training-data file.

This project models these programs and proves the properties their code and
comments promise. Each source module is one Dafny module. Four shared modules
model the Python built-ins the code relies on:
- `Wrappers`: `Option` and `Result`;
- `Text`: `str.strip`, `lower`, `startswith`, `split`, `str(int)`, `int(str)`, string order and `sorted`;
- `Paths`: `os.path.basename`, `dirname`, `join` and `splitext`;
- `Json`: parsed JSON values, `dict.get`, truthiness and `isinstance(v, (int, float))`.

Model forms:
- In-place work stays imperative. The query lists of `data_pre` are arrays rewritten element by element. The shared `time_stamp` dictionary and each executor's partition are class fields updated by methods. The workload, record and file loops are methods with loop invariants.
- Each of these methods is proved against a specification function, and the properties the code promises are proved about that function as lemmas.
- Everything the programs read from outside is a parameter: the database, the clock, BenchBase, the file system, the environment and `json.loads`.

## Model

| member | source | states |
|---|---|---|
| Text.StripShape | tuning_utils/multi_thread.py:179 | `str.strip()` returns nothing longer than its input. The result neither starts nor ends with whitespace, and a text without whitespace is returned unchanged |
| Text.StripIsSlice | tuning_utils/multi_thread.py:179 | `strip` keeps one contiguous slice of the text and removes only whitespace before and after it |
| Text.StripIdempotent | workload_executor.py:96 | Stripping an already stripped line changes nothing |
| Text.TrimLeftShape | workload_executor.py:96 | Removing leading whitespace drops a whitespace-only prefix and leaves no whitespace in front |
| Text.TrimRightShape | workload_executor.py:96 | Removing trailing whitespace drops a whitespace-only suffix and leaves no whitespace at the end |
| Text.Lower | workload_executor.py:37 | `lower()` keeps the length and lowers each character on its own |
| Text.BeforeFirst | tuner.py:109 | `s.split('.wg')[0]` is a prefix of `s` that contains no `.wg`. It is followed by `.wg` unless it is the whole text |
| Text.FindFrom | tuner.py:109 | The search returns the first occurrence at or after the start, or -1 when there is none |
| Text.NatToString | xml_workload_editor.py:23 | `str(n)` of a natural number is a non-empty digit string with no leading zero |
| Text.NatToStringRoundTrip | xml_workload_editor.py:23 | Reading the digits of `str(n)` gives back `n` |
| Text.StrLessTotal | surrogate/gather_training_data.py:22 | Python's string order is total |
| Text.StrLessAsymmetric | surrogate/gather_training_data.py:22 | Python's string order is asymmetric |
| Text.StrLessTransitive | surrogate/gather_training_data.py:22 | Python's string order is transitive |
| Text.SortStrings | surrogate/gather_training_data.py:22 | `sorted(files)` is ordered and is a permutation of its input |
| Paths.BasenameIsLastComponent | benchbase_runner.py:44 | `basename` is the suffix after the last `/` and holds no `/` |
| Paths.Dirname | benchbase_runner.py:232 | `dirname` is a prefix of the path, and empty for a path without `/` |
| Paths.JoinShape | main.py:78 | `os.path.join(a, b)` is `b` when `b` is absolute. Otherwise it starts with `a` and ends with `b` |
| Paths.SplitExtShape | benchbase_runner.py:44 | `splitext` splits the path into two parts that concatenate back to it. The extension is empty or a `.` followed by no further `.` or `/` |
| Paths.StemDropsExtension | tuner.py:107 | `splitext('name.ext')` is `('name', '.ext')` |
| Paths.StemOfBasename | tuner.py:107 | The stem of a basename holds no `/` |
| Paths.JoinChild | workload_executor.py:144 | Joining a directory without a trailing `/` and a relative name inserts exactly one `/` |
| Paths.DirnameBasenameOfChild | benchbase_runner.py:232 | For `dir/name`, `dirname` gives back `dir` and `basename` gives back `name` |
| Paths.DirnameTwice | benchbase_runner.py:232 | Going up two levels from `root/dir/file` gives `root` |
| Json.Get | workload_executor.py:195 | `d.get(key)` finds a value exactly when a member has that key, and returns that member's value |
| Json.AsNumber | workload_executor.py:196 | `isinstance(v, (int, float))` holds exactly for integers, floats and booleans |
| Utils.RunStop | utils.py:65 | A `\d+` or `\D+` run extends as far as the characters keep their kind |
| Utils.RunsFromConcat | utils.py:65 | The runs found from a position concatenate to the rest of the text |
| Utils.RunsFromShape | utils.py:65 | The runs found from a position are homogeneous, alternate in kind, and start with the character at that position |
| Utils.RunsPartitionText | utils.py:65 | `re.findall` of digit runs or non-digit runs splits the text into homogeneous maximal runs that alternate between digits and non-digits and concatenate back to the text |
| Utils.NaturalKeysOfRuns | utils.py:66 | Each key element is the integer value of a digit run or the lower-cased text of a non-digit run. Integers and strings alternate |
| Utils.KindsByParity | utils.py:65-66 | Key element `i` is an integer exactly when the first one is and `i` is even, or the first one is not and `i` is odd |
| Utils.KindMismatchOnlyWhenFirstCharsDiffer | utils.py:66 | Two keys can hold an integer and a string at the same position only if the two names differ in the kind of their first character |
| Utils.KeyLessTotal | utils.py:75 | Comparing natural keys is total |
| Utils.KeyLessAsymmetric | utils.py:75 | Comparing natural keys is asymmetric |
| Utils.KeyLessTransitive | utils.py:75 | Comparing natural keys is transitive |
| Utils.KeyLeTransitive | utils.py:75 | The non-strict key order is transitive |
| Utils.InsertByKeyPermutes | utils.py:75 | Inserting into the sorted list adds exactly that element |
| Utils.InsertByKeySorted | utils.py:75 | Inserting into a key-sorted list keeps it sorted |
| Utils.InsertByKeyStable | utils.py:75 | Inserting keeps the relative order of names with equal keys, as a stable sort does |
| Utils.NaturalSortCorrect | utils.py:70-75 | `natural_sort` returns a permutation of its input, sorted by natural key, and stable among equal keys |
| Utils.KeysOfNumberedName | utils.py:63 | The key of `job_<digits>.wg` is `['job_', n, '.wg']` |
| Utils.NumberedKeysOrder | utils.py:63 | Keys of numbered job names compare as their numbers do |
| Utils.NumberedNamesSortByNumber | utils.py:73 | Numbered job names sort by number, not by text |
| Utils.DocumentedExample | utils.py:73 | `natural_sort(['job_1.wg','job_10.wg','job_2.wg'])` is `['job_1.wg','job_2.wg','job_10.wg']` |
| Utils.CompletedWorkloads | utils.py:78-95 | An empty or unreadable record directory gives no completed workloads. Otherwise each listed file name gives its name without extension |
| MainLoop.MatchingWorkloads | main.py:42-43 | The kept workloads are exactly the listed files that start with the benchmark name |
| MainLoop.MatchingWorkloadsOne | main.py:43 | A single listed name is kept exactly when it starts with the benchmark name |
| MainLoop.MatchingWorkloadsAppend | main.py:43 | The filter keeps the listing order: the matches of two listings one after the other are the matches of the first followed by those of the second |
| MainLoop.Subset | main.py:58-63 | Fewer than 10 workloads are all tuned. Otherwise the first 13 are tuned, or all of them when there are fewer than 13. The result is always a prefix |
| MainLoop.SelectionShape | main.py:42-63 | The tuned workloads match the prefix and are in natural order. They are the sorted list cut at 13, so the threshold of 10 never changes the selection |
| MainLoop.RunLoopSnoc | main.py:70 | Each loop iteration is one step from the previous state |
| MainLoop.StoppedStays | main.py:96-98 | After the `break`, later workloads change nothing |
| MainLoop.TuneLoop | main.py:66-101 | The loop's counters and its `run_tuning` calls are those of the step-by-step specification |
| MainLoop.CountsAddUp | main.py:66-101 | Successes, failures and skips add up to the number of workloads unless the loop stopped, and every `run_tuning` call is counted as a success or a failure |
| MainLoop.CompletedNotRun | main.py:71-86 | Every `run_tuning` call is for a workload not already completed |
| MainLoop.Pending | main.py:71-76 | The workloads not yet completed are exactly the listed ones that no completed record names, in order |
| MainLoop.SkipRule | main.py:70-80 | Until the loop stops, `run_tuning` is called for exactly the workloads that are not completed, in order, each with path `join(base, name)`. Every other workload is counted as skipped |
| MainLoop.RunIffNotCompleted | main.py:72-80 | A workload the loop passed before stopping was run if and only if it is not completed |
| MainLoop.StopRule | main.py:91-101 | The loop stops exactly when the set has at least 10 workloads and a run failed. A large set then has at most one failure |
| MainLoop.CleanRunTunesAll | main.py:78-89 | With no completed records and no failures, every workload is tuned once, in order, with path `join(base, name)` |
| MultiThread.PieceEnd | tuning_utils/multi_thread.py:177 | A piece ends at the first `;` or newline |
| MultiThread.RunEnd | tuning_utils/multi_thread.py:177 | A separator run ends at the first character that is neither `;` nor a newline |
| MultiThread.SplitFromShape | tuning_utils/multi_thread.py:177 | The pieces from a position contain no separator, and only the first and last can be empty |
| MultiThread.SplitPiecesShape | tuning_utils/multi_thread.py:177 | `re.split(r'[;\n]+', text)` gives pieces without separators. Only the first and last can be empty: the first exactly when the text starts with a separator, the last exactly when it ends with one |
| MultiThread.CollapseKeepsPlainPrefix | tuning_utils/multi_thread.py:177 | Collapsing separator runs keeps a separator-free prefix as it is |
| MultiThread.SplitFromThenJoin | tuning_utils/multi_thread.py:177 | Joining the pieces from a position with `;` collapses the separator runs from there |
| MultiThread.SplitThenJoinCollapses | tuning_utils/multi_thread.py:177 | Joining the pieces with `;` gives back the text with every separator run replaced by one `;` |
| MultiThread.DropEmptyLast | tuning_utils/multi_thread.py:182-183 | Only the last query is dropped, and exactly when it is the bare `;` |
| MultiThread.Cap | tuning_utils/multi_thread.py:186-188 | The list keeps its first `min(len, 3000)` queries |
| MultiThread.QueriesOfPiecesLength | tuning_utils/multi_thread.py:178-188 | The number of queries is the number of pieces, less one when the last piece strips to nothing, capped at 3000 |
| MultiThread.QueriesOfPiecesElements | tuning_utils/multi_thread.py:178-179 | Query `i` is piece `i` stripped, followed by `;` |
| MultiThread.PreparedQueriesFromPieces | tuning_utils/multi_thread.py:177-188 | The prepared queries are the stripped, `;`-terminated pieces of the text, without an empty last one, capped at 3000 |
| MultiThread.PreparedQueryHasOneTerminator | tuning_utils/multi_thread.py:177-188 | Every prepared query ends in `;` and has no other `;` or newline |
| MultiThread.TerminatedPieceHasOneTerminator | tuning_utils/multi_thread.py:179 | A stripped piece followed by `;` has exactly one separator, at its end |
| MultiThread.TerminateAll | tuning_utils/multi_thread.py:178-179 | The in-place loop turns every element into its stripped text followed by `;` |
| MultiThread.RoundRobin | tuning_utils/multi_thread.py:191-195 | The partition has one list per thread. The list of thread `t` holds the queries at indices congruent to `t`, in order |
| MultiThread.ResidueLength | tuning_utils/multi_thread.py:193-195 | Thread `t` gets `len // n` queries, plus one when `t < len % n` |
| MultiThread.BalancedPartition | tuning_utils/multi_thread.py:191-195 | Any two threads' query counts differ by at most one |
| MultiThread.ResiduePrefix | tuning_utils/multi_thread.py:193-195 | Dealing a prefix of the queries gives a prefix of each thread's list |
| MultiThread.QueryPlacement | tuning_utils/multi_thread.py:193-195 | Query `i` lands at position `i // n` of thread `i % n` |
| MultiThread.ListPositionSource | tuning_utils/multi_thread.py:193-195 | Position `k` of thread `t` holds query `k * n + t` |
| MultiThread.AppendOneSums | tuning_utils/multi_thread.py:195 | Appending one query to one thread's list adds one query to the pooled total |
| MultiThread.RoundRobinStep | tuning_utils/multi_thread.py:193-195 | One loop iteration appends query `i` to thread `i % n` and changes nothing else |
| MultiThread.NoQueries | tuning_utils/multi_thread.py:191 | The fresh partition has one empty list per thread |
| MultiThread.PartitionIsPermutation | tuning_utils/multi_thread.py:191-195 | The lists together hold exactly the queries: no query is lost or duplicated |
| MultiThread.Deal | tuning_utils/multi_thread.py:191-195 | The dealing loop builds the round-robin partition |
| MultiThread.Executor.constructor | tuning_utils/multi_thread.py:150-165 | A new executor has its thread count, no workload text and an empty partition |
| MultiThread.Executor.DataPre | tuning_utils/multi_thread.py:167-199 | `data_pre` stores the text and sets the partition to the round-robin split of the prepared queries |
| MultiThread.WorkerAccountsForEveryQuery | tuning_utils/multi_thread.py:88-115 | A worker's successes and errors add up to its number of queries |
| MultiThread.CountSucceededSnoc | tuning_utils/multi_thread.py:98 | One more query adds one success exactly when it succeeded |
| MultiThread.WorkerStatsAdditive | tuning_utils/multi_thread.py:88-115 | A worker's statistics over two runs of queries are the sums of the statistics of each |
| MultiThread.TimeStamp.constructor | tuning_utils/multi_thread.py:224 | The shared statistics dictionary starts empty |
| MultiThread.TimeStamp.RunWorker | tuning_utils/multi_thread.py:64-139 | A connected worker records its counts under its id. A worker that fails fatally records zeros, but only when its id is absent. No other entry changes |
| MultiThread.Aggregate | tuning_utils/multi_thread.py:250-284 | The totals are those over thread ids `0..thread_num-1`, and missing threads are exactly the absent ids. Any error or missing thread gives latency 1e9 and throughput 0. An error-free run without queries gives average latency 0 |
| MultiThread.MissingCountsAbsentIds | tuning_utils/multi_thread.py:256-268 | The count of missing threads is the number of absent ids |
| MultiThread.InvalidationRule | tuning_utils/multi_thread.py:272-284 | An iteration with an error or a missing thread is invalid (latency 1e9, throughput 0). A complete error-free iteration reports the summed latency per query and the queries per second, and zeros without queries |
| MultiThread.FailedConnectionsLookValid | tuning_utils/multi_thread.py:121-126 | A worker whose connection fails records zero statistics, so an iteration where every connection fails is not invalidated and reports zero throughput and latency |
| MultiThread.CleanTotals | tuning_utils/multi_thread.py:256-265 | When every thread reports its whole list without errors, the running totals are the sizes of the lists seen so far |
| MultiThread.CleanRunCountsEveryQuery | tuning_utils/multi_thread.py:250-275 | When every thread reports its whole list without errors, the total query count is the number of prepared queries and the iteration is valid |
| NewTask2.RawQueriesLength | tuning_utils/new_task2.py:72-80 | The number of queries is the number of pieces, less one for an empty last piece, capped at 3000 |
| NewTask2.RawQueriesElements | tuning_utils/new_task2.py:73-74 | Query `i` is piece `i` followed by `;`, with no stripping |
| NewTask2.RawQueriesFromPieces | tuning_utils/new_task2.py:72-80 | The queries are the `;`-terminated pieces of the text, without an empty last one, capped at 3000 |
| NewTask2.RawQueryHasOneTerminator | tuning_utils/new_task2.py:72-80 | Every query ends in `;` and has no other `;` or newline |
| NewTask2.SplitFromKeepsNoSpace | tuning_utils/new_task2.py:72 | Splitting a whitespace-free text gives whitespace-free pieces |
| NewTask2.AgreesWithStrippedOnSpaceFreeText | tuning_utils/new_task2.py:72-80 | On a text without whitespace, the non-stripping variant prepares the same queries as `multi_thread.py` |
| NewTask2.AppendAll | tuning_utils/new_task2.py:73-74 | The in-place loop appends `;` to every element |
| NewTask2.Executor.constructor | tuning_utils/new_task2.py:44-55 | A new executor has its thread count, no workload text and an empty partition |
| NewTask2.Executor.DataPre | tuning_utils/new_task2.py:57-88 | `data_pre` stores the text and sets the partition to the round-robin split of the unstripped queries |
| WorkloadExecutor.KeptLinesShape | workload_executor.py:89-101 | At most one query per line. Each query is stripped, non-empty and not a `--` comment |
| WorkloadExecutor.KeptLinesOfQueries | workload_executor.py:95-100 | When no line is blank or a comment, the queries are exactly the stripped lines, in order |
| WorkloadExecutor.KeptLinesOne | workload_executor.py:95-100 | One line yields its stripped text when that is neither blank nor a `--` comment, and nothing otherwise |
| WorkloadExecutor.KeptLinesAppend | workload_executor.py:95-100 | The queries of two runs of lines are those of the first followed by those of the second, so every query line is kept, in file order, with its `;` as it is |
| WorkloadExecutor.LoadWgQueries | workload_executor.py:89-101 | The loop keeps exactly the lines the specification keeps |
| WorkloadExecutor.CountOlapQueries | workload_executor.py:103-107 | The count is the number of kept lines, and 0 when the file cannot be read |
| WorkloadExecutor.LowerIdempotent | workload_executor.py:37 | Lower-casing twice is lower-casing once |
| WorkloadExecutor.DispatchRule | workload_executor.py:26-43 | Knobs are applied exactly for a non-empty config, and a failed knob change does not change the outcome. The OLAP path is taken exactly when the lower-cased benchmark is `tpch`, `job`, `olap` or `dwg`. A missing benchmark goes to OLTP |
| WorkloadExecutor.CountTrue | workload_executor.py:72-78 | At most as many successes as queries |
| WorkloadExecutor.RunOlap | workload_executor.py:58-100 | A workload file that cannot be opened raises out of `_run_olap`. No queries gives 0.0. Otherwise the result is the number of successful queries divided by the elapsed time, floored at 1e-6 |
| WorkloadExecutor.OlapRateBounds | workload_executor.py:84-85 | The rate is non-negative and at most all queries over the elapsed time |
| WorkloadExecutor.OltpGuards | workload_executor.py:121-149 | BenchBase runs exactly when a home is set and the profile exists. Its command is `home/benchbase -b <benchmark or tpcc> -c <profile>`, where the profile is the XML workload itself or else `config_path` |
| WorkloadExecutor.OltpOutcome | workload_executor.py:152-165 | BenchBase's return code never changes the result. A missing home, a missing profile or a failed start gives 0.0 |
| WorkloadExecutor.FirstNumeric | workload_executor.py:194-197 | The first of the keys with a numeric value wins, in order |
| WorkloadExecutor.Candidates | workload_executor.py:199-203 | The candidates are exactly the numeric member values |
| WorkloadExecutor.MaxOf | workload_executor.py:204-205 | `max` is a member of the list and bounds every element |
| WorkloadExecutor.InsertNewestFirst | workload_executor.py:178-182 | Inserting keeps every file and adds the new one |
| WorkloadExecutor.NewestFirst | workload_executor.py:178-182 | The sort keeps exactly the listed files |
| WorkloadExecutor.InsertNewestFirstStable | workload_executor.py:178-182 | Inserting a file puts it ahead of the files with the same time and keeps their order |
| WorkloadExecutor.NewestFirstStable | workload_executor.py:178-182 | The sort is stable: files with the same modification time keep their listing order |
| WorkloadExecutor.InsertNewestFirstOrdered | workload_executor.py:178-182 | Inserting into a newest-first list keeps it newest first |
| WorkloadExecutor.NewestFirstOrdered | workload_executor.py:178-182 | The files are ordered by decreasing modification time |
| WorkloadExecutor.FirstTpsIsFirstHit | workload_executor.py:186-208 | The result is the figure of the first file that yields one, or 0.0 when none does |
| WorkloadExecutor.TpsOfObject | workload_executor.py:193-205 | `metrics` is the `metrics` member when truthy, else the whole object. A truthy `metrics` that is not an object yields nothing. Otherwise a typical key of `metrics` wins, then its maximum numeric value, and a file without either yields nothing |
| WorkloadExecutor.ParseBenchbaseTps | workload_executor.py:169-208 | An unreadable directory gives 0.0. Otherwise the loop returns the first figure among the files, newest first |
| BenchbaseRunner.CloseEnd | benchbase_runner.py:187 | A lazy match ends just after a closing tag that lies inside the text |
| BenchbaseRunner.ElementAt | benchbase_runner.py:187 | A matched element fits inside the text |
| BenchbaseRunner.SubKeepsPrefix | benchbase_runner.py:187 | `re.sub` leaves a prefix without an opening tag unchanged |
| BenchbaseRunner.SubWithoutTagUnchanged | benchbase_runner.py:187 | A text without the opening tag is unchanged |
| BenchbaseRunner.CloseEndSkips | benchbase_runner.py:187 | The lazy match stops at the first closing tag on the same line |
| BenchbaseRunner.SubReplacesElement | benchbase_runner.py:187 | A one-line element is replaced by the new element, and the rest is processed further |
| BenchbaseRunner.UnclosedLineNotElement | benchbase_runner.py:187 | `.` does not cross a newline, so an element left open on its line is not matched |
| BenchbaseRunner.CloseEndStopsAtNewline | benchbase_runner.py:187 | The lazy match fails at a newline before any closing tag |
| BenchbaseRunner.PlainTemplate | benchbase_runner.py:187 | A replacement without backslashes is inserted literally |
| BenchbaseRunner.EscapeBackslashes | benchbase_runner.py:187 | A proof helper with no code of its own in the source: the escaping under which `EscapedTemplateRoundTrip` shows `re.sub` inserts a value literally. It never shortens a text |
| BenchbaseRunner.EscapedTemplateRoundTrip | benchbase_runner.py:187 | Expanding an escaped template gives back the original text |
| BenchbaseRunner.RewritesShape | benchbase_runner.py:178-213 | The URL, user name and password come from the settings, with their defaults. Time 60 and terminals 16 always come last. Scale factor and rate are rewritten only for the four named databases |
| BenchbaseRunner.OtherElementKept | benchbase_runner.py:187-213 | An element of another tag is copied unchanged, and the scan goes on after it |
| BenchbaseRunner.MarkupKept | benchbase_runner.py:170-187 | Markup in which `<tag>` does not occur, followed by nothing or by a `<`, is copied unchanged by `re.sub` |
| BenchbaseRunner.SubProfile | benchbase_runner.py:187-213 | One rewrite of a tag that no markup of the profile opens sets the body of every element with that tag and changes no other element and no markup |
| BenchbaseRunner.ApplyProfile | benchbase_runner.py:187-213 | The rewrites applied one after the other give each element the last value set for its tag, and leave the markup (declaration, comments, other elements) alone |
| BenchbaseRunner.LastValueAppend | benchbase_runner.py:187-213 | Of two rewrite lists run one after the other, the second decides a tag it sets |
| BenchbaseRunner.LastValues | benchbase_runner.py:178-213 | The final body of each tag: URL, user, password, time 60 and terminals 16 always. Scale factor and rate per database, whatever the order of the two rewrites. Any other tag keeps its body |
| BenchbaseRunner.RewrittenTagsOnly | benchbase_runner.py:186-213 | The only tags rewritten are `url`, `username`, `password`, `scalefactor`, `rate`, `time` and `terminals` |
| BenchbaseRunner.WrittenProfile | benchbase_runner.py:170-217 | For settings `re.sub` inserts literally and a profile whose markup opens none of the rewritten tags, the written profile keeps every piece in place, gives each element the body its tag gets last, and leaves every other element and all markup, comments included, as they were |
| BenchbaseRunner.SampleProfileWellFormed | benchbase_runner.py:170 | A profile with an XML declaration, a multi-line `<parameters>` root, a comment and a `<works>` block is in the form `WrittenProfile` covers |
| BenchbaseRunner.SampleWritten | benchbase_runner.py:170-217 | On that profile the declaration, root, comment and `<works>` markup are written back unchanged, `<url>` gets the JDBC URL and `<time>` gets 60 |
| BenchbaseRunner.RejectedTemplateWritesNothing | benchbase_runner.py:187-222 | A replacement that `re.sub` rejects aborts the update, so nothing is written |
| BenchbaseRunner.RewritesWithoutTagsUnchanged | benchbase_runner.py:187-213 | A profile containing none of the tags is written back unchanged |
| BenchbaseRunner.ResultsDirShape | benchbase_runner.py:44-49 | The results go to `stress_test_results/<benchmark>_results/<workload name>`, and the workload name holds no `/` |
| BenchbaseRunner.LogFileInResultsDir | benchbase_runner.py:59-61 | The log file lies in the results directory and is named `<benchmark lower-cased>_<timestamp>.log` |
| BenchbaseRunner.ConfigPathShape | benchbase_runner.py:231-240 | The BenchBase root is two levels above the jar. The profile is copied to `<root>/benchbase-postgres/config/postgres/<file name>` |
| BenchbaseRunner.JoinThree | benchbase_runner.py:235 | Joining relative components under a root inserts one `/` between each |
| BenchbaseRunner.DefaultRoot | benchbase_runner.py:231-232 | The default jar gives the root `./benchbase/target` |
| BenchbaseRunner.ParseSummaryJson | benchbase_runner.py:154-168 | The value under `Throughput (requests/second)` when the object has that key. Otherwise 0.0 |
| Tuner.Objective | tuner.py:85 | The cost is never positive. It is `-perf` for a positive performance and `perf` otherwise |
| Tuner.ObjectiveOrder | tuner.py:84-85 | A better positive performance always costs less. A non-positive one costs less than a positive one only when it lies below its negation |
| Tuner.BoundRule | tuner.py:93-100 | Integer knobs get `[min, max]`, widened to `[min, min+1]` when `max == min`, and float knobs keep their bounds. Any other type is skipped |
| Tuner.BuildSpace | tuner.py:92-101 | The loop adds the hyperparameters of the specification, in knob order |
| Tuner.SpaceOfKnobs | tuner.py:92-101 | Every hyperparameter comes from an integer or float knob, every such knob contributes one, and there are no extras |
| Tuner.SaveId | tuner.py:106-109 | For `.xml` the identifier is a file name without `/`. Otherwise it is the prefix before the first `.wg` |
| Tuner.SaveIdOfXml | tuner.py:106-107 | `dir/name.xml` is saved as `name` |
| Tuner.MetricsFileShape | tuner.py:39-46 | The metrics file lies under `internal_metrics/` and ends in `_internal_metrics.json`. For BenchBase benchmarks it is `<stem>_internal_metrics.json` directly in `internal_metrics/<benchmark>` |
| Tuner.UnderMetricsDir | tuner.py:44-46 | Appending to a path under `internal_metrics/` keeps it there, and the result ends with what was appended |
| Tuner.MetricsFileOfOltp | tuner.py:40-44 | The BenchBase form has directory `internal_metrics/<benchmark>` and base name `<stem>_internal_metrics.json` |
| Tuner.RunBudgetOfNumber | tuner.py:118 | A `suggest_num` setting holding the text of a number, with or without surrounding whitespace, is that number of runs |
| Tuner.RunBudgetWithoutDigits | tuner.py:118 | A `suggest_num` setting without a digit makes `int` raise `ValueError` |
| Text.ParseIntOfString | xml_workload_editor.py:22-23 | `int(str(n)) == n` for every integer |
| XmlWorkloadEditor.VerdictsAt | xml_workload_editor.py:20-24 | Each `<time>` element is judged on its own text |
| XmlWorkloadEditor.UpdateTimeInXml | xml_workload_editor.py:11-38 | An unparsable file, or a text `int` rejects, gives `False` and writes nothing. Otherwise the file is written with the differing times replaced, exactly when one differs |
| XmlWorkloadEditor.VerdictRule | xml_workload_editor.py:22 | An element is replaced exactly when its text is non-empty and its integer value differs. `int` is applied to every non-empty text |
| XmlWorkloadEditor.RewrittenTextIsCurrent | xml_workload_editor.py:22-23 | A text set to `str(new_time)` is already up to date |
| XmlWorkloadEditor.StringOfIntHasNoSpace | xml_workload_editor.py:23 | `str(n)` holds no whitespace |
| XmlWorkloadEditor.WrittenIffUpdated | xml_workload_editor.py:26-34 | The file is written exactly when `True` is returned. Exactly the replaced elements then differ |
| XmlWorkloadEditor.UpdateIdempotent | xml_workload_editor.py:11-38 | A second run on the written file changes nothing and returns `False` |
| XmlWorkloadEditor.ChangedFiles | xml_workload_editor.py:54-57 | No more files are counted than there are |
| XmlWorkloadEditor.CountUpdated | xml_workload_editor.py:54-57 | The counter is the number of files the update changed |
| GatherTrainingData.Collect | surrogate/gather_training_data.py:20-21 | A directory yields at most one file per entry |
| GatherTrainingData.FindRunhistoryFiles | surrogate/gather_training_data.py:12-22 | The loop collects the files of the existing benchmark directories and returns them sorted |
| GatherTrainingData.GlobMatchesMembers | surrogate/gather_training_data.py:20-21 | The glob finds a file exactly when a non-hidden `*_hebo_output` subdirectory holds it as `runhistory.jsonl` |
| GatherTrainingData.BenchOutputMembers | surrogate/gather_training_data.py:16-21 | A benchmark contributes a file exactly when its directory exists and the glob finds the file there |
| GatherTrainingData.FoundInMembers | surrogate/gather_training_data.py:15-21 | The collected files are exactly the glob hits of the existing benchmark directories |
| GatherTrainingData.FoundFiles | surrogate/gather_training_data.py:6-22 | The returned list is sorted. It holds exactly the run histories under `job` and `tpch`, and a missing benchmark directory contributes nothing |
| GatherTrainingData.SetMember | surrogate/gather_training_data.py:36 | After `d[key] = value`, `key` maps to `value` and every other key is unchanged |
| GatherTrainingData.ReadJsonlRecords | surrogate/gather_training_data.py:25-41 | The loop returns the records of the specification, or the `TypeError` of a non-object line |
| GatherTrainingData.PrefixError | surrogate/gather_training_data.py:33-40 | Once a line raises `TypeError`, later lines do not matter |
| GatherTrainingData.ReadOneMoreLine | surrogate/gather_training_data.py:29-40 | A blank or malformed line is skipped and reading continues. An object line appends itself tagged with the path. Any other value raises |
| GatherTrainingData.RecordsAreTagged | surrogate/gather_training_data.py:35-37 | Every record is an object whose `__source` is its file, and there is at most one record per line |
| GatherTrainingData.CombineRunhistories | surrogate/gather_training_data.py:44-59 | The loop produces the document of the specification, or the failure that stops it |
| GatherTrainingData.ReadAllPrefixError | surrogate/gather_training_data.py:48-50 | A failure in one file stops the combination there |
| GatherTrainingData.ReadAllTagged | surrogate/gather_training_data.py:46-50 | Every combined record is tagged with one of the source files |
| GatherTrainingData.CombinedShape | surrogate/gather_training_data.py:52-57 | `count` is the number of records, `files` is sorted, and every record names one of `files` as its source |
| GatherTrainingData.ReadAllAppend | surrogate/gather_training_data.py:48-50 | The records of the files are concatenated in the sorted file order |

## Left out

- Connections, cursors, threads, `time.time()`, logging, `print` and file output are not modelled; the model receives as parameters the outcome of each query, of each BenchBase run and of each `run_tuning` call, and the measured times. The threads of `multi_thread.py` are modelled one after another; each writes only its own key of `time_stamp`.
- Floating-point arithmetic is modelled with exact reals (`real`); rounding is not modelled.
- Characters are ASCII for `isdigit` and `lower`: Unicode digits and case mappings are not modelled. `strip` uses Python's full set of whitespace characters.
- `int()` is modelled for an optional sign followed by ASCII digits; underscores between digits, which Python also accepts, are not.
- `json.loads`/`json.load` is a parameter; duplicate keys in a JSON object are not modelled (an object's keys are taken to be distinct).
- BenchbaseRunner.ExpandTemplate: the `\g<name>` group references and octal escapes of an `re.sub` replacement are treated as rejected templates, like an unknown escape.
- `run_benchmark`'s command string, process launch and `clean_and_find_summary` (file deletions in the results directory) are not modelled; `os.path.abspath` of the results directory is left out, the directory is kept relative.
- `run_config_surrogate` is not modelled: it is a placeholder score over floating-point knob weights.
- SMAC, ConfigSpace objects, the scenario's output directories and the knob-change call to the database are not modelled; `tuner.py` is modelled for its objective, bounds, identifiers, metrics path and run budget.
- XML parsing, ElementTree's `findall('.//works/work/time')` selection and XML serialisation are not modelled: a profile is the sequence of texts of its selected `<time>` elements.
- `glob.glob`'s listing order is not modelled beyond being the directory's entry order; the result is sorted afterwards.
- Paths.Basename: its contract is stated by the lemma `Paths.BasenameIsLastComponent` instead of on the function.
- Text.Strip: its contract is stated by the lemmas `Text.StripShape` and `Text.StripIsSlice` instead of on the function.
- Text.ParseInt: its contract is stated by the lemma `Text.ParseIntOfString` (the round trip with `str`) instead of on the function.
- Tuner.RunBudget: its contract is stated by the lemmas `Tuner.RunBudgetOfNumber` and `Tuner.RunBudgetWithoutDigits` instead of on the function. The setting is taken to be text, as config.ini values are.
- BenchbaseRunner.WrittenProfile: covers profiles whose rewritten elements each sit on one line with a body free of `<`, and settings that hold no `<`, newline or backslash. A rewritten element spread over several lines is matched differently by `.*?`, and a `<` or backslash in a setting changes what `re.sub` inserts; those cases are left to the lemmas on `Sub` and `ExpandTemplate`.
- MultiThread.Executor.DataPre: requires at least one thread; with zero threads the source raises `ZeroDivisionError` on the first query, which is not modelled.
- NewTask2.Executor.DataPre: requires at least one thread, for the same reason.
- MultiThread.Executor.constructor: takes the thread count as a natural number; a negative `thread_num` is not modelled.
- NewTask2.Executor.constructor: takes the thread count as a natural number, for the same reason.
- Utils.TokenLess: Python raises `TypeError` when it compares an integer key element with a string one; the model orders integers before strings there instead. `Utils.KindMismatchOnlyWhenFirstCharsDiffer` shows this can only happen for names whose first characters differ in kind, which the benchmark-prefix filter of `main.py` rules out for a non-empty benchmark. With an empty `benchmark` every file is kept, and names such as `1a` and `a1` make `natural_sort` raise `TypeError`; that error is not modelled.
- Other files of the repository (`controller.py`, `Database.py`, `resetDB.py`, `stress_testing_tool.py`, `test_hebo_configs.py`, `new_task.py`, `new_task_base.py`) are not part of this model.
