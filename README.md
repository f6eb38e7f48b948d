# Error log analyzer, modelled in Dafny

This project models the parse-and-count core of the Python error log analyzer (`error_log_analyzer.py`).
It proves properties of that model. The core has three parts:

- **Reading lines** (`read_log_file`, lines 107-114). The file's lines come in as a sequence. Each one is trimmed as `str.strip()` trims it (`LineReader`).
- **Line splitting** (lines 132-133). `line.split("] ", 2)` cuts at the two leftmost occurrences of `"] "`. The level is `parts[1][1:]` (`LineSplit`).
- **Error aggregation** (`count_error_messages`, lines 120-146). One loop does four things:
  - it counts every line in `total_lines`;
  - it counts in `error_lines` the lines whose level is exactly `"ERROR"`;
  - it tallies `parts[2]` of those lines in a `defaultdict(int)`;
  - it skips with a warning any line on which indexing the parts raises `IndexError`.

  The loop is modelled as a method, `Aggregator.CountErrorMessages`. It is proved equal to a fold, `Aggregator.Analyze`. What the fold computes is proved against independent definitions. The per-line body is the method `Aggregator.CountLine`. Both `total_lines` and `error_lines` are outputs of the model, although the source only logs them.
- **Top-K selection** (`find_top_k_errors`, lines 152-154). This is `heapq.nlargest(k, items, key=count)`. Python documents its result as `sorted(items, key=count, reverse=True)[:k]`, and that sort is stable. The model computes that result with its own stable sort by descending count, an insertion sort, not Python's Timsort; the proved properties make the result unique. For `k <= 0`, `nlargest` returns `[]`, and so does the model. `k` defaults to 5, as in the source (`TopK`).

The tally (datatype `Tally` in module `Tallies`) is a map from message to count. Beside the map, it keeps its keys in first-insertion order, because Python dictionaries iterate in that order. Top-K ties depend on it.

Files:

- `line_split.dfy`: module `LineSplit`;
- `line_reader.dfy`: module `LineReader`;
- `tally.dfy`: module `Tallies`;
- `aggregator.dfy`: module `Aggregator`;
- `top_k.dfy`: module `TopK`.

### Where the code decides

In a few places the code behaves differently from what a reading of the log format alone would suggest. The model follows the code:

- **Two-part lines.** Read as a grammar, a line with fewer than 3 parts would be malformed. In the code, a 2-part line raises only if its level is `"ERROR"`, through the `IndexError` at line 137.
  - A 2-part line with another level is an ordinary non-ERROR line: no warning, nothing counted.
  - A 2-part line with level `"ERROR"` (`[t] [ERROR`) bumps `error_lines` at line 136 before `parts[2]` raises at line 137. So it is an ERROR line that is never tallied.
- **No malformed counter.** The code keeps none; it only logs a warning at line 141. The model derives that count as `CountLines(lines, IsMalformed)`, and the count of warnings as `CountLines(lines, Warns)`.
- **Tie-break.** The code's `nlargest` behaves as a stable sort, so equal counts come out in the tally's insertion order. The model proves exactly that.
- **Trimming.** The code calls `strip()`, which removes whitespace at both ends of a line, not only the trailing newline.

## Model

| member | source | states |
|---|---|---|
| LineSplit.SplitN | error_log_analyzer.py:132 | `s.split("] ", maxsplit)`: at most `maxsplit + 1` parts and at least one; its meaning is proved by `SplitNJoin`, `SplitNSepFree` and `SplitNUnique` |
| LineSplit.Split | error_log_analyzer.py:132 | `line.split("] ", 2)` gives 1 to 3 parts; the rest of its meaning is in `SplitProperties` |
| LineSplit.SplitProperties | error_log_analyzer.py:132 | `line.split("] ", 2)` gives 1 to 3 parts; joining them with `"] "` rebuilds the line; every part but the last is free of `"] "`, and so is the last one when fewer than 3 parts came out |
| LineSplit.SplitNUnique | error_log_analyzer.py:132 | any list of at most `maxsplit + 1` parts that joins back to the string, whose parts before the last hold no `"] "` (the last neither, when there are fewer than `maxsplit + 1`), is the one split computes: splitting is characterised by these properties |
| LineSplit.SplitNJoin | error_log_analyzer.py:132 | round trip: joining the parts of any split with `"] "` gives back the string |
| LineSplit.SplitNSepFree | error_log_analyzer.py:132 | the parts before the last hold no `"] "`; the last holds none when the split stopped early |
| LineSplit.SplitOnePart | error_log_analyzer.py:132 | a line yields a single part exactly when it contains no `"] "` |
| LineSplit.FindLeftmost | error_log_analyzer.py:132 | the separator search returns an occurrence of `"] "`, none lies before it, and it returns nothing exactly when the string has none |
| LineSplit.SplitThree | error_log_analyzer.py:132 | `a] b] rest` with `a`, `b` separator-free splits into exactly `[a, b, rest]`, whatever `rest` holds (the last part may contain `"] "`) |
| LineSplit.SplitTwo | error_log_analyzer.py:132 | `a] b` with both pieces separator-free splits into `[a, b]` |
| LineSplit.Level | error_log_analyzer.py:133 | `parts[1][1:]` is defined exactly when there are at least 2 parts (otherwise `IndexError`), and is `parts[1]` without its first character |
| LineSplit.DropFirst | error_log_analyzer.py:133 | Python's `s[1:]`: empty on the empty string, otherwise the string minus its first character |
| LineReader.Strip | error_log_analyzer.py:114 | `line.strip()` never lengthens the line; what it removes is stated by `StripSpec`, `StripIdentity` and `StripIdempotent` |
| LineReader.StripSpec | error_log_analyzer.py:114 | `line.strip()` keeps the infix between the bounds it computes; everything outside is whitespace, and the infix neither starts nor ends with whitespace |
| LineReader.StripIdentity | error_log_analyzer.py:114 | `strip()` leaves a string unchanged exactly when it is empty or neither starts nor ends with whitespace |
| LineReader.StripIdempotent | error_log_analyzer.py:114 | trimming a trimmed line changes nothing |
| LineReader.ReadLogFile | error_log_analyzer.py:107-114 | the reader yields exactly one line per line of the file |
| LineReader.StripNewline | error_log_analyzer.py:113-114 | a line the file yields with its newline, whose text neither starts nor ends with whitespace, is trimmed back to that text |
| LineReader.ReadLinesTrimmed | error_log_analyzer.py:113-114 | the `i`-th line yielded is the `i`-th file line with whitespace removed from its ends only, and has no whitespace left at either end |
| Tallies.Empty | error_log_analyzer.py:125 | a fresh `defaultdict(int)` has no keys, is well formed, and has no count below 1 |
| Tallies.Increment | error_log_analyzer.py:138 | after `error_counter[m] += 1`, `m` is a key; the change to the counts is stated by `IncrementGet`, `IncrementValid` and `IncrementTotal` |
| Tallies.IncrementGet | error_log_analyzer.py:125-138 | a `defaultdict(int)` reads a missing key as 0 and `error_counter[m] += 1` starts from there: the count of `m` rises by one (to 1 when absent) and every other count is unchanged |
| Tallies.IncrementValid | error_log_analyzer.py:138 | the increment keeps keys distinct and equal to the map's domain and keeps counts positive; a new key is appended after the others |
| Tallies.IncrementTotal | error_log_analyzer.py:138 | each increment adds exactly one to the sum of the counts |
| Tallies.Items | error_log_analyzer.py:154 | `error_counter.items()` lists one pair per key, the `i`-th pair holding the `i`-th key in insertion order; that these pairs are exactly the map's entries is proved by `ItemsEntries` |
| Tallies.ItemsEntries | error_log_analyzer.py:154 | a pair is among the items exactly when its key is in the dictionary with that count, and no key appears in two pairs |
| Aggregator.Classify | error_log_analyzer.py:130-141 | what the loop body does with one line: malformed, non-ERROR, ERROR without a message, or ERROR with a tallied message; no `ensures` of its own, its meaning is proved by `MalformedIffNoSep`, `StepEffect`, `TalliedLineShape`, `ErrorWithoutMessageShape` and `FormattedLine` |
| Aggregator.Apply | error_log_analyzer.py:130-141 | the update of the three loop variables for one outcome; no `ensures` of its own, its effect is proved by `StepEffect` and the `Analyze*` lemmas |
| Aggregator.Step | error_log_analyzer.py:130-141 | one iteration of the loop on one line; no `ensures` of its own, it is tied to the source's nested ifs by `StepAsWritten` and `CountLine`, and its effect is proved by `StepEffect` and `SkipWithoutSep` |
| Aggregator.Analyze | error_log_analyzer.py:125-141 | the loop as a fold over the lines, from an empty tally; no `ensures` of its own, what it computes is proved by `AnalyzeMeaning` and `LinesPartition`, and `CountErrorMessages` is proved equal to it |
| Aggregator.CountErrorMessages | error_log_analyzer.py:120-146 | the loop equals `Analyze` on the trimmed lines: `total_lines` is the number of lines, `error_lines` the number of ERROR lines, each message's count its number of tallied lines, keys in first-occurrence order, every count at least 1, and the sum of counts ≤ `error_lines` ≤ `total_lines` |
| Aggregator.CountLine | error_log_analyzer.py:130-141 | the loop body, with its tests in the source's order, does what `Step` does to the three variables |
| Aggregator.StepAsWritten | error_log_analyzer.py:130-141 | the classification of a line, followed through the split, the level test and the `parts[2]` access, gives the nested-if update of the source |
| Aggregator.AnalyzeMeaning | error_log_analyzer.py:125-141 | after all lines: tally well formed with counts ≥ 1, `total_lines` = number of lines, `error_lines` = number of ERROR lines, each count = multiplicity of its message among tallied lines, keys = first occurrences, sum of counts = number of tallied lines ≤ `error_lines` ≤ `total_lines` |
| Aggregator.AnalyzeValid | error_log_analyzer.py:125-138 | the tally stays well formed and every count stays at least 1 |
| Aggregator.AnalyzeLineCounts | error_log_analyzer.py:126-136 | `total_lines` counts every line and `error_lines` the lines whose level is `"ERROR"` |
| Aggregator.AnalyzeCounts | error_log_analyzer.py:138 | each message's count is the number of tallied lines carrying that message |
| Aggregator.AnalyzeTotal | error_log_analyzer.py:138 | the sum of the counts is the number of tallied lines |
| Aggregator.AnalyzeKeys | error_log_analyzer.py:138 | the tally's keys are the tallied messages in first-occurrence order |
| Aggregator.MessagesAreErrorLines | error_log_analyzer.py:135-138 | tallied lines never outnumber ERROR lines |
| Aggregator.LinesPartition | error_log_analyzer.py:126-141 | `total_lines` = ERROR lines + well-formed non-ERROR lines + malformed lines; warnings = malformed lines + ERROR lines with no message part |
| Aggregator.MalformedIffNoSep | error_log_analyzer.py:132-141 | a line makes `parts[1]` raise exactly when it contains no `"] "` (the empty line among them) |
| Aggregator.SkipWithoutSep | error_log_analyzer.py:130-141 | such a line only bumps `total_lines`: tally and `error_lines` unchanged |
| Aggregator.StepEffect | error_log_analyzer.py:132-138 | a line changes the tally iff it splits into 3 parts with level `"ERROR"`, and then only its message's count rises, by one; it bumps `error_lines` iff its level is `"ERROR"` |
| Aggregator.ErrorLineTallied | error_log_analyzer.py:132-138 | `a] b] message` with `a`, `b` separator-free and `b[1:] == "ERROR"` is tallied under `message` |
| Aggregator.TalliedLineShape | error_log_analyzer.py:132-138 | conversely, every tallied line has that shape |
| Aggregator.ErrorLineWithoutMessage | error_log_analyzer.py:132-137 | `a] b` with level `"ERROR"` is an ERROR line whose `parts[2]` raises: counted, not tallied |
| Aggregator.ErrorWithoutMessageShape | error_log_analyzer.py:132-137 | conversely, every such line has that shape |
| Aggregator.FormattedLine | error_log_analyzer.py:132-138 | a line `[ts] [level] message` with `ts`, `level` free of `]` is tallied under `message` when the level is `"ERROR"` and is a quiet non-ERROR line otherwise |
| Aggregator.TwoErrorsOneInfo | tests/test_error_log_analyzer.py:8-19 | two equal ERROR lines and an INFO line give a tally holding just that message, at count 2, with `total_lines` 3 and `error_lines` 2 |
| Aggregator.FormattedLineRead | error_log_analyzer.py:113-114 | a formatted line whose message does not end in whitespace reads back from the file, newline included, as itself |
| Aggregator.TwoErrorsOneInfoFromFile | tests/test_error_log_analyzer.py:8-19 | the test's file shape, newline-terminated lines read through the trimming reader, gives a tally holding just the ERROR message, at count 2, with `total_lines` 3 and `error_lines` 2 |
| Aggregator.DatabaseTimeoutCountedTwice | tests/test_error_log_analyzer.py:10-19 | the test's own newline-terminated lines, read and trimmed, give "Database connection timeout" the count 2 |
| Aggregator.GarbageLineSkipped | error_log_analyzer.py:129-141 | `"garbage no brackets"` is malformed: one line counted, nothing tallied, one warning |
| TopK.SortByCountDesc | error_log_analyzer.py:154 | `sorted(items, key=count, reverse=True)`; no `ensures` of its own, it is proved sorted, a permutation and stable by `SortProperties` |
| TopK.Take | error_log_analyzer.py:154 | Python's `s[:k]` for `k >= 0`: `min(k, len(s))` entries, a prefix of `s` |
| TopK.FindTopKErrors | error_log_analyzer.py:152-154 | `find_top_k_errors(error_counter, k=5)`; no `ensures` of its own, its result is stated by `TopKLength`, `TopKEntries`, `TopKOmittedNoLarger`, `TopKTiesInInsertionOrder`, `TopKPrefix`, `TopKEmpty` and `TopKDefaultFive` |
| TopK.SortProperties | error_log_analyzer.py:154 | the stable descending sort yields non-increasing counts, a permutation of its input, and for every count the entries of that count in their input order |
| TopK.InsertByCountSorted | error_log_analyzer.py:154 | inserting into a list sorted by descending count keeps it sorted |
| TopK.InsertByCountMultiset | error_log_analyzer.py:154 | inserting adds exactly the new entry |
| TopK.InsertByCountStable | error_log_analyzer.py:154 | an inserted entry lands after all entries of equal count already present |
| TopK.SortDistinct | error_log_analyzer.py:154 | sorting entries with distinct messages keeps them distinct |
| TopK.TopKLength | error_log_analyzer.py:154 | `find_top_k_errors` returns `min(k, number of keys)` pairs, and none when `k <= 0` |
| TopK.TopKEntries | error_log_analyzer.py:154 | the pairs come by non-increasing count, each is a (key, count) entry of the tally, and no key appears twice |
| TopK.TopKOmittedNoLarger | error_log_analyzer.py:154 | every entry left out counts no more than the last pair returned |
| TopK.TopKTiesInInsertionOrder | error_log_analyzer.py:154 | for every count, the returned pairs with that count are the first entries of the tally with that count, in insertion order |
| TopK.TopKPrefix | error_log_analyzer.py:154 | the result for `k1 <= k2` is a prefix of the result for `k2` |
| TopK.TopKDefaultFive | error_log_analyzer.py:152 | called without `k`, the selector returns `min(5, number of keys)` pairs, the same as with `k = 5` |
| TopK.TopKEmpty | error_log_analyzer.py:154 | an empty tally or `k <= 0` gives `[]` |
| TopK.TopTwoOfThree | tests/test_error_log_analyzer.py:22-30 | `{E1: 10, E2: 5, E3: 1}` with `k = 2` gives `[(E1, 10), (E2, 5)]` |
| TopK.AllOfThreeWhenKIsTen | error_log_analyzer.py:154 | `k = 10` on a 3-key tally returns all 3 entries sorted by descending count |
| TopK.TiesInInsertionOrder | error_log_analyzer.py:154 | `{A: 1, B: 2, C: 1}` with `k = 3` gives `[(B, 2), (A, 1), (C, 1)]`: the tie keeps insertion order |

## Left out

- `generate_sample_logs` (error_log_analyzer.py:68-101): it uses randomness, the clock and file writes to make synthetic input.
- File I/O in `read_log_file` (error_log_analyzer.py:107-114): opening and streaming the file are not modelled. The lines the file yields, newline included, are the input sequence. Access and read errors are not modelled.
- Logging (error_log_analyzer.py:29-32,124,141,143-144,153): these are global side effects. The line-141 warning is represented only by the derived count `CountLines(lines, Warns)`.
- `main` and the report printing (error_log_analyzer.py:160-183): driver code.
- The heap algorithm inside `heapq.nlargest`: only its documented result, a stable descending sort cut to `k`, is modelled.
- Integer width: none to model, since the counters and counts are unbounded integers in Python as in the model.
- Aggregator.CountErrorMessages: the dictionary is a value that the loop reassigns, not an object updated in place. Nothing else holds a reference to it during the loop, so aliasing does not arise.
- Non-mutation of the input tally by Top-K and idempotence of the aggregation: both hold because the model is made of pure functions, so no lemma states them.
