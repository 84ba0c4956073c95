# Storage-inventory rollup: a Dafny model of `process_csv`

`phase2_overview.py` reads a pipe-delimited file-inventory extract, with one row
per file giving its `DirectoryName` and its `Length` in bytes. It rolls the rows up
per (drive, top-level folder) and writes a pipe-delimited summary. Each summary
row gives the fixed server name, the drive, the folder, the size in GB, the number
of distinct directories and the number of files.

This project models that roll-up as the program runs it:

- `Lengths`: the `Length` coercion `int(s) if s.isdigit() else 0`. It also holds
  `str()` of a non-negative integer, which the writer applies to the counts.
- `Strings`: Python's `str.split` and `str.join` for a one-character separator.
- `Paths`: the key of a directory. The path is split on `\` with nothing stripped.
  Given two or more pieces, the drive is the first two pieces rejoined. The top-level
  folder is the third piece, or `"Not Applicable"` when there is none. A path
  without a backslash is its own drive.
- `Aggregation`: the accumulation as a pure fold, kept as the specification. Each row
  first becomes a `Contribution`: its key, its directory string and its parsed
  size. The fold then adds each contribution to the `defaultdict` entry of its key.
  It also keeps the keys in first-seen order. Reference definitions state per key
  what the entry should hold.
- `Output`: the `output_rows` table and its text form. The header comes first, then
  one six-cell row per key. Each line is the `str()` of its cells joined with `|`
  and ended by a newline, with no quoting.
- `Overview`: the imperative program.
  - The `Aggregator` class holds `folder_data` as a `map` field and the dict's key
    insertion order as a `seq` field.
  - `Ingest` is one iteration of the row loop and updates the table in place.
  - `Finalize` is the loop that builds `output_rows`.
  - `WriteSummary` is the loop that writes the lines.
  - `ProcessCsv` runs all three. Its contract ties the file text to the
    specification.
- `Scenarios`: the model's results on small inputs, proved.

The GB figure `round(size / 1024**3, 2)` involves floating point and Python's
rounding. It is left abstract. The `Data(GB)` cell keeps the integer byte total it
is computed from, and the renderer takes a caller-supplied `gb: nat -> string` for
its text.

Because nothing is stripped, a path written with its UNC prefix (`\\host\share\top\…`)
starts with two empty pieces. Its drive is a single backslash and its "top-level
folder" is the host name. This is what the code does, and
`Paths.DecomposeLeadingDoubleBackslash` states it. The code strips nothing from a path,
keeps no log of skipped rows, writes every field unquoted and hard-codes the
server name `SGSIN021MF6001P`. The
subfolder count here is the number of distinct `DirectoryName` strings among a
key's rows.

## Model

| member | source | states |
|---|---|---|
| `Lengths.ParseLength` | phase2_overview.py:16 | definition; its properties are stated by `ParseToDecimal`, `LeadingZero`, `ParseLengthRange` and `Scenarios.LengthExamples` |
| `Lengths.ParseToDecimal` | phase2_overview.py:16 | reading back the decimal text `str(n)` of any non-negative integer gives `n` |
| `Lengths.LeadingZero` | phase2_overview.py:16 | a leading `0` does not change the value of a digit string (`int("007") == 7`) |
| `Lengths.ParseLengthRange` | phase2_overview.py:16 | a `Length` that is empty or holds any non-digit contributes 0 bytes; a digit string of length n contributes less than 10^n |
| `Lengths.ToDecimal` | phase2_overview.py:55 | `str()` of a count is a non-empty digit string with no sign and no leading zero (only `"0"` starts with `0`) |
| `Strings.Join` | phase2_overview.py:55 | definition; its properties are stated by `JoinSplit`, `SplitJoin`, `Output.LineRoundTrip` and `Output.FileLines` |
| `Strings.Split` | phase2_overview.py:19 | `split` returns at least one piece, and no piece holds the separator |
| `Strings.JoinSplit` | phase2_overview.py:19 | joining the pieces of a split with the separator gives the input back, so nothing is dropped or stripped |
| `Strings.SplitJoin` | phase2_overview.py:19 | splitting a join of separator-free pieces gives the pieces back, so the pieces of a split are uniquely determined |
| `Strings.SplitSingle` | phase2_overview.py:20-25 | a path splits into fewer than two pieces exactly when it contains no backslash |
| `Paths.Decompose` | phase2_overview.py:19-25 | the drive is a prefix of the path; when there is a top-level folder, drive `\` folder is a prefix of the path; a path with no backslash is its own drive, with folder `"Not Applicable"` |
| `Paths.DecomposeTwoPieces` | phase2_overview.py:20-22 | for `a\b` the drive is the whole path and the folder is `"Not Applicable"` |
| `Paths.SplitDeep` | phase2_overview.py:19-21 | a path `a\b\c` followed by nothing or by `\…` splits into at least three pieces, the first three being `a`, `b` and `c` |
| `Paths.DecomposeDeep` | phase2_overview.py:20-22 | for `a\b\c`, optionally followed by `\` and anything, the drive is `a\b` and the folder is `c` |
| `Paths.DecomposeLeadingDoubleBackslash` | phase2_overview.py:19-22 | for `\\host` followed by nothing or by `\…`, the two empty leading pieces make the drive `\` and the folder `host` |
| `Aggregation.Extract` | phase2_overview.py:15-28 | definition; its properties are stated by `Paths.Decompose` and its lemmas and by `Lengths.ParseLength`'s lemmas |
| `Aggregation.Add` | phase2_overview.py:29-31 | definition; its properties are stated by `Step`, `AggregateIsPerKeyTotals` and `SubfolderBounds` |
| `Aggregation.Lookup` | phase2_overview.py:29 | definition; its properties are stated by `Step` (an absent key reads as zero bytes, no directories and zero files) |
| `Aggregation.Step` | phase2_overview.py:12-31 | adding one row touches only its key's entry: a new key starts from zero bytes, no directories and zero files; every other entry is unchanged; no other key appears |
| `Aggregation.Aggregate` | phase2_overview.py:14-31 | definition; its properties are stated by `ContributedKeysPresent`, `PresentKeysSeen`, `AggregateIsPerKeyTotals`, `SubfolderBounds` and `TotalsAddUp` |
| `Aggregation.KeyOrder` | phase2_overview.py:28-35 | definition; its properties are stated by `KeyOrderIsFirstSeen` |
| `Aggregation.ContributedKeysPresent` | phase2_overview.py:28-29 | every row's key has an entry after the loop |
| `Aggregation.PresentKeysSeen` | phase2_overview.py:28-29 | every entry's key is the key of some row |
| `Aggregation.AggregateIsPerKeyTotals` | phase2_overview.py:28-31 | a key has an entry exactly when some row is routed to it; the entry's size is the sum of those rows' parsed lengths, its set is their distinct directory strings, and its file count is their number |
| `Aggregation.SubfolderBounds` | phase2_overview.py:30-31 | every entry has at least one and at most `files` distinct directory strings |
| `Aggregation.KeyOrderIsFirstSeen` | phase2_overview.py:28-29 | the key order lists every key of the table exactly once and nothing else, sorted by the index of each key's first row (dict insertion order) |
| `Aggregation.TotalsAddUp` | phase2_overview.py:29-31 | over all keys the file counts add up to the number of rows and the sizes add up to the sum of all parsed lengths |
| `Output.DataRow` | phase2_overview.py:36-43 | definition; its properties are stated by `SummaryRowAt` |
| `Output.Summary` | phase2_overview.py:34-43 | definition; its properties are stated by `SummaryShape`, `DataRowsAt` and `SummaryRowAt`; the header row is the constant `Output.Header` (line 34) |
| `Output.DataRowsAt` | phase2_overview.py:35-43 | the i-th data row is the row of the i-th key with that key's entry |
| `Output.SummaryShape` | phase2_overview.py:34-43 | the summary is the header followed by one row per distinct key; with no input rows it is the header alone |
| `Output.SummaryRowAt` | phase2_overview.py:34-43 | summary row i+1 carries `SGSIN021MF6001P`, the i-th key in first-seen order, the byte total of that key's rows, the number of their distinct directory strings, and their number |
| `Output.LineRoundTrip` | phase2_overview.py:55 | a line ends in a newline; while no cell text holds a pipe, splitting the rest on pipes gives back exactly the cells' texts, unquoted |
| `Output.RenderLine` | phase2_overview.py:55 | definition; its properties are stated by `LineRoundTrip` and `CountCellsPlain` |
| `Output.RenderAll` | phase2_overview.py:54-55 | definition; its properties are stated by `FileLines` |
| `Output.CountCellsPlain` | phase2_overview.py:55 | count cells never contain a pipe or a newline |
| `Output.FileLines` | phase2_overview.py:53-55 | while no cell text holds a newline, splitting the file on newlines gives one piece per output row (its cells joined by pipes), then the empty piece after the last newline |
| `Overview.Aggregator.constructor` | phase2_overview.py:12 | the table starts empty, with no keys and no rows ingested |
| `Overview.Aggregator.Ingest` | phase2_overview.py:14-31 | keeps the table equal to the fold of the rows so far; adds the row's bytes, directory and one file to its key's entry only; appends an unseen key to the key order |
| `Overview.Aggregator.Finalize` | phase2_overview.py:34-43 | returns exactly the summary of the rows ingested: the header, then one row per key in insertion order |
| `Overview.WriteSummary` | phase2_overview.py:53-55 | the text written is the lines of the output rows, in order |
| `Overview.ProcessCsv` | phase2_overview.py:7-55 | the whole run yields the rendering of the summary of the input rows |
| `Scenarios.LengthExamples` | phase2_overview.py:16 | `"100"` and `"200"` parse to 100 and 200; `"abc"`, `""` and `"-5"` give 0 |
| `Scenarios.SameDirectoryTwice` | phase2_overview.py:14-31 | two rows of the same directory give one entry with both byte counts added, one directory string and two files |
| `Scenarios.DegradedLengthStillCounts` | phase2_overview.py:16-31 | a row with a non-numeric length is not skipped: it adds 0 bytes and still counts as a file |

## Left out

- Reading the extract (`pd.read_csv`, `iterrows`, phase2_overview.py:9,14) is a library
  call. The input is a sequence of rows whose `DirectoryName` and `Length` are strings.
- Missing values are not modelled: every field here is a string. Even with
  `dtype=str`, pandas yields float NaN for empty cells and for markers such as
  `NA`, `N/A`, `null`, `None` and `nan`. A NaN `Length` makes `.isdigit()` raise
  (phase2_overview.py:16). A NaN `DirectoryName` makes `directory.split` raise
  (phase2_overview.py:19). Either stops the run.
- `Lengths.ParseLength` recognises only the ASCII digits `0`-`9`. For other Unicode
  decimal digits, such as fullwidth `１２３` or Arabic-Indic `١٢٣`, Python's `isdigit()`
  passes and `int()` returns the value, while `Lengths.ParseLength` returns 0. For
  digit characters that are not decimal, such as superscripts, `isdigit()` passes and
  `int()` raises, which stops the run; the model returns 0 there as well.
- The GB figure `round(size / 1024**3, 2)` and its `str()` (phase2_overview.py:40,55)
  are floating point with round-half-even. The model keeps the byte total and leaves
  the text to the `gb` parameter.
- Creating the output folder, the timestamped file name, opening and writing the
  file, and the final `print` (phase2_overview.py:46-57) are I/O and the clock. The
  model produces the text passed to `f.write`. The command line (phase2_overview.py:59-65)
  is left out. So are `phase2_csv_ops/sum_for_pipe_sep_files.py` (a pandas column
  sum, float unit conversion and file output) and `phase2_csv_ops/python_csv_split.py`
  (chunked pandas reading and writing). Both are thin wrappers over library I/O.
- `Overview.Aggregator.Ingest` performs the three updates of lines 29-31 as one map
  update. The intermediate states between them are not observable and are not modelled.
- Python integers are unbounded, and so are the model's `nat` totals, so the integer
  sums of lines 29-31 cannot overflow.
- `Overview.ProcessCsv` treats the GB conversion as total. At phase2_overview.py:40,
  `data['size'] / (1024**3)` is true division of two integers, and it raises
  `OverflowError` once a key's byte total is beyond the float range (about 1.9e317
  bytes). One row whose `Length` is `1` followed by 318 zeros is enough. The run then
  stops in the output loop, before `os.makedirs`, and writes no file. The model's
  `gb: nat -> string` is total by assumption, so `ProcessCsv` returns text for such
  totals.
- `Lengths.ParseLength` has no digit-count limit. From Python 3.11, `int()` raises
  `ValueError` on a decimal string of more than 4300 digits, which stops the run at
  phase2_overview.py:16. The model returns the value.
- `Overview.WriteSummary` yields the text passed to `f.write` (phase2_overview.py:53-55),
  not the file's bytes. The file is opened in text mode with UTF-8, so each `\n` is
  written as the platform line separator (CRLF on Windows) and characters are encoded
  as UTF-8. Neither translation is modelled.
