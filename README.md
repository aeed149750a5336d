# Evaluation-sheet synthesis, modelled in Dafny

The script `main.py` turns survey exports ("evaluation sheets") into summary
reports. Each export is a grid with no header row. Column 0 holds captions and
column 1 holds counts. For each export the script does four things:

1. It finds the question blocks. A block is opened by a header row whose
   caption starts with `Résumé pour Q`.
2. It drops the free-text questions. A free-text question is recognised by a
   row starting with `Identifiant (ID)`; its header is the nearest header above
   that row.
3. It reads each remaining block at fixed row offsets and computes the share
   of very-satisfied respondents, the share of satisfied respondents, and their
   sum, the score.
4. It assigns one of five colour tiers by a priority-ordered rule, and keys
   the results by question id in insertion order.

`main` runs this over every file of the input folder except `.gitignore`.

The model has one module per stage:

- `Sheets` (`sheets.dfy`): cells, rows, the error conditions, and a `Result`
  type.
- `Locator` (`locator.dfy`): lines 22-25. Both the list version and a
  list-free characterisation, proved equal.
- `Classifier` (`classifier.dfy`): lines 59-68.
- `Scores` (`scores.dfy`): the reading and arithmetic of one block, lines
  37-56.
- `Synthesis` (`synthesis.dfy`): the loop of lines 35-69. It is a method
  proved against a recursive specification function, `Tabulate`, with
  lemmas about that function's key order and values. `Tabulate` takes the
  per-block scoring and the per-block id as function parameters, so its
  lemmas hold for any scoring. `Build` is its instance for one sheet.
- `Report` (`report.dfy`): `process_file` without the writing, the output
  file name (line 74), and `main`'s loop (lines 220-226).

Counts are unbounded integers. The ratios are exact `real`s.

Two details of the code are easy to misread. The model follows the code in
both:

- Counts 40/40/20 give two ratios of 0.4 and a score of exactly 0.8. The test
  at line 59 is `tres_satisfait >= satisfait`, so the tie is **blue**, not
  green. The legend at line 140 agrees ("autant ou plus"). See
  `Scores.WorkedCases`.
- The output name drops exactly four characters (line 74). See "Findings".

## Model

| member | source | states |
|---|---|---|
| `Sheets.LabelStartsWith` | main.py:22-23 | the mask followed by `fillna(False)`: a cell matches only when it is text starting with the prefix; the selection built on it is stated by `Locator.RowsStartingWith` |
| `Locator.RowsStartingWith` | main.py:22-23 | a row index is selected exactly when that row exists and its column-0 cell is text starting with the prefix (non-text cells never match); the selection is in ascending row order |
| `Locator.MaxBelow` | main.py:24 | `max` of the entries below `i`: missing exactly when no entry is below `i`, otherwise an entry below `i` that is at least every other entry below `i` |
| `Locator.NearestHeaders` | main.py:24 | one header per marker, in marker order, each the `max` of the headers above that marker; fails exactly when some marker has none, naming the first such marker |
| `Locator.Survivors` | main.py:25 | keeps exactly the headers not in the excluded list, and keeps ascending order |
| `Locator.Locate` | main.py:22-25 | on success the result is in ascending row order and every entry is a question-header row |
| `Locator.MaxBelowIsNearest` | main.py:22-24 | the `max` over the header rows below a row is exactly the nearest header strictly above it, and is missing exactly when no header lies above |
| `Locator.LocateOkIff` | main.py:23-24 | the locator succeeds exactly when no free-text marker lacks a header above it |
| `Locator.LocateReportsFirstOrphan` | main.py:24 | a failure names a marker with no header above it, and no earlier marker has this defect |
| `Locator.ExcludedAreFreeText` | main.py:24 | the excluded headers are exactly the headers that are the nearest header above some marker |
| `Locator.LocateKeepsClosedQuestions` | main.py:22-25 | on success a row survives exactly when it is a question header and is not the nearest header above any marker |
| `Classifier.Classify` | main.py:59-68 | the first-match colour chain; its bands, monotonicity and inclusive bounds are stated by `Classifier.TierBands`, `Classifier.ClassifyMonotone` and `Classifier.ClassifyBoundaries` |
| `Classifier.TierBands` | main.py:59-68 | each colour's band stated independently of rule order: blue iff score >= 0.8 and very >= satisfied, green iff score >= 0.8 and very < satisfied, yellow iff 0.7 <= score < 0.8, amber iff 0.5 <= score < 0.7, red iff score < 0.5 |
| `Classifier.HexInjective` | main.py:60-68 | the five colour codes are pairwise distinct |
| `Classifier.ClassifyMonotone` | main.py:59-68 | a higher score never yields a worse tier, whatever the two ratios are |
| `Classifier.ClassifyBoundaries` | main.py:59-68 | lower bounds are inclusive: score 0.7 is yellow, 0.5 is amber, and 0.8 is green or blue depending on the ratio comparison |
| `Scores.LastToken` | main.py:37 | `split(' ')[-1]` of the header; characterised by `Scores.LastTokenSpec` |
| `Scores.LastTokenSpec` | main.py:37 | the question id is a space-free suffix of the header, equal to the whole header or preceded by a space: what `split(' ')[-1]` returns |
| `Scores.LastTokenExample` | main.py:37 | `Résumé pour Q12` gives the id `Q12` |
| `Scores.ReadBlock` | main.py:37-45 | succeeds exactly when rows +3 to +6 exist and hold numbers; the id comes from the header, the text from row +1, very-satisfied from row +3, satisfied from row +4, other from rows +5 and +6 added; otherwise it fails, with a truncated block or the first non-numeric count row |
| `Scores.Ratios` | main.py:47-56 | fails exactly when the total is zero; otherwise each ratio times the total is its count, the score is the sum of the two ratios, and the tier is the classifier's |
| `Scores.ScoreBlock` | main.py:37-56 | a block that cannot be read fails with the reading error; otherwise it fails exactly when the four count cells sum to zero, and else gives the text of row +1 and, as ratios to that sum, the counts of rows +3 and +4 |
| `Scores.RatioInUnit` | main.py:47-52 | a share of a positive whole lies in [0, 1] |
| `Scores.RatiosBounded` | main.py:47-55 | with non-negative counts and a positive total, both ratios and the score lie in [0, 1], and the score times the total is the very-satisfied plus satisfied count |
| `Scores.WorkedCases` | main.py:47-68 | 40/40/20 gives 0.4, 0.4, 0.8 and blue; 50/30/20 gives blue; 30/50/20 green; 35/35/30 yellow; 10/10/80 red; 0/0/0 fails |
| `Synthesis.Put` | main.py:39 | assigning into the insertion-ordered table keeps every id listed once and the listed ids equal to the keys |
| `Synthesis.Tabulate` | main.py:35-69 | the loop as a recursive function over the blocks, generic in how a block is scored and named; its properties are stated by the `Synthesis.Tabulate…` lemmas below |
| `Synthesis.Build` | main.py:35-69 | `Tabulate` with the sheet's own scoring (`Scores.ScoreBlock`) and ids (`Scores.QuestionId`); `Synthesis.ComputeScores` is proved to return it |
| `Synthesis.TabulateOk` | main.py:35-69 | the run succeeds exactly when every block can be scored |
| `Synthesis.TabulateFirstError` | main.py:35-56 | a failed run reports the error of the first block that cannot be scored, every earlier block having succeeded |
| `Synthesis.TabulateValid` | main.py:39-69 | the table of a successful run lists every id once, and the listed ids are exactly the ids that have a line |
| `Synthesis.TabulateOrder` | main.py:69 | the table lists exactly the ids of the blocks, each once, ordered by the first occurrence of each id among the blocks |
| `Synthesis.TabulateLatest` | main.py:39-69 | the line kept for an id is the one computed from the last block with that id: a repeated id overwrites the earlier values |
| `Synthesis.TabulateFailsAt` | main.py:35-56 | if the blocks before `i` all succeed and block `i` fails, the whole run fails with block `i`'s error |
| `Synthesis.TabulateStep` | main.py:37-69 | one more successfully scored block extends the table by one insertion-ordered assignment |
| `Synthesis.ComputeScores` | main.py:35-69 | the loop returns exactly the specification table, or the first error |
| `Report.OutputNameAsWritten` | main.py:74 | the output name is the prefix, then the file name minus its last four characters (nothing for a shorter name), then `.xlsx` |
| `Report.AsWrittenDoublesDot` | main.py:74 | under the rule as written, `Evaluation.xlsx` becomes `[PROCESSED] Evaluation..xlsx` |
| `Report.Extension` | main.py:74 | the extension of the corrected rule, never longer than the name; characterised by `Report.ExtensionSpec` |
| `Report.ExtensionSpec` | main.py:74 | the extension is a suffix of the name; when present it starts with a dot and contains no other dot; when absent, no dot appears after the first character |
| `Report.OutputName` | main.py:74 | the corrected output name, prefix + stem + `.xlsx`; stated by `Report.OutputNameReplacesExtension` and `Report.AgreeOnThreeLetterExtensions` |
| `Report.OutputNameReplacesExtension` | main.py:74 | a name made of a non-empty stem and one extension gives prefix + stem + `.xlsx` |
| `Report.AgreeOnThreeLetterExtensions` | main.py:74 | for a three-letter extension such as `.xls`, the rule as written and the corrected rule give the same name |
| `Report.Summarize` | main.py:16-210 | locate, then score, then check the participation rows, then name the output with the corrected rule; stated by `Report.SummarizeOkIff` and `Report.SummaryListsClosedQuestions` |
| `Report.SummarizeOkIff` | main.py:16-210 | a file is summarised exactly when locating and scoring succeed and the sheet has a row 2 for the participation reads of lines 200 and 210; otherwise the first failing stage gives the error |
| `Report.ShortSheetFails` | main.py:200-210 | a two-row sheet without questions fails with the missing participation row instead of being summarised |
| `Report.ProcessFile` | main.py:16-74 | locate, then score, then name the output: it returns exactly `Report.Summarize`, the summary or the first error |
| `Report.TableListsBlockIds` | main.py:37-69 | a successful table lists an id exactly when some block has that id |
| `Report.SummaryListsClosedQuestions` | main.py:22-69 | a successful summary lists exactly the ids of the question headers that do not open a free-text question |
| `Report.Kept` | main.py:221-222 | the listing without `.gitignore`, in listing order by its definition; `Report.KeptSpec` states which entries are kept |
| `Report.KeptSpec` | main.py:221-222 | every directory entry except `.gitignore` is processed |
| `Report.RunAll` | main.py:216-226 | the folder loop over any per-file processing: it finishes with every kept entry's result, or stops at a failing entry with the results already written; stated by the `Report.RunAll…` lemmas |
| `Report.RunAllOk` | main.py:221-226 | a folder run finishes exactly when every kept entry's processing succeeds, and then gives their results one for one, in listing order |
| `Report.RunAllFirstError` | main.py:216-226 | a stopped folder run reports the error of the first kept entry that fails, and the outputs already written are exactly the results of the kept entries before it |
| `Report.RunAllFailsAt` | main.py:221-226 | once an entry fails, the whole run ends as it stood then: no later entry is processed |
| `Report.SummarizeAll` | main.py:220-226 | `main`: `Report.RunAll` with `Report.Summarize` as the per-file processing |
| `Report.ProcessFolder` | main.py:216-226 | the loop over the listing returns exactly `Report.SummarizeAll`, including the outputs written before a failure |

## Left out

- Reading the spreadsheet (line 18) is left out. The input is an abstract
  sequence of rows with the first two columns. pandas' default integer index
  is assumed, so row labels and row positions coincide.
- All xlsxwriter output is left out (lines 73-216): formats, the column
  titles, the per-question cell writes, the legend texts, the participation
  block and the copy of the grid to the detail sheet. This is library I/O at
  fixed coordinates. Only the failure of the participation reads (cells (0,1)
  and (2,1), lines 200 and 210) on a sheet without a row 2 is modelled, as
  `MissingParticipation`; the values read are not.
- The directory in the output path (`os.path.join(os.path.dirname(...))`),
  the directory listing itself, the two `print`s and the sacred
  configuration are left out. The prefix is a parameter and the listing is a
  sequence of (name, sheet) pairs.
- IEEE-754 rounding is left out. The ratios are exact reals, so any case
  where floating point lands on the other side of a threshold is not
  modelled.
- `Scores.Ratios`: a zero total is an error here. Under pandas the outcome
  depends on the column's dtype. A float or integer (int64) column divides 0/0
  to NaN with a warning, and NaN then falls through every comparison to red.
  An object column raises `ZeroDivisionError`.
- `Scores.ReadBlock`: a count cell that is not a number is an error here.
  pandas would propagate NaN from an empty cell, concatenate two text cells,
  or raise `TypeError` for text plus number. Count coercion is not modelled.
- A column 0 with no text at all, where pandas' `.str` accessor itself would
  fail, is not modelled.
- `Report.ProcessFolder` keeps the fail-fast behaviour of `main`: one bad file
  stops the run. The summaries of the files before it are returned as already
  written. The failing file itself writes nothing, because every error the
  model knows arises before its output is saved at line 216.
- `Report.Summarize` names the output with the corrected rule
  (`Report.OutputName`), not with line 74 as written. The two differ whenever
  the input's extension is not three letters long, for example `.xlsx` or no
  extension at all. Line 74 itself is `Report.OutputNameAsWritten`.
- `Report.ProcessFile` inherits the corrected output name of `Report.Summarize`.

## Findings

| source | as written | input that shows it | evidently intended | confidence | as-written member | corrected member |
|---|---|---|---|---|---|---|
| main.py:74 | `os.path.basename(output_name)[:-4]` removes four characters whatever the extension is | an input named `Evaluation.xlsx` gives `[PROCESSED] Evaluation..xlsx` | the name without its extension, then `.xlsx`; for `.xls` inputs both agree (`Report.AgreeOnThreeLetterExtensions`) | medium (harmless if the exports are always `.xls`), not executed | `Report.AsWrittenDoublesDot` | `Report.OutputNameReplacesExtension` |

`Report.Summarize` names the output through `Report.OutputName`, the
corrected rule. `Report.OutputNameAsWritten` keeps line 74 as written.
