# Survey cleaning pipeline: a verified model

This project models the cleaning section of `stuff.py`, a batch script that
takes a survey export on student study habits and stress and produces the tables
for analysis. It covers:

- the two cell normalisers:
  - `normalize_pathway` classifies the "JC or Poly?" answer;
  - `parse_num` reads the first number out of a free-text answer. It rejects
    numeric ranges such as "6-7".
- the record builder. The working dataframe is copied from the raw export and
  then gains these columns one at a time: 1-based respondent ids, pathway,
  daily hours, weekly hours (7 × daily), stress level, stress reason, and the
  "very high daily" flag (daily > 8).
- the report-ready table whose seven columns are selected from it.
- the analysis filter (JC or Poly pathway, and a daily figure present).
- the Poly, JC and two-sample views cut from the analysis set.

Modules, one file each:

- `Wrappers` (`wrappers.dfy`): `Option` for missing cells (NaN) and `Result`
  for fatal errors.
- `Text` (`text.dfy`): Python's `strip`, `lower` and substring test. It also
  holds the digit and whitespace classes the regular expressions use.
- `Normalize` (`normalize.dfy`): `NormalizePathway` and `ParseNum`. The two
  regular expressions are written as explicit scans over characters. Each scan
  is proved against a declarative statement of what the regex matches:
  `RangeAt`/`HasRangePattern` for the range guard, and `NumberToken` for the
  leftmost `digits[.digits]` token.
- `Records` (`records.dfy`): the pure specification of the pipeline. It holds
  the row record `CleanRow`, the row builder `CleanRowOf`, the whole table
  `CleanTable`, mask filtering `Filter`, the views `ViewsOf`, and `Pipeline`.
- `Pipeline` (`pipeline.dfy`): the script as it runs. `SurveyFrame` is a class
  for the working dataframe, with one method per column the script adds.
  `BuildClean` adds the columns in the script's order and is proved equal to
  `Records.CleanTable`. `Run` then cuts the filtered copies and is proved equal
  to `Records.Pipeline`.

What stuff.py does where a reader might expect otherwise:

- stuff.py has no rule for "junior". "Junior College" is missing
  (`PathwayExampleJunior`). "Polytechnic" is Poly only because it contains
  "poly".
- stuff.py flags daily figures above 8 and drops no row for an extreme value.
  It has no `[0, 12]` outlier flag and no missing-value flags
  (`VeryHighDailyKept`).
- stuff.py reads four fixed header literals (stuff.py:51-54) and tries no
  alternative headers. A header missing from the export is the `KeyError`
  pandas raises when the column is read. It is modelled as
  `Failure(MissingColumn(h))` for the first missing header, in the order the
  script reads them: pathway, daily hours, stress, reason.
- stuff.py computes no exam-hours column.
- A text that mentions both words is JC, because "jc" is tested first.
- A leading minus is ignored: "-3" reads as 3 (`ParseNumExampleMinus`).

## Model

| member | source | states |
|---|---|---|
| Text.IsDigit | stuff.py:42-44 | the digit class of the two regular expressions, the ASCII digits 0-9 |
| Text.IsSpace | stuff.py:29-42 | the whitespace set of str.isspace, which str.strip() and the regex whitespace class both use |
| Text.StripStart | stuff.py:29 | the start index has only whitespace before it and is the end of the text or a non-whitespace character |
| Text.StripEnd | stuff.py:29 | the end index is not before the start, has only whitespace after it, and follows a non-whitespace character unless the result is empty |
| Text.Strip | stuff.py:29 | the result is a slice s[i..j] with only whitespace outside it, and it neither starts nor ends with whitespace |
| Text.Lower | stuff.py:29 | same length as the input, each letter lower-cased in place |
| Text.Contains | stuff.py:30-32 | true exactly when t occurs at some position of s |
| Text.ContainsLowerStrip | stuff.py:29-32 | for a word without whitespace, stripping before lower-casing never changes whether the word occurs |
| Normalize.NormalizePathway | stuff.py:26-28 | a missing cell gives a missing pathway |
| Normalize.PathwayIsJC | stuff.py:29-31 | JC exactly when "jc" occurs in the lower-cased text, including when "poly" occurs too |
| Normalize.PathwayIsPoly | stuff.py:29-33 | Poly exactly when "poly" occurs in the lower-cased text and "jc" does not |
| Normalize.PathwayIsMissing | stuff.py:26-34 | missing exactly when the cell is missing or neither word occurs |
| Normalize.PathwayIgnoresCase | stuff.py:29 | answers equal up to letter case get the same pathway |
| Normalize.PathwayExampleJC | stuff.py:29-31 | "JC" and "jC" are JC |
| Normalize.PathwayExampleBoth | stuff.py:29-31 | " Poly / JC " is JC, because "jc" is tested before "poly" |
| Normalize.PathwayExamplePoly | stuff.py:32-33 | "I'm from POLY" is Poly |
| Normalize.PathwayExampleJunior | stuff.py:29-34 | "Junior College" is missing: there is no "junior" rule |
| Normalize.HasRange | stuff.py:41-43 | true exactly when a digit, optional whitespace, a hyphen, optional whitespace and a digit occur somewhere in the text |
| Normalize.ExtractNumber | stuff.py:44-45 | no value exactly when the text has no digit; any value is non-negative |
| Normalize.ExtractNumberToken | stuff.py:44-45 | the value is that of the leftmost maximal digit run, plus the fraction when a dot and a digit follow it |
| Normalize.ExtractNumberHasToken | stuff.py:44-45 | every value found is the value of such a leftmost token |
| Normalize.DecimalValue | stuff.py:45 | the exact value of a decimal numeral is non-negative |
| Normalize.ParseNum | stuff.py:36-45 | missing input gives missing; any value returned is non-negative |
| Normalize.ParseNumIgnoresStrip | stuff.py:40-45 | the result depends on the unstripped text alone: reject a range, else read the leftmost token |
| Normalize.ParseNumRejectsRange | stuff.py:41-43 | a range anywhere in the text makes the result missing |
| Normalize.ParseNumIsMissing | stuff.py:38-45 | missing exactly when the cell is missing, the text holds a range, or it has no digit |
| Normalize.ParseNumIsLeftmostToken | stuff.py:42-45 | a value returned comes from text without a range and is the value of its leftmost number token |
| Normalize.ParseNumEmbedded | stuff.py:44-45 | a numeral surrounded only by digit-free text is read exactly, whole and fraction |
| Normalize.ParseNumOfDecimalString | stuff.py:44-45 | reading a rendered natural number gives the number back |
| Normalize.ParseNumExamplesRange | stuff.py:41-43 | "6-7" and "2.5 - 3" are rejected |
| Normalize.ParseNumTrailingWords | stuff.py:44-45 | a digit run followed by text without digits reads as the value of the digits |
| Normalize.ParseNumExampleHours | stuff.py:44-45 | "3 hours" reads as 3 |
| Normalize.DecimalValueExample | stuff.py:45 | the numeral with whole part "2" and fraction "5" has the value 2.5 |
| Normalize.ParseNumExampleDecimal | stuff.py:44-45 | "2.5" reads as 2.5 |
| Normalize.ParseNumExampleMinus | stuff.py:44-45 | "-3" reads as 3, since no sign is captured |
| Normalize.ParseNumExampleEmpty | stuff.py:38-45 | the empty text gives no value |
| Records.CleanRowOf | stuff.py:56-63 | the row carries its id; weekly hours are 7 × daily and missing together with them (line 58); the flag is set exactly for a daily figure above 8 (line 63); no figure is negative (`Derived`) |
| Records.FirstMissing | stuff.py:51-60 | names a header the export lacks, and one only when every header the script reads before it is present (pathway, daily, stress, reason); none exactly when all four are present |
| Records.CleanTable | stuff.py:47-74 | fails exactly when a header is missing, naming the first one; otherwise one row per raw row with ids 1..n in order, each row derived as in CleanRowOf |
| Records.Usable | stuff.py:77-80 | the analysis mask: pathway JC or Poly and a daily figure present (its meaning in the views is `AnalysisIsUsableRows`) |
| Records.IsPoly | stuff.py:82 | the Poly group mask: the pathway is Poly |
| Records.IsJC | stuff.py:83 | the JC group mask: the pathway is JC |
| Records.InEitherGroup | stuff.py:84 | the two-sample mask: the pathway is JC or Poly |
| Records.Filter | stuff.py:77-84 | a row is kept exactly when it is in the table and the mask holds for it |
| Records.FilterIsSubsequence | stuff.py:77-84 | the kept rows appear in the order of the table |
| Records.FilterKeepsAll | stuff.py:84 | a mask true for every row keeps the table unchanged |
| Records.FilterSplitsCount | stuff.py:82-83 | two masks that disagree on every row keep as many rows between them as the table has |
| Records.FilterKeepsIdOrder | stuff.py:77-84 | filtering keeps respondent ids increasing |
| Records.ViewsOf | stuff.py:77-84 | the analysis set cut from the table with Usable, and the Poly, JC and two-sample views cut from it with their masks (properties in `GroupsSplitAnalysis`) |
| Records.Pipeline | stuff.py:47-84 | fails exactly when one of the four headers is missing, with the first missing one; the views otherwise (`PipelineViews`) |
| Records.AnalysisIsUsableRows | stuff.py:76-80 | for any table, the analysis set is exactly the rows with pathway JC or Poly and daily hours present, in table order, with ids increasing when they increase in the table |
| Records.GroupsSplitAnalysis | stuff.py:82-84 | for any table, the Poly view holds exactly the Poly rows and the JC view exactly the JC rows of the analysis set, both in its order; they are disjoint, cover it and their sizes add up to its size; ids stay increasing when they increase in the table; the two-sample view equals the analysis set |
| Records.NumberedRowsIncrease | stuff.py:48 | ids 1..n by position increase down the table |
| Records.PipelineViews | stuff.py:47-84 | a successful run has ids 1..n, the exact analysis set in order, a Poly view of exactly its Poly rows and a JC view of exactly its JC rows, both in analysis order, disjoint and covering it, and a two-sample view equal to it |
| Records.VeryHighDailyKept | stuff.py:62-80 | a flagged row with pathway JC or Poly stays in the analysis set |
| Pipeline.SurveyFrame.constructor | stuff.py:47 | the frame holds the raw columns and no derived column |
| Pipeline.SurveyFrame.AddRespondentId | stuff.py:48 | the id column is 1..n |
| Pipeline.SurveyFrame.AddPathway | stuff.py:56 | succeeds exactly when the pathway header exists, and then holds the normalised pathway of every row; otherwise nothing changes |
| Pipeline.SurveyFrame.AddDailyNormal | stuff.py:57 | succeeds exactly when the daily header exists, and then holds ParseNum of every answer |
| Pipeline.SurveyFrame.AddWeeklyNormal | stuff.py:58 | each weekly figure is Weekly of the daily figure of its row |
| Pipeline.SurveyFrame.AddStressLevel | stuff.py:59 | succeeds exactly when the stress header exists, and then holds ParseNum of every answer |
| Pipeline.SurveyFrame.AddStressReason | stuff.py:60 | succeeds exactly when the reason header exists, and then holds every answer as text |
| Pipeline.SurveyFrame.AddFlagVeryHighDaily | stuff.py:63 | each flag is VeryHigh of the daily figure of its row |
| Pipeline.SurveyFrame.Clean | stuff.py:66-74 | one row per frame row, made of that row's seven report columns |
| Pipeline.BuiltIsCleanTable | stuff.py:47-74 | a frame with every derived column built from the raw columns holds exactly CleanTable of the raw table |
| Pipeline.BuildClean | stuff.py:47-74 | adding the columns in the script's order, stopping at the first missing header, gives exactly CleanTable of the raw table |
| Pipeline.Run | stuff.py:47-84 | equals Records.Pipeline: fails exactly when one of the four headers is missing; otherwise ids 1..n, the exact analysis set, Poly and JC views of exactly its Poly and JC rows that are disjoint and cover it, and a two-sample view equal to the analysis set |

## Left out

- Loading the export: finding the input file, the missing-file error and
  reading the CSV (stuff.py:12-21). These are filesystem I/O. The model starts
  from the table as read: a row count and a map from header to its column of
  cells. Every column has one cell per row (`Rectangular`).
- Writing the three CSV files and the console messages (stuff.py:86-103). These
  are output only; the written tables are the views the model computes.
- The charts (stuff.py:105-145). These are presentation only.
- The one-sample and Welch t-tests (stuff.py:147-171). They use floating-point
  means, standard deviations, square roots and the Student-t distribution
  function from scipy, which is foreign code.
- main.py, which only prints the head, a summary and the missing-value counts
  of the raw file.
- Normalize.DecimalValue: this is the exact decimal value. It does not model
  the IEEE rounding of `float()`.
- Records.CleanRowOf: the weekly figure (7 × daily) and the very-high flag
  (daily > 8) are computed on exact reals, not on IEEE doubles. So the model
  flags "8.00000000000000001" as very high, while `float()` reads that text as
  8.0 and the script's `> 8` is false. Likewise the model's 7 × 0.1 is exactly
  0.7, while the script's product is 0.7000000000000001. The same holds for
  `Pipeline.SurveyFrame.AddWeeklyNormal` and
  `Pipeline.SurveyFrame.AddFlagVeryHighDaily`.
- Cell typing: a cell is an optional string. pandas' detection of missing
  values, and the `str()` of cells that pandas read as numbers, are not
  modelled.
- Normalize.NumberToken, Text.IsDigit: ASCII digits only. Python's regex digit
  class also matches other Unicode decimal digits.
- Text.Lower: maps ASCII letters only. Python's `lower()` also maps other
  letters, but no non-ASCII letter lowers to an ASCII letter of "jc" or "poly".
  So the two substring tests come out the same.
- Text.IsSpace: the whitespace set of Python's `str.isspace`. The regex
  whitespace class is taken to be the same set.
- The index labels pandas carries into the filtered copies are not modelled.
  Rows are identified by their respondent id, and the files are written
  without the index.
