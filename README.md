# Average temperature of an image patch, modelled in Dafny

The program reads a colour table (one row per colour: name, Fahrenheit and
Celsius temperatures, a description, a reflectivity in dBZ, a precipitation
description and a colour key) and a flat sequence of pixel values. For each
pixel it looks the value up in the table, taking the first row whose key equals
it. It sums the Fahrenheit and Celsius temperatures of the matched rows and
counts the matches. It stops once `num_pixels` pixels have matched, or when the
pixels run out. It then prints the two averages.

This project models, in `Series.cpp`:

- the `ColorInfo` record (`ColorTable.ColorInfo`);
- the row loop of `parseCSV`: the header line is dropped, and each later line
  is split into words and read field by field with `>>`. A line that reads
  becomes a record; a line that does not is reported and skipped
  (`ColorTable.ParseCsv`, specified by `ColorTable.LoadTable`);
- the matching and summing loop of `calculateAverageTemperature`
  (`Aggregation.MatchAndSum`). It is a nested loop: the inner search over the
  table (`Aggregation.Lookup`) stops at the first matching row, and the outer
  loop stops once the count reaches `num_pixels`. Its result is specified by
  `Aggregation.ScanTotals`, the accumulators (`Aggregation.TotalsUpTo`) after
  the pixels the scan reads (`Aggregation.ScanLength`);
- the two averages (`Aggregation.MeanOf`).

Files:

- `wrappers.dfy`: `Option`.
- `lexing.dfy`: how the text of a line is split into words, and how a word is
  read as a decimal integer.
- `color_table.dfy`: the record, line parsing, and the loader loop.
- `aggregation.dfy`: lookup, the scan, the averages, and their properties.

Modelling choices:

- The key `hex_code` is an `int`. In the source it is a `std::string` compared
  with an `int` pixel value (`Series.cpp:80`), so the source gives no usable
  key type. The key is an opaque value compared for equality. The loader reads
  its word as a decimal integer.
- The accumulators are unbounded integers.
- `Aggregation.MeanOf` is partial: with no match there is no mean (`None`).
  The source divides by a zero count here (`Series.cpp:93-94`).
- The inner loop over the table is its own method, `Aggregation.Lookup`,
  which returns the index of the matching row. The outer loop then adds that
  row's temperatures and one to the count, as the source does inside the inner
  loop before its `break`. The resulting sums and count are the same.
- The diagnostics that `parseCSV` writes to the error stream are returned as a
  list of the rejected lines.

Three behaviours of the code worth noting:

- A limit of zero or less does not give "no matches". The test
  `count >= num_pixels` comes after the lookup, so the first pixel is always
  looked up and counted when it matches (`Aggregation.NonPositiveLimitReadsOnePixel`,
  `Aggregation.NonPositiveLimitTotals`).
- A row does not need exactly seven fields. The seven extractions never look
  past the seventh word, so extra words are ignored
  (`ColorTable.ParseFormatLineThen`).
- Fields are separated by white space, not commas, because `>>` splits on white
  space. A comma-separated line is one word and fails to read.

## Model

| member | source | states |
|---|---|---|
| `Lexing.WordLength` | Series.cpp:35-36 | the length of the longest prefix without white space: everything before it is non-blank, and the character at it is blank |
| `Lexing.Tokens` | Series.cpp:35-36 | a line splits into words that are each non-empty and free of white space |
| `Lexing.TokensSplit` | Series.cpp:35-36 | a blank character separates words: the words of text around a blank are the words before it followed by the words after it |
| `Lexing.TokensOfWordThen` | Series.cpp:35-36 | a word followed by a blank reads as that word, then the words of the rest |
| `Lexing.TokensOfWord` | Series.cpp:35-36 | a single word reads as exactly itself |
| `Lexing.ParseInteger` | Series.cpp:35-36 | a word reads as an integer exactly when it is digits with an optional leading sign; the sign decides the sign of the value |
| `Lexing.ParseShowInt` | Series.cpp:35-36 | writing any integer in decimal and reading it back gives the same integer |
| `ColorTable.ParseInt32` | Series.cpp:35-36 | extraction into `int` succeeds exactly for decimal words whose value fits in 32 bits, and gives that value |
| `ColorTable.ParseFields` | Series.cpp:34-36 | a line reads exactly when it has at least seven words and words 2, 3, 5 and 7 read as integers; each field of the record comes from its own word |
| `ColorTable.ParseLine` | Series.cpp:33-36 | a line that reads gives a record whose string fields are single words and whose integer fields fit in 32 bits |
| `ColorTable.ParseFormatLine` | Series.cpp:33-36 | a record with single-word string fields and 32-bit integers, written as a line, reads back as the same record |
| `ColorTable.ParseFormatLineThen` | Series.cpp:33-36 | words after the seventh are ignored: a written record followed by any text still reads as that record |
| `ColorTable.Accepted` | Series.cpp:32-41 | the kept records are no more than the lines |
| `ColorTable.Rejected` | Series.cpp:35-38 | every line is either kept or reported, never both |
| `ColorTable.AcceptedSnoc` | Series.cpp:32-41 | one more line adds its record at the end when it reads, and otherwise adds itself to the reported lines |
| `ColorTable.AcceptedFromLines` | Series.cpp:32-41 | each kept record is what some line reads as, and each reported line is a line of the input that does not read |
| `ColorTable.AcceptedSingle` | Series.cpp:35-40 | a line that reads adds its record, and a line that does not adds one diagnostic and no record |
| `ColorTable.AcceptedConcat` | Series.cpp:32-41 | lines are read independently and in order: the records and diagnostics of two stretches of lines are those of the first followed by those of the second |
| `ColorTable.AcceptReadable` | Series.cpp:32-41 | lines that each read as the record at the same position are all kept, in order, and none is reported |
| `ColorTable.AcceptFormatLines` | Series.cpp:32-41 | written records read back as exactly those records, in order, with no diagnostic |
| `ColorTable.LoadFormattedTable` | Series.cpp:28-41 | whatever the header line holds, loading a header plus written records gives exactly those records |
| `ColorTable.ParseCsv` | Series.cpp:28-41 | the loop drops the first line, keeps the records of the lines that read in order, and reports each line that does not read without stopping |
| `Aggregation.FirstMatch` | Series.cpp:79-85 | the lookup gives the lowest row index whose key equals the pixel value, or nothing when no key equals it |
| `Aggregation.Lookup` | Series.cpp:79-86 | the search over the table ends with the index of the first row whose key equals the pixel value, or with none |
| `Aggregation.LaterDuplicateUnused` | Series.cpp:79-85 | when two rows share a key, the lookup of that key never gives the later one |
| `Aggregation.TotalsUpTo` | Series.cpp:77-86 | after `k` pixels the count is at most `k` |
| `Aggregation.TotalsUpToContributions` | Series.cpp:74-86 | the accumulators after `k` pixels are the sums of the temperatures, and the number, of the first matching rows of the matched pixels among them |
| `Aggregation.Contributions` | Series.cpp:77-86 | a stretch of pixels uses at most one row per pixel |
| `Aggregation.ContributionsFromTable` | Series.cpp:79-85 | every row used is a row of the table |
| `Aggregation.ScanLength` | Series.cpp:77-90 | the scan reads at least one pixel when there is one, stops right after the first pixel that brings the count to the limit, and otherwise reads to the end |
| `Aggregation.ScanStopsAt` | Series.cpp:87-89 | the loop can stop at only one point, the scan length |
| `Aggregation.MatchAndSum` | Series.cpp:74-90 | the sums and the count equal the totals over the first matching rows of the matched pixels among those the scan reads |
| `Aggregation.MeanOf` | Series.cpp:93-94 | there is a mean exactly when the count is positive, and then each mean times the count is the corresponding sum |
| `Aggregation.CalculateAverageTemperature` | Series.cpp:69-98 | the totals are those of the scan and the means are the averages of those totals |
| `Aggregation.UnmatchedPixelKeepsTotals` | Series.cpp:79-86 | a pixel that equals no key leaves both sums and the count unchanged |
| `Aggregation.MatchedPixelAddsFirstRow` | Series.cpp:79-85 | a matched pixel adds the temperatures of its first matching row and one to the count |
| `Aggregation.TotalsOfAppend` | Series.cpp:81-83 | the accumulators over two lists of rows are the added accumulators of each |
| `Aggregation.ContributionsConcat` | Series.cpp:77-86 | the rows used for two consecutive stretches of pixels are those of the first followed by those of the second |
| `Aggregation.TotalsOfConcat` | Series.cpp:74-86 | the totals over two consecutive stretches of pixels are the added totals of each |
| `Aggregation.CountBounds` | Series.cpp:77-90 | the count never exceeds the number of pixels; with a positive limit it never exceeds the limit, and the scan ends before the last pixel only with the count exactly at the limit |
| `Aggregation.NonPositiveLimitReadsOnePixel` | Series.cpp:87-89 | with a limit of zero or less at most one pixel is read and at most one is counted |
| `Aggregation.NonPositiveLimitTotals` | Series.cpp:77-89 | with a limit of zero or less the totals are those of the first pixel alone: its first matching row's temperatures counted once, or zero when it matches nothing |
| `Aggregation.NoMatchNoMean` | Series.cpp:79-94 | when no pixel equals any key the count is zero and there is no mean |
| `Aggregation.UniformMean` | Series.cpp:93 | accumulators whose Fahrenheit sum is a fixed temperature per match average to exactly that temperature |
| `Aggregation.UniformFahrenheitMean` | Series.cpp:81-93 | when every row has the same Fahrenheit temperature, the Fahrenheit sum is that temperature times the count, and the mean, when there is one, is that temperature |
| `Aggregation.TwoRowExample` | Series.cpp:74-94 | for two rows (key 1 at 32 F and 0 C, key 2 at 50 F and 10 C) and pixels 1, 1, 2, 99, 2 with limit 10, four pixels match and the averages are 41 F and 5 C |

## Left out

- Opening and closing the table file, and the empty table returned when it cannot be opened (`Series.cpp:22-26`, `43`): the model starts from the file's lines.
- `readTensorFile` (`Series.cpp:48-66`): loading the tensor, the element-type check, and the copy into the pixel vector are library calls. The pixel values are a given sequence of integers. The copy passes the element count as a byte count into a vector of `int`, so the real pixel vector does not hold one byte value per element. That function is not part of this model.
- `Lexing.ParseInteger`: reads a whole word or nothing. A `>>` into `int` can also stop partway through a word (`12abc`) and leave the rest for the next field; the model rejects such a word.
- `ColorTable.ParseFields`: reads the key word as a decimal integer, because the model's key is an integer; the source stores any word there as a string. A line whose key is written as a colour code (`#FF0000`, `FF0000`) is rejected by the model but kept by the source.
- The 32-bit `int` accumulators (`Series.cpp:74-76`) can overflow in the source; the model's sums are unbounded.
- `Aggregation.MeanOf`: uses exact real division, where the source uses `double` division; with no match it gives no mean, where the source divides by zero.
- Printing the averages (`Series.cpp:96-97`), the timing and `main` (`Series.cpp:100-118`).
