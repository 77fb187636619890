# owner-git-blame, the counting core

`java-git-blame/Program.cs` runs `git blame --line-porcelain -w` on every file of
a repository and counts, per author, the lines each file attributes to them. It
prints a table per file and then a table of totals in which every author has a
colour block. Last, it draws an ASCII pie chart of the totals in the console.
This project models what is left of that program once the subprocess, the file
system and the console are taken away:

- `tally.dfy` (module `Tally`): the `Dictionary<string, int>` tallies. A
  dictionary is modelled as the sequence of its entries in insertion order,
  which is the order a .NET dictionary enumerates when no key is ever removed.
  The module also holds the `ContainsKey`/`+=` update and the merge of one
  file's sorted list into the totals.
- `blame.dfy` (module `Blame`): the loop that reads blame output, counts the
  `author ` lines and credits the text after the 7-character prefix.
- `sorting.dfy` (module `Sorting`): the descending-by-count `List.Sort` of a
  file's list and of the total list.
- `proportion.dfy` (module `Proportion`): the fractions `1.0 * count / total`,
  and their sum.
- `pie.dfy` (module `Pie`): the slice selection `S` and the raster of
  `DrawASCIIPie`, with the console colours and the reversed palette.
- `report.dfy` (module `Report`): the file loop of `Main`, the abort on a fatal
  blame error, the totals, the legend and the fractions passed to the pie.

Fractions are `real`, an idealisation of `double`. A cell's angle
(`atan2(y, x) / 2π + 0.45`) is a parameter of the raster. The output of each
blame run (its standard output as lines, its standard error as a string) is an
input.

Four behaviours of the code shape the model:

- The percentage loops only run over the entries of a non-empty tally. Every
  entry has at least one line, so the divisor is positive whenever a division
  happens (`ParseBlame`, `ConsistentDivisor`). `Shares` makes this a
  precondition.
- `colorPalette[i]` is indexed directly, without wrapping, so more than 16
  authors raise an out-of-range exception. The model states this as the
  precondition `|ranked| <= |palette|`.
- `List.Sort` is not stable. The model sorts by insertion and claims only what
  any order `List.Sort` may produce: the result is a permutation of the
  entries, with counts that never increase.
- On a fatal blame error the code has already printed that file's table and
  merged the file into the totals before it returns. The model reports the
  failing file as well.

## Model

| member | source | states |
|---|---|---|
| Tally.AddCredits | java-git-blame/Program.cs:48-50 | `if (!ContainsKey) d[a] = 0; d[a] += n` credits `a` with `n` more lines and leaves every other author's count alone; it adds `n` to the sum and `a` to the keys |
| Tally.AddShape | java-git-blame/Program.cs:62-64 | a new author becomes the last entry of the dictionary; a known one keeps its position with its count grown by `n` |
| Tally.AddWellFormed | java-git-blame/Program.cs:48-50 | the update keeps every key unique and, when it adds at least one line, every count positive |
| Tally.MergeCredits | java-git-blame/Program.cs:59-64 | merging a file's list into the totals adds the two counts for every author, the two sums and the two key sets; it keeps keys unique and counts positive, and authors already in the totals keep their positions |
| Tally.CountIsLookup | java-git-blame/Program.cs:62-64 | with unique keys, the lines credited to an entry's author are that entry's value, as a dictionary lookup returns |
| Tally.CountAbsent | java-git-blame/Program.cs:48-49 | an author that is not a key is credited nothing; with positive counts every key is credited something |
| Blame.ParseBlame | java-git-blame/Program.cs:40-51 | the file's line count is the number of author lines of the output, and it is positive once any author has an entry |
| Blame.ParseBlameCredits | java-git-blame/Program.cs:43-50 | each author is credited with exactly as many lines as there are `author ` lines naming them; the keys are exactly the named authors |
| Blame.ParseBlameWellFormed | java-git-blame/Program.cs:40-51 | after the loop, every author appears once with a count of at least one, and the counts add up to `fileTotalLines` |
| Blame.TallyLines | java-git-blame/Program.cs:40-51 | the in-place loop computes the same dictionary and counter as the fold, and the counter is the number of author lines and the sum of the counts |
| Blame.AuthorLineRoundTrip | java-git-blame/Program.cs:45-47 | the prefix followed by a name is an author line crediting exactly that name, and every author line is the prefix followed by what it credits |
| Blame.OtherAuthorFieldsIgnored | java-git-blame/Program.cs:45-47 | `author-mail`, `author-time` and `author-tz` lines are never counted |
| Sorting.SortByCount | java-git-blame/Program.cs:56-57 | the sorted list is a permutation of the dictionary's entries whose counts never increase from front to back |
| Sorting.SortCredits | java-git-blame/Program.cs:85-86 | sorting changes no author's count, nor the sum or the keys |
| Sorting.SortWellFormed | java-git-blame/Program.cs:85-86 | sorting keeps keys unique and counts positive |
| Proportion.Shares | java-git-blame/Program.cs:66 | each fraction times the divisor is the entry's count, and no fraction is negative |
| Proportion.SharesSumToOne | java-git-blame/Program.cs:113 | the fractions of a tally whose counts add up to a positive total add up to one |
| Pie.SliceIndex | java-git-blame/Program.cs:146-155 | the loop of `S` stops at the first slice from `incdx` on whose running total of fractions exceeds `a`, and runs out only when no running total exceeds `a` |
| Pie.SliceColor | java-git-blame/Program.cs:144-156 | `S` returns `k[j]` for the first such slice `j`, and `Black` when there is none |
| Pie.SelectSlice | java-git-blame/Program.cs:144-156 | the `while (true)` loop as written returns that same colour |
| Pie.SliceBoundaries | java-git-blame/Program.cs:146-155 | for non-negative fractions and angle, slice `j` is chosen exactly when `v[0] + ... + v[j-1] <= a < v[0] + ... + v[j]` |
| Pie.FallbackIffBeyondTotal | java-git-blame/Program.cs:148-149 | with non-negative fractions, `S` falls back to `Black` exactly when the angle is at least the sum of the fractions |
| Pie.NegativeAngleFirstSlice | java-git-blame/Program.cs:150-151 | a negative angle gets the first slice's colour |
| Pie.DrawPie | java-git-blame/Program.cs:118-142 | every cell `(x, y)` of `[-r, r]²` is visited once, row by row; it is placed at column `cx + 2r + 2x`, row `cy + r + y`, and coloured by `S` exactly when `x*x + y*y < r*r`, `Black` otherwise |
| Report.FileReportFacts | java-git-blame/Program.cs:40-73 | a file's table lists every author of the file once, in descending order, with the number of author lines naming them; its percentages are taken of the file's line count and add up to 100% |
| Report.StepCredits | java-git-blame/Program.cs:40-64 | one pass of the file loop adds the file's author lines to each author's total and to `totalLines`, and keeps the totals consistent |
| Report.AggregateCredits | java-git-blame/Program.cs:24-64 | after the loop, each author's total is the sum over the files of the lines naming them; `totalLines` is the sum of the files' author lines and of all totals; keys are unique and counts positive |
| Report.ConsistentDivisor | java-git-blame/Program.cs:91-94 | the total table is empty exactly when `totalLines` is 0, so the legend never divides by zero |
| Report.SumOverPermutation | java-git-blame/Program.cs:24-64 | a sum over the files of the loop, such as an author's lines or `totalLines`, does not depend on the order of the files |
| Report.AggregateOrderIndependent | java-git-blame/Program.cs:24-64 | processing the files in any other order gives every author the same total, the same set of authors and the same `totalLines` |
| Report.ContainsIffOccurs | java-git-blame/Program.cs:76 | `err.Contains(p)` holds exactly when `p` occurs in `err` at some position |
| Report.Run | java-git-blame/Program.cs:26-82 | every file up to and including the first whose standard error contains `fatal` gets its table; the run reaches the totals, computed over all files, exactly when no blame failed; an aborted run reports that file's error text |
| Report.Legend | java-git-blame/Program.cs:91-110 | legend row `i` shows the `i`-th ranked entry, its share of `totalLines`, and a block in `palette[i]` |
| Report.Summarize | java-git-blame/Program.cs:85-113 | the legend ranks the totals in descending order with `palette[i]` on row `i`; the pie's fractions follow the dictionary's order |
| Report.SummarizeKeyed | java-git-blame/Program.cs:85-113 | with the pie fed in the legend's order, the slice `S` colours `palette[i]` has exactly the share printed on the legend row with block `palette[i]` |
| Report.PieAlwaysColored | java-git-blame/Program.cs:111-129 | for a non-empty, consistent total, the fractions the program passes to the pie (dictionary order) add up to one, and so do those fed in legend order; every angle below 1, which all angles of line 128 are, falls into a slice and never into the `Black` fallback; the legend is the same in both summaries |
| Report.LegendSharesSumToOne | java-git-blame/Program.cs:91-110 | the percentages printed in the total table add up to 100% |
| Report.TwoFilesTotals | java-git-blame/Program.cs:40-64 | two files crediting `bob` with one line and then `alice` with two leave `bob` first in the total dictionary |
| Report.LegendDisagreesWithPie | java-git-blame/Program.cs:105-113 | for those two files the legend gives `alice` the block `Palette[0]` and share 2/3, but the pie slice `S` colours `Palette[0]` is `bob`'s 1/3 |

## Left out

- Starting `git`, reading its streams and enumerating files (lines 19-38): the
  blame outputs are an input of `Report.Run`, one per file, in enumeration order.
- The `.git` filter on file paths (line 24): the file list is an input.
- Every console effect: colours, cursor positions, `{perc:P}` and `{owner,20}`
  formatting, the printed messages. The model returns the values that would be
  printed.
- `Math.Atan2` and the `+ .45` offset of line 128: the angle is the `angle`
  parameter of `Pie.DrawPie`; `Report.PieAlwaysColored` assumes only that it is
  below 1.
- The arguments of the call at lines 111-114 (radius 11, a column taken from
  the console width, a row taken from the cursor): they are the `radius`, `cx`
  and `cy` parameters of `Pie.DrawPie`.
- `double` rounding: fractions are exact `real`s, so a sum of fractions is
  exactly 1, where in `double` it may be off by a rounding error.
- `int` overflow of the counters: counts are unbounded naturals.
- `StartsWith("author ")` is culture-sensitive in .NET; the model compares the
  first seven characters ordinally.
- The tie order of `List.Sort`: the model's insertion sort fixes one. The
  sorting contracts state only that the result is a permutation with
  non-increasing counts, which holds of every order `List.Sort` may produce.
  Among tied authors of one file, the order in which new authors enter the
  total dictionary, and with it the pie's order, follows the model's choice.
- Pie.FallbackIffBeyondTotal: stated for non-empty fractions only, because with
  no fractions `S` returns `Black` even for a negative angle.
- Pie.SliceBoundaries: stated for a non-negative angle; a negative angle is
  covered by `Pie.NegativeAngleFirstSlice`.
- Report.Run: an aborted run carries no totals, since the code returns before
  printing them.

## Findings

| source | as written | input that shows it | evidently intended | confidence | as-written member | corrected member |
|---|---|---|---|---|---|---|
| java-git-blame/Program.cs:105-113 | The legend row `i` gets the block `colorPalette[i]` in sorted order, but the pie receives `totalContributions.Values` in dictionary order, and `S` colours slice `j` with `colorPalette[j]` | Two files: the first credits `bob` with one line, the second credits `alice` with two. The legend shows `alice`, 66.67%, in `White`; the `White` slice is `bob`'s 33.33% | The pie's slice in `colorPalette[i]` is the author on legend row `i`, i.e. the fractions are passed in sorted order | not executed | Report.LegendDisagreesWithPie | Report.SummarizeKeyed |
