/** The body of `Main` in `Program.cs` once subprocesses, files and the console
    are taken away: the loop over the files (lines 26-83), the fatal-error abort
    (lines 75-82), the total table with its colour legend (lines 85-110) and the
    fractions the pie chart receives (line 113). */
module Report {
  import opened Tally
  import opened Blame
  import opened Sorting
  import opened Proportion
  import opened Pie

  /** `totalContributions` and `totalLines`. */
  datatype Totals = Totals(total: Tally, totalLines: nat)

  /** What is printed for one file: its entries in descending order, the share
      of the file's lines of each, and the file's line count. */
  datatype FileReport = FileReport(rows: Tally, shares: seq<real>, lineCount: nat)

  /** Lines 40-73 for one file's blame output. */
  function FileReportOf(lines: seq<string>): FileReport
  {
    var ft := ParseBlame(lines);
    var rows := SortByCount(ft.tally);
    FileReport(rows, Shares(rows, ft.lineCount), ft.lineCount)
  }

  /** A file's table lists every author of the file once, in descending order,
      with the number of author lines naming them; the line count is the number
      of author lines, and the percentages are taken of it and add up to 100%. */
  lemma FileReportFacts(lines: seq<string>)
    ensures var r := FileReportOf(lines);
            && NonIncreasing(r.rows)
            && multiset(r.rows) == multiset(ParseBlame(lines).tally)
            && DistinctKeys(r.rows)
            && (forall a :: Count(r.rows, a) == multiset(Authors(lines))[a])
            && r.lineCount == |Authors(lines)| == Sum(r.rows)
            && |r.shares| == |r.rows|
            && (forall i :: 0 <= i < |r.rows| ==>
                  r.shares[i] == r.rows[i].count as real / r.lineCount as real)
            && (|r.rows| > 0 ==> Total(r.shares) == 1.0)
  {
    var r := FileReportOf(lines);
    SortCredits(ParseBlame(lines).tally);
    SortWellFormed(ParseBlame(lines).tally);
    ParseBlameCredits(lines);
    ParseBlameWellFormed(lines);
    if |r.rows| > 0 {
      SharesSumToOne(r.rows, r.lineCount);
    }
  }

  /** One iteration of the file loop: the file's tally is parsed, sorted and
      merged entry by entry into the running total, and its line count is added
      to `totalLines` (line 52 adds it one line at a time). */
  function Step(st: Totals, lines: seq<string>): Totals
  {
    var ft := ParseBlame(lines);
    Totals(Merge(st.total, SortByCount(ft.tally)), st.totalLines + ft.lineCount)
  }

  /** The totals invariant of the file loop: distinct keys, positive counts, and
      a grand total that is the sum of the per-author totals. */
  predicate Consistent(st: Totals)
  {
    DistinctKeys(st.total) && AllPositive(st.total) && Sum(st.total) == st.totalLines
  }

  /** One iteration adds the file's author lines to each author's total and to the
      grand total, and keeps the totals consistent. */
  lemma StepCredits(st: Totals, lines: seq<string>)
    ensures forall a :: Count(Step(st, lines).total, a) == Count(st.total, a) + multiset(Authors(lines))[a]
    ensures Step(st, lines).totalLines == st.totalLines + |Authors(lines)|
    ensures Consistent(st) ==> Consistent(Step(st, lines))
  {
    var ft := ParseBlame(lines);
    SortCredits(ft.tally);
    SortWellFormed(ft.tally);
    ParseBlameCredits(lines);
    ParseBlameWellFormed(lines);
    MergeCredits(st.total, SortByCount(ft.tally));
  }

  /** `g(f)` summed over the files. */
  function SumOver(files: seq<seq<string>>, g: seq<string> -> nat): nat
  {
    if |files| == 0 then 0
    else SumOver(files[..|files| - 1], g) + g(files[|files| - 1])
  }

  /** The number of author lines of a file that name `a`. */
  function AuthorLinesOf(a: string): seq<string> -> nat
  {
    lines => multiset(Authors(lines))[a]
  }

  /** The number of author lines of a file. */
  function AuthorLineCount(lines: seq<string>): nat
  {
    |Authors(lines)|
  }

  /** The totals after the loop has run over `files`. */
  function Aggregate(files: seq<seq<string>>): Totals
  {
    if |files| == 0 then Totals([], 0)
    else Step(Aggregate(files[..|files| - 1]), files[|files| - 1])
  }

  /** Lines 52 and 59-64: every author's total is the number of author lines
      naming them across all files, and the grand total is the number of author
      lines across all files. */
  lemma {:induction false} AggregateCredits(files: seq<seq<string>>)
    ensures forall a :: Count(Aggregate(files).total, a) == SumOver(files, AuthorLinesOf(a))
    ensures Aggregate(files).totalLines == SumOver(files, AuthorLineCount)
    ensures Consistent(Aggregate(files))
  {
    if |files| > 0 {
      var init, last := files[..|files| - 1], files[|files| - 1];
      AggregateCredits(init);
      StepCredits(Aggregate(init), last);
      forall a ensures Count(Aggregate(files).total, a) == SumOver(files, AuthorLinesOf(a)) {
        assert AuthorLinesOf(a)(last) == multiset(Authors(last))[a];
      }
    }
  }

  /** Once a tally is consistent, it is empty exactly when its grand total is 0,
      so the percentage loops never divide by a zero total. */
  lemma ConsistentDivisor(st: Totals)
    requires Consistent(st)
    ensures |st.total| > 0 <==> st.totalLines > 0
  {
    if |st.total| > 0 {
      assert st.total == [st.total[0]] + st.total[1..];
      Prepend(st.total[0], st.total[1..]);
    }
  }

  /** Summing over two runs of files one after the other. */
  lemma {:induction false} SumOverAppend(xs: seq<seq<string>>, ys: seq<seq<string>>,
                                         g: seq<string> -> nat)
    ensures SumOver(xs + ys, g) == SumOver(xs, g) + SumOver(ys, g)
    decreases |ys|
  {
    if |ys| > 0 {
      assert (xs + ys)[..|xs + ys| - 1] == xs + ys[..|ys| - 1];
      SumOverAppend(xs, ys[..|ys| - 1], g);
    } else {
      assert xs + ys == xs;
    }
  }

  /** Taking one file out of the run takes its term out of the sum. */
  lemma {:induction false} SumOverRemove(ys: seq<seq<string>>, j: nat, g: seq<string> -> nat)
    requires j < |ys|
    ensures SumOver(ys, g) == SumOver(ys[..j] + ys[j + 1..], g) + g(ys[j])
  {
    var before, after := ys[..j], ys[j + 1..];
    assert ys == (before + [ys[j]]) + after;
    SumOverAppend(before + [ys[j]], after, g);
    SumOverAppend(before, after, g);
    assert (before + [ys[j]])[..|before|] == before;
  }

  /** The files of a run are those left after taking out the `j`-th, and it. */
  lemma MultisetRemove(ys: seq<seq<string>>, j: nat)
    requires j < |ys|
    ensures multiset(ys) == multiset(ys[..j] + ys[j + 1..]) + multiset{ys[j]}
  {
    assert ys == ys[..j] + [ys[j]] + ys[j + 1..];
  }

  /** Taking the last file of `xs` and a copy of it out of a rearrangement `ys`
      leaves rearrangements of each other. */
  lemma RemoveMatching(xs: seq<seq<string>>, ys: seq<seq<string>>, j: nat)
    requires multiset(xs) == multiset(ys)
    requires 0 < |xs| && j < |ys| && ys[j] == xs[|xs| - 1]
    ensures multiset(xs[..|xs| - 1]) == multiset(ys[..j] + ys[j + 1..])
  {
    MultisetRemove(xs, |xs| - 1);
    MultisetRemove(ys, j);
    assert xs[|xs| - 1 + 1..] == [];
    var init, rest := xs[..|xs| - 1], ys[..j] + ys[j + 1..];
    forall f ensures multiset(init)[f] == multiset(rest)[f] {
      assert multiset(xs)[f] == multiset(ys)[f];
    }
  }

  /** A sum over files does not depend on the order of the files. */
  lemma {:induction false} SumOverPermutation(xs: seq<seq<string>>, ys: seq<seq<string>>,
                                              g: seq<string> -> nat)
    requires multiset(xs) == multiset(ys)
    ensures SumOver(xs, g) == SumOver(ys, g)
    decreases |xs|
  {
    if |xs| == 0 {
      assert |ys| == |multiset(ys)| == 0;
    } else {
      var last := xs[|xs| - 1];
      assert last in multiset(ys);
      var j :| 0 <= j < |ys| && ys[j] == last;
      RemoveMatching(xs, ys, j);
      SumOverPermutation(xs[..|xs| - 1], ys[..j] + ys[j + 1..], g);
      SumOverRemove(ys, j, g);
    }
  }

  /** Lines 52 and 59-64 do not depend on the order in which the files are
      processed: any reordering of the files gives every author the same total,
      the same authors and the same grand total. (Only the order of the total
      dictionary's entries can differ.) */
  lemma AggregateOrderIndependent(xs: seq<seq<string>>, ys: seq<seq<string>>)
    requires multiset(xs) == multiset(ys)
    ensures forall a :: Count(Aggregate(xs).total, a) == Count(Aggregate(ys).total, a)
    ensures Keys(Aggregate(xs).total) == Keys(Aggregate(ys).total)
    ensures Aggregate(xs).totalLines == Aggregate(ys).totalLines
  {
    var tx, ty := Aggregate(xs).total, Aggregate(ys).total;
    AggregateCredits(xs);
    AggregateCredits(ys);
    forall a ensures Count(tx, a) == Count(ty, a) {
      SumOverPermutation(xs, ys, AuthorLinesOf(a));
    }
    SumOverPermutation(xs, ys, AuthorLineCount);
    forall a ensures a in Keys(tx) <==> a in Keys(ty) {
      CountAbsent(tx, a);
      CountAbsent(ty, a);
    }
  }

  /** The output of one `git blame` run. */
  datatype BlameOutput = BlameOutput(stdout: seq<string>, stderr: string)

  /** How `Main` ends: returning early after a file whose blame failed, or
      reaching the total table. */
  datatype Outcome =
    | Aborted(reports: seq<FileReport>, error: string)
    | Completed(reports: seq<FileReport>, totals: Totals)

  /** `s.Contains(p)` (ordinal): `p` starts at the front of `s` or somewhere in
      the rest. */
  predicate Contains(s: string, p: string)
    decreases |s|
  {
    |p| <= |s| && (s[..|p|] == p || Contains(s[1..], p))
  }

  /** `p` occurs in `s` starting at position `i`. */
  predicate OccursAt(s: string, p: string, i: nat)
  {
    i + |p| <= |s| && s[i..i + |p|] == p
  }

  /** The scan finds `p` exactly when it occurs at some position of `s`. */
  lemma {:induction false} ContainsIffOccurs(s: string, p: string)
    ensures Contains(s, p) <==> exists i: nat :: OccursAt(s, p, i)
    decreases |s|
  {
    if |p| <= |s| && s[..|p|] != p {
      ContainsIffOccurs(s[1..], p);
      if Contains(s[1..], p) {
        var i: nat :| OccursAt(s[1..], p, i);
        assert s[i + 1..i + 1 + |p|] == s[1..][i..i + |p|];
        assert OccursAt(s, p, i + 1);
      }
      if i: nat :| OccursAt(s, p, i) {
        assert i != 0;
        assert s[1..][i - 1..i - 1 + |p|] == s[i..i + |p|];
        assert OccursAt(s[1..], p, i - 1);
      }
    } else if |p| <= |s| {
      assert OccursAt(s, p, 0);
    }
  }

  /** Line 76: the error stream names a fatal error. */
  predicate Fatal(o: BlameOutput)
  {
    Contains(o.stderr, "fatal")
  }

  /** The standard outputs, in order. */
  function Stdouts(outputs: seq<BlameOutput>): (files: seq<seq<string>>)
    ensures |files| == |outputs|
    ensures forall i :: 0 <= i < |outputs| ==> files[i] == outputs[i].stdout
  {
    seq(|outputs|, i requires 0 <= i < |outputs| => outputs[i].stdout)
  }

  /** The tables printed for the given files, in order. */
  function ReportsOf(files: seq<seq<string>>): (r: seq<FileReport>)
    ensures |r| == |files|
    ensures forall i :: 0 <= i < |files| ==> r[i] == FileReportOf(files[i])
  {
    seq(|files|, i requires 0 <= i < |files| => FileReportOf(files[i]))
  }

  /** One more file whose blame did not fail. */
  lemma NoneFatalExtend(outputs: seq<BlameOutput>, n: nat)
    requires n < |outputs|
    requires forall j :: 0 <= j < n ==> !Fatal(outputs[j])
    requires !Fatal(outputs[n])
    ensures forall j :: 0 <= j <= n ==> !Fatal(outputs[j])
  {
  }

  /** The file loop of `Main` over the blame outputs of the files in order. Every
      file up to and including the first whose error stream is fatal is
      reported; the run completes, with the totals of all files, exactly when no
      file's blame failed. */
  method Run(outputs: seq<BlameOutput>) returns (r: Outcome)
    ensures |r.reports| <= |outputs|
    ensures r.reports == ReportsOf(Stdouts(outputs)[..|r.reports|])
    ensures r.Completed? <==> forall i :: 0 <= i < |outputs| ==> !Fatal(outputs[i])
    ensures r.Completed? ==> |r.reports| == |outputs| && r.totals == Aggregate(Stdouts(outputs))
    ensures r.Aborted? ==>
              && 0 < |r.reports|
              && Fatal(outputs[|r.reports| - 1])
              && r.error == outputs[|r.reports| - 1].stderr
              && forall i :: 0 <= i < |r.reports| - 1 ==> !Fatal(outputs[i])
  {
    var files := Stdouts(outputs);
    var totals := Totals([], 0);
    var i := 0;
    while i < |outputs|
      invariant 0 <= i <= |outputs|
      invariant forall j :: 0 <= j < i ==> !Fatal(outputs[j])
      invariant totals == Aggregate(files[..i])
    {
      assert files[..i + 1] == files[..i] + [files[i]];
      totals := Step(totals, files[i]);
      if Fatal(outputs[i]) {
        var reports := ReportsOf(files[..i + 1]);
        assert |reports| == i + 1;
        return Aborted(reports, outputs[i].stderr);
      }
      NoneFatalExtend(outputs, i);
      i := i + 1;
    }
    assert files[..i] == files;
    return Completed(ReportsOf(files), totals);
  }

  /** One row of the total table: author, share of all lines, line count and the
      colour of the block printed after it. */
  datatype LegendRow = LegendRow(entry: Entry, share: real, color: Color)

  /** What follows the file loop: the legend rows, in descending order, and the
      fractions handed to the pie chart. */
  datatype Summary = Summary(legend: seq<LegendRow>, pie: seq<real>)

  /** The entries of the legend, in its order. */
  function LegendEntries(legend: seq<LegendRow>): (r: Tally)
    ensures |r| == |legend|
    ensures forall i :: 0 <= i < |legend| ==> r[i] == legend[i].entry
  {
    seq(|legend|, i requires 0 <= i < |legend| => legend[i].entry)
  }

  /** Lines 91-110: row `i` of the ranked entries is printed with its share of
      `totalLines` and a block in `palette[i]`. */
  function Legend(palette: seq<Color>, ranked: Tally, totalLines: nat): (r: seq<LegendRow>)
    requires |ranked| <= |palette|
    requires |ranked| > 0 ==> totalLines > 0
    ensures LegendEntries(r) == ranked
    ensures forall i :: 0 <= i < |r| ==> r[i].color == palette[i]
    ensures forall i :: 0 <= i < |r| ==>
              r[i].share == r[i].entry.count as real / totalLines as real
  {
    var shares := Shares(ranked, totalLines);
    var r := seq(|ranked|, i requires 0 <= i < |ranked| =>
                             LegendRow(ranked[i], shares[i], palette[i]));
    assert LegendEntries(r) == ranked;
    r
  }

  /** Lines 85-113 as written: the legend ranks the total tally by descending
      count and colours row `i` with `palette[i]`, but the pie receives the
      fractions in the total dictionary's own order, so slice `j`, which `S`
      colours `palette[j]`, is the share of the `j`-th author to enter the
      dictionary. The palette must have a colour for every author (line 105). */
  function Summarize(palette: seq<Color>, t: Totals): (s: Summary)
    requires |t.total| <= |palette|
    requires |t.total| > 0 ==> t.totalLines > 0
    ensures |s.legend| == |s.pie| == |t.total|
    ensures NonIncreasing(LegendEntries(s.legend))
    ensures multiset(LegendEntries(s.legend)) == multiset(t.total)
    ensures forall i :: 0 <= i < |s.legend| ==> s.legend[i].color == palette[i]
    ensures forall i :: 0 <= i < |s.legend| ==>
              s.legend[i].share == s.legend[i].entry.count as real / t.totalLines as real
    ensures forall j :: 0 <= j < |s.pie| ==>
              s.pie[j] == t.total[j].count as real / t.totalLines as real
  {
    Summary(Legend(palette, SortByCount(t.total), t.totalLines), Shares(t.total, t.totalLines))
  }

  /** The summary with the pie fed in the legend's order, as the legend's colour
      blocks evidently intend: the slice `S` colours `palette[i]` then has exactly
      the share printed in the legend row coloured `palette[i]`. */
  function SummarizeKeyed(palette: seq<Color>, t: Totals): (s: Summary)
    requires |t.total| <= |palette|
    requires |t.total| > 0 ==> t.totalLines > 0
    ensures |s.legend| == |s.pie| == |t.total|
    ensures NonIncreasing(LegendEntries(s.legend))
    ensures multiset(LegendEntries(s.legend)) == multiset(t.total)
    ensures forall i :: 0 <= i < |s.legend| ==>
              s.legend[i].color == palette[i] && s.pie[i] == s.legend[i].share
  {
    var ranked := SortByCount(t.total);
    Summary(Legend(palette, ranked, t.totalLines), Shares(ranked, t.totalLines))
  }

  /** The pie's fractions sum to one, both as the program passes them (in the
      dictionary's order) and fed in the legend's order, so every cell inside
      the circle gets the colour of a slice and never the `Black` fallback: the
      angle of line 128 is `atan2(y, x) / 2π + 0.45`, which stays below 1. The
      legend itself is the same either way. */
  lemma PieAlwaysColored(palette: seq<Color>, t: Totals, a: real)
    requires Consistent(t)
    requires 0 < |t.total| <= |palette|
    requires a < 1.0
    ensures Total(Summarize(palette, t).pie) == 1.0
    ensures SliceIndex(Summarize(palette, t).pie, a, 0).Some?
    ensures Total(SummarizeKeyed(palette, t).pie) == 1.0
    ensures SliceIndex(SummarizeKeyed(palette, t).pie, a, 0).Some?
    ensures Summarize(palette, t).legend == SummarizeKeyed(palette, t).legend
  {
    ConsistentDivisor(t);
    SharesSumToOne(t.total, t.totalLines);
    CoveredBelowTotal(Summarize(palette, t).pie, a);
    var ranked := SortByCount(t.total);
    var v := SummarizeKeyed(palette, t).pie;
    SortCredits(t.total);
    SharesSumToOne(ranked, t.totalLines);
    CoveredBelowTotal(v, a);
  }

  /** The shares printed in the legend, in its order. */
  function LegendShares(legend: seq<LegendRow>): (r: seq<real>)
    ensures |r| == |legend|
    ensures forall i :: 0 <= i < |legend| ==> r[i] == legend[i].share
  {
    seq(|legend|, i requires 0 <= i < |legend| => legend[i].share)
  }

  /** The percentages of the total table (lines 91-110) add up to 100%. */
  lemma LegendSharesSumToOne(palette: seq<Color>, t: Totals)
    requires Consistent(t)
    requires 0 < |t.total| <= |palette|
    ensures Total(LegendShares(Summarize(palette, t).legend)) == 1.0
  {
    PieAlwaysColored(palette, t, 0.0);
    assert LegendShares(Summarize(palette, t).legend) == SummarizeKeyed(palette, t).pie;
  }

  /** Two author lines of the example below. */
  lemma ExampleAuthorLines()
    ensures IsAuthorLine("author bob") && AuthorOf("author bob") == "bob"
    ensures IsAuthorLine("author alice") && AuthorOf("author alice") == "alice"
  {
    assert "author bob"[..7] == "author ";
    assert "author alice"[..7] == "author ";
  }

  /** Two blame outputs reduced to their author lines: the first file credits
      `bob` with one line, the second credits `alice` with two. */
  const TwoFiles: seq<seq<string>> := [["author bob"], ["author alice", "author alice"]]

  /** The tally of each of the two files. */
  lemma TwoFilesParsed()
    ensures ParseBlame(TwoFiles[0]) == FileTally([Entry("bob", 1)], 1)
    ensures ParseBlame(TwoFiles[1]) == FileTally([Entry("alice", 2)], 2)
  {
    ExampleAuthorLines();
    assert TwoFiles[0][..0] == [];
    assert TwoFiles[1][..1] == ["author alice"];
    assert ["author alice"][..0] == [];
  }

  /** After both files, `bob` entered the total dictionary first. */
  lemma TwoFilesTotals()
    ensures Aggregate(TwoFiles) == Totals([Entry("bob", 1), Entry("alice", 2)], 3)
  {
    TwoFilesParsed();
    assert TwoFiles[..1] == [TwoFiles[0]];
    assert TwoFiles[..1][..0] == [];
    assert Aggregate(TwoFiles[..1]) == Totals([Entry("bob", 1)], 1);
  }

  /** What the legend and the pie make of those totals. */
  lemma TwoFilesSummary()
    ensures var s := Summarize(Palette, Totals([Entry("bob", 1), Entry("alice", 2)], 3));
            && s.legend[0].entry == Entry("alice", 2)
            && s.legend[0].color == Palette[0]
            && s.legend[0].share == 2.0 / 3.0
            && s.pie[0] == 1.0 / 3.0
  {
    var t := [Entry("bob", 1), Entry("alice", 2)];
    assert t[1..][1..] == [];
    assert SortByCount(t[1..]) == [Entry("alice", 2)];
    assert SortByCount(t) == [Entry("alice", 2), Entry("bob", 1)];
  }

  /** The legend ranks `alice` first and prints her block in `Palette[0]` with
      share 2/3, while the pie slice that `S` colours `Palette[0]` is `bob`'s
      1/3: the legend's colour key does not describe the pie. */
  lemma LegendDisagreesWithPie()
    ensures Aggregate(TwoFiles) == Totals([Entry("bob", 1), Entry("alice", 2)], 3)
    ensures var s := Summarize(Palette, Aggregate(TwoFiles));
            && s.legend[0].entry.author == "alice"
            && s.legend[0].color == Palette[0]
            && s.legend[0].share == 2.0 / 3.0
            && s.pie[0] == 1.0 / 3.0
            && s.pie[0] != s.legend[0].share
  {
    TwoFilesTotals();
    TwoFilesSummary();
  }
}
