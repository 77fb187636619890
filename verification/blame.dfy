/** The blame-output parser and per-file tally of `Program.cs`, lines 40-54.

    The standard output of `git blame --line-porcelain -w` is read line by line.
    In that format every source line is preceded by a header that repeats the full
    commit metadata, among it one line `author <name>`; the other author fields
    (`author-mail`, `author-time`, `author-tz`) and the source line itself are
    ignored. Every `author ` line credits one line to the name after the prefix. */
module Blame {
  import opened Tally

  /** The prefix `line.StartsWith("author ")` looks for. */
  const AuthorPrefix: string := "author "

  /** Whether the line is an author line. */
  predicate IsAuthorLine(line: string)
  {
    |AuthorPrefix| <= |line| && line[..|AuthorPrefix|] == AuthorPrefix
  }

  /** `line.Substring(7)`: everything after the prefix. */
  function AuthorOf(line: string): string
    requires IsAuthorLine(line)
  {
    line[|AuthorPrefix|..]
  }

  /** The author of a line written as the prefix followed by a name is that
      name, and only such lines are author lines. */
  lemma AuthorLineRoundTrip(name: string, line: string)
    ensures IsAuthorLine(AuthorPrefix + name) && AuthorOf(AuthorPrefix + name) == name
    ensures IsAuthorLine(line) ==> line == AuthorPrefix + AuthorOf(line)
  {
    assert (AuthorPrefix + name)[..|AuthorPrefix|] == AuthorPrefix;
    if IsAuthorLine(line) {
      assert line == line[..|AuthorPrefix|] + line[|AuthorPrefix|..];
    }
  }

  /** Reference definition: the author of every author line, in order. */
  function Authors(lines: seq<string>): seq<string>
  {
    if |lines| == 0 then []
    else
      var last := lines[|lines| - 1];
      Authors(lines[..|lines| - 1]) + (if IsAuthorLine(last) then [AuthorOf(last)] else [])
  }

  /** `fileContributions` and `fileTotalLines` once the output is read. */
  datatype FileTally = FileTally(tally: Tally, lineCount: nat)

  /** The `while ((line = ReadLine()) != null)` loop, as a fold over the lines read
      so far: the last line read either credits its author or is skipped. The
      line count is the number of author lines, and it is positive once anyone
      has been credited. */
  function ParseBlame(lines: seq<string>): (r: FileTally)
    ensures r.lineCount == |Authors(lines)|
    ensures |r.tally| > 0 ==> r.lineCount > 0
  {
    if |lines| == 0 then FileTally([], 0)
    else
      var prev := ParseBlame(lines[..|lines| - 1]);
      var last := lines[|lines| - 1];
      if IsAuthorLine(last) then
        FileTally(Add(prev.tally, AuthorOf(last), 1), prev.lineCount + 1)
      else
        prev
  }

  /** Each author is credited with exactly the author lines that name them, and
      the keys are exactly the authors named. */
  lemma {:induction false} ParseBlameCredits(lines: seq<string>)
    ensures forall a :: Count(ParseBlame(lines).tally, a) == multiset(Authors(lines))[a]
    ensures forall a :: a in Keys(ParseBlame(lines).tally) <==> a in Authors(lines)
  {
    if |lines| > 0 {
      var init, last := lines[..|lines| - 1], lines[|lines| - 1];
      ParseBlameCredits(init);
      if IsAuthorLine(last) {
        AddCredits(ParseBlame(init).tally, AuthorOf(last), 1);
      }
      forall a ensures a in Keys(ParseBlame(lines).tally) <==> a in Authors(lines) {
        assert a in Authors(lines) <==>
               a in Authors(init) || (IsAuthorLine(last) && a == AuthorOf(last));
      }
    }
  }

  /** The file's dictionary is well formed: every author once, every count
      positive, and the counts add up to the line count. */
  lemma {:induction false} ParseBlameWellFormed(lines: seq<string>)
    ensures DistinctKeys(ParseBlame(lines).tally)
    ensures AllPositive(ParseBlame(lines).tally)
    ensures Sum(ParseBlame(lines).tally) == ParseBlame(lines).lineCount
  {
    if |lines| > 0 {
      var init, last := lines[..|lines| - 1], lines[|lines| - 1];
      ParseBlameWellFormed(init);
      if IsAuthorLine(last) {
        AddCredits(ParseBlame(init).tally, AuthorOf(last), 1);
        AddWellFormed(ParseBlame(init).tally, AuthorOf(last), 1);
      }
    }
  }

  /** The same loop written as the source writes it, reading one line per
      iteration and updating the dictionary and the counter in place. */
  method TallyLines(lines: seq<string>) returns (t: Tally, n: nat)
    ensures FileTally(t, n) == ParseBlame(lines)
    ensures n == |Authors(lines)| == Sum(t)
  {
    t, n := [], 0;
    var i := 0;
    while i < |lines|
      invariant 0 <= i <= |lines|
      invariant FileTally(t, n) == ParseBlame(lines[..i])
    {
      var line := lines[i];
      assert lines[..i + 1][..i] == lines[..i];
      if IsAuthorLine(line) {
        t := Add(t, AuthorOf(line), 1);
        n := n + 1;
      }
      i := i + 1;
    }
    assert lines[..i] == lines;
    ParseBlameWellFormed(lines);
  }

  /** The other author fields of a porcelain header are never counted: a line
      that starts with `author-` is not an author line. */
  lemma OtherAuthorFieldsIgnored(line: string)
    requires |line| >= 7 && line[..7] == "author-"
    ensures !IsAuthorLine(line)
  {
    assert line[6] == '-';
  }
}
