/** The descending-by-count ordering applied in `Program.cs` to every file tally
    (lines 56-57) and to the total tally (lines 85-86).

    `List.Sort` with the comparison `next.Value.CompareTo(first.Value)` puts larger
    counts first. It is not a stable sort, so the order among equal counts is not
    determined by the source; the model sorts by insertion, and everything stated
    about the result holds of any order `List.Sort` may pick: the result is a
    permutation of the entries and its counts never increase. */
module Sorting {
  import opened Tally

  /** Counts never increase from front to back. */
  predicate NonIncreasing(s: Tally)
  {
    forall i, j :: 0 <= i < j < |s| ==> s[i].count >= s[j].count
  }

  /** Places `e` in front of the first entry with a count not larger than its own. */
  function Insert(e: Entry, s: Tally): (r: Tally)
    requires NonIncreasing(s)
    ensures NonIncreasing(r)
    ensures multiset(r) == multiset(s) + multiset{e}
    ensures r[0] == e || (|s| > 0 && r[0] == s[0])
  {
    if |s| == 0 || e.count >= s[0].count then [e] + s
    else
      var rest := Insert(e, s[1..]);
      assert s == [s[0]] + s[1..];
      [s[0]] + rest
  }

  /** Inserting an entry credits every author exactly what putting it in front
      would. */
  lemma {:induction false} InsertCredits(e: Entry, s: Tally)
    requires NonIncreasing(s)
    ensures Count(Insert(e, s), e.author) == Count(s, e.author) + e.count
    ensures forall b :: b != e.author ==> Count(Insert(e, s), b) == Count(s, b)
  {
    if |s| == 0 || e.count >= s[0].count {
      Prepend(e, s);
    } else {
      var rest := Insert(e, s[1..]);
      assert Insert(e, s) == [s[0]] + rest;
      InsertCredits(e, s[1..]);
      Prepend(s[0], s[1..]);
      Prepend(s[0], rest);
    }
  }

  /** Inserting an entry adds its count to the sum and its author to the keys. */
  lemma {:induction false} InsertSums(e: Entry, s: Tally)
    requires NonIncreasing(s)
    ensures Sum(Insert(e, s)) == Sum(s) + e.count
    ensures Keys(Insert(e, s)) == Keys(s) + {e.author}
  {
    if |s| == 0 || e.count >= s[0].count {
      Prepend(e, s);
    } else {
      var rest := Insert(e, s[1..]);
      assert Insert(e, s) == [s[0]] + rest;
      InsertSums(e, s[1..]);
      Prepend(s[0], s[1..]);
      Prepend(s[0], rest);
    }
  }

  /** `tally.ToList()` followed by the descending sort. */
  function SortByCount(t: Tally): (r: Tally)
    ensures NonIncreasing(r)
    ensures multiset(r) == multiset(t)
    ensures |r| == |t|
  {
    if |t| == 0 then []
    else
      assert t == [t[0]] + t[1..];
      Insert(t[0], SortByCount(t[1..]))
  }

  /** Sorting keeps what every author is credited, the sum and the keys. */
  lemma {:induction false} SortCredits(t: Tally)
    ensures forall b :: Count(SortByCount(t), b) == Count(t, b)
    ensures Sum(SortByCount(t)) == Sum(t)
    ensures Keys(SortByCount(t)) == Keys(t)
  {
    if |t| > 0 {
      SortCredits(t[1..]);
      InsertCredits(t[0], SortByCount(t[1..]));
      InsertSums(t[0], SortByCount(t[1..]));
      Prepend(t[0], t[1..]);
      assert t == [t[0]] + t[1..];
    }
  }

  /** Sorting keeps a dictionary's keys distinct and its counts positive. */
  lemma SortWellFormed(t: Tally)
    ensures DistinctKeys(t) ==> DistinctKeys(SortByCount(t))
    ensures AllPositive(t) ==> AllPositive(SortByCount(t))
  {
    var r := SortByCount(t);
    SortCredits(t);
    DistinctIffKeyCount(t);
    DistinctIffKeyCount(r);
    if AllPositive(t) {
      forall i | 0 <= i < |r| ensures r[i].count >= 1 {
        assert r[i] in multiset(t);
      }
    }
  }
}
