/** Author tallies: the `Dictionary<string, int>` values that count lines per author.

    A tally is kept as the sequence of its entries in insertion order, which is the
    order in which a .NET dictionary that never has a key removed enumerates them.
    That order matters: the pie chart receives the total tally's values in it. */
module Tally {

  /** One dictionary entry: an author identifier and the lines credited to it. */
  datatype Entry = Entry(author: string, count: nat)

  /** A dictionary, as the sequence of its entries in enumeration order. */
  type Tally = seq<Entry>

  /** The lines credited to `a`: the counts of all entries keyed `a`, summed
      (for a tally with distinct keys, the value stored under `a`, or 0). */
  function Count(t: Tally, a: string): nat
  {
    if |t| == 0 then 0
    else (if t[0].author == a then t[0].count else 0) + Count(t[1..], a)
  }

  /** The sum of all counts in the tally. */
  function Sum(t: Tally): nat
  {
    if |t| == 0 then 0 else t[0].count + Sum(t[1..])
  }

  /** The keys of the tally. */
  function Keys(t: Tally): set<string>
  {
    if |t| == 0 then {} else {t[0].author} + Keys(t[1..])
  }

  /** No key occurs twice, as in a dictionary. */
  predicate DistinctKeys(t: Tally)
  {
    |t| == 0 || (t[0].author !in Keys(t[1..]) && DistinctKeys(t[1..]))
  }

  /** Every entry has been credited at least one line. */
  predicate AllPositive(t: Tally)
  {
    forall i :: 0 <= i < |t| ==> t[i].count >= 1
  }

  /** What a tally with one more entry in front credits, sums and keys. */
  lemma Prepend(e: Entry, t: Tally)
    ensures Count([e] + t, e.author) == e.count + Count(t, e.author)
    ensures forall b :: b != e.author ==> Count([e] + t, b) == Count(t, b)
    ensures Sum([e] + t) == e.count + Sum(t)
    ensures Keys([e] + t) == {e.author} + Keys(t)
  {
    assert ([e] + t)[1..] == t;
  }

  /** Every entry's author is a key, and every key is some entry's author. */
  lemma {:induction false} KeysAreAuthors(t: Tally)
    ensures forall i :: 0 <= i < |t| ==> t[i].author in Keys(t)
    ensures forall a :: a in Keys(t) ==> exists i :: 0 <= i < |t| && t[i].author == a
  {
    if |t| > 0 {
      KeysAreAuthors(t[1..]);
      forall i | 1 <= i < |t| ensures t[i].author in Keys(t) {
        assert t[1..][i - 1] == t[i];
      }
      forall a | a in Keys(t) ensures exists i :: 0 <= i < |t| && t[i].author == a {
        if a != t[0].author {
          var j :| 0 <= j < |t[1..]| && t[1..][j].author == a;
          assert t[j + 1].author == a;
        }
      }
    }
  }

  /** A tally has no more keys than entries, and exactly as many when its keys
      are distinct. */
  lemma {:induction false} DistinctIffKeyCount(t: Tally)
    ensures |Keys(t)| <= |t|
    ensures DistinctKeys(t) <==> |Keys(t)| == |t|
  {
    if |t| > 0 {
      DistinctIffKeyCount(t[1..]);
    }
  }

  /** Dictionary lookup: in a tally with distinct keys, the lines credited to an
      entry's author are that entry's count. */
  lemma {:induction false} CountIsLookup(t: Tally, i: nat)
    requires DistinctKeys(t)
    requires i < |t|
    ensures Count(t, t[i].author) == t[i].count
  {
    KeysAreAuthors(t[1..]);
    if i == 0 {
      CountAbsent(t[1..], t[0].author);
    } else {
      assert t[1..][i - 1] == t[i];
      CountIsLookup(t[1..], i - 1);
    }
  }

  /** An author that is not a key is credited nothing, and with positive counts
      every key is credited something. */
  lemma {:induction false} CountAbsent(t: Tally, a: string)
    ensures a !in Keys(t) ==> Count(t, a) == 0
    ensures AllPositive(t) && a in Keys(t) ==> Count(t, a) >= 1
  {
    if |t| > 0 {
      CountAbsent(t[1..], a);
    }
  }

  /** One step of `if (!d.ContainsKey(a)) d[a] = 0; d[a] += n;`: the existing entry
      for `a` grows by `n` in place, or a new entry is appended at the end. */
  function Add(t: Tally, a: string, n: nat): Tally
  {
    if |t| == 0 then [Entry(a, n)]
    else if t[0].author == a then [Entry(a, t[0].count + n)] + t[1..]
    else [t[0]] + Add(t[1..], a, n)
  }

  /** Adding `n` lines for `a` credits `a` with `n` more lines and every other
      author with the same, adds `n` to the sum and `a` to the keys. */
  lemma {:induction false} AddCredits(t: Tally, a: string, n: nat)
    ensures Count(Add(t, a, n), a) == Count(t, a) + n
    ensures forall b :: b != a ==> Count(Add(t, a, n), b) == Count(t, b)
    ensures Sum(Add(t, a, n)) == Sum(t) + n
    ensures Keys(Add(t, a, n)) == Keys(t) + {a}
  {
    if |t| > 0 {
      if t[0].author == a {
        Prepend(Entry(a, t[0].count + n), t[1..]);
      } else {
        AddCredits(t[1..], a, n);
        Prepend(t[0], Add(t[1..], a, n));
      }
      Prepend(t[0], t[1..]);
      assert [t[0]] + t[1..] == t;
    }
  }

  /** The dictionary's shape after adding: a new author is appended at the end, a
      known one keeps its place with its count grown by `n`. */
  lemma {:induction false} AddShape(t: Tally, a: string, n: nat)
    ensures a !in Keys(t) ==> Add(t, a, n) == t + [Entry(a, n)]
    ensures DistinctKeys(t) && a in Keys(t) ==>
              |Add(t, a, n)| == |t| &&
              forall i :: 0 <= i < |t| ==>
                Add(t, a, n)[i] == (if t[i].author == a then Entry(a, t[i].count + n) else t[i])
  {
    var r := Add(t, a, n);
    if |t| > 0 {
      assert forall i :: 1 <= i < |t| ==> t[1..][i - 1] == t[i];
      if t[0].author == a {
        KeysAreAuthors(t[1..]);
        assert r[1..] == t[1..];
      } else {
        AddShape(t[1..], a, n);
        assert r[1..] == Add(t[1..], a, n);
        if a !in Keys(t) {
          assert r == [t[0]] + (t[1..] + [Entry(a, n)]);
          assert t == [t[0]] + t[1..];
        }
      }
    }
  }

  /** Adding keeps the keys distinct, and keeps the counts positive when it adds
      at least one line. */
  lemma {:induction false} AddWellFormed(t: Tally, a: string, n: nat)
    ensures DistinctKeys(t) ==> DistinctKeys(Add(t, a, n))
    ensures AllPositive(t) && n >= 1 ==> AllPositive(Add(t, a, n))
  {
    var r := Add(t, a, n);
    if |t| > 0 {
      assert forall i :: 1 <= i < |t| ==> t[1..][i - 1] == t[i];
      if t[0].author == a {
        assert r[1..] == t[1..];
      } else {
        AddWellFormed(t[1..], a, n);
        AddCredits(t[1..], a, n);
        assert r[1..] == Add(t[1..], a, n);
      }
    }
  }

  /** Lines 59-64: every entry of the file tally `f` is added, in `f`'s order,
      into the running total `t`. */
  function Merge(t: Tally, f: Tally): Tally
    decreases |f|
  {
    if |f| == 0 then t else Merge(Add(t, f[0].author, f[0].count), f[1..])
  }

  /** Merging credits every author with the sum of both tallies' counts, adds the
      sums and the key sets, keeps the keys distinct and the counts positive, and
      leaves the authors already in the total where they were: new authors come
      after them. */
  lemma {:induction false} MergeCredits(t: Tally, f: Tally)
    ensures forall b :: Count(Merge(t, f), b) == Count(t, b) + Count(f, b)
    ensures Sum(Merge(t, f)) == Sum(t) + Sum(f)
    ensures Keys(Merge(t, f)) == Keys(t) + Keys(f)
    ensures DistinctKeys(t) ==> DistinctKeys(Merge(t, f))
    ensures AllPositive(t) && AllPositive(f) ==> AllPositive(Merge(t, f))
    ensures DistinctKeys(t) ==>
              |t| <= |Merge(t, f)| &&
              forall i :: 0 <= i < |t| ==> Merge(t, f)[i].author == t[i].author
    decreases |f|
  {
    if |f| > 0 {
      var t' := Add(t, f[0].author, f[0].count);
      AddCredits(t, f[0].author, f[0].count);
      AddShape(t, f[0].author, f[0].count);
      AddWellFormed(t, f[0].author, f[0].count);
      MergeCredits(t', f[1..]);
      assert DistinctKeys(t) ==>
               |t| <= |t'| && forall i :: 0 <= i < |t| ==> t'[i].author == t[i].author;
    }
  }
}
