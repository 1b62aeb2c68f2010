/**
 * The comparison table of the score page: one column per dungeon of the
 * first character, each column's average over all characters, and the
 * columns ordered by descending average.
 */
module ScoreTable {
  import opened OrderedMaps
  import opened StableSort

  /** One row: a character and its score per dungeon, keys in enumeration order. */
  datatype CharacterScore = CharacterScore(realm: string, name: string, scores: OrderedMap<real>)

  /** What the table derives from its rows: the column order and each column's average. */
  datatype Summary = Summary(sortedDungeons: seq<string>, averages: map<string, real>)

  /** Every character has a score for dungeon `d`. */
  predicate HasDungeon(chars: seq<CharacterScore>, d: string) {
    forall i :: 0 <= i < |chars| ==> d in chars[i].scores.entries
  }

  /**
   * Every character has a score for every dungeon of the first character, so
   * that no average reads a missing score.
   */
  ghost predicate Columnar(chars: seq<CharacterScore>) {
    |chars| == 0 ||
    (chars[0].scores.Valid() &&
     forall d :: d in chars[0].scores.keys ==> HasDungeon(chars, d))
  }

  /** The sum of all characters' scores for `d`, accumulated from the left starting at 0. */
  function Sum(chars: seq<CharacterScore>, d: string): (s: real)
    requires HasDungeon(chars, d)
    ensures |chars| == 0 ==> s == 0.0
    decreases |chars|
  {
    if |chars| == 0 then 0.0
    else Sum(chars[..|chars| - 1], d) + chars[|chars| - 1].scores.entries[d]
  }

  /** Each column's average: its sum over all characters divided by the number of characters. */
  function ColumnAverages(chars: seq<CharacterScore>): (avg: map<string, real>)
    requires Columnar(chars)
    ensures |chars| == 0 ==> avg == map[]
    ensures |chars| > 0 ==> forall d :: d in avg <==> d in chars[0].scores.keys
    ensures forall d :: d in avg ==> HasDungeon(chars, d) && avg[d] == Sum(chars, d) / (|chars| as real)
  {
    if |chars| == 0 then map[]
    else map d | d in chars[0].scores.keys :: Sum(chars, d) / (|chars| as real)
  }

  /** The `useMemo` derivation of the table's columns and averages. */
  function Summarize(chars: seq<CharacterScore>): (r: Summary)
    requires Columnar(chars)
    ensures r.averages == ColumnAverages(chars)
    ensures |chars| == 0 ==> r.sortedDungeons == []
    ensures |chars| > 0 ==> multiset(r.sortedDungeons) == multiset(chars[0].scores.keys)
    ensures forall d :: d in r.averages <==> d in r.sortedDungeons
    ensures Ranked(r.sortedDungeons, r.averages) && SortedDesc(r.sortedDungeons, r.averages)
    ensures |chars| > 0 ==>
      Ranked(chars[0].scores.keys, r.averages) &&
      forall v :: Ties(r.sortedDungeons, r.averages, v) == Ties(chars[0].scores.keys, r.averages, v)
  {
    if |chars| == 0 then Summary([], map[])
    else
      var dungeons := chars[0].scores.keys;
      var averages := ColumnAverages(chars);
      var sorted := SortDesc(dungeons, averages);
      assert forall d :: d in averages <==> d in sorted by {
        forall d
          ensures d in sorted <==> d in dungeons
        {
          assert d in sorted <==> d in multiset(sorted);
          assert d in dungeons <==> d in multiset(dungeons);
        }
      }
      Summary(sorted, averages)
  }

  /**
   * The column order is forced: any sequence that is descending by average and
   * keeps the first character's key order among equal averages, as every
   * conforming `Array.prototype.sort` must produce, is the model's order.
   */
  lemma ColumnOrderForced(chars: seq<CharacterScore>, t: seq<string>)
    requires Columnar(chars) && |chars| > 0
    requires Ranked(t, ColumnAverages(chars)) && SortedDesc(t, ColumnAverages(chars))
    requires Ranked(chars[0].scores.keys, ColumnAverages(chars))
    requires forall v :: Ties(t, ColumnAverages(chars), v) == Ties(chars[0].scores.keys, ColumnAverages(chars), v)
    ensures t == Summarize(chars).sortedDungeons
  {
    var r := Summarize(chars);
    SortedTiesDetermine(t, r.sortedDungeons, r.averages);
  }

  /** A sequence without repetitions holds each element at most once. */
  lemma {:induction false} DistinctCount(s: seq<string>, x: string)
    requires forall i, j :: 0 <= i < j < |s| ==> s[i] != s[j]
    ensures multiset(s)[x] <= 1
    decreases |s|
  {
    if |s| > 0 {
      DistinctCount(s[1..], x);
      assert s == [s[0]] + s[1..];
      if s[0] == x {
        assert x !in s[1..];
      }
    }
  }

  /** A permutation of a sequence without repetitions has none either. */
  lemma PermutationDistinct(a: seq<string>, b: seq<string>)
    requires forall i, j :: 0 <= i < j < |a| ==> a[i] != a[j]
    requires multiset(a) == multiset(b)
    ensures forall i, j :: 0 <= i < j < |b| ==> b[i] != b[j]
  {
    forall i, j | 0 <= i < j < |b|
      ensures b[i] != b[j]
    {
      if b[i] == b[j] {
        var x := b[i];
        assert b == b[..i] + [x] + b[i + 1..j] + [x] + b[j + 1..];
        assert multiset(b)[x] >= 2;
        DistinctCount(a, x);
      }
    }
  }

  /** Each dungeon column appears exactly once. */
  lemma ColumnsDistinct(chars: seq<CharacterScore>)
    requires Columnar(chars)
    ensures forall i, j :: 0 <= i < j < |Summarize(chars).sortedDungeons| ==>
      Summarize(chars).sortedDungeons[i] != Summarize(chars).sortedDungeons[j]
  {
    if |chars| > 0 {
      PermutationDistinct(chars[0].scores.keys, Summarize(chars).sortedDungeons);
    }
  }

  /** Appending a row adds exactly that row's score to the column's sum. */
  lemma SumAppend(chars: seq<CharacterScore>, c: CharacterScore, d: string)
    requires HasDungeon(chars, d) && d in c.scores.entries
    ensures HasDungeon(chars + [c], d)
    ensures Sum(chars + [c], d) == Sum(chars, d) + c.scores.entries[d]
  {
  }

  /** Scores for `d` that all lie in `[lo, hi]` sum to between `n * lo` and `n * hi`. */
  lemma {:induction false} SumBounds(chars: seq<CharacterScore>, d: string, lo: real, hi: real)
    requires HasDungeon(chars, d)
    requires forall i :: 0 <= i < |chars| ==> lo <= chars[i].scores.entries[d] <= hi
    ensures (|chars| as real) * lo <= Sum(chars, d) <= (|chars| as real) * hi
    decreases |chars|
  {
    if |chars| > 0 {
      var n := |chars|;
      SumBounds(chars[..n - 1], d, lo, hi);
      assert (n as real) * lo == ((n - 1) as real) * lo + lo;
      assert (n as real) * hi == ((n - 1) as real) * hi + hi;
    }
  }

  /** A column's average lies between the lowest and highest score in that column. */
  lemma AverageWithinScores(chars: seq<CharacterScore>, d: string, lo: real, hi: real)
    requires Columnar(chars) && |chars| > 0 && d in chars[0].scores.keys
    requires forall i :: 0 <= i < |chars| ==> lo <= chars[i].scores.entries[d] <= hi
    ensures d in ColumnAverages(chars)
    ensures lo <= ColumnAverages(chars)[d] <= hi
  {
    SumBounds(chars, d, lo, hi);
    QuotientBounds(Sum(chars, d), |chars| as real, lo, hi);
  }

  /** Dividing `n * lo <= x <= n * hi` by a positive `n`. */
  lemma QuotientBounds(x: real, n: real, lo: real, hi: real)
    requires n > 0.0 && n * lo <= x <= n * hi
    ensures lo <= x / n <= hi
  {
    assert x / n * n == x;
  }

  /** With one character, each column's average is that character's score. */
  lemma SingleCharacterAverages(c: CharacterScore)
    requires c.scores.Valid()
    ensures forall d :: d in c.scores.keys ==> ColumnAverages([c])[d] == c.scores.entries[d]
  {
  }

  /**
   * Appending a row turns a column's average `a` over `n` rows into
   * `(n * a + x) / (n + 1)`, where `x` is the new row's score.
   */
  lemma AverageAfterAppend(chars: seq<CharacterScore>, c: CharacterScore, d: string)
    requires Columnar(chars) && |chars| > 0 && Columnar(chars + [c])
    requires d in chars[0].scores.keys && d in c.scores.entries
    ensures d in ColumnAverages(chars) && d in ColumnAverages(chars + [c])
    ensures ColumnAverages(chars + [c])[d] ==
      ((|chars| as real) * ColumnAverages(chars)[d] + c.scores.entries[d]) / ((|chars| + 1) as real)
  {
    var grown := chars + [c];
    var total, x := Sum(chars, d), c.scores.entries[d];
    var before, after := ColumnAverages(chars)[d], ColumnAverages(grown)[d];
    RunningAverage(total, x, |chars|, before, after);
  }

  /** Folding one more value `x` into the mean of `n` values whose sum is `total`. */
  lemma RunningAverage(total: real, x: real, n: nat, before: real, after: real)
    requires n > 0
    requires before == total / (n as real) && after == (total + x) / ((n + 1) as real)
    ensures after == ((n as real) * before + x) / ((n + 1) as real)
  {
    assert (n as real) * (total / (n as real)) == total;
  }
}
