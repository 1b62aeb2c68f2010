/**
 * A stable sort into descending order of a numeric rank, as produced by
 * `Array.prototype.sort` with the comparator `(a, b) => rank[b] - rank[a]`.
 * Section 23.1.3.30 of ECMA-262 (2023 edition) requires that sort to be
 * stable, so elements of equal rank keep their original relative order.
 */
module StableSort {

  /** Every element of `s` has a rank. */
  predicate Ranked(s: seq<string>, rank: map<string, real>) {
    forall i :: 0 <= i < |s| ==> s[i] in rank
  }

  /** Ranks never increase from left to right. */
  predicate SortedDesc(s: seq<string>, rank: map<string, real>)
    requires Ranked(s, rank)
  {
    forall i, j :: 0 <= i < j < |s| ==> rank[s[i]] >= rank[s[j]]
  }

  /** The elements of `s` whose rank is exactly `v`, in their order in `s`. */
  function Ties(s: seq<string>, rank: map<string, real>, v: real): (r: seq<string>)
    requires Ranked(s, rank)
    ensures |r| <= |s|
  {
    if |s| == 0 then []
    else (if rank[s[0]] == v then [s[0]] else []) + Ties(s[1..], rank, v)
  }

  /**
   * Inserts `x` in front of the first element of `t` whose rank does not
   * exceed that of `x`; `x` stands for an element that preceded all of `t`.
   */
  function Insert(x: string, t: seq<string>, rank: map<string, real>): (r: seq<string>)
    requires x in rank && Ranked(t, rank)
    ensures Ranked(r, rank)
    ensures multiset(r) == multiset(t) + multiset{x}
    decreases |t|
  {
    if |t| == 0 || rank[x] >= rank[t[0]] then [x] + t
    else
      assert t == [t[0]] + t[1..];
      [t[0]] + Insert(x, t[1..], rank)
  }

  /** Inserting into a descending sequence keeps it descending. */
  lemma {:induction false} InsertSorted(x: string, t: seq<string>, rank: map<string, real>)
    requires x in rank && Ranked(t, rank) && SortedDesc(t, rank)
    ensures SortedDesc(Insert(x, t, rank), rank)
    decreases |t|
  {
    if |t| > 0 && rank[x] < rank[t[0]] {
      var rest := Insert(x, t[1..], rank);
      InsertSorted(x, t[1..], rank);
      assert t == [t[0]] + t[1..];
      forall k | 0 <= k < |rest|
        ensures rank[t[0]] >= rank[rest[k]]
      {
        assert rest[k] in multiset(rest);
        if rest[k] != x {
          assert rest[k] in multiset(t[1..]);
        }
      }
    }
  }

  /** The rank classes of a sequence with `a` put in front of `s`. */
  lemma TiesCons(a: string, s: seq<string>, rank: map<string, real>, v: real)
    requires a in rank && Ranked(s, rank)
    ensures Ranked([a] + s, rank)
    ensures Ties([a] + s, rank, v) == (if rank[a] == v then [a] else []) + Ties(s, rank, v)
  {
  }

  /**
   * `x` joins its rank class at the front and every other rank class is
   * untouched, which is what keeps the insertion sort stable.
   */
  lemma {:induction false} InsertTies(x: string, t: seq<string>, rank: map<string, real>, v: real)
    requires x in rank && Ranked(t, rank)
    ensures Ties(Insert(x, t, rank), rank, v) == (if rank[x] == v then [x] else []) + Ties(t, rank, v)
    decreases |t|
  {
    if |t| > 0 && rank[x] < rank[t[0]] {
      var head, rest := t[0], Insert(x, t[1..], rank);
      InsertTies(x, t[1..], rank, v);
      TiesCons(head, rest, rank, v);
      TiesCons(head, t[1..], rank, v);
      assert t == [head] + t[1..];
    } else {
      TiesCons(x, t, rank, v);
    }
  }

  /** Insertion sort into descending rank order: a stable, sorted permutation of `s`. */
  function SortDesc(s: seq<string>, rank: map<string, real>): (r: seq<string>)
    requires Ranked(s, rank)
    ensures Ranked(r, rank)
    ensures multiset(r) == multiset(s)
    ensures SortedDesc(r, rank)
    ensures forall v :: Ties(r, rank, v) == Ties(s, rank, v)
    decreases |s|
  {
    if |s| == 0 then []
    else
      var sorted := SortDesc(s[1..], rank);
      assert s == [s[0]] + s[1..];
      InsertSorted(s[0], sorted, rank);
      assert forall v :: Ties(Insert(s[0], sorted, rank), rank, v) == Ties(s, rank, v) by {
        forall v ensures Ties(Insert(s[0], sorted, rank), rank, v) == Ties(s, rank, v) {
          InsertTies(s[0], sorted, rank, v);
        }
      }
      Insert(s[0], sorted, rank)
  }

  /** An element belongs to the rank class `v` exactly when it is in `s` with rank `v`. */
  lemma {:induction false} TiesMembers(s: seq<string>, rank: map<string, real>, v: real, x: string)
    requires Ranked(s, rank)
    ensures x in Ties(s, rank, v) <==> x in s && rank[x] == v
    decreases |s|
  {
    if |s| > 0 {
      TiesMembers(s[1..], rank, v, x);
      assert s == [s[0]] + s[1..];
    }
  }

  /** Sequences with the same rank classes are empty together. */
  lemma SameClassesNonEmpty(t: seq<string>, u: seq<string>, rank: map<string, real>)
    requires Ranked(t, rank) && Ranked(u, rank)
    requires forall v :: Ties(t, rank, v) == Ties(u, rank, v)
    ensures |t| > 0 ==> |u| > 0
  {
    if |t| > 0 {
      assert |Ties(t, rank, rank[t[0]])| > 0;
      assert |Ties(u, rank, rank[t[0]])| > 0;
    }
  }

  /** Descending sequences with the same rank classes start with an element of the same rank. */
  lemma SameClassesHeadRank(t: seq<string>, u: seq<string>, rank: map<string, real>)
    requires Ranked(t, rank) && Ranked(u, rank)
    requires SortedDesc(t, rank) && SortedDesc(u, rank)
    requires forall v :: Ties(t, rank, v) == Ties(u, rank, v)
    requires |t| > 0 && |u| > 0
    ensures rank[t[0]] == rank[u[0]]
  {
    var a, b := t[0], u[0];
    TiesMembers(t, rank, rank[a], a);
    TiesMembers(u, rank, rank[a], a);
    TiesMembers(u, rank, rank[b], b);
    TiesMembers(t, rank, rank[b], b);
    assert Ties(t, rank, rank[a]) == Ties(u, rank, rank[a]);
    assert Ties(t, rank, rank[b]) == Ties(u, rank, rank[b]);
  }

  /**
   * Descending sequences with the same rank classes have the same head, and
   * their tails again have the same rank classes.
   */
  lemma SameClassesHeadTail(t: seq<string>, u: seq<string>, rank: map<string, real>)
    requires Ranked(t, rank) && Ranked(u, rank)
    requires SortedDesc(t, rank) && SortedDesc(u, rank)
    requires forall v :: Ties(t, rank, v) == Ties(u, rank, v)
    requires |t| > 0 && |u| > 0
    ensures t[0] == u[0]
    ensures forall v :: Ties(t[1..], rank, v) == Ties(u[1..], rank, v)
  {
    SameClassesHeadRank(t, u, rank);
    var a, b, v0 := t[0], u[0], rank[t[0]];
    assert Ties(t, rank, v0) == [a] + Ties(t[1..], rank, v0);
    assert Ties(u, rank, v0) == [b] + Ties(u[1..], rank, v0);
    assert Ties(t, rank, v0) == Ties(u, rank, v0);
    assert a == Ties(t, rank, v0)[0] == b;
    forall v
      ensures Ties(t[1..], rank, v) == Ties(u[1..], rank, v)
    {
      var head := if v == v0 then [a] else [];
      assert Ties(t, rank, v) == head + Ties(t[1..], rank, v);
      assert Ties(u, rank, v) == head + Ties(u[1..], rank, v);
      assert Ties(t, rank, v) == Ties(u, rank, v);
      assert Ties(t[1..], rank, v) == Ties(t, rank, v)[|head|..];
      assert Ties(u[1..], rank, v) == Ties(u, rank, v)[|head|..];
    }
  }

  /** Two descending sequences with the same rank classes, in the same order, are equal. */
  lemma {:induction false} SortedTiesDetermine(t: seq<string>, u: seq<string>, rank: map<string, real>)
    requires Ranked(t, rank) && Ranked(u, rank)
    requires SortedDesc(t, rank) && SortedDesc(u, rank)
    requires forall v :: Ties(t, rank, v) == Ties(u, rank, v)
    ensures t == u
    decreases |t|
  {
    SameClassesNonEmpty(t, u, rank);
    SameClassesNonEmpty(u, t, rank);
    if |t| > 0 {
      SameClassesHeadTail(t, u, rank);
      SortedTiesDetermine(t[1..], u[1..], rank);
      assert t == [t[0]] + t[1..] && u == [u[0]] + u[1..];
    }
  }

  /**
   * Sortedness and stability pin the result down: any sequence that is
   * descending and keeps every rank class of `s` in order is `SortDesc(s)`.
   */
  lemma SortDescUnique(s: seq<string>, rank: map<string, real>, t: seq<string>)
    requires Ranked(s, rank) && Ranked(t, rank)
    requires SortedDesc(t, rank)
    requires forall v :: Ties(t, rank, v) == Ties(s, rank, v)
    ensures t == SortDesc(s, rank)
  {
    SortedTiesDetermine(t, SortDesc(s, rank), rank);
  }
}
