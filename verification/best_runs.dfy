/**
 * Deduplication of a character's best runs: at most one run per dungeon, the
 * one with the strictly highest score, in the order each dungeon first appears.
 */
module BestRuns {
  import opened Wrappers
  import opened OrderedMaps
  import opened RaiderIo

  type RunMap = OrderedMap<Run>

  /** One step of the reduce: store `run` when its dungeon is new or it beats the stored run. */
  function Absorb(acc: RunMap, run: Run): (r: RunMap)
    ensures acc.Valid() ==> r.Valid()
    ensures run.dungeon in acc.entries ==> r.keys == acc.keys
    ensures run.dungeon !in acc.entries ==> r.keys == acc.keys + [run.dungeon]
    ensures r.entries == if run.dungeon !in acc.entries || run.score > acc.entries[run.dungeon].score
                         then acc.entries[run.dungeon := run] else acc.entries
    ensures run.dungeon in r.entries && run.score <= r.entries[run.dungeon].score
    ensures forall d :: d in acc.entries ==> d in r.entries && acc.entries[d].score <= r.entries[d].score
  {
    match Get(acc, run.dungeon)
    case None => Set(acc, run.dungeon, run)
    case Some(existing) => if run.score > existing.score then Set(acc, run.dungeon, run) else acc
  }

  /** The `Map` after the reduce has consumed `runs` from left to right. */
  function Reduce(runs: seq<Run>): (m: RunMap)
    ensures forall i :: 0 <= i < |runs| ==> runs[i].dungeon in m.entries
    ensures forall d :: d in m.entries ==> m.entries[d].dungeon == d && m.entries[d] in runs
    decreases |runs|
  {
    if |runs| == 0 then Empty()
    else
      var prefix := runs[..|runs| - 1];
      assert runs == prefix + [runs[|runs| - 1]];
      Absorb(Reduce(prefix), runs[|runs| - 1])
  }

  /** The reduce keeps its `Map` well formed: each key listed once, exactly the stored keys listed. */
  lemma {:induction false} ReduceValid(runs: seq<Run>)
    ensures Reduce(runs).Valid()
    decreases |runs|
  {
    if |runs| > 0 {
      ReduceValid(runs[..|runs| - 1]);
    }
  }

  /** The deduplicated run list. */
  function Dedup(runs: seq<Run>): (r: seq<Run>)
    ensures DistinctDungeons(r)
    ensures Dungeons(r) == Dungeons(runs)
    ensures forall i :: 0 <= i < |r| ==> r[i] in runs
  {
    ReduceValid(runs);
    var m := Reduce(runs);
    var r := Values(m);
    assert forall i :: 0 <= i < |r| ==> r[i].dungeon == m.keys[i];
    assert Dungeons(r) == Dungeons(runs) by {
      forall d | d in Dungeons(runs) ensures d in Dungeons(r) {
        var x :| x in runs && x.dungeon == d;
        var k :| 0 <= k < |m.keys| && m.keys[k] == d;
        assert r[k].dungeon == d;
      }
      forall d | d in Dungeons(r) ensures d in Dungeons(runs) {
        var x :| x in r && x.dungeon == d;
        assert x in runs;
      }
    }
    r
  }

  /** The profile as returned after the fetch: the run list replaced by its deduplication. */
  function DedupProfile(p: Profile): (q: Profile)
    ensures q.name == p.name && q.realm == p.realm && q.region == p.region
    ensures q.bestRuns.Some?
    ensures p.bestRuns.None? ==> q.bestRuns.value == []
    ensures p.bestRuns.Some? ==> Dungeons(q.bestRuns.value) == Dungeons(p.bestRuns.value)
    ensures DistinctDungeons(q.bestRuns.value)
    ensures forall i :: 0 <= i < |q.bestRuns.value| ==> p.bestRuns.Some? && q.bestRuns.value[i] in p.bestRuns.value
    ensures q.bestRuns.value == Dedup(p.bestRuns.GetOr([]))
  {
    p.(bestRuns := Some(Dedup(p.bestRuns.GetOr([]))))
  }

  /**
   * Absorbing a run into a dungeon already stored: its stored score never
   * drops, and the stored run only changes for a strictly higher score.
   */
  lemma AbsorbStored(acc: RunMap, run: Run, d: string)
    requires d in acc.entries
    ensures d in Absorb(acc, run).entries
    ensures acc.entries[d].score <= Absorb(acc, run).entries[d].score
    ensures Absorb(acc, run).entries[d].score <= acc.entries[d].score ==>
      Absorb(acc, run).entries[d] == acc.entries[d]
  {
    var r := Absorb(acc, run);
    if d != run.dungeon {
      assert r.entries[d] == acc.entries[d];
    } else if run.score > acc.entries[d].score {
      assert r.entries[d] == run;
    }
  }

  /** The same fact for one step of the reduce. */
  lemma ReduceStepStored(runs: seq<Run>, d: string)
    requires |runs| > 0 && d in Reduce(runs[..|runs| - 1]).entries
    ensures d in Reduce(runs).entries
    ensures Reduce(runs[..|runs| - 1]).entries[d].score <= Reduce(runs).entries[d].score
    ensures Reduce(runs).entries[d].score <= Reduce(runs[..|runs| - 1]).entries[d].score ==>
      Reduce(runs).entries[d] == Reduce(runs[..|runs| - 1]).entries[d]
  {
    AbsorbStored(Reduce(runs[..|runs| - 1]), runs[|runs| - 1], d);
  }

  /** The last run of the input is stored or beaten by the stored run of its dungeon. */
  lemma ReduceStepLast(runs: seq<Run>)
    requires |runs| > 0
    ensures runs[|runs| - 1].dungeon in Reduce(runs).entries
    ensures runs[|runs| - 1].score <= Reduce(runs).entries[runs[|runs| - 1].dungeon].score
  {
  }

  /** The run at position `j` scores at most as much as the run stored for its dungeon. */
  lemma {:induction false} ReduceKeepsHighest(runs: seq<Run>, j: nat)
    requires j < |runs|
    ensures runs[j].score <= Reduce(runs).entries[runs[j].dungeon].score
  {
    var n := |runs|;
    if j < n - 1 {
      var prefix := runs[..n - 1];
      assert runs[j] == prefix[j];
      ReduceKeepsHighest(prefix, j);
      ReduceStepStored(runs, runs[j].dungeon);
    } else {
      ReduceStepLast(runs);
    }
  }

  /**
   * The strict comparison keeps the first of equally scored runs: a run that
   * ties with the stored one for its dungeon is preceded by (or is) the stored run.
   */
  lemma {:induction false} ReduceKeepsFirstOnTie(runs: seq<Run>, j: nat)
    requires j < |runs| && runs[j].score == Reduce(runs).entries[runs[j].dungeon].score
    ensures Reduce(runs).entries[runs[j].dungeon] in runs[..j + 1]
  {
    var n := |runs|;
    if j < n - 1 {
      var prefix := runs[..n - 1];
      assert runs[j] == prefix[j];
      assert runs[..j + 1] == prefix[..j + 1];
      ReduceKeepsHighest(prefix, j);
      ReduceStepStored(runs, runs[j].dungeon);
      ReduceKeepsFirstOnTie(prefix, j);
    } else {
      assert runs[..j + 1] == runs;
    }
  }

  /**
   * Keys are stored in order of first appearance: a key stored before another
   * already occurs in the input before any occurrence of the later one.
   */
  lemma {:induction false} ReduceFirstOccurrenceOrder(runs: seq<Run>, i: nat, j: nat, q: nat)
    requires i < j < |Reduce(runs).keys| && q < |runs| && runs[q].dungeon == Reduce(runs).keys[j]
    ensures Reduce(runs).keys[i] in Dungeons(runs[..q])
    decreases |runs|, 1
  {
    if q < |runs| - 1 {
      OrderBeforeLast(runs, i, j, q);
    } else {
      OrderAtLast(runs, i, j);
    }
  }

  /** The order property for an occurrence before the last run: it already held for the prefix. */
  lemma {:induction false} OrderBeforeLast(runs: seq<Run>, i: nat, j: nat, q: nat)
    requires i < j < |Reduce(runs).keys| && q < |runs| - 1 && runs[q].dungeon == Reduce(runs).keys[j]
    ensures Reduce(runs).keys[i] in Dungeons(runs[..q])
    decreases |runs|, 0
  {
    var n := |runs|;
    var prefix := runs[..n - 1];
    var m, m' := Reduce(runs), Reduce(prefix);
    assert runs[q] == prefix[q];
    assert prefix[q].dungeon in m'.entries;
    assert j < |m'.keys|;
    assert m.keys[i] == m'.keys[i] && m.keys[j] == m'.keys[j];
    assert runs[..q] == prefix[..q];
    ReduceFirstOccurrenceOrder(prefix, i, j, q);
  }

  /** The order property for the last run: every key stored before it came from an earlier run. */
  lemma {:induction false} OrderAtLast(runs: seq<Run>, i: nat, j: nat)
    requires i < j < |Reduce(runs).keys| && |runs| > 0
    ensures Reduce(runs).keys[i] in Dungeons(runs[..|runs| - 1])
  {
    var n := |runs|;
    var prefix := runs[..n - 1];
    var m, m' := Reduce(runs), Reduce(prefix);
    ReduceValid(prefix);
    assert m.keys[i] == m'.keys[i];
    var k := m'.keys[i];
    assert k in m'.entries;
    assert m'.entries[k] in prefix;
  }

  /** Each kept run scores at least as much as every input run for its dungeon. */
  lemma DedupKeepsHighest(runs: seq<Run>)
    ensures forall i, j :: 0 <= i < |Dedup(runs)| && 0 <= j < |runs| && runs[j].dungeon == Dedup(runs)[i].dungeon ==>
      runs[j].score <= Dedup(runs)[i].score
  {
    ReduceValid(runs);
    var m := Reduce(runs);
    forall i, j | 0 <= i < |Dedup(runs)| && 0 <= j < |runs| && runs[j].dungeon == Dedup(runs)[i].dungeon
      ensures runs[j].score <= Dedup(runs)[i].score
    {
      assert Dedup(runs)[i] == m.entries[m.keys[i]];
      ReduceKeepsHighest(runs, j);
    }
  }

  /** Among equally scored runs of one dungeon, the earliest is the one kept. */
  lemma DedupKeepsFirstOnTie(runs: seq<Run>)
    ensures forall i, j :: 0 <= i < |Dedup(runs)| && 0 <= j < |runs| && runs[j].dungeon == Dedup(runs)[i].dungeon
                           && runs[j].score == Dedup(runs)[i].score ==>
      Dedup(runs)[i] in runs[..j + 1]
  {
    ReduceValid(runs);
    var m := Reduce(runs);
    forall i, j | 0 <= i < |Dedup(runs)| && 0 <= j < |runs| && runs[j].dungeon == Dedup(runs)[i].dungeon
                  && runs[j].score == Dedup(runs)[i].score
      ensures Dedup(runs)[i] in runs[..j + 1]
    {
      assert Dedup(runs)[i] == m.entries[m.keys[i]];
      ReduceKeepsFirstOnTie(runs, j);
    }
  }

  /**
   * The output follows first-occurrence order: the dungeon of an earlier output
   * run occurs in the input before every run of a later output dungeon.
   */
  lemma DedupFirstOccurrenceOrder(runs: seq<Run>)
    ensures forall i, j, q :: 0 <= i < j < |Dedup(runs)| && 0 <= q < |runs| && runs[q].dungeon == Dedup(runs)[j].dungeon ==>
      Dedup(runs)[i].dungeon in Dungeons(runs[..q])
  {
    ReduceValid(runs);
    var m := Reduce(runs);
    forall i, j, q | 0 <= i < j < |Dedup(runs)| && 0 <= q < |runs| && runs[q].dungeon == Dedup(runs)[j].dungeon
      ensures Dedup(runs)[i].dungeon in Dungeons(runs[..q])
    {
      assert Dedup(runs)[i].dungeon == m.keys[i] && Dedup(runs)[j].dungeon == m.keys[j];
      ReduceFirstOccurrenceOrder(runs, i, j, q);
    }
  }

  /** Without duplicate dungeons, the reduce stores every run under its own dungeon, in input order. */
  lemma {:induction false} ReduceOfDistinct(runs: seq<Run>)
    requires DistinctDungeons(runs)
    ensures |Reduce(runs).keys| == |runs|
    ensures forall i :: 0 <= i < |runs| ==>
      Reduce(runs).keys[i] == runs[i].dungeon && Reduce(runs).entries[runs[i].dungeon] == runs[i]
  {
    if |runs| > 0 {
      var n := |runs|;
      var prefix, last := runs[..n - 1], runs[n - 1];
      ReduceOfDistinct(prefix);
      var m, m' := Reduce(runs), Reduce(prefix);
      assert last.dungeon !in m'.entries;
      forall i | 0 <= i < n
        ensures m.keys[i] == runs[i].dungeon && m.entries[runs[i].dungeon] == runs[i]
      {
        if i < n - 1 {
          assert runs[i] == prefix[i];
        }
      }
    }
  }

  /** A run list that is already free of duplicate dungeons is returned unchanged. */
  lemma DedupOfDistinct(runs: seq<Run>)
    requires DistinctDungeons(runs)
    ensures Dedup(runs) == runs
  {
    ReduceOfDistinct(runs);
  }

  /** Deduplicating twice is the same as deduplicating once. */
  lemma DedupIdempotent(runs: seq<Run>)
    ensures Dedup(Dedup(runs)) == Dedup(runs)
  {
    DedupOfDistinct(Dedup(runs));
  }

  /** Running the fetch's post-processing on a profile it already returned changes nothing. */
  lemma DedupProfileIdempotent(p: Profile)
    ensures DedupProfile(DedupProfile(p)) == DedupProfile(p)
  {
    DedupIdempotent(p.bestRuns.GetOr([]));
  }
}
