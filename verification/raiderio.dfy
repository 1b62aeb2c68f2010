/** The parts of a Raider.io character profile that the deduplication reads. */
module RaiderIo {
  import opened Wrappers

  /** One entry of `mythic_plus_best_runs`; `score` is kept as an exact real. */
  datatype Run = Run(dungeon: string, mythicLevel: int, keystoneUpgrades: int, score: real)

  /** A character profile; `bestRuns` is `None` when the field is missing or `null`. */
  datatype Profile = Profile(name: string, realm: string, region: string, bestRuns: Option<seq<Run>>)

  /** The set of dungeon names that occur in `runs`. */
  function Dungeons(runs: seq<Run>): set<string> {
    set r | r in runs :: r.dungeon
  }

  /** No two runs share a dungeon name. */
  predicate DistinctDungeons(runs: seq<Run>) {
    forall i, j :: 0 <= i < j < |runs| ==> runs[i].dungeon != runs[j].dungeon
  }
}
