/** The concurrent inspection computes the set of paths that factoring moves. */
module PoolInspection {
  import opened FileTree
  import opened PoolFactoring
  import Scheduler = DigestScheduler

  /** Present in every pool with the same size and mode: worth digesting. */
  predicate Comparable(pools: seq<Tree>, p: Path)
    requires |pools| > 0
  {
    && (forall i :: 0 <= i < |pools| ==> IsFile(pools[i], p))
    && (forall i :: 0 <= i < |pools| ==> SameStat(pools[0][p], pools[i][p]))
  }

  predicate DigestsAgree(pools: seq<Tree>, sha: Digest, p: Path)
    requires |pools| > 0
  {
    && Comparable(pools, p)
    && forall i :: 0 <= i < |pools| ==> sha(pools[i][p].bytes) == sha(pools[0][p].bytes)
  }

  function JobOf(pools: seq<Tree>, sha: Digest, relatives: seq<Path>): Scheduler.Job
    requires |pools| > 0
  {
    Scheduler.Job(
      |pools|,
      seq(|relatives|, k requires 0 <= k < |relatives| => Comparable(pools, relatives[k])),
      seq(|relatives|, k requires 0 <= k < |relatives| => DigestsAgree(pools, sha, relatives[k])))
  }

  /** Whatever the schedule, the workers end with exactly the paths to be moved. */
  lemma InspectionFindsSharedPaths(
      pools: seq<Tree>, sha: Digest, relatives: seq<Path>, run: seq<Scheduler.State>)
    requires |pools| > 0
    requires forall p :: p in relatives <==> IsFile(pools[0], p)
    requires Scheduler.IsRun(JobOf(pools, sha, relatives), run)
    requires Scheduler.Stuck(JobOf(pools, sha, relatives), run[|run| - 1])
    ensures var shared := run[|run| - 1].shared;
            && (forall k :: k in shared ==> k < |relatives|)
            && forall p :: p in SharedPaths(pools, sha) <==> exists k :: k in shared && relatives[k] == p
  {
    var job := JobOf(pools, sha, relatives);
    var shared := run[|run| - 1].shared;
    Scheduler.EveryMaximalRunFindsTheSharedPaths(job, run);
    assert forall k :: k in shared <==> k in Scheduler.AgreeingPaths(job);
    hide Scheduler.IsRun, Scheduler.Stuck;
    forall p ensures p in SharedPaths(pools, sha) <==> exists k :: k in shared && relatives[k] == p {
      if p in SharedPaths(pools, sha) {
        assert IsFile(pools[0], p);
        var k :| 0 <= k < |relatives| && relatives[k] == p;
        assert k in Scheduler.AgreeingPaths(job);
      }
    }
  }
}
