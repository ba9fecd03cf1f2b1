/**
 * The dashboard hub's data load (frontend/src/pages/DashboardHubPage.jsx): the batches
 * the history endpoint returns are folded into three counters, and the first three
 * batches, in the order received, become the recent jobs.
 */
module Dashboard {
  import opened Wrappers
  import opened JobBatchSchema
  import Sorting
  import Matching

  datatype Stats = Stats(totalJobs: nat, totalCandidates: nat, approvedCandidates: nat)

  datatype DashboardData = DashboardData(stats: Stats, recentJobs: seq<JobBatch>)

  /** What the page shows before the data arrives, and keeps when the request fails. */
  const InitialData: DashboardData := DashboardData(Stats(0, 0, 0), [])

  /** How many batches the recent-jobs list keeps. */
  const RecentCount: nat := 3

  /** The number of candidates over all batches. */
  function CandidateCount(bs: seq<JobBatch>): nat
  {
    if bs == [] then 0
    else CandidateCount(bs[..|bs| - 1]) + |bs[|bs| - 1].rankedCandidates|
  }

  /** The number of approved candidates in `cs`. */
  function ApprovedIn(cs: seq<Candidate>): nat
  {
    if cs == [] then 0
    else ApprovedIn(cs[..|cs| - 1]) + (if cs[|cs| - 1].status == Approved then 1 else 0)
  }

  /** The number of approved candidates over all batches. */
  function ApprovedCount(bs: seq<JobBatch>): nat
  {
    if bs == [] then 0
    else ApprovedCount(bs[..|bs| - 1]) + ApprovedIn(bs[|bs| - 1].rankedCandidates)
  }

  function Min(a: nat, b: nat): nat
  {
    if a <= b then a else b
  }

  lemma {:induction false} ApprovedInAtMostLength(cs: seq<Candidate>)
    ensures ApprovedIn(cs) <= |cs|
    decreases |cs|
  {
    if cs != [] {
      ApprovedInAtMostLength(cs[..|cs| - 1]);
    }
  }

  /** The approved counter never exceeds the candidate counter. */
  lemma {:induction false} ApprovedAtMostTotal(bs: seq<JobBatch>)
    ensures ApprovedCount(bs) <= CandidateCount(bs)
    decreases |bs|
  {
    if bs != [] {
      ApprovedAtMostTotal(bs[..|bs| - 1]);
      ApprovedInAtMostLength(bs[|bs| - 1].rankedCandidates);
    }
  }

  lemma {:induction false} ApprovedInZero(cs: seq<Candidate>)
    ensures ApprovedIn(cs) == 0 <==> forall j :: 0 <= j < |cs| ==> cs[j].status != Approved
    decreases |cs|
  {
    if cs != [] {
      ApprovedInZero(cs[..|cs| - 1]);
      assert forall j :: 0 <= j < |cs| - 1 ==> cs[..|cs| - 1][j] == cs[j];
    }
  }

  /** The approved counter is zero exactly when no candidate of any batch is approved. */
  lemma {:induction false} ApprovedCountZero(bs: seq<JobBatch>)
    ensures ApprovedCount(bs) == 0 <==>
      forall i, j :: 0 <= i < |bs| && 0 <= j < |bs[i].rankedCandidates| ==> bs[i].rankedCandidates[j].status != Approved
    decreases |bs|
  {
    if bs != [] {
      var n := |bs| - 1;
      ApprovedCountZero(bs[..n]);
      ApprovedInZero(bs[n].rankedCandidates);
      assert forall i :: 0 <= i < n ==> bs[..n][i] == bs[i];
    }
  }

  /** A dashboard showing no approved candidate means the matching route boosts no skill. */
  lemma NoApprovedNoValidatedSkills(bs: seq<JobBatch>)
    requires ApprovedCount(bs) == 0
    ensures Matching.ValidatedSkills(bs) == {}
  {
    ApprovedCountZero(bs);
    forall s
      ensures s !in Matching.ValidatedSkills(bs)
    {
      Matching.ValidatedSkillsMembership(bs, s);
    }
  }

  /**
   * When the list arrives newest first, as the history endpoint sends it, the recent jobs
   * are the newest ones: none of the others is more recent.
   */
  lemma RecentAreNewest(bs: seq<JobBatch>)
    requires Sorting.SortedDesc(bs, AnalysisDate)
    ensures var recent := bs[..Min(RecentCount, |bs|)];
      forall i, j :: 0 <= i < |recent| <= j < |bs| ==> recent[i].analysisDate >= bs[j].analysisDate
  {
  }

  /**
   * fetchDashboardData: on a failed request the counters stay zero and the list empty;
   * otherwise the counters are the number of batches, of candidates and of approved
   * candidates, and the recent jobs are the first three batches as received.
   */
  method LoadDashboard(fetched: Option<seq<JobBatch>>) returns (data: DashboardData)
    ensures fetched.None? ==> data == InitialData
    ensures fetched.Some? ==>
      data.stats == Stats(|fetched.value|, CandidateCount(fetched.value), ApprovedCount(fetched.value))
    ensures fetched.Some? ==> data.recentJobs == fetched.value[..Min(RecentCount, |fetched.value|)]
  {
    data := InitialData;
    if fetched.None? {
      return;
    }
    var jobBatches := fetched.value;
    var totalCandidates: nat := 0;
    var approvedCandidates: nat := 0;
    for i := 0 to |jobBatches|
      invariant totalCandidates == CandidateCount(jobBatches[..i])
      invariant approvedCandidates == ApprovedCount(jobBatches[..i])
    {
      assert jobBatches[..i + 1][..i] == jobBatches[..i];
      var candidates := jobBatches[i].rankedCandidates;
      totalCandidates := totalCandidates + |candidates|;
      for j := 0 to |candidates|
        invariant approvedCandidates == ApprovedCount(jobBatches[..i]) + ApprovedIn(candidates[..j])
      {
        assert candidates[..j + 1][..j] == candidates[..j];
        if candidates[j].status == Approved {
          approvedCandidates := approvedCandidates + 1;
        }
      }
      assert candidates[..|candidates|] == candidates;
    }
    assert jobBatches[..|jobBatches|] == jobBatches;
    data := DashboardData(Stats(|jobBatches|, totalCandidates, approvedCandidates),
                          jobBatches[..Min(RecentCount, |jobBatches|)]);
  }
}
