/**
 * The matching route (backend/routes/api/match.js): request checks, the recruiter's
 * validated skills gathered from the candidates they approved, one scorer call per
 * uploaded file in upload order with silent skips, and the stable sort by score.
 *
 * PDF text extraction and the HTTP call to the scorer are oracles: `extract` gives a
 * file's text or a parse failure, `scorer` gives the scorer's reply to one request body.
 */
module Matching {
  import opened Wrappers
  import opened JobBatchSchema
  import Jobs
  import Scoring
  import Sorting

  /** An uploaded file; its bytes are only ever handed to the text extractor. */
  datatype UploadedFile = UploadedFile(originalName: string, buffer: seq<bv8>)

  /** What the PDF parser gives back: the text, or an exception. */
  datatype Extraction = Text(text: string) | ParseFailure

  /**
   * What the HTTP call to the scorer gives back: an ok response with its analysis, a
   * response whose status is not ok, or an exception (connection error, the 180 s
   * timeout, a body that is not JSON).
   */
  datatype ScorerReply = Replied(analysis: Scoring.Analysis) | ErrorStatus | TransportFailure

  /** One entry of the response: the file's original name followed by the scorer's fields. */
  datatype RankedResult = RankedResult(fileName: string, analysis: Scoring.Analysis)

  /** How one file ends: skipped for empty text, dropped on any failure, or scored. */
  datatype Outcome = Empty | Failed | Scored(result: RankedResult)

  datatype MatchResponse = NoResumeFiles | NoJobDescription | Ranked(results: seq<RankedResult>)

  function HttpStatus(r: MatchResponse): int
  {
    match r
    case NoResumeFiles => 400
    case NoJobDescription => 400
    case Ranked(_) => 200
  }

  /** The sort key of the response. */
  function MatchScore(r: RankedResult): int
  {
    r.analysis.matchScore
  }

  // ----- validated skills -----

  /** Candidate `c` endorses skill `s`: it was approved and `s` is among its matched skills. */
  predicate Endorses(c: Candidate, s: string)
  {
    c.status == Approved && s in c.matchedSkills
  }

  function SkillSet(skills: seq<string>): set<string>
  {
    set s | s in skills
  }

  /** The union of matched skills over the approved candidates of `cs`. */
  function ApprovedSkills(cs: seq<Candidate>): set<string>
  {
    if cs == [] then {}
    else
      var c := cs[|cs| - 1];
      ApprovedSkills(cs[..|cs| - 1]) + (if c.status == Approved then SkillSet(c.matchedSkills) else {})
  }

  /** The union of ApprovedSkills over the batches `bs`. */
  function ValidatedSkills(bs: seq<JobBatch>): set<string>
  {
    if bs == [] then {}
    else ValidatedSkills(bs[..|bs| - 1]) + ApprovedSkills(bs[|bs| - 1].rankedCandidates)
  }

  /** The validated skills of `user` in a store: every skill endorsed by a candidate of one of their batches. */
  ghost function ValidatedSkillsOf(batches: map<BatchId, JobBatch>, user: UserId): set<string>
  {
    set k, j, s |
      && k in batches
      && batches[k].user == user
      && 0 <= j < |batches[k].rankedCandidates|
      && s in batches[k].rankedCandidates[j].matchedSkills
      && Endorses(batches[k].rankedCandidates[j], s)
      :: s
  }

  lemma {:induction false} ApprovedSkillsMembership(cs: seq<Candidate>, s: string)
    ensures s in ApprovedSkills(cs) <==> exists j :: 0 <= j < |cs| && Endorses(cs[j], s)
    decreases |cs|
  {
    if cs != [] {
      var cs' := cs[..|cs| - 1];
      ApprovedSkillsMembership(cs', s);
      if exists j :: 0 <= j < |cs| && Endorses(cs[j], s) {
        var j :| 0 <= j < |cs| && Endorses(cs[j], s);
        if j < |cs| - 1 {
          assert cs'[j] == cs[j];
        }
      }
      if exists j :: 0 <= j < |cs'| && Endorses(cs'[j], s) {
        var j :| 0 <= j < |cs'| && Endorses(cs'[j], s);
        assert cs[j] == cs'[j];
      }
    }
  }

  /** A skill is validated exactly when some approved candidate of some batch matched it. */
  lemma {:induction false} ValidatedSkillsMembership(bs: seq<JobBatch>, s: string)
    ensures s in ValidatedSkills(bs) <==>
      exists i, j :: 0 <= i < |bs| && 0 <= j < |bs[i].rankedCandidates| && Endorses(bs[i].rankedCandidates[j], s)
    decreases |bs|
  {
    if bs != [] {
      var n := |bs| - 1;
      var bs' := bs[..n];
      ValidatedSkillsMembership(bs', s);
      ApprovedSkillsMembership(bs[n].rankedCandidates, s);
      if exists i, j :: 0 <= i < |bs| && 0 <= j < |bs[i].rankedCandidates| && Endorses(bs[i].rankedCandidates[j], s) {
        var i, j :| 0 <= i < |bs| && 0 <= j < |bs[i].rankedCandidates| && Endorses(bs[i].rankedCandidates[j], s);
        if i < n {
          assert bs'[i] == bs[i];
        }
      }
      if exists i, j :: 0 <= i < |bs'| && 0 <= j < |bs'[i].rankedCandidates| && Endorses(bs'[i].rankedCandidates[j], s) {
        var i, j :| 0 <= i < |bs'| && 0 <= j < |bs'[i].rankedCandidates| && Endorses(bs'[i].rankedCandidates[j], s);
        assert bs[i] == bs'[i];
      }
    }
  }

  /** Whatever order the query returns the user's batches in, their validated skills are those of the store. */
  lemma ValidatedSkillsOfEnumeration(batches: map<BatchId, JobBatch>, user: UserId, bs: seq<JobBatch>)
    requires Jobs.EnumeratesOwned(batches, user, bs)
    ensures ValidatedSkills(bs) == ValidatedSkillsOf(batches, user)
  {
    forall s
      ensures s in ValidatedSkills(bs) <==> s in ValidatedSkillsOf(batches, user)
    {
      ValidatedSkillsMembership(bs, s);
      if s in ValidatedSkills(bs) {
        var i, j :| 0 <= i < |bs| && 0 <= j < |bs[i].rankedCandidates| && Endorses(bs[i].rankedCandidates[j], s);
        var k := bs[i].id;
        assert batches[k] == bs[i];
      }
      if s in ValidatedSkillsOf(batches, user) {
        var k, j :| k in batches && batches[k].user == user && 0 <= j < |batches[k].rankedCandidates|
                    && Endorses(batches[k].rankedCandidates[j], s);
        assert batches[k] in bs;
        var i :| 0 <= i < |bs| && bs[i] == batches[k];
        assert Endorses(bs[i].rankedCandidates[j], s);
      }
    }
  }

  /** A recruiter with no batch, or no approved candidate, has no validated skill. */
  lemma NoApprovalNoValidatedSkills(batches: map<BatchId, JobBatch>, user: UserId)
    requires forall k, j :: k in batches && batches[k].user == user && 0 <= j < |batches[k].rankedCandidates|
               ==> batches[k].rankedCandidates[j].status != Approved
    ensures ValidatedSkillsOf(batches, user) == {}
  {
  }

  /**
   * How one status update moves the owner's validated skills: approving a candidate adds
   * exactly its matched skills; any other status can only remove skills; and the
   * validated skills of every other recruiter are unchanged.
   */
  lemma StatusUpdateEffect(batches: map<BatchId, JobBatch>, k: BatchId, i: nat, st: Status, user: UserId)
    requires k in batches && i < |batches[k].rankedCandidates|
    ensures var after := batches[k := Jobs.WithStatus(batches[k], i, st)];
      && (user == batches[k].user && st == Approved ==>
            ValidatedSkillsOf(after, user) == ValidatedSkillsOf(batches, user) + SkillSet(batches[k].rankedCandidates[i].matchedSkills))
      && (st != Approved ==> ValidatedSkillsOf(after, user) <= ValidatedSkillsOf(batches, user))
      && (user != batches[k].user ==> ValidatedSkillsOf(after, user) == ValidatedSkillsOf(batches, user))
  {
    var after := batches[k := Jobs.WithStatus(batches[k], i, st)];
    var c := batches[k].rankedCandidates[i];
    forall s | s in ValidatedSkillsOf(after, user)
      ensures s in ValidatedSkillsOf(batches, user) || (k in batches && after[k].user == user && st == Approved && s in c.matchedSkills)
    {
      var k', j :| k' in after && after[k'].user == user && 0 <= j < |after[k'].rankedCandidates|
                   && Endorses(after[k'].rankedCandidates[j], s);
      if k' != k || j != i {
        assert after[k'].user == batches[k'].user;
        assert after[k'].rankedCandidates[j] == batches[k'].rankedCandidates[j];
      }
    }
    forall s | s in ValidatedSkillsOf(batches, user) && (st == Approved || user != batches[k].user)
      ensures s in ValidatedSkillsOf(after, user)
    {
      var k', j :| k' in batches && batches[k'].user == user && 0 <= j < |batches[k'].rankedCandidates|
                   && Endorses(batches[k'].rankedCandidates[j], s);
      assert after[k'].user == batches[k'].user;
      if k' != k || j != i {
        assert after[k'].rankedCandidates[j] == batches[k'].rankedCandidates[j];
        assert Endorses(after[k'].rankedCandidates[j], s);
      } else {
        assert Endorses(batches[k'].rankedCandidates[j], s);
        assert batches[k'].rankedCandidates[j] == c;
        assert Endorses(c, s);
        assert s in c.matchedSkills;
        assert st == Approved;
        assert after[k'].rankedCandidates[j] == c.(status := st);
      }
    }
    if user == batches[k].user && st == Approved {
      forall s | s in SkillSet(c.matchedSkills)
        ensures s in ValidatedSkillsOf(after, user)
      {
        assert Endorses(after[k].rankedCandidates[i], s);
      }
    }
  }

  /** Gathers the validated skills from the user's earlier batches, skill by skill. */
  method CollectValidatedSkills(previousBatches: seq<JobBatch>) returns (validated: set<string>)
    ensures validated == ValidatedSkills(previousBatches)
  {
    validated := {};
    for i := 0 to |previousBatches|
      invariant validated == ValidatedSkills(previousBatches[..i])
    {
      var candidates := previousBatches[i].rankedCandidates;
      for j := 0 to |candidates|
        invariant validated == ValidatedSkills(previousBatches[..i]) + ApprovedSkills(candidates[..j])
      {
        var candidate := candidates[j];
        if candidate.status == Approved {
          for m := 0 to |candidate.matchedSkills|
            invariant validated == ValidatedSkills(previousBatches[..i]) + ApprovedSkills(candidates[..j])
                                   + SkillSet(candidate.matchedSkills[..m])
          {
            assert SkillSet(candidate.matchedSkills[..m + 1]) == SkillSet(candidate.matchedSkills[..m]) + {candidate.matchedSkills[m]} by {
              assert candidate.matchedSkills[..m + 1] == candidate.matchedSkills[..m] + [candidate.matchedSkills[m]];
            }
            validated := validated + {candidate.matchedSkills[m]};
          }
          assert candidate.matchedSkills[..|candidate.matchedSkills|] == candidate.matchedSkills;
        }
        assert candidates[..j + 1][..j] == candidates[..j];
      }
      assert candidates[..|candidates|] == candidates;
      assert previousBatches[..i + 1][..i] == previousBatches[..i];
    }
    assert previousBatches[..|previousBatches|] == previousBatches;
  }

  // ----- the per-file loop -----

  /** One file's fate, with the job description and the validated skills shared by the whole request. */
  function OutcomeOf(file: UploadedFile, jd: string, validated: set<string>,
                     extract: UploadedFile -> Extraction, scorer: Scoring.RequestBody -> ScorerReply): (r: Outcome)
    ensures r == Empty <==> extract(file) == Text("")
    ensures r.Scored? <==>
      extract(file).Text? && extract(file).text != "" && scorer(Scoring.Request(extract(file).text, jd, validated)).Replied?
    ensures r.Scored? ==> r.result.fileName == file.originalName
    ensures r.Scored? ==> scorer(Scoring.Request(extract(file).text, jd, validated)) == Replied(r.result.analysis)
  {
    match extract(file)
    case ParseFailure => Failed
    case Text(text) =>
      if |text| == 0 then Empty
      else
        match scorer(Scoring.Request(text, jd, validated))
        case Replied(analysis) => Scored(RankedResult(file.originalName, analysis))
        case _ => Failed
  }

  /** The results the loop collects, in upload order, one for each scored file. */
  function Collected(files: seq<UploadedFile>, jd: string, validated: set<string>,
                     extract: UploadedFile -> Extraction, scorer: Scoring.RequestBody -> ScorerReply): (r: seq<RankedResult>)
    ensures |r| <= |files|
  {
    if files == [] then []
    else
      var n := |files| - 1;
      Collected(files[..n], jd, validated, extract, scorer)
      + match OutcomeOf(files[n], jd, validated, extract, scorer)
        case Scored(result) => [result]
        case _ => []
  }

  /** `idx` maps each result to the file it came from, in increasing upload position. */
  ghost predicate ResultsFromFiles(files: seq<UploadedFile>, jd: string, validated: set<string>,
                                   extract: UploadedFile -> Extraction, scorer: Scoring.RequestBody -> ScorerReply,
                                   results: seq<RankedResult>, idx: seq<nat>)
  {
    && |idx| == |results|
    && (forall k :: 0 <= k < |idx| ==> idx[k] < |files|)
    && (forall k, l :: 0 <= k < l < |idx| ==> idx[k] < idx[l])
    && (forall k :: 0 <= k < |idx| ==>
          && results[k].fileName == files[idx[k]].originalName
          && extract(files[idx[k]]).Text?
          && extract(files[idx[k]]).text != ""
          && scorer(Scoring.Request(extract(files[idx[k]]).text, jd, validated)) == Replied(results[k].analysis))
  }

  /** Every file whose outcome is a score has its position in `idx`. */
  ghost predicate ScoredFilesIn(files: seq<UploadedFile>, jd: string, validated: set<string>,
                                extract: UploadedFile -> Extraction, scorer: Scoring.RequestBody -> ScorerReply,
                                idx: seq<nat>)
  {
    forall p :: 0 <= p < |files| && OutcomeOf(files[p], jd, validated, extract, scorer).Scored? ==> p in idx
  }

  /** `idx` lists exactly the positions of the scored files, and maps each result to its file. */
  ghost predicate SourceIndices(files: seq<UploadedFile>, jd: string, validated: set<string>,
                                extract: UploadedFile -> Extraction, scorer: Scoring.RequestBody -> ScorerReply,
                                results: seq<RankedResult>, idx: seq<nat>)
  {
    && ResultsFromFiles(files, jd, validated, extract, scorer, results, idx)
    && ScoredFilesIn(files, jd, validated, extract, scorer, idx)
  }

  /** A scored last file extends the result-to-file map of the files before it by its own result. */
  lemma ResultsFromFilesScored(files: seq<UploadedFile>, jd: string, validated: set<string>,
                               extract: UploadedFile -> Extraction, scorer: Scoring.RequestBody -> ScorerReply,
                               results': seq<RankedResult>, idx': seq<nat>)
    requires files != []
    requires ResultsFromFiles(files[..|files| - 1], jd, validated, extract, scorer, results', idx')
    requires OutcomeOf(files[|files| - 1], jd, validated, extract, scorer).Scored?
    ensures var n := |files| - 1;
      ResultsFromFiles(files, jd, validated, extract, scorer,
                       results' + [OutcomeOf(files[n], jd, validated, extract, scorer).result], idx' + [n])
  {
    var n := |files| - 1;
    var o := OutcomeOf(files[n], jd, validated, extract, scorer);
    var idx, results := idx' + [n], results' + [o.result];
    forall k | 0 <= k < |idx|
      ensures idx[k] < |files|
      ensures results[k].fileName == files[idx[k]].originalName
      ensures extract(files[idx[k]]).Text? && extract(files[idx[k]]).text != ""
      ensures scorer(Scoring.Request(extract(files[idx[k]]).text, jd, validated)) == Replied(results[k].analysis)
    {
      if k < |idx'| {
        assert idx[k] == idx'[k] && results[k] == results'[k];
        assert files[..n][idx'[k]] == files[idx[k]];
      } else {
        assert idx[k] == n && results[k] == o.result;
      }
    }
  }

  /** A dropped last file leaves the result-to-file map of the files before it valid for all files. */
  lemma ResultsFromFilesDropped(files: seq<UploadedFile>, jd: string, validated: set<string>,
                                extract: UploadedFile -> Extraction, scorer: Scoring.RequestBody -> ScorerReply,
                                results': seq<RankedResult>, idx': seq<nat>)
    requires files != []
    requires ResultsFromFiles(files[..|files| - 1], jd, validated, extract, scorer, results', idx')
    ensures ResultsFromFiles(files, jd, validated, extract, scorer, results', idx')
  {
    var n := |files| - 1;
    forall k | 0 <= k < |idx'|
      ensures files[..n][idx'[k]] == files[idx'[k]]
    {
    }
  }

  /** One more file extends the scored positions of the files before it. */
  lemma ScoredFilesInStep(files: seq<UploadedFile>, jd: string, validated: set<string>,
                          extract: UploadedFile -> Extraction, scorer: Scoring.RequestBody -> ScorerReply,
                          idx': seq<nat>)
    requires files != []
    requires ScoredFilesIn(files[..|files| - 1], jd, validated, extract, scorer, idx')
    ensures var n := |files| - 1;
      ScoredFilesIn(files, jd, validated, extract, scorer,
                    if OutcomeOf(files[n], jd, validated, extract, scorer).Scored? then idx' + [n] else idx')
  {
    var n := |files| - 1;
    var idx := if OutcomeOf(files[n], jd, validated, extract, scorer).Scored? then idx' + [n] else idx';
    forall p | 0 <= p < |files| && OutcomeOf(files[p], jd, validated, extract, scorer).Scored?
      ensures p in idx
    {
      if p < n {
        assert files[..n][p] == files[p];
        assert p in idx';
      }
    }
  }

  /**
   * Every collected result comes from its own file, in upload order: the file's name
   * and the scorer's reply to that file's non-empty text with the shared job description
   * and validated skills; and every file the loop scores contributes its result. Hence
   * there are never more results than files.
   */
  lemma {:induction false} CollectedFromFiles(files: seq<UploadedFile>, jd: string, validated: set<string>,
                                              extract: UploadedFile -> Extraction, scorer: Scoring.RequestBody -> ScorerReply)
    ensures exists idx :: SourceIndices(files, jd, validated, extract, scorer, Collected(files, jd, validated, extract, scorer), idx)
    ensures |Collected(files, jd, validated, extract, scorer)| <= |files|
    decreases |files|
  {
    var results := Collected(files, jd, validated, extract, scorer);
    if files == [] {
      assert SourceIndices(files, jd, validated, extract, scorer, results, []);
    } else {
      var n := |files| - 1;
      var files' := files[..n];
      CollectedFromFiles(files', jd, validated, extract, scorer);
      var idx': seq<nat> :| SourceIndices(files', jd, validated, extract, scorer, Collected(files', jd, validated, extract, scorer), idx');
      var results' := Collected(files', jd, validated, extract, scorer);
      var o := OutcomeOf(files[n], jd, validated, extract, scorer);
      ScoredFilesInStep(files, jd, validated, extract, scorer, idx');
      if o.Scored? {
        ResultsFromFilesScored(files, jd, validated, extract, scorer, results', idx');
        assert results == results' + [o.result];
        assert SourceIndices(files, jd, validated, extract, scorer, results, idx' + [n]);
      } else {
        ResultsFromFilesDropped(files, jd, validated, extract, scorer, results', idx');
        assert results == results';
        assert SourceIndices(files, jd, validated, extract, scorer, results, idx');
      }
    }
  }

  lemma {:induction false} CollectedAppend(a: seq<UploadedFile>, b: seq<UploadedFile>, jd: string, validated: set<string>,
                                           extract: UploadedFile -> Extraction, scorer: Scoring.RequestBody -> ScorerReply)
    ensures Collected(a + b, jd, validated, extract, scorer)
         == Collected(a, jd, validated, extract, scorer) + Collected(b, jd, validated, extract, scorer)
    decreases |b|
  {
    if b == [] {
      assert a + b == a;
    } else {
      var n := |b| - 1;
      assert (a + b)[..|a + b| - 1] == a + b[..n];
      CollectedAppend(a, b[..n], jd, validated, extract, scorer);
    }
  }

  /**
   * A file that is not scored (empty text, a parse failure, a reply that is not ok or an
   * exception) leaves no trace: the results are those of the other files, in order.
   */
  lemma DroppedFileLeavesNoTrace(files: seq<UploadedFile>, i: nat, jd: string, validated: set<string>,
                                 extract: UploadedFile -> Extraction, scorer: Scoring.RequestBody -> ScorerReply)
    requires i < |files|
    requires !OutcomeOf(files[i], jd, validated, extract, scorer).Scored?
    ensures Collected(files, jd, validated, extract, scorer)
         == Collected(files[..i] + files[i + 1..], jd, validated, extract, scorer)
  {
    assert files == files[..i] + [files[i]] + files[i + 1..];
    CollectedAppend(files[..i] + [files[i]], files[i + 1..], jd, validated, extract, scorer);
    CollectedAppend(files[..i], [files[i]], jd, validated, extract, scorer);
    CollectedAppend(files[..i], files[i + 1..], jd, validated, extract, scorer);
    assert Collected([files[i]], jd, validated, extract, scorer) == [] by {
      assert [files[i]][..0] == [];
    }
  }

  /** The results are empty exactly when every file was skipped or dropped: an empty list, not an error. */
  lemma {:induction false} CollectedEmptyIffAllDropped(files: seq<UploadedFile>, jd: string, validated: set<string>,
                                                       extract: UploadedFile -> Extraction, scorer: Scoring.RequestBody -> ScorerReply)
    ensures Collected(files, jd, validated, extract, scorer) == [] <==>
      forall i :: 0 <= i < |files| ==> !OutcomeOf(files[i], jd, validated, extract, scorer).Scored?
    decreases |files|
  {
    if files != [] {
      var n := |files| - 1;
      CollectedEmptyIffAllDropped(files[..n], jd, validated, extract, scorer);
      assert forall i :: 0 <= i < n ==> files[..n][i] == files[i];
    }
  }

  /**
   * POST /: 400 without files (before anything else is looked at), 400 without a job
   * description, otherwise the collected results ranked by score, highest first, with
   * equal scores in upload order; the validated skills are gathered once, before the loop.
   */
  method Match(store: Jobs.JobStore, user: UserId, files: seq<UploadedFile>, jobDescription: Option<string>,
               extract: UploadedFile -> Extraction, scorer: Scoring.RequestBody -> ScorerReply)
    returns (r: MatchResponse)
    requires store.Valid()
    ensures |files| == 0 ==> r == NoResumeFiles
    ensures |files| > 0 && !RequiredString(jobDescription) ==> r == NoJobDescription
    ensures |files| > 0 && RequiredString(jobDescription) ==>
      r == Ranked(Sorting.StableSortDesc(
             Collected(files, jobDescription.value, ValidatedSkillsOf(store.batches, user), extract, scorer),
             MatchScore))
    ensures HttpStatus(r) == 400 <==> |files| == 0 || !RequiredString(jobDescription)
  {
    if |files| == 0 {
      return NoResumeFiles;
    }
    if !RequiredString(jobDescription) {
      return NoJobDescription;
    }
    var jd := jobDescription.value;

    var previousBatches := store.FindOwned(user);
    var validated := CollectValidatedSkills(previousBatches);
    ValidatedSkillsOfEnumeration(store.batches, user, previousBatches);

    var results: seq<RankedResult> := [];
    for i := 0 to |files|
      invariant results == Collected(files[..i], jd, validated, extract, scorer)
    {
      assert files[..i + 1][..i] == files[..i];
      var file := files[i];
      var extraction := extract(file);
      if extraction.ParseFailure? {
        continue;
      }
      var resumeText := extraction.text;
      if |resumeText| == 0 {
        continue;
      }
      var reply := scorer(Scoring.Request(resumeText, jd, validated));
      if !reply.Replied? {
        continue;
      }
      results := results + [RankedResult(file.originalName, reply.analysis)];
    }
    assert files[..|files|] == files;

    var ranked := new RankedResult[|results|](k requires 0 <= k < |results| => results[k]);
    assert ranked[..] == results;
    Sorting.SortInPlace(ranked, MatchScore);
    r := Ranked(ranked[..]);
  }

  // ----- the backend together with the scorer -----

  /** The scorer as the NLP service answers: an ok reply with the analysis, or an error status. */
  function Service(skills: string -> set<string>): Scoring.RequestBody -> ScorerReply
  {
    body =>
      match Scoring.AnalyzeResume(body, skills)
      case Analyzed(a) => Replied(a)
      case _ => ErrorStatus
  }

  /**
   * Against the NLP service, a file is scored exactly when its text is readable and not
   * empty, and every result's score lies in 0..100.
   */
  lemma ServiceScoresReadableFiles(file: UploadedFile, jd: string, validated: set<string>,
                                   extract: UploadedFile -> Extraction, skills: string -> set<string>)
    requires jd != ""
    ensures var o := OutcomeOf(file, jd, validated, extract, Service(skills));
      && (o.Scored? <==> extract(file).Text? && extract(file).text != "")
      && (o.Scored? ==> 0 <= o.result.analysis.matchScore <= Scoring.MaxScore)
  {
    if extract(file).Text? && extract(file).text != "" {
      var body := Scoring.Request(extract(file).text, jd, validated);
      Scoring.AnalyzesNonEmptyTexts(extract(file).text, jd, validated, skills);
      Scoring.ScoreInRange(body, skills);
    }
  }
}
