/**
 * The persisted shape of one matching run (backend/models/JobBatch.js): a job batch
 * owned by one recruiter, holding its ranked candidates, with the schema's enum,
 * required fields and defaults, and the lookup of a candidate subdocument by id.
 */
module JobBatchSchema {
  import opened Wrappers

  /** The authenticated recruiter's id, as the auth middleware puts it on the request. */
  type UserId = string
  type BatchId = nat
  type CandidateId = nat

  /** The `status` enum of the candidate schema; a candidate's status is always one of these. */
  datatype Status = Pending | Approved | Rejected

  const DefaultJobTitle: string := "Untitled Job Analysis"

  /**
   * A candidate subdocument. `notes` is NOT declared in the candidate schema, yet the notes
   * route assigns `candidate.notes`; it is carried here as an optional field so that the
   * route's verbatim overwrite can be stated. With a strict schema the value would not be
   * persisted, so this field records what the route means to store.
   */
  datatype Candidate = Candidate(
    id: CandidateId,
    fileName: string,
    matchScore: int,
    summary: Option<string>,
    matchedSkills: seq<string>,
    missingSkills: seq<string>,
    status: Status,
    notes: Option<string>)

  datatype JobBatch = JobBatch(
    id: BatchId,
    user: UserId,
    jobDescription: string,
    jobTitle: string,
    rankedCandidates: seq<Candidate>,
    analysisDate: int)

  /** One candidate as the client sends it in the body of a save request. */
  datatype CandidateInput = CandidateInput(
    fileName: Option<string>,
    matchScore: Option<int>,
    summary: Option<string>,
    matchedSkills: seq<string>,
    missingSkills: seq<string>,
    status: Option<string>)

  /** The body of a save request; `user` is whatever the client claims, and is ignored. */
  datatype BatchInput = BatchInput(
    user: Option<UserId>,
    jobDescription: Option<string>,
    jobTitle: Option<string>,
    rankedCandidates: Option<seq<CandidateInput>>)

  function StatusName(s: Status): string
  {
    match s
    case Pending => "Pending"
    case Approved => "Approved"
    case Rejected => "Rejected"
  }

  /** The enum check: exactly the three status names are accepted. */
  function ParseStatus(s: string): (r: Option<Status>)
    ensures r.Some? <==> s == "Pending" || s == "Approved" || s == "Rejected"
    ensures r.Some? ==> StatusName(r.value) == s
  {
    if s == "Pending" then Some(Pending)
    else if s == "Approved" then Some(Approved)
    else if s == "Rejected" then Some(Rejected)
    else None
  }

  lemma ParseStatusName(s: Status)
    ensures ParseStatus(StatusName(s)) == Some(s)
  {
  }

  /** A required string field: present and not the empty string. */
  predicate RequiredString(v: Option<string>)
  {
    v.Some? && v.value != ""
  }

  /** The candidate schema's validation: required fileName and matchScore, status within the enum. */
  predicate ValidCandidateInput(c: CandidateInput)
  {
    && RequiredString(c.fileName)
    && c.matchScore.Some?
    && (c.status.None? || ParseStatus(c.status.value).Some?)
  }

  /** Builds a candidate subdocument from client input, applying the schema's rules and defaults. */
  function NewCandidate(id: CandidateId, c: CandidateInput): (r: Option<Candidate>)
    ensures r.Some? <==> ValidCandidateInput(c)
    ensures r.Some? ==> r.value.id == id && c.fileName == Some(r.value.fileName) && c.matchScore == Some(r.value.matchScore)
    ensures r.Some? && c.status.None? ==> r.value.status == Pending
    ensures r.Some? && c.status.Some? ==> StatusName(r.value.status) == c.status.value
    ensures r.Some? ==> r.value.summary == c.summary && r.value.matchedSkills == c.matchedSkills
                        && r.value.missingSkills == c.missingSkills
    ensures r.Some? ==> r.value.notes.None?
  {
    if !ValidCandidateInput(c) then None
    else
      var status := if c.status.None? then Pending else ParseStatus(c.status.value).value;
      Some(Candidate(id, c.fileName.value, c.matchScore.value, c.summary,
                     c.matchedSkills, c.missingSkills, status, None))
  }

  /** No two candidates of `cs` share an id. */
  predicate DistinctIds(cs: seq<Candidate>)
  {
    forall i, j :: 0 <= i < j < |cs| ==> cs[i].id != cs[j].id
  }

  /** Builds every candidate of a batch, ids by position; one invalid candidate fails them all. */
  function NewCandidates(inputs: seq<CandidateInput>): (r: Option<seq<Candidate>>)
    ensures r.Some? <==> forall i :: 0 <= i < |inputs| ==> ValidCandidateInput(inputs[i])
    ensures r.Some? ==> |r.value| == |inputs|
    ensures r.Some? ==> forall i :: 0 <= i < |inputs| ==> NewCandidate(i, inputs[i]) == Some(r.value[i])
    decreases |inputs|
  {
    if inputs == [] then Some([])
    else
      var n := |inputs| - 1;
      match NewCandidates(inputs[..n])
      case None => None
      case Some(cs) =>
        match NewCandidate(n, inputs[n])
        case None => None
        case Some(c) => Some(cs + [c])
  }

  /**
   * The document a save creates: the owner is the authenticated user, the date is the
   * creation time, a missing title takes the default, a missing candidate list is empty.
   */
  function NewBatch(id: BatchId, user: UserId, body: BatchInput, now: int): (r: Option<JobBatch>)
    ensures r.Some? <==>
      RequiredString(body.jobDescription) &&
      (body.rankedCandidates.Some? ==> NewCandidates(body.rankedCandidates.value).Some?)
    ensures r.Some? ==> r.value.id == id && r.value.user == user && r.value.analysisDate == now
    ensures r.Some? ==> body.jobDescription == Some(r.value.jobDescription)
    ensures r.Some? ==> r.value.jobTitle == (if body.jobTitle.Some? then body.jobTitle.value else DefaultJobTitle)
    ensures r.Some? && body.rankedCandidates.None? ==> r.value.rankedCandidates == []
    ensures r.Some? && body.rankedCandidates.Some? ==> Some(r.value.rankedCandidates) == NewCandidates(body.rankedCandidates.value)
  {
    var inputs := if body.rankedCandidates.Some? then body.rankedCandidates.value else [];
    var title := if body.jobTitle.Some? then body.jobTitle.value else DefaultJobTitle;
    if !RequiredString(body.jobDescription) then None
    else
      match NewCandidates(inputs)
      case None => None
      case Some(cs) => Some(JobBatch(id, user, body.jobDescription.value, title, cs, now))
  }

  /**
   * Candidates created together have pairwise distinct ids, so the subdocument lookup by a
   * new candidate's id finds exactly that candidate; every new status is Pending unless given.
   */
  lemma NewCandidatesFresh(inputs: seq<CandidateInput>)
    requires NewCandidates(inputs).Some?
    ensures forall i, j :: 0 <= i < j < |inputs| ==> NewCandidates(inputs).value[i].id != NewCandidates(inputs).value[j].id
    ensures forall i :: 0 <= i < |inputs| ==> FindCandidate(NewCandidates(inputs).value, NewCandidates(inputs).value[i].id) == Some(i)
    ensures forall i :: 0 <= i < |inputs| && inputs[i].status.None? ==> NewCandidates(inputs).value[i].status == Pending
  {
  }

  /** The subdocument lookup by id: the first candidate carrying the id, if any. */
  function FindCandidate(cs: seq<Candidate>, id: CandidateId): (r: Option<nat>)
    ensures r.Some? ==> r.value < |cs| && cs[r.value].id == id
    ensures r.Some? ==> forall j :: 0 <= j < r.value ==> cs[j].id != id
    ensures r.None? <==> forall j :: 0 <= j < |cs| ==> cs[j].id != id
    decreases |cs|
  {
    if cs == [] then None
    else if cs[0].id == id then Some(0)
    else
      match FindCandidate(cs[1..], id)
      case None => None
      case Some(k) => Some(k + 1)
  }

  /** The history sort key. */
  function AnalysisDate(b: JobBatch): int
  {
    b.analysisDate
  }
}
