/**
 * The job-history routes (backend/routes/api/jobs.js) over the batch store: save a batch,
 * list a recruiter's batches, read one batch, and overwrite one candidate's status or notes
 * in place after the route's checks, which run in a fixed order.
 */
module Jobs {
  import opened Wrappers
  import opened JobBatchSchema
  import Sorting

  /** The route errors, each with its HTTP status. */
  datatype ApiError = InvalidStatus | BatchNotFound | NotAuthorized | CandidateNotFound

  function HttpStatus(e: ApiError): int
  {
    match e
    case InvalidStatus => 400
    case BatchNotFound => 404
    case NotAuthorized => 401
    case CandidateNotFound => 404
  }

  /** `after` differs from `before` at most in candidate `i`: same batch fields, same candidates elsewhere, same order. */
  predicate OnlyCandidateChanged(before: JobBatch, after: JobBatch, i: nat)
  {
    && after.(rankedCandidates := before.rankedCandidates) == before
    && |after.rankedCandidates| == |before.rankedCandidates|
    && forall j :: 0 <= j < |before.rankedCandidates| && j != i ==> after.rankedCandidates[j] == before.rankedCandidates[j]
  }

  /** The batch after candidate `i`'s status is overwritten. */
  function WithStatus(b: JobBatch, i: nat, st: Status): (r: JobBatch)
    requires i < |b.rankedCandidates|
    ensures OnlyCandidateChanged(b, r, i)
    ensures r.rankedCandidates[i] == b.rankedCandidates[i].(status := st)
  {
    b.(rankedCandidates := b.rankedCandidates[i := b.rankedCandidates[i].(status := st)])
  }

  /** The batch after candidate `i`'s notes are overwritten verbatim (an absent value included). */
  function WithNotes(b: JobBatch, i: nat, notes: Option<string>): (r: JobBatch)
    requires i < |b.rankedCandidates|
    ensures OnlyCandidateChanged(b, r, i)
    ensures r.rankedCandidates[i] == b.rankedCandidates[i].(notes := notes)
  {
    b.(rankedCandidates := b.rankedCandidates[i := b.rankedCandidates[i].(notes := notes)])
  }

  /**
   * The checks shared by both candidate updates, in the routes' order: the batch must exist,
   * belong to the requester, and contain the candidate. Yields the candidate's position.
   */
  function Locate(batches: map<BatchId, JobBatch>, user: UserId, batchId: BatchId, candidateId: CandidateId): (r: Result<nat, ApiError>)
    ensures r == Err(BatchNotFound) <==> batchId !in batches
    ensures r == Err(NotAuthorized) <==> batchId in batches && batches[batchId].user != user
    ensures r == Err(CandidateNotFound) <==>
      batchId in batches && batches[batchId].user == user &&
      forall j :: 0 <= j < |batches[batchId].rankedCandidates| ==> batches[batchId].rankedCandidates[j].id != candidateId
    ensures r.Ok? ==>
      batchId in batches && batches[batchId].user == user &&
      r.value < |batches[batchId].rankedCandidates| &&
      batches[batchId].rankedCandidates[r.value].id == candidateId
    ensures r != Err(InvalidStatus)
    ensures r.Err? ==> HttpStatus(r.error) == (if batchId in batches && batches[batchId].user != user then 401 else 404)
  {
    if batchId !in batches then Err(BatchNotFound)
    else if batches[batchId].user != user then Err(NotAuthorized)
    else
      match FindCandidate(batches[batchId].rankedCandidates, candidateId)
      case None => Err(CandidateNotFound)
      case Some(i) => Ok(i)
  }

  /** Status has no terminal value: the last write wins, whatever was written before. */
  lemma StatusLastWriteWins(b: JobBatch, i: nat, first: Status, second: Status)
    requires i < |b.rankedCandidates|
    ensures WithStatus(WithStatus(b, i, first), i, second) == WithStatus(b, i, second)
  {
  }

  /** Repeating the same notes update leaves the same batch. */
  lemma NotesIdempotent(b: JobBatch, i: nat, notes: Option<string>)
    requires i < |b.rankedCandidates|
    ensures WithNotes(WithNotes(b, i, notes), i, notes) == WithNotes(b, i, notes)
  {
  }

  /** No element occurs twice. */
  ghost predicate NoDuplicates(s: seq<JobBatch>)
  {
    forall x :: multiset(s)[x] <= 1
  }

  /** `bs` holds exactly the batches of `batches` owned by `user`, each once. */
  ghost predicate EnumeratesOwned(batches: map<BatchId, JobBatch>, user: UserId, bs: seq<JobBatch>)
  {
    && (forall i :: 0 <= i < |bs| ==> bs[i].user == user && bs[i].id in batches && batches[bs[i].id] == bs[i])
    && (forall k :: k in batches && batches[k].user == user ==> batches[k] in bs)
    && NoDuplicates(bs)
  }

  /** A permutation of an enumeration of the owned batches is one too. */
  lemma PermutationEnumerates(batches: map<BatchId, JobBatch>, user: UserId, bs: seq<JobBatch>, cs: seq<JobBatch>)
    requires EnumeratesOwned(batches, user, bs)
    requires multiset(cs) == multiset(bs)
    ensures EnumeratesOwned(batches, user, cs)
  {
    forall i | 0 <= i < |cs|
      ensures cs[i].user == user && cs[i].id in batches && batches[cs[i].id] == cs[i]
    {
      assert cs[i] in multiset(bs);
      var j :| 0 <= j < |bs| && bs[j] == cs[i];
    }
    forall k | k in batches && batches[k].user == user
      ensures batches[k] in cs
    {
      assert batches[k] in multiset(cs);
    }
  }

  /** The batch store: every batch under its own id, ids below the next one to hand out. */
  class JobStore {
    var batches: map<BatchId, JobBatch>
    var nextId: BatchId

    ghost predicate Valid()
      reads this
    {
      forall k :: k in batches ==> batches[k].id == k && k < nextId && DistinctIds(batches[k].rankedCandidates)
    }

    constructor ()
      ensures Valid() && batches == map[] && nextId == 0
    {
      batches := map[];
      nextId := 0;
    }

    /**
     * POST /: saves a new batch owned by the authenticated user, whatever owner the body
     * names; a body the schema rejects stores nothing (the route answers 500).
     */
    method Save(user: UserId, body: BatchInput, now: int) returns (r: Option<JobBatch>)
      requires Valid()
      modifies this
      ensures Valid()
      ensures r == NewBatch(old(nextId), user, body, now)
      ensures r.Some? ==> r.value.user == user && batches == old(batches)[old(nextId) := r.value] && old(nextId) !in old(batches)
      ensures r.None? ==> batches == old(batches)
    {
      r := NewBatch(nextId, user, body, now);
      if r.Some? {
        if body.rankedCandidates.Some? {
          NewCandidatesFresh(body.rankedCandidates.value);
        }
        batches := batches[nextId := r.value];
        nextId := nextId + 1;
      }
    }

    /** The query `find({ user })`: every batch the user owns, each once, in no particular order. */
    method FindOwned(user: UserId) returns (bs: seq<JobBatch>)
      requires Valid()
      ensures EnumeratesOwned(batches, user, bs)
    {
      bs := [];
      var pending := batches.Keys;
      while pending != {}
        invariant pending <= batches.Keys
        invariant forall i :: 0 <= i < |bs| ==> bs[i].user == user && bs[i].id in batches && batches[bs[i].id] == bs[i] && bs[i].id !in pending
        invariant forall k :: k in batches && k !in pending && batches[k].user == user ==> batches[k] in bs
        invariant NoDuplicates(bs)
        decreases pending
      {
        var k :| k in pending;
        pending := pending - {k};
        if batches[k].user == user {
          var b := batches[k];
          assert b !in bs;
          bs := bs + [b];
        }
      }
    }

    /** GET /: the requester's batches only, newest analysis date first. */
    method List(user: UserId) returns (bs: seq<JobBatch>)
      requires Valid()
      ensures EnumeratesOwned(batches, user, bs)
      ensures Sorting.SortedDesc(bs, AnalysisDate)
    {
      var owned := FindOwned(user);
      var a := new JobBatch[|owned|](i requires 0 <= i < |owned| => owned[i]);
      assert a[..] == owned;
      Sorting.SortInPlace(a, AnalysisDate);
      bs := a[..];
      Sorting.StableSortSorted(owned, AnalysisDate);
      Sorting.StableSortPermutation(owned, AnalysisDate);
      PermutationEnumerates(batches, user, owned, bs);
    }

    /** GET /:id: 404 when absent, 401 for another owner's batch, else the batch unchanged. */
    method Get(user: UserId, id: BatchId) returns (r: Result<JobBatch, ApiError>)
      ensures id !in batches ==> r == Err(BatchNotFound)
      ensures id in batches && batches[id].user != user ==> r == Err(NotAuthorized)
      ensures id in batches && batches[id].user == user ==> r == Ok(batches[id])
      ensures r.Err? ==> HttpStatus(r.error) == (if id in batches then 401 else 404)
    {
      if id !in batches {
        return Err(BatchNotFound);
      }
      var b := batches[id];
      if b.user != user {
        return Err(NotAuthorized);
      }
      r := Ok(b);
    }

    /**
     * PUT /:batchId/candidate/:candidateId: the status value is checked first (400), then
     * the batch (404), its owner (401) and the candidate (404); on success only that
     * candidate's status changes and the whole batch is returned.
     */
    method UpdateStatus(user: UserId, batchId: BatchId, candidateId: CandidateId, status: string)
      returns (r: Result<JobBatch, ApiError>)
      requires Valid()
      modifies this
      ensures Valid() && nextId == old(nextId)
      ensures ParseStatus(status).None? ==> r == Err(InvalidStatus) && HttpStatus(r.error) == 400
      ensures ParseStatus(status).Some? && Locate(old(batches), user, batchId, candidateId).Err? ==>
        r == Err(Locate(old(batches), user, batchId, candidateId).error)
      ensures r.Err? ==> batches == old(batches)
      ensures ParseStatus(status).Some? && Locate(old(batches), user, batchId, candidateId).Ok? ==> r.Ok?
      ensures r.Ok? ==>
        ParseStatus(status).Some? && Locate(old(batches), user, batchId, candidateId).Ok? &&
        r.value == WithStatus(old(batches)[batchId], Locate(old(batches), user, batchId, candidateId).value, ParseStatus(status).value) &&
        batches == old(batches)[batchId := r.value]
    {
      var st := ParseStatus(status);
      if st.None? {
        return Err(InvalidStatus);
      }
      if batchId !in batches {
        return Err(BatchNotFound);
      }
      var b := batches[batchId];
      if b.user != user {
        return Err(NotAuthorized);
      }
      var i := FindCandidate(b.rankedCandidates, candidateId);
      if i.None? {
        return Err(CandidateNotFound);
      }
      var updated := WithStatus(b, i.value, st.value);
      batches := batches[batchId := updated];
      r := Ok(updated);
    }

    /**
     * PUT /:batchId/candidate/:candidateId/notes: the same 404/401/404 checks, no check of
     * the value, which the route means to store verbatim as the candidate's notes. The
     * candidate schema declares no `notes` path, so under the schema's default strict mode
     * the assignment is neither saved nor returned; this method states the intended overwrite.
     */
    method UpdateNotes(user: UserId, batchId: BatchId, candidateId: CandidateId, notes: Option<string>)
      returns (r: Result<JobBatch, ApiError>)
      requires Valid()
      modifies this
      ensures Valid() && nextId == old(nextId)
      ensures Locate(old(batches), user, batchId, candidateId).Err? ==>
        r == Err(Locate(old(batches), user, batchId, candidateId).error) && batches == old(batches)
      ensures Locate(old(batches), user, batchId, candidateId).Ok? ==>
        r == Ok(WithNotes(old(batches)[batchId], Locate(old(batches), user, batchId, candidateId).value, notes)) &&
        batches == old(batches)[batchId := r.value]
    {
      if batchId !in batches {
        return Err(BatchNotFound);
      }
      var b := batches[batchId];
      if b.user != user {
        return Err(NotAuthorized);
      }
      var i := FindCandidate(b.rankedCandidates, candidateId);
      if i.None? {
        return Err(CandidateNotFound);
      }
      var updated := WithNotes(b, i.value, notes);
      batches := batches[batchId := updated];
      r := Ok(updated);
    }
  }
}
