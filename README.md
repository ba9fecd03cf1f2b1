# Smart Resume Match — a verified Dafny model of its core

Smart Resume Match ranks uploaded PDF resumes against a job description. An Express backend
extracts each resume's text and asks a Python NLP service for a score. The score is the
share of the job description's skills the resume has, plus a bonus for skills the recruiter
has approved in earlier analyses. The backend then sorts the results and lets the recruiter
save them as a job batch. Recruiters can approve or reject candidates, add notes, browse
their history and reset a forgotten password.

This project models that core in Dafny and proves what it promises:

- `wrappers.dfy` — `Option` and `Result`.
- `sorting.dfy` — the stable, descending sort by an integer key.
  - Both sorts use it: match results by `matchScore`, history by `analysisDate`.
  - `StableSortDesc` is the specification, with three proofs: the result is sorted, it is a
    permutation of the input, and equal keys keep their input order.
  - `SortInPlace` is an in-place insertion sort on an array, proved to produce exactly
    `StableSortDesc`.
- `job_batch.dfy` — the job-batch document of `backend/models/JobBatch.js`:
  - the status enum, the required fields and the defaults;
  - building a batch from a request body;
  - finding a candidate subdocument by id.
- `jobs.dfy` — the batch store as a class over a map from batch id to
  batch, with the five routes of `backend/routes/api/jobs.js`. Status and notes updates run
  their checks in the route's order and overwrite one field of one candidate in place.
- `scoring.dfy` — `analyze_resume` of `nlp-service/app.py`:
  - skill extraction is a function parameter;
  - the matched and missing skill sets;
  - the score in exact rational arithmetic, with Python 3's round-half-to-even and the cap at
    100;
  - which summary sentences appear.
- `matching.dfy` — the `POST /api/match` handler:
  - the request checks;
  - the validated skills, gathered by three nested loops and proved equal to a set defined
    over the store;
  - the per-file loop with its silent skips;
  - the final stable sort, reading the store of `jobs.dfy`.
  PDF extraction and the HTTP call to the NLP service are function parameters (oracles).
- `auth.dfy` — login, forgot-password and reset-password of `backend/routes/api/auth.js`, as
  a state machine over user records. Time is an integer parameter in milliseconds. Hashing,
  token generation and mail delivery are parameters.
- `dashboard.dfy` — the counters and recent-jobs list of the dashboard hub page. The fold is
  written as nested loops, as in the page.
- `history.dfy` — the history page's case-insensitive title filter and its empty-state
  choice. Lower-casing is a function parameter.

Two behaviours of the source that the model states outright:

- `backend/routes/api/jobs.js:133` assigns `candidate.notes`, but the candidate schema
  (`backend/models/JobBatch.js:6-17`) declares no `notes` field. Under Mongoose's default
  strict mode the assignment is then neither saved nor returned. The model captures the
  route's intended overwrite instead: it carries `notes` as an optional field and proves that
  the route overwrites it verbatim. The `JobBatchSchema.Candidate` comment records the gap.
- When the job description contains no recognised skill, the score is 0, yet the summary
  says the candidate has all required skills (`Scoring.NoJdSkillsScoresZero`).

## Model

| member | source | states |
|---|---|---|
| Sorting.StableSortSorted | backend/routes/api/match.js:86 | the ranking is ordered by key, highest first |
| Sorting.StableSortPermutation | backend/routes/api/match.js:86 | the ranking has the same elements as its input, with the same multiplicities and length |
| Sorting.StableSortStable | backend/routes/api/match.js:86 | for every key value, the elements with that key appear in the same relative order as in the input (ECMAScript 2019 stable sort) |
| Sorting.StableSortDesc | backend/routes/api/match.js:86 | the reference definition of the ranking: each element in input order is inserted after every placed element whose key is at least its own; its properties are the three lemmas above |
| Sorting.SortInPlace | backend/routes/api/match.js:86 | sorting the array in place leaves exactly the stable descending sort of its old contents |
| JobBatchSchema.ParseStatus | backend/models/JobBatch.js:12-16 | a status string is accepted exactly when it is Pending, Approved or Rejected, and the accepted value names that string |
| JobBatchSchema.ParseStatusName | backend/models/JobBatch.js:12-16 | every status's name parses back to that status |
| JobBatchSchema.NewCandidate | backend/models/JobBatch.js:6-17 | a candidate is created exactly when fileName and matchScore are present and any status is in the enum; a missing status becomes Pending; summary, matchedSkills and missingSkills are stored as submitted; no notes are stored |
| JobBatchSchema.NewCandidates | backend/models/JobBatch.js:32 | all candidates are created, in order and with ids by position, exactly when every input is valid |
| JobBatchSchema.NewCandidatesFresh | backend/models/JobBatch.js:15 | candidates created together have distinct ids, so the lookup by any new candidate's id finds that very candidate; those without a status are Pending |
| JobBatchSchema.NewBatch | backend/models/JobBatch.js:19-37 | a batch is created exactly when jobDescription is a non-empty string and every candidate is valid; the owner is the caller, the date is now, and a missing title becomes "Untitled Job Analysis" |
| JobBatchSchema.FindCandidate | backend/routes/api/jobs.js:90 | the lookup returns the first position holding the id, and fails exactly when no candidate has it |
| Jobs.WithStatus | backend/routes/api/jobs.js:96-97 | only the addressed candidate's status changes; the batch fields, the other candidates and their order stay the same |
| Jobs.WithNotes | backend/routes/api/jobs.js:132-133 | only the addressed candidate's notes change, to the given value verbatim |
| Jobs.Locate | backend/routes/api/jobs.js:79-94 | the result is 404 exactly for a missing batch, 401 exactly for another owner's batch, 404 exactly for a candidate not in the batch, and otherwise the candidate's position |
| Jobs.StatusLastWriteWins | backend/routes/api/jobs.js:75-97 | status has no terminal value: a second update overrides the first, whatever both were |
| Jobs.NotesIdempotent | backend/routes/api/jobs.js:132-134 | repeating the same notes update gives the same batch |
| Jobs.PermutationEnumerates | backend/routes/api/jobs.js:34-36 | reordering a list of the user's batches still lists each of them exactly once |
| Jobs.JobStore.Save | backend/routes/api/jobs.js:10-22 | a saved batch is owned by the authenticated user, whatever owner the body names, and is stored under a fresh id; an invalid body stores nothing; the store keeps every batch under its own id and candidate ids distinct within each batch |
| Jobs.JobStore.FindOwned | backend/routes/api/jobs.js:34 | the query yields every batch the user owns, exactly once, and nothing else |
| Jobs.JobStore.List | backend/routes/api/jobs.js:32-37 | the listing holds exactly the requester's batches, each once, newest analysisDate first |
| Jobs.JobStore.Get | backend/routes/api/jobs.js:47-60 | 404 when the batch is absent, 401 for another owner, otherwise the stored batch unchanged |
| Jobs.JobStore.UpdateStatus | backend/routes/api/jobs.js:70-100 | an invalid status value gives 400 before any lookup; then the 404/401/404 checks; every error leaves the store unchanged; a valid status for an owned batch holding the candidate always succeeds, storing and returning the batch with only that status changed |
| Jobs.JobStore.UpdateNotes | backend/routes/api/jobs.js:111-136 | the same 404/401/404 checks with no check of the value; errors change nothing; success overwrites the notes verbatim and returns the batch |
| Scoring.AnalyzeResume | nlp-service/app.py:72-124 | falsy JSON gives 400, and so does an empty or absent resume_text or jd_text; a body on which the handler raises gives 500 from the catch-all at lines 122-124; every other body is analysed |
| Scoring.AnalyzesNonEmptyTexts | nlp-service/app.py:85-121 | two non-empty texts always give a successful analysis |
| Scoring.SkillsPartition | nlp-service/app.py:94-95 | matched and missing skills are disjoint, their union is the job description's skill set, matched skills are in the resume and missing ones are not |
| Scoring.FinalScore | nlp-service/app.py:97-102 | the final score lies between 0 and 100 |
| Scoring.FinalScoreIsRoundedSum | nlp-service/app.py:97-102 | the score is the integer nearest to 100·matched/jd + 5·boosted, the even one on a tie, capped at 100 |
| Scoring.AnalyzeScoreIsRoundedSum | nlp-service/app.py:88-102 | the handler's matchScore is the integer nearest to 100 times the matched share of the job description's skills plus 5 per matched skill that is validated, the even one on a tie, capped at 100 |
| Scoring.RoundHalfEven | nlp-service/app.py:102 | Python 3 `round` of a non-negative fraction p/q: the result lies strictly within one of p/q |
| Scoring.RoundHalfEvenIsNearest | nlp-service/app.py:102 | the rounding gives an integer nearest to the fraction, the even one when it lies halfway (Python 3 round) |
| Scoring.NearestEvenUnique | nlp-service/app.py:102 | nearest-with-ties-to-even determines a single integer |
| Scoring.RoundMonotone | nlp-service/app.py:102 | a larger fraction never rounds to a smaller integer |
| Scoring.ScoreInRange | nlp-service/app.py:102 | every successful analysis has 0 ≤ matchScore ≤ 100 |
| Scoring.FullMatchScoresMax | nlp-service/app.py:97-102 | a resume with every skill of a job description that has at least one skill scores 100 |
| Scoring.NoJdSkillsScoresZero | nlp-service/app.py:97-114 | with no recognised skill in the job description the score is 0, no boost sentence appears, and the summary still says all required skills are present |
| Scoring.FinalScoreMonotone | nlp-service/app.py:99-102 | more validated matches never lower the final score |
| Scoring.ValidatedSkillsOnlyBoost | nlp-service/app.py:99-102 | a larger validated-skill set never lowers the score |
| Scoring.UnmatchedValidatedSkillsIgnored | nlp-service/app.py:99-100 | validated skills that are not matched skills do not change the response |
| Scoring.SummarySentences | nlp-service/app.py:106-114 | the summary opens with the score; it names key skills exactly when some skill matched, says "boosted" exactly when a matched skill is validated, and says "all required skills" exactly when none is missing, "lacking" otherwise |
| Scoring.Summary | nlp-service/app.py:106-114 | the summary has two to four sentences, opens with the score, and ends with "all required skills" exactly when no skill is missing, "lacking" otherwise |
| Matching.ApprovedSkillsMembership | backend/routes/api/match.js:29-33 | a skill is collected from a batch exactly when an approved candidate of that batch matched it |
| Matching.ValidatedSkillsMembership | backend/routes/api/match.js:26-34 | a skill is validated exactly when some approved candidate of some earlier batch matched it; other statuses contribute nothing |
| Matching.ValidatedSkillsOfEnumeration | backend/routes/api/match.js:26-34 | whatever order the query returns the user's batches in, the collected set is the user's validated skills in the store |
| Matching.NoApprovalNoValidatedSkills | backend/routes/api/match.js:26-34 | a recruiter with no history or no approved candidate gets the empty set |
| Matching.ValidatedSkills | backend/routes/api/match.js:26-34 | the reference definition of the validated skills of a list of batches, the union over approved candidates of their matched skills; characterised by ValidatedSkillsMembership |
| Matching.ValidatedSkillsOf | backend/routes/api/match.js:26-34 | the reference definition of a user's validated skills in the store, a set comprehension independent of query order; tied to the loop by ValidatedSkillsOfEnumeration |
| Matching.StatusUpdateEffect | backend/routes/api/match.js:30-31 | approving a candidate adds exactly its matched skills to its owner's validated skills; any other status can only remove skills; other recruiters are unaffected |
| Matching.CollectValidatedSkills | backend/routes/api/match.js:27-34 | the three nested loops build exactly the union of matched skills over the approved candidates |
| Matching.OutcomeOf | backend/routes/api/match.js:40-82 | one file is skipped exactly when its text is empty, and scored exactly when its text is readable, non-empty and the scorer replies ok; a score carries the file's original name and the scorer's analysis |
| Matching.Collected | backend/routes/api/match.js:37-83 | the results the loop collects, one per scored file in upload order, never more than the files |
| Matching.CollectedFromFiles | backend/routes/api/match.js:37-83 | each result is the original name of its own file plus the scorer's reply to that file's non-empty text, with the shared job description and validated skills; every file whose outcome is a score contributes a result; results follow upload order and never outnumber the files |
| Matching.DroppedFileLeavesNoTrace | backend/routes/api/match.js:40-82 | a file with empty text, a parse failure, a reply that is not ok or an exception contributes nothing: the results are those of the other files |
| Matching.CollectedEmptyIffAllDropped | backend/routes/api/match.js:85-89 | the results are empty exactly when every file was dropped, and an empty list is still a successful response |
| Matching.Match | backend/routes/api/match.js:12-89 | no files gives 400 before anything else is read; then an empty or missing job description gives 400, and these are the only 400s; otherwise the response is the collected results, with the validated skills computed once from the store, stably sorted by matchScore, highest first |
| Matching.ServiceScoresReadableFiles | backend/routes/api/match.js:41-78 | against the NLP service, a file is scored exactly when its text is readable and non-empty, and its score lies in 0..100 |
| Auth.FirstWhere | backend/routes/api/auth.js:42 | the lookup yields the first matching record, and fails exactly when none matches |
| Auth.FindByValidToken | backend/routes/api/auth.js:140-143 | the reset query yields the first record holding the token with an expiry strictly after now, and fails exactly when no record does |
| Auth.WithResetToken | backend/routes/api/auth.js:87-89 | the record after a token is issued: the token and an expiry one hour on; its properties are IssuedTokenLifetime |
| Auth.WithNewPassword | backend/routes/api/auth.js:149-153 | the record after a reset: the new hash and no token or expiry; its properties are ResetClearsToken |
| Auth.IssuedTokenLifetime | backend/routes/api/auth.js:86-89 | a token issued at time t opens the reset exactly while now < t + 3,600,000 ms; issuing changes only the token fields |
| Auth.ResetClearsToken | backend/routes/api/auth.js:149-153 | after a reset the record has the new hash and no token opens it |
| Auth.TokenSingleUse | backend/routes/api/auth.js:140-153 | after a reset with the token only that record held, the token finds no record at any later time |
| Auth.IssuedTokenFindsOwner | backend/routes/api/auth.js:140-143 | a freshly issued token that no other record holds finds its record until the hour is over, and none afterwards |
| Auth.UserStore.Login | backend/routes/api/auth.js:29-59 | an invalid body gives 400; an unknown email and a wrong password give the same 400 InvalidCredentials; a session is issued only for the first record with that email, and only when its password matches; every answer but a session is a 400 |
| Auth.UserStore.ForgotPassword | backend/routes/api/auth.js:70-126 | an unknown email changes nothing and gets the same answer as success; a known one stores the token with expiry now + 3,600,000; a refused mail does not change the answer; an unreachable mail service gives 500 with the token already stored, and this is the only 500 |
| Auth.UserStore.ResetPassword | backend/routes/api/auth.js:132-155 | a password shorter than 6 is rejected before any lookup; a token with no unexpired holder gives 400; rejections change nothing; the answer is 200 exactly when the password is long enough and some record holds the token unexpired, and then that record gets the new hash and loses the token and expiry |
| Dashboard.LoadDashboard | frontend/src/pages/DashboardHubPage.jsx:14-30 | after a failed fetch the counters stay 0 and the list empty; otherwise totalJobs is the number of batches, totalCandidates the sum of their lengths, approvedCandidates the number of approved ones, and recentJobs the first min(3, n) batches |
| Dashboard.CandidateCount | frontend/src/pages/DashboardHubPage.jsx:18-25 | the reference definition of totalCandidates, the sum of the batches' candidate counts |
| Dashboard.ApprovedCount | frontend/src/pages/DashboardHubPage.jsx:18-25 | the reference definition of approvedCandidates, the number of approved candidates over all batches; bounded by ApprovedAtMostTotal and characterised by ApprovedCountZero |
| Dashboard.ApprovedAtMostTotal | frontend/src/pages/DashboardHubPage.jsx:18-24 | approvedCandidates never exceeds totalCandidates |
| Dashboard.ApprovedCountZero | frontend/src/pages/DashboardHubPage.jsx:22-24 | approvedCandidates is 0 exactly when no candidate is approved |
| Dashboard.NoApprovedNoValidatedSkills | frontend/src/pages/DashboardHubPage.jsx:22-24 | when the dashboard counts no approved candidate, matching boosts no skill |
| Dashboard.RecentAreNewest | frontend/src/pages/DashboardHubPage.jsx:27 | with the list newest first, no batch left out of recentJobs is newer than one in it |
| History.FilterIsSubsequence | frontend/src/pages/HistoryPage.jsx:26-28 | the filtered list is a subsequence of all batches, in their original order, and the embedding takes every position whose title matches, so every matching copy is kept |
| History.FilterBatches | frontend/src/pages/HistoryPage.jsx:26-28 | the filtered list is no longer than the input and every batch in it has a matching title |
| History.FilterMembership | frontend/src/pages/HistoryPage.jsx:26-28 | a batch is kept exactly when its lower-cased title contains the lower-cased term |
| History.EmptyTermKeepsAll | frontend/src/pages/HistoryPage.jsx:27 | an empty search term keeps every batch |
| History.CaseOfTermIrrelevant | frontend/src/pages/HistoryPage.jsx:27 | two terms that lower-case alike select the same batches |
| History.FilterEmpty | frontend/src/pages/HistoryPage.jsx:26-28 | the filtered list is empty exactly when no title matches |
| History.HistoryView | frontend/src/pages/HistoryPage.jsx:61-67 | "no saved analyses" exactly when there are no batches, "no match" exactly when there are batches but none matches, otherwise the filtered list |

## Left out

- Server errors other than the two modelled 500s (a body the NLP handler raises on, and an unreachable mail service): a database failure, a failed save, an exception from `jwt.sign`, and the CastError a malformed MongoDB id causes. Batch and candidate ids are plain numbers here.
- The user-data route `GET /api/auth` (backend/routes/api/auth.js:16-24) is a single database read and is not modelled.
- Upload parsing (multer and its 20-file cap) and PDF text extraction are not modelled. Extraction is the `extract` parameter.
- Matching.OutcomeOf: the `scorer` oracle answers a function of the request body alone, so two uploads with the same extracted text always share their fate; a run where one copy times out or fails to connect and the other is scored is not represented.
- The HTTP call to the NLP service and its 180-second timeout are not modelled. The reply is the `scorer` parameter, and a timeout is a `TransportFailure`.
- A successful reply whose JSON lacks the expected fields is not modelled; every ok reply carries an `Analysis`.
- spaCy skill extraction is the `skills` parameter.
- Scoring.FinalScore: exact rational arithmetic instead of IEEE doubles, which can differ from the exact value in the last bit before rounding.
- Scoring.SummarySentences: only which sentences appear is modelled, not their wording. The skills they list are the first three of an unordered set.
- The NLP service's startup code is not modelled.
- Scoring.AnalyzeResume: how Flask classifies a body (falsy, raising, or an object) is given by the `RequestBody` constructor, not parsed; an exception raised inside spaCy skill extraction, which would also give 500, is not modelled because `skills` is total. Objects with fields of other JSON types are not represented: a `resume_text` or `jd_text` that is an empty list or empty object passes `len()` and gets the 400 for missing text, and a `validated_skills` that is a string or an object is accepted by `set(...)` as the set of its characters or keys.
- Jobs.JobStore.UpdateNotes: states the route's intended overwrite of the notes; under the schema's default strict mode the assignment is neither saved nor returned, and that loss is not modelled.
- bcrypt, JWT signing and its 5-day expiry, `crypto.randomBytes` and the email HTML are not modelled. They appear as the parameters `passwordMatches`, `newHash`, `token` and `mail`, and login's success is the `SignedIn` user id.
- Auth.UserStore.Login: the email-format check is the `isEmail` parameter, and "password is required" is presence of the field.
- The User model is not part of this model. `findOne` is taken as the first matching record, and unique emails and tokens are not assumed; the token lemmas state uniqueness as a precondition.
- Jobs.JobStore.List: batches with equal analysisDate come out in the store's enumeration order, which the model leaves unspecified (MongoDB gives no order either).
- Jobs.JobStore.FindOwned: the order of the query's results is unspecified, and the model proves only that each owned batch appears exactly once.
- Mongoose type casting (such as a numeric string for `matchScore`) is not modelled. Request fields are typed values, present or absent.
- The history page's loading and error states and the dashboard's loading flag are not modelled. They are rendering only.
- Concurrency is not modelled. Files are processed strictly one after another, and each route runs as one step.
