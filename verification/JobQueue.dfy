/**
 The durable job queue of backend/app/jobs.py.

 Any number of workers share one table. A worker sweeps exhausted leases, reads a
 candidate row, claims it with a compare-and-set on (status, attempts), renews its
 lease while it works, and finally completes or fails the row. Every SQL statement is
 one atomic step. No step trusts a clock: the `now` carried by an event is arbitrary, so
 the safety theorems also cover replicas whose clocks disagree.
 */
module JobQueue {
  import opened Options

  const LEASE_SECONDS := 600.0
  const LEASE_ERROR := "worker lease expired after maximum attempts"

  datatype Status = Queued | Running | Succeeded | Failed

  datatype Job = Job(
    kind: string,
    key: Option<string>,
    payload: string,
    status: Status,
    attempts: nat,
    maxAttempts: nat,
    availableAt: real,
    lockedAt: Option<real>,
    lockedBy: Option<string>,
    finishedAt: Option<real>,
    result: Option<string>,
    error: Option<string>)
  {
    predicate Terminal() {
      status.Succeeded? || status.Failed?
    }
  }

  // ----- Row transitions -------------------------------------------------------------

  function NewJob(kind: string, key: Option<string>, payload: string, maxAttempts: int, now: real): Job {
    Job(kind, key, payload, Queued, 0, if maxAttempts > 1 then maxAttempts else 1, now,
        None, None, None, None, None)
  }

  predicate Owns(j: Job, worker: string, attempt: nat) {
    j.status.Running? && j.lockedBy == Some(worker) && j.attempts == attempt
  }

  predicate LeaseLive(j: Job, now: real) {
    j.lockedAt.Some? && j.lockedAt.value >= now - LEASE_SECONDS
  }

  predicate LeaseExpired(j: Job, now: real) {
    j.lockedAt.Some? && j.lockedAt.value < now - LEASE_SECONDS
  }

  function Expire(j: Job, now: real): Job {
    if j.status.Running? && LeaseExpired(j, now) && j.attempts >= j.maxAttempts then
      j.(status := Failed, error := Some(LEASE_ERROR), finishedAt := Some(now), lockedAt := None, lockedBy := None)
    else j
  }

  predicate Claimable(j: Job, now: real) {
    || (j.status.Queued? && j.availableAt <= now)
    || (j.status.Running? && LeaseExpired(j, now) && j.attempts < j.maxAttempts)
  }

  /** What a claiming worker remembers between its SELECT and its compare-and-set. */
  datatype Read = Read(job: nat, worker: string, status: Status, attempt: nat, now: real)

  predicate Matches(j: Job, read: Read) {
    && j.status == read.status
    && j.attempts == read.attempt
    && (j.status.Queued? || LeaseExpired(j, read.now))
  }

  function Take(j: Job, read: Read): Job {
    j.(status := Running, lockedBy := Some(read.worker), lockedAt := Some(read.now), attempts := read.attempt + 1)
  }

  function Renewed(j: Job, worker: string, attempt: nat, now: real): Job {
    if Owns(j, worker, attempt) && LeaseLive(j, now) then j.(lockedAt := Some(now)) else j
  }

  function Completed(j: Job, worker: string, attempt: nat, result: string, now: real): Job {
    if Owns(j, worker, attempt) then
      j.(status := Succeeded, result := Some(result), error := None, finishedAt := Some(now),
         lockedAt := None, lockedBy := None)
    else j
  }

  function Pow2(n: nat): (r: nat)
    ensures r >= 1
  {
    if n == 0 then 1 else 2 * Pow2(n - 1)
  }

  function Backoff(attempt: nat): nat {
    var delay := Pow2(if attempt < 6 then attempt else 6);
    if delay < 60 then delay else 60
  }

  function Failing(j: Job, worker: string, attempt: nat, error: string, now: real): Job {
    if Owns(j, worker, attempt) && LeaseLive(j, now) then
      var retry := attempt < j.maxAttempts;
      j.(error := Some(if |error| > 2000 then error[..2000] else error), lockedAt := None, lockedBy := None,
         status := if retry then Queued else Failed,
         availableAt := now + Backoff(attempt) as real,
         finishedAt := if retry then None else Some(now))
    else j
  }

  // ----- Queries over the table ------------------------------------------------------

  predicate Before(rows: seq<Job>, a: nat, b: nat)
    requires a < |rows| && b < |rows|
  {
    rows[a].availableAt < rows[b].availableAt || (rows[a].availableAt == rows[b].availableAt && a < b)
  }

  /** `ORDER BY available_at, id ... FOR UPDATE SKIP LOCKED LIMIT 1` over the first `n` rows. */
  function Pick(rows: seq<Job>, now: real, locked: set<nat>, n: nat): (r: Option<nat>)
    requires n <= |rows|
    ensures r.Some? ==> r.value < n
  {
    if n == 0 then None else
      var best := Pick(rows, now, locked, n - 1);
      if Claimable(rows[n - 1], now) && n - 1 !in locked && (best.None? || Before(rows, n - 1, best.value))
      then Some(n - 1) else best
  }

  /** The row a unique (kind, idempotency_key) already names, scanning the first `n` rows. */
  function Lookup(rows: seq<Job>, kind: string, key: string, n: nat): (r: Option<nat>)
    requires n <= |rows|
    ensures r.Some? ==> r.value < n && rows[r.value].kind == kind && rows[r.value].key == Some(key)
    ensures r.None? ==> forall i | 0 <= i < n :: rows[i].kind != kind || rows[i].key != Some(key)
  {
    if n == 0 then None
    else if rows[n - 1].kind == kind && rows[n - 1].key == Some(key) then Some(n - 1)
    else Lookup(rows, kind, key, n - 1)
  }

  datatype EnqueueResult = Inserted(id: nat) | Existing(id: nat) | IntegrityError

  /** An empty key is falsy: it is stored, but a clash on it is re-raised instead of resolved. */
  function EnqueueOutcome(rows: seq<Job>, kind: string, key: Option<string>): EnqueueResult {
    if key.None? then Inserted(|rows|) else
      var hit := Lookup(rows, kind, key.value, |rows|);
      if hit.None? then Inserted(|rows|)
      else if key.value == "" then IntegrityError
      else Existing(hit.value)
  }

  // ----- The protocol as a transition system ------------------------------------------

  datatype Claim = Claim(job: nat, worker: string, attempt: nat)

  /** `pending` holds the claims in progress by session; `claims` and `commits` are history. */
  datatype System = System(rows: seq<Job>, pending: map<nat, Read>, claims: seq<Claim>, commits: seq<Claim>)

  datatype Event =
    | Enqueue(kind: string, key: Option<string>, payload: string, maxAttempts: int, now: real)
    | Sweep(now: real)
    | ClaimRead(session: nat, worker: string, locked: set<nat>, now: real)
    | ClaimCas(session: nat)
    | Renew(job: nat, worker: string, attempt: nat, now: real)
    | Complete(job: nat, worker: string, attempt: nat, result: string, now: real)
    | Fail(job: nat, worker: string, attempt: nat, error: string, now: real)

  const EMPTY := System([], map[], [], [])

  function SweepRows(rows: seq<Job>, now: real): seq<Job> {
    seq(|rows|, i requires 0 <= i < |rows| => Expire(rows[i], now))
  }

  function ReadStep(s: System, session: nat, worker: string, locked: set<nat>, now: real): System {
    match Pick(s.rows, now, locked, |s.rows|)
    case None => s.(pending := s.pending - {session})
    case Some(i) => s.(pending := s.pending[session := Read(i, worker, s.rows[i].status, s.rows[i].attempts, now)])
  }

  function TakeStep(s: System, read: Read): System
    requires read.job < |s.rows|
  {
    s.(rows := s.rows[read.job := Take(s.rows[read.job], read)],
       claims := s.claims + [Claim(read.job, read.worker, read.attempt + 1)])
  }

  function CasStep(s: System, session: nat): System {
    if session !in s.pending then s else
      var read := s.pending[session];
      var rest := s.(pending := s.pending - {session});
      if read.job < |s.rows| && Matches(s.rows[read.job], read) then TakeStep(rest, read) else rest
  }

  /** A completion that matches a row commits the worker's domain transaction with it;
      one that does not rolls that transaction back. */
  function CompleteStep(s: System, job: nat, worker: string, attempt: nat, result: string, now: real): System {
    if job < |s.rows| && Owns(s.rows[job], worker, attempt) then
      s.(rows := s.rows[job := Completed(s.rows[job], worker, attempt, result, now)],
         commits := s.commits + [Claim(job, worker, attempt)])
    else s
  }

  function Step(s: System, e: Event): System {
    match e
    case Enqueue(kind, key, payload, maxAttempts, now) =>
      if EnqueueOutcome(s.rows, kind, key).Inserted?
      then s.(rows := s.rows + [NewJob(kind, key, payload, maxAttempts, now)]) else s
    case Sweep(now) => s.(rows := SweepRows(s.rows, now))
    case ClaimRead(session, worker, locked, now) => ReadStep(s, session, worker, locked, now)
    case ClaimCas(session) => CasStep(s, session)
    case Renew(job, worker, attempt, now) =>
      if job < |s.rows| then s.(rows := s.rows[job := Renewed(s.rows[job], worker, attempt, now)]) else s
    case Complete(job, worker, attempt, result, now) => CompleteStep(s, job, worker, attempt, result, now)
    case Fail(job, worker, attempt, error, now) =>
      if job < |s.rows| then s.(rows := s.rows[job := Failing(s.rows[job], worker, attempt, error, now)]) else s
  }

  function Run(s: System, events: seq<Event>): System {
    if events == [] then s else Step(Run(s, events[..|events| - 1]), events[|events| - 1])
  }

  // ----- Invariants --------------------------------------------------------------------

  predicate RowOk(j: Job) {
    && 1 <= j.maxAttempts
    && j.attempts <= j.maxAttempts
    && (j.status.Queued? ==> j.attempts < j.maxAttempts)
    && (j.status.Running? ==> 1 <= j.attempts)
    && (j.status.Running? <==> j.lockedAt.Some?)
    && (j.status.Running? <==> j.lockedBy.Some?)
    && (j.Terminal() <==> j.finishedAt.Some?)
    && (j.status.Failed? ==> j.attempts == j.maxAttempts)
  }

  function CountClaims(claims: seq<Claim>, job: nat): nat {
    if claims == [] then 0
    else CountClaims(claims[..|claims| - 1], job) + if claims[|claims| - 1].job == job then 1 else 0
  }

  ghost predicate KeysUnique(rows: seq<Job>) {
    forall i, k | 0 <= i < k < |rows| && rows[i].kind == rows[k].kind && rows[i].key.Some? ::
      rows[i].key != rows[k].key
  }

  ghost predicate RowsOk(rows: seq<Job>) {
    forall i | 0 <= i < |rows| :: RowOk(rows[i])
  }

  /** A remembered candidate still has an attempt left, whatever happened to it since. */
  ghost predicate ReadsOk(rows: seq<Job>, pending: map<nat, Read>) {
    forall session | session in pending ::
      pending[session].job < |rows| && pending[session].attempt < rows[pending[session].job].maxAttempts
  }

  /** Per job, claims carry increasing attempt numbers, one for each attempt of the row. */
  ghost predicate ClaimsOk(rows: seq<Job>, claims: seq<Claim>) {
    && (forall i | 0 <= i < |claims| ::
          claims[i].job < |rows| && 1 <= claims[i].attempt <= rows[claims[i].job].attempts)
    && (forall i, k | 0 <= i < k < |claims| && claims[i].job == claims[k].job ::
          claims[i].attempt < claims[k].attempt)
    && (forall i: nat :: CountClaims(claims, i) == if i < |rows| then rows[i].attempts else 0)
  }

  /** The lock of a running row belongs to the claim that took its current attempt. */
  predicate HolderLogged(rows: seq<Job>, claims: seq<Claim>, i: nat) {
    i < |rows| && rows[i].status.Running? && rows[i].lockedBy.Some? ==>
      Claim(i, rows[i].lockedBy.value, rows[i].attempts) in claims
  }

  ghost predicate LocksOk(rows: seq<Job>, claims: seq<Claim>) {
    forall i: nat :: HolderLogged(rows, claims, i)
  }

  /** A succeeded row committed exactly once, for the claim that took its last attempt. */
  ghost predicate CommitsOk(rows: seq<Job>, claims: seq<Claim>, commits: seq<Claim>) {
    && (forall i | 0 <= i < |commits| ::
          commits[i] in claims && commits[i].job < |rows| && commits[i].attempt == rows[commits[i].job].attempts)
    && (forall i: nat :: CountClaims(commits, i) == if i < |rows| && rows[i].status.Succeeded? then 1 else 0)
  }

  ghost predicate Inv(s: System) {
    && RowsOk(s.rows)
    && KeysUnique(s.rows)
    && ReadsOk(s.rows, s.pending)
    && ClaimsOk(s.rows, s.claims)
    && LocksOk(s.rows, s.claims)
    && CommitsOk(s.rows, s.claims, s.commits)
  }

  /** How a row may change: identity is fixed, attempts only grow, terminal rows are frozen. */
  predicate Advances(a: Job, b: Job) {
    && b.kind == a.kind && b.key == a.key && b.payload == a.payload && b.maxAttempts == a.maxAttempts
    && a.attempts <= b.attempts
    && (a.Terminal() ==> b == a)
  }

  ghost predicate RowsEvolve(rows: seq<Job>, next: seq<Job>) {
    |rows| <= |next| && forall i | 0 <= i < |rows| :: Advances(rows[i], next[i])
  }

  ghost predicate Evolves(s: System, t: System) {
    && RowsEvolve(s.rows, t.rows)
    && s.claims <= t.claims
    && s.commits <= t.commits
  }
}
