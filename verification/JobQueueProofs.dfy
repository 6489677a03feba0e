module JobQueueProofs {
  import opened Options
  import opened JobQueue

  /** The candidate query returns the first claimable unlocked row in (available_at, id) order. */
  lemma PickIsEarliest(rows: seq<Job>, now: real, locked: set<nat>, n: nat)
    requires n <= |rows|
    ensures var r := Pick(rows, now, locked, n);
            && (r.Some? ==> Claimable(rows[r.value], now) && r.value !in locked)
            && (forall i: nat | i < n && Claimable(rows[i], now) && i !in locked ::
                  r.Some? && (i == r.value || Before(rows, r.value, i)))
  {
  }

  /** A row change that neither claims nor completes: it may only release or refresh a lock. */
  predicate Quiet(a: Job, b: Job) {
    && Advances(a, b) && RowOk(b) && b.attempts == a.attempts
    && (b.status.Running? ==> a.status.Running? && b.lockedBy == a.lockedBy)
    && (b.status.Succeeded? <==> a.status.Succeeded?)
  }

  lemma RowsEvolveKeeps(rows: seq<Job>, next: seq<Job>, pending: map<nat, Read>)
    requires RowsEvolve(rows, next) && |next| == |rows|
    requires KeysUnique(rows) && ReadsOk(rows, pending)
    ensures KeysUnique(next) && ReadsOk(next, pending)
  {
  }

  lemma QuietKeepsLogs(rows: seq<Job>, next: seq<Job>, claims: seq<Claim>, commits: seq<Claim>)
    requires |next| == |rows| && forall i | 0 <= i < |rows| :: Quiet(rows[i], next[i])
    requires ClaimsOk(rows, claims) && LocksOk(rows, claims) && CommitsOk(rows, claims, commits)
    ensures ClaimsOk(next, claims) && LocksOk(next, claims) && CommitsOk(next, claims, commits)
  {
    assert forall i: nat :: HolderLogged(rows, claims, i) ==> HolderLogged(next, claims, i);
  }

  lemma QuietKeepsInv(s: System, rows: seq<Job>)
    requires Inv(s)
    requires |rows| == |s.rows| && forall i | 0 <= i < |rows| :: Quiet(s.rows[i], rows[i])
    ensures Inv(s.(rows := rows)) && Evolves(s, s.(rows := rows))
  {
    RowsEvolveKeeps(s.rows, rows, s.pending);
    QuietKeepsLogs(s.rows, rows, s.claims, s.commits);
  }

  lemma EnqueueKeepsInv(s: System, j: Job)
    requires Inv(s)
    requires RowOk(j) && j.status.Queued? && j.attempts == 0
    requires j.key.Some? ==> Lookup(s.rows, j.kind, j.key.value, |s.rows|).None?
    ensures Inv(s.(rows := s.rows + [j])) && Evolves(s, s.(rows := s.rows + [j]))
  {
    var rows := s.rows + [j];
    assert KeysUnique(rows);
    assert ClaimsOk(rows, s.claims);
    assert CommitsOk(rows, s.claims, s.commits);
    assert forall i: nat :: HolderLogged(s.rows, s.claims, i) ==> HolderLogged(rows, s.claims, i);
  }

  lemma EnqueueStepKeepsInv(s: System, kind: string, key: Option<string>, payload: string, maxAttempts: int, now: real)
    requires Inv(s)
    ensures var t := Step(s, Enqueue(kind, key, payload, maxAttempts, now)); Inv(t) && Evolves(s, t)
  {
    if EnqueueOutcome(s.rows, kind, key).Inserted? {
      hide Inv, Evolves;
      EnqueueKeepsInv(s, NewJob(kind, key, payload, maxAttempts, now));
    }
  }

  lemma AppendCounts(log: seq<Claim>, c: Claim)
    ensures forall i: nat :: CountClaims(log + [c], i) == CountClaims(log, i) + if c.job == i then 1 else 0
  {
    assert (log + [c])[..|log|] == log;
  }

  lemma {:induction false} LoggedIsCounted(log: seq<Claim>, i: nat)
    requires i < |log|
    ensures CountClaims(log, log[i].job) >= 1
  {
    if i < |log| - 1 { LoggedIsCounted(log[..|log| - 1], i); }
  }

  lemma TakeKeepsClaims(rows: seq<Job>, claims: seq<Claim>, read: Read)
    requires ClaimsOk(rows, claims)
    requires read.job < |rows| && read.attempt == rows[read.job].attempts
    ensures ClaimsOk(rows[read.job := Take(rows[read.job], read)],
                     claims + [Claim(read.job, read.worker, read.attempt + 1)])
  {
    AppendCounts(claims, Claim(read.job, read.worker, read.attempt + 1));
  }

  lemma TakeKeepsLocks(rows: seq<Job>, claims: seq<Claim>, read: Read)
    requires LocksOk(rows, claims) && read.job < |rows|
    ensures LocksOk(rows[read.job := Take(rows[read.job], read)],
                    claims + [Claim(read.job, read.worker, read.attempt + 1)])
  {
    var log := claims + [Claim(read.job, read.worker, read.attempt + 1)];
    var next := rows[read.job := Take(rows[read.job], read)];
    assert log[|claims|] in log;
    forall i: nat ensures HolderLogged(next, log, i) {
      assert HolderLogged(rows, claims, i);
    }
  }

  /** No claim can take a committed job, so its commit stays the last claim of the job. */
  lemma TakeKeepsCommits(rows: seq<Job>, claims: seq<Claim>, commits: seq<Claim>, read: Read)
    requires CommitsOk(rows, claims, commits)
    requires read.job < |rows| && !rows[read.job].status.Succeeded?
    ensures CommitsOk(rows[read.job := Take(rows[read.job], read)],
                      claims + [Claim(read.job, read.worker, read.attempt + 1)], commits)
  {
    forall i | 0 <= i < |commits| ensures commits[i].job != read.job {
      LoggedIsCounted(commits, i);
    }
  }

  lemma TakeKeepsRows(rows: seq<Job>, pending: map<nat, Read>, read: Read)
    requires RowsOk(rows) && KeysUnique(rows) && ReadsOk(rows, pending)
    requires read.job < |rows| && read.attempt < rows[read.job].maxAttempts && Matches(rows[read.job], read)
    ensures var next := rows[read.job := Take(rows[read.job], read)];
            RowsOk(next) && KeysUnique(next) && ReadsOk(next, pending) && RowsEvolve(rows, next)
  {
    var next := rows[read.job := Take(rows[read.job], read)];
    assert RowOk(rows[read.job]);
    RowsEvolveKeeps(rows, next, pending);
  }

  lemma TakeKeepsInv(s: System, read: Read)
    requires Inv(s)
    requires read.job < |s.rows| && read.attempt < s.rows[read.job].maxAttempts && Matches(s.rows[read.job], read)
    ensures Inv(TakeStep(s, read)) && Evolves(s, TakeStep(s, read))
  {
    hide KeysUnique, ReadsOk, ClaimsOk, LocksOk, CommitsOk, RowsEvolve;
    assert RowOk(s.rows[read.job]);
    TakeKeepsRows(s.rows, s.pending, read);
    TakeKeepsClaims(s.rows, s.claims, read);
    TakeKeepsLocks(s.rows, s.claims, read);
    TakeKeepsCommits(s.rows, s.claims, s.commits, read);
    hide RowsOk, Take;
  }

  lemma CasKeepsInv(s: System, session: nat)
    requires Inv(s)
    ensures Inv(CasStep(s, session)) && Evolves(s, CasStep(s, session))
  {
    if session in s.pending {
      var read, rest := s.pending[session], s.(pending := s.pending - {session});
      assert ReadsOk(s.rows, rest.pending);
      if Matches(s.rows[read.job], read) { TakeKeepsInv(rest, read); }
    }
  }

  lemma CompleteKeepsLogs(rows: seq<Job>, claims: seq<Claim>, commits: seq<Claim>, c: Claim, done: Job)
    requires ClaimsOk(rows, claims) && LocksOk(rows, claims) && CommitsOk(rows, claims, commits)
    requires c.job < |rows| && Owns(rows[c.job], c.worker, c.attempt)
    requires done.status.Succeeded? && done.attempts == rows[c.job].attempts
    ensures var next := rows[c.job := done];
            ClaimsOk(next, claims) && LocksOk(next, claims) && CommitsOk(next, claims, commits + [c])
  {
    AppendCounts(commits, c);
    assert HolderLogged(rows, claims, c.job);
    var next := rows[c.job := done];
    assert forall i: nat :: HolderLogged(rows, claims, i) ==> HolderLogged(next, claims, i);
  }

  lemma CompleteKeepsInv(s: System, job: nat, worker: string, attempt: nat, result: string, now: real)
    requires Inv(s)
    ensures var t := CompleteStep(s, job, worker, attempt, result, now); Inv(t) && Evolves(s, t)
  {
    if job < |s.rows| && Owns(s.rows[job], worker, attempt) {
      var done := Completed(s.rows[job], worker, attempt, result, now);
      assert RowOk(s.rows[job]);
      RowsEvolveKeeps(s.rows, s.rows[job := done], s.pending);
      CompleteKeepsLogs(s.rows, s.claims, s.commits, Claim(job, worker, attempt), done);
    }
  }

  lemma ReadKeepsInv(s: System, session: nat, worker: string, locked: set<nat>, now: real)
    requires Inv(s)
    ensures var t := ReadStep(s, session, worker, locked, now); Inv(t) && Evolves(s, t)
  {
    var pick := Pick(s.rows, now, locked, |s.rows|);
    if pick.Some? {
      PickIsEarliest(s.rows, now, locked, |s.rows|);
      assert RowOk(s.rows[pick.value]);
    }
    assert ReadsOk(s.rows, ReadStep(s, session, worker, locked, now).pending);
  }

  lemma RowStepKeepsInv(s: System, e: Event)
    requires Inv(s) && (e.Sweep? || e.Renew? || e.Fail?)
    ensures Inv(Step(s, e)) && Evolves(s, Step(s, e))
  {
    var t := Step(s, e);
    hide KeysUnique, ReadsOk, ClaimsOk, LocksOk, CommitsOk, Evolves;
    forall i | 0 <= i < |s.rows| ensures Quiet(s.rows[i], t.rows[i]) {
      assert RowOk(s.rows[i]);
    }
    hide Inv;
    QuietKeepsInv(s, t.rows);
    assert t == s.(rows := t.rows);
  }

  lemma StepKeepsInv(s: System, e: Event)
    requires Inv(s)
    ensures Inv(Step(s, e)) && Evolves(s, Step(s, e))
  {
    hide Inv, Evolves;
    match e
    case Enqueue(kind, key, payload, maxAttempts, now) =>
      EnqueueStepKeepsInv(s, kind, key, payload, maxAttempts, now);
    case ClaimRead(session, worker, locked, now) =>
      ReadKeepsInv(s, session, worker, locked, now);
    case ClaimCas(session) =>
      CasKeepsInv(s, session);
    case Complete(job, worker, attempt, result, now) =>
      CompleteKeepsInv(s, job, worker, attempt, result, now);
    case _ =>
      RowStepKeepsInv(s, e);
  }
}
