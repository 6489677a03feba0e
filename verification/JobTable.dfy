/** The table itself, changed in place by the statements of backend/app/jobs.py. */
module JobTable {
  import opened Options
  import opened JobQueue
  import opened JobQueueProofs

  class AsyncJobs {
    var rows: seq<Job>

    constructor ()
      ensures rows == []
    {
      rows := [];
    }

    method Enqueue(kind: string, key: Option<string>, payload: string, maxAttempts: int, now: real)
        returns (outcome: EnqueueResult)
      modifies this
      ensures outcome == EnqueueOutcome(old(rows), kind, key)
      ensures outcome.Inserted? <==> key.None? || forall i | 0 <= i < |old(rows)| :: old(rows)[i].kind != kind || old(rows)[i].key != key
      ensures outcome.Existing? ==> outcome.id < |rows| && rows[outcome.id].kind == kind && rows[outcome.id].key == key && key != Some("")
      ensures outcome.Inserted? ==>
                && outcome.id == |old(rows)| && rows == old(rows) + [NewJob(kind, key, payload, maxAttempts, now)]
                && rows[outcome.id] == Job(kind, key, payload, Queued, 0, if maxAttempts > 1 then maxAttempts else 1, now,
                                           None, None, None, None, None)
      ensures !outcome.Inserted? ==> rows == old(rows)
    {
      outcome := Inserted(|rows|);
      if key.Some? {
        var hit := Lookup(rows, kind, key.value, |rows|);
        if hit.Some? {
          outcome := if key.value == "" then IntegrityError else Existing(hit.value);
          return;
        }
      }
      rows := rows + [NewJob(kind, key, payload, maxAttempts, now)];
    }

    /** Fails every running row whose lease expired on its last attempt. */
    method SweepExpired(now: real)
      modifies this
      ensures rows == SweepRows(old(rows), now)
      ensures forall i | 0 <= i < |rows| :: var j := old(rows)[i];
                rows[i] == if j.status.Running? && j.lockedAt.Some? && j.lockedAt.value < now - 600.0 && j.attempts >= j.maxAttempts
                           then j.(status := Failed, error := Some("worker lease expired after maximum attempts"),
                                   finishedAt := Some(now), lockedAt := None, lockedBy := None)
                           else j
    {
      var i := 0;
      while i < |rows|
        invariant 0 <= i <= |rows| == |old(rows)|
        invariant forall k | 0 <= k < i :: rows[k] == Expire(old(rows)[k], now)
        invariant forall k | i <= k < |rows| :: rows[k] == old(rows)[k]
      {
        var j := rows[i];
        if j.status.Running? && LeaseExpired(j, now) && j.attempts >= j.maxAttempts {
          rows := rows[i := j.(status := Failed, error := Some(LEASE_ERROR), finishedAt := Some(now),
                               lockedAt := None, lockedBy := None)];
        }
        i := i + 1;
      }
    }

    /** Reads the earliest claimable row that no other session has locked. */
    method Candidate(now: real, locked: set<nat>) returns (best: Option<nat>)
      ensures best == Pick(rows, now, locked, |rows|)
      ensures best.Some? ==> best.value < |rows| && best.value !in locked && Open(rows[best.value], now)
      ensures forall i: nat | i < |rows| && i !in locked && Open(rows[i], now) ::
                best.Some? && (i == best.value || rows[best.value].availableAt < rows[i].availableAt
                               || (rows[best.value].availableAt == rows[i].availableAt && best.value < i))
    {
      PickIsEarliest(rows, now, locked, |rows|);
      best := None;
      var i := 0;
      while i < |rows|
        invariant 0 <= i <= |rows|
        invariant best == Pick(rows, now, locked, i)
      {
        if Claimable(rows[i], now) && i !in locked && (best.None? || Before(rows, i, best.value)) {
          best := Some(i);
        }
        i := i + 1;
      }
    }

    /** The whole of `_claim` run by one session without interruption. */
    method Claim(worker: string, locked: set<nat>, now: real) returns (claimed: Option<nat>)
      modifies this
      ensures var swept := SweepRows(old(rows), now);
              && claimed == Pick(swept, now, locked, |swept|)
              && (claimed.None? ==> rows == swept)
              && (claimed.Some? ==>
                    var j := swept[claimed.value];
                    rows == swept[claimed.value := Take(j, Read(claimed.value, worker, j.status, j.attempts, now))])
    {
      SweepExpired(now);
      claimed := Candidate(now, locked);
      if claimed.Some? {
        CandidateMatches(rows, now, locked, |rows|);
        var j := rows[claimed.value];
        var changed := CompareAndSet(Read(claimed.value, worker, j.status, j.attempts, now));
        assert changed;
      }
    }

    method CompareAndSet(read: Read) returns (changed: bool)
      modifies this
      ensures changed <==> read.job < |old(rows)| && Matches(old(rows)[read.job], read)
      ensures rows == if changed then old(rows)[read.job := Take(old(rows)[read.job], read)] else old(rows)
      ensures changed <==> read.job < |old(rows)| && var j := old(rows)[read.job];
                && j.status == read.status && j.attempts == read.attempt
                && (j.status.Queued? || (j.lockedAt.Some? && j.lockedAt.value < read.now - 600.0))
      ensures changed ==> rows[read.job] == old(rows)[read.job].(status := Running, lockedBy := Some(read.worker),
                                                                 lockedAt := Some(read.now), attempts := read.attempt + 1)
      ensures |rows| == |old(rows)| && forall i | 0 <= i < |rows| && (i != read.job || !changed) :: rows[i] == old(rows)[i]
    {
      changed := read.job < |rows| && Matches(rows[read.job], read);
      if changed {
        rows := rows[read.job := Take(rows[read.job], read)];
      }
    }

    method Renew(job: nat, worker: string, attempt: nat, now: real) returns (owned: bool)
      modifies this
      ensures owned <==> job < |old(rows)| && Owns(old(rows)[job], worker, attempt) && LeaseLive(old(rows)[job], now)
      ensures rows == if job < |old(rows)| then old(rows)[job := Renewed(old(rows)[job], worker, attempt, now)]
                      else old(rows)
      ensures owned <==> job < |old(rows)| && HeldBy(old(rows)[job], worker, attempt) && HeldSince(old(rows)[job], now - 600.0)
      ensures owned ==> rows[job] == old(rows)[job].(lockedAt := Some(now))
      ensures |rows| == |old(rows)| && forall i | 0 <= i < |rows| && (i != job || !owned) :: rows[i] == old(rows)[i]
    {
      owned := job < |rows| && Owns(rows[job], worker, attempt) && LeaseLive(rows[job], now);
      if owned { rows := rows[job := Renewed(rows[job], worker, attempt, now)]; }
    }

    /** Completion asks for ownership only: it may still win after the lease ran out. */
    method Complete(job: nat, worker: string, attempt: nat, result: string, now: real) returns (done: bool)
      modifies this
      ensures done <==> job < |old(rows)| && Owns(old(rows)[job], worker, attempt)
      ensures rows == if job < |old(rows)| then old(rows)[job := Completed(old(rows)[job], worker, attempt, result, now)]
                      else old(rows)
      ensures done <==> job < |old(rows)| && HeldBy(old(rows)[job], worker, attempt)
      ensures done ==> rows[job] == old(rows)[job].(status := Succeeded, result := Some(result), error := None,
                                                    finishedAt := Some(now), lockedAt := None, lockedBy := None)
      ensures |rows| == |old(rows)| && forall i | 0 <= i < |rows| && (i != job || !done) :: rows[i] == old(rows)[i]
    {
      done := job < |rows| && Owns(rows[job], worker, attempt);
      if done { rows := rows[job := Completed(rows[job], worker, attempt, result, now)]; }
    }

    /** Failure also asks for a live lease; with attempts left the row is queued again. */
    method Fail(job: nat, worker: string, attempt: nat, error: string, now: real) returns (failed: bool)
      modifies this
      ensures failed <==> job < |old(rows)| && Owns(old(rows)[job], worker, attempt) && LeaseLive(old(rows)[job], now)
      ensures rows == if job < |old(rows)| then old(rows)[job := Failing(old(rows)[job], worker, attempt, error, now)]
                      else old(rows)
      ensures failed <==> job < |old(rows)| && HeldBy(old(rows)[job], worker, attempt) && HeldSince(old(rows)[job], now - 600.0)
      ensures failed ==>
                var retry := attempt < old(rows)[job].maxAttempts;
                && rows[job] == old(rows)[job].(status := if retry then Queued else Failed, availableAt := rows[job].availableAt,
                                                error := Some(if |error| > 2000 then error[..2000] else error),
                                                finishedAt := if retry then None else Some(now), lockedAt := None, lockedBy := None)
                && rows[job].availableAt > now
      ensures |rows| == |old(rows)| && forall i | 0 <= i < |rows| && (i != job || !failed) :: rows[i] == old(rows)[i]
    {
      failed := job < |rows| && Owns(rows[job], worker, attempt) && LeaseLive(rows[job], now);
      if failed { rows := rows[job := Failing(rows[job], worker, attempt, error, now)]; }
    }
  }

  /** The row runs under this worker's attempt. */
  predicate HeldBy(j: Job, worker: string, attempt: nat) {
    j.status.Running? && j.lockedBy == Some(worker) && j.attempts == attempt
  }

  predicate HeldSince(j: Job, t: real) {
    j.lockedAt.Some? && j.lockedAt.value >= t
  }

  /** The row waits and is available, or its lease has run out with attempts left. */
  predicate Open(j: Job, now: real) {
    || (j.status.Queued? && j.availableAt <= now)
    || (j.status.Running? && j.lockedAt.Some? && j.lockedAt.value < now - 600.0 && j.attempts < j.maxAttempts)
  }

  lemma CandidateMatches(rows: seq<Job>, now: real, locked: set<nat>, n: nat)
    requires n <= |rows|
    ensures var r := Pick(rows, now, locked, n);
            r.Some? ==> var j := rows[r.value]; forall worker: string ::
              Matches(j, Read(r.value, worker, j.status, j.attempts, now))
  {
  }
}
