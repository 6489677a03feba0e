/** What holds in every run of the job queue, for any interleaving of any number of workers. */
module JobTheorems {
  import opened Options
  import opened JobQueue
  import opened JobQueueProofs

  lemma AdvancesTransitively(a: Job, b: Job, c: Job)
    requires Advances(a, b) && Advances(b, c)
    ensures Advances(a, c)
  {
  }

  lemma {:induction false} RunKeepsInv(s: System, events: seq<Event>)
    requires Inv(s)
    ensures Inv(Run(s, events)) && Evolves(s, Run(s, events))
  {
    hide Inv, Step;
    if events != [] {
      var prefix := events[..|events| - 1];
      RunKeepsInv(s, prefix);
      var mid := Run(s, prefix);
      StepKeepsInv(mid, events[|events| - 1]);
      var t := Run(s, events);
      forall i | 0 <= i < |s.rows| ensures Advances(s.rows[i], t.rows[i]) {
        AdvancesTransitively(s.rows[i], mid.rows[i], t.rows[i]);
      }
    }
  }

  lemma {:induction false} RunSplits(s: System, before: seq<Event>, after: seq<Event>)
    ensures Run(s, before + after) == Run(Run(s, before), after)
  {
    hide Step;
    if after == [] {
      assert before + after == before;
    } else {
      var init := after[..|after| - 1];
      RunSplits(s, before, init);
      assert (before + after)[..|before + after| - 1] == before + init;
    }
  }

  lemma EmptyOk()
    ensures Inv(EMPTY)
  {
    assert forall i: nat :: HolderLogged(EMPTY.rows, EMPTY.claims, i);
  }

  lemma ReachableOk(events: seq<Event>)
    ensures Inv(Run(EMPTY, events))
  {
    hide *;
    EmptyOk();
    RunKeepsInv(EMPTY, events);
  }

  // ----- Fencing ----------------------------------------------------------------------

  lemma {:induction false} CountedTwice(log: seq<Claim>, i: nat, k: nat)
    requires i < k < |log| && log[i].job == log[k].job
    ensures CountClaims(log, log[i].job) >= 2
  {
    var front := log[..|log| - 1];
    if k < |front| { CountedTwice(front, i, k); } else { LoggedIsCounted(front, i); }
  }

  /** No two claims of a job share an attempt number, so at most one of them owns the row. */
  lemma ClaimsAreFenced(events: seq<Event>)
    ensures var s := Run(EMPTY, events);
            && (forall i, k | 0 <= i < k < |s.claims| && s.claims[i].job == s.claims[k].job ::
                  s.claims[i].attempt < s.claims[k].attempt)
            && (forall c, d | c in s.claims && d in s.claims && c.job == d.job && c.attempt == d.attempt :: c == d)
  {
    ReachableOk(events);
  }

  /** A job's domain transaction commits at most once, and only for the newest claim of the job. */
  lemma CommitsAtMostOnce(events: seq<Event>)
    ensures var s := Run(EMPTY, events);
            && (forall i, k | 0 <= i < k < |s.commits| :: s.commits[i].job != s.commits[k].job)
            && (forall i, k | 0 <= i < |s.commits| && 0 <= k < |s.claims| && s.claims[k].job == s.commits[i].job ::
                  s.commits[i] in s.claims && s.claims[k].attempt <= s.commits[i].attempt)
  {
    ReachableOk(events);
    var s := Run(EMPTY, events);
    forall i, k | 0 <= i < k < |s.commits| ensures s.commits[i].job != s.commits[k].job {
      if s.commits[i].job == s.commits[k].job { CountedTwice(s.commits, i, k); }
    }
  }

  lemma HolderIsClaim(s: System, c: Claim)
    requires Inv(s) && c in s.claims
    requires s.rows[c.job].status.Running? && s.rows[c.job].attempts == c.attempt
    ensures s.rows[c.job].lockedBy == Some(c.worker)
  {
    assert RowOk(s.rows[c.job]) && HolderLogged(s.rows, s.claims, c.job);
  }

  /** A late worker's transaction commits, lease or no lease, exactly when its job is still
      running and nobody claimed it again. */
  lemma CommitsIffNotSuperseded(events: seq<Event>, c: Claim, result: string, now: real)
    requires c in Run(EMPTY, events).claims
    ensures var s := Run(EMPTY, events);
            c.job < |s.rows| &&
            (Step(s, Complete(c.job, c.worker, c.attempt, result, now)).commits == s.commits + [c] <==>
             s.rows[c.job].status.Running? &&
             forall i | 0 <= i < |s.claims| && s.claims[i].job == c.job :: s.claims[i].attempt <= c.attempt)
  {
    ReachableOk(events);
    var s := Run(EMPTY, events);
    var j := s.rows[c.job];
    if j.status.Running? {
      assert RowOk(j) && HolderLogged(s.rows, s.claims, c.job);
      if j.attempts == c.attempt { HolderIsClaim(s, c); }
    }
    assert |s.commits + [c]| == |s.commits| + 1;
  }

  lemma StrangersChangeNothing(s: System, c: Claim, text: string, now: real)
    requires c.job < |s.rows| && !Owns(s.rows[c.job], c.worker, c.attempt)
    ensures Step(s, Complete(c.job, c.worker, c.attempt, text, now)) == s
    ensures Step(s, Fail(c.job, c.worker, c.attempt, text, now)) == s
    ensures Step(s, Renew(c.job, c.worker, c.attempt, now)) == s
  {
    assert s.rows[c.job := s.rows[c.job]] == s.rows;
  }

  lemma ClaimFits(s: System, c: Claim)
    requires Inv(s) && c in s.claims
    ensures c.job < |s.rows| && c.attempt <= s.rows[c.job].attempts
  {
  }

  /** Once a newer claim exists, the older worker can never complete, fail or renew the job. */
  lemma SupersededNeverActs(before: seq<Event>, after: seq<Event>, c: Claim, d: Claim, text: string, now: real)
    requires c in Run(EMPTY, before).claims && d in Run(EMPTY, before).claims
    requires c.job == d.job && c.attempt < d.attempt
    ensures var s := Run(EMPTY, before + after);
            && Step(s, Complete(c.job, c.worker, c.attempt, text, now)) == s
            && Step(s, Fail(c.job, c.worker, c.attempt, text, now)) == s
            && Step(s, Renew(c.job, c.worker, c.attempt, now)) == s
  {
    hide Run, Step, Inv;
    ReachableOk(before);
    var mid := Run(EMPTY, before);
    ClaimFits(mid, d);
    RunKeepsInv(mid, after);
    RunSplits(EMPTY, before, after);
    var s := Run(mid, after);
    assert Advances(mid.rows[c.job], s.rows[c.job]);
    StrangersChangeNothing(s, c, text, now);
  }

  /** Succeeded and failed are absorbing: nothing in any continuation touches such a row. */
  lemma TerminalRowsNeverChange(before: seq<Event>, after: seq<Event>, i: nat)
    requires i < |Run(EMPTY, before).rows| && Run(EMPTY, before).rows[i].Terminal()
    ensures var t := Run(EMPTY, before + after); i < |t.rows| && t.rows[i] == Run(EMPTY, before).rows[i]
  {
    ReachableOk(before);
    RunKeepsInv(Run(EMPTY, before), after);
    RunSplits(EMPTY, before, after);
    assert Advances(Run(EMPTY, before).rows[i], Run(EMPTY, before + after).rows[i]);
  }

  // ----- Bounds and progress -----------------------------------------------------------

  function TotalAttempts(rows: seq<Job>): nat {
    if rows == [] then 0 else TotalAttempts(rows[..|rows| - 1]) + rows[|rows| - 1].attempts
  }

  function TotalAllowed(rows: seq<Job>): nat {
    if rows == [] then 0 else TotalAllowed(rows[..|rows| - 1]) + rows[|rows| - 1].maxAttempts
  }

  /** Every row obeys the retry bound, holds a lock exactly while running, and was claimed
      once for each of its attempts. */
  lemma RowsStayBounded(events: seq<Event>, i: nat)
    requires i < |Run(EMPTY, events).rows|
    ensures var s := Run(EMPTY, events);
            && RowOk(s.rows[i])
            && CountClaims(s.claims, i) == s.rows[i].attempts <= s.rows[i].maxAttempts
  {
    ReachableOk(events);
  }

  function CountBelow(log: seq<Claim>, n: nat): nat {
    if n == 0 then 0 else CountBelow(log, n - 1) + CountClaims(log, n - 1)
  }

  lemma {:induction false} CountBelowAppend(log: seq<Claim>, c: Claim, n: nat)
    ensures CountBelow(log + [c], n) == CountBelow(log, n) + if c.job < n then 1 else 0
  {
    AppendCounts(log, c);
    if n > 0 { CountBelowAppend(log, c, n - 1); }
  }

  lemma {:induction false} CountBelowIsLength(log: seq<Claim>, n: nat)
    requires forall i | 0 <= i < |log| :: log[i].job < n
    ensures CountBelow(log, n) == |log|
  {
    if log == [] {
      EmptyCountsNothing(n);
    } else {
      var front := log[..|log| - 1];
      assert log == front + [log[|log| - 1]];
      CountBelowIsLength(front, n);
      CountBelowAppend(front, log[|log| - 1], n);
    }
  }

  lemma EmptyCountsNothing(n: nat)
    ensures CountBelow([], n) == 0
  {
  }

  lemma {:induction false} AttemptsAreCounted(s: System, rows: seq<Job>)
    requires Inv(s) && rows <= s.rows
    ensures CountBelow(s.claims, |rows|) == TotalAttempts(rows) <= TotalAllowed(rows)
  {
    if rows != [] {
      AttemptsAreCounted(s, rows[..|rows| - 1]);
      assert RowOk(s.rows[|rows| - 1]);
    }
  }

  /** Work is finite: over a whole run the queue hands out at most the allowed attempts. */
  lemma ClaimsAreBounded(events: seq<Event>)
    ensures var s := Run(EMPTY, events); |s.claims| == TotalAttempts(s.rows) <= TotalAllowed(s.rows)
  {
    ReachableOk(events);
    var s := Run(EMPTY, events);
    CountBelowIsLength(s.claims, |s.rows|);
    AttemptsAreCounted(s, s.rows);
  }

  /** The moment from which an unfinished row can be acted on. */
  predicate Due(j: Job, now: real) {
    (j.status.Queued? && j.availableAt <= now) || (j.status.Running? && LeaseExpired(j, now))
  }

  /** A claim that nobody disturbs between its read and its compare-and-set takes the row it read. */
  lemma UndisturbedClaim(s: System, k: nat, session: nat, worker: string, now: real)
    requires k < |s.rows| && Pick(s.rows, now, {}, |s.rows|) == Some(k) && Claimable(s.rows[k], now)
    ensures var t := Step(Step(s, ClaimRead(session, worker, {}, now)), ClaimCas(session));
            && t.claims == s.claims + [Claim(k, worker, s.rows[k].attempts + 1)]
            && t.rows[k].status.Running? && t.rows[k].attempts == s.rows[k].attempts + 1
  {
    var read := Read(k, worker, s.rows[k].status, s.rows[k].attempts, now);
    var mid := Step(s, ClaimRead(session, worker, {}, now));
    assert mid == s.(pending := s.pending[session := read]);
    assert Matches(mid.rows[k], read);
  }

  /** A row that is not terminal becomes due once the clock passes its own deadline. */
  lemma UnfinishedRowsBecomeDue(events: seq<Event>, i: nat, now: real)
    requires i < |Run(EMPTY, events).rows| && !Run(EMPTY, events).rows[i].Terminal()
    ensures var j := Run(EMPTY, events).rows[i];
            && (j.status.Queued? && now >= j.availableAt ==> Due(j, now))
            && (j.status.Running? ==> j.lockedAt.Some? && (now > j.lockedAt.value + 600.0 ==> Due(j, now)))
  {
    ReachableOk(events);
    assert RowOk(Run(EMPTY, events).rows[i]);
  }

  /** The clock reading a step acts on; a compare-and-set acts on the one of its own read. */
  function ActsAt(s: System, e: Event): real {
    match e
    case ClaimCas(session) => if session in s.pending then s.pending[session].now else 0.0
    case _ => e.now
  }

  predicate ByOwner(s: System, e: Event, i: nat) {
    match e
    case Renew(job, worker, attempt, _) => job == i && i < |s.rows| && Owns(s.rows[i], worker, attempt)
    case Complete(job, worker, attempt, _, _) => job == i && i < |s.rows| && Owns(s.rows[i], worker, attempt)
    case Fail(job, worker, attempt, _, _) => job == i && i < |s.rows| && Owns(s.rows[i], worker, attempt)
    case _ => false
  }

  /** While a lease is live nobody but its owner changes the row, not even a claim read earlier. */
  lemma LeaseExcludesOthers(s: System, e: Event, i: nat, now: real)
    requires i < |s.rows| && s.rows[i].status.Running? && LeaseLive(s.rows[i], now)
    requires ActsAt(s, e) <= now && !ByOwner(s, e, i)
    ensures Step(s, e).rows[i] == s.rows[i]
  {
    if e.ClaimRead? { assert Step(s, e).rows == s.rows; }
  }

  /** A claim and a renewal protect their row for 600 seconds from their own clock reading. */
  lemma LeaseWindow(j: Job, read: Read, worker: string, attempt: nat, now: real, later: real)
    ensures LeaseLive(Take(j, read), later) <==> later <= read.now + 600.0
    ensures Owns(Take(j, read), read.worker, read.attempt + 1)
    ensures Owns(j, worker, attempt) && LeaseLive(j, now) ==>
              (LeaseLive(Renewed(j, worker, attempt, now), later) <==> later <= now + 600.0)
  {
  }

  /** A failure with attempts left is retried, but not before its backoff; the last one is final. */
  lemma FailureIsRetriedAfterBackoff(events: seq<Event>, i: nat, worker: string, error: string, now: real, later: real)
    requires i < |Run(EMPTY, events).rows|
    requires var j := Run(EMPTY, events).rows[i]; Owns(j, worker, j.attempts) && LeaseLive(j, now)
    ensures var j := Run(EMPTY, events).rows[i];
            var k := Failing(j, worker, j.attempts, error, now);
            && k.attempts == j.attempts && (k.status.Failed? <==> j.attempts == j.maxAttempts)
            && (!k.Terminal() ==> (Due(k, later) <==> later >= now + Backoff(j.attempts) as real))
            && (!k.Terminal() ==> (Claimable(k, later) <==> Due(k, later)))
  {
    ReachableOk(events);
    assert RowOk(Run(EMPTY, events).rows[i]);
  }

  /** A failed attempt waits 2, 4, 8, 16, 32 and then 60 seconds, never more. */
  lemma BackoffSchedule(attempt: nat)
    ensures Backoff(0) == 1 && Backoff(1) == 2 && Backoff(2) == 4 && Backoff(3) == 8 && Backoff(4) == 16
    ensures Backoff(5) == 32 && (attempt >= 6 ==> Backoff(attempt) == 60)
    ensures 1 <= Backoff(attempt) <= Backoff(attempt + 1) <= 60
  {
    assert Pow2(1) == 2 && Pow2(2) == 4 && Pow2(3) == 8;
    assert Pow2(4) == 16 && Pow2(5) == 32 && Pow2(6) == 64;
    if attempt < 6 { assert attempt in {0, 1, 2, 3, 4, 5}; }
  }

  // ----- Idempotent enqueue ------------------------------------------------------------

  /** In every run a non-empty key names one job: enqueueing it again returns that job and
      changes nothing, while an empty key that clashes is an error. */
  lemma EnqueueIsIdempotent(events: seq<Event>, i: nat, payload: string, maxAttempts: int, now: real)
    requires i < |Run(EMPTY, events).rows| && Run(EMPTY, events).rows[i].key.Some?
    ensures var s := Run(EMPTY, events);
            var j := s.rows[i];
            && EnqueueOutcome(s.rows, j.kind, j.key) == (if j.key.value == "" then IntegrityError else Existing(i))
            && Step(s, Enqueue(j.kind, j.key, payload, maxAttempts, now)) == s
  {
    hide Run, Lookup, RowOk, ClaimsOk, CommitsOk, HolderLogged, KeysUnique;
    ReachableOk(events);
    KeyFindsItsRow(Run(EMPTY, events).rows, i);
  }

  lemma KeyFindsItsRow(rows: seq<Job>, i: nat)
    requires KeysUnique(rows) && i < |rows| && rows[i].key.Some?
    ensures Lookup(rows, rows[i].kind, rows[i].key.value, |rows|) == Some(i)
  {
  }

  // ----- What an enqueued job gets -----------------------------------------------------

  /** The attempts a job is given: those asked for, but at least one. */
  function Granted(asked: int): nat {
    if asked > 1 then asked else 1
  }

  /** An enqueue that finds no job of its key adds one, with what was asked for, claimable from that
      moment on; any other changes nothing. */
  lemma EnqueueAdds(s: System, kind: string, key: Option<string>, payload: string, asked: int, now: real, later: real)
    ensures var t, i := Step(s, Enqueue(kind, key, payload, asked, now)), |s.rows|;
            if key.None? || forall k | 0 <= k < |s.rows| :: s.rows[k].kind != kind || s.rows[k].key != key then
              && |t.rows| == i + 1 && t.rows[..i] == s.rows
              && t.rows[i].kind == kind && t.rows[i].key == key && t.rows[i].payload == payload
              && t.rows[i].status.Queued? && t.rows[i].attempts == 0 && t.rows[i].maxAttempts == Granted(asked)
              && t.rows[i].result == None && t.rows[i].error == None
              && (Claimable(t.rows[i], later) <==> later >= now)
            else t == s
  {
  }

  lemma {:induction false} RowsEvolveOver(s: System, events: seq<Event>, i: nat)
    requires Inv(s) && i < |s.rows|
    ensures Inv(Run(s, events)) && i < |Run(s, events).rows| && Run(s, events).rows[i].maxAttempts == s.rows[i].maxAttempts
  {
    hide Inv, Step;
    RunKeepsInv(s, events);
  }

  lemma FailedMeansExhausted(s: System, i: nat)
    requires Inv(s) && i < |s.rows| && s.rows[i].status.Failed?
    ensures CountClaims(s.claims, i) == s.rows[i].maxAttempts
  {
    assert RowOk(s.rows[i]);
  }

  /** A job enqueued for m attempts fails, in any run, only after exactly max(1, m) claims of it. */
  lemma FailsOnlyAfterAllAttempts(before: seq<Event>, kind: string, key: Option<string>, payload: string, asked: int, now: real, after: seq<Event>)
    requires var s := Run(EMPTY, before);
             key.None? || forall k | 0 <= k < |s.rows| :: s.rows[k].kind != kind || s.rows[k].key != key
    ensures var i := |Run(EMPTY, before).rows|;
            var t := Run(EMPTY, before + [Enqueue(kind, key, payload, asked, now)] + after);
            && i < |t.rows| && t.rows[i].maxAttempts == Granted(asked)
            && (t.rows[i].status.Failed? ==> CountClaims(t.claims, i) == Granted(asked))
  {
    var e := Enqueue(kind, key, payload, asked, now);
    EnqueueAdds(Run(EMPTY, before), kind, key, payload, asked, now, now);
    hide Step, Inv, CountClaims;
    RunSplits(EMPTY, before, [e]);
    RunSplits(EMPTY, before + [e], after);
    OneStep(Run(EMPTY, before), e);
    var s, i := Run(EMPTY, before + [e]), |Run(EMPTY, before).rows|;
    ReachableOk(before + [e]);
    RowsEvolveOver(s, after, i);
    var t := Run(s, after);
    if t.rows[i].status.Failed? { FailedMeansExhausted(t, i); }
  }

  lemma OneStep(s: System, e: Event)
    ensures Run(s, [e]) == Step(s, e)
  {
    hide Step;
    assert [e][..0] == [];
  }
}
