/** How soon a due row is served: passes of one worker over the job table at a fixed time. */
module JobProgress {
  import opened Options
  import opened JobQueue
  import opened JobQueueProofs
  import opened JobTheorems

  /** One pass: sweep, read a candidate, compare-and-set, with nobody in between. */
  function Pass(s: System, session: nat, worker: string, now: real): System {
    Step(Step(Step(s, Sweep(now)), ClaimRead(session, worker, {}, now)), ClaimCas(session))
  }

  function Passes(s: System, session: nat, worker: string, now: real, n: nat): System
    decreases n
  {
    if n == 0 then s else Passes(Pass(s, session, worker, now), session, worker, now, n - 1)
  }

  /** Rows a claim at this time could take. */
  function Open(rows: seq<Job>, now: real): nat {
    if rows == [] then 0
    else Open(rows[..|rows| - 1], now) + if Claimable(rows[|rows| - 1], now) then 1 else 0
  }

  lemma {:induction false} OpenIsBounded(rows: seq<Job>, now: real)
    ensures Open(rows, now) <= |rows|
  {
    if rows != [] { OpenIsBounded(rows[..|rows| - 1], now); }
  }

  lemma {:induction false} OpenFound(rows: seq<Job>, now: real, i: nat)
    requires i < |rows| && Claimable(rows[i], now)
    ensures Open(rows, now) > 0
  {
    if i < |rows| - 1 { OpenFound(rows[..|rows| - 1], now, i); }
  }

  /** Closing one open row and touching only rows that are not open. */
  lemma {:induction false} OpenFalls(rows: seq<Job>, rows': seq<Job>, now: real, k: nat)
    requires |rows'| == |rows| && k <= |rows|
    requires forall i: nat | i < |rows| && i != k :: Claimable(rows'[i], now) == Claimable(rows[i], now)
    requires k < |rows| ==> Claimable(rows[k], now) && !Claimable(rows'[k], now)
    ensures Open(rows', now) == Open(rows, now) - if k < |rows| then 1 else 0
  {
    if rows != [] {
      var n := |rows| - 1;
      OpenFalls(rows[..n], rows'[..n], now, if k <= n then k else n);
    }
  }

  // ----- One pass ---------------------------------------------------------------------------

  lemma SweptRow(j: Job, now: real)
    ensures Claimable(Expire(j, now), now) == Claimable(j, now)
    ensures Claimable(j, now) ==> Expire(j, now) == j
    ensures Expire(Expire(j, now), now) == Expire(j, now)
  {
  }

  /** A pass takes the earliest open row, if there is one, and otherwise only sweeps. */
  lemma PassTakesOne(s: System, session: nat, worker: string, now: real) returns (k: Option<nat>)
    ensures k == Pick(SweepRows(s.rows, now), now, {}, |s.rows|)
    ensures var t, swept := Pass(s, session, worker, now), SweepRows(s.rows, now);
            && |t.rows| == |s.rows|
            && (k.None? ==> t.rows == swept && t.claims == s.claims)
            && (k.Some? ==> k.value < |s.rows| && Claimable(swept[k.value], now)
                            && t.claims == s.claims + [Claim(k.value, worker, swept[k.value].attempts + 1)]
                            && t.rows == swept[k.value := Take(swept[k.value], Read(k.value, worker, swept[k.value].status, swept[k.value].attempts, now))])
  {
    var swept := Step(s, Sweep(now));
    k := Pick(swept.rows, now, {}, |swept.rows|);
    PickIsEarliest(swept.rows, now, {}, |swept.rows|);
    hide Pick;
    if k.Some? {
      var read := Read(k.value, worker, swept.rows[k.value].status, swept.rows[k.value].attempts, now);
      var mid := Step(swept, ClaimRead(session, worker, {}, now));
      assert mid == swept.(pending := swept.pending[session := read]);
      assert Matches(mid.rows[k.value], read);
    }
  }

  /** Claimed by this worker at this time, one attempt later. */
  predicate Taken(before: Job, now: Job, worker: string, at: real) {
    now.status.Running? && now.lockedBy == Some(worker) && now.lockedAt == Some(at) && now.attempts == before.attempts + 1
  }

  /** A row under a live lease and a terminal row come through a pass as they are. */
  lemma PassSpares(s: System, session: nat, worker: string, now: real, i: nat)
    requires i < |s.rows| && (s.rows[i].Terminal() || (s.rows[i].status.Running? && LeaseLive(s.rows[i], now)))
    ensures var t := Pass(s, session, worker, now);
            |t.rows| == |s.rows| && t.rows[i] == s.rows[i] && forall c | c in s.claims :: c in t.claims
  {
    hide Pass, Pick;
    var k := PassTakesOne(s, session, worker, now);
    SweptRow(s.rows[i], now);
  }

  /** A pass takes an open row, or one before it in (available_at, id) order, which leaves fewer open. */
  lemma PassOnOpenRow(s: System, session: nat, worker: string, now: real, i: nat)
    requires i < |s.rows| && Claimable(s.rows[i], now)
    ensures var t := Pass(s, session, worker, now);
            && |t.rows| == |s.rows|
            && (|| (Taken(s.rows[i], t.rows[i], worker, now) && Claim(i, worker, s.rows[i].attempts + 1) in t.claims)
                || (t.rows[i] == s.rows[i] && Open(t.rows, now) < Open(s.rows, now)))
            && exists k: nat :: k < |s.rows| && (k == i || Before(s.rows, k, i))
                                && Taken(s.rows[k], t.rows[k], worker, now)
                                && t.claims == s.claims + [Claim(k, worker, s.rows[k].attempts + 1)]
  {
    hide Pass, Open, Pick, Before, Expire, Claimable;
    var t, swept := Pass(s, session, worker, now), SweepRows(s.rows, now);
    var k := PassTakesOne(s, session, worker, now);
    forall j: nat | j < |s.rows| ensures Claimable(swept[j], now) == Claimable(s.rows[j], now) && (Claimable(s.rows[j], now) ==> swept[j] == s.rows[j]) {
      SweptRow(s.rows[j], now);
    }
    PickIsEarliest(swept, now, {}, |swept|);
    TakenIsClosed(swept[k.value], k.value, worker, now);
    OpenFalls(s.rows, t.rows, now, k.value);
    assert k.value == i || Before(swept, k.value, i);
    SameOrder(s.rows, swept, k.value, i);
    assert Taken(s.rows[k.value], t.rows[k.value], worker, now);
  }

  lemma SameOrder(rows: seq<Job>, rows': seq<Job>, a: nat, b: nat)
    requires a < |rows| == |rows'| && b < |rows| && rows'[a] == rows[a] && rows'[b] == rows[b]
    ensures Before(rows', a, b) == Before(rows, a, b)
  {
  }

  lemma TakenIsClosed(j: Job, k: nat, worker: string, now: real)
    ensures !Claimable(Take(j, Read(k, worker, j.status, j.attempts, now)), now)
  {
  }

  // ----- All passes ---------------------------------------------------------------------------

  lemma {:induction false} ServedStays(s: System, session: nat, worker: string, now: real, n: nat, i: nat)
    requires i < |s.rows| && (s.rows[i].Terminal() || (s.rows[i].status.Running? && LeaseLive(s.rows[i], now)))
    ensures var t := Passes(s, session, worker, now, n);
            |t.rows| == |s.rows| && t.rows[i] == s.rows[i] && forall c | c in s.claims :: c in t.claims
    decreases n
  {
    hide Pass;
    if n > 0 {
      PassSpares(s, session, worker, now, i);
      ServedStays(Pass(s, session, worker, now), session, worker, now, n - 1, i);
    }
  }

  lemma {:induction false} OpenRowIsTaken(s: System, session: nat, worker: string, now: real, n: nat, i: nat)
    requires i < |s.rows| && Claimable(s.rows[i], now) && Open(s.rows, now) <= n
    ensures var t := Passes(s, session, worker, now, n);
            |t.rows| == |s.rows| && Taken(s.rows[i], t.rows[i], worker, now) && Claim(i, worker, s.rows[i].attempts + 1) in t.claims
    decreases n
  {
    hide Pass, Open;
    OpenFound(s.rows, now, i);
    PassOnOpenRow(s, session, worker, now, i);
    var t := Pass(s, session, worker, now);
    if t.rows[i] == s.rows[i] && Open(t.rows, now) < Open(s.rows, now) {
      OpenRowIsTaken(t, session, worker, now, n - 1, i);
    } else {
      ServedStays(t, session, worker, now, n - 1, i);
    }
  }

  lemma FailedIsSwept(s: System, session: nat, worker: string, now: real, i: nat)
    requires i < |s.rows| && s.rows[i].status.Running? && LeaseExpired(s.rows[i], now) && s.rows[i].attempts >= s.rows[i].maxAttempts
    ensures var t := Pass(s, session, worker, now); |t.rows| == |s.rows| && t.rows[i].status.Failed?
  {
    hide Pass, Pick;
    var k := PassTakesOne(s, session, worker, now);
  }

  /** As many undisturbed passes as there are rows serve every due row: each that has an attempt
      left is claimed by this worker, each that has none is failed. */
  lemma EveryDueRowIsServed(events: seq<Event>, i: nat, session: nat, worker: string, now: real)
    requires i < |Run(EMPTY, events).rows| && Due(Run(EMPTY, events).rows[i], now)
    ensures var s := Run(EMPTY, events);
            var t := Passes(s, session, worker, now, |s.rows|);
            && |t.rows| == |s.rows|
            && (s.rows[i].attempts < s.rows[i].maxAttempts ==>
                  Taken(s.rows[i], t.rows[i], worker, now) && Claim(i, worker, s.rows[i].attempts + 1) in t.claims)
            && (s.rows[i].attempts == s.rows[i].maxAttempts ==> t.rows[i].status.Failed?)
            && s.rows[i].attempts <= s.rows[i].maxAttempts
  {
    hide Run, Pass, Open;
    var s := Run(EMPTY, events);
    ReachableOk(events);
    assert RowOk(s.rows[i]);
    if s.rows[i].attempts < s.rows[i].maxAttempts {
      OpenIsBounded(s.rows, now);
      OpenRowIsTaken(s, session, worker, now, |s.rows|, i);
    } else {
      FailedIsSwept(s, session, worker, now, i);
      ServedStays(Pass(s, session, worker, now), session, worker, now, |s.rows| - 1, i);
    }
  }
}
