/** How a trigger is answered, and that nobody is left waiting: gateway/main.py. */
module TriggerProgress {
  import opened Triggers
  import opened TriggerTheorems

  // ----- The dictionaries say nothing false ----------------------------------------------------

  ghost predicate KeyHeld(s: State, k: string) {
    k in s.inflight ==>
      s.inflight[k] < |s.phases| == |s.requests| && Leading(s.phases[s.inflight[k]]) && s.requests[s.inflight[k]].key == k
  }

  ghost predicate LockHeld(s: State, o: Owner) {
    o in s.locks ==>
      s.locks[o] < |s.phases| == |s.requests| && Locking(s.phases[s.locks[o]]) && s.requests[s.locks[o]].owner == o
  }

  /** Keys in flight and locks taken belong to requests under way; whoever waits, waits for such a
      request or for one that has finished. */
  ghost predicate Held(s: State) {
    && |s.phases| == |s.requests|
    && (forall k :: KeyHeld(s, k)) && (forall o :: LockHeld(s, o))
    && (forall r: nat | r < |s.phases| && s.phases[r].Waiting? :: s.phases[r].on < |s.phases| && Led(s.phases[s.phases[r].on]))
  }

  predicate Led(p: Phase) {
    Leading(p) || p.Accepted? || p.Failed?
  }

  /** The cache holds starts of its keys, with their times. */
  ghost predicate Cached(s: State) {
    forall k | k in s.recent :: CachedStart(s.starts, k, s.recent[k].0, s.recent[k].1)
  }

  ghost predicate CachedStart(starts: seq<Start>, key: string, at: real, receipt: Receipt) {
    exists i :: 0 <= i < |starts| && starts[i].key == key && starts[i].at == at && starts[i].receipt == receipt
  }

  lemma ArrivalKeepsHeld(s: State, q: Request, now: real)
    requires Held(s)
    ensures Held(Arrive(s, q, now))
  {
    hide Arrive, Prune, Locking;
    var p := ArrivalAdds(s, q, now);
    var s' := Arrive(s, q, now);
    forall k ensures KeyHeld(s', k) { assert KeyHeld(s, k); }
    forall o ensures LockHeld(s', o) { assert LockHeld(s, o); }
    forall r: nat | r < |s'.phases| && s'.phases[r].Waiting? ensures s'.phases[r].on < |s'.phases| && Led(s'.phases[s'.phases[r].on]) {
      if r == |s.phases| { assert KeyHeld(s, q.key); }
    }
  }

  lemma LedStays(s: State, e: Event)
    requires Enabled(s, e) && !e.Arrives? && Led(s.phases[Actor(e)])
    ensures Led(Step(s, e).phases[Actor(e)])
  {
  }

  lemma MoveKeepsHeld(s: State, r: nat, s': State)
    requires Held(s) && Registered(s) && Moves(s, r, s')
    requires Led(s.phases[r]) ==> Led(s'.phases[r])
    requires s'.phases[r].Waiting? ==> s'.phases[r] == s.phases[r]
    ensures Held(s')
  {
    hide Leading, Locking, Led;
    forall k ensures KeyHeld(s', k) { assert KeyHeld(s, k); }
    forall o ensures LockHeld(s', o) { assert LockHeld(s, o); }
  }

  lemma MovesAgree(s: State, e: Event)
    requires Enabled(s, e) && !e.Arrives?
    ensures Step(s, e).phases[Actor(e)].Waiting? ==> Step(s, e).phases[Actor(e)] == s.phases[Actor(e)]
  {
  }

  lemma KeepsHeld(s: State, e: Event)
    requires Enabled(s, e) && Held(s) && Registered(s)
    ensures Held(Step(s, e))
  {
    hide Held, Registered, Enabled, Leading, Locking;
    if e.Arrives? {
      ArrivalKeepsHeld(s, e.request, e.now);
    } else {
      hide Step, Moves, Led;
      StepMoves(s, e);
      MoveIsOf(s, e);
      MovesAgree(s, e);
      if Led(s.phases[Actor(e)]) { LedStays(s, e); }
      MoveKeepsHeld(s, Actor(e), Step(s, e));
    }
  }

  lemma MoveIsOf(s: State, e: Event)
    requires Enabled(s, e) && !e.Arrives?
    ensures Actor(e) < |s.phases| && Actor(e) < |Step(s, e).phases|
  {
    StepMoves(s, e);
  }

  lemma KeepsCached(s: State, e: Event)
    requires Enabled(s, e) && Cached(s)
    ensures Cached(Step(s, e))
  {
    hide Step, Enabled, CachedStart;
    StepRecords(s, e);
    var s' := Step(s, e);
    forall k | k in s'.recent ensures CachedStart(s'.starts, k, s'.recent[k].0, s'.recent[k].1) {
      if e.TurnStarted? {
        var start := s'.starts[|s.starts|];
        if k == start.key {
          LastIsCached(s'.starts);
        } else {
          MoreCached(s.starts, start, k, s.recent[k].0, s.recent[k].1);
        }
      }
    }
  }

  lemma LastIsCached(starts: seq<Start>)
    requires starts != []
    ensures var x := starts[|starts| - 1]; CachedStart(starts, x.key, x.at, x.receipt)
  {
  }

  lemma MoreCached(starts: seq<Start>, more: Start, key: string, at: real, receipt: Receipt)
    requires CachedStart(starts, key, at, receipt)
    ensures CachedStart(starts + [more], key, at, receipt)
  {
    var i :| 0 <= i < |starts| && starts[i].key == key && starts[i].at == at && starts[i].receipt == receipt;
    assert (starts + [more])[i] == starts[i];
  }

  lemma {:induction false} ReachableHeld(run: seq<State>, events: seq<Event>, i: nat)
    requires Reachable(run, events) && i < |run|
    ensures Held(run[i]) && Cached(run[i]) && Inv(run[i])
  {
    hide Inv, Step, Enabled;
    ReachableInv(run, events, i);
    if i > 0 {
      hide Held, Cached;
      ReachableHeld(run, events, i - 1);
      InvRegistered(run[i - 1]);
      KeepsHeld(run[i - 1], events[i - 1]);
      KeepsCached(run[i - 1], events[i - 1]);
    }
  }

  lemma InvRegistered(s: State)
    requires Inv(s)
    ensures Registered(s)
  {
  }

  // ----- How a request is answered -----------------------------------------------------------------

  /** An accepted start of the key no more than ten minutes ago. */
  ghost predicate RecentStart(s: State, key: string, now: real, x: Start) {
    x in s.starts && x.key == key && now - x.at <= 600.0
  }

  ghost predicate LeadsKey(s: State, key: string, r: nat) {
    r < |s.phases| == |s.requests| && Leading(s.phases[r]) && s.requests[r].key == key
  }

  /** In every reachable state a request is answered from a start of its key in the last ten minutes, if there is
      one, with that start's receipt; otherwise it waits for the request that leads its key, if
      there is one; otherwise it leads. */
  lemma AnsweredIff(run: seq<State>, events: seq<Event>, i: nat, q: Request, now: real)
    requires Reachable(run, events) && i < |run| && run[i].clock <= now
    ensures var s := run[i];
            var p := Arrive(s, q, now).phases;
            && |p| == |s.phases| + 1 && p[..|s.phases|] == s.phases
            && (forall receipt :: p[|s.phases|] == Replayed(receipt) <==> exists x :: RecentStart(s, q.key, now, x) && x.receipt == receipt)
            && (forall r: nat :: p[|s.phases|] == Waiting(r) <==> !(exists x :: RecentStart(s, q.key, now, x)) && LeadsKey(s, q.key, r))
            && (p[|s.phases|] == WantLock(now) <==> !(exists x :: RecentStart(s, q.key, now, x)) && !(exists r: nat :: LeadsKey(s, q.key, r)))
  {
    hide Reachable, Inv, Held, Cached;
    ReachableHeld(run, events, i);
    var s := run[i];
    HitIff(s, q.key, now);
    LeaderIff(s, q.key);
    hide RecentStart, LeadsKey;
  }

  lemma HitIff(s: State, key: string, now: real)
    requires Inv(s) && Cached(s) && s.clock <= now
    ensures key in Prune(s.recent, now) <==> exists x :: RecentStart(s, key, now, x)
    ensures forall x | RecentStart(s, key, now, x) :: key in s.recent && x.receipt == s.recent[key].1
  {
    hide Prune, RecentStart, Registered, Fresh, Threaded, Genuine, Remembered, Cached, Spaced;
    if key in Prune(s.recent, now) {
      var x := HitIsRecent(s, key, now);
      forall y | RecentStart(s, key, now, y) ensures y == x { RecentIsOne(s, key, now, x, y); }
    }
    forall x | RecentStart(s, key, now, x) ensures key in Prune(s.recent, now) { RecentIsHit(s, key, now, x); }
    PruneKeeps(s.recent, now);
  }

  lemma PruneKeeps(recent: map<string, (real, Receipt)>, now: real)
    ensures forall k | k in Prune(recent, now) :: k in recent && now - recent[k].0 <= 600.0
  {
  }

  lemma HitIsRecent(s: State, key: string, now: real) returns (x: Start)
    requires Cached(s) && key in Prune(s.recent, now)
    ensures RecentStart(s, key, now, x) && x.receipt == s.recent[key].1
  {
    PruneKeeps(s.recent, now);
    hide Prune;
    assert CachedStart(s.starts, key, s.recent[key].0, s.recent[key].1);
    var i :| 0 <= i < |s.starts| && s.starts[i].key == key && s.starts[i].at == s.recent[key].0 && s.starts[i].receipt == s.recent[key].1;
    x := s.starts[i];
  }

  lemma RecentIsHit(s: State, key: string, now: real, x: Start)
    requires Remembered(s) && s.clock <= now && RecentStart(s, key, now, x)
    ensures key in Prune(s.recent, now)
  {
    hide Prune, Remembered;
    CacheHits(s, now);
    var k: nat :| k < |s.starts| && s.starts[k] == x;
  }

  lemma RecentIsOne(s: State, key: string, now: real, x: Start, y: Start)
    requires Spaced(s.starts) && Remembered(s) && s.clock <= now && RecentStart(s, key, now, x) && RecentStart(s, key, now, y)
    ensures x == y
  {
    hide Spaced;
    var i: nat :| i < |s.starts| && s.starts[i] == x;
    var k: nat :| k < |s.starts| && s.starts[k] == y;
    CloseStartsAreOne(s.starts, i, k, now);
  }

  /** Of two spaced starts of one key at most one lies within the last ten minutes. */
  lemma CloseStartsAreOne(starts: seq<Start>, i: nat, k: nat, now: real)
    requires Spaced(starts) && i < |starts| && k < |starts| && starts[i].key == starts[k].key
    requires starts[i].at <= now && starts[k].at <= now && now - starts[i].at <= 600.0 && now - starts[k].at <= 600.0
    ensures i == k
  {
  }

  lemma LeaderIff(s: State, key: string)
    requires Held(s) && Inv(s)
    ensures forall r: nat :: LeadsKey(s, key, r) <==> key in s.inflight && s.inflight[key] == r
  {
    hide Remembered, Fresh, Spaced, Threaded, Genuine, Leading, Locking;
    assert KeyHeld(s, key);
  }

  // ----- What each step of the leader does ------------------------------------------------------------

  /** With the bridge there, a mapped thread is used at once if it is loaded and resumed if it is not; without a
      mapping a thread is asked for. */
  lemma BridgedIs(s: State, r: nat, loaded: bool)
    requires Enabled(s, Bridged(r, loaded))
    ensures var s', o, since := Step(s, Bridged(r, loaded)), s.requests[r].owner, s.phases[r].since;
            && s' == s.(phases := s'.phases) && |s'.phases| == |s.phases|
            && (if o in s.disk && s.disk[o] != ""
                then s'.phases == s.phases[r := if loaded then WantTurn(since, s.disk[o]) else WantResume(since, s.disk[o])]
                else s'.phases == s.phases[r := WantThread(since)])
  {
  }

  /** An accepted turn is answered, recorded and cached under the request's own key and template, on its thread. */
  lemma AcceptedIs(s: State, r: nat, now: real)
    requires Enabled(s, TurnStarted(r, now))
    ensures var s', q, receipt := Step(s, TurnStarted(r, now)), s.requests[r], Receipt(s.phases[r].thread, s.requests[r].template);
            && s'.phases == s.phases[r := Accepted(receipt)] && q.key in s'.recent && s'.recent[q.key] == (now, receipt)
            && s'.starts == s.starts + [Start(q.key, q.owner, now, receipt)] && q.key !in s'.inflight && q.owner !in s'.locks
  {
  }

  /** Whoever waited gets the leader's receipt if the leader got one, and fails if it failed. */
  lemma WokenIs(s: State, r: nat)
    requires Enabled(s, Wakes(r))
    ensures var lead := s.phases[s.phases[r].on];
            && (lead.Accepted? || lead.Failed?)
            && Step(s, Wakes(r)) == s.(phases := s.phases[r := if lead.Accepted? then Replayed(lead.receipt) else Failed])
  {
  }

  // ----- Nobody is stuck ------------------------------------------------------------------------------

  predicate Finished(p: Phase) {
    p.Accepted? || p.Replayed? || p.Failed?
  }

  /** Steps still to be taken by a request that leads. */
  function Left(p: Phase): nat {
    match p
    case WantLock(_) => 5
    case WantBridge(_) => 4
    case WantThread(_) => 3
    case WantResume(_, _) => 2
    case WantTurn(_, _) => 1
    case _ => 0
  }

  /** A request that holds its lock can take its next step at once, whatever others do, and is one step nearer. */
  lemma HolderMoves(s: State, r: nat) returns (e: Event)
    requires Held(s) && r < |s.phases| && Locking(s.phases[r])
    ensures Enabled(s, e) && !e.Breaks? && !e.Arrives? && e.r == r
    ensures Left(Step(s, e).phases[r]) < Left(s.phases[r]) && Led(Step(s, e).phases[r])
  {
    match s.phases[r]
    case WantBridge(_) => e := Bridged(r, true);
    case WantThread(_) => e := ThreadStarted(r, "thread");
    case WantResume(_, _) => e := Resumed(r);
    case WantTurn(_, _) => e := TurnStarted(r, s.clock);
  }

  /** Somebody can move for the sake of request r: itself, the holder of the lock it wants, or the one it waits for. */
  lemma SomebodyMoves(s: State, r: nat) returns (e: Event)
    requires Held(s) && r < |s.phases| && !Finished(s.phases[r])
    ensures Enabled(s, e) && !e.Breaks? && !e.Arrives?
  {
    var lead := if s.phases[r].Waiting? then s.phases[r].on else r;
    assert Led(s.phases[lead]);
    if Finished(s.phases[lead]) {
      e := Wakes(r);
    } else if s.phases[lead].WantLock? {
      var o := s.requests[lead].owner;
      if o in s.locks {
        assert LockHeld(s, o);
        e := HolderMoves(s, s.locks[o]);
      } else {
        e := Locks(lead);
      }
    } else {
      e := HolderMoves(s, lead);
    }
  }

  function Weight(p: Phase): nat {
    if p.Waiting? then 1 else Left(p)
  }

  /** Steps left to all requests together. */
  function Potential(phases: seq<Phase>): nat {
    if phases == [] then 0 else Potential(phases[..|phases| - 1]) + Weight(phases[|phases| - 1])
  }

  lemma {:induction false} PotentialUpdate(phases: seq<Phase>, r: nat, p: Phase)
    requires r < |phases|
    ensures Potential(phases[r := p]) + Weight(phases[r]) == Potential(phases) + Weight(p)
  {
    hide Weight;
    var n := |phases| - 1;
    if r < n {
      PotentialUpdate(phases[..n], r, p);
      assert phases[r := p][..n] == phases[..n][r := p];
    } else {
      assert phases[r := p][..n] == phases[..n];
    }
  }

  lemma StepLowers(s: State, e: Event)
    requires Enabled(s, e) && !e.Arrives?
    ensures Potential(Step(s, e).phases) < Potential(s.phases)
  {
    hide Potential;
    StepMoves(s, e);
    PotentialUpdate(s.phases, Actor(e), Step(s, e).phases[Actor(e)]);
  }

  /** From wherever the requests stand, the ones under way can go on, without any of them breaking off and
      without new arrivals, until request r has its answer. */
  lemma {:induction false} CanBeAnswered(s: State, r: nat) returns (run: seq<State>, events: seq<Event>)
    requires Held(s) && Registered(s) && r < |s.phases|
    ensures IsRun(run, events) && run[0] == s && forall i | 0 <= i < |events| :: !events[i].Breaks? && !events[i].Arrives?
    ensures r < |run[|events|].phases| && Finished(run[|events|].phases[r])
    decreases Potential(s.phases)
  {
    hide Held, Registered, Potential, Finished, Step, Enabled;
    if Finished(s.phases[r]) {
      run, events := [s], [];
    } else {
      var e := SomebodyMoves(s, r);
      StepLowers(s, e);
      KeepsHeld(s, e);
      KeepsRegistered(s, e);
      SameLength(s, e);
      var rest, more := CanBeAnswered(Step(s, e), r);
      run, events := [s] + rest, [e] + more;
      assert run[|events|] == rest[|more|];
    }
  }

  lemma SameLength(s: State, e: Event)
    requires Enabled(s, e) && !e.Arrives?
    ensures |Step(s, e).phases| == |s.phases|
  {
    StepMoves(s, e);
  }

  /** Nobody is left waiting: in every reachable state every request can still be answered. */
  lemma NobodyIsStuck(run: seq<State>, events: seq<Event>, i: nat, r: nat) returns (rest: seq<State>, more: seq<Event>)
    requires Reachable(run, events) && i < |run| && r < |run[i].phases|
    ensures IsRun(rest, more) && rest[0] == run[i] && forall k | 0 <= k < |more| :: !more[k].Breaks? && !more[k].Arrives?
    ensures r < |rest[|more|].phases| && Finished(rest[|more|].phases[r])
  {
    hide Reachable, Inv, Held, IsRun, Finished;
    ReachableHeld(run, events, i);
    InvRegistered(run[i]);
    rest, more := CanBeAnswered(run[i], r);
  }
}
