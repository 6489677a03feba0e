/** Triggers over every interleaving of requests, failures and other classes' starts. */
module TriggerTheorems {
  import opened Triggers

  // ----- Invariants --------------------------------------------------------------------------

  /** The dictionaries say who leads a key and who holds a lock. */
  ghost predicate Registered(s: State) {
    && |s.requests| == |s.phases|
    && (forall r: nat | r < |s.phases| && Leading(s.phases[r]) :: s.requests[r].key in s.inflight && s.inflight[s.requests[r].key] == r)
    && (forall r: nat | r < |s.phases| && Locking(s.phases[r]) :: s.requests[r].owner in s.locks && s.locks[s.requests[r].owner] == r)
  }

  /** Every start is still cached, or superseded in the cache, or older than the retention time. */
  ghost predicate Remembered(s: State) {
    && (forall i: nat | i < |s.starts| ::
          && s.starts[i].at <= s.clock
          && (s.clock - s.starts[i].at > Ttl || (s.starts[i].key in s.recent && s.recent[s.starts[i].key].0 >= s.starts[i].at)))
    && (forall k | k in s.recent :: s.recent[k].0 <= s.clock)
  }

  /** Whoever leads a key was admitted after the retention time of every earlier start of it. */
  ghost predicate Fresh(s: State) {
    forall r: nat, i: nat | r < |s.phases| == |s.requests| && Leading(s.phases[r]) && i < |s.starts| && s.starts[i].key == s.requests[r].key ::
      s.phases[r].since - s.starts[i].at > Ttl && s.phases[r].since <= s.clock
  }

  ghost predicate Spaced(starts: seq<Start>) {
    forall i: nat, k: nat | i < k < |starts| && starts[i].key == starts[k].key :: starts[k].at - starts[i].at > Ttl
  }

  /** Threads are asked for only while unmapped, and used only as mapped. */
  ghost predicate Threaded(s: State) {
    && |s.requests| == |s.phases|
    && (forall r: nat | r < |s.phases| && s.phases[r].WantThread? :: !Mapped(s.disk, s.requests[r].owner))
    && (forall r: nat | r < |s.phases| && (s.phases[r].WantResume? || s.phases[r].WantTurn?) ::
          Mapped(s.disk, s.requests[r].owner) && s.disk[s.requests[r].owner] == s.phases[r].thread)
    && (forall i: nat | i < |s.starts| :: Mapped(s.disk, s.starts[i].owner) && s.disk[s.starts[i].owner] == s.starts[i].receipt.thread)
  }

  ghost predicate Answered(starts: seq<Start>, key: string, receipt: Receipt) {
    exists i :: 0 <= i < |starts| && starts[i].key == key && starts[i].receipt == receipt
  }

  /** Every cached, accepted or replayed receipt is that of a start of the same key. */
  ghost predicate Genuine(s: State) {
    && |s.requests| == |s.phases|
    && (forall k | k in s.recent :: Answered(s.starts, k, s.recent[k].1))
    && (forall r: nat | r < |s.phases| && (s.phases[r].Accepted? || s.phases[r].Replayed?) ::
          Answered(s.starts, s.requests[r].key, s.phases[r].receipt))
    && (forall r: nat | r < |s.phases| && s.phases[r].Waiting? ::
          s.phases[r].on < |s.phases| && s.requests[s.phases[r].on].key == s.requests[r].key)
    && (forall k | k in s.inflight :: s.inflight[k] < |s.phases| && s.requests[s.inflight[k]].key == k)
  }

  ghost predicate Inv(s: State) {
    Registered(s) && Remembered(s) && Fresh(s) && Spaced(s.starts) && Threaded(s) && Genuine(s)
  }

  lemma InitInv(disk: map<Owner, string>, clock: real)
    ensures Inv(Init(disk, clock))
  {
  }

  // ----- Each step keeps each part --------------------------------------------------------------

  function Actor(e: Event): nat {
    if e.Arrives? then 0 else e.r
  }

  /** One request moves, its lock and key are handed around accordingly, and nobody starts to lead. */
  ghost predicate Moves(s: State, r: nat, s': State) {
    && r < |s.phases| == |s.requests| == |s'.phases| && s'.requests == s.requests
    && s'.phases == s.phases[r := s'.phases[r]]
    && (Leading(s'.phases[r]) ==> Leading(s.phases[r]) && s'.phases[r].since == s.phases[r].since)
    && s'.inflight == (if Leading(s.phases[r]) && !Leading(s'.phases[r]) then s.inflight - {s.requests[r].key} else s.inflight)
    && s'.locks == (if Locking(s.phases[r]) && !Locking(s'.phases[r]) then s.locks - {s.requests[r].owner}
                    else if Locking(s'.phases[r]) && !Locking(s.phases[r]) then s.locks[s.requests[r].owner := r] else s.locks)
    && (Locking(s'.phases[r]) && !Locking(s.phases[r]) ==> s.requests[r].owner !in s.locks)
  }

  lemma BreakMoves(s: State, r: nat)
    requires r < |s.phases| == |s.requests|
    ensures Moves(s, r, Break(s, r))
  {
  }

  lemma AcceptMoves(s: State, r: nat, now: real)
    requires r < |s.phases| == |s.requests| && s.phases[r].WantTurn?
    ensures Moves(s, r, Accept(s, r, now))
  {
  }

  lemma ForwardMoves(s: State, r: nat, p: Phase, disk: map<Owner, string>)
    requires r < |s.phases| == |s.requests| && Leading(p) == Leading(s.phases[r]) && Locking(p) == Locking(s.phases[r])
    requires Leading(p) ==> p.since == s.phases[r].since
    ensures Moves(s, r, To(s, r, p).(disk := disk))
  {
  }

  lemma StepMoves(s: State, e: Event)
    requires Enabled(s, e) && !e.Arrives?
    ensures Moves(s, Actor(e), Step(s, e))
  {
    match e
    case Locks(r) =>
    case Bridged(r, _) => ForwardMoves(s, r, Step(s, e).phases[r], s.disk);
    case ThreadStarted(r, thread) =>
      if thread == "" { BreakMoves(s, r); } else { ForwardMoves(s, r, Step(s, e).phases[r], Step(s, e).disk); }
    case Resumed(r) => ForwardMoves(s, r, Step(s, e).phases[r], s.disk);
    case TurnStarted(r, now) => AcceptMoves(s, r, now);
    case Breaks(r) => BreakMoves(s, r);
    case Wakes(r) => ForwardMoves(s, r, Step(s, e).phases[r], s.disk);
  }

  /** An arrival adds one request: answered, waiting, or leading. */
  lemma ArrivalAdds(s: State, q: Request, now: real) returns (p: Phase)
    requires |s.requests| == |s.phases|
    ensures var s' := Arrive(s, q, now);
            && s'.phases == s.phases + [p] && s'.requests == s.requests + [q] && s'.clock == now
            && s'.recent == Prune(s.recent, now) && s'.locks == s.locks && s'.disk == s.disk && s'.starts == s.starts
            && (p.WantLock? ==> p.since == now && q.key !in s'.recent && q.key !in s.inflight
                                && s'.inflight == s.inflight[q.key := |s.phases|])
            && (!p.WantLock? ==> s'.inflight == s.inflight)
            && (p.Replayed? ==> q.key in s'.recent && p.receipt == s'.recent[q.key].1)
            && (p.Waiting? ==> q.key in s.inflight && p.on == s.inflight[q.key])
            && (p.WantLock? || p.Replayed? || p.Waiting?)
  {
    p := Arrive(s, q, now).phases[|s.phases|];
  }

  lemma ArrivalRegisters(s: State, q: Request, now: real)
    requires Registered(s)
    ensures Registered(Arrive(s, q, now))
  {
    hide Arrive, Prune;
    var p := ArrivalAdds(s, q, now);
  }

  lemma MoveKeepsRegistered(s: State, r: nat, s': State)
    requires Registered(s) && Moves(s, r, s')
    ensures Registered(s')
  {
    hide Leading, Locking;
  }

  lemma KeepsRegistered(s: State, e: Event)
    requires Enabled(s, e) && Registered(s)
    ensures Registered(Step(s, e))
  {
    hide Registered, Enabled, Leading, Locking;
    if e.Arrives? {
      ArrivalRegisters(s, e.request, e.now);
    } else {
      hide Step;
      hide Moves;
      StepMoves(s, e);
      MoveKeepsRegistered(s, Actor(e), Step(s, e));
    }
  }

  /** Only an acceptance adds to the starts, the cache and (with an arrival) moves the clock. */
  lemma StepRecords(s: State, e: Event)
    requires Enabled(s, e)
    ensures var s' := Step(s, e);
            && (e.TurnStarted? ==>
                  && e.r < |s.phases| == |s.requests| && s.phases[e.r].WantTurn? && s.clock <= e.now == s'.clock
                  && s'.starts == s.starts + [Start(s.requests[e.r].key, s.requests[e.r].owner, e.now,
                                                    Receipt(s.phases[e.r].thread, s.requests[e.r].template))]
                  && s'.recent == s.recent[s.requests[e.r].key := (e.now, s'.starts[|s.starts|].receipt)])
            && (!e.TurnStarted? ==> s'.starts == s.starts)
            && (e.Arrives? ==> s.clock <= e.now == s'.clock && s'.recent == Prune(s.recent, e.now))
            && (!e.TurnStarted? && !e.Arrives? ==> s'.recent == s.recent && s'.clock == s.clock)
  {
  }

  lemma KeepsRemembered(s: State, e: Event)
    requires Enabled(s, e) && Remembered(s)
    ensures Remembered(Step(s, e))
  {
    hide Step, Enabled;
    StepRecords(s, e);
  }

  /** A request that takes the lead finds no start of its key within the retention time. */
  lemma ArrivalIsFresh(s: State, q: Request, now: real)
    requires Registered(s) && Remembered(s) && Fresh(s) && s.clock <= now
    ensures Fresh(Arrive(s, q, now))
  {
    hide Arrive, Prune;
    var p := ArrivalAdds(s, q, now);
    CacheHits(s, now);
  }

  lemma CacheHits(s: State, now: real)
    requires Remembered(s) && s.clock <= now
    ensures forall i: nat | i < |s.starts| && s.starts[i].key !in Prune(s.recent, now) :: now - s.starts[i].at > Ttl
  {
  }

  lemma KeepsFresh(s: State, e: Event)
    requires Enabled(s, e) && Registered(s) && Remembered(s) && Fresh(s)
    ensures Fresh(Step(s, e))
  {
    if e.Arrives? {
      ArrivalIsFresh(s, e.request, e.now);
    } else {
      hide Step, Enabled, Remembered, Locking, Leading;
      StepMoves(s, e);
      StepRecords(s, e);
      if e.TurnStarted? {
        AcceptedNoLongerLeads(s, e);
        NobodyElseLeads(s, e.r);
      }
    }
  }

  lemma AcceptedNoLongerLeads(s: State, e: Event)
    requires Enabled(s, e) && e.TurnStarted?
    ensures !Leading(Step(s, e).phases[e.r]) && Leading(s.phases[e.r])
  {
  }

  lemma NobodyElseLeads(s: State, r: nat)
    requires Registered(s) && r < |s.phases| && Leading(s.phases[r])
    ensures forall k: nat | k < |s.phases| && k != r && Leading(s.phases[k]) :: s.requests[k].key != s.requests[r].key
  {
  }

  lemma KeepsSpaced(s: State, e: Event)
    requires Enabled(s, e) && Registered(s) && Fresh(s) && Spaced(s.starts)
    ensures Spaced(Step(s, e).starts)
  {
    hide Step, Enabled;
    StepRecords(s, e);
  }

  /** What a step does to the map on disk. */
  lemma StepThreads(s: State, e: Event)
    requires Enabled(s, e) && Registered(s) && Threaded(s) && !e.Arrives?
    ensures var r, s' := Actor(e), Step(s, e);
            var p, o := s'.phases[r], s.requests[r].owner;
            && (p.WantThread? ==> !Mapped(s'.disk, o))
            && (p.WantResume? || p.WantTurn? ==> Mapped(s'.disk, o) && s'.disk[o] == p.thread)
            && (s'.disk != s.disk ==> s.phases[r].WantThread? && p.WantTurn? && p.thread != "" && s'.disk == s.disk[o := p.thread])
  {
  }

  lemma NobodyElseLocks(s: State, r: nat)
    requires Registered(s) && r < |s.phases| && Locking(s.phases[r])
    ensures forall k: nat | k < |s.phases| && k != r && Locking(s.phases[k]) :: s.requests[k].owner != s.requests[r].owner
  {
  }

  lemma MoveKeepsThreaded(s: State, e: Event, p: Phase)
    requires Enabled(s, e) && Registered(s) && Threaded(s) && !e.Arrives?
    requires Actor(e) < |s.phases| && Step(s, e).phases == s.phases[Actor(e) := p] && Step(s, e).requests == s.requests
    requires Step(s, e).starts == s.starts
    ensures Threaded(Step(s, e))
  {
    hide Step, Enabled, Registered;
    var r := Actor(e);
    StepThreads(s, e);
    if s.phases[r].WantThread? { NobodyElseLocks(s, r); }
  }

  lemma KeepsThreaded(s: State, e: Event)
    requires Enabled(s, e) && Registered(s) && Threaded(s)
    ensures Threaded(Step(s, e))
  {
    if e.Arrives? {
      var p := ArrivalAdds(s, e.request, e.now);
    } else if e.TurnStarted? {
    } else {
      hide Step, Enabled, Registered, Threaded, Locking, Leading;
      StepMoves(s, e);
      StepRecords(s, e);
      MoveKeepsThreaded(s, e, Step(s, e).phases[Actor(e)]);
    }
  }

  lemma MoreAnswers(starts: seq<Start>, more: Start, key: string, receipt: Receipt)
    ensures Answered(starts, key, receipt) ==> Answered(starts + [more], key, receipt)
    ensures Answered(starts + [more], more.key, more.receipt)
  {
    assert (starts + [more])[|starts|] == more;
    if Answered(starts, key, receipt) {
      var i :| 0 <= i < |starts| && starts[i].key == key && starts[i].receipt == receipt;
      assert (starts + [more])[i] == starts[i];
    }
  }

  ghost predicate AnswersOnly(s: State, r: nat, s': State) {
    && r < |s.phases| == |s.requests| && |s'.phases| == |s.phases| && s'.requests == s.requests
    && s'.phases == s.phases[r := s'.phases[r]]
    && (s'.phases[r].Accepted? || s'.phases[r].Replayed? ==> Answered(s'.starts, s.requests[r].key, s'.phases[r].receipt))
    && (s'.phases[r].Waiting? ==> s'.phases[r] == s.phases[r])
    && s'.inflight.Keys <= s.inflight.Keys && (forall k | k in s'.inflight :: s'.inflight[k] == s.inflight[k])
    && (forall k | k in s'.recent :: (k in s.recent && s'.recent[k] == s.recent[k]) || Answered(s'.starts, k, s'.recent[k].1))
  }

  lemma AcceptanceAnswers(s: State, r: nat, now: real)
    requires r < |s.phases| == |s.requests| && s.phases[r].WantTurn?
    ensures AnswersOnly(s, r, Accept(s, r, now))
  {
    hide Answered;
    var start := Accept(s, r, now).starts[|s.starts|];
    MoreAnswers(s.starts, start, start.key, start.receipt);
  }

  lemma StepReceipts(s: State, e: Event)
    requires Enabled(s, e) && !e.Arrives? && !e.TurnStarted?
    ensures var p := Step(s, e).phases[e.r];
            && !p.Accepted? && !p.Waiting?
            && (p.Replayed? ==> s.phases[e.r].Waiting? && s.phases[e.r].on < |s.phases| && s.phases[s.phases[e.r].on] == Accepted(p.receipt))
  {
    match e
    case Locks(r) =>
    case Bridged(r, _) =>
    case ThreadStarted(r, thread) =>
    case Resumed(r) =>
    case Breaks(r) =>
    case Wakes(r) =>
  }

  /** Any receipt a step hands out was there before, or belongs to the start just made. */
  lemma StepAnswers(s: State, e: Event)
    requires Enabled(s, e) && Genuine(s) && !e.Arrives?
    ensures AnswersOnly(s, Actor(e), Step(s, e))
  {
    hide Answered;
    if e.TurnStarted? {
      hide AnswersOnly, Accept;
      AcceptanceAnswers(s, e.r, e.now);
    } else {
      hide Step, Enabled;
      StepMoves(s, e);
      StepRecords(s, e);
      StepReceipts(s, e);
    }
  }

  lemma StartsGrow(s: State, e: Event)
    requires Enabled(s, e)
    ensures forall key, receipt :: Answered(s.starts, key, receipt) ==> Answered(Step(s, e).starts, key, receipt)
  {
    hide Answered, Step, Enabled;
    StepRecords(s, e);
    if e.TurnStarted? {
      forall key, receipt { MoreAnswers(s.starts, Step(s, e).starts[|s.starts|], key, receipt); }
    }
  }

  lemma ArrivalIsGenuine(s: State, q: Request, now: real)
    requires Genuine(s)
    ensures Genuine(Arrive(s, q, now))
  {
    hide Answered, Arrive;
    var p := ArrivalAdds(s, q, now);
  }

  lemma KeepsGenuine(s: State, e: Event)
    requires Enabled(s, e) && Genuine(s)
    ensures Genuine(Step(s, e))
  {
    if e.Arrives? {
      ArrivalIsGenuine(s, e.request, e.now);
    } else {
      hide Answered, Step, Enabled;
      StepAnswers(s, e);
      StartsGrow(s, e);
    }
  }

  lemma StepKeepsInv(s: State, e: Event)
    requires Enabled(s, e) && Inv(s)
    ensures Inv(Step(s, e))
  {
    hide Registered, Remembered, Fresh, Spaced, Threaded, Genuine, Step, Enabled;
    KeepsRegistered(s, e);
    KeepsRemembered(s, e);
    KeepsFresh(s, e);
    KeepsSpaced(s, e);
    KeepsThreaded(s, e);
    KeepsGenuine(s, e);
  }

  lemma {:induction false} RunKeepsInv(run: seq<State>, events: seq<Event>, i: nat)
    requires IsRun(run, events) && Inv(run[0]) && i < |run|
    ensures Inv(run[i])
  {
    if i > 0 {
      RunKeepsInv(run, events, i - 1);
      StepKeepsInv(run[i - 1], events[i - 1]);
    }
  }

  // ----- Over every run ------------------------------------------------------------------------

  /** A run from a gateway just started, with whatever threads are on disk. */
  ghost predicate Reachable(run: seq<State>, events: seq<Event>) {
    IsRun(run, events) && run[0] == Init(run[0].disk, run[0].clock)
  }

  lemma ReachableInv(run: seq<State>, events: seq<Event>, i: nat)
    requires Reachable(run, events) && i < |run|
    ensures Inv(run[i])
  {
    hide Inv, Init;
    InitInv(run[0].disk, run[0].clock);
    RunKeepsInv(run, events, i);
  }

  /** At no time do two requests lead the same key. */
  lemma OneStartInFlightPerKey(run: seq<State>, events: seq<Event>, i: nat, r: nat, k: nat)
    requires Reachable(run, events) && i < |run| && r < |run[i].phases| && k < |run[i].phases|
    requires Leading(run[i].phases[r]) && Leading(run[i].phases[k])
    ensures r < |run[i].requests| && k < |run[i].requests| && (run[i].requests[r].key == run[i].requests[k].key ==> r == k)
  {
    hide Reachable, Leading;
    ReachableInv(run, events, i);
  }

  /** Two accepted starts of one key are more than the retention time apart. */
  lemma AcceptedStartsAreSpaced(run: seq<State>, events: seq<Event>, i: nat, a: nat, b: nat)
    requires Reachable(run, events) && i < |run| && a < b < |run[i].starts|
    requires run[i].starts[a].key == run[i].starts[b].key
    ensures run[i].starts[b].at - run[i].starts[a].at > 600.0
  {
    hide Reachable;
    ReachableInv(run, events, i);
  }

  /** All accepted starts of a class and teacher run on the one thread that is on disk for them. */
  lemma OneThreadPerOwner(run: seq<State>, events: seq<Event>, i: nat, a: nat)
    requires Reachable(run, events) && i < |run| && a < |run[i].starts|
    ensures var s, start := run[i], run[i].starts[a];
            Mapped(s.disk, start.owner) && s.disk[start.owner] == start.receipt.thread
  {
    hide Reachable;
    ReachableInv(run, events, i);
  }

  lemma StepKeepsMappings(s: State, e: Event, o: Owner)
    requires Enabled(s, e) && Inv(s) && Mapped(s.disk, o)
    ensures Mapped(Step(s, e).disk, o) && Step(s, e).disk[o] == s.disk[o]
  {
    hide Step, Enabled, Registered, Remembered, Fresh, Spaced, Genuine;
    if e.Arrives? {
      ArrivalKeepsDisk(s, e);
    } else {
      StepMoves(s, e);
      StepThreads(s, e);
    }
  }

  lemma ArrivalKeepsDisk(s: State, e: Event)
    requires Enabled(s, e) && e.Arrives?
    ensures Step(s, e).disk == s.disk
  {
  }

  /** A thread once saved for a class and teacher is never lost or replaced, whoever else starts. */
  lemma {:induction false} MappingsAreWriteOnce(run: seq<State>, events: seq<Event>, i: nat, k: nat, o: Owner)
    requires Reachable(run, events) && i <= k < |run| && Mapped(run[i].disk, o)
    ensures Mapped(run[k].disk, o) && run[k].disk[o] == run[i].disk[o]
  {
    hide Mapped, Inv, Step, Enabled, Init;
    if i < k {
      MappingsAreWriteOnce(run, events, i, k - 1, o);
      ReachableInv(run, events, k - 1);
      StepKeepsMappings(run[k - 1], events[k - 1], o);
    }
  }

  /** Whatever receipt a request is answered with, its own key was started with it. */
  lemma AnswersAreGenuine(run: seq<State>, events: seq<Event>, i: nat, r: nat)
    requires Reachable(run, events) && i < |run| && r < |run[i].phases|
    requires run[i].phases[r].Accepted? || run[i].phases[r].Replayed?
    ensures r < |run[i].requests| && Answered(run[i].starts, run[i].requests[r].key, run[i].phases[r].receipt)
  {
    hide Reachable, Answered;
    ReachableInv(run, events, i);
  }

  /** Failures are not cached: after one, the next request of the key leads again, unless an
      earlier success is still cached. */
  lemma FailuresAllowRetry(s: State, r: nat, q: Request, now: real)
    requires Registered(s) && r < |s.phases| && Leading(s.phases[r]) && q.key == s.requests[r].key
    ensures var s' := Arrive(Break(s, r), q, now);
            s'.phases[|s.phases|] == WantLock(now) <==> q.key !in Prune(s.recent, now)
  {
  }
}
