/** What the budget charges, over every run. */
module BudgetTheorems {
  import opened Budget

  function TurnCap(l: Limits): nat {
    if l.maxTurns < 0 then 0 else l.maxTurns
  }

  /** Watermark = baseline + charged, for every open task; turns within the cap. */
  ghost predicate Inv(g: Guard, l: Limits) {
    forall t | t in g.tasks ::
      Total(g, t) == g.tasks[t].baseline + g.tasks[t].tokens && g.tasks[t].turns <= TurnCap(l)
  }

  lemma StepKeepsInv(g: Guard, e: Event, l: Limits)
    requires Inv(g, l)
    ensures Inv(Step(g, e, l), l)
  {
    match e
    case Start(t, swept, looked, done) =>
      assert Inv(Gc(g, swept, l), l);
    case _ =>
  }

  /** After any run, an open task has charged exactly the watermark's rise above its baseline, and
      no task has been granted more turns than the cap. */
  lemma {:induction false} WatermarkIsBaselinePlusCharge(events: seq<Event>, l: Limits)
    ensures Inv(Run(events, l), l)
  {
    if events != [] {
      var n := |events| - 1;
      WatermarkIsBaselinePlusCharge(events[..n], l);
      StepKeepsInv(Run(events[..n], l), events[n], l);
    }
  }

  /** What one step does to a thread's books. */
  lemma StepBooks(g: Guard, e: Event, l: Limits, t: Thread)
    requires Inv(g, l)
    ensures var g', before := Step(g, e, l), Total(g, t);
            && OpenTokens(g', t) == (if Ends(g, e, t, l) then 0 else OpenTokens(g, t))
                                    + (if e.Usage? && e.thread == t && e.reported > before then e.reported - before else 0)
            && Total(g', t) == before + (if e.Usage? && e.thread == t && e.reported > before then e.reported - before else 0)
                                      + (if e.Replay? && e.thread == t then (if e.reported < 0 then 0 else e.reported) - before else 0)
  {
  }

  /** Tokens charged to all tasks of a thread, ended and open, are exactly the positive rises of
      its watermark under live reports: nothing is charged twice, lost, or charged for a replay. */
  lemma {:induction false} ChargesAreLiveIncreases(events: seq<Event>, l: Limits, t: Thread)
    ensures ClosedTokens(events, l, t) + OpenTokens(Run(events, l), t) == LiveIncrease(events, l, t)
  {
    if events != [] {
      var n := |events| - 1;
      ChargesAreLiveIncreases(events[..n], l, t);
      WatermarkIsBaselinePlusCharge(events[..n], l);
      hide Ends, Step, Inv;
      StepBooks(Run(events[..n], l), events[n], l, t);
    }
  }

  /** Charges plus replayed movement add up to the watermark; without replays the thread has paid
      for its whole total. */
  lemma {:induction false} WatermarkIsChargesPlusReplays(events: seq<Event>, l: Limits, t: Thread)
    ensures LiveIncrease(events, l, t) + Replayed(events, l, t) == Total(Run(events, l), t)
  {
    if events != [] {
      var n := |events| - 1;
      WatermarkIsChargesPlusReplays(events[..n], l, t);
      WatermarkIsBaselinePlusCharge(events[..n], l);
      hide Ends, Step, Inv;
      StepBooks(Run(events[..n], l), events[n], l, t);
    }
  }

  lemma StepTurns(g: Guard, e: Event, l: Limits, t: Thread)
    ensures OpenTurns(Step(g, e, l), t) ==
            (if Ends(g, e, t, l) then 0 else OpenTurns(g, t))
            + (if e.Start? && e.thread == t && Grants(g, t, e.swept, e.looked, l) then 1 else 0)
  {
  }

  /** Every granted turn is on the account of exactly one task. */
  lemma {:induction false} GrantedTurnsAreAccounted(events: seq<Event>, l: Limits, t: Thread)
    ensures ClosedTurns(events, l, t) + OpenTurns(Run(events, l), t) == GrantedTurns(events, l, t)
  {
    if events != [] {
      var n := |events| - 1;
      GrantedTurnsAreAccounted(events[..n], l, t);
      hide Ends, Step, Grants;
      StepTurns(Run(events[..n], l), events[n], l, t);
    }
  }

  /** How often the thread's task has ended. */
  function Endings(events: seq<Event>, l: Limits, t: Thread): nat {
    if events == [] then 0 else
      var front, e := events[..|events| - 1], events[|events| - 1];
      Endings(front, l, t) + if Ends(Run(front, l), e, t, l) then 1 else 0
  }

  lemma {:induction false} ClosedTurnsAreCapped(events: seq<Event>, l: Limits, t: Thread)
    ensures ClosedTurns(events, l, t) <= TurnCap(l) * Endings(events, l, t)
  {
    hide Ends, Run, OpenTurns;
    if events != [] {
      var n := |events| - 1;
      ClosedTurnsAreCapped(events[..n], l, t);
      OpenTurnsAreCapped(events[..n], l, t);
      OneMore(TurnCap(l), Endings(events[..n], l, t));
    }
  }

  lemma OpenTurnsAreCapped(events: seq<Event>, l: Limits, t: Thread)
    ensures OpenTurns(Run(events, l), t) <= TurnCap(l)
  {
    hide Run;
    WatermarkIsBaselinePlusCharge(events, l);
  }

  lemma OneMore(cap: int, k: int)
    ensures cap * (k + 1) == cap * k + cap
  {
  }

  /** A thread is granted at most the cap of turns per task: more need an idle spell in between. */
  lemma GrantsArePerTask(events: seq<Event>, l: Limits, t: Thread)
    ensures GrantedTurns(events, l, t) <= TurnCap(l) * (Endings(events, l, t) + 1)
  {
    hide GrantedTurns, ClosedTurns, OpenTurns, Endings, Run;
    GrantedTurnsAreAccounted(events, l, t);
    ClosedTurnsAreCapped(events, l, t);
    OpenTurnsAreCapped(events, l, t);
    OneMore(TurnCap(l), Endings(events, l, t));
  }

  /** Replays charge nothing anywhere, and reports on one thread leave all others alone. */
  lemma ReplaysAreFree(g: Guard, e: Event, l: Limits, t: Thread)
    requires e.Replay? || (e.Usage? && e.thread != t)
    ensures var g' := Step(g, e, l);
            && OpenTokens(g', t) == OpenTokens(g, t) && OpenTurns(g', t) == OpenTurns(g, t)
            && (e.thread != t ==> Total(g', t) == Total(g, t) && (t in g'.tasks <==> t in g.tasks)
                                  && (t in g.tasks ==> g'.tasks[t] == g.tasks[t]))
  {
  }

  /** After a replay of `total`, a live report charges only what lies above it. */
  lemma ReplayedUsageIsNotChargedAgain(events: seq<Event>, l: Limits, t: Thread, total: nat, reported: int, now: real)
    ensures var g := Run(events + [Replay(t, total)], l);
            OpenTokens(Live(g, t, reported, now), t) == OpenTokens(g, t) + (if reported > total then reported - total else 0)
  {
    var more := events + [Replay(t, total)];
    WatermarkIsBaselinePlusCharge(more, l);
    assert more[..|events|] == events;
  }

  // ----- Who is served, and for how long a task lasts ----------------------------------------------

  /** A turn is granted exactly when the thread's task, if it is open, has turns and tokens left. */
  lemma GrantedIff(g: Guard, t: Thread, swept: real, looked: real, l: Limits)
    ensures Answer(CurrentTask(Gc(g, swept, l), t, looked, l), l).Granted? <==> Grants(g, t, swept, looked, l)
  {
  }

  /** A thread's task outlives an event of others exactly when the event reads no clock more than the idle
      time after the task's last activity; it is then unchanged. */
  lemma ExpiresIff(g: Guard, e: Event, l: Limits, t: Thread)
    requires t in g.tasks && (e.Snapshot? || e.thread != t)
    ensures t in Step(g, e, l).tasks <==>
            match e
            case Start(_, swept, _, _) => swept <= g.tasks[t].lastActivity + l.idleTtl
            case Snapshot(now) => now <= g.tasks[t].lastActivity + l.idleTtl
            case _ => true
    ensures t in Step(g, e, l).tasks ==> Step(g, e, l).tasks[t] == g.tasks[t]
  {
  }

  /** Live usage and granted turns count as activity; a refused turn does not prolong an open task. */
  lemma ActivityIs(g: Guard, e: Event, l: Limits)
    requires e.Start? || e.Usage?
    ensures e.thread in Step(g, e, l).tasks
    ensures Step(g, e, l).tasks[e.thread].lastActivity ==
            if e.Usage? then e.now
            else if Grants(g, e.thread, e.swept, e.looked, l) then e.done
            else if IsOpen(g, e.thread, e.swept, e.looked, l) then g.tasks[e.thread].lastActivity
            else e.looked
  {
  }
}
