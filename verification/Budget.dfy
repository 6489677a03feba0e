/** The gateway's token and turn budget: gateway/budget.py. */
module Budget {
  type Thread = string

  datatype Limits = Limits(maxTurns: int, maxTokens: int, idleTtl: real)

  /** The account of a thread's current task. */
  datatype Task = Task(turns: nat, tokens: nat, baseline: int, lastActivity: real)

  /** Open tasks, and for every thread the last total its runtime reported. */
  datatype Guard = Guard(tasks: map<Thread, Task>, totals: map<Thread, nat>)

  const Empty := Guard(map[], map[])

  function Max(a: int, b: int): int {
    if a < b then b else a
  }

  predicate Stale(b: Task, now: real, l: Limits) {
    now - b.lastActivity > l.idleTtl
  }

  function Total(g: Guard, t: Thread): nat {
    if t in g.totals then g.totals[t] else 0
  }

  /** Expires idle tasks; their threads keep their totals. */
  function Gc(g: Guard, now: real, l: Limits): Guard {
    g.(tasks := map t | t in g.tasks && !Stale(g.tasks[t], now, l) :: g.tasks[t])
  }

  // ----- Starting a turn --------------------------------------------------------------------

  /** The task a turn is charged to: the open one, or a fresh one that owes nothing yet. */
  function CurrentTask(g: Guard, t: Thread, now: real, l: Limits): Task {
    if t in g.tasks && !Stale(g.tasks[t], now, l) then g.tasks[t] else Task(0, 0, Total(g, t), now)
  }

  datatype TurnAnswer = Granted(turns: nat, tokens: nat) | TooManyTurns(turns: nat, tokens: nat) | TooManyTokens(turns: nat, tokens: nat)

  function Answer(b: Task, l: Limits): TurnAnswer {
    if b.turns >= l.maxTurns then TooManyTurns(b.turns, b.tokens)
    else if l.maxTokens != 0 && b.tokens >= l.maxTokens then TooManyTokens(b.turns, b.tokens)
    else Granted(b.turns + 1, b.tokens)
  }

  function AfterTurn(b: Task, done: real, l: Limits): Task {
    if Answer(b, l).Granted? then b.(turns := b.turns + 1, lastActivity := done) else b
  }

  /** The clock is read when expiring, when looking at the task and when the turn is granted. */
  function TurnStart(g: Guard, t: Thread, swept: real, looked: real, done: real, l: Limits): Guard {
    var g' := Gc(g, swept, l);
    g'.(tasks := g'.tasks[t := AfterTurn(CurrentTask(g', t, looked, l), done, l)])
  }

  // ----- Usage reports ------------------------------------------------------------------------

  /** A report of a running turn. */
  function Live(g: Guard, t: Thread, reported: int, now: real): Guard {
    var previous, total := Total(g, t), Max(0, reported);
    var b := if t in g.tasks then g.tasks[t] else Task(0, 0, previous, now);
    Guard(g.tasks[t := b.(tokens := Max(b.tokens, total - b.baseline), lastActivity := now)],
          g.totals[t := Max(previous, total)])
  }

  /** A replay of usage that was paid before. */
  function Historical(g: Guard, t: Thread, reported: int): Guard {
    var total := Max(0, reported);
    Guard(if t in g.tasks then g.tasks[t := g.tasks[t].(baseline := total - g.tasks[t].tokens)] else g.tasks,
          g.totals[t := total])
  }

  // ----- Runs --------------------------------------------------------------------------------

  datatype Event =
    | Start(thread: Thread, swept: real, looked: real, done: real)
    | Usage(thread: Thread, reported: int, now: real)
    | Replay(thread: Thread, reported: int)
    | Snapshot(now: real)

  function Step(g: Guard, e: Event, l: Limits): Guard {
    match e
    case Start(t, swept, looked, done) => TurnStart(g, t, swept, looked, done, l)
    case Usage(t, reported, now) => Live(g, t, reported, now)
    case Replay(t, reported) => Historical(g, t, reported)
    case Snapshot(now) => Gc(g, now, l)
  }

  function Run(events: seq<Event>, l: Limits): Guard {
    if events == [] then Empty else Step(Run(events[..|events| - 1], l), events[|events| - 1], l)
  }

  // ----- The books ------------------------------------------------------------------------------

  function OpenTokens(g: Guard, t: Thread): nat {
    if t in g.tasks then g.tasks[t].tokens else 0
  }

  function OpenTurns(g: Guard, t: Thread): nat {
    if t in g.tasks then g.tasks[t].turns else 0
  }

  /** The event ends the thread's open task. */
  predicate Ends(g: Guard, e: Event, t: Thread, l: Limits) {
    && t in g.tasks
    && match e
       case Start(who, swept, looked, _) =>
         swept - g.tasks[t].lastActivity > l.idleTtl || (who == t && looked - g.tasks[t].lastActivity > l.idleTtl)
       case Snapshot(now) => now - g.tasks[t].lastActivity > l.idleTtl
       case _ => false
  }

  /** Tokens of the thread's tasks that have ended. */
  function ClosedTokens(events: seq<Event>, l: Limits, t: Thread): nat {
    if events == [] then 0 else
      var front, e := events[..|events| - 1], events[|events| - 1];
      var g := Run(front, l);
      ClosedTokens(front, l, t) + if Ends(g, e, t, l) then OpenTokens(g, t) else 0
  }

  function ClosedTurns(events: seq<Event>, l: Limits, t: Thread): nat {
    if events == [] then 0 else
      var front, e := events[..|events| - 1], events[|events| - 1];
      var g := Run(front, l);
      ClosedTurns(front, l, t) + if Ends(g, e, t, l) then OpenTurns(g, t) else 0
  }

  /** How far live reports have raised the thread's watermark. */
  function LiveIncrease(events: seq<Event>, l: Limits, t: Thread): nat {
    if events == [] then 0 else
      var front, e := events[..|events| - 1], events[|events| - 1];
      var before := Total(Run(front, l), t);
      LiveIncrease(front, l, t) + if e.Usage? && e.thread == t && e.reported > before then e.reported - before else 0
  }

  /** How far replays have moved it, up or down. */
  function Replayed(events: seq<Event>, l: Limits, t: Thread): int {
    if events == [] then 0 else
      var front, e := events[..|events| - 1], events[|events| - 1];
      Replayed(front, l, t)
      + if e.Replay? && e.thread == t then (if e.reported < 0 then 0 else e.reported) - Total(Run(front, l), t) else 0
  }

  /** The thread's task is open at both readings of the clock, so that its turns and tokens count. */
  predicate IsOpen(g: Guard, t: Thread, swept: real, looked: real, l: Limits) {
    t in g.tasks && swept - g.tasks[t].lastActivity <= l.idleTtl && looked - g.tasks[t].lastActivity <= l.idleTtl
  }

  /** A turn fits: fewer turns than the cap and, where there is one, fewer tokens than the token limit. */
  predicate Grants(g: Guard, t: Thread, swept: real, looked: real, l: Limits) {
    var open := IsOpen(g, t, swept, looked, l);
    (if open then g.tasks[t].turns else 0) < l.maxTurns && (l.maxTokens == 0 || (if open then g.tasks[t].tokens else 0) < l.maxTokens)
  }

  function GrantedTurns(events: seq<Event>, l: Limits, t: Thread): nat {
    if events == [] then 0 else
      var front, e := events[..|events| - 1], events[|events| - 1];
      GrantedTurns(front, l, t)
      + if e.Start? && e.thread == t && Grants(Run(front, l), t, e.swept, e.looked, l) then 1 else 0
  }

  // ----- The class ------------------------------------------------------------------------------

  class BudgetGuard {
    const limits: Limits
    var tasks: map<Thread, Task>
    var totals: map<Thread, nat>

    function State(): Guard
      reads this
    {
      Guard(tasks, totals)
    }

    constructor (limits: Limits)
      ensures this.limits == limits && State() == Empty
    {
      this.limits := limits;
      tasks, totals := map[], map[];
    }

    method Expire(now: real)
      modifies this`tasks
      ensures State() == Gc(old(State()), now, limits)
    {
      var stale := set t | t in tasks && Stale(tasks[t], now, limits);
      ghost var before := tasks;
      ghost var removed: set<Thread> := {};
      while stale != {}
        invariant tasks == before - removed
        invariant removed !! stale && removed + stale == set t | t in before && Stale(before[t], now, limits)
        decreases |stale|
      {
        var t :| t in stale;
        tasks, stale, removed := tasks - {t}, stale - {t}, removed + {t};
      }
    }

    method CheckTurnStart(t: Thread, swept: real, looked: real, done: real) returns (r: TurnAnswer)
      modifies this
      ensures State() == TurnStart(old(State()), t, swept, looked, done, limits)
      ensures r == Answer(CurrentTask(Gc(old(State()), swept, limits), t, looked, limits), limits)
      ensures r.Granted? <==> Grants(old(State()), t, swept, looked, limits)
      ensures r.Granted? ==> tasks[t].turns == r.turns && tasks[t].tokens == r.tokens && tasks[t].lastActivity == done
    {
      Expire(swept);
      if t !in tasks || Stale(tasks[t], looked, limits) {
        tasks := tasks[t := Task(0, 0, if t in totals then totals[t] else 0, looked)];
      }
      var b := tasks[t];
      if b.turns >= limits.maxTurns { return TooManyTurns(b.turns, b.tokens); }
      if limits.maxTokens != 0 && b.tokens >= limits.maxTokens { return TooManyTokens(b.turns, b.tokens); }
      tasks := tasks[t := b.(turns := b.turns + 1, lastActivity := done)];
      r := Granted(b.turns + 1, b.tokens);
    }

    method ObserveTokenUsage(t: Thread, reported: int, historical: bool, now: real) returns (interrupt: bool)
      modifies this
      ensures State() == if historical then Historical(old(State()), t, reported) else Live(old(State()), t, reported, now)
      ensures interrupt <==> !historical && t in tasks && limits.maxTokens != 0 && tasks[t].tokens >= limits.maxTokens
    {
      var previous, total := if t in totals then totals[t] else 0, Max(0, reported);
      totals := totals[t := if historical then total else Max(previous, total)];
      if historical {
        if t in tasks { tasks := tasks[t := tasks[t].(baseline := total - tasks[t].tokens)]; }
        return false;
      }
      if t !in tasks { tasks := tasks[t := Task(0, 0, previous, now)]; }
      var b := tasks[t];
      tasks := tasks[t := b.(tokens := Max(b.tokens, total - b.baseline), lastActivity := now)];
      interrupt := limits.maxTokens != 0 && tasks[t].tokens >= limits.maxTokens;
    }
  }
}
