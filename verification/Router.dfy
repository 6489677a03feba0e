/**
 The scheduler of llm_router/main.py: bounded global, capability and per-key concurrency,
 optional requests-per-minute and tokens-per-minute windows, a circuit per key and a
 round-robin cursor.

 Everything between two suspension points of the event loop is one step. A pass of the
 `acquire` loop is `Attempt`; a release is two steps, because the lease is flagged before
 the scheduler's lock is awaited.
 */
module Router {
  import opened Options

  const WINDOW := 60.0

  type Duration = d: real | 0.0 <= d

  datatype Config = Config(
    maxConcurrency: nat,
    agentConcurrency: nat,
    visionConcurrency: nat,
    textConcurrency: nat,
    keyConcurrency: nat,
    keyRpm: nat,
    keyTpm: nat,
    circuitThreshold: nat,
    circuitCooldown: real)

  function CapLimit(c: Config, capability: string): nat {
    if capability == "agent" then c.agentConcurrency
    else if capability == "vision" then c.visionConcurrency
    else c.textConcurrency
  }

  /** An entry of a sliding-window deque: a request counts 1, a token event its tokens. */
  datatype Stamp = Stamp(at: real, amount: nat)

  datatype Key = Key(
    inFlight: nat,
    failures: nat,
    openedUntil: real,
    requestTimes: seq<Stamp>,
    tokenEvents: seq<Stamp>)

  const FRESH_KEY := Key(0, 0, 0.0, [], [])

  datatype Scheduler = Scheduler(
    config: Config,
    keys: seq<Key>,
    globalInFlight: nat,
    capInFlight: map<string, nat>,
    cursor: nat,
    requests: nat,
    rejections: nat)

  function Total(d: seq<Stamp>): nat {
    if d == [] then 0 else Total(d[..|d| - 1]) + d[|d| - 1].amount
  }

  /** `popleft` while the head is at or before the cutoff. */
  function Prune(d: seq<Stamp>, cutoff: real): seq<Stamp> {
    if d != [] && d[0].at <= cutoff then Prune(d[1..], cutoff) else d
  }

  function Pruned(k: Key, now: real): Key {
    k.(requestTimes := Prune(k.requestTimes, now - WINDOW), tokenEvents := Prune(k.tokenEvents, now - WINDOW))
  }

  /** Why a scan takes, skips or trips over a key; a skip may know when time alone cures it.
      `Broken` is the IndexError raised by reading the head of an empty token deque. */
  datatype Verdict = Eligible | Skip(wake: Option<real>) | Broken

  function Judge(c: Config, k: Key, estimate: nat, now: real): Verdict {
    if k.openedUntil > now then Skip(Some(k.openedUntil))
    else if k.inFlight >= c.keyConcurrency then Skip(None)
    else if c.keyRpm != 0 && |k.requestTimes| >= c.keyRpm then Skip(Some(k.requestTimes[0].at + WINDOW))
    else if c.keyTpm != 0 && Total(k.tokenEvents) + estimate > c.keyTpm then
      if k.tokenEvents == [] then Broken else Skip(Some(k.tokenEvents[0].at + WINDOW))
    else Eligible
  }

  datatype Scan = Scan(keys: seq<Key>, found: Option<nat>, broken: bool, wait: real)

  function ScanFrom(c: Config, keys: seq<Key>, cursor: nat, estimate: nat, now: real, offset: nat, wait: real): (r: Scan)
    requires offset <= |keys| && (keys == [] || cursor < |keys|)
    ensures |r.keys| == |keys| && (r.found.Some? ==> r.found.value < |keys| && !r.broken)
    decreases |keys| - offset
  {
    if offset == |keys| then Scan(keys, None, false, wait) else
      var index := (cursor + offset) % |keys|;
      var key := Pruned(keys[index], now);
      var rest := keys[index := key];
      match Judge(c, key, estimate, now)
      case Eligible => Scan(rest, Some(index), false, wait)
      case Broken => Scan(rest, None, true, wait)
      case Skip(wake) =>
        ScanFrom(c, rest, cursor, estimate, now, offset + 1,
                 if wake.Some? && wake.value - now < wait then wake.value - now else wait)
  }

  datatype Outcome = Admitted(key: nat) | Waiting(timeout: real) | Rejected(retryAfter: real) | Crashed

  function Max(a: real, b: real): real { if a < b then b else a }
  function Min(a: real, b: real): real { if a < b then a else b }

  /** The admitted key: one more in flight, stamped in both windows. */
  function Charged(k: Key, estimate: nat, now: real): Key {
    k.(inFlight := k.inFlight + 1,
       requestTimes := k.requestTimes + [Stamp(now, 1)],
       tokenEvents := if estimate == 0 then k.tokenEvents else k.tokenEvents + [Stamp(now, estimate)])
  }

  function Admit(s: Scheduler, index: nat, capability: string, estimate: nat, now: real): Scheduler
    requires index < |s.keys|
  {
    s.(keys := s.keys[index := Charged(s.keys[index], estimate, now)],
       globalInFlight := s.globalInFlight + 1,
       capInFlight := s.capInFlight[capability := CapCount(s, capability) + 1],
       cursor := (index + 1) % |s.keys|,
       requests := s.requests + 1)
  }

  function CapCount(s: Scheduler, capability: string): nat {
    if capability in s.capInFlight then s.capInFlight[capability] else 0
  }

  predicate HasRoom(s: Scheduler, capability: string) {
    s.globalInFlight < s.config.maxConcurrency && CapCount(s, capability) < CapLimit(s.config, capability)
  }

  /** One pass of the `acquire` loop at time `now`. */
  function Attempt(s: Scheduler, capability: string, estimate: nat, now: real, deadline: real): (r: (Scheduler, Outcome))
    requires s.keys == [] || s.cursor < |s.keys|
    ensures r.1.Admitted? ==> r.1.key < |s.keys|
  {
    if s.keys == [] then (s.(rejections := s.rejections + 1), Rejected(60.0)) else
      var scan := ScanFrom(s.config, s.keys, s.cursor, estimate, now, 0, Max(0.05, deadline - now));
      var t := s.(keys := scan.keys);
      if scan.broken then (t, Crashed)
      else if scan.found.Some? && HasRoom(t, capability) then
        (Admit(t, scan.found.value, capability, estimate, now), Admitted(scan.found.value))
      else if deadline - now <= 0.0 then (t.(rejections := t.rejections + 1), Rejected(Max(0.05, scan.wait)))
      else (t, Waiting(Min(deadline - now, scan.wait)))
  }

  /** `max(0, n - 1)`. */
  function Less(n: nat): nat {
    if n == 0 then 0 else n - 1
  }

  /** Tokens used beyond the estimate; an unestimated request is never charged. */
  function Overrun(estimate: nat, actual: Option<int>): nat {
    if actual.Some? && estimate != 0 && actual.value > estimate then actual.value - estimate else 0
  }

  function ReleasedKey(c: Config, k: Key, estimate: nat, success: bool, actual: Option<int>, now: real): Key {
    var overrun := Overrun(estimate, actual);
    var tripped := !success && k.failures + 1 >= c.circuitThreshold;
    k.(inFlight := Less(k.inFlight),
       tokenEvents := if overrun > 0 then k.tokenEvents + [Stamp(now, overrun)] else k.tokenEvents,
       failures := if success || tripped then 0 else k.failures + 1,
       openedUntil := if tripped then now + c.circuitCooldown else k.openedUntil)
  }

  function Release(s: Scheduler, index: nat, capability: string, estimate: nat,
                   success: bool, actual: Option<int>, now: real): Scheduler
    requires index < |s.keys|
  {
    s.(keys := s.keys[index := ReleasedKey(s.config, s.keys[index], estimate, success, actual, now)],
       globalInFlight := Less(s.globalInFlight),
       capInFlight := s.capInFlight[capability :=
         Less(if capability in s.capInFlight then s.capInFlight[capability] else 1)])
  }

  // ----- Runs --------------------------------------------------------------------------

  datatype Phase = Held | Releasing | Released
  datatype Lease = Lease(key: nat, capability: string, estimate: nat, phase: Phase)

  /** A stamp as it was appended, kept forever; `admission` tells estimates from overruns. */
  datatype Entry = Entry(stamp: Stamp, admission: bool)

  datatype World = World(
    s: Scheduler,
    clock: real,
    leases: seq<Lease>,
    requestLogs: seq<seq<Entry>>,
    tokenLogs: seq<seq<Entry>>)

  function Start(config: Config, keys: nat, clock: real): World {
    World(Scheduler(config, seq(keys, _ => FRESH_KEY), 0, map[], 0, 0, 0), clock, [],
          seq(keys, _ => []), seq(keys, _ => []))
  }

  datatype Event =
    | TryAcquire(capability: string, estimate: nat, deadline: real, elapsed: Duration)
    | GiveUp
    | BeginRelease(lease: nat)
    | FinishRelease(lease: nat, success: bool, actual: Option<int>, elapsed: Duration)

  predicate Shape(w: World) {
    && |w.requestLogs| == |w.tokenLogs| == |w.s.keys|
    && (w.s.keys == [] || w.s.cursor < |w.s.keys|)
    && (forall i | 0 <= i < |w.leases| :: w.leases[i].key < |w.s.keys|)
  }

  function Logged(log: seq<Entry>, amount: nat, admission: bool, now: real): seq<Entry> {
    if amount == 0 then log else log + [Entry(Stamp(now, amount), admission)]
  }

  function AcquireStep(w: World, capability: string, estimate: nat, deadline: real, elapsed: Duration): World
    requires Shape(w)
  {
    var now := w.clock + elapsed;
    var (s, outcome) := Attempt(w.s, capability, estimate, now, deadline);
    if outcome.Admitted? then
      var k := outcome.key;
      w.(s := s, clock := now,
         leases := w.leases + [Lease(k, capability, estimate, Held)],
         requestLogs := w.requestLogs[k := Logged(w.requestLogs[k], 1, true, now)],
         tokenLogs := w.tokenLogs[k := Logged(w.tokenLogs[k], estimate, true, now)])
    else w.(s := s, clock := now)
  }

  function FinishStep(w: World, i: nat, success: bool, actual: Option<int>, elapsed: Duration): World
    requires Shape(w) && i < |w.leases|
  {
    var now, l := w.clock + elapsed, w.leases[i];
    w.(s := Release(w.s, l.key, l.capability, l.estimate, success, actual, now), clock := now,
       leases := w.leases[i := l.(phase := Released)],
       tokenLogs := w.tokenLogs[l.key := Logged(w.tokenLogs[l.key], Overrun(l.estimate, actual), false, now)])
  }

  function Step(w: World, e: Event): World
    requires Shape(w)
  {
    match e
    case TryAcquire(capability, estimate, deadline, elapsed) => AcquireStep(w, capability, estimate, deadline, elapsed)
    case GiveUp => w.(s := w.s.(rejections := w.s.rejections + 1))
    case BeginRelease(i) =>
      if i < |w.leases| && w.leases[i].phase.Held?
      then w.(leases := w.leases[i := w.leases[i].(phase := Releasing)]) else w
    case FinishRelease(i, success, actual, elapsed) =>
      if i < |w.leases| && w.leases[i].phase.Releasing? then FinishStep(w, i, success, actual, elapsed) else w
  }

  lemma StepKeepsShape(w: World, e: Event)
    requires Shape(w)
    ensures Shape(Step(w, e)) && |Step(w, e).s.keys| == |w.s.keys| && Step(w, e).s.config == w.s.config
  {
  }

  function Run(w: World, events: seq<Event>): (r: World)
    requires Shape(w)
    ensures Shape(r) && |r.s.keys| == |w.s.keys| && r.s.config == w.s.config
    decreases |events|
  {
    if events == [] then w else StepKeepsShape(w, events[0]); Run(Step(w, events[0]), events[1..])
  }
}
