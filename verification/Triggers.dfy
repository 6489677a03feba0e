/** Post-exam triggers at the gateway: gateway/main.py. Code between two awaits is one step. */
module Triggers {

  const Ttl: real := 600.0

  /** A persistent thread belongs to a class and a teacher (0 for nobody). */
  datatype Owner = Owner(classId: nat, teacher: nat)

  datatype Receipt = Receipt(thread: string, template: string)
  datatype Request = Request(key: string, owner: Owner, template: string)

  /** Where a request stands; `since` is when it was admitted. */
  datatype Phase =
    | WantLock(since: real)
    | WantBridge(since: real)
    | WantThread(since: real)
    | WantResume(since: real, thread: string)
    | WantTurn(since: real, thread: string)
    | Waiting(on: nat)
    | Accepted(receipt: Receipt)
    | Replayed(receipt: Receipt)
    | Failed

  /** A start the gateway has answered for. */
  datatype Start = Start(key: string, owner: Owner, at: real, receipt: Receipt)

  datatype State = State(
    clock: real,
    requests: seq<Request>,
    phases: seq<Phase>,
    recent: map<string, (real, Receipt)>,
    inflight: map<string, nat>,
    locks: map<Owner, nat>,
    disk: map<Owner, string>,
    starts: seq<Start>)

  function Init(disk: map<Owner, string>, clock: real): State {
    State(clock, [], [], map[], map[], map[], disk, [])
  }

  predicate Leading(p: Phase) {
    p.WantLock? || p.WantBridge? || p.WantThread? || p.WantResume? || p.WantTurn?
  }

  predicate Locking(p: Phase) {
    p.WantBridge? || p.WantThread? || p.WantResume? || p.WantTurn?
  }

  /** An empty id counts as no mapping. */
  predicate Mapped(disk: map<Owner, string>, o: Owner) {
    o in disk && disk[o] != ""
  }

  // ----- Steps -------------------------------------------------------------------------------

  function Prune(recent: map<string, (real, Receipt)>, now: real): map<string, (real, Receipt)> {
    map k | k in recent && !(now - recent[k].0 > Ttl) :: recent[k]
  }

  /** A request is answered from the cache, waits for the one in flight, or takes the lead. */
  function Arrive(s: State, q: Request, now: real): State {
    var recent := Prune(s.recent, now);
    var s' := s.(clock := now, recent := recent, requests := s.requests + [q]);
    if q.key in recent then s'.(phases := s.phases + [Replayed(recent[q.key].1)])
    else if q.key in s.inflight then s'.(phases := s.phases + [Waiting(s.inflight[q.key])])
    else s'.(phases := s.phases + [WantLock(now)], inflight := s.inflight[q.key := |s.phases|])
  }

  datatype Event =
    | Arrives(request: Request, now: real)
    | Locks(r: nat)
    | Bridged(r: nat, loaded: bool)
    | ThreadStarted(r: nat, thread: string)
    | Resumed(r: nat)
    | TurnStarted(r: nat, now: real)
    | Breaks(r: nat)
    | Wakes(r: nat)

  function To(s: State, r: nat, p: Phase): State
    requires r < |s.phases|
  {
    s.(phases := s.phases[r := p])
  }

  /** Failure, timeout or cancellation: the lock and the key are given back, nothing is cached. */
  function Break(s: State, r: nat): State
    requires r < |s.phases| == |s.requests|
  {
    var q := s.requests[r];
    To(s, r, Failed).(inflight := if Leading(s.phases[r]) then s.inflight - {q.key} else s.inflight,
                      locks := if Locking(s.phases[r]) then s.locks - {q.owner} else s.locks)
  }

  predicate Enabled(s: State, e: Event) {
    match e
    case Arrives(_, now) => s.clock <= now
    case Locks(r) => r < |s.phases| == |s.requests| && s.phases[r].WantLock? && s.requests[r].owner !in s.locks
    case Bridged(r, _) => r < |s.phases| == |s.requests| && s.phases[r].WantBridge?
    case ThreadStarted(r, _) => r < |s.phases| == |s.requests| && s.phases[r].WantThread?
    case Resumed(r) => r < |s.phases| == |s.requests| && s.phases[r].WantResume?
    case TurnStarted(r, now) => r < |s.phases| == |s.requests| && s.phases[r].WantTurn? && s.clock <= now
    case Breaks(r) => r < |s.phases| == |s.requests| && (Leading(s.phases[r]) || s.phases[r].Waiting?)
    case Wakes(r) =>
      r < |s.phases| == |s.requests| && s.phases[r].Waiting? && s.phases[r].on < |s.phases|
      && (s.phases[s.phases[r].on].Accepted? || s.phases[s.phases[r].on].Failed?)
  }

  /** The map is read once the bridge is there; a known thread is resumed unless loaded. */
  function AfterBridge(s: State, r: nat, loaded: bool): State
    requires r < |s.phases| == |s.requests| && s.phases[r].WantBridge?
  {
    var o, since := s.requests[r].owner, s.phases[r].since;
    if !Mapped(s.disk, o) then To(s, r, WantThread(since))
    else if loaded then To(s, r, WantTurn(since, s.disk[o]))
    else To(s, r, WantResume(since, s.disk[o]))
  }

  /** A new thread is merged into the map as it is on disk now. */
  function AfterThread(s: State, r: nat, thread: string): State
    requires r < |s.phases| == |s.requests| && s.phases[r].WantThread?
  {
    if thread == "" then Break(s, r)
    else To(s, r, WantTurn(s.phases[r].since, thread)).(disk := s.disk[s.requests[r].owner := thread])
  }

  function Accept(s: State, r: nat, now: real): State
    requires r < |s.phases| == |s.requests| && s.phases[r].WantTurn?
  {
    var q, receipt := s.requests[r], Receipt(s.phases[r].thread, s.requests[r].template);
    To(s, r, Accepted(receipt)).(clock := now, locks := s.locks - {q.owner}, inflight := s.inflight - {q.key},
                                 recent := s.recent[q.key := (now, receipt)],
                                 starts := s.starts + [Start(q.key, q.owner, now, receipt)])
  }

  function Wake(s: State, r: nat): State
    requires r < |s.phases| && s.phases[r].Waiting? && s.phases[r].on < |s.phases|
  {
    var lead := s.phases[s.phases[r].on];
    To(s, r, if lead.Accepted? then Replayed(lead.receipt) else Failed)
  }

  function Step(s: State, e: Event): State
    requires Enabled(s, e)
  {
    match e
    case Arrives(q, now) => Arrive(s, q, now)
    case Locks(r) => To(s, r, WantBridge(s.phases[r].since)).(locks := s.locks[s.requests[r].owner := r])
    case Bridged(r, loaded) => AfterBridge(s, r, loaded)
    case ThreadStarted(r, thread) => AfterThread(s, r, thread)
    case Resumed(r) => To(s, r, WantTurn(s.phases[r].since, s.phases[r].thread))
    case TurnStarted(r, now) => Accept(s, r, now)
    case Breaks(r) => Break(s, r)
    case Wakes(r) => Wake(s, r)
  }

  /** The states of a run, one per event. */
  ghost predicate IsRun(run: seq<State>, events: seq<Event>) {
    && |run| == |events| + 1
    && forall i | 0 <= i < |events| :: Enabled(run[i], events[i]) && run[i + 1] == Step(run[i], events[i])
  }
}
