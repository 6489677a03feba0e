/** What holds in every run of the scheduler, whatever the requests, releases and times. */
module RouterTheorems {
  import opened Options
  import opened Router
  import opened RouterWindows
  import opened RouterProofs

  function Reach(config: Config, keys: nat, clock: real, events: seq<Event>): World {
    Run(Start(config, keys, clock), events)
  }

  lemma ReachOk(config: Config, keys: nat, clock: real, events: seq<Event>)
    ensures Inv(Reach(config, keys, clock, events)) && Reach(config, keys, clock, events).s.config == config
    ensures |Reach(config, keys, clock, events).s.keys| == keys
  {
    StartOk(config, keys, clock);
    RunKeepsInv(Start(config, keys, clock), events);
  }

  // ----- Rate --------------------------------------------------------------------------

  /** Over the whole history of a key, every 60-second window holds at most key_rpm admissions,
      and admitted estimates of at most key_tpm tokens; and that history misses no lease. */
  lemma RatesAreBounded(config: Config, keys: nat, clock: real, events: seq<Event>, k: nat, t: real)
    requires k < keys
    ensures var w := Reach(config, keys, clock, events);
            && |w.requestLogs| == |w.tokenLogs| == keys
            && (config.keyRpm != 0 ==> AdmittedWithin(w.requestLogs[k], t) <= config.keyRpm)
            && (config.keyTpm != 0 ==> AdmittedWithin(w.tokenLogs[k], t) <= config.keyTpm)
            && Granted(w.leases, k) == (AdmittedTotal(w.requestLogs[k]), AdmittedTotal(w.tokenLogs[k]))
  {
    ReachOk(config, keys, clock, events);
    var w := Reach(config, keys, clock, events);
    assert KeyOk(w.s.config, w.s.keys[k], w.requestLogs[k], w.tokenLogs[k], w.clock);
    if config.keyRpm != 0 { WindowBound(w.requestLogs[k], config.keyRpm, t); }
    if config.keyTpm != 0 { WindowBound(w.tokenLogs[k], config.keyTpm, t); }
  }

  // ----- Conservation ------------------------------------------------------------------

  function KeyCounts(leases: seq<Lease>, n: nat): nat {
    if n == 0 then 0 else KeyCounts(leases, n - 1) + Count(leases, OfKey(n - 1))
  }

  function CapCounts(leases: seq<Lease>, names: seq<string>): nat {
    if names == [] then 0 else CapCounts(leases, names[..|names| - 1]) + Count(leases, OfCap(names[|names| - 1]))
  }

  lemma {:induction false} KeyCountsAppend(leases: seq<Lease>, l: Lease, n: nat)
    ensures KeyCounts(leases + [l], n) == KeyCounts(leases, n) + if !l.phase.Released? && l.key < n then 1 else 0
  {
    if n > 0 {
      KeyCountsAppend(leases, l, n - 1);
      CountAppend(leases, l, OfKey(n - 1));
    }
  }

  lemma {:induction false} CapCountsAppend(leases: seq<Lease>, l: Lease, names: seq<string>)
    requires forall i, k | 0 <= i < k < |names| :: names[i] != names[k]
    ensures CapCounts(leases + [l], names) ==
            CapCounts(leases, names) + if !l.phase.Released? && l.capability in names then 1 else 0
  {
    hide Count;
    if names != [] {
      var front, last := names[..|names| - 1], names[|names| - 1];
      LastNameIsNew(names, l.capability);
      CapCountsAppend(leases, l, front);
      CountAppend(leases, l, OfCap(last));
    }
  }

  lemma LastNameIsNew(names: seq<string>, name: string)
    requires names != [] && forall i, k | 0 <= i < k < |names| :: names[i] != names[k]
    ensures var front, last := names[..|names| - 1], names[|names| - 1];
            last !in front && (name in names <==> name in front || name == last)
  {
    assert names == names[..|names| - 1] + [names[|names| - 1]];
  }

  lemma {:induction false} CountsAddUp(leases: seq<Lease>, n: nat, names: seq<string>)
    requires forall i, k | 0 <= i < k < |names| :: names[i] != names[k]
    requires forall i | 0 <= i < |leases| :: leases[i].key < n
    requires forall i | 0 <= i < |leases| && !leases[i].phase.Released? :: leases[i].capability in names
    ensures KeyCounts(leases, n) == CapCounts(leases, names) == Count(leases, Any)
  {
    if leases == [] {
      NoLeasesNoCounts(n, names);
    } else {
      var front, l := leases[..|leases| - 1], leases[|leases| - 1];
      assert leases == front + [l];
      CountsAddUp(front, n, names);
      KeyCountsAppend(front, l, n);
      CapCountsAppend(front, l, names);
    }
  }

  lemma {:induction false} NoLeasesNoCounts(n: nat, names: seq<string>)
    ensures KeyCounts([], n) == 0 && CapCounts([], names) == 0
    decreases n + |names|
  {
    if n > 0 { NoLeasesNoCounts(n - 1, names); }
    if names != [] { NoLeasesNoCounts(n, names[..|names| - 1]); }
  }

  function SumKeys(keys: seq<Key>): nat {
    if keys == [] then 0 else SumKeys(keys[..|keys| - 1]) + keys[|keys| - 1].inFlight
  }

  function SumCaps(s: Scheduler, names: seq<string>): nat {
    if names == [] then 0 else SumCaps(s, names[..|names| - 1]) + CapCount(s, names[|names| - 1])
  }

  lemma {:induction false} SumKeysIsCounts(leases: seq<Lease>, keys: seq<Key>)
    requires forall i | 0 <= i < |keys| :: keys[i].inFlight == Count(leases, OfKey(i))
    ensures SumKeys(keys) == KeyCounts(leases, |keys|)
  {
    if keys != [] { SumKeysIsCounts(leases, keys[..|keys| - 1]); }
  }

  lemma {:induction false} SumCapsIsCounts(s: Scheduler, leases: seq<Lease>, names: seq<string>)
    requires forall c :: CapCount(s, c) == Count(leases, OfCap(c))
    ensures SumCaps(s, names) == CapCounts(leases, names)
  {
    if names != [] { SumCapsIsCounts(s, leases, names[..|names| - 1]); }
  }

  lemma {:induction false} HeldIsCounted(leases: seq<Lease>, i: nat, f: Filter)
    requires i < |leases| && Holds(leases[i], f)
    ensures Count(leases, f) >= 1
  {
    if i < |leases| - 1 { HeldIsCounted(leases[..|leases| - 1], i, f); }
  }

  /** Global, per-key and per-capability counters all count the same unreleased leases, and no
      limit is exceeded. `names` is any duplicate-free list of the capabilities ever counted. */
  lemma SlotsAreConserved(config: Config, keys: nat, clock: real, events: seq<Event>, names: seq<string>)
    requires forall i, k | 0 <= i < k < |names| :: names[i] != names[k]
    requires forall c | c in Reach(config, keys, clock, events).s.capInFlight :: c in names
    ensures var w := Reach(config, keys, clock, events);
            && w.s.globalInFlight == Count(w.leases, Any) == SumKeys(w.s.keys) == SumCaps(w.s, names)
            && w.s.globalInFlight <= config.maxConcurrency
            && (forall k | 0 <= k < |w.s.keys| :: w.s.keys[k].inFlight == Count(w.leases, OfKey(k)) <= config.keyConcurrency)
            && (forall c :: CapCount(w.s, c) == Count(w.leases, OfCap(c)))
            && Count(w.leases, OfCap("agent")) <= config.agentConcurrency
            && Count(w.leases, OfCap("vision")) <= config.visionConcurrency
            && (forall c | c != "agent" && c != "vision" :: Count(w.leases, OfCap(c)) <= config.textConcurrency)
  {
    ReachOk(config, keys, clock, events);
    var w := Reach(config, keys, clock, events);
    hide Reach, KeysOk, LogsOk;
    assert CapCount(w.s, "agent") == Count(w.leases, OfCap("agent")) && CapCount(w.s, "vision") == Count(w.leases, OfCap("vision"));
    forall i | 0 <= i < |w.leases| && !w.leases[i].phase.Released? ensures w.leases[i].capability in names {
      HeldIsCounted(w.leases, i, OfCap(w.leases[i].capability));
      assert CapCount(w.s, w.leases[i].capability) >= 1;
    }
    CountsAddUp(w.leases, keys, names);
    SumKeysIsCounts(w.leases, w.s.keys);
    SumCapsIsCounts(w.s, w.leases, names);
  }

  /** When a slot is given back every counter it lowers is positive, so no clamp ever binds, and
      each failure counter stays below its circuit's threshold. */
  lemma ClampsNeverBind(config: Config, keys: nat, clock: real, events: seq<Event>, i: nat)
    requires i < |Reach(config, keys, clock, events).leases|
    requires !Reach(config, keys, clock, events).leases[i].phase.Released?
    ensures var w := Reach(config, keys, clock, events);
            var l := w.leases[i];
            && w.s.globalInFlight >= 1 && l.key < |w.s.keys| && w.s.keys[l.key].inFlight >= 1
            && l.capability in w.s.capInFlight && w.s.capInFlight[l.capability] >= 1
            && (w.s.keys[l.key].failures == 0 || w.s.keys[l.key].failures < config.circuitThreshold)
  {
    ReachOk(config, keys, clock, events);
    var w := Reach(config, keys, clock, events);
    var l := w.leases[i];
    HeldIsCounted(w.leases, i, Any);
    HeldIsCounted(w.leases, i, OfKey(l.key));
    HeldIsCounted(w.leases, i, OfCap(l.capability));
    assert CapCount(w.s, l.capability) >= 1;
    assert KeyOk(w.s.config, w.s.keys[l.key], w.requestLogs[l.key], w.tokenLogs[l.key], w.clock);
  }

  predicate Past(a: Phase, b: Phase) {
    a == b || (a.Held? && !b.Held?) || (a.Releasing? && b.Released?)
  }

  lemma {:induction false} LeasesOnlyMoveOn(w: World, events: seq<Event>, i: nat)
    requires Shape(w) && i < |w.leases|
    ensures i < |Run(w, events).leases| && Past(w.leases[i].phase, Run(w, events).leases[i].phase)
    decreases |events|
  {
    if events != [] {
      var t := Step(w, events[0]);
      StepKeepsShape(w, events[0]);
      assert i < |t.leases| && Past(w.leases[i].phase, t.leases[i].phase);
      hide Step;
      LeasesOnlyMoveOn(t, events[1..], i);
    }
  }

  /** A second release of a lease, however much later, changes nothing. */
  lemma ReleaseIsOnce(w: World, events: seq<Event>, i: nat, success: bool, actual: Option<int>, elapsed: Duration)
    requires Shape(w) && i < |w.leases| && w.leases[i].phase.Released?
    ensures var t := Run(w, events);
            Step(t, BeginRelease(i)) == t && Step(t, FinishRelease(i, success, actual, elapsed)) == t
  {
    LeasesOnlyMoveOn(w, events, i);
  }
}
