/** The order of the scan: round-robin fairness, when it crashes, and how long a caller waits. */
module RouterFairness {
  import opened Options
  import opened Router
  import opened RouterProofs

  /** How the scan judges a key at `now`, after pruning it. */
  function VerdictAt(c: Config, k: Key, estimate: nat, now: real): Verdict {
    Judge(c, Pruned(k, now), estimate, now)
  }

  function IndexAt(cursor: nat, offset: nat, n: nat): (i: nat)
    requires n > 0
    ensures i < n
  {
    (cursor + offset) % n
  }

  lemma PruningKeepsVerdicts(c: Config, keys: seq<Key>, index: nat, estimate: nat, now: real)
    requires index < |keys|
    ensures var rest := keys[index := Pruned(keys[index], now)];
            forall i | 0 <= i < |keys| :: VerdictAt(c, rest[i], estimate, now) == VerdictAt(c, keys[i], estimate, now)
  {
    PrunedTwice(keys[index], now);
  }

  /** The scan stops at the first offset whose key is not skipped; `o == n` when there is none. */
  lemma {:induction false} ScanStops(c: Config, keys: seq<Key>, cursor: nat, estimate: nat, now: real, offset: nat, wait: real)
      returns (o: nat)
    requires offset <= |keys| && keys != [] && cursor < |keys|
    ensures offset <= o <= |keys|
    ensures forall p: nat | offset <= p < o :: VerdictAt(c, keys[IndexAt(cursor, p, |keys|)], estimate, now).Skip?
    ensures var r := ScanFrom(c, keys, cursor, estimate, now, offset, wait);
            if o == |keys| then r.found.None? && !r.broken else
              var i := IndexAt(cursor, o, |keys|);
              || (r.found == Some(i) && !r.broken && VerdictAt(c, keys[i], estimate, now).Eligible?)
              || (r.found.None? && r.broken && VerdictAt(c, keys[i], estimate, now).Broken?)
    decreases |keys| - offset
  {
    o := offset;
    if offset < |keys| {
      var index := IndexAt(cursor, offset, |keys|);
      var key := Pruned(keys[index], now);
      PruningKeepsVerdicts(c, keys, index, estimate, now);
      assert VerdictAt(c, keys[index], estimate, now) == Judge(c, key, estimate, now);
      hide Pruned, Judge, VerdictAt;
      if Judge(c, key, estimate, now).Skip? {
        var wake := Judge(c, key, estimate, now).wake;
        var rest := keys[index := key];
        o := ScanStops(c, rest, cursor, estimate, now, offset + 1,
                       if wake.Some? && wake.value - now < wait then wake.value - now else wait);
      }
    }
  }

  // ----- Fairness ----------------------------------------------------------------------

  /** Steps the cursor has to take to reach key `k`. */
  function Distance(n: nat, cursor: nat, k: nat): nat
    requires cursor < n && k < n
  {
    if cursor <= k then k - cursor else k + n - cursor
  }

  lemma WrapsOnce(n: nat, x: nat)
    requires 0 < n && x < 2 * n
    ensures x % n == if x < n then x else x - n
  {
    var q := x / n;
    assert x == q * n + x % n;
    assert q < 2 || q * n >= 2 * n;
    assert q == 0 || q == 1;
  }

  lemma DistanceOfIndex(n: nat, cursor: nat, o: nat)
    requires cursor < n && o < n
    ensures Distance(n, cursor, IndexAt(cursor, o, n)) == o
    ensures (IndexAt(cursor, o, n) + 1) % n == if IndexAt(cursor, o, n) + 1 == n then 0 else IndexAt(cursor, o, n) + 1
  {
    WrapsOnce(n, cursor + o);
    WrapsOnce(n, IndexAt(cursor, o, n) + 1);
  }

  lemma IndexOfDistance(n: nat, cursor: nat, k: nat)
    requires cursor < n && k < n
    ensures IndexAt(cursor, Distance(n, cursor, k), n) == k
  {
    WrapsOnce(n, cursor + Distance(n, cursor, k));
  }

  /** The key an event admits on, if it admits. */
  function Chosen(w: World, e: Event): Option<nat>
    requires Shape(w)
  {
    if !e.TryAcquire? then None else
      var outcome := Attempt(w.s, e.capability, e.estimate, w.clock + e.elapsed, e.deadline).1;
      if outcome.Admitted? then Some(outcome.key) else None
  }

  predicate EligibleFor(w: World, e: Event, k: nat)
    requires Shape(w) && e.TryAcquire? && k < |w.s.keys|
  {
    VerdictAt(w.s.config, w.s.keys[k], e.estimate, w.clock + e.elapsed).Eligible?
  }

  /** Passing over an eligible key brings the cursor strictly closer to it. */
  lemma PassingOverApproaches(w: World, e: Event, k: nat)
    requires Shape(w) && k < |w.s.keys| && Chosen(w, e).Some? && Chosen(w, e) != Some(k) && EligibleFor(w, e, k)
    ensures Step(w, e).s.cursor < |w.s.keys|
    ensures Distance(|w.s.keys|, Step(w, e).s.cursor, k) < Distance(|w.s.keys|, w.s.cursor, k)
  {
    hide Chosen, EligibleFor, Step, Shape;
    var o := ChosenOffset(w, e, k);
    CursorCloses(|w.s.keys|, w.s.cursor, o, k);
  }

  /** The chosen key lies before any other eligible one, seen from the cursor, which moves past it. */
  lemma ChosenOffset(w: World, e: Event, k: nat) returns (o: nat)
    requires Shape(w) && k < |w.s.keys| && Chosen(w, e).Some? && Chosen(w, e) != Some(k) && EligibleFor(w, e, k)
    ensures w.s.cursor < |w.s.keys| && o < Distance(|w.s.keys|, w.s.cursor, k)
    ensures Step(w, e).s.cursor == (IndexAt(w.s.cursor, o, |w.s.keys|) + 1) % |w.s.keys|
  {
    hide ScanFrom, VerdictAt, Step, Chosen, IndexAt;
    ChoiceFacts(w, e);
    var n, now := |w.s.keys|, w.clock + e.elapsed;
    o := ScanStops(w.s.config, w.s.keys, w.s.cursor, e.estimate, now, 0, Max(0.05, e.deadline - now));
    IndexOfDistance(n, w.s.cursor, k);
    assert o <= Distance(n, w.s.cursor, k);
    assert o != Distance(n, w.s.cursor, k);
  }

  /** The chosen key is the one the scan found, and the cursor moves past it. */
  lemma ChoiceFacts(w: World, e: Event)
    requires Shape(w) && Chosen(w, e).Some?
    ensures e.TryAcquire? && w.s.keys != []
    ensures var now := w.clock + e.elapsed;
            var scan := ScanFrom(w.s.config, w.s.keys, w.s.cursor, e.estimate, now, 0, Max(0.05, e.deadline - now));
            scan.found == Chosen(w, e) && !scan.broken
    ensures Step(w, e).s.cursor == (Chosen(w, e).value + 1) % |w.s.keys|
  {
    hide ScanFrom, Charged;
  }

  lemma CursorCloses(n: nat, cursor: nat, o: nat, k: nat)
    requires cursor < n && k < n && o < Distance(n, cursor, k)
    ensures var next := (IndexAt(cursor, o, n) + 1) % n; next < n && Distance(n, next, k) < Distance(n, cursor, k)
  {
    hide IndexAt;
    DistanceOfIndex(n, cursor, o);
  }

  lemma OnlyAdmissionsMoveTheCursor(w: World, e: Event)
    requires Shape(w) && Chosen(w, e).None?
    ensures Step(w, e).s.cursor == w.s.cursor
  {
  }

  function Admissions(w: World, events: seq<Event>): nat
    requires Shape(w)
    decreases |events|
  {
    if events == [] then 0 else
      StepKeepsShape(w, events[0]);
      Admissions(Step(w, events[0]), events[1..]) + if Chosen(w, events[0]).Some? then 1 else 0
  }

  function TimesChosen(w: World, events: seq<Event>, k: nat): nat
    requires Shape(w)
    decreases |events|
  {
    if events == [] then 0 else
      StepKeepsShape(w, events[0]);
      TimesChosen(Step(w, events[0]), events[1..], k) + if Chosen(w, events[0]) == Some(k) then 1 else 0
  }

  predicate EligibleThroughout(w: World, events: seq<Event>, k: nat)
    requires Shape(w) && k < |w.s.keys|
    decreases |events|
  {
    events == [] ||
    (StepKeepsShape(w, events[0]);
     && (Chosen(w, events[0]).Some? ==> EligibleFor(w, events[0], k))
     && EligibleThroughout(Step(w, events[0]), events[1..], k))
  }

  lemma {:induction false} SkippedIsBounded(w: World, events: seq<Event>, k: nat)
    requires Shape(w) && k < |w.s.keys| && EligibleThroughout(w, events, k) && TimesChosen(w, events, k) == 0
    ensures Admissions(w, events) <= Distance(|w.s.keys|, w.s.cursor, k)
    decreases |events|
  {
    if events != [] {
      var t := Step(w, events[0]);
      StepKeepsShape(w, events[0]);
      if Chosen(w, events[0]).Some? {
        hide Step, Chosen, EligibleFor;
        PassingOverApproaches(w, events[0], k);
        SkippedIsBounded(t, events[1..], k);
      } else {
        hide Chosen, EligibleFor;
        OnlyAdmissionsMoveTheCursor(w, events[0]);
        hide Step;
        SkippedIsBounded(t, events[1..], k);
      }
    }
  }

  /** Round robin: among n admissions that each found key k eligible, one is on key k. */
  lemma RoundRobinIsFair(w: World, events: seq<Event>, k: nat)
    requires Shape(w) && k < |w.s.keys| && EligibleThroughout(w, events, k)
    requires Admissions(w, events) >= |w.s.keys|
    ensures TimesChosen(w, events, k) >= 1
  {
    if TimesChosen(w, events, k) == 0 { SkippedIsBounded(w, events, k); }
  }

  // ----- The oversized estimate --------------------------------------------------------

  /** A key that could serve and has no token event left in its window. */
  predicate Idle(c: Config, k: Key, now: real) {
    && k.openedUntil <= now && k.inFlight < c.keyConcurrency
    && (c.keyRpm == 0 || |Prune(k.requestTimes, now - WINDOW)| < c.keyRpm)
    && Prune(k.tokenEvents, now - WINDOW) == []
  }

  lemma OversizeIsNeverEligible(c: Config, k: Key, estimate: nat, now: real)
    ensures VerdictAt(c, k, estimate, now).Broken? <==> c.keyTpm != 0 && estimate > c.keyTpm && Idle(c, k, now)
    ensures c.keyTpm != 0 && estimate > c.keyTpm ==> !VerdictAt(c, k, estimate, now).Eligible?
  {
  }

  /** `acquire` fails with an index error exactly when the estimate alone exceeds key_tpm and some
      key is idle; such an estimate is never admitted, and any other estimate never crashes. */
  lemma CrashIffOversizeMeetsIdleKey(s: Scheduler, capability: string, estimate: nat, now: real, deadline: real)
    requires s.keys == [] || s.cursor < |s.keys|
    ensures var outcome := Attempt(s, capability, estimate, now, deadline).1;
            var oversize := s.config.keyTpm != 0 && estimate > s.config.keyTpm;
            && (outcome.Crashed? <==> oversize && exists i :: 0 <= i < |s.keys| && Idle(s.config, s.keys[i], now))
            && (oversize ==> !outcome.Admitted?)
  {
    if s.keys != [] {
      var o := ScanStops(s.config, s.keys, s.cursor, estimate, now, 0, Max(0.05, deadline - now));
      hide ScanFrom, VerdictAt, Idle;
      forall i | 0 <= i < |s.keys|
        ensures o <= Distance(|s.keys|, s.cursor, i) || VerdictAt(s.config, s.keys[i], estimate, now).Skip?
      {
        IndexOfDistance(|s.keys|, s.cursor, i);
      }
      forall i | 0 <= i < |s.keys| { OversizeIsNeverEligible(s.config, s.keys[i], estimate, now); }
    }
  }

  /** It happens at once: on a scheduler just started, with any number of keys, the first request
      larger than the limit crashes. */
  lemma FirstOversizeRequestCrashes(config: Config, keys: nat, clock: real, capability: string, estimate: nat, now: real, deadline: real)
    requires keys > 0 && config.keyConcurrency > 0 && config.keyTpm != 0 && estimate > config.keyTpm && now >= 0.0
    ensures Attempt(Start(config, keys, clock).s, capability, estimate, now, deadline).1.Crashed?
  {
    hide Attempt;
    var s := Start(config, keys, clock).s;
    CrashIffOversizeMeetsIdleKey(s, capability, estimate, now, deadline);
    assert s.keys[0] == FRESH_KEY;
    assert Idle(config, s.keys[0], now);
  }

  // ----- Waiting -----------------------------------------------------------------------

  lemma {:induction false} PruneFurther(d: seq<Stamp>, early: real, late: real)
    requires early <= late
    ensures Prune(Prune(d, early), late) == Prune(d, late)
    ensures |Prune(d, late)| <= |Prune(d, early)|
    ensures var r := Prune(d, early); r != [] && r[0].at > late ==> Prune(d, late) == r
  {
    if d != [] && d[0].at <= early {
      PruneFurther(d[1..], early, late);
    } else {
      PruneShrinks(d, late);
    }
  }

  lemma {:induction false} PruneShrinks(d: seq<Stamp>, cutoff: real)
    ensures |Prune(d, cutoff)| <= |d|
    ensures Prune(d, cutoff) != [] ==> Prune(d, cutoff)[0].at > cutoff
  {
    if d != [] && d[0].at <= cutoff { PruneShrinks(d[1..], cutoff); }
  }

  /** A skipped key stays skipped until the moment its verdict names. */
  lemma SkipLasts(c: Config, k: Key, estimate: nat, now: real, later: real)
    requires now <= later && VerdictAt(c, k, estimate, now).Skip?
    requires var wake := VerdictAt(c, k, estimate, now).wake; wake.Some? ==> later < wake.value
    ensures VerdictAt(c, k, estimate, later).Skip?
    ensures var wake := VerdictAt(c, k, estimate, now).wake; wake.Some? ==> wake.value > now
  {
    PruneFurther(k.requestTimes, now - WINDOW, later - WINDOW);
    PruneFurther(k.tokenEvents, now - WINDOW, later - WINDOW);
    PruneShrinks(k.requestTimes, now - WINDOW);
    PruneShrinks(k.tokenEvents, now - WINDOW);
  }

  /** The wait is positive and no longer than any moment at which time alone frees a key. */
  lemma {:induction false} ScanWaits(c: Config, keys: seq<Key>, cursor: nat, estimate: nat, now: real, offset: nat, wait: real)
    requires offset <= |keys| && keys != [] && cursor < |keys| && wait > 0.0
    ensures var r := ScanFrom(c, keys, cursor, estimate, now, offset, wait);
            && 0.0 < r.wait <= wait
            && (r.found.None? && !r.broken ==> forall p: nat | offset <= p < |keys| ::
                  var v := VerdictAt(c, keys[IndexAt(cursor, p, |keys|)], estimate, now);
                  v.Skip? && (v.wake.Some? ==> r.wait <= v.wake.value - now))
    decreases |keys| - offset
  {
    if offset < |keys| {
      var index := IndexAt(cursor, offset, |keys|);
      var key := Pruned(keys[index], now);
      PruningKeepsVerdicts(c, keys, index, estimate, now);
      assert VerdictAt(c, keys[index], estimate, now) == Judge(c, key, estimate, now);
      hide Pruned, Judge, VerdictAt;
      if Judge(c, key, estimate, now).Skip? {
        WakesLater(c, keys[index], estimate, now);
        var wake := Judge(c, key, estimate, now).wake;
        var rest := keys[index := key];
        ScanWaits(c, rest, cursor, estimate, now, offset + 1,
                  if wake.Some? && wake.value - now < wait then wake.value - now else wait);
      }
    }
  }

  lemma WakesLater(c: Config, k: Key, estimate: nat, now: real)
    requires VerdictAt(c, k, estimate, now).Skip?
    ensures var wake := VerdictAt(c, k, estimate, now).wake; wake.Some? ==> wake.value > now
  {
    PruneShrinks(k.requestTimes, now - WINDOW);
    PruneShrinks(k.tokenEvents, now - WINDOW);
  }

  /** A caller told to wait because no key was eligible sleeps for a positive time, and never past
      the first moment at which a key could become eligible without anybody releasing a lease. */
  lemma WaitingMissesNothing(s: Scheduler, capability: string, estimate: nat, now: real, deadline: real, later: real, k: nat)
    requires s.cursor < |s.keys| && k < |s.keys|
    requires Attempt(s, capability, estimate, now, deadline).1.Waiting?
    requires now <= later < now + Attempt(s, capability, estimate, now, deadline).1.timeout
    ensures Attempt(s, capability, estimate, now, deadline).1.timeout > 0.0
    ensures (forall i | 0 <= i < |s.keys| :: !VerdictAt(s.config, s.keys[i], estimate, now).Eligible?) ==>
              !VerdictAt(s.config, s.keys[k], estimate, later).Eligible?
  {
    var wait := Max(0.05, deadline - now);
    ScanWaits(s.config, s.keys, s.cursor, estimate, now, 0, wait);
    var o := ScanStops(s.config, s.keys, s.cursor, estimate, now, 0, wait);
    hide ScanFrom, VerdictAt;
    IndexOfDistance(|s.keys|, s.cursor, k);
    if forall i | 0 <= i < |s.keys| :: !VerdictAt(s.config, s.keys[i], estimate, now).Eligible? {
      SkipLasts(s.config, s.keys[k], estimate, now, later);
    }
  }

  // ----- Circuits ----------------------------------------------------------------------

  /** The failure that reaches the threshold closes its key for the cooldown, and only it does; a
      success forgets the failures before it. */
  lemma CircuitTripsAtThreshold(c: Config, k: Key, estimate: nat, success: bool, actual: Option<int>, now: real)
    ensures var r := ReleasedKey(c, k, estimate, success, actual, now);
            var tripped := !success && k.failures + 1 >= c.circuitThreshold;
            && (tripped ==> r.failures == 0 && forall next: nat, later | later < now + c.circuitCooldown ::
                  VerdictAt(c, r, next, later).Skip?)
            && (!tripped ==> r.openedUntil == k.openedUntil)
            && (success ==> r.failures == 0) && (!success && !tripped ==> r.failures == k.failures + 1)
  {
  }

  /** No admission lands on a key whose circuit is open or whose slots are taken. */
  lemma AdmissionFindsKeyOpen(w: World, e: Event)
    requires Shape(w) && Chosen(w, e).Some?
    ensures var k := w.s.keys[Chosen(w, e).value];
            k.openedUntil <= w.clock + e.elapsed && k.inFlight < w.s.config.keyConcurrency &&
            w.s.globalInFlight < w.s.config.maxConcurrency
  {
    hide ScanFrom, Chosen, Step, IndexAt;
    ChoiceFacts(w, e);
    ChosenHadRoom(w, e);
    var now := w.clock + e.elapsed;
    var o := ScanStops(w.s.config, w.s.keys, w.s.cursor, e.estimate, now, 0, Max(0.05, e.deadline - now));
  }

  lemma ChosenHadRoom(w: World, e: Event)
    requires Shape(w) && Chosen(w, e).Some?
    ensures w.s.globalInFlight < w.s.config.maxConcurrency
  {
    hide ScanFrom;
  }
}
