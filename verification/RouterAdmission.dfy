/** When a request is admitted, and what a release charges, in terms of the history alone. */
module RouterAdmission {
  import opened Options
  import opened Router
  import opened RouterWindows
  import opened RouterProofs
  import opened RouterTheorems
  import opened RouterFairness

  /** The key's circuit is closed, it has a slot, and the last 60 seconds of its full history leave
      room for one more request and for the estimate. */
  predicate OpenKey(w: World, k: nat, estimate: nat, now: real)
    requires Shape(w) && k < |w.s.keys|
  {
    var c, key := w.s.config, w.s.keys[k];
    && key.openedUntil <= now
    && key.inFlight < c.keyConcurrency
    && (c.keyRpm == 0 || After(w.requestLogs[k], now - 60.0) < c.keyRpm)
    && (c.keyTpm == 0 || After(w.tokenLogs[k], now - 60.0) + estimate <= c.keyTpm)
  }

  /** The pruned deques hold exactly the last 60 seconds of history. */
  lemma PrunedIsWindow(w: World, k: nat, now: real)
    requires Inv(w) && k < |w.s.keys| && w.clock <= now
    ensures var key := Pruned(w.s.keys[k], now);
            |key.requestTimes| == After(w.requestLogs[k], now - 60.0) && Total(key.tokenEvents) == After(w.tokenLogs[k], now - 60.0)
  {
    hide SlotsOk, LogsOk, EachAdmissionFits, Total, After;
    assert KeyOk(w.s.config, w.s.keys[k], w.requestLogs[k], w.tokenLogs[k], w.clock);
    KeyAges(w.s.config, w.s.keys[k], w.requestLogs[k], w.tokenLogs[k], w.clock, now);
    PruningKeepsKey(w.s.config, w.s.keys[k], w.requestLogs[k], w.tokenLogs[k], now);
    var key := Pruned(w.s.keys[k], now);
    TotalIsAfter(key.requestTimes, w.requestLogs[k], now - 60.0);
    TotalIsAfter(key.tokenEvents, w.tokenLogs[k], now - 60.0);
    UnitTotal(key.requestTimes);
  }

  lemma EligibleIffOpen(w: World, k: nat, estimate: nat, now: real)
    requires Inv(w) && k < |w.s.keys| && w.clock <= now
    ensures VerdictAt(w.s.config, w.s.keys[k], estimate, now).Eligible? <==> OpenKey(w, k, estimate, now)
    ensures VerdictAt(w.s.config, w.s.keys[k], estimate, now).Broken? ==> w.s.config.keyTpm != 0 && estimate > w.s.config.keyTpm
  {
    hide KeysOk, SlotsOk, LogsOk, Total, After, Prune;
    PrunedIsWindow(w, k, now);
    OversizeIsNeverEligible(w.s.config, w.s.keys[k], estimate, now);
  }

  /** Steps from the cursor to a key, going round. */
  function Ahead(n: nat, cursor: nat, k: nat): nat
    requires cursor < n && k < n
  {
    if cursor <= k then k - cursor else k + n - cursor
  }

  /** The first open key, seen from the cursor. */
  ghost predicate FirstOpen(w: World, k: nat, estimate: nat, now: real)
    requires Shape(w)
  {
    && k < |w.s.keys| && OpenKey(w, k, estimate, now)
    && forall i: nat | i < |w.s.keys| && Ahead(|w.s.keys|, w.s.cursor, i) < Ahead(|w.s.keys|, w.s.cursor, k) :: !OpenKey(w, i, estimate, now)
  }

  lemma ScanFindsFirstOpen(w: World, k: nat, estimate: nat, now: real, wait: real)
    requires Inv(w) && w.clock <= now && w.s.keys != []
    ensures var scan := ScanFrom(w.s.config, w.s.keys, w.s.cursor, estimate, now, 0, wait);
            scan.found == Some(k) && !scan.broken <==> FirstOpen(w, k, estimate, now)
  {
    hide Inv, ScanFrom, VerdictAt, OpenKey, IndexAt;
    InvShape(w);
    var n, cursor := |w.s.keys|, w.s.cursor;
    var o := ScanStops(w.s.config, w.s.keys, cursor, estimate, now, 0, wait);
    forall i: nat | i < n ensures
      && IndexAt(cursor, Ahead(n, cursor, i), n) == i
      && (VerdictAt(w.s.config, w.s.keys[i], estimate, now).Eligible? <==> OpenKey(w, i, estimate, now))
      && (VerdictAt(w.s.config, w.s.keys[i], estimate, now).Broken? ==> w.s.config.keyTpm != 0 && estimate > w.s.config.keyTpm)
    {
      AheadIsDistance(n, cursor, i);
      IndexOfDistance(n, cursor, i);
      EligibleIffOpen(w, i, estimate, now);
    }
    if o < n {
      var i := IndexAt(cursor, o, n);
      AheadIsDistance(n, cursor, i);
      DistanceOfIndex(n, cursor, o);
    }
    if FirstOpen(w, k, estimate, now) {
      FitsIfOpen(w, k, estimate, now);
      AheadIsDistance(n, cursor, k);
    }
  }

  lemma InvShape(w: World)
    requires Inv(w)
    ensures Shape(w)
  {
  }

  lemma FitsIfOpen(w: World, k: nat, estimate: nat, now: real)
    requires Shape(w) && k < |w.s.keys| && OpenKey(w, k, estimate, now)
    ensures w.s.config.keyTpm == 0 || estimate <= w.s.config.keyTpm
  {
  }

  lemma AheadIsDistance(n: nat, cursor: nat, k: nat)
    requires cursor < n && k < n
    ensures Ahead(n, cursor, k) == Distance(n, cursor, k) < n
  {
  }

  /** A call of this capability finds room among the leases held. */
  predicate RoomFor(w: World, capability: string) {
    var c := w.s.config;
    && Count(w.leases, Any) < c.maxConcurrency
    && Count(w.leases, OfCap(capability)) <
       (if capability == "agent" then c.agentConcurrency else if capability == "vision" then c.visionConcurrency else c.textConcurrency)
  }

  /** In every reachable state an attempt is admitted on key k exactly when k is the first open key
      from the cursor and both the global and the capability's own limit leave room. */
  lemma AdmittedIff(config: Config, keys: nat, clock: real, events: seq<Event>,
                    capability: string, estimate: nat, deadline: real, elapsed: Duration, k: nat)
    ensures var w := Reach(config, keys, clock, events);
            var now := w.clock + elapsed;
            && Shape(w)
            && (Attempt(w.s, capability, estimate, now, deadline).1 == Admitted(k) <==>
                FirstOpen(w, k, estimate, now) && RoomFor(w, capability))
  {
    hide Reach, ScanFrom, FirstOpen;
    ReachOk(config, keys, clock, events);
    var w := Reach(config, keys, clock, events);
    InvShape(w);
    RoomIff(w, capability);
    hide Inv, RoomFor, HasRoom;
    var now := w.clock + elapsed;
    if w.s.keys == [] {
      NoKeyIsOpen(w, k, estimate, now);
    } else {
      ScanFindsFirstOpen(w, k, estimate, now, Max(0.05, deadline - now));
      ScanKeepsRoom(w.s, ScanFrom(w.s.config, w.s.keys, w.s.cursor, estimate, now, 0, Max(0.05, deadline - now)).keys, capability);
    }
  }

  lemma NoKeyIsOpen(w: World, k: nat, estimate: nat, now: real)
    requires Shape(w) && w.s.keys == []
    ensures !FirstOpen(w, k, estimate, now)
  {
  }

  lemma RoomIff(w: World, capability: string)
    requires Inv(w)
    ensures HasRoom(w.s, capability) <==> RoomFor(w, capability)
  {
    hide KeysOk, LogsOk, Count;
    assert CapCount(w.s, capability) == Count(w.leases, OfCap(capability));
  }

  lemma ScanKeepsRoom(s: Scheduler, keys: seq<Key>, capability: string)
    ensures HasRoom(s.(keys := keys), capability) == HasRoom(s, capability)
  {
  }

  /** Whoever is not admitted and does not crash is refused once the deadline has come, and waits before it.
      The refusal always advises the minimum of 0.05 seconds, because no time is left to wait for anything. */
  lemma OthersWaitUntilDeadline(s: Scheduler, capability: string, estimate: nat, now: real, deadline: real)
    requires s.keys != [] && s.cursor < |s.keys|
    requires var o := Attempt(s, capability, estimate, now, deadline).1; !o.Admitted? && !o.Crashed?
    ensures Attempt(s, capability, estimate, now, deadline).1.Rejected? <==> now >= deadline
    ensures Attempt(s, capability, estimate, now, deadline).1.Waiting? <==> now < deadline
    ensures Attempt(s, capability, estimate, now, deadline).1.Rejected? ==> Attempt(s, capability, estimate, now, deadline).1 == Rejected(0.05)
  {
    hide ScanFrom;
    ScanNeverWaitsLonger(s.config, s.keys, s.cursor, estimate, now, 0, Max(0.05, deadline - now));
  }

  lemma {:induction false} ScanNeverWaitsLonger(c: Config, keys: seq<Key>, cursor: nat, estimate: nat, now: real, offset: nat, wait: real)
    requires offset <= |keys| && (keys == [] || cursor < |keys|)
    ensures ScanFrom(c, keys, cursor, estimate, now, offset, wait).wait <= wait
    decreases |keys| - offset
  {
    hide Judge, Pruned;
    if offset < |keys| {
      var index := (cursor + offset) % |keys|;
      var key := Pruned(keys[index], now);
      var verdict := Judge(c, key, estimate, now);
      if verdict.Skip? {
        ScanNeverWaitsLonger(c, keys[index := key], cursor, estimate, now, offset + 1,
          if verdict.wake.Some? && verdict.wake.value - now < wait then verdict.wake.value - now else wait);
      }
    }
  }

  /** A release charges the key, now, exactly what an estimated call used beyond its estimate. */
  lemma ReleaseChargesOverrun(c: Config, k: Key, estimate: nat, success: bool, actual: Option<int>, now: real)
    ensures var r := ReleasedKey(c, k, estimate, success, actual, now);
            && r.requestTimes == k.requestTimes && (k.inFlight > 0 ==> r.inFlight == k.inFlight - 1)
            && (if estimate > 0 && actual.Some? && actual.value > estimate
                then r.tokenEvents == k.tokenEvents + [Stamp(now, actual.value - estimate)]
                else r.tokenEvents == k.tokenEvents)
  {
  }
}
