module RouterProofs {
  import opened Options
  import opened Router
  import opened RouterWindows

  // ----- One key -----------------------------------------------------------------------

  /** The windows and the circuit counter of one key, against its full logs. */
  ghost predicate KeyOk(c: Config, k: Key, requests: seq<Entry>, tokens: seq<Entry>, clock: real) {
    && DequeOk(k.requestTimes, requests, clock)
    && DequeOk(k.tokenEvents, tokens, clock)
    && (forall i | 0 <= i < |requests| :: requests[i].stamp.amount == 1)
    && (c.keyRpm != 0 ==> EachAdmissionFits(requests, c.keyRpm))
    && (c.keyTpm != 0 ==> EachAdmissionFits(tokens, c.keyTpm))
    && (k.failures == 0 || k.failures < c.circuitThreshold)
  }

  lemma KeyAges(c: Config, k: Key, requests: seq<Entry>, tokens: seq<Entry>, clock: real, now: real)
    requires KeyOk(c, k, requests, tokens, clock) && clock <= now
    ensures KeyOk(c, k, requests, tokens, now)
  {
    hide EachAdmissionFits;
    DequeAges(k.requestTimes, requests, clock, now);
    DequeAges(k.tokenEvents, tokens, clock, now);
  }

  lemma PruningKeepsKey(c: Config, k: Key, requests: seq<Entry>, tokens: seq<Entry>, now: real)
    requires KeyOk(c, k, requests, tokens, now)
    ensures KeyOk(c, Pruned(k, now), requests, tokens, now)
    ensures forall i | 0 <= i < |Pruned(k, now).requestTimes| :: Pruned(k, now).requestTimes[i].at > now - WINDOW
    ensures forall i | 0 <= i < |Pruned(k, now).tokenEvents| :: Pruned(k, now).tokenEvents[i].at > now - WINDOW
  {
    hide EachAdmissionFits;
    PruneKeepsDeque(k.requestTimes, requests, now);
    PruneKeepsDeque(k.tokenEvents, tokens, now);
  }

  lemma AdmissionKeepsRequests(c: Config, k: Key, requests: seq<Entry>, tokens: seq<Entry>, estimate: nat, now: real)
    requires KeyOk(c, k, requests, tokens, now) && k == Pruned(k, now)
    requires Judge(c, k, estimate, now).Eligible?
    ensures DequeOk(Charged(k, estimate, now).requestTimes, Logged(requests, 1, true, now), now)
    ensures c.keyRpm != 0 ==> EachAdmissionFits(Logged(requests, 1, true, now), c.keyRpm)
  {
    var e := Entry(Stamp(now, 1), true);
    PruningKeepsKey(c, k, requests, tokens, now);
    UnitTotal(k.requestTimes);
    AppendKeepsDeque(k.requestTimes, requests, now, e);
    if c.keyRpm != 0 { AppendFits(k.requestTimes, requests, now, e, c.keyRpm); }
  }

  lemma AdmissionKeepsTokens(c: Config, k: Key, requests: seq<Entry>, tokens: seq<Entry>, estimate: nat, now: real)
    requires KeyOk(c, k, requests, tokens, now) && k == Pruned(k, now)
    requires Judge(c, k, estimate, now).Eligible?
    ensures DequeOk(Charged(k, estimate, now).tokenEvents, Logged(tokens, estimate, true, now), now)
    ensures c.keyTpm != 0 ==> EachAdmissionFits(Logged(tokens, estimate, true, now), c.keyTpm)
  {
    var e := Entry(Stamp(now, estimate), true);
    PruningKeepsKey(c, k, requests, tokens, now);
    AppendKeepsDeque(k.tokenEvents, tokens, now, e);
    if c.keyTpm != 0 { AppendFits(k.tokenEvents, tokens, now, e, c.keyTpm); }
  }

  lemma AdmissionKeepsKey(c: Config, k: Key, requests: seq<Entry>, tokens: seq<Entry>, estimate: nat, now: real)
    requires KeyOk(c, k, requests, tokens, now) && k == Pruned(k, now)
    requires Judge(c, k, estimate, now).Eligible?
    ensures KeyOk(c, Charged(k, estimate, now), Logged(requests, 1, true, now), Logged(tokens, estimate, true, now), now)
    ensures Charged(k, estimate, now).inFlight <= c.keyConcurrency
  {
    hide DequeOk, EachAdmissionFits;
    AdmissionKeepsRequests(c, k, requests, tokens, estimate, now);
    AdmissionKeepsTokens(c, k, requests, tokens, estimate, now);
  }

  lemma ReleaseKeepsKey(c: Config, k: Key, requests: seq<Entry>, tokens: seq<Entry>, estimate: nat,
                        success: bool, actual: Option<int>, now: real)
    requires KeyOk(c, k, requests, tokens, now)
    ensures KeyOk(c, ReleasedKey(c, k, estimate, success, actual, now), requests,
                  Logged(tokens, Overrun(estimate, actual), false, now), now)
  {
    var e := Entry(Stamp(now, Overrun(estimate, actual)), false);
    AppendKeepsDeque(k.tokenEvents, tokens, now, e);
    if c.keyTpm != 0 { AppendFits(k.tokenEvents, tokens, now, e, c.keyTpm); }
    hide DequeOk, EachAdmissionFits;
  }

  // ----- The scan ----------------------------------------------------------------------

  lemma {:induction false} PruneTwice(d: seq<Stamp>, cutoff: real)
    ensures Prune(Prune(d, cutoff), cutoff) == Prune(d, cutoff)
  {
    if d != [] && d[0].at <= cutoff { PruneTwice(d[1..], cutoff); }
  }

  lemma PrunedTwice(k: Key, now: real)
    ensures Pruned(Pruned(k, now), now) == Pruned(k, now)
  {
    PruneTwice(k.requestTimes, now - WINDOW);
    PruneTwice(k.tokenEvents, now - WINDOW);
  }

  /** A scan only prunes; it answers with a pruned key that was judged eligible. */
  lemma {:induction false} ScanOnlyPrunes(c: Config, keys: seq<Key>, cursor: nat, estimate: nat, now: real, offset: nat, wait: real)
    requires offset <= |keys| && (keys == [] || cursor < |keys|)
    ensures var r := ScanFrom(c, keys, cursor, estimate, now, offset, wait);
            && (forall i | 0 <= i < |keys| :: r.keys[i] == keys[i] || r.keys[i] == Pruned(keys[i], now))
            && (r.found.Some? ==>
                  var k := r.keys[r.found.value];
                  k == Pruned(keys[r.found.value], now) && k == Pruned(k, now) && Judge(c, k, estimate, now).Eligible?)
    decreases |keys| - offset
  {
    hide Pruned, Judge;
    if offset < |keys| {
      var index := (cursor + offset) % |keys|;
      var key := Pruned(keys[index], now);
      PrunedTwice(keys[index], now);
      if Judge(c, key, estimate, now).Skip? {
        var wake := Judge(c, key, estimate, now).wake;
        ScanOnlyPrunes(c, keys[index := key], cursor, estimate, now, offset + 1,
                       if wake.Some? && wake.value - now < wait then wake.value - now else wait);
      }
    }
  }

  // ----- Counting leases ---------------------------------------------------------------

  datatype Filter = Any | OfKey(key: nat) | OfCap(capability: string)

  /** Leases whose slot has not been given back. */
  predicate Holds(l: Lease, f: Filter) {
    !l.phase.Released? && match f
      case Any => true
      case OfKey(k) => l.key == k
      case OfCap(c) => l.capability == c
  }

  function Count(leases: seq<Lease>, f: Filter): nat {
    if leases == [] then 0 else Count(leases[..|leases| - 1], f) + if Holds(leases[|leases| - 1], f) then 1 else 0
  }

  lemma CountAppend(leases: seq<Lease>, l: Lease, f: Filter)
    ensures Count(leases + [l], f) == Count(leases, f) + if Holds(l, f) then 1 else 0
  {
    assert (leases + [l])[..|leases|] == leases;
  }

  lemma {:induction false} CountUpdate(leases: seq<Lease>, i: nat, l: Lease, f: Filter)
    requires i < |leases|
    ensures Count(leases[i := l], f) + (if Holds(leases[i], f) then 1 else 0) == Count(leases, f) + if Holds(l, f) then 1 else 0
  {
    var n := |leases| - 1;
    if i == n {
      assert leases[i := l][..n] == leases[..n];
    } else {
      assert leases[i := l][..n] == leases[..n][i := l];
      CountUpdate(leases[..n], i, l, f);
    }
  }

  ghost predicate SlotsOk(w: World) {
    && w.s.globalInFlight == Count(w.leases, Any) <= w.s.config.maxConcurrency
    && w.s.requests == |w.leases|
    && (forall i | 0 <= i < |w.s.keys| :: w.s.keys[i].inFlight == Count(w.leases, OfKey(i)) <= w.s.config.keyConcurrency)
    && (forall c :: CapCount(w.s, c) == Count(w.leases, OfCap(c)) <= CapLimit(w.s.config, c))
  }

  ghost predicate AllKeysOk(c: Config, keys: seq<Key>, requests: seq<seq<Entry>>, tokens: seq<seq<Entry>>, clock: real)
    requires |keys| == |requests| == |tokens|
  {
    forall i | 0 <= i < |keys| :: KeyOk(c, keys[i], requests[i], tokens[i], clock)
  }

  ghost predicate KeysOk(w: World)
    requires Shape(w)
  {
    AllKeysOk(w.s.config, w.s.keys, w.requestLogs, w.tokenLogs, w.clock)
  }

  /** Leases ever granted on a key, and the tokens they were estimated at. */
  function Granted(leases: seq<Lease>, key: nat): (r: (nat, nat)) {
    if leases == [] then (0, 0) else
      var (n, tokens) := Granted(leases[..|leases| - 1], key);
      var l := leases[|leases| - 1];
      if l.key == key then (n + 1, tokens + l.estimate) else (n, tokens)
  }

  function AdmittedTotal(log: seq<Entry>): nat {
    if log == [] then 0 else
      AdmittedTotal(log[..|log| - 1]) + if log[|log| - 1].admission then log[|log| - 1].stamp.amount else 0
  }

  /** The logs miss nothing: each granted lease is one request entry and its estimate. */
  ghost predicate LogsOk(w: World)
    requires Shape(w)
  {
    forall k | 0 <= k < |w.s.keys| ::
      Granted(w.leases, k) == (AdmittedTotal(w.requestLogs[k]), AdmittedTotal(w.tokenLogs[k]))
  }

  ghost predicate Inv(w: World) {
    Shape(w) && SlotsOk(w) && KeysOk(w) && LogsOk(w)
  }

  lemma LoggedTotal(log: seq<Entry>, amount: nat, admission: bool, now: real)
    ensures AdmittedTotal(Logged(log, amount, admission, now)) == AdmittedTotal(log) + if admission then amount else 0
  {
    assert (log + [Entry(Stamp(now, amount), admission)])[..|log|] == log;
  }

  lemma GrantedAppend(leases: seq<Lease>, l: Lease, key: nat)
    ensures var (n, tokens) := Granted(leases, key);
            Granted(leases + [l], key) == if l.key == key then (n + 1, tokens + l.estimate) else (n, tokens)
  {
    assert (leases + [l])[..|leases|] == leases;
  }

  lemma {:induction false} GrantedIgnoresPhase(leases: seq<Lease>, i: nat, phase: Phase, key: nat)
    requires i < |leases|
    ensures Granted(leases[i := leases[i].(phase := phase)], key) == Granted(leases, key)
  {
    var n, next := |leases| - 1, leases[i := leases[i].(phase := phase)];
    if i == n {
      assert next[..n] == leases[..n];
    } else {
      assert next[..n] == leases[..n][i := leases[i].(phase := phase)];
      GrantedIgnoresPhase(leases[..n], i, phase, key);
    }
  }

  // ----- Preservation ------------------------------------------------------------------

  lemma ScanKeepsKeys(w: World, scanned: seq<Key>, now: real)
    requires Shape(w) && KeysOk(w) && w.clock <= now
    requires |scanned| == |w.s.keys|
    requires forall i | 0 <= i < |scanned| :: scanned[i] == w.s.keys[i] || scanned[i] == Pruned(w.s.keys[i], now)
    ensures var t := w.(s := w.s.(keys := scanned), clock := now); Shape(t) && KeysOk(t)
    ensures forall i | 0 <= i < |scanned| :: scanned[i].inFlight == w.s.keys[i].inFlight
  {
    var t := w.(s := w.s.(keys := scanned), clock := now);
    hide KeyOk;
    forall i | 0 <= i < |scanned|
      ensures KeyOk(t.s.config, t.s.keys[i], t.requestLogs[i], t.tokenLogs[i], t.clock)
    {
      KeyAges(w.s.config, w.s.keys[i], w.requestLogs[i], w.tokenLogs[i], w.clock, now);
      PruningKeepsKey(w.s.config, w.s.keys[i], w.requestLogs[i], w.tokenLogs[i], now);
    }
  }

  /** What an admission does to the world, once the scan has pruned it. */
  function AdmitStep(w: World, k: nat, capability: string, estimate: nat): World
    requires Shape(w) && k < |w.s.keys|
  {
    w.(s := Admit(w.s, k, capability, estimate, w.clock),
       leases := w.leases + [Lease(k, capability, estimate, Held)],
       requestLogs := w.requestLogs[k := Logged(w.requestLogs[k], 1, true, w.clock)],
       tokenLogs := w.tokenLogs[k := Logged(w.tokenLogs[k], estimate, true, w.clock)])
  }

  /** Keys are judged one at a time, so changing one of them leaves the others' verdict alone. */
  lemma OneKeyChanges(w: World, k: nat, key: Key, requests: seq<Entry>, tokens: seq<Entry>)
    requires Shape(w) && KeysOk(w) && k < |w.s.keys|
    requires KeyOk(w.s.config, key, requests, tokens, w.clock)
    ensures AllKeysOk(w.s.config, w.s.keys[k := key], w.requestLogs[k := requests], w.tokenLogs[k := tokens], w.clock)
  {
    hide KeyOk;
  }

  lemma AdmitFields(w: World, k: nat, capability: string, estimate: nat)
    requires Shape(w) && k < |w.s.keys|
    ensures var t := AdmitStep(w, k, capability, estimate);
            && Shape(t)
            && t.s.keys == w.s.keys[k := Charged(w.s.keys[k], estimate, w.clock)]
            && t.requestLogs == w.requestLogs[k := Logged(w.requestLogs[k], 1, true, w.clock)]
            && t.tokenLogs == w.tokenLogs[k := Logged(w.tokenLogs[k], estimate, true, w.clock)]
            && t.leases == w.leases + [Lease(k, capability, estimate, Held)]
            && t.clock == w.clock && t.s.config == w.s.config
  {
    hide Logged;
  }

  lemma AdmitKeepsKeys(w: World, k: nat, capability: string, estimate: nat)
    requires Shape(w) && KeysOk(w) && k < |w.s.keys|
    requires w.s.keys[k] == Pruned(w.s.keys[k], w.clock) && Judge(w.s.config, w.s.keys[k], estimate, w.clock).Eligible?
    ensures Shape(AdmitStep(w, k, capability, estimate)) && KeysOk(AdmitStep(w, k, capability, estimate))
  {
    hide KeyOk, Pruned, Judge, Logged, Charged, AdmitStep;
    AdmitFields(w, k, capability, estimate);
    AdmissionKeepsKey(w.s.config, w.s.keys[k], w.requestLogs[k], w.tokenLogs[k], estimate, w.clock);
    OneKeyChanges(w, k, Charged(w.s.keys[k], estimate, w.clock), Logged(w.requestLogs[k], 1, true, w.clock),
                  Logged(w.tokenLogs[k], estimate, true, w.clock));
  }

  lemma AdmitKeepsLogs(w: World, k: nat, capability: string, estimate: nat)
    requires Shape(w) && LogsOk(w) && k < |w.s.keys|
    ensures Shape(AdmitStep(w, k, capability, estimate)) && LogsOk(AdmitStep(w, k, capability, estimate))
  {
    hide Granted, AdmittedTotal, Logged, Charged, AdmitStep;
    var t, l := AdmitStep(w, k, capability, estimate), Lease(k, capability, estimate, Held);
    AdmitFields(w, k, capability, estimate);
    LoggedTotal(w.requestLogs[k], 1, true, w.clock);
    LoggedTotal(w.tokenLogs[k], estimate, true, w.clock);
    forall i | 0 <= i < |t.s.keys|
      ensures Granted(t.leases, i) == (AdmittedTotal(t.requestLogs[i]), AdmittedTotal(t.tokenLogs[i]))
    {
      GrantedAppend(w.leases, l, i);
    }
  }

  lemma FinishKeepsLogs(w: World, i: nat, success: bool, actual: Option<int>, elapsed: Duration)
    requires Shape(w) && LogsOk(w) && i < |w.leases|
    ensures Shape(FinishStep(w, i, success, actual, elapsed)) && LogsOk(FinishStep(w, i, success, actual, elapsed))
  {
    hide Granted, AdmittedTotal, Logged, ReleasedKey, Overrun, FinishStep;
    var t, l := FinishStep(w, i, success, actual, elapsed), w.leases[i];
    FinishKeepsShape(w, i, success, actual, elapsed);
    FinishFields(w, i, success, actual, elapsed);
    LoggedTotal(w.tokenLogs[l.key], Overrun(l.estimate, actual), false, w.clock + elapsed);
    forall k | 0 <= k < |t.s.keys|
      ensures Granted(t.leases, k) == (AdmittedTotal(t.requestLogs[k]), AdmittedTotal(t.tokenLogs[k]))
    {
      GrantedIgnoresPhase(w.leases, i, Released, k);
    }
  }

  lemma AdmitKeepsSlots(w: World, k: nat, capability: string, estimate: nat)
    requires Shape(w) && SlotsOk(w) && k < |w.s.keys|
    requires w.s.keys[k].inFlight < w.s.config.keyConcurrency && HasRoom(w.s, capability)
    ensures SlotsOk(AdmitStep(w, k, capability, estimate))
  {
    var t, l := AdmitStep(w, k, capability, estimate), Lease(k, capability, estimate, Held);
    CountAppend(w.leases, l, Any);
    forall i | 0 <= i < |t.s.keys| ensures t.s.keys[i].inFlight == Count(t.leases, OfKey(i)) <= t.s.config.keyConcurrency {
      CountAppend(w.leases, l, OfKey(i));
    }
    forall c ensures CapCount(t.s, c) == Count(t.leases, OfCap(c)) <= CapLimit(t.s.config, c) {
      CountAppend(w.leases, l, OfCap(c));
    }
  }

  lemma ScanKeepsInv(w: World, scanned: seq<Key>, now: real)
    requires Inv(w) && w.clock <= now && |scanned| == |w.s.keys|
    requires forall i | 0 <= i < |scanned| :: scanned[i] == w.s.keys[i] || scanned[i] == Pruned(w.s.keys[i], now)
    ensures Inv(w.(s := w.s.(keys := scanned), clock := now))
  {
    ScanKeepsKeys(w, scanned, now);
    hide KeyOk, Pruned, Count, KeysOk, Granted, AdmittedTotal;
    assert forall c :: CapCount(w.s.(keys := scanned), c) == CapCount(w.s, c);
  }

  lemma AdmitKeepsInv(w: World, k: nat, capability: string, estimate: nat)
    requires Inv(w) && k < |w.s.keys| && HasRoom(w.s, capability)
    requires w.s.keys[k] == Pruned(w.s.keys[k], w.clock) && Judge(w.s.config, w.s.keys[k], estimate, w.clock).Eligible?
    ensures Inv(AdmitStep(w, k, capability, estimate))
  {
    assert w.s.keys[k].inFlight < w.s.config.keyConcurrency;
    hide SlotsOk, KeysOk, LogsOk;
    AdmitKeepsLogs(w, k, capability, estimate);
    AdmitKeepsKeys(w, k, capability, estimate);
    AdmitKeepsSlots(w, k, capability, estimate);
  }

  function ScanOf(w: World, estimate: nat, deadline: real, elapsed: Duration): (r: Scan)
    requires Shape(w)
    ensures |r.keys| == |w.s.keys| && (r.found.Some? ==> r.found.value < |w.s.keys|)
  {
    var now := w.clock + elapsed;
    ScanFrom(w.s.config, w.s.keys, w.s.cursor, estimate, now, 0, Max(0.05, deadline - now))
  }

  function Scanned(w: World, estimate: nat, deadline: real, elapsed: Duration): (t: World)
    requires Shape(w)
    ensures |t.s.keys| == |w.s.keys| && Shape(t)
  {
    w.(s := w.s.(keys := ScanOf(w, estimate, deadline, elapsed).keys), clock := w.clock + elapsed)
  }

  predicate Grants(w: World, capability: string, estimate: nat, deadline: real, elapsed: Duration)
    requires Shape(w)
  {
    var scan := ScanOf(w, estimate, deadline, elapsed);
    w.s.keys != [] && !scan.broken && scan.found.Some? && HasRoom(Scanned(w, estimate, deadline, elapsed).s, capability)
  }

  function Refused(w: World): World {
    w.(s := w.s.(rejections := w.s.rejections + 1))
  }

  /** An attempt leaves the world admitted, refused or just pruned. */
  lemma AcquireCases(w: World, capability: string, estimate: nat, deadline: real, elapsed: Duration)
    requires Shape(w)
    ensures var t := Scanned(w, estimate, deadline, elapsed);
            var r := AcquireStep(w, capability, estimate, deadline, elapsed);
            if Grants(w, capability, estimate, deadline, elapsed)
            then r == AdmitStep(t, ScanOf(w, estimate, deadline, elapsed).found.value, capability, estimate)
            else r == t || r == Refused(t)
  {
    hide ScanFrom, Charged;
    if w.s.keys == [] { NothingScanned(w, estimate, deadline, elapsed); }
  }

  lemma NothingScanned(w: World, estimate: nat, deadline: real, elapsed: Duration)
    requires Shape(w) && w.s.keys == []
    ensures Scanned(w, estimate, deadline, elapsed).s == w.s
  {
  }

  lemma RefusalKeepsInv(w: World)
    requires Inv(w)
    ensures Inv(Refused(w))
  {
    hide KeyOk, Count, Granted, AdmittedTotal;
    assert forall c :: CapCount(w.s.(rejections := w.s.rejections + 1), c) == CapCount(w.s, c);
  }

  lemma ScanFacts(w: World, estimate: nat, deadline: real, elapsed: Duration)
    requires Shape(w)
    ensures var scan, t := ScanOf(w, estimate, deadline, elapsed), Scanned(w, estimate, deadline, elapsed);
            && (forall i | 0 <= i < |w.s.keys| :: t.s.keys[i] == w.s.keys[i] || t.s.keys[i] == Pruned(w.s.keys[i], t.clock))
            && t == w.(s := w.s.(keys := t.s.keys), clock := t.clock) && w.clock <= t.clock
            && (scan.found.Some? ==>
                  var k := t.s.keys[scan.found.value];
                  k == Pruned(k, t.clock) && Judge(t.s.config, k, estimate, t.clock).Eligible?)
  {
    hide Pruned, Judge, ScanFrom;
    var now := w.clock + elapsed;
    ScanOnlyPrunes(w.s.config, w.s.keys, w.s.cursor, estimate, now, 0, Max(0.05, deadline - now));
  }

  lemma ScannedKeepsInv(w: World, estimate: nat, deadline: real, elapsed: Duration)
    requires Inv(w)
    ensures Inv(Scanned(w, estimate, deadline, elapsed))
  {
    assert Shape(w);
    hide *;
    ScanFacts(w, estimate, deadline, elapsed);
    var t := Scanned(w, estimate, deadline, elapsed);
    ScanKeepsInv(w, t.s.keys, t.clock);
  }

  lemma GrantKeepsInv(w: World, capability: string, estimate: nat, deadline: real, elapsed: Duration)
    requires Inv(w) && Grants(w, capability, estimate, deadline, elapsed)
    ensures Inv(AdmitStep(Scanned(w, estimate, deadline, elapsed),
                          ScanOf(w, estimate, deadline, elapsed).found.value, capability, estimate))
  {
    assert Shape(w);
    var t := Scanned(w, estimate, deadline, elapsed);
    assert HasRoom(t.s, capability);
    hide *;
    ScanFacts(w, estimate, deadline, elapsed);
    ScannedKeepsInv(w, estimate, deadline, elapsed);
    AdmitKeepsInv(t, ScanOf(w, estimate, deadline, elapsed).found.value, capability, estimate);
  }

  lemma AcquireKeepsInv(w: World, capability: string, estimate: nat, deadline: real, elapsed: Duration)
    requires Inv(w)
    ensures Inv(AcquireStep(w, capability, estimate, deadline, elapsed))
  {
    assert Shape(w);
    hide *;
    AcquireCases(w, capability, estimate, deadline, elapsed);
    if Grants(w, capability, estimate, deadline, elapsed) {
      GrantKeepsInv(w, capability, estimate, deadline, elapsed);
    } else {
      ScannedKeepsInv(w, estimate, deadline, elapsed);
      RefusalKeepsInv(Scanned(w, estimate, deadline, elapsed));
    }
  }

  lemma KeysAge(w: World, now: real)
    requires Shape(w) && KeysOk(w) && w.clock <= now
    ensures KeysOk(w.(clock := now))
  {
    hide KeyOk;
    forall k | 0 <= k < |w.s.keys| ensures KeyOk(w.s.config, w.s.keys[k], w.requestLogs[k], w.tokenLogs[k], now) {
      KeyAges(w.s.config, w.s.keys[k], w.requestLogs[k], w.tokenLogs[k], w.clock, now);
    }
  }

  lemma FinishKeepsShape(w: World, i: nat, success: bool, actual: Option<int>, elapsed: Duration)
    requires Shape(w) && i < |w.leases|
    ensures Shape(FinishStep(w, i, success, actual, elapsed))
  {
    hide Overrun, Logged, ReleasedKey;
  }

  lemma FinishFields(w: World, i: nat, success: bool, actual: Option<int>, elapsed: Duration)
    requires Shape(w) && i < |w.leases|
    ensures var t, now, l := FinishStep(w, i, success, actual, elapsed), w.clock + elapsed, w.leases[i];
            && t.s.keys == w.s.keys[l.key := ReleasedKey(w.s.config, w.s.keys[l.key], l.estimate, success, actual, now)]
            && t.tokenLogs == w.tokenLogs[l.key := Logged(w.tokenLogs[l.key], Overrun(l.estimate, actual), false, now)]
            && t.requestLogs == w.requestLogs && t.clock == now && t.s.config == w.s.config
            && t.leases == w.leases[i := l.(phase := Released)]
  {
    hide ReleasedKey, Overrun, Logged;
  }

  lemma FinishKeepsKeys(w: World, i: nat, success: bool, actual: Option<int>, elapsed: Duration)
    requires Shape(w) && KeysOk(w) && i < |w.leases|
    ensures Shape(FinishStep(w, i, success, actual, elapsed)) && KeysOk(FinishStep(w, i, success, actual, elapsed))
  {
    hide KeyOk, ReleasedKey, Overrun, Logged, FinishStep;
    var now, l := w.clock + elapsed, w.leases[i];
    FinishKeepsShape(w, i, success, actual, elapsed);
    FinishFields(w, i, success, actual, elapsed);
    KeysAge(w, now);
    ReleaseKeepsKey(w.s.config, w.s.keys[l.key], w.requestLogs[l.key], w.tokenLogs[l.key], l.estimate, success, actual, now);
    OneKeyChanges(w.(clock := now), l.key, ReleasedKey(w.s.config, w.s.keys[l.key], l.estimate, success, actual, now),
                  w.requestLogs[l.key], Logged(w.tokenLogs[l.key], Overrun(l.estimate, actual), false, now));
  }

  lemma FinishKeepsSlots(w: World, i: nat, success: bool, actual: Option<int>, elapsed: Duration)
    requires Shape(w) && SlotsOk(w) && i < |w.leases| && !w.leases[i].phase.Released?
    ensures SlotsOk(FinishStep(w, i, success, actual, elapsed))
  {
    var t, l := FinishStep(w, i, success, actual, elapsed), w.leases[i];
    var done := l.(phase := Released);
    CountUpdate(w.leases, i, done, Any);
    forall k | 0 <= k < |t.s.keys| ensures t.s.keys[k].inFlight == Count(t.leases, OfKey(k)) <= t.s.config.keyConcurrency {
      CountUpdate(w.leases, i, done, OfKey(k));
    }
    forall c ensures CapCount(t.s, c) == Count(t.leases, OfCap(c)) <= CapLimit(t.s.config, c) {
      CountUpdate(w.leases, i, done, OfCap(c));
    }
  }

  lemma BeginKeepsInv(w: World, i: nat)
    requires Inv(w) && i < |w.leases| && w.leases[i].phase.Held?
    ensures Inv(w.(leases := w.leases[i := w.leases[i].(phase := Releasing)]))
  {
    var next := w.leases[i].(phase := Releasing);
    forall f ensures Count(w.leases[i := next], f) == Count(w.leases, f) {
      CountUpdate(w.leases, i, next, f);
    }
    forall k ensures Granted(w.leases[i := next], k) == Granted(w.leases, k) {
      GrantedIgnoresPhase(w.leases, i, Releasing, k);
    }
    hide Count, Granted, AdmittedTotal, KeyOk;
  }

  lemma FinishKeepsInv(w: World, i: nat, success: bool, actual: Option<int>, elapsed: Duration)
    requires Inv(w) && i < |w.leases| && !w.leases[i].phase.Released?
    ensures Inv(FinishStep(w, i, success, actual, elapsed))
  {
    hide SlotsOk, KeysOk, LogsOk, Shape, FinishStep;
    FinishKeepsKeys(w, i, success, actual, elapsed);
    FinishKeepsSlots(w, i, success, actual, elapsed);
    FinishKeepsLogs(w, i, success, actual, elapsed);
  }

  lemma StepKeepsInv(w: World, e: Event)
    requires Inv(w)
    ensures Inv(Step(w, e))
  {
    hide SlotsOk, KeysOk, LogsOk, AcquireStep, FinishStep;
    match e
    case TryAcquire(capability, estimate, deadline, elapsed) => AcquireKeepsInv(w, capability, estimate, deadline, elapsed);
    case GiveUp => RefusalKeepsInv(w);
    case BeginRelease(i) =>
      if i < |w.leases| && w.leases[i].phase.Held? { BeginKeepsInv(w, i); }
    case FinishRelease(i, success, actual, elapsed) =>
      if i < |w.leases| && w.leases[i].phase.Releasing? { FinishKeepsInv(w, i, success, actual, elapsed); }
  }

  lemma {:induction false} RunKeepsInv(w: World, events: seq<Event>)
    requires Inv(w)
    ensures Inv(Run(w, events))
    decreases |events|
  {
    if events != [] {
      hide SlotsOk, KeysOk, LogsOk, Step;
      StepKeepsInv(w, events[0]);
      RunKeepsInv(Step(w, events[0]), events[1..]);
    }
  }

  lemma StartOk(config: Config, keys: nat, clock: real)
    ensures Inv(Start(config, keys, clock))
  {
  }
}
