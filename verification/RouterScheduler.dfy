/** The scheduler object, whose fields `acquire` and `release` update in place. */
module RouterScheduling {
  import opened Options
  import opened Router

  class RouterScheduler {
    const config: Config
    var keys: seq<Key>
    var globalInFlight: nat
    var capInFlight: map<string, nat>
    var cursor: nat
    var requests: nat
    var rejections: nat

    ghost predicate Valid()
      reads this
    {
      keys == [] || cursor < |keys|
    }

    function State(): Scheduler
      reads this
    {
      Scheduler(config, keys, globalInFlight, capInFlight, cursor, requests, rejections)
    }

    constructor (config: Config, providerKeys: nat)
      ensures Valid() && forall clock :: State() == Start(config, providerKeys, clock).s
    {
      this.config := config;
      keys := seq(providerKeys, _ => FRESH_KEY);
      globalInFlight, capInFlight, cursor, requests, rejections := 0, map[], 0, 0, 0;
    }

    static method PopOld(d: seq<Stamp>, cutoff: real) returns (r: seq<Stamp>)
      ensures r == Prune(d, cutoff)
    {
      r := d;
      while r != [] && r[0].at <= cutoff
        invariant Prune(r, cutoff) == Prune(d, cutoff)
        decreases |r|
      {
        r := r[1..];
      }
    }

    method PruneKey(index: nat, now: real)
      requires index < |keys|
      modifies this`keys
      ensures keys == old(keys)[index := Pruned(old(keys)[index], now)]
    {
      var recent := PopOld(keys[index].requestTimes, now - WINDOW);
      var events := PopOld(keys[index].tokenEvents, now - WINDOW);
      keys := keys[index := keys[index].(requestTimes := recent, tokenEvents := events)];
    }

    /** One pass of the acquire loop. */
    method TryAcquire(capability: string, estimate: nat, now: real, deadline: real) returns (outcome: Outcome)
      requires Valid()
      modifies this
      ensures Valid()
      ensures (State(), outcome) == Attempt(old(State()), capability, estimate, now, deadline)
    {
      hide Charged, Pruned, Judge;
      if keys == [] {
        rejections := rejections + 1;
        return Rejected(60.0);
      }
      var candidate: Option<nat> := None;
      var retryAfter := Max(0.05, deadline - now);
      ghost var whole := ScanFrom(config, keys, cursor, estimate, now, 0, retryAfter);
      var offset := 0;
      while offset < |keys|
        invariant 0 <= offset <= |keys| == |old(keys)| && candidate.None?
        invariant unchanged(`globalInFlight, `capInFlight, `cursor, `requests, `rejections)
        invariant ScanFrom(config, keys, cursor, estimate, now, offset, retryAfter) == whole
      {
        var index := (cursor + offset) % |keys|;
        PruneKey(index, now);
        var verdict := Judge(config, keys[index], estimate, now);
        if verdict.Broken? { return Crashed; }
        if verdict.Eligible? {
          candidate := Some(index);
          break;
        }
        if verdict.wake.Some? { retryAfter := Min(verdict.wake.value - now, retryAfter); }
        offset := offset + 1;
      }
      if candidate.Some? && HasRoom(State(), capability) {
        Charge(candidate.value, capability, estimate, now);
        return Admitted(candidate.value);
      }
      if deadline - now <= 0.0 {
        rejections := rejections + 1;
        return Rejected(Max(0.05, retryAfter));
      }
      return Waiting(Min(deadline - now, retryAfter));
    }

    method Charge(index: nat, capability: string, estimate: nat, now: real)
      requires index < |keys|
      modifies this
      ensures State() == Admit(old(State()), index, capability, estimate, now) && Valid()
    {
      keys := keys[index := Charged(keys[index], estimate, now)];
      globalInFlight := globalInFlight + 1;
      var count := if capability in capInFlight then capInFlight[capability] else 0;
      capInFlight := capInFlight[capability := count + 1];
      cursor := (index + 1) % |keys|;
      requests := requests + 1;
    }

    /** The released key: its slot, its overrun and its circuit. */
    method Settle(key: Key, estimate: nat, success: bool, actual: Option<int>, now: real) returns (k: Key)
      ensures k == ReleasedKey(config, key, estimate, success, actual, now)
    {
      k := key.(inFlight := Less(key.inFlight));
      var overrun := Overrun(estimate, actual);
      if overrun > 0 { k := k.(tokenEvents := k.tokenEvents + [Stamp(now, overrun)]); }
      if success {
        k := k.(failures := 0);
      } else {
        k := k.(failures := k.failures + 1);
        if k.failures >= config.circuitThreshold {
          k := k.(openedUntil := now + config.circuitCooldown, failures := 0);
        }
      }
    }

    method ReleaseSlot(index: nat, capability: string, estimate: nat, success: bool, actual: Option<int>, now: real)
      requires Valid() && index < |keys|
      modifies this
      ensures Valid()
      ensures State() == Release(old(State()), index, capability, estimate, success, actual, now)
    {
      hide ReleasedKey;
      var k := Settle(keys[index], estimate, success, actual, now);
      keys := keys[index := k];
      globalInFlight := Less(globalInFlight);
      capInFlight := capInFlight[capability := Less(if capability in capInFlight then capInFlight[capability] else 1)];
    }
  }
}
