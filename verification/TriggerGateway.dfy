/** The gateway's trigger endpoint as it updates its dictionaries: gateway/main.py. */
module TriggerGateways {
  import opened Options
  import opened Triggers

  /** The gateway's dictionaries and thread file. */
  class TriggerGateway {
    var recent: map<string, (real, Receipt)>
    var inflight: map<string, nat>
    var locks: map<Owner, nat>
    var disk: map<Owner, string>
    var clock: real
    var requests: seq<Request>
    var phases: seq<Phase>
    ghost var starts: seq<Start>

    ghost function State(): State
      reads this
    {
      Triggers.State(clock, requests, phases, recent, inflight, locks, disk, starts)
    }

    constructor (disk: map<Owner, string>, clock: real)
      ensures State() == Init(disk, clock)
    {
      recent, inflight, locks, requests, phases, starts := map[], map[], map[], [], [], [];
      this.disk, this.clock := disk, clock;
    }

    /** Drops expired receipts, then looks the key up. */
    method TriggerReplay(key: string, now: real) returns (cached: Option<Receipt>)
      modifies this`recent
      ensures recent == Prune(old(recent), now)
      ensures cached == if key in recent then Some(recent[key].1) else None
    {
      var expired := set k | k in recent && now - recent[k].0 > Ttl;
      ghost var before, dropped := recent, {};
      while expired != {}
        invariant recent == before - dropped
        invariant dropped !! expired && dropped + expired == set k | k in before && now - before[k].0 > Ttl
        decreases |expired|
      {
        var k :| k in expired;
        recent, expired, dropped := recent - {k}, expired - {k}, dropped + {k};
      }
      assert recent == Prune(before, now);
      cached := if key in recent then Some(recent[key].1) else None;
    }

    method InternalTrigger(q: Request, now: real)
      requires |requests| == |phases|
      modifies this
      ensures State() == Arrive(old(State()), q, now)
    {
      clock := now;
      var cached := TriggerReplay(q.key, now);
      requests := requests + [q];
      if cached.Some? {
        phases := phases + [Replayed(cached.value)];
      } else if q.key in inflight {
        phases := phases + [Waiting(inflight[q.key])];
      } else {
        inflight := inflight[q.key := |phases|];
        phases := phases + [WantLock(now)];
      }
    }

    method SaveThread(r: nat, thread: string)
      requires r < |phases| == |requests| && phases[r].WantThread?
      modifies this
      ensures State() == AfterThread(old(State()), r, thread)
    {
      if thread == "" {
        Fail(r);
      } else {
        disk := disk[requests[r].owner := thread];
        phases := phases[r := WantTurn(phases[r].since, thread)];
      }
    }

    method Succeed(r: nat, now: real)
      requires r < |phases| == |requests| && phases[r].WantTurn?
      modifies this
      ensures State() == Accept(old(State()), r, now)
    {
      var q, receipt := requests[r], Receipt(phases[r].thread, requests[r].template);
      clock := now;
      locks := locks - {q.owner};
      recent := recent[q.key := (now, receipt)];
      starts := starts + [Start(q.key, q.owner, now, receipt)];
      inflight := inflight - {q.key};
      phases := phases[r := Accepted(receipt)];
    }

    method Fail(r: nat)
      requires r < |phases| == |requests|
      modifies this
      ensures State() == Break(old(State()), r)
    {
      var q := requests[r];
      if Locking(phases[r]) { locks := locks - {q.owner}; }
      if Leading(phases[r]) { inflight := inflight - {q.key}; }
      phases := phases[r := Failed];
    }
  }
}
