/** Sliding windows: what the pruned deques say about the full history of a key. */
module RouterWindows {
  import opened Router

  /** Everything logged after `cutoff`. */
  function After(log: seq<Entry>, cutoff: real): nat {
    if log == [] then 0 else
      var e := log[|log| - 1];
      After(log[..|log| - 1], cutoff) + if e.stamp.at > cutoff then e.stamp.amount else 0
  }

  /** Admissions logged in the half-open window of 60 seconds that ends at `t`. */
  function AdmittedWithin(log: seq<Entry>, t: real): nat {
    if log == [] then 0 else
      var e := log[|log| - 1];
      AdmittedWithin(log[..|log| - 1], t) +
      if e.admission && t - 60.0 < e.stamp.at <= t then e.stamp.amount else 0
  }

  /** Each admission found everything in the window before it, itself included, within the limit. */
  ghost predicate EachAdmissionFits(log: seq<Entry>, limit: nat) {
    forall i | 0 <= i < |log| && log[i].admission :: After(log[..i + 1], log[i].stamp.at - WINDOW) <= limit
  }

  lemma {:induction false} AdmittedWithinAfter(log: seq<Entry>, t: real, cutoff: real)
    requires cutoff <= t - WINDOW
    ensures AdmittedWithin(log, t) <= After(log, cutoff)
  {
    if log != [] { AdmittedWithinAfter(log[..|log| - 1], t, cutoff); }
  }

  /** The rate theorem for one log: no window of 60 seconds, wherever it ends, exceeds the limit. */
  lemma {:induction false} WindowBound(log: seq<Entry>, limit: nat, t: real)
    requires EachAdmissionFits(log, limit)
    ensures AdmittedWithin(log, t) <= limit
  {
    if log != [] {
      var e, front := log[|log| - 1], log[..|log| - 1];
      if e.admission && t - WINDOW < e.stamp.at <= t {
        assert log[..|log|] == log;
        AdmittedWithinAfter(log, t, e.stamp.at - WINDOW);
      } else {
        forall i | 0 <= i < |front| && front[i].admission
          ensures After(front[..i + 1], front[i].stamp.at - WINDOW) <= limit
        {
          assert front[..i + 1] == log[..i + 1] && front[i] == log[i];
        }
        WindowBound(front, limit, t);
      }
    }
  }

  /** A deque is the tail of its log, and what it dropped had left the window by `clock`. */
  ghost predicate DequeOk(d: seq<Stamp>, log: seq<Entry>, clock: real) {
    && |d| <= |log|
    && (forall i | 0 <= i < |d| :: d[i] == log[|log| - |d| + i].stamp)
    && (forall i, k | 0 <= i < k < |log| :: log[i].stamp.at <= log[k].stamp.at)
    && (forall i | 0 <= i < |log| :: log[i].stamp.at <= clock)
    && (forall i | 0 <= i < |log| - |d| :: log[i].stamp.at <= clock - WINDOW)
  }

  lemma DequeAges(d: seq<Stamp>, log: seq<Entry>, clock: real, now: real)
    requires DequeOk(d, log, clock) && clock <= now
    ensures DequeOk(d, log, now)
  {
  }

  lemma {:induction false} PruneKeepsDeque(d: seq<Stamp>, log: seq<Entry>, now: real)
    requires DequeOk(d, log, now)
    ensures var r := Prune(d, now - WINDOW);
            DequeOk(r, log, now) && forall i | 0 <= i < |r| :: r[i].at > now - WINDOW
  {
    if d != [] && d[0].at <= now - WINDOW {
      PruneKeepsDeque(d[1..], log, now);
    } else if d != [] {
      forall i | 0 <= i < |d| ensures d[i].at > now - WINDOW {
        assert log[|log| - |d|].stamp.at <= log[|log| - |d| + i].stamp.at;
      }
    }
  }

  lemma {:induction false} OldEntriesCountNothing(log: seq<Entry>, cutoff: real)
    requires forall i | 0 <= i < |log| :: log[i].stamp.at <= cutoff
    ensures After(log, cutoff) == 0
  {
    if log != [] { OldEntriesCountNothing(log[..|log| - 1], cutoff); }
  }

  /** After pruning, the deque's total is exactly the history inside the window. */
  lemma {:induction false} TotalIsAfter(d: seq<Stamp>, log: seq<Entry>, cutoff: real)
    requires |d| <= |log|
    requires forall i | 0 <= i < |d| :: d[i] == log[|log| - |d| + i].stamp && d[i].at > cutoff
    requires forall i | 0 <= i < |log| - |d| :: log[i].stamp.at <= cutoff
    ensures Total(d) == After(log, cutoff)
  {
    if d == [] {
      OldEntriesCountNothing(log, cutoff);
    } else {
      assert d[|d| - 1] == log[|log| - 1].stamp;
      TotalIsAfter(d[..|d| - 1], log[..|log| - 1], cutoff);
    }
  }

  lemma AppendKeepsDeque(d: seq<Stamp>, log: seq<Entry>, now: real, e: Entry)
    requires DequeOk(d, log, now) && e.stamp.at == now
    ensures DequeOk(d + [e.stamp], log + [e], now)
  {
  }

  lemma AppendAfter(log: seq<Entry>, e: Entry, cutoff: real)
    ensures After(log + [e], cutoff) == After(log, cutoff) + if e.stamp.at > cutoff then e.stamp.amount else 0
  {
    assert (log + [e])[..|log|] == log;
  }

  lemma ExtendFits(log: seq<Entry>, e: Entry, limit: nat)
    requires EachAdmissionFits(log, limit)
    requires e.admission ==> After(log + [e], e.stamp.at - WINDOW) <= limit
    ensures EachAdmissionFits(log + [e], limit)
  {
    var longer := log + [e];
    assert longer[..|longer|] == longer;
    assert forall i | 0 <= i < |log| :: longer[i] == log[i] && longer[..i + 1] == log[..i + 1];
  }

  /** Appending keeps the admission bound if an appended admission fits what the deque holds. */
  lemma AppendFits(d: seq<Stamp>, log: seq<Entry>, now: real, e: Entry, limit: nat)
    requires DequeOk(d, log, now) && e.stamp.at == now && EachAdmissionFits(log, limit)
    requires e.admission ==> Total(d) + e.stamp.amount <= limit && forall i | 0 <= i < |d| :: d[i].at > now - WINDOW
    ensures EachAdmissionFits(log + [e], limit)
  {
    if e.admission { TotalIsAfter(d, log, now - WINDOW); }
    hide DequeOk, EachAdmissionFits, Total, After;
    AppendAfter(log, e, now - WINDOW);
    ExtendFits(log, e, limit);
  }

  lemma {:induction false} UnitTotal(d: seq<Stamp>)
    requires forall i | 0 <= i < |d| :: d[i].amount == 1
    ensures Total(d) == |d|
  {
    if d != [] { UnitTotal(d[..|d| - 1]); }
  }
}
