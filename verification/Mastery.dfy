/** Mastery derived from evidence: backend/app/pipeline/mastery.py. Times are in days. */
module Mastery {
  import opened Options

  datatype Event = Event(id: nat, student: nat, point: nat, source: string, value: real, weight: real, cog: string, at: real)

  // ----- Reading events --------------------------------------------------------------------------

  function Keep(events: seq<Event>, f: Event -> bool): seq<Event> {
    if events == [] then [] else
      var front, last := Keep(events[..|events| - 1], f), events[|events| - 1];
      if f(last) then front + [last] else front
  }

  /** The sort order: by time, or by student, point and time. */
  predicate Before(byKey: bool, a: Event, b: Event) {
    if byKey && a.student != b.student then a.student < b.student
    else if byKey && a.point != b.point then a.point < b.point
    else a.at < b.at
  }

  function Insert(byKey: bool, sorted: seq<Event>, e: Event): seq<Event> {
    if sorted == [] then [e] else
      var front, last := sorted[..|sorted| - 1], sorted[|sorted| - 1];
      if Before(byKey, e, last) then Insert(byKey, front, e) + [last] else sorted + [e]
  }

  /** A stable sort: equal rows stay in table order. */
  function Sort(byKey: bool, events: seq<Event>): seq<Event> {
    if events == [] then [] else Insert(byKey, Sort(byKey, events[..|events| - 1]), events[|events| - 1])
  }

  function Matches(student: nat, point: nat, asOf: real, cog: Option<string>): Event -> bool {
    (e: Event) => e.student == student && e.point == point && e.at <= asOf && (cog.Some? ==> e.cog == cog.value)
  }

  function Requested(students: seq<nat>, points: seq<nat>, asOf: real, cog: Option<string>): Event -> bool {
    (e: Event) => e.student in students && e.point in points && e.at <= asOf && (cog.Some? ==> e.cog == cog.value)
  }

  function GetEvents(rows: seq<Event>, student: nat, point: nat, asOf: real, cog: Option<string>): seq<Event> {
    Sort(false, Keep(rows, Matches(student, point, asOf, cog)))
  }

  // ----- Mastery -------------------------------------------------------------------------------

  function HalfLife(source: string): (h: real)
    ensures h == 60.0 || h == 30.0
  {
    if source == "期中" || source == "期末" || source == "补录" || source == "单元" then 60.0
    else if source == "诊断" || source == "练习" then 30.0
    else 60.0
  }

  function Age(e: Event, asOf: real): real {
    if asOf - e.at > 0.0 then asOf - e.at else 0.0
  }

  /** `decay(x)` stands for 2 to the minus x. */
  function EffectiveWeight(decay: real -> real, e: Event, asOf: real): real {
    e.weight * decay(Age(e, asOf) / HalfLife(e.source))
  }

  function Contribution(decay: real -> real, e: Event, asOf: real): real {
    e.value * EffectiveWeight(decay, e, asOf)
  }

  function Numerator(decay: real -> real, events: seq<Event>, asOf: real): real {
    if events == [] then 0.0 else
      Numerator(decay, events[..|events| - 1], asOf) + Contribution(decay, events[|events| - 1], asOf)
  }

  function Denominator(decay: real -> real, events: seq<Event>, asOf: real): real {
    if events == [] then 0.0
    else Denominator(decay, events[..|events| - 1], asOf) + EffectiveWeight(decay, events[|events| - 1], asOf)
  }

  function Likelihood(decay: real -> real, events: seq<Event>, asOf: real): Option<real> {
    var num, den := Numerator(decay, events, asOf), Denominator(decay, events, asOf);
    if den > 0.0 then Some(num / den) else None
  }

  function Shrunk(likelihood: real, n: nat, prior: real, strength: real): real
    requires strength > 0.0
  {
    (likelihood * n as real + prior * strength) / (n as real + strength)
  }

  function MasteryOf(decay: real -> real, events: seq<Event>, asOf: real, prior: Option<real>, strength: real): Option<real> {
    var likelihood := if events == [] then None else Likelihood(decay, events, asOf);
    if likelihood.None? || prior.None? || strength <= 0.0 then likelihood
    else Some(Shrunk(likelihood.value, |events|, prior.value, strength))
  }

  function Plain(decay: real -> real, events: seq<Event>, asOf: real): Option<real> {
    MasteryOf(decay, events, asOf, None, 5.0)
  }

  function MasteryAt(decay: real -> real, rows: seq<Event>, student: nat, point: nat, asOf: real, cog: Option<string>): Option<real> {
    Plain(decay, GetEvents(rows, student, point, asOf, cog), asOf)
  }

  // ----- The series -----------------------------------------------------------------------------

  datatype Entry = Entry(at: real, mastery: real)

  /** Appends the mastery at the event's time, or replaces it when the time is the same. */
  function Record(series: seq<Entry>, at: real, m: Option<real>): seq<Entry> {
    if m.None? then series
    else if series == [] || series[|series| - 1].at != at then series + [Entry(at, m.value)]
    else series[..|series| - 1] + [Entry(at, m.value)]
  }

  function Series(decay: real -> real, events: seq<Event>): seq<Entry> {
    if events == [] then [] else
      var at := events[|events| - 1].at;
      Record(Series(decay, events[..|events| - 1]), at, Plain(decay, events, at))
  }

  // ----- The loops -------------------------------------------------------------------------------

  method ComputeMastery(decay: real -> real, events: seq<Event>, asOf: real, prior: Option<real>, strength: real)
    returns (m: Option<real>)
    ensures m == MasteryOf(decay, events, asOf, prior, strength)
  {
    hide EffectiveWeight, Shrunk;
    if events == [] { return None; }
    var num, den := 0.0, 0.0;
    for i := 0 to |events|
      invariant num == Numerator(decay, events[..i], asOf) && den == Denominator(decay, events[..i], asOf)
    {
      assert events[..i + 1][..i] == events[..i];
      var w := EffectiveWeight(decay, events[i], asOf);
      num, den := num + events[i].value * w, den + w;
    }
    assert events[..|events|] == events;
    if !(den > 0.0) { return None; }
    var likelihood := num / den;
    if prior.None? || strength <= 0.0 { return Some(likelihood); }
    m := Some(Shrunk(likelihood, |events|, prior.value, strength));
  }

  method MasterySeries(decay: real -> real, rows: seq<Event>, student: nat, point: nat, asOf: real) returns (series: seq<Entry>)
    ensures series == Series(decay, GetEvents(rows, student, point, asOf, None))
  {
    hide GetEvents, MasteryOf;
    var events := GetEvents(rows, student, point, asOf, None);
    series := [];
    for i := 0 to |events|
      invariant series == Series(decay, events[..i])
    {
      assert events[..i + 1][..i] == events[..i];
      var m := ComputeMastery(decay, events[..i + 1], events[i].at, None, 5.0);
      if m.Some? && (series == [] || series[|series| - 1].at != events[i].at) {
        series := series + [Entry(events[i].at, m.value)];
      } else if m.Some? && series != [] && series[|series| - 1].at == events[i].at {
        series := series[|series| - 1 := Entry(events[i].at, m.value)];
      }
    }
    assert events[..|events|] == events;
  }
}
