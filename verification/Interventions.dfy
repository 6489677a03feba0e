/** Suggested teaching actions and their queue: backend/app/intervention.py. */
module Interventions {
  import opened Options

  /** Who needs what: a student (or, with None, the whole class) and a knowledge point. */
  datatype Need = Need(student: Option<nat>, point: nat)

  datatype Kind = Reteach | PrereqBackfill | SpacedReview | ContrastPractice | EvidenceBoost | TierDrill
  datatype Scope = WholeClass | Group | Single
  datatype Status = Suggested | Done | Skipped
  datatype GroupRef = GroupRef(report: nat, root: Option<nat>)

  datatype Note =
    | NoNote
    | Written(text: string)
    | SecondTry
    | SameRoot(members: nat)
    | ShareWeak(weak: nat, assessed: nat)
    | Merged
    | Unsupported

  /** A row of the intervention table. */
  datatype Row = Row(id: nat, classId: nat, need: Need, exam: nat, report: Option<nat>, kind: Kind, scope: Scope,
                     attribution: Option<nat>, group: Option<GroupRef>, baseline: real, status: Status, note: Note,
                     suggestedAt: real, doneAt: Option<real>)

  /** A suggestion before it is stored. */
  datatype Action = Action(need: Need, kind: Kind, scope: Scope, attribution: Option<nat>, root: Option<nat>, note: Note)

  /** The run's own parameters; `graph` is the set of points the analysis evaluates. */
  datatype Run = Run(classId: nat, exam: nat, report: Option<nat>, asOf: real, now: real, graph: set<nat>)

  /** What the evaluation asks for: actions, the points each assessed student still needs, and
      the class-wide points shown to have recovered. */
  datatype Plan = Plan(actions: seq<Action>, asked: map<nat, set<nat>>, disproven: set<nat>)

  // ----- The queue -----------------------------------------------------------------------

  predicate Queued(r: Row, c: Run) {
    r.classId == c.classId && r.need.point in c.graph && r.status == Suggested
  }

  /** Suggestions of this very exam are thrown away first ... */
  predicate Cleared(r: Row, c: Run) {
    Queued(r, c) && r.exam == c.exam
  }

  /** ... and those of other exams stay pending. */
  predicate Pending(r: Row, c: Run) {
    Queued(r, c) && r.exam != c.exam
  }

  function Remaining(rows: seq<Row>, c: Run): seq<Row> {
    if rows == [] then [] else
      var front, last := Remaining(rows[..|rows| - 1], c), rows[|rows| - 1];
      if Cleared(last, c) then front else front + [last]
  }

  function LatestStep(latest: map<Need, nat>, r: Row, c: Run): map<Need, nat> {
    if Queued(r, c) && (r.need !in latest || latest[r.need] < r.id) then latest[r.need := r.id] else latest
  }

  /** The highest id queued under each need. */
  function Latest(rows: seq<Row>, c: Run): map<Need, nat> {
    if rows == [] then map[] else LatestStep(Latest(rows[..|rows| - 1], c), rows[|rows| - 1], c)
  }

  function MergeRow(r: Row, latest: map<Need, nat>, c: Run): Row {
    if Queued(r, c) && r.need in latest && latest[r.need] != r.id then r.(status := Skipped, note := Merged) else r
  }

  function GroupOf(a: Action, c: Run): Option<GroupRef> {
    if a.scope == Group then Some(GroupRef(GetOr(c.report, 0), a.root)) else None
  }

  function Refresh(r: Row, a: Action, c: Run): Row {
    r.(exam := c.exam, report := c.report, kind := a.kind, attribution := a.attribution, scope := a.scope,
       group := GroupOf(a, c), baseline := c.asOf, note := a.note)
  }

  function NewRow(a: Action, id: nat, c: Run): Row {
    Row(id, c.classId, a.need, c.exam, c.report, a.kind, a.scope, a.attribution, GroupOf(a, c), c.asOf,
        Suggested, a.note, c.now, None)
  }

  /** A pending suggestion has lost its ground. */
  predicate Gone(p: Plan, need: Need) {
    match need.student
    case None => need.point in p.disproven
    case Some(s) => s in p.asked && need.point !in p.asked[s]
  }

  function Archived(r: Row): Row {
    r.(status := Skipped, note := Unsupported)
  }

  // ----- Reconciliation, row by row --------------------------------------------------------

  predicate Asks(actions: seq<Action>, need: Need) {
    exists i :: 0 <= i < |actions| && actions[i].need == need
  }

  function ActionOn(actions: seq<Action>, need: Need): (a: Action)
    requires Asks(actions, need)
    ensures a in actions && a.need == need
  {
    var front, last := actions[..|actions| - 1], actions[|actions| - 1];
    if last.need == need then last else
      assert Asks(front, need) by {
        var i :| 0 <= i < |actions| && actions[i].need == need;
        assert front[i] == actions[i];
      }
      ActionOn(front, need)
  }

  /** The fate of a row that is not cleared. */
  function Settle(r: Row, latest: map<Need, nat>, p: Plan, c: Run): Row {
    if !Queued(r, c) then r
    else if r.need in latest && latest[r.need] != r.id then r.(status := Skipped, note := Merged)
    else if Asks(p.actions, r.need) then Refresh(r, ActionOn(p.actions, r.need), c)
    else if Gone(p, r.need) then Archived(r)
    else r
  }

  function Settled(rows: seq<Row>, latest: map<Need, nat>, p: Plan, c: Run): seq<Row> {
    seq(|rows|, i requires 0 <= i < |rows| => Settle(rows[i], latest, p, c))
  }

  /** New rows for the needs nothing pending covers. */
  function Inserted(actions: seq<Action>, latest: map<Need, nat>, next: nat, c: Run): seq<Row> {
    if actions == [] then [] else
      var front, last := Inserted(actions[..|actions| - 1], latest, next, c), actions[|actions| - 1];
      if last.need in latest then front else front + [NewRow(last, next + |front|, c)]
  }

  /** The whole reconciliation as one pass: clear, settle what remains, insert what is missing. */
  function Reconcile(rows: seq<Row>, next: nat, p: Plan, c: Run): seq<Row> {
    var kept := Remaining(rows, c);
    var latest := Latest(kept, c);
    Settled(kept, latest, p, c) + Inserted(p.actions, latest, next, c)
  }

  function NextAfter(rows: seq<Row>, next: nat, p: Plan, c: Run): nat {
    next + |Inserted(p.actions, Latest(Remaining(rows, c), c), next, c)|
  }

  /** What makes a plan sound: one action per need, inside the graph, never on a need it also calls gone. */
  ghost predicate Sound(p: Plan, c: Run) {
    && (forall i, k | 0 <= i < k < |p.actions| :: p.actions[i].need != p.actions[k].need)
    && (forall i | 0 <= i < |p.actions| :: p.actions[i].need.point in c.graph && !Gone(p, p.actions[i].need))
  }

  /** Primary keys. */
  ghost predicate Keyed(rows: seq<Row>, next: nat) {
    && (forall i, k | 0 <= i < k < |rows| :: rows[i].id != rows[k].id)
    && (forall i | 0 <= i < |rows| :: rows[i].id < next)
  }

  /** What a suggestion says, id and time of insertion aside. */
  datatype Content = Content(exam: nat, report: Option<nat>, kind: Kind, scope: Scope, attribution: Option<nat>,
                             group: Option<GroupRef>, baseline: real, note: Note)

  function ContentOf(r: Row): Content {
    Content(r.exam, r.report, r.kind, r.scope, r.attribution, r.group, r.baseline, r.note)
  }

  function Asked(a: Action, c: Run): Content {
    Content(c.exam, c.report, a.kind, a.scope, a.attribution,
            if a.scope == Group then Some(GroupRef(if c.report.Some? then c.report.value else 0, a.root)) else None, c.asOf, a.note)
  }

  /** The queue says `x` about the need. */
  ghost predicate Suggests(rows: seq<Row>, c: Run, need: Need, x: Content) {
    exists i :: 0 <= i < |rows| && Queued(rows[i], c) && rows[i].need == need && ContentOf(rows[i]) == x
  }

  /** Before the run, `x` is the newest pending word on the need from another exam. */
  ghost predicate NewestPending(rows: seq<Row>, c: Run, need: Need, x: Content) {
    exists i :: 0 <= i < |rows| && Pending(rows[i], c) && rows[i].need == need && ContentOf(rows[i]) == x
      && forall k | 0 <= k < |rows| && Pending(rows[k], c) && rows[k].need == need :: rows[k].id <= rows[i].id
  }
}
