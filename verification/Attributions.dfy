/** Attributions of weak points to causes: backend/app/pipeline/attribution.py. */
module Attributions {
  import opened Options
  import opened Assessments

  datatype Key = Key(point: nat, cause: Cause)

  /** What an attribution says; evidence is kept as the lines it lists. */
  datatype Claim = Claim(confidence: real, root: Option<int>, evidence: seq<string>, prediction: string)

  datatype Finding = Finding(key: Key, claim: Claim)

  datatype Status = Active | Overridden | Resolved

  /** A row of the attribution table. */
  datatype Row = Row(id: nat, student: nat, key: Key, claim: Claim, status: Status, note: Option<string>)

  // ----- Deriving findings ---------------------------------------------------------------------

  /** The three engines that look for a cause, and the line for points with too little data. */
  datatype Engines = Engines(
    deficit: Assessment -> Option<Claim>,
    forgetting: Assessment -> Option<Claim>,
    confusion: Assessment -> Option<Claim>,
    tooLittle: Assessment -> Claim,
    importance: nat -> real,
    minSample: int,
    ratio: real,
    cap: real)

  function Hypothesis(point: nat, cause: Cause, claim: Option<Claim>): seq<Finding> {
    if claim.Some? then [Finding(Key(point, cause), claim.value)] else []
  }

  function AttributeAssessment(e: Engines, a: Assessment): seq<Finding> {
    if a.gate == NotLearned then []
    else if a.gate == Insufficient then [Finding(Key(a.point, TooLittleData), e.tooLittle(a))]
    else if a.lowEvidence || !a.weak then []
    else Hypothesis(a.point, Prerequisite, e.deficit(a)) + Hypothesis(a.point, Forgetting, e.forgetting(a))
         + Hypothesis(a.point, Confusable, e.confusion(a))
  }

  function AllFindings(e: Engines, s: seq<Assessment>): seq<Finding> {
    if s == [] then [] else AllFindings(e, s[..|s| - 1]) + AttributeAssessment(e, s[|s| - 1])
  }

  predicate Valid(a: Assessment) {
    a.gate == Open && a.mastery.Some?
  }

  function Weight(e: Engines, s: seq<Assessment>, weakOnly: bool): real {
    if s == [] then 0.0 else
      var last := s[|s| - 1];
      Weight(e, s[..|s| - 1], weakOnly) + if Valid(last) && (weakOnly ==> last.weak) then e.importance(last.point) else 0.0
  }

  function ValidCount(s: seq<Assessment>): nat {
    if s == [] then 0 else ValidCount(s[..|s| - 1]) + if Valid(s[|s| - 1]) then 1 else 0
  }

  /** The student is weak nearly everywhere, so a specific prerequisite explains little. */
  predicate WeakEverywhere(e: Engines, s: seq<Assessment>) {
    && ValidCount(s) >= e.minSample
    && Weight(e, s, false) > 0.0
    && Weight(e, s, true) / Weight(e, s, false) >= e.ratio
  }

  const WeakEverywhereLine := "weak at most points"

  function Capped(e: Engines, f: Finding): Finding {
    if f.key.cause != Prerequisite then f
    else f.(claim := f.claim.(confidence := if f.claim.confidence < e.cap then f.claim.confidence else e.cap,
                              evidence := f.claim.evidence + [WeakEverywhereLine]))
  }

  function CappedAll(e: Engines, findings: seq<Finding>): seq<Finding> {
    seq(|findings|, i requires 0 <= i < |findings| => Capped(e, findings[i]))
  }

  function Derive(e: Engines, s: seq<Assessment>): seq<Finding> {
    if WeakEverywhere(e, s) then CappedAll(e, AllFindings(e, s)) else AllFindings(e, s)
  }

  // ----- Reading: derive, then lay the teachers' verdicts over it ---------------------------------

  predicate Vetoes(r: Row, student: nat, graph: set<nat>, key: Key) {
    r.student == student && r.key.point in graph && r.status == Overridden && r.key == key
  }

  predicate Vetoed(rows: seq<Row>, student: nat, graph: set<nat>, key: Key) {
    exists i :: 0 <= i < |rows| && Vetoes(rows[i], student, graph, key)
  }

  /** The findings the reader is shown as active. */
  ghost predicate ReadAsActive(rows: seq<Row>, student: nat, graph: set<nat>, findings: seq<Finding>, f: Finding) {
    f in findings && !Vetoed(rows, student, graph, f.key)
  }

  // ----- Writing -------------------------------------------------------------------------------

  /** Rows that stand for their key: active ones and vetoed ones. */
  predicate Stands(r: Row, student: nat, graph: set<nat>) {
    r.student == student && r.key.point in graph && r.status != Resolved
  }

  function Existing(rows: seq<Row>, student: nat, graph: set<nat>): map<Key, nat> {
    if rows == [] then map[] else
      var front, last := Existing(rows[..|rows| - 1], student, graph), rows[|rows| - 1];
      if Stands(last, student, graph) then front[last.key := last.id] else front
  }

  predicate Finds(findings: seq<Finding>, key: Key) {
    exists i :: 0 <= i < |findings| && findings[i].key == key
  }

  function ClaimOn(findings: seq<Finding>, key: Key): (c: Claim)
    requires Finds(findings, key)
    ensures Finding(key, c) in findings
  {
    var front, last := findings[..|findings| - 1], findings[|findings| - 1];
    if last.key == key then last.claim else
      assert Finds(front, key) by {
        var i :| 0 <= i < |findings| && findings[i].key == key;
        assert front[i] == findings[i];
      }
      ClaimOn(front, key)
  }

  /** An existing row: vetoed ones stay, active ones are refreshed or, when not found again, resolved. */
  function Settle(r: Row, existing: map<Key, nat>, findings: seq<Finding>): Row {
    if !(r.key in existing && existing[r.key] == r.id) || r.status != Active then r
    else if Finds(findings, r.key) then r.(claim := ClaimOn(findings, r.key))
    else r.(status := Resolved)
  }

  function Settled(rows: seq<Row>, existing: map<Key, nat>, findings: seq<Finding>): seq<Row> {
    seq(|rows|, i requires 0 <= i < |rows| => Settle(rows[i], existing, findings))
  }

  function Inserted(findings: seq<Finding>, existing: map<Key, nat>, next: nat, student: nat): seq<Row> {
    if findings == [] then [] else
      var front, last := Inserted(findings[..|findings| - 1], existing, next, student), findings[|findings| - 1];
      if last.key in existing then front
      else front + [Row(next + |front|, student, last.key, last.claim, Active, None)]
  }

  function Materialise(rows: seq<Row>, next: nat, student: nat, graph: set<nat>, findings: seq<Finding>): seq<Row> {
    var existing := Existing(rows, student, graph);
    Settled(rows, existing, findings) + Inserted(findings, existing, next, student)
  }

  function NextAfter(rows: seq<Row>, next: nat, student: nat, graph: set<nat>, findings: seq<Finding>): nat {
    next + |Inserted(findings, Existing(rows, student, graph), next, student)|
  }

  /** The student's active row under a key, if there is one. */
  function ActiveOn(rows: seq<Row>, student: nat, key: Key): Option<Row> {
    if rows == [] then None else
      var last := rows[|rows| - 1];
      if last.student == student && last.key == key && last.status == Active then Some(last)
      else ActiveOn(rows[..|rows| - 1], student, key)
  }

  /** What materialising returns: the active rows of its findings, in their order. */
  function ActiveList(rows: seq<Row>, student: nat, findings: seq<Finding>): seq<Row> {
    if findings == [] then [] else
      var front, row := ActiveList(rows, student, findings[..|findings| - 1]), ActiveOn(rows, student, findings[|findings| - 1].key);
      if row.Some? then front + [row.value] else front
  }

  /** What reading shows as active, in order. */
  function Shown(rows: seq<Row>, student: nat, graph: set<nat>, findings: seq<Finding>): seq<Finding> {
    if findings == [] then [] else
      var front, f := Shown(rows, student, graph, findings[..|findings| - 1]), findings[|findings| - 1];
      if Vetoed(rows, student, graph, f.key) then front else front + [f]
  }

  // ----- Verifying a prediction ------------------------------------------------------------------

  datatype Verdict = Inconclusive | Falsified | Supported

  /** Diagnostic evidence at the root: less than the configured least count decides nothing, enough mastery falsifies. */
  function Judge(count: nat, mastery: Option<real>, minEvidence: nat): Verdict {
    if count < minEvidence then Inconclusive
    else if mastery.Some? && mastery.value >= RootThreshold then Falsified
    else Supported
  }

  // ----- Runs of materialising, overriding and verifying -------------------------------------------

  datatype Table = Table(rows: seq<Row>, next: nat)

  datatype Event =
    | Materialised(student: nat, graph: set<nat>, findings: seq<Finding>)
    | TeacherOverrides(i: nat, note: Option<string>)
    | Verified(i: nat, count: nat, mastery: Option<real>, minEvidence: nat, finding: string)

  /** A teacher overrides active rows only; verification looks at active prerequisite rows with a root. */
  function Step(t: Table, e: Event): Table {
    match e
    case Materialised(student, graph, findings) =>
      Table(Materialise(t.rows, t.next, student, graph, findings), NextAfter(t.rows, t.next, student, graph, findings))
    case TeacherOverrides(i, note) =>
      if i < |t.rows| && t.rows[i].status == Active
      then t.(rows := t.rows[i := t.rows[i].(status := Overridden, note := note)]) else t
    case Verified(i, count, mastery, minEvidence, finding) =>
      if i < |t.rows| && t.rows[i].status == Active && t.rows[i].key.cause == Prerequisite && t.rows[i].claim.root.Some?
      then t.(rows := t.rows[i := t.rows[i].(status := if Judge(count, mastery, minEvidence).Falsified? then Overridden else Active, note := Some(finding))]) else t
  }

  ghost predicate DistinctKeys(findings: seq<Finding>) {
    forall i, k | 0 <= i < k < |findings| :: findings[i].key != findings[k].key
  }

  /** What the pipeline hands over: findings with distinct keys, inside the graph. */
  ghost predicate WellPosed(e: Event) {
    e.Materialised? ==>
      DistinctKeys(e.findings) && forall i | 0 <= i < |e.findings| :: e.findings[i].key.point in e.graph
  }

  ghost predicate IsRun(run: seq<Table>, events: seq<Event>) {
    && |run| == |events| + 1 && run[0] == Table([], 0)
    && forall i | 0 <= i < |events| :: WellPosed(events[i]) && run[i + 1] == Step(run[i], events[i])
  }
}
