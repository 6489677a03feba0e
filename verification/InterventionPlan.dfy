/** From assessments to a plan of actions: backend/app/intervention.py. */
module InterventionPlan {
  import opened Options
  import opened Interventions
  import opened Assessments

  /** An active attribution; `confusedWith` lists its evidence, "" where an entry names no code. */
  datatype Finding = Finding(cause: Cause, root: Option<nat>, confusedWith: seq<string>)

  /** What the run reads: the committed responses' students, their assessments (one per point of
      the graph), active attributions and stored attribution ids, evidence times, the graph's
      codes and confusable partners, and the two configured thresholds. */
  datatype Facts = Facts(
    committed: seq<nat>,
    assess: nat -> seq<Assessment>,
    findings: (nat, nat) -> seq<Finding>,
    attribution: (nat, nat, Cause) -> Option<nat>,
    events: (nat, nat) -> seq<real>,
    byCode: string -> Option<nat>,
    partners: nat -> seq<nat>,
    groupMin: int,
    ratio: real)

  const CogGap: real := 0.10

  // ----- One student, one point -----------------------------------------------------------

  predicate TierDrillHit(a: Assessment) {
    a.weak && a.recall.Some? && a.apply.Some? && a.recall.value >= a.floor && a.apply.value < a.floor - CogGap
  }

  /** The last finding of a cause wins. */
  function LastOf(findings: seq<Finding>, cause: Cause): Option<Finding> {
    if findings == [] then None
    else if findings[|findings| - 1].cause == cause then Some(findings[|findings| - 1])
    else LastOf(findings[..|findings| - 1], cause)
  }

  function FirstCode(codes: seq<string>): string {
    if codes == [] then "" else if codes[0] != "" then codes[0] else FirstCode(codes[1..])
  }

  datatype Pick = NoCause | Root(root: Option<nat>) | Review | Contrast(code: string)

  /** Prerequisite before forgetting before confusion. */
  function PickAttribution(findings: seq<Finding>): Pick {
    var prerequisite, confusable := LastOf(findings, Prerequisite), LastOf(findings, Confusable);
    if prerequisite.Some? then Root(prerequisite.value.root)
    else if LastOf(findings, Forgetting).Some? then Review
    else if confusable.Some? then Contrast(FirstCode(confusable.value.confusedWith))
    else NoCause
  }

  function Partner(f: Facts, point: nat, code: string): Option<nat> {
    var named := if code == "" then None else f.byCode(code);
    if named.Some? then named
    else if f.partners(point) == [] then None
    else Some(f.partners(point)[0])
  }

  /** The one action a point calls for, if any. */
  function ActionFor(f: Facts, student: nat, a: Assessment): Option<Action> {
    var need := Need(Some(student), a.point);
    if a.gate == Insufficient then Some(Action(need, EvidenceBoost, Single, None, None, NoNote))
    else if a.gate != Open || a.mastery.None? || !a.weak then None
    else if TierDrillHit(a) then Some(Action(need, TierDrill, Single, None, None, NoNote))
    else match PickAttribution(f.findings(student, a.point))
      case NoCause => None
      case Root(root) =>
        if root.None? then None
        else Some(Action(need, PrereqBackfill, Single, f.attribution(student, a.point, Prerequisite), root, NoNote))
      case Review => Some(Action(need, SpacedReview, Single, f.attribution(student, a.point, Forgetting), None, NoNote))
      case Contrast(code) =>
        Some(Action(need, ContrastPractice, Single, f.attribution(student, a.point, Confusable), Partner(f, a.point, code), NoNote))
  }

  // ----- What was done already -------------------------------------------------------------

  /** The last done row of the class and graph for this need and kind. */
  function LastDone(rows: seq<Row>, c: Run, need: Need, kind: Kind): Option<Row> {
    if rows == [] then None else
      var last := rows[|rows| - 1];
      if last.classId == c.classId && last.need.point in c.graph && last.status == Done && last.need == need && last.kind == kind
      then Some(last)
      else LastDone(rows[..|rows| - 1], c, need, kind)
  }

  predicate SomethingAfter(events: seq<real>, t: real) {
    exists i :: 0 <= i < |events| && events[i] > t
  }

  /** Done and not yet retested: not asked again. Retested and still weak: asked a second time. */
  function KeptAction(rows: seq<Row>, c: Run, f: Facts, student: nat, a: Assessment): Option<Action> {
    var asked := ActionFor(f, student, a);
    if asked.None? then None else
      var done := LastDone(rows, c, asked.value.need, asked.value.kind);
      if done.Some? && done.value.doneAt.Some? then
        if SomethingAfter(f.events(student, a.point), done.value.doneAt.value)
        then Some(asked.value.(note := SecondTry)) else None
      else asked
  }

  function AppendAction(actions: seq<Action>, a: Option<Action>): seq<Action> {
    if a.Some? then actions + [a.value] else actions
  }

  function StudentActions(rows: seq<Row>, c: Run, f: Facts, student: nat, assessments: seq<Assessment>): seq<Action> {
    if assessments == [] then [] else
      AppendAction(StudentActions(rows, c, f, student, assessments[..|assessments| - 1]),
                   KeptAction(rows, c, f, student, assessments[|assessments| - 1]))
  }

  // ----- Sorted sets of ids ------------------------------------------------------------------

  function Insert(sorted: seq<nat>, x: nat): seq<nat> {
    if sorted == [] then [x]
    else
      var front, last := sorted[..|sorted| - 1], sorted[|sorted| - 1];
      if x == last then sorted
      else if last < x then sorted + [x]
      else Insert(front, x) + [last]
  }

  function SortedDistinct(s: seq<nat>): seq<nat> {
    if s == [] then [] else Insert(SortedDistinct(s[..|s| - 1]), s[|s| - 1])
  }

  function Roster(f: Facts): seq<nat> {
    SortedDistinct(f.committed)
  }

  function Lists(rows: seq<Row>, c: Run, f: Facts): seq<seq<Action>> {
    var roster := Roster(f);
    seq(|roster|, i requires 0 <= i < |roster| => StudentActions(rows, c, f, roster[i], f.assess(roster[i])))
  }

  // ----- Groups with one root -----------------------------------------------------------------

  predicate HasRoot(a: Action, root: nat) {
    a.kind == PrereqBackfill && a.root == Some(root)
  }

  function RootCount(actions: seq<Action>, root: nat): nat {
    if actions == [] then 0
    else RootCount(actions[..|actions| - 1], root) + if HasRoot(actions[|actions| - 1], root) then 1 else 0
  }

  /** Rows, not students, that share the root. */
  function Members(lists: seq<seq<Action>>, root: nat): nat {
    if lists == [] then 0 else Members(lists[..|lists| - 1], root) + RootCount(lists[|lists| - 1], root)
  }

  /** A student's first row of a root is the one that joins the group. */
  predicate Joins(actions: seq<Action>, j: nat, lists: seq<seq<Action>>, groupMin: int)
    requires j < |actions|
  {
    && actions[j].kind == PrereqBackfill && actions[j].root.Some?
    && Members(lists, actions[j].root.value) >= groupMin
    && forall k | 0 <= k < j :: !HasRoot(actions[k], actions[j].root.value)
  }

  function MarkedList(actions: seq<Action>, lists: seq<seq<Action>>, groupMin: int): seq<Action> {
    seq(|actions|, j requires 0 <= j < |actions| =>
      if Joins(actions, j, lists, groupMin)
      then actions[j].(scope := Group, note := SameRoot(Members(lists, actions[j].root.value)))
      else actions[j])
  }

  function Marked(lists: seq<seq<Action>>, groupMin: int): seq<seq<Action>> {
    seq(|lists|, i requires 0 <= i < |lists| => MarkedList(lists[i], lists, groupMin))
  }

  function Flatten(lists: seq<seq<Action>>): seq<Action> {
    if lists == [] then [] else Flatten(lists[..|lists| - 1]) + lists[|lists| - 1]
  }

  // ----- The class as a whole -----------------------------------------------------------------

  predicate Counted(a: Assessment) {
    a.gate == Open && a.mastery.Some?
  }

  function CountedIn(assessments: seq<Assessment>, point: nat, weakOnly: bool): nat {
    if assessments == [] then 0 else
      var last := assessments[|assessments| - 1];
      CountedIn(assessments[..|assessments| - 1], point, weakOnly)
      + if last.point == point && Counted(last) && (weakOnly ==> last.weak) then 1 else 0
  }

  function Tally(f: Facts, roster: seq<nat>, point: nat, weakOnly: bool): nat {
    if roster == [] then 0
    else Tally(f, roster[..|roster| - 1], point, weakOnly) + CountedIn(f.assess(roster[|roster| - 1]), point, weakOnly)
  }

  function WeakPointsIn(assessments: seq<Assessment>): seq<nat> {
    if assessments == [] then [] else
      var last := assessments[|assessments| - 1];
      WeakPointsIn(assessments[..|assessments| - 1]) + if Counted(last) && last.weak then [last.point] else []
  }

  function WeakPoints(f: Facts, roster: seq<nat>): seq<nat> {
    if roster == [] then [] else WeakPoints(f, roster[..|roster| - 1]) + WeakPointsIn(f.assess(roster[|roster| - 1]))
  }

  function Share(weak: nat, assessed: nat): real
    requires assessed > 0
  {
    weak as real / assessed as real
  }

  predicate Common(f: Facts, point: nat) {
    var weak, assessed := Tally(f, Roster(f), point, true), Tally(f, Roster(f), point, false);
    assessed >= 4 && Share(weak, assessed) >= f.ratio
  }

  predicate Recovered(f: Facts, point: nat) {
    var weak, assessed := Tally(f, Roster(f), point, true), Tally(f, Roster(f), point, false);
    !Common(f, point) && assessed >= 4 && Share(weak, assessed) < f.ratio
  }

  function ClassActionsFor(f: Facts, points: seq<nat>): seq<Action> {
    if points == [] then [] else
      var front, point := ClassActionsFor(f, points[..|points| - 1]), points[|points| - 1];
      if Common(f, point)
      then front + [Action(Need(None, point), Reteach, WholeClass, None, None,
                           ShareWeak(Tally(f, Roster(f), point, true), Tally(f, Roster(f), point, false)))]
      else front
  }

  function ClassActions(f: Facts): seq<Action> {
    ClassActionsFor(f, SortedDistinct(WeakPoints(f, Roster(f))))
  }

  // ----- The plan ----------------------------------------------------------------------------

  function PointsAsked(actions: seq<Action>): set<nat> {
    set i | 0 <= i < |actions| :: actions[i].need.point
  }

  function MakePlan(rows: seq<Row>, c: Run, f: Facts): Plan {
    var roster, lists := Roster(f), Lists(rows, c, f);
    Plan(ClassActions(f) + Flatten(Marked(lists, f.groupMin)),
         map s | s in roster :: PointsAsked(StudentActions(rows, c, f, s, f.assess(s))),
         set point | point in WeakPoints(f, roster) && Recovered(f, point))
  }

  /** The assessments of a student: one per point, all in the graph. */
  ghost predicate WellPosed(f: Facts, c: Run) {
    forall s | s in f.committed ::
      && (forall i | 0 <= i < |f.assess(s)| :: f.assess(s)[i].point in c.graph)
      && (forall i, k | 0 <= i < k < |f.assess(s)| :: f.assess(s)[i].point != f.assess(s)[k].point)
  }

  /** The whole operation; with no committed response nothing is touched. */
  function Generate(rows: seq<Row>, next: nat, c: Run, f: Facts): seq<Row> {
    if f.committed == [] then rows else Reconcile(rows, next, MakePlan(rows, c, f), c)
  }
}
