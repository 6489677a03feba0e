/** The whole generation run: repeatability, archival, and what its counters count. */
module GenerationTheorems {
  import opened Options
  import opened Interventions
  import opened Assessments
  import opened InterventionPlan
  import opened InterventionTheorems
  import opened PlanTheorems
  import opened PlanMeaning

  // ----- A plan depends on the table only through what was done ---------------------------------

  lemma {:induction false} DoneAreProtected(rows: seq<Row>, c: Run, later: real, need: Need, kind: Kind)
    ensures LastDone(rows, c.(now := later), need, kind) == LastDone(ProtectedRows(rows, c), c, need, kind)
  {
    if rows != [] {
      var front, last := rows[..|rows| - 1], rows[|rows| - 1];
      DoneAreProtected(front, c, later, need, kind);
      var kept := ProtectedRows(front, c);
      if Protected(last, c) { assert (kept + [last])[..|kept|] == kept; }
    }
  }

  ghost predicate SameDone(rows: seq<Row>, c: Run, rows': seq<Row>, c': Run) {
    forall need, kind :: LastDone(rows, c, need, kind) == LastDone(rows', c', need, kind)
  }

  lemma {:induction false} SameActions(rows: seq<Row>, c: Run, rows': seq<Row>, c': Run, f: Facts, student: nat, s: seq<Assessment>)
    requires SameDone(rows, c, rows', c')
    ensures StudentActions(rows, c, f, student, s) == StudentActions(rows', c', f, student, s)
  {
    hide ActionFor, LastDone;
    if s != [] { SameActions(rows, c, rows', c', f, student, s[..|s| - 1]); }
  }

  lemma SameLists(rows: seq<Row>, c: Run, rows': seq<Row>, c': Run, f: Facts)
    requires SameDone(rows, c, rows', c')
    ensures Lists(rows, c, f) == Lists(rows', c', f)
  {
    hide StudentActions, SameDone, SortedDistinct;
    forall student, s { SameActions(rows, c, rows', c', f, student, s); }
  }

  lemma SamePlan(rows: seq<Row>, c: Run, rows': seq<Row>, c': Run, f: Facts)
    requires SameDone(rows, c, rows', c')
    ensures MakePlan(rows, c, f) == MakePlan(rows', c', f)
  {
    hide StudentActions, SameDone, Common, Recovered, SortedDistinct, Flatten, Marked, PointsAsked, Lists;
    SameLists(rows, c, rows', c', f);
    forall student, s { SameActions(rows, c, rows', c', f, student, s); }
    var roster := Roster(f);
    assert (map s | s in roster :: PointsAsked(StudentActions(rows, c, f, s, f.assess(s))))
        == (map s | s in roster :: PointsAsked(StudentActions(rows', c', f, s, f.assess(s))));
  }

  /** Running the generation again on the same facts, later, asks for exactly the same again ... */
  lemma RerunPlansTheSame(rows: seq<Row>, next: nat, c: Run, f: Facts, later: real)
    requires WellPosed(f, c)
    ensures MakePlan(Generate(rows, next, c, f), c.(now := later), f) == MakePlan(rows, c, f)
  {
    hide MakePlan, Reconcile, LastDone, ProtectedRows, WellPosed, Sound;
    var once := Generate(rows, next, c, f);
    PlansAreSound(rows, c, f);
    if f.committed != [] { HistoryIsKept(rows, next, MakePlan(rows, c, f), c); }
    forall need, kind
      ensures LastDone(once, c.(now := later), need, kind) == LastDone(rows, c, need, kind)
    {
      DoneAreProtected(once, c, later, need, kind);
      DoneAreProtected(rows, c, c.now, need, kind);
      assert c.(now := c.now) == c;
    }
    SamePlan(once, c.(now := later), rows, c, f);
  }

  function NextId(rows: seq<Row>, next: nat, c: Run, f: Facts): nat {
    if f.committed == [] then next else NextAfter(rows, next, MakePlan(rows, c, f), c)
  }

  /** ... and leaves the queue with the same content under every need. */
  lemma GenerationIsRepeatable(rows: seq<Row>, next: nat, c: Run, f: Facts, later: real, need: Need, x: Content)
    requires Keyed(rows, next) && WellPosed(f, c)
    ensures var once := Generate(rows, next, c, f);
            Suggests(Generate(once, NextId(rows, next, c, f), c.(now := later), f), c, need, x) <==> Suggests(once, c, need, x)
  {
    hide MakePlan, Reconcile, Suggests, WellPosed, Sound, Keyed;
    PlansAreSound(rows, c, f);
    RerunPlansTheSame(rows, next, c, f, later);
    if f.committed != [] { RerunSaysTheSame(rows, next, MakePlan(rows, c, f), c, later, need, x); }
  }

  /** A run that finds committed responses leaves at most one suggestion per class, student and point. */
  lemma GenerationLeavesOneSuggestion(rows: seq<Row>, next: nat, c: Run, f: Facts, i: nat, k: nat)
    requires Keyed(rows, next) && WellPosed(f, c) && f.committed != []
    requires var all := Generate(rows, next, c, f); i < k < |all| && Queued(all[i], c) && Queued(all[k], c)
    ensures Generate(rows, next, c, f)[i].need != Generate(rows, next, c, f)[k].need
  {
    hide MakePlan, Reconcile, WellPosed, Sound, Keyed;
    PlansAreSound(rows, c, f);
    OneSuggestionPerNeed(rows, next, MakePlan(rows, c, f), c, i, k);
  }

  /** A run leaves other classes, other graphs and everything done or skipped before as it was. */
  lemma GenerationKeepsHistory(rows: seq<Row>, next: nat, c: Run, f: Facts, i: nat)
    requires Keyed(rows, next) && WellPosed(f, c) && i < |rows|
    ensures ProtectedRows(Generate(rows, next, c, f), c) == ProtectedRows(rows, c)
    ensures rows[i].status != Suggested ==> rows[i] in Generate(rows, next, c, f)
  {
    hide MakePlan, Reconcile, WellPosed, Sound, Keyed, ProtectedRows, Settle, Latest;
    if f.committed != [] {
      PlansAreSound(rows, c, f);
      HistoryIsKept(rows, next, MakePlan(rows, c, f), c);
      RowFate(rows, next, MakePlan(rows, c, f), c, i);
    }
  }

  // ----- Archival --------------------------------------------------------------------------

  /** The evaluation still asks the student for the point: an assessment of it calls for some kind of
      action, and no dated last row says that this kind was done and has had no evidence since. */
  ghost predicate StillAsked(rows: seq<Row>, c: Run, f: Facts, student: nat, point: nat) {
    exists k, kind :: 0 <= k < |f.assess(student)| && f.assess(student)[k].point == point
                && Calls(f, student, f.assess(student)[k], kind) && !AwaitsRetest(rows, c, f, student, point, kind)
  }

  lemma PointsAskedIff(rows: seq<Row>, c: Run, f: Facts, student: nat, point: nat)
    ensures point in PointsAsked(StudentActions(rows, c, f, student, f.assess(student))) <==> StillAsked(rows, c, f, student, point)
  {
    hide KeptAction, StudentActions, Calls, AwaitsRetest;
    var s := f.assess(student);
    var actions := StudentActions(rows, c, f, student, s);
    forall k | 0 <= k < |s| { KeptIffAsked(rows, c, f, student, s[k]); }
    if point in PointsAsked(actions) {
      var i :| 0 <= i < |actions| && actions[i].need.point == point;
      StudentActionsAsk(rows, c, f, student, s, i);
      var k :| 0 <= k < |s| && KeptAction(rows, c, f, student, s[k]) == Some(actions[i]);
      KeptNeed(rows, c, f, student, s[k]);
    }
    if StillAsked(rows, c, f, student, point) {
      var k, kind :| 0 <= k < |s| && s[k].point == point && Calls(f, student, s[k], kind) && !AwaitsRetest(rows, c, f, student, point, kind);
      KeptNeed(rows, c, f, student, s[k]);
      KeptAreAsked(rows, c, f, student, s, k);
    }
  }

  /** Grounds for archival, in terms of the evaluation. A class-wide point needs at least one weak
      student: a point everybody has mastered is never looked at. */
  ghost predicate Unfounded(rows: seq<Row>, c: Run, f: Facts, need: Need) {
    match need.student
    case Some(s) => s in f.committed && !StillAsked(rows, c, f, s, need.point)
    case None =>
      var weak, assessed := Tally(f, Roster(f), need.point, true), Tally(f, Roster(f), need.point, false);
      weak >= 1 && assessed >= 4 && weak as real / assessed as real < f.ratio
  }

  lemma GoneIffUnfounded(rows: seq<Row>, c: Run, f: Facts, need: Need)
    ensures Gone(MakePlan(rows, c, f), need) <==> Unfounded(rows, c, f, need)
  {
    hide StudentActions, SortedDistinct, PointsAsked, StillAsked, Tally, WeakPoints, ClassActions, Flatten, Lists, Marked;
    SortedDistinctFacts(f.committed);
    if need.student.Some? {
      PointsAskedIff(rows, c, f, need.student.value, need.point);
    } else {
      WeakIffTallied(f, Roster(f), need.point);
    }
  }

  lemma SettlesToArchived(r: Row, latest: map<Need, nat>, p: Plan, c: Run)
    requires Pending(r, c) && r.need in latest && (Asks(p.actions, r.need) ==> !Gone(p, r.need))
    ensures Settle(r, latest, p, c) == Archived(r) <==> latest[r.need] == r.id && Gone(p, r.need)
  {
  }

  /** A pending suggestion is archived as unsupported exactly when it is the newest of its need
      and the evaluation leaves it unfounded. */
  lemma ArchivedIff(rows: seq<Row>, next: nat, c: Run, f: Facts, i: nat)
    requires Keyed(rows, next) && WellPosed(f, c) && f.committed != [] && i < |rows| && Pending(rows[i], c)
    ensures Archived(rows[i]) in Generate(rows, next, c, f) <==>
            Unfounded(rows, c, f, rows[i].need)
            && forall k | 0 <= k < |rows| && Pending(rows[k], c) && rows[k].need == rows[i].need :: rows[k].id <= rows[i].id
  {
    hide MakePlan, Latest, Settle, Unfounded, Gone, WellPosed, Remaining, Reconcile;
    var p, r, latest := MakePlan(rows, c, f), rows[i], Latest(Remaining(rows, c), c);
    var all := Generate(rows, next, c, f);
    PlansAreSound(rows, c, f);
    RowFate(rows, next, p, c, i);
    GoneIffUnfounded(rows, c, f, r.need);
    assert Asks(p.actions, r.need) ==> !Gone(p, r.need);
    SettlesToArchived(r, latest, p, c);
    SettleFacts(r, latest, p, c);
    ReconcileKeepsKeys(rows, next, p, c);
    assert Archived(r) in all <==> Settle(r, latest, p, c) == Archived(r) by {
      hide Pending, Sound;
      assert forall a, b | 0 <= a < b < |all| :: all[a].id != all[b].id;
    }
    NewestIffLatest(rows, next, c, i);
  }

  lemma NewestIffLatest(rows: seq<Row>, next: nat, c: Run, i: nat)
    requires Keyed(rows, next) && i < |rows| && Pending(rows[i], c)
    ensures var latest := Latest(Remaining(rows, c), c);
            && rows[i].need in latest
            && (latest[rows[i].need] == rows[i].id <==>
                forall k | 0 <= k < |rows| && Pending(rows[k], c) && rows[k].need == rows[i].need :: rows[k].id <= rows[i].id)
  {
    hide Latest, Remaining;
    var kept, need := Remaining(rows, c), rows[i].need;
    var latest := Latest(kept, c);
    LatestAreLatest(kept, c);
    UnclearedRemain(rows, c, i);
    var m :| 0 <= m < |kept| && Queued(kept[m], c) && kept[m].need == need && kept[m].id == latest[need];
    RemainingAreRows(rows, c, m);
    forall k | 0 <= k < |rows| && Pending(rows[k], c) && rows[k].need == need ensures rows[k].id <= latest[need] {
      UnclearedRemain(rows, c, k);
    }
  }

  lemma ClassNeedsAreWeak(rows: seq<Row>, c: Run, f: Facts, point: nat)
    requires WellPosed(f, c) && Asks(MakePlan(rows, c, f).actions, Need(None, point))
    ensures Tally(f, Roster(f), point, true) > 0
  {
    hide Tally, Common, WeakPoints, SortedDistinct, Flatten, Marked, Lists, ListsOf, StudentActions, PointsAsked;
    var actions := MakePlan(rows, c, f).actions;
    var i :| 0 <= i < |actions| && actions[i].need == Need(None, point);
    ListsAreStudentLists(rows, c, f);
    FlattenFor(Marked(Lists(rows, c, f), f.groupMin), Roster(f), c.graph);
    ClassActionsAsk(f, SortedDistinct(WeakPoints(f, Roster(f))), i);
    SortedDistinctFacts(WeakPoints(f, Roster(f)));
    WeakIffTallied(f, Roster(f), point);
  }

  lemma SettlesUnchanged(r: Row, latest: map<Need, nat>, p: Plan, c: Run)
    requires Pending(r, c) && r.need in latest && latest[r.need] == r.id && !Asks(p.actions, r.need) && !Gone(p, r.need)
    ensures Settle(r, latest, p, c) == r
  {
  }

  /** A class-wide suggestion for a point at which nobody is weak any more, however many were
      assessed, comes through the run unchanged. */
  lemma MasteredPointsAreNotLookedAt(rows: seq<Row>, next: nat, c: Run, f: Facts, i: nat)
    requires Keyed(rows, next) && WellPosed(f, c) && i < |rows| && Pending(rows[i], c) && rows[i].need.student == None
    requires forall k | 0 <= k < |rows| && Pending(rows[k], c) && rows[k].need == rows[i].need :: rows[k].id <= rows[i].id
    requires Tally(f, Roster(f), rows[i].need.point, true) == 0
    ensures rows[i] in Generate(rows, next, c, f)
  {
    hide MakePlan, Latest, Settle, Gone, WellPosed, Remaining, Reconcile, Tally, Asks;
    if f.committed != [] {
      var p, r, latest := MakePlan(rows, c, f), rows[i], Latest(Remaining(rows, c), c);
      RowFate(rows, next, p, c, i);
      NewestIffLatest(rows, next, c, i);
      GoneIffUnfounded(rows, c, f, r.need);
      if Asks(p.actions, r.need) {
        ClassNeedsAreWeak(rows, c, f, r.need.point);
      }
      SettlesUnchanged(r, latest, p, c);
    }
  }

  // ----- What the counters count -----------------------------------------------------------------

  /** Past the gate, with a mastery at the point, and weak there if that is asked for. */
  ghost predicate AssessedAt(s: seq<Assessment>, point: nat, weakOnly: bool) {
    exists k :: 0 <= k < |s| && s[k].point == point && s[k].gate == Open && s[k].mastery.Some? && (weakOnly ==> s[k].weak)
  }

  /** Assessed (or weak) students at a point. */
  ghost function StudentsAt(f: Facts, roster: seq<nat>, point: nat, weakOnly: bool): set<nat> {
    set s | s in roster && AssessedAt(f.assess(s), point, weakOnly)
  }

  lemma {:induction false} CountedIffAssessed(s: seq<Assessment>, point: nat, weakOnly: bool)
    ensures CountedIn(s, point, weakOnly) > 0 <==> AssessedAt(s, point, weakOnly)
  {
    if s != [] {
      var n := |s| - 1;
      CountedIffAssessed(s[..n], point, weakOnly);
      assert s == s[..n] + [s[n]];
      if AssessedAt(s[..n], point, weakOnly) {
        var k :| 0 <= k < n && s[..n][k].point == point && s[..n][k].gate == Open && s[..n][k].mastery.Some? && (weakOnly ==> s[..n][k].weak);
        assert s[k] == s[..n][k];
      }
    }
  }

  lemma {:induction false} CountedOnce(s: seq<Assessment>, point: nat, weakOnly: bool)
    requires forall i, k | 0 <= i < k < |s| :: s[i].point != s[k].point
    ensures CountedIn(s, point, weakOnly) <= 1
    ensures (forall i | 0 <= i < |s| :: s[i].point != point) ==> CountedIn(s, point, weakOnly) == 0
  {
    if s != [] { CountedOnce(s[..|s| - 1], point, weakOnly); }
  }

  lemma StudentsStep(f: Facts, front: seq<nat>, last: nat, point: nat, weakOnly: bool)
    requires last !in front
    ensures |StudentsAt(f, front + [last], point, weakOnly)| ==
            |StudentsAt(f, front, point, weakOnly)| + if AssessedAt(f.assess(last), point, weakOnly) then 1 else 0
  {
    hide AssessedAt;
    var before, after := StudentsAt(f, front, point, weakOnly), StudentsAt(f, front + [last], point, weakOnly);
    if AssessedAt(f.assess(last), point, weakOnly) {
      assert after == before + {last};
    } else {
      assert after == before;
    }
  }

  /** The class statistics count students: with one assessment per point, nobody counts twice. */
  lemma {:induction false} TalliesCountStudents(f: Facts, c: Run, roster: seq<nat>, point: nat, weakOnly: bool)
    requires WellPosed(f, c) && Increasing(roster) && forall s | s in roster :: s in f.committed
    ensures Tally(f, roster, point, weakOnly) == |StudentsAt(f, roster, point, weakOnly)|
  {
    hide CountedIn, Increasing, StudentsAt, AssessedAt;
    if roster != [] {
      var front, last := roster[..|roster| - 1], roster[|roster| - 1];
      LastIsNew(roster);
      TalliesCountStudents(f, c, front, point, weakOnly);
      assert last in f.committed;
      CountedOnce(f.assess(last), point, weakOnly);
      CountedIffAssessed(f.assess(last), point, weakOnly);
      StudentsStep(f, front, last, point, weakOnly);
    } else {
      NobodyAt(f, point, weakOnly);
    }
  }

  lemma NobodyAt(f: Facts, point: nat, weakOnly: bool)
    ensures StudentsAt(f, [], point, weakOnly) == {}
  {
  }

  /** Students with a row of the root. */
  function Holders(lists: seq<seq<Action>>, root: nat): nat {
    if lists == [] then 0
    else Holders(lists[..|lists| - 1], root) + if RootCount(lists[|lists| - 1], root) > 0 then 1 else 0
  }

  /** The group note counts rows. It counts students exactly when no student has the root twice. */
  lemma {:induction false} MembersAreStudentsIff(lists: seq<seq<Action>>, root: nat)
    ensures Members(lists, root) >= Holders(lists, root)
    ensures Members(lists, root) == Holders(lists, root) <==> forall i | 0 <= i < |lists| :: RootCount(lists[i], root) <= 1
  {
    if lists != [] {
      var n := |lists| - 1;
      MembersAreStudentsIff(lists[..n], root);
      assert forall i | 0 <= i < n :: lists[..n][i] == lists[i];
    }
  }

  // ----- One student can be a group ------------------------------------------------------------------

  function WeakAt(point: nat): Assessment {
    Assessment(point, Open, Some(0.3), true, false, 0.6, None, None)
  }

  /** One student has committed, is weak at points 0, 1 and 2, and all three go back to one root. */
  function OneStudentFacts(student: nat, root: nat): Facts {
    Facts([student], (_: nat) => [WeakAt(0), WeakAt(1), WeakAt(2)], (_: nat, _: nat) => [Finding(Prerequisite, Some(root), [])],
          (_: nat, _: nat, _: Cause) => None, (_: nat, _: nat) => [], (_: string) => None, (_: nat) => [], 3, 0.4)
  }

  function Backfill(student: nat, point: nat, root: nat): Action {
    Action(Need(Some(student), point), PrereqBackfill, Single, None, Some(root), NoNote)
  }

  lemma OneInRoster(student: nat, root: nat)
    ensures Roster(OneStudentFacts(student, root)) == [student]
  {
    var s := [student];
    assert SortedDistinct(s[..0]) == [];
    assert s[|s| - 1] == student;
  }

  lemma KeepsBackfill(student: nat, root: nat, c: Run, point: nat)
    ensures KeptAction([], c, OneStudentFacts(student, root), student, WeakAt(point)) == Some(Backfill(student, point, root))
  {
    var f := OneStudentFacts(student, root);
    assert LastOf(f.findings(student, point), Prerequisite) == Some(Finding(Prerequisite, Some(root), []));
  }

  lemma ActionsStep(student: nat, root: nat, c: Run, s: seq<Assessment>, point: nat)
    ensures var f := OneStudentFacts(student, root);
            StudentActions([], c, f, student, s + [WeakAt(point)]) == StudentActions([], c, f, student, s) + [Backfill(student, point, root)]
  {
    hide KeptAction, OneStudentFacts;
    KeepsBackfill(student, root, c, point);
    assert (s + [WeakAt(point)])[..|s|] == s;
  }

  lemma OneStudentActions(student: nat, root: nat, c: Run)
    ensures Lists([], c, OneStudentFacts(student, root)) == [[Backfill(student, 0, root), Backfill(student, 1, root), Backfill(student, 2, root)]]
  {
    var f := OneStudentFacts(student, root);
    OneInRoster(student, root);
    ActionsStep(student, root, c, [], 0);
    ActionsStep(student, root, c, [WeakAt(0)], 1);
    ActionsStep(student, root, c, [WeakAt(0), WeakAt(1)], 2);
    assert StudentActions([], c, f, student, []) == [];
    hide KeptAction, StudentActions, SortedDistinct;
    assert [] + [WeakAt(0)] == [WeakAt(0)] && [WeakAt(0)] + [WeakAt(1)] == [WeakAt(0), WeakAt(1)];
    assert f.assess(student) == [WeakAt(0), WeakAt(1)] + [WeakAt(2)];
    var list, lists := [Backfill(student, 0, root), Backfill(student, 1, root), Backfill(student, 2, root)], Lists([], c, f);
    assert StudentActions([], c, f, student, f.assess(student)) == [] + [list[0]] + [list[1]] + [list[2]];
    assert [] + [list[0]] + [list[1]] + [list[2]] == list;
    assert |lists| == 1 && lists[0] == list;
    assert lists == [list];
  }

  lemma NobodyIsCommon(student: nat, root: nat, point: nat)
    ensures !Common(OneStudentFacts(student, root), point)
  {
    var f := OneStudentFacts(student, root);
    var s := [WeakAt(0), WeakAt(1), WeakAt(2)];
    OneInRoster(student, root);
    assert [student][..0] == [];
    assert f.assess(student) == s;
    CountedOnce(s, point, false);
    assert Tally(f, [], point, false) == 0;
  }

  lemma {:induction false} NoClassActions(student: nat, root: nat, points: seq<nat>)
    ensures ClassActionsFor(OneStudentFacts(student, root), points) == []
  {
    hide Common, Tally;
    if points != [] {
      NoClassActions(student, root, points[..|points| - 1]);
      NobodyIsCommon(student, root, points[|points| - 1]);
    }
  }

  lemma ThreeRowsOneHolder(student: nat, root: nat)
    ensures var list := [Backfill(student, 0, root), Backfill(student, 1, root), Backfill(student, 2, root)];
            Members([list], root) == 3 && Holders([list], root) == 1
  {
    var list := [Backfill(student, 0, root), Backfill(student, 1, root), Backfill(student, 2, root)];
    assert list[..2][..1] == [list[0]] && list[..2] == [list[0], list[1]] && [list[0]][..0] == [];
    assert RootCount([list[0]], root) == 1 && RootCount(list[..2], root) == 2 && RootCount(list, root) == 3;
    assert Members([list][..0], root) == 0 && Holders([list][..0], root) == 0;
  }

  /** From the evaluation of a single student with three weak points of one root, the plan makes the
      first of them a member of a "group of three"; the group has one holder. */
  lemma OneStudentCanBeAGroup(student: nat, root: nat, c: Run)
    requires {0, 1, 2} <= c.graph
    ensures var f := OneStudentFacts(student, root);
            && WellPosed(f, c)
            && MakePlan([], c, f).actions == [Backfill(student, 0, root).(scope := Group, note := SameRoot(3)),
                                              Backfill(student, 1, root), Backfill(student, 2, root)]
            && Holders(Lists([], c, f), root) == 1
  {
    var f := OneStudentFacts(student, root);
    var list := [Backfill(student, 0, root), Backfill(student, 1, root), Backfill(student, 2, root)];
    OneInRoster(student, root);
    OneStudentActions(student, root, c);
    ThreeRowsOneHolder(student, root);
    NoClassActions(student, root, SortedDistinct(WeakPoints(f, Roster(f))));
    hide Lists, Members, Holders, ClassActionsFor, WeakPoints, SortedDistinct, StudentActions, Recovered;
    var marked := [list[0].(scope := Group, note := SameRoot(3)), list[1], list[2]];
    assert !Joins(list, 1, [list], 3) by { assert HasRoot(list[0], root); }
    assert !Joins(list, 2, [list], 3) by { assert HasRoot(list[0], root); }
    assert Joins(list, 0, [list], 3);
    assert MarkedList(list, [list], 3) == marked;
    assert Marked([list], 3) == [marked];
    assert Flatten([marked][..0]) == [];
    assert Flatten([marked]) == marked;
  }
}
