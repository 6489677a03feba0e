/** What a plan of actions asks for, and the whole generation run. */
module PlanTheorems {
  import opened Options
  import opened Interventions
  import opened Assessments
  import opened InterventionPlan

  // ----- Sorted sets of ids ------------------------------------------------------------------

  ghost predicate Increasing(s: seq<nat>) {
    forall i, k | 0 <= i < k < |s| :: s[i] < s[k]
  }

  lemma {:induction false} InsertFacts(s: seq<nat>, x: nat)
    requires Increasing(s)
    ensures Increasing(Insert(s, x))
    ensures forall y :: y in Insert(s, x) <==> y in s || y == x
  {
    if s != [] {
      var front, last := s[..|s| - 1], s[|s| - 1];
      assert s == front + [last];
      if x < last {
        InsertFacts(front, x);
        forall i | 0 <= i < |Insert(front, x)| ensures Insert(front, x)[i] < last {
          assert Insert(front, x)[i] in Insert(front, x);
        }
      }
    }
  }

  lemma {:induction false} SortedDistinctFacts(s: seq<nat>)
    ensures Increasing(SortedDistinct(s))
    ensures forall y :: y in SortedDistinct(s) <==> y in s
  {
    if s != [] {
      SortedDistinctFacts(s[..|s| - 1]);
      InsertFacts(SortedDistinct(s[..|s| - 1]), s[|s| - 1]);
      assert s == s[..|s| - 1] + [s[|s| - 1]];
    }
  }

  lemma LastIsNew(s: seq<nat>)
    requires Increasing(s) && s != []
    ensures s[|s| - 1] !in s[..|s| - 1] && Increasing(s[..|s| - 1])
    ensures s == s[..|s| - 1] + [s[|s| - 1]]
    ensures forall x :: x in s[..|s| - 1] <==> x in s && x != s[|s| - 1]
  {
    assert s == s[..|s| - 1] + [s[|s| - 1]];
  }

  lemma SameMaximum(s: seq<nat>, t: seq<nat>)
    requires Increasing(s) && Increasing(t) && s != [] && t != []
    requires s[|s| - 1] in t && t[|t| - 1] in s
    ensures s[|s| - 1] == t[|t| - 1]
  {
  }

  /** There is one way to write a set of numbers in increasing order. */
  lemma {:induction false} IncreasingIsUnique(s: seq<nat>, t: seq<nat>)
    requires Increasing(s) && Increasing(t) && forall x :: x in s <==> x in t
    ensures s == t
  {
    hide Increasing;
    assert t != [] ==> t[0] in t;
    if s != [] {
      assert s[0] in s;
      SameMaximum(s, t);
      LastIsNew(s);
      LastIsNew(t);
      var front, front' := s[..|s| - 1], t[..|t| - 1];
      forall x ensures x in front <==> x in front' {
        assert x in s <==> x in t;
        assert x in front <==> x in s && x != s[|s| - 1];
        assert x in front' <==> x in t && x != t[|t| - 1];
      }
      IncreasingIsUnique(front, front');
    }
  }

  // ----- Needs of a student ------------------------------------------------------------------

  ghost predicate DistinctNeeds(actions: seq<Action>) {
    forall i, k | 0 <= i < k < |actions| :: actions[i].need != actions[k].need
  }

  /** The actions of one student ask for distinct points of the graph. */
  ghost predicate StudentList(actions: seq<Action>, student: nat, graph: set<nat>) {
    && DistinctNeeds(actions)
    && forall i | 0 <= i < |actions| :: actions[i].need.student == Some(student) && actions[i].need.point in graph
  }

  lemma KeptNeed(rows: seq<Row>, c: Run, f: Facts, student: nat, a: Assessment)
    ensures KeptAction(rows, c, f, student, a).Some? ==>
              KeptAction(rows, c, f, student, a).value.need == Need(Some(student), a.point)
  {
  }

  lemma {:induction false} StudentActionsAsk(rows: seq<Row>, c: Run, f: Facts, student: nat, s: seq<Assessment>, i: nat)
    requires i < |StudentActions(rows, c, f, student, s)|
    ensures exists k :: 0 <= k < |s| && KeptAction(rows, c, f, student, s[k]) == Some(StudentActions(rows, c, f, student, s)[i])
  {
    var n := |s| - 1;
    if i < |StudentActions(rows, c, f, student, s[..n])| {
      StudentActionsAsk(rows, c, f, student, s[..n], i);
      var k :| 0 <= k < n && KeptAction(rows, c, f, student, s[..n][k]) == Some(StudentActions(rows, c, f, student, s[..n])[i]);
      assert s[k] == s[..n][k];
    } else {
      assert KeptAction(rows, c, f, student, s[n]) == Some(StudentActions(rows, c, f, student, s)[i]);
    }
  }

  lemma {:induction false} KeptAreAsked(rows: seq<Row>, c: Run, f: Facts, student: nat, s: seq<Assessment>, k: nat)
    requires k < |s| && KeptAction(rows, c, f, student, s[k]).Some?
    ensures KeptAction(rows, c, f, student, s[k]).value in StudentActions(rows, c, f, student, s)
  {
    if k < |s| - 1 { KeptAreAsked(rows, c, f, student, s[..|s| - 1], k); }
  }

  lemma {:induction false} StudentActionsDistinct(rows: seq<Row>, c: Run, f: Facts, student: nat, s: seq<Assessment>)
    requires forall i, k | 0 <= i < k < |s| :: s[i].point != s[k].point
    requires forall i | 0 <= i < |s| :: s[i].point in c.graph
    ensures StudentList(StudentActions(rows, c, f, student, s), student, c.graph)
  {
    hide KeptAction;
    if s != [] {
      var n := |s| - 1;
      var front := StudentActions(rows, c, f, student, s[..n]);
      StudentActionsDistinct(rows, c, f, student, s[..n]);
      KeptNeed(rows, c, f, student, s[n]);
      forall i | 0 <= i < |front| ensures front[i].need.point != s[n].point {
        StudentActionsAsk(rows, c, f, student, s[..n], i);
        var k :| 0 <= k < n && KeptAction(rows, c, f, student, s[..n][k]) == Some(front[i]);
        KeptNeed(rows, c, f, student, s[..n][k]);
      }
    }
  }

  // ----- All students ------------------------------------------------------------------------

  /** Lists of distinct students, one list each. */
  ghost predicate ListsOf(lists: seq<seq<Action>>, roster: seq<nat>, graph: set<nat>) {
    && |lists| == |roster| && Increasing(roster)
    && forall i | 0 <= i < |lists| :: StudentList(lists[i], roster[i], graph)
  }

  lemma MarkingKeepsList(actions: seq<Action>, lists: seq<seq<Action>>, groupMin: int, student: nat, graph: set<nat>)
    requires StudentList(actions, student, graph)
    ensures StudentList(MarkedList(actions, lists, groupMin), student, graph)
  {
    var marked := MarkedList(actions, lists, groupMin);
    assert forall j | 0 <= j < |actions| :: marked[j].need == actions[j].need;
  }

  lemma {:induction false} FlattenFinds(lists: seq<seq<Action>>, i: nat)
    requires i < |Flatten(lists)|
    ensures exists k :: 0 <= k < |lists| && Flatten(lists)[i] in lists[k]
  {
    var n := |lists| - 1;
    if i < |Flatten(lists[..n])| {
      FlattenFinds(lists[..n], i);
      var k :| 0 <= k < n && Flatten(lists[..n])[i] in lists[..n][k];
      assert lists[k] == lists[..n][k];
    } else {
      assert Flatten(lists)[i] in lists[n];
    }
  }

  /** The students of a flattened list. */
  ghost predicate For(actions: seq<Action>, roster: seq<nat>, graph: set<nat>) {
    forall i | 0 <= i < |actions| ::
      actions[i].need.student.Some? && actions[i].need.student.value in roster && actions[i].need.point in graph
  }

  lemma FlattenFor(lists: seq<seq<Action>>, roster: seq<nat>, graph: set<nat>)
    requires ListsOf(lists, roster, graph)
    ensures For(Flatten(lists), roster, graph)
  {
    forall i | 0 <= i < |Flatten(lists)| ensures var need := Flatten(lists)[i].need;
        need.student.Some? && need.student.value in roster && need.point in graph
    {
      FlattenFinds(lists, i);
      var k :| 0 <= k < |lists| && Flatten(lists)[i] in lists[k];
      assert StudentList(lists[k], roster[k], graph);
    }
  }

  lemma {:induction false} FlattenDistinct(lists: seq<seq<Action>>, roster: seq<nat>, graph: set<nat>)
    requires ListsOf(lists, roster, graph)
    ensures DistinctNeeds(Flatten(lists))
  {
    if lists != [] {
      var n := |lists| - 1;
      assert ListsOf(lists[..n], roster[..n], graph) by {
        assert forall i | 0 <= i < n :: lists[..n][i] == lists[i] && roster[..n][i] == roster[i];
      }
      FlattenDistinct(lists[..n], roster[..n], graph);
      FlattenFor(lists[..n], roster[..n], graph);
      assert StudentList(lists[n], roster[n], graph);
      assert roster[n] !in roster[..n];
    }
  }

  // ----- Class-wide actions ------------------------------------------------------------------

  lemma {:induction false} ClassActionsAsk(f: Facts, points: seq<nat>, i: nat)
    requires i < |ClassActionsFor(f, points)|
    ensures var need := ClassActionsFor(f, points)[i].need; need.student == None && need.point in points && Common(f, need.point)
  {
    hide Common;
    var n := |points| - 1;
    if i < |ClassActionsFor(f, points[..n])| { ClassActionsAsk(f, points[..n], i); }
  }

  lemma {:induction false} CommonAreAsked(f: Facts, points: seq<nat>, k: nat)
    requires k < |points| && Common(f, points[k])
    ensures Asks(ClassActionsFor(f, points), Need(None, points[k]))
  {
    hide Common;
    var n := |points| - 1;
    var all := ClassActionsFor(f, points);
    if k < n {
      CommonAreAsked(f, points[..n], k);
      var i :| 0 <= i < |ClassActionsFor(f, points[..n])| && ClassActionsFor(f, points[..n])[i].need == Need(None, points[k]);
      assert all[i].need == Need(None, points[k]);
    } else {
      assert all[|all| - 1].need == Need(None, points[k]);
    }
  }

  lemma {:induction false} ClassActionsDistinct(f: Facts, points: seq<nat>)
    requires Increasing(points)
    ensures DistinctNeeds(ClassActionsFor(f, points))
  {
    hide Common, Tally;
    if points != [] {
      var n := |points| - 1;
      ClassActionsDistinct(f, points[..n]);
      forall i | 0 <= i < |ClassActionsFor(f, points[..n])| ensures ClassActionsFor(f, points[..n])[i].need.point != points[n] {
        ClassActionsAsk(f, points[..n], i);
      }
    }
  }

  lemma {:induction false} WeakPointsInGraph(s: seq<Assessment>, graph: set<nat>)
    requires forall i | 0 <= i < |s| :: s[i].point in graph
    ensures forall point | point in WeakPointsIn(s) :: point in graph
  {
    if s != [] { WeakPointsInGraph(s[..|s| - 1], graph); }
  }

  lemma {:induction false} WeakPointsAreInGraph(f: Facts, roster: seq<nat>, c: Run)
    requires WellPosed(f, c) && forall s | s in roster :: s in f.committed
    ensures forall point | point in WeakPoints(f, roster) :: point in c.graph
  {
    if roster != [] {
      var n := |roster| - 1;
      assert roster[n] in f.committed;
      WeakPointsAreInGraph(f, roster[..n], c);
      WeakPointsInGraph(f.assess(roster[n]), c.graph);
    }
  }

  // ----- Weak points are the points with a weak count -------------------------------------------

  lemma {:induction false} WeakInIffCounted(s: seq<Assessment>, point: nat)
    ensures point in WeakPointsIn(s) <==> CountedIn(s, point, true) > 0
  {
    if s != [] { WeakInIffCounted(s[..|s| - 1], point); }
  }

  lemma {:induction false} WeakIffTallied(f: Facts, roster: seq<nat>, point: nat)
    ensures point in WeakPoints(f, roster) <==> Tally(f, roster, point, true) > 0
  {
    if roster != [] {
      WeakIffTallied(f, roster[..|roster| - 1], point);
      WeakInIffCounted(f.assess(roster[|roster| - 1]), point);
    }
  }

  // ----- The plan is sound -------------------------------------------------------------------

  lemma ListsAreStudentLists(rows: seq<Row>, c: Run, f: Facts)
    requires WellPosed(f, c)
    ensures ListsOf(Lists(rows, c, f), Roster(f), c.graph)
    ensures ListsOf(Marked(Lists(rows, c, f), f.groupMin), Roster(f), c.graph)
  {
    hide StudentActions, MarkedList, SortedDistinct, StudentList;
    var roster, lists := Roster(f), Lists(rows, c, f);
    SortedDistinctFacts(f.committed);
    forall i | 0 <= i < |lists|
      ensures StudentList(lists[i], roster[i], c.graph) && StudentList(MarkedList(lists[i], lists, f.groupMin), roster[i], c.graph)
    {
      assert roster[i] in f.committed;
      StudentActionsDistinct(rows, c, f, roster[i], f.assess(roster[i]));
      MarkingKeepsList(lists[i], lists, f.groupMin, roster[i], c.graph);
    }
  }

  /** A student's part of the plan asks for a point exactly when their own list does. */
  lemma PlanAsksStudent(rows: seq<Row>, c: Run, f: Facts, i: nat)
    requires WellPosed(f, c) && i < |Flatten(Marked(Lists(rows, c, f), f.groupMin))|
    ensures var need := Flatten(Marked(Lists(rows, c, f), f.groupMin))[i].need;
            && need.student.Some? && need.student.value in Roster(f)
            && need.point in PointsAsked(StudentActions(rows, c, f, need.student.value, f.assess(need.student.value)))
  {
    hide StudentActions, Joins, SortedDistinct, Flatten;
    var roster, lists := Roster(f), Lists(rows, c, f);
    var marked := Marked(lists, f.groupMin);
    var a := Flatten(marked)[i];
    ListsAreStudentLists(rows, c, f);
    FlattenFinds(marked, i);
    var k :| 0 <= k < |marked| && a in marked[k];
    var j :| 0 <= j < |marked[k]| && marked[k][j] == a;
    assert StudentList(marked[k], roster[k], c.graph);
    assert lists[k][j].need == a.need;
    assert lists[k] == StudentActions(rows, c, f, roster[k], f.assess(roster[k]));
  }

  lemma ClassPartIsSound(rows: seq<Row>, c: Run, f: Facts)
    requires WellPosed(f, c)
    ensures DistinctNeeds(ClassActions(f))
    ensures forall i | 0 <= i < |ClassActions(f)| ::
              var need := ClassActions(f)[i].need; need.student == None && need.point in c.graph && Common(f, need.point)
  {
    hide Common, Tally, SortedDistinct, WeakPoints;
    var points := SortedDistinct(WeakPoints(f, Roster(f)));
    SortedDistinctFacts(WeakPoints(f, Roster(f)));
    SortedDistinctFacts(f.committed);
    WeakPointsAreInGraph(f, Roster(f), c);
    ClassActionsDistinct(f, points);
    forall i | 0 <= i < |ClassActions(f)| ensures
      var need := ClassActions(f)[i].need; need.student == None && need.point in c.graph && Common(f, need.point)
    {
      ClassActionsAsk(f, points, i);
    }
  }

  /** Every plan the evaluation produces is sound, so all the queue theorems apply to it. */
  lemma PlansAreSound(rows: seq<Row>, c: Run, f: Facts)
    requires WellPosed(f, c)
    ensures Sound(MakePlan(rows, c, f), c)
  {
    hide Common, Tally, WeakPoints, StudentActions, Flatten, Marked, Lists, ClassActions, ListsOf, SortedDistinct, PointsAsked, WellPosed;
    var p, shared, own := MakePlan(rows, c, f), ClassActions(f), Flatten(Marked(Lists(rows, c, f), f.groupMin));
    ClassPartIsSound(rows, c, f);
    ListsAreStudentLists(rows, c, f);
    FlattenDistinct(Marked(Lists(rows, c, f), f.groupMin), Roster(f), c.graph);
    FlattenFor(Marked(Lists(rows, c, f), f.groupMin), Roster(f), c.graph);
    forall i | 0 <= i < |p.actions| ensures p.actions[i].need.point in c.graph && !Gone(p, p.actions[i].need) {
      if i >= |shared| {
        PlanAsksStudent(rows, c, f, i - |shared|);
        assert p.actions[i] == own[i - |shared|];
      }
    }
  }
}
