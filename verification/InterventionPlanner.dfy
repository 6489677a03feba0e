/** The loops that turn assessments into a plan: backend/app/intervention.py. */
module InterventionPlanner {
  import opened Options
  import opened Interventions
  import opened Assessments
  import opened InterventionPlan
  import opened PlanTheorems

  // ----- Students --------------------------------------------------------------------------

  method StudentRows(rows: seq<Row>, c: Run, f: Facts, student: nat) returns (kept: seq<Action>)
    ensures kept == StudentActions(rows, c, f, student, f.assess(student))
  {
    hide KeptAction;
    var s := f.assess(student);
    kept := [];
    for i := 0 to |s|
      invariant kept == StudentActions(rows, c, f, student, s[..i])
    {
      assert s[..i + 1][..i] == s[..i];
      kept := AppendAction(kept, KeptAction(rows, c, f, student, s[i]));
    }
    assert s[..|s|] == s;
  }

  method AllRows(rows: seq<Row>, c: Run, f: Facts, roster: seq<nat>) returns (lists: seq<seq<Action>>, asked: map<nat, set<nat>>)
    requires roster == Roster(f)
    ensures lists == Lists(rows, c, f)
    ensures asked == map s | s in roster :: PointsAsked(StudentActions(rows, c, f, s, f.assess(s)))
  {
    hide StudentActions, SortedDistinct, PointsAsked;
    lists, asked := [], map[];
    for i := 0 to |roster|
      invariant |lists| == i
      invariant forall k | 0 <= k < i :: lists[k] == StudentActions(rows, c, f, roster[k], f.assess(roster[k]))
      invariant asked.Keys == (set s | s in roster[..i])
      invariant forall s | s in asked :: asked[s] == PointsAsked(StudentActions(rows, c, f, s, f.assess(s)))
    {
      var kept := StudentRows(rows, c, f, roster[i]);
      lists, asked := lists + [kept], asked[roster[i] := PointsAsked(kept)];
      assert roster[..i + 1] == roster[..i] + [roster[i]];
    }
    assert roster[..|roster|] == roster;
  }

  // ----- Counting --------------------------------------------------------------------------

  function Count(m: map<nat, nat>, point: nat): nat {
    if point in m then m[point] else 0
  }

  function Bump(m: map<nat, nat>, point: nat): map<nat, nat> {
    m[point := Count(m, point) + 1]
  }

  /** The dictionary counts the first students in full and the next one up to an assessment. */
  ghost predicate Counts(m: map<nat, nat>, f: Facts, roster: seq<nat>, s: seq<Assessment>, weakOnly: bool) {
    forall point :: Count(m, point) == Tally(f, roster, point, weakOnly) + CountedIn(s, point, weakOnly)
                    && (point in m <==> Count(m, point) > 0)
  }

  lemma CountStep(m: map<nat, nat>, f: Facts, roster: seq<nat>, s: seq<Assessment>, j: nat, weakOnly: bool)
    requires j < |s| && Counts(m, f, roster, s[..j], weakOnly)
    ensures Counts(if Counted(s[j]) && (weakOnly ==> s[j].weak) then Bump(m, s[j].point) else m, f, roster, s[..j + 1], weakOnly)
  {
    hide Tally;
    assert s[..j + 1][..j] == s[..j];
  }

  lemma CountNext(m: map<nat, nat>, f: Facts, roster: seq<nat>, i: nat, weakOnly: bool)
    requires i < |roster| && Counts(m, f, roster[..i], f.assess(roster[i]), weakOnly)
    ensures Counts(m, f, roster[..i + 1], [], weakOnly)
  {
    assert roster[..i + 1][..i] == roster[..i];
  }

  /** Counts assessed and weak students per point, and lists the weak points as they turn up. */
  method CountPoints(f: Facts, roster: seq<nat>) returns (weak: map<nat, nat>, assessed: map<nat, nat>, points: seq<nat>)
    ensures forall point :: Count(weak, point) == Tally(f, roster, point, true) && (point in weak <==> Count(weak, point) > 0)
    ensures forall point :: Count(assessed, point) == Tally(f, roster, point, false)
    ensures forall point :: point in points <==> point in weak
  {
    hide Tally, CountedIn, Count;
    weak, assessed, points := map[], map[], [];
    assert roster[..0] == [];
    NothingCounted(f);
    for i := 0 to |roster|
      invariant Counts(weak, f, roster[..i], [], true) && Counts(assessed, f, roster[..i], [], false)
      invariant forall point :: point in points <==> point in weak
    {
      var s := f.assess(roster[i]);
      assert s[..0] == [];
      for j := 0 to |s|
        invariant Counts(weak, f, roster[..i], s[..j], true) && Counts(assessed, f, roster[..i], s[..j], false)
        invariant forall point :: point in points <==> point in weak
      {
        CountStep(weak, f, roster[..i], s, j, true);
        CountStep(assessed, f, roster[..i], s, j, false);
        if Counted(s[j]) {
          assessed := Bump(assessed, s[j].point);
          if s[j].weak {
            if s[j].point !in weak { points := points + [s[j].point]; }
            weak := Bump(weak, s[j].point);
          }
        }
      }
      assert s[..|s|] == s;
      CountNext(weak, f, roster, i, true);
      CountNext(assessed, f, roster, i, false);
    }
    assert roster[..|roster|] == roster;
    CountsDone(weak, f, roster, true);
    CountsDone(assessed, f, roster, false);
  }

  lemma NothingCounted(f: Facts)
    ensures Counts(map[], f, [], [], true) && Counts(map[], f, [], [], false)
  {
  }

  lemma CountsDone(m: map<nat, nat>, f: Facts, roster: seq<nat>, weakOnly: bool)
    requires Counts(m, f, roster, [], weakOnly)
    ensures forall point :: Count(m, point) == Tally(f, roster, point, weakOnly) && (point in m <==> Count(m, point) > 0)
  {
  }

  method ClassRows(f: Facts, weak: map<nat, nat>, assessed: map<nat, nat>, points: seq<nat>) returns (actions: seq<Action>)
    requires forall point :: Count(weak, point) == Tally(f, Roster(f), point, true) && (point in weak <==> Count(weak, point) > 0)
    requires forall point :: Count(assessed, point) == Tally(f, Roster(f), point, false)
    requires forall point :: point in points <==> point in weak
    ensures actions == ClassActions(f)
  {
    hide Tally, SortedDistinct, Roster, WeakPoints;
    var sorted := SortedDistinct(points);
    SortedDistinctFacts(points);
    SortedDistinctFacts(WeakPoints(f, Roster(f)));
    forall point ensures point in WeakPoints(f, Roster(f)) <==> point in sorted {
      WeakIffTallied(f, Roster(f), point);
    }
    IncreasingIsUnique(sorted, SortedDistinct(WeakPoints(f, Roster(f))));
    actions := [];
    for i := 0 to |sorted|
      invariant actions == ClassActionsFor(f, sorted[..i])
    {
      assert sorted[..i + 1][..i] == sorted[..i];
      var point := sorted[i];
      var c, n := Count(weak, point), Count(assessed, point);
      if n >= 4 && c as real / n as real >= f.ratio {
        actions := actions + [Action(Need(None, point), Reteach, WholeClass, None, None, ShareWeak(c, n))];
      }
    }
    assert sorted[..|sorted|] == sorted;
  }

  // ----- Groups ----------------------------------------------------------------------------

  function RootsOf(lists: seq<seq<Action>>): set<nat> {
    set i, j | 0 <= i < |lists| && 0 <= j < |lists[i]| && lists[i][j].kind == PrereqBackfill && lists[i][j].root.Some? ::
      lists[i][j].root.value
  }

  function GroupRoots(lists: seq<seq<Action>>, groupMin: int): set<nat> {
    set root | root in RootsOf(lists) && Members(lists, root) >= groupMin
  }

  lemma {:induction false} RootCounted(actions: seq<Action>, root: nat)
    ensures RootCount(actions, root) > 0 <==> exists j :: 0 <= j < |actions| && HasRoot(actions[j], root)
  {
    if actions != [] {
      var n := |actions| - 1;
      RootCounted(actions[..n], root);
      if j :| 0 <= j < |actions| && HasRoot(actions[j], root) {
        if j < n { assert HasRoot(actions[..n][j], root); }
      }
      if RootCount(actions[..n], root) > 0 {
        var j :| 0 <= j < n && HasRoot(actions[..n][j], root);
        assert HasRoot(actions[j], root);
      }
    }
  }

  function Who(members: map<nat, seq<nat>>, root: nat): seq<nat> {
    if root in members then members[root] else []
  }

  /** Who is listed under a root after `i` lists and a part of the next: everybody who has a row
      of it, as often as they have one. */
  ghost predicate Listed(who: seq<nat>, lists: seq<seq<Action>>, i: nat, part: seq<Action>, root: nat)
    requires i <= |lists|
  {
    && |who| == Members(lists[..i], root) + RootCount(part, root)
    && (forall k | k in who :: k < |lists| && RootCount(lists[k], root) > 0)
    && (forall k | 0 <= k < i && RootCount(lists[k], root) > 0 :: k in who)
    && (RootCount(part, root) > 0 ==> i in who)
  }

  lemma ListedStep(who: seq<nat>, lists: seq<seq<Action>>, i: nat, j: nat, root: nat)
    requires i < |lists| && j < |lists[i]| && Listed(who, lists, i, lists[i][..j], root)
    ensures Listed(if HasRoot(lists[i][j], root) then who + [i] else who, lists, i, lists[i][..j + 1], root)
  {
    var actions := lists[i];
    assert actions[..j + 1][..j] == actions[..j];
    if HasRoot(actions[j], root) { RootCounted(actions, root); }
  }

  lemma ListedNext(who: seq<nat>, lists: seq<seq<Action>>, i: nat, root: nat)
    requires i < |lists| && Listed(who, lists, i, lists[i], root)
    ensures Listed(who, lists, i + 1, [], root)
  {
    assert lists[..i + 1][..i] == lists[..i];
  }

  ghost predicate AllListed(members: map<nat, seq<nat>>, lists: seq<seq<Action>>, i: nat, part: seq<Action>)
    requires i <= |lists|
  {
    forall root :: Listed(Who(members, root), lists, i, part, root) && (root in members <==> Who(members, root) != [])
  }

  lemma AllListedStep(members: map<nat, seq<nat>>, lists: seq<seq<Action>>, i: nat, j: nat)
    requires i < |lists| && j < |lists[i]| && AllListed(members, lists, i, lists[i][..j])
    ensures var a := lists[i][j];
            AllListed(if a.kind == PrereqBackfill && a.root.Some? then members[a.root.value := Who(members, a.root.value) + [i]] else members,
                      lists, i, lists[i][..j + 1])
  {
    hide Listed;
    forall root { ListedStep(Who(members, root), lists, i, j, root); }
  }

  lemma AllListedNext(members: map<nat, seq<nat>>, lists: seq<seq<Action>>, i: nat)
    requires i < |lists| && AllListed(members, lists, i, lists[i])
    ensures AllListed(members, lists, i + 1, [])
  {
    hide Listed;
    forall root { ListedNext(Who(members, root), lists, i, root); }
  }

  method MembersByRoot(lists: seq<seq<Action>>) returns (members: map<nat, seq<nat>>)
    ensures AllListed(members, lists, |lists|, [])
  {
    hide Listed;
    members := map[];
    NobodyListed(lists);
    for i := 0 to |lists|
      invariant AllListed(members, lists, i, [])
    {
      assert lists[i][..0] == [];
      for j := 0 to |lists[i]|
        invariant AllListed(members, lists, i, lists[i][..j])
      {
        AllListedStep(members, lists, i, j);
        var a := lists[i][j];
        if a.kind == PrereqBackfill && a.root.Some? {
          members := members[a.root.value := Who(members, a.root.value) + [i]];
        }
      }
      assert lists[i][..|lists[i]|] == lists[i];
      AllListedNext(members, lists, i);
    }
  }

  lemma NobodyListed(lists: seq<seq<Action>>)
    ensures AllListed(map[], lists, 0, [])
  {
    assert lists[..0] == [];
  }

  method FirstOf(actions: seq<Action>, root: nat) returns (j: nat)
    requires exists k :: 0 <= k < |actions| && HasRoot(actions[k], root)
    ensures j < |actions| && HasRoot(actions[j], root) && forall k | 0 <= k < j :: !HasRoot(actions[k], root)
  {
    j := 0;
    while !HasRoot(actions[j], root)
      invariant j < |actions| && forall k | 0 <= k < j :: !HasRoot(actions[k], root)
      decreases |actions| - j
    {
      j := j + 1;
    }
  }

  /** The lists once some students' rows of some roots have been marked. */
  ghost predicate MarkedSoFar(marked: seq<seq<Action>>, lists: seq<seq<Action>>, groupMin: int, visited: set<(nat, nat)>) {
    && |marked| == |lists|
    && forall i | 0 <= i < |lists| ::
         && |marked[i]| == |lists[i]|
         && forall j | 0 <= j < |lists[i]| ::
              marked[i][j] == if Joins(lists[i], j, lists, groupMin) && (i, lists[i][j].root.value) in visited
                              then lists[i][j].(scope := Group, note := SameRoot(Members(lists, lists[i][j].root.value)))
                              else lists[i][j]
  }

  lemma MarkStep(marked: seq<seq<Action>>, lists: seq<seq<Action>>, groupMin: int, visited: set<(nat, nat)>, i: nat, j: nat, root: nat)
    requires MarkedSoFar(marked, lists, groupMin, visited) && i < |lists| && j < |lists[i]|
    requires HasRoot(lists[i][j], root) && forall k | 0 <= k < j :: !HasRoot(lists[i][k], root)
    requires Members(lists, root) >= groupMin
    ensures MarkedSoFar(marked[i := marked[i][j := marked[i][j].(scope := Group, note := SameRoot(Members(lists, root)))]],
                        lists, groupMin, visited + {(i, root)})
  {
    hide Members;
    assert Joins(lists[i], j, lists, groupMin);
    forall k | 0 <= k < |lists[i]| && Joins(lists[i], k, lists, groupMin) && lists[i][k].root.value == root ensures k == j {
      assert HasRoot(lists[i][k], root);
    }
  }

  lemma MarkedInFull(marked: seq<seq<Action>>, lists: seq<seq<Action>>, groupMin: int, visited: set<(nat, nat)>)
    requires MarkedSoFar(marked, lists, groupMin, visited)
    requires forall i, j | 0 <= i < |lists| && 0 <= j < |lists[i]| && Joins(lists[i], j, lists, groupMin) ::
               (i, lists[i][j].root.value) in visited
    ensures marked == Marked(lists, groupMin)
  {
    hide Joins;
    forall i | 0 <= i < |lists| ensures marked[i] == MarkedList(lists[i], lists, groupMin) {
    }
  }

  lemma JoinersAreListed(members: map<nat, seq<nat>>, lists: seq<seq<Action>>, groupMin: int, i: nat, j: nat)
    requires AllListed(members, lists, |lists|, []) && i < |lists| && j < |lists[i]| && Joins(lists[i], j, lists, groupMin)
    ensures var root := lists[i][j].root.value; root in members && i in members[root] && |members[root]| >= groupMin
  {
    var root := lists[i][j].root.value;
    assert HasRoot(lists[i][j], root);
    RootCounted(lists[i], root);
    assert Listed(Who(members, root), lists, |lists|, [], root);
    assert lists[..|lists|] == lists;
  }

  lemma ListedInFull(who: seq<nat>, lists: seq<seq<Action>>, root: nat)
    requires Listed(who, lists, |lists|, [], root)
    ensures |who| == Members(lists, root)
    ensures forall k | k in who :: k < |lists| && exists j :: 0 <= j < |lists[k]| && HasRoot(lists[k][j], root)
  {
    hide HasRoot;
    assert lists[..|lists|] == lists;
    forall k | k in who ensures k < |lists| && exists j :: 0 <= j < |lists[k]| && HasRoot(lists[k][j], root) {
      RootCounted(lists[k], root);
    }
  }

  lemma ListedCount(members: map<nat, seq<nat>>, lists: seq<seq<Action>>, root: nat)
    requires AllListed(members, lists, |lists|, []) && root in members
    ensures |members[root]| == Members(lists, root) && root in RootsOf(lists)
    ensures forall k | k in members[root] :: k < |lists| && exists j :: 0 <= j < |lists[k]| && HasRoot(lists[k][j], root)
  {
    hide Members, Listed;
    ListedInFull(members[root], lists, root);
    var k := members[root][0];
    assert k in members[root];
    var j :| 0 <= j < |lists[k]| && HasRoot(lists[k][j], root);
    assert lists[k][j].root.value in RootsOf(lists);
  }

  lemma RootsAreListed(members: map<nat, seq<nat>>, lists: seq<seq<Action>>)
    requires AllListed(members, lists, |lists|, [])
    ensures members.Keys == RootsOf(lists)
  {
    forall root | root in members ensures root in RootsOf(lists) { ListedCount(members, lists, root); }
    forall root | root in RootsOf(lists) ensures root in members {
      var i, j :| 0 <= i < |lists| && 0 <= j < |lists[i]| && lists[i][j].kind == PrereqBackfill
                  && lists[i][j].root.Some? && lists[i][j].root.value == root;
      assert HasRoot(lists[i][j], root);
      RootCounted(lists[i], root);
      assert Listed(Who(members, root), lists, |lists|, [], root);
    }
  }

  /** Marks one root's members, repeats included. */
  method MarkRoot(before: seq<seq<Action>>, lists: seq<seq<Action>>, groupMin: int, ghost visited: set<(nat, nat)>, root: nat, who: seq<nat>)
    returns (marked: seq<seq<Action>>)
    requires MarkedSoFar(before, lists, groupMin, visited)
    requires |who| == Members(lists, root) >= groupMin
    requires forall k | k in who :: k < |lists| && exists j :: 0 <= j < |lists[k]| && HasRoot(lists[k][j], root)
    ensures MarkedSoFar(marked, lists, groupMin, visited + (set k | k in who :: (k, root)))
  {
    hide Members, MarkedSoFar;
    marked := before;
    ghost var seen := visited;
    for q := 0 to |who|
      invariant seen == visited + (set k | k in who[..q] :: (k, root))
      invariant MarkedSoFar(marked, lists, groupMin, seen)
    {
      var i := who[q];
      assert i in who;
      var j := FirstOf(lists[i], root);
      MarkedShape(marked, lists, groupMin, seen);
      MarkStep(marked, lists, groupMin, seen, i, j, root);
      marked := marked[i := marked[i][j := marked[i][j].(scope := Group, note := SameRoot(|who|))]];
      seen := seen + {(i, root)};
      assert who[..q + 1] == who[..q] + [i];
    }
    assert who[..|who|] == who;
  }

  lemma MarkedShape(marked: seq<seq<Action>>, lists: seq<seq<Action>>, groupMin: int, visited: set<(nat, nat)>)
    requires MarkedSoFar(marked, lists, groupMin, visited)
    ensures |marked| == |lists| && forall i | 0 <= i < |lists| :: |marked[i]| == |lists[i]|
  {
  }

  /** Gives the rows of every large enough root group scope, and counts those groups. */
  method MarkGroups(lists: seq<seq<Action>>, groupMin: int) returns (marked: seq<seq<Action>>, groups: nat)
    ensures marked == Marked(lists, groupMin)
    ensures groups == |GroupRoots(lists, groupMin)|
  {
    hide Listed, MarkedSoFar, Joins, Members, RootsOf;
    var members := MembersByRoot(lists);
    marked, groups := lists, 0;
    ghost var visited, counted := {}, {};
    var todo := members.Keys;
    NothingMarked(lists, groupMin);
    while todo != {}
      invariant todo <= members.Keys && MarkedSoFar(marked, lists, groupMin, visited)
      invariant counted == (set root | root in members.Keys - todo && |members[root]| >= groupMin)
      invariant groups == |counted|
      invariant forall root, i | root in members.Keys - todo && |members[root]| >= groupMin && i in members[root] ::
                  (i, root) in visited
      decreases |todo|
    {
      var root :| root in todo;
      ListedCount(members, lists, root);
      if |members[root]| >= groupMin {
        marked := MarkRoot(marked, lists, groupMin, visited, root, members[root]);
        visited := visited + (set k | k in members[root] :: (k, root));
        assert root !in counted;
        groups, counted := groups + 1, counted + {root};
      }
      todo := todo - {root};
    }
    forall i, j | 0 <= i < |lists| && 0 <= j < |lists[i]| && Joins(lists[i], j, lists, groupMin)
      ensures lists[i][j].root.Some? && (i, lists[i][j].root.value) in visited
    {
      JoinersHaveRoots(lists, groupMin, i, j);
      JoinersAreListed(members, lists, groupMin, i, j);
    }
    MarkedInFull(marked, lists, groupMin, visited);
    RootsAreListed(members, lists);
    forall root | root in members ensures |members[root]| == Members(lists, root) { ListedCount(members, lists, root); }
    assert counted == GroupRoots(lists, groupMin);
  }

  lemma JoinersHaveRoots(lists: seq<seq<Action>>, groupMin: int, i: nat, j: nat)
    requires i < |lists| && j < |lists[i]| && Joins(lists[i], j, lists, groupMin)
    ensures lists[i][j].root.Some?
  {
  }

  lemma NothingMarked(lists: seq<seq<Action>>, groupMin: int)
    ensures MarkedSoFar(lists, lists, groupMin, {})
  {
  }

  // ----- The plan ----------------------------------------------------------------------------

  method PlanActions(rows: seq<Row>, c: Run, f: Facts) returns (p: Plan, groups: nat)
    ensures p == MakePlan(rows, c, f)
    ensures groups == |GroupRoots(Lists(rows, c, f), f.groupMin)|
  {
    hide StudentActions, SortedDistinct, PointsAsked, Tally, ClassActions, Flatten, Marked, Lists, WeakPoints, GroupRoots;
    var roster := Roster(f);
    var lists, asked := AllRows(rows, c, f, roster);
    var weak, assessed, points := CountPoints(f, roster);
    var marked;
    marked, groups := MarkGroups(lists, f.groupMin);
    var shared := ClassRows(f, weak, assessed, points);
    forall point ensures point in weak <==> point in WeakPoints(f, roster) { WeakIffTallied(f, roster, point); }
    var disproven := set point | point in weak.Keys
      && !(Count(assessed, point) >= 4 && Count(weak, point) as real / Count(assessed, point) as real >= f.ratio)
      && Count(assessed, point) >= 4 && Count(weak, point) as real / Count(assessed, point) as real < f.ratio;
    p := Plan(shared + Flatten(marked), asked, disproven);
    assert disproven == set point | point in WeakPoints(f, roster) && Recovered(f, point);
  }
}
