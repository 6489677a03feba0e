/** What the evaluation calls for, said on the assessments, the findings and the stored rows themselves. */
module PlanMeaning {
  import opened Options
  import opened Interventions
  import opened Assessments
  import opened InterventionPlan
  import opened PlanTheorems

  // ----- Which action a point calls for ---------------------------------------------------------

  predicate WeakPoint(a: Assessment) {
    a.gate == Open && a.mastery.Some? && a.weak
  }

  /** Recall has reached the floor, application lies more than a tenth below it. */
  predicate TierGap(a: Assessment) {
    a.recall.Some? && a.apply.Some? && a.recall.value >= a.floor && a.apply.value < a.floor - 0.10
  }

  ghost predicate HasCause(findings: seq<Finding>, cause: Cause) {
    exists k :: 0 <= k < |findings| && findings[k].cause == cause
  }

  ghost predicate IsLast(findings: seq<Finding>, cause: Cause, k: nat) {
    && k < |findings| && findings[k].cause == cause
    && forall j | k < j < |findings| :: findings[j].cause != cause
  }

  /** What a kind of action presupposes. */
  ghost predicate Calls(f: Facts, student: nat, a: Assessment, kind: Kind) {
    var findings := f.findings(student, a.point);
    match kind
    case Reteach => false
    case EvidenceBoost => a.gate == Insufficient
    case TierDrill => WeakPoint(a) && TierGap(a)
    case PrereqBackfill =>
      WeakPoint(a) && !TierGap(a) && exists k: nat :: IsLast(findings, Prerequisite, k) && findings[k].root.Some?
    case SpacedReview =>
      WeakPoint(a) && !TierGap(a) && !HasCause(findings, Prerequisite) && HasCause(findings, Forgetting)
    case ContrastPractice =>
      && WeakPoint(a) && !TierGap(a) && HasCause(findings, Confusable)
      && !HasCause(findings, Prerequisite) && !HasCause(findings, Forgetting)
  }

  /** The first code given is the partner's if it is known; otherwise the first partner in the graph, if any. */
  ghost predicate PartnerIs(f: Facts, point: nat, codes: seq<string>, partner: Option<nat>) {
    if exists i :: IsFirstCode(codes, i) && f.byCode(codes[i]).Some? then
      exists i :: IsFirstCode(codes, i) && partner == f.byCode(codes[i])
    else if |f.partners(point)| > 0 then partner == Some(f.partners(point)[0])
    else partner == None
  }

  ghost predicate IsFirstCode(codes: seq<string>, i: int) {
    0 <= i < |codes| && codes[i] != "" && forall j | 0 <= j < i :: codes[j] == ""
  }

  /** The attribution and the point an action goes back to. */
  ghost predicate Names(f: Facts, student: nat, point: nat, kind: Kind, attribution: Option<nat>, root: Option<nat>) {
    var findings := f.findings(student, point);
    match kind
    case PrereqBackfill =>
      attribution == f.attribution(student, point, Prerequisite) && exists k: nat :: IsLast(findings, Prerequisite, k) && findings[k].root == root
    case SpacedReview => attribution == f.attribution(student, point, Forgetting) && root == None
    case ContrastPractice =>
      && attribution == f.attribution(student, point, Confusable)
      && exists k: nat :: IsLast(findings, Confusable, k) && PartnerIs(f, point, findings[k].confusedWith, root)
    case _ => attribution == None && root == None
  }

  ghost predicate CalledFor(f: Facts, student: nat, a: Assessment, x: Action) {
    && x.need == Need(Some(student), a.point) && x.scope == Single && x.note == NoNote
    && Calls(f, student, a, x.kind) && Names(f, student, a.point, x.kind, x.attribution, x.root)
  }

  lemma {:induction false} LastOfIs(findings: seq<Finding>, cause: Cause)
    ensures LastOf(findings, cause).None? ==> !HasCause(findings, cause)
    ensures LastOf(findings, cause).Some? ==> exists k: nat :: IsLast(findings, cause, k) && k < |findings| && findings[k] == LastOf(findings, cause).value
  {
    hide IsLast, HasCause;
    if findings == [] {
      NoFindings(cause);
    } else {
      var front, last := findings[..|findings| - 1], findings[|findings| - 1];
      assert findings == front + [last];
      LastOfIs(front, cause);
      if last.cause == cause {
        EndIsLast(front, last);
      } else if LastOf(front, cause).Some? {
        var k: nat :| IsLast(front, cause, k) && k < |front| && front[k] == LastOf(front, cause).value;
        LastStays(front, last, cause, k);
      } else {
        CauseStaysAway(front, last, cause);
      }
    }
  }

  lemma NoFindings(cause: Cause)
    ensures !HasCause([], cause)
  {
  }

  lemma EndIsLast(findings: seq<Finding>, last: Finding)
    ensures IsLast(findings + [last], last.cause, |findings|)
  {
  }

  lemma CauseStaysAway(findings: seq<Finding>, last: Finding, cause: Cause)
    requires !HasCause(findings, cause) && last.cause != cause
    ensures !HasCause(findings + [last], cause)
  {
    assert forall j | 0 <= j < |findings| :: (findings + [last])[j] == findings[j];
  }

  lemma LastStays(findings: seq<Finding>, more: Finding, cause: Cause, k: nat)
    requires IsLast(findings, cause, k) && more.cause != cause
    ensures IsLast(findings + [more], cause, k) && (findings + [more])[k] == findings[k]
  {
    assert forall j | k < j < |findings| :: (findings + [more])[j] == findings[j];
  }

  lemma LastIsUnique(findings: seq<Finding>, cause: Cause)
    ensures LastOf(findings, cause).Some? <==> HasCause(findings, cause)
    ensures forall k: nat | IsLast(findings, cause, k) :: k < |findings| && LastOf(findings, cause) == Some(findings[k])
    ensures HasCause(findings, cause) ==> exists k: nat :: IsLast(findings, cause, k)
  {
    hide LastOf;
    LastOfIs(findings, cause);
  }

  lemma {:induction false} FirstCodeIs(codes: seq<string>)
    ensures forall i | IsFirstCode(codes, i) :: FirstCode(codes) == codes[i] != ""
    ensures FirstCode(codes) != "" ==> exists i :: IsFirstCode(codes, i)
  {
    if codes != [] {
      var rest := codes[1..];
      FirstCodeIs(rest);
      if codes[0] != "" {
        assert IsFirstCode(codes, 0);
      } else {
        forall i | IsFirstCode(codes, i) ensures IsFirstCode(rest, i - 1) {
          assert forall j | 0 <= j < i - 1 :: rest[j] == codes[j + 1];
        }
        if FirstCode(rest) != "" {
          var i :| IsFirstCode(rest, i);
          assert forall j | 0 < j < i + 1 :: codes[j] == rest[j - 1];
          assert IsFirstCode(codes, i + 1);
        }
      }
    }
  }

  lemma PartnerMeans(f: Facts, point: nat, codes: seq<string>, partner: Option<nat>)
    ensures Partner(f, point, FirstCode(codes)) == partner <==> PartnerIs(f, point, codes, partner)
  {
    hide FirstCode, IsFirstCode;
    FirstCodeIs(codes);
  }

  /** A point calls for an action exactly under the conditions of its kind, and for at most one. */
  lemma ActionForIff(f: Facts, student: nat, a: Assessment, x: Action)
    ensures ActionFor(f, student, a) == Some(x) <==> CalledFor(f, student, a, x)
  {
    hide LastOf, HasCause, IsLast, PartnerIs, Partner, FirstCode;
    var findings := f.findings(student, a.point);
    LastIsUnique(findings, Prerequisite);
    LastIsUnique(findings, Forgetting);
    LastIsUnique(findings, Confusable);
    if HasCause(findings, Confusable) {
      var k: nat :| IsLast(findings, Confusable, k);
      PartnerMeans(f, a.point, findings[k].confusedWith, x.root);
      assert forall j: nat | IsLast(findings, Confusable, j) :: findings[j] == findings[k];
    }
  }

  // ----- What was done already -------------------------------------------------------------------

  /** Row j is the last one of the class and graph that says the need was met by this kind of action. */
  ghost predicate LastDoneAt(rows: seq<Row>, c: Run, need: Need, kind: Kind, j: nat) {
    && j < |rows| && DoneFor(rows[j], c, need, kind)
    && forall i | j < i < |rows| :: !DoneFor(rows[i], c, need, kind)
  }

  predicate DoneFor(r: Row, c: Run, need: Need, kind: Kind) {
    r.classId == c.classId && r.need.point in c.graph && r.status == Done && r.need == need && r.kind == kind
  }

  /** The last such row is dated and the student has evidence at the point after that date ... */
  ghost predicate Retested(rows: seq<Row>, c: Run, f: Facts, student: nat, point: nat, kind: Kind) {
    exists j: nat :: LastDoneAt(rows, c, Need(Some(student), point), kind, j) && rows[j].doneAt.Some?
      && exists i :: 0 <= i < |f.events(student, point)| && f.events(student, point)[i] > rows[j].doneAt.value
  }

  /** ... or it is dated and the student has none. */
  ghost predicate AwaitsRetest(rows: seq<Row>, c: Run, f: Facts, student: nat, point: nat, kind: Kind) {
    exists j: nat :: LastDoneAt(rows, c, Need(Some(student), point), kind, j) && rows[j].doneAt.Some?
      && forall i | 0 <= i < |f.events(student, point)| :: f.events(student, point)[i] <= rows[j].doneAt.value
  }

  lemma {:induction false} LastDoneIs(rows: seq<Row>, c: Run, need: Need, kind: Kind)
    ensures LastDone(rows, c, need, kind).None? ==> forall j | 0 <= j < |rows| :: !DoneFor(rows[j], c, need, kind)
    ensures LastDone(rows, c, need, kind).Some? ==>
              exists j: nat :: LastDoneAt(rows, c, need, kind, j) && rows[j] == LastDone(rows, c, need, kind).value
  {
    if rows != [] {
      var n := |rows| - 1;
      var front := rows[..n];
      if DoneFor(rows[n], c, need, kind) {
        assert LastDoneAt(rows, c, need, kind, n);
      } else {
        LastDoneIs(front, c, need, kind);
        if LastDone(front, c, need, kind).Some? {
          var j: nat :| LastDoneAt(front, c, need, kind, j) && front[j] == LastDone(front, c, need, kind).value;
          assert forall i | j < i < n :: rows[i] == front[i];
          assert LastDoneAt(rows, c, need, kind, j);
        } else {
          assert forall i | 0 <= i < n :: rows[i] == front[i];
        }
      }
    }
  }

  lemma LastDoneIsUnique(rows: seq<Row>, c: Run, need: Need, kind: Kind, j: nat)
    requires LastDoneAt(rows, c, need, kind, j)
    ensures j < |rows| && LastDone(rows, c, need, kind) == Some(rows[j])
  {
    hide LastDone;
    LastDoneIs(rows, c, need, kind);
  }

  lemma RetestIff(rows: seq<Row>, c: Run, f: Facts, student: nat, point: nat, kind: Kind)
    ensures var done := LastDone(rows, c, Need(Some(student), point), kind);
            var dated := done.Some? && done.value.doneAt.Some?;
            && (Retested(rows, c, f, student, point, kind) <==> dated && SomethingAfter(f.events(student, point), done.value.doneAt.value))
            && (AwaitsRetest(rows, c, f, student, point, kind) <==> dated && !SomethingAfter(f.events(student, point), done.value.doneAt.value))
  {
    hide LastDone, LastDoneAt;
    var need := Need(Some(student), point);
    LastDoneIs(rows, c, need, kind);
    forall j: nat | LastDoneAt(rows, c, need, kind, j) ensures j < |rows| && LastDone(rows, c, need, kind) == Some(rows[j]) {
      LastDoneIsUnique(rows, c, need, kind, j);
    }
  }

  /** The student's own row for a point: what the point calls for, unless it was done and waits for a
      retest; a second try where there was one. */
  ghost predicate OwnRow(rows: seq<Row>, c: Run, f: Facts, student: nat, a: Assessment, x: Action) {
    && CalledFor(f, student, a, x.(note := NoNote))
    && !AwaitsRetest(rows, c, f, student, a.point, x.kind)
    && x.note == if Retested(rows, c, f, student, a.point, x.kind) then SecondTry else NoNote
  }

  lemma KeptActionIff(rows: seq<Row>, c: Run, f: Facts, student: nat, a: Assessment, x: Action)
    ensures KeptAction(rows, c, f, student, a) == Some(x) <==> OwnRow(rows, c, f, student, a, x)
  {
    hide LastDone, ActionFor, Calls, Names, Retested, AwaitsRetest, SomethingAfter;
    RetestIff(rows, c, f, student, a.point, x.kind);
    ActionForIff(f, student, a, x.(note := NoNote));
    if ActionFor(f, student, a).Some? { ActionForIff(f, student, a, ActionFor(f, student, a).value); }
  }

  /** Something is asked of the student at the point of this assessment. */
  ghost predicate AskedAt(rows: seq<Row>, c: Run, f: Facts, student: nat, a: Assessment) {
    exists kind :: Calls(f, student, a, kind) && !AwaitsRetest(rows, c, f, student, a.point, kind)
  }

  lemma NamesSomething(f: Facts, student: nat, a: Assessment, kind: Kind)
    requires Calls(f, student, a, kind)
    ensures ActionFor(f, student, a).Some? && ActionFor(f, student, a).value.kind == kind
  {
    hide LastOf, HasCause, IsLast, Partner, FirstCode;
    var findings := f.findings(student, a.point);
    LastIsUnique(findings, Prerequisite);
    LastIsUnique(findings, Forgetting);
    LastIsUnique(findings, Confusable);
  }

  lemma KeptIffAsked(rows: seq<Row>, c: Run, f: Facts, student: nat, a: Assessment)
    ensures KeptAction(rows, c, f, student, a).Some? <==> AskedAt(rows, c, f, student, a)
  {
    hide LastDone, ActionFor, Calls, Names, Retested, AwaitsRetest, SomethingAfter;
    if KeptAction(rows, c, f, student, a).Some? {
      KeptActionIff(rows, c, f, student, a, KeptAction(rows, c, f, student, a).value);
    }
    if kind :| Calls(f, student, a, kind) && !AwaitsRetest(rows, c, f, student, a.point, kind) {
      NamesSomething(f, student, a, kind);
      ActionForIff(f, student, a, ActionFor(f, student, a).value);
      RetestIff(rows, c, f, student, a.point, kind);
    }
  }

  // ----- Groups -----------------------------------------------------------------------------------

  /** The student is to be led back to the root from the point of this assessment. */
  ghost predicate Backfills(rows: seq<Row>, c: Run, f: Facts, student: nat, a: Assessment, root: nat) {
    && Calls(f, student, a, PrereqBackfill) && !AwaitsRetest(rows, c, f, student, a.point, PrereqBackfill)
    && exists k: nat :: IsLast(f.findings(student, a.point), Prerequisite, k) && f.findings(student, a.point)[k].root == Some(root)
  }

  lemma BackfillsIff(rows: seq<Row>, c: Run, f: Facts, student: nat, a: Assessment, root: nat)
    ensures KeptAction(rows, c, f, student, a).Some? && HasRoot(KeptAction(rows, c, f, student, a).value, root)
            <==> Backfills(rows, c, f, student, a, root)
  {
    hide KeptAction, Calls, AwaitsRetest, Retested, IsLast;
    KeptIffAsked(rows, c, f, student, a);
    if KeptAction(rows, c, f, student, a).Some? {
      var x := KeptAction(rows, c, f, student, a).value;
      KeptActionIff(rows, c, f, student, a, x);
      if Calls(f, student, a, PrereqBackfill) { KindIsOne(f, student, a, x.kind, PrereqBackfill); }
      LastIsUnique(f.findings(student, a.point), Prerequisite);
    }
  }

  lemma KindIsOne(f: Facts, student: nat, a: Assessment, kind: Kind, kind': Kind)
    requires Calls(f, student, a, kind) && Calls(f, student, a, kind')
    ensures kind == kind'
  {
    hide ActionFor;
    NamesSomething(f, student, a, kind);
    NamesSomething(f, student, a, kind');
  }

  /** The assessments from which a student is led back to the root. */
  ghost function BackfillsOf(rows: seq<Row>, c: Run, f: Facts, student: nat, s: seq<Assessment>, root: nat): set<nat> {
    set k: nat | k < |s| && Backfills(rows, c, f, student, s[k], root)
  }

  lemma {:induction false} RootCountIs(rows: seq<Row>, c: Run, f: Facts, student: nat, s: seq<Assessment>, root: nat)
    ensures RootCount(StudentActions(rows, c, f, student, s), root) == |BackfillsOf(rows, c, f, student, s, root)|
  {
    hide KeptAction, Backfills;
    if s == [] {
      assert BackfillsOf(rows, c, f, student, s, root) == {};
    } else {
      var n := |s| - 1;
      var kept, before, after := KeptAction(rows, c, f, student, s[n]), BackfillsOf(rows, c, f, student, s[..n], root), BackfillsOf(rows, c, f, student, s, root);
      RootCountIs(rows, c, f, student, s[..n], root);
      BackfillsIff(rows, c, f, student, s[n], root);
      var front := StudentActions(rows, c, f, student, s[..n]);
      assert kept.Some? ==> (front + [kept.value])[..|front|] == front;
      assert after == if Backfills(rows, c, f, student, s[n], root) then before + {n} else before;
    }
  }

  /** Who is led back to the root from where, as pairs of a student and an assessment. */
  ghost function BackfillPairs(rows: seq<Row>, c: Run, f: Facts, students: seq<nat>, root: nat): set<(nat, nat)> {
    set s: nat, k: nat | s in students && k in BackfillsOf(rows, c, f, s, f.assess(s), root) :: (s, k)
  }

  lemma PairsStep(rows: seq<Row>, c: Run, f: Facts, front: seq<nat>, last: nat, root: nat)
    requires last !in front
    ensures |BackfillPairs(rows, c, f, front + [last], root)| ==
            |BackfillPairs(rows, c, f, front, root)| + |BackfillsOf(rows, c, f, last, f.assess(last), root)|
  {
    hide BackfillsOf;
    var before, added, after := BackfillPairs(rows, c, f, front, root), BackfillsOf(rows, c, f, last, f.assess(last), root), BackfillPairs(rows, c, f, front + [last], root);
    var paired := set k: nat | k in added :: (last, k);
    PairedSize(added, last);
    assert after == before + paired;
    assert before !! paired;
  }

  lemma {:induction false} PairedSize(ks: set<nat>, s: nat)
    ensures |set k: nat | k in ks :: (s, k)| == |ks|
  {
    if ks != {} {
      var k0 :| k0 in ks;
      PairedSize(ks - {k0}, s);
      var all, less := set k: nat | k in ks :: (s, k), set k: nat | k in ks - {k0} :: (s, k);
      assert (s, k0) !in less && all == less + {(s, k0)};
    } else {
      assert (set k: nat | k in ks :: (s, k)) == {};
    }
  }

  ghost function ListsFor(rows: seq<Row>, c: Run, f: Facts, students: seq<nat>): seq<seq<Action>> {
    seq(|students|, i requires 0 <= i < |students| => StudentActions(rows, c, f, students[i], f.assess(students[i])))
  }

  lemma NobodyBackfills(rows: seq<Row>, c: Run, f: Facts, root: nat)
    ensures BackfillPairs(rows, c, f, [], root) == {}
  {
  }

  lemma {:induction false} MembersOf(rows: seq<Row>, c: Run, f: Facts, students: seq<nat>, root: nat)
    requires Increasing(students)
    ensures Members(ListsFor(rows, c, f, students), root) == |BackfillPairs(rows, c, f, students, root)|
  {
    hide StudentActions, BackfillsOf, BackfillPairs, Increasing, RootCount;
    if students == [] {
      NobodyBackfills(rows, c, f, root);
    } else {
      var n := |students| - 1;
      LastIsNew(students);
      MembersOf(rows, c, f, students[..n], root);
      PairsStep(rows, c, f, students[..n], students[n], root);
      RootCountIs(rows, c, f, students[n], f.assess(students[n]), root);
      assert ListsFor(rows, c, f, students)[..n] == ListsFor(rows, c, f, students[..n]);
    }
  }

  /** The size of a group is the number of pairs of a committed student and a point that go back to its root. */
  lemma GroupSizeIs(rows: seq<Row>, c: Run, f: Facts, root: nat)
    ensures Members(Lists(rows, c, f), root) == |BackfillPairs(rows, c, f, f.committed, root)|
  {
    hide StudentActions, BackfillsOf, Members, SortedDistinct;
    SortedDistinctFacts(f.committed);
    MembersOf(rows, c, f, Roster(f), root);
    assert Lists(rows, c, f) == ListsFor(rows, c, f, Roster(f));
    assert BackfillPairs(rows, c, f, f.committed, root) == BackfillPairs(rows, c, f, Roster(f), root);
  }

  /** The student's first row of a root joins its group when the group is large enough. */
  ghost predicate InGroup(rows: seq<Row>, c: Run, f: Facts, student: nat, k: nat, root: nat)
    requires k < |f.assess(student)|
  {
    && Backfills(rows, c, f, student, f.assess(student)[k], root)
    && |BackfillPairs(rows, c, f, f.committed, root)| >= f.groupMin
    && forall k' | 0 <= k' < k :: !Backfills(rows, c, f, student, f.assess(student)[k'], root)
  }

  /** The student's row as planned: marked where it joins a group. */
  ghost predicate PlannedRow(rows: seq<Row>, c: Run, f: Facts, student: nat, k: nat, own: Action, x: Action)
    requires k < |f.assess(student)|
  {
    && OwnRow(rows, c, f, student, f.assess(student)[k], own)
    && x == if own.root.Some? && InGroup(rows, c, f, student, k, own.root.value)
            then own.(scope := Group, note := SameRoot(|BackfillPairs(rows, c, f, f.committed, own.root.value)|))
            else own
  }

  // ----- Where a row stands in the student's list ----------------------------------------------------

  lemma {:induction false} PrefixActions(rows: seq<Row>, c: Run, f: Facts, student: nat, s: seq<Assessment>, k: nat)
    requires k <= |s|
    ensures StudentActions(rows, c, f, student, s[..k]) <= StudentActions(rows, c, f, student, s)
  {
    hide KeptAction;
    if k < |s| {
      PrefixActions(rows, c, f, student, s[..|s| - 1], k);
      assert s[..|s| - 1][..k] == s[..k];
    } else {
      assert s[..k] == s;
    }
  }

  /** Row j stems from assessment k, and the rows before it from the assessments before k. */
  ghost predicate StemsFrom(rows: seq<Row>, c: Run, f: Facts, student: nat, s: seq<Assessment>, j: nat, k: nat) {
    && j < |StudentActions(rows, c, f, student, s)| && k < |s|
    && KeptAction(rows, c, f, student, s[k]) == Some(StudentActions(rows, c, f, student, s)[j])
    && StudentActions(rows, c, f, student, s)[..j] == StudentActions(rows, c, f, student, s[..k])
  }

  lemma KeptStandsAt(rows: seq<Row>, c: Run, f: Facts, student: nat, s: seq<Assessment>, k: nat)
    requires k < |s| && KeptAction(rows, c, f, student, s[k]).Some?
    ensures StemsFrom(rows, c, f, student, s, |StudentActions(rows, c, f, student, s[..k])|, k)
  {
    hide KeptAction;
    PrefixActions(rows, c, f, student, s, k);
    PrefixActions(rows, c, f, student, s, k + 1);
    assert s[..k + 1][..k] == s[..k];
    var kept, upTo := StudentActions(rows, c, f, student, s[..k]), StudentActions(rows, c, f, student, s[..k + 1]);
    assert upTo == kept + [KeptAction(rows, c, f, student, s[k]).value];
    assert upTo[|kept|] == StudentActions(rows, c, f, student, s)[|kept|];
  }

  lemma {:induction false} RowStems(rows: seq<Row>, c: Run, f: Facts, student: nat, s: seq<Assessment>, j: nat) returns (k: nat)
    requires j < |StudentActions(rows, c, f, student, s)|
    ensures StemsFrom(rows, c, f, student, s, j, k)
  {
    hide KeptAction;
    var n := |s| - 1;
    var front := StudentActions(rows, c, f, student, s[..n]);
    if j < |front| {
      k := RowStems(rows, c, f, student, s[..n], j);
      assert s[..n][..k] == s[..k];
      assert front[..j] == StudentActions(rows, c, f, student, s)[..j];
    } else {
      k := n;
    }
  }

  lemma {:induction false} NoneIffZero(actions: seq<Action>, root: nat)
    ensures RootCount(actions, root) == 0 <==> forall i | 0 <= i < |actions| :: !HasRoot(actions[i], root)
  {
    if actions != [] { NoneIffZero(actions[..|actions| - 1], root); }
  }

  lemma NoneBefore(rows: seq<Row>, c: Run, f: Facts, student: nat, s: seq<Assessment>, k: nat, root: nat)
    requires k <= |s|
    ensures (forall k' | 0 <= k' < k :: !Backfills(rows, c, f, student, s[k'], root)) <==>
            forall i | 0 <= i < |StudentActions(rows, c, f, student, s[..k])| :: !HasRoot(StudentActions(rows, c, f, student, s[..k])[i], root)
  {
    hide Backfills, StudentActions, RootCount;
    NoneIffZero(StudentActions(rows, c, f, student, s[..k]), root);
    RootCountIs(rows, c, f, student, s[..k], root);
    var ks := BackfillsOf(rows, c, f, student, s[..k], root);
    if (forall k' | 0 <= k' < k :: !Backfills(rows, c, f, student, s[k'], root)) {
      assert ks == {};
    } else {
      var k' :| 0 <= k' < k && Backfills(rows, c, f, student, s[k'], root);
      assert k' in ks;
    }
  }

  lemma JoinsIff(rows: seq<Row>, c: Run, f: Facts, student: nat, j: nat, k: nat)
    requires StemsFrom(rows, c, f, student, f.assess(student), j, k)
    ensures var actions := StudentActions(rows, c, f, student, f.assess(student));
            Joins(actions, j, Lists(rows, c, f), f.groupMin) <==>
            actions[j].root.Some? && InGroup(rows, c, f, student, k, actions[j].root.value)
  {
    hide Backfills, StudentActions, KeptAction, Lists, Members, BackfillPairs;
    var s := f.assess(student);
    var actions := StudentActions(rows, c, f, student, s);
    if actions[j].root.Some? {
      var root := actions[j].root.value;
      GroupSizeIs(rows, c, f, root);
      BackfillsIff(rows, c, f, student, s[k], root);
      NoneBefore(rows, c, f, student, s, k, root);
      var before := StudentActions(rows, c, f, student, s[..k]);
      assert |before| == j;
      assert forall i | 0 <= i < j :: actions[i] == before[i];
    }
  }

  // ----- The plan ----------------------------------------------------------------------------------

  /** An action of the plan, for a student or for the class. */
  ghost predicate Planned(rows: seq<Row>, c: Run, f: Facts, x: Action) {
    match x.need.student
    case Some(s) =>
      s in f.committed && exists k: nat, own :: k < |f.assess(s)| && f.assess(s)[k].point == x.need.point && PlannedRow(rows, c, f, s, k, own, x)
    case None =>
      var weak, assessed := Tally(f, Roster(f), x.need.point, true), Tally(f, Roster(f), x.need.point, false);
      && weak >= 1 && assessed >= 4 && weak as real / assessed as real >= f.ratio
      && x == Action(x.need, Reteach, WholeClass, None, None, ShareWeak(weak, assessed))
  }

  lemma {:induction false} FlattenHas(lists: seq<seq<Action>>, x: Action)
    ensures x in Flatten(lists) <==> exists i :: 0 <= i < |lists| && x in lists[i]
  {
    if lists != [] {
      var n := |lists| - 1;
      FlattenHas(lists[..n], x);
      if x in Flatten(lists[..n]) {
        var i :| 0 <= i < n && x in lists[..n][i];
        assert x in lists[i];
      }
      if i :| 0 <= i < n && x in lists[i] { assert x in lists[..n][i]; }
    }
  }

  lemma OwnRowIsSome(rows: seq<Row>, c: Run, f: Facts, student: nat, k: nat, x: Action)
    requires k < |f.assess(student)|
    ensures (exists own :: PlannedRow(rows, c, f, student, k, own, x)) <==>
            (KeptAction(rows, c, f, student, f.assess(student)[k]).Some? &&
             PlannedRow(rows, c, f, student, k, KeptAction(rows, c, f, student, f.assess(student)[k]).value, x))
  {
    hide KeptAction, OwnRow, InGroup;
    forall own ensures KeptAction(rows, c, f, student, f.assess(student)[k]) == Some(own) <==> OwnRow(rows, c, f, student, f.assess(student)[k], own) {
      KeptActionIff(rows, c, f, student, f.assess(student)[k], own);
    }
  }

  /** Row j of a student, marked, is what assessment k plans. */
  lemma MarkedRowIs(rows: seq<Row>, c: Run, f: Facts, student: nat, j: nat, k: nat, x: Action)
    requires StemsFrom(rows, c, f, student, f.assess(student), j, k)
    ensures MarkedList(StudentActions(rows, c, f, student, f.assess(student)), Lists(rows, c, f), f.groupMin)[j] == x <==>
            PlannedRow(rows, c, f, student, k, StudentActions(rows, c, f, student, f.assess(student))[j], x)
  {
    hide KeptAction, OwnRow, InGroup, Joins, Lists, Members, StudentActions, BackfillPairs;
    var own := StudentActions(rows, c, f, student, f.assess(student))[j];
    JoinsIff(rows, c, f, student, j, k);
    KeptActionIff(rows, c, f, student, f.assess(student)[k], own);
    if own.root.Some? { GroupSizeIs(rows, c, f, own.root.value); }
  }

  lemma StudentPlanIff(rows: seq<Row>, c: Run, f: Facts, student: nat, x: Action)
    ensures x in MarkedList(StudentActions(rows, c, f, student, f.assess(student)), Lists(rows, c, f), f.groupMin) <==>
            exists k: nat, own :: k < |f.assess(student)| && PlannedRow(rows, c, f, student, k, own, x)
  {
    hide KeptAction, PlannedRow, Joins, Lists, StudentActions;
    var s := f.assess(student);
    var actions := StudentActions(rows, c, f, student, s);
    var marked := MarkedList(actions, Lists(rows, c, f), f.groupMin);
    if x in marked {
      var j: nat :| j < |marked| && marked[j] == x;
      var k := RowStems(rows, c, f, student, s, j);
      MarkedRowIs(rows, c, f, student, j, k, x);
    }
    if k: nat, own :| k < |s| && PlannedRow(rows, c, f, student, k, own, x) {
      OwnRowIsSome(rows, c, f, student, k, x);
      KeptStandsAt(rows, c, f, student, s, k);
      MarkedRowIs(rows, c, f, student, |StudentActions(rows, c, f, student, s[..k])|, k, x);
    }
  }

  lemma PlannedNeed(rows: seq<Row>, c: Run, f: Facts, student: nat, k: nat, own: Action, x: Action)
    requires k < |f.assess(student)| && PlannedRow(rows, c, f, student, k, own, x)
    ensures x.need == Need(Some(student), f.assess(student)[k].point)
  {
    hide Calls, Names, InGroup, AwaitsRetest, Retested;
  }

  /** The plan's rows for students are exactly those the evaluation calls for. */
  lemma OwnPlanIff(rows: seq<Row>, c: Run, f: Facts, x: Action)
    ensures x in Flatten(Marked(Lists(rows, c, f), f.groupMin)) <==> x.need.student.Some? && Planned(rows, c, f, x)
  {
    hide StudentActions, PlannedRow, MarkedList, Flatten, SortedDistinct;
    var roster, lists := Roster(f), Lists(rows, c, f);
    var marked := Marked(lists, f.groupMin);
    SortedDistinctFacts(f.committed);
    FlattenHas(marked, x);
    forall i | 0 <= i < |roster| ensures x in marked[i] <==>
        exists k: nat, own :: k < |f.assess(roster[i])| && PlannedRow(rows, c, f, roster[i], k, own, x)
    {
      StudentPlanIff(rows, c, f, roster[i], x);
      assert lists[i] == StudentActions(rows, c, f, roster[i], f.assess(roster[i]));
    }
    forall s: nat, k: nat, own | k < |f.assess(s)| && PlannedRow(rows, c, f, s, k, own, x)
      ensures x.need == Need(Some(s), f.assess(s)[k].point)
    {
      PlannedNeed(rows, c, f, s, k, own, x);
    }
  }

  lemma {:induction false} ClassRowsIff(f: Facts, points: seq<nat>, x: Action)
    ensures x in ClassActionsFor(f, points) <==>
            var weak, assessed := Tally(f, Roster(f), x.need.point, true), Tally(f, Roster(f), x.need.point, false);
            && x.need.point in points && assessed >= 4 && weak as real / assessed as real >= f.ratio
            && x == Action(Need(None, x.need.point), Reteach, WholeClass, None, None, ShareWeak(weak, assessed))
  {
    hide Tally, SortedDistinct;
    if points != [] {
      ClassRowsIff(f, points[..|points| - 1], x);
      assert points == points[..|points| - 1] + [points[|points| - 1]];
    }
  }

  /** The plan holds an action exactly when the evaluation calls for it. */
  lemma PlanIff(rows: seq<Row>, c: Run, f: Facts, x: Action)
    ensures x in MakePlan(rows, c, f).actions <==> Planned(rows, c, f, x)
  {
    hide Tally, SortedDistinct, ClassActionsFor, Flatten, Marked, Lists, PlannedRow, StudentActions, WeakPoints, Recovered, PointsAsked;
    OwnPlanIff(rows, c, f, x);
    ClassRowsIff(f, SortedDistinct(WeakPoints(f, Roster(f))), x);
    SortedDistinctFacts(WeakPoints(f, Roster(f)));
    WeakIffTallied(f, Roster(f), x.need.point);
  }
}
