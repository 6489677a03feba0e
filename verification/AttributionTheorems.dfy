/** Attributions over every run of materialising, overriding and verifying. */
module AttributionTheorems {
  import opened Options
  import opened Assessments
  import opened Attributions

  // ----- Findings have distinct keys -------------------------------------------------------------

  lemma HypothesesDiffer(e: Engines, a: Assessment)
    ensures DistinctKeys(AttributeAssessment(e, a))
    ensures forall i | 0 <= i < |AttributeAssessment(e, a)| :: AttributeAssessment(e, a)[i].key.point == a.point
  {
  }

  lemma {:induction false} FindingsAreAbout(e: Engines, s: seq<Assessment>, i: nat)
    requires i < |AllFindings(e, s)|
    ensures exists k :: 0 <= k < |s| && AllFindings(e, s)[i].key.point == s[k].point
  {
    hide AttributeAssessment;
    var n := |s| - 1;
    if i < |AllFindings(e, s[..n])| {
      FindingsAreAbout(e, s[..n], i);
      var k :| 0 <= k < n && AllFindings(e, s[..n])[i].key.point == s[..n][k].point;
      assert s[k] == s[..n][k];
    } else {
      HypothesesDiffer(e, s[n]);
      assert AllFindings(e, s)[i].key.point == s[n].point;
    }
  }

  lemma {:induction false} AllFindingsDiffer(e: Engines, s: seq<Assessment>)
    requires DistinctPoints(s)
    ensures DistinctKeys(AllFindings(e, s))
  {
    hide AttributeAssessment;
    if s != [] {
      var n := |s| - 1;
      AllFindingsDiffer(e, s[..n]);
      HypothesesDiffer(e, s[n]);
      forall i | 0 <= i < |AllFindings(e, s[..n])| ensures AllFindings(e, s[..n])[i].key.point != s[n].point {
        FindingsAreAbout(e, s[..n], i);
      }
    }
  }

  /** Assessments of distinct points yield findings with distinct keys at those points; being weak
      everywhere lowers prerequisite confidence to the cap and touches nothing else. */
  lemma FindingsAreDistinct(e: Engines, s: seq<Assessment>, graph: set<nat>)
    requires DistinctPoints(s) && forall i | 0 <= i < |s| :: s[i].point in graph
    ensures var all, f := AllFindings(e, s), Derive(e, s);
            && DistinctKeys(f) && |f| == |all|
            && (forall i | 0 <= i < |f| :: f[i].key.point in graph && f[i].key == all[i].key
                  && f[i].claim.root == all[i].claim.root && f[i].claim.prediction == all[i].claim.prediction
                  && (f[i].key.cause != Prerequisite || !WeakEverywhere(e, s) ==> f[i] == all[i])
                  && (f[i].key.cause == Prerequisite && WeakEverywhere(e, s) ==> f[i].claim.confidence <= e.cap)
                  && f[i].claim.confidence <= all[i].claim.confidence)
  {
    hide AllFindings, WeakEverywhere;
    AllFindingsDiffer(e, s);
    forall i | 0 <= i < |AllFindings(e, s)| ensures AllFindings(e, s)[i].key.point in graph {
      FindingsAreAbout(e, s, i);
    }
  }

  // ----- Invariant ------------------------------------------------------------------------------

  predicate Standing(r: Row) {
    r.status != Resolved
  }

  ghost predicate Keyed(t: Table) {
    && (forall i, k | 0 <= i < k < |t.rows| :: t.rows[i].id != t.rows[k].id)
    && (forall i | 0 <= i < |t.rows| :: t.rows[i].id < t.next)
  }

  /** At most one active-or-overridden row per student, point and cause. */
  ghost predicate OneStanding(rows: seq<Row>) {
    forall i, k | 0 <= i < k < |rows| && Standing(rows[i]) && Standing(rows[k]) ::
      rows[i].student != rows[k].student || rows[i].key != rows[k].key
  }

  ghost predicate Inv(t: Table) {
    Keyed(t) && OneStanding(t.rows)
  }

  // ----- The index of standing rows ---------------------------------------------------------------

  ghost predicate Holds(rows: seq<Row>, student: nat, graph: set<nat>, key: Key, id: nat) {
    exists i :: 0 <= i < |rows| && Stands(rows[i], student, graph) && rows[i].key == key && rows[i].id == id
  }

  ghost predicate Indexes(existing: map<Key, nat>, rows: seq<Row>, student: nat, graph: set<nat>) {
    && (forall i | 0 <= i < |rows| && Stands(rows[i], student, graph) :: rows[i].key in existing)
    && (forall key | key in existing :: Holds(rows, student, graph, key, existing[key]))
  }

  lemma {:induction false} ExistingIndexes(rows: seq<Row>, student: nat, graph: set<nat>)
    ensures Indexes(Existing(rows, student, graph), rows, student, graph)
  {
    if rows != [] {
      var n := |rows| - 1;
      var front, existing := rows[..n], Existing(rows, student, graph);
      ExistingIndexes(front, student, graph);
      forall i | 0 <= i < |rows| && Stands(rows[i], student, graph) ensures rows[i].key in existing {
        if i < n { assert front[i] == rows[i]; }
      }
      forall key | key in existing ensures Holds(rows, student, graph, key, existing[key]) {
        if Stands(rows[n], student, graph) && rows[n].key == key {
          assert rows[n].id == existing[key];
        } else {
          var i :| 0 <= i < n && Stands(front[i], student, graph) && front[i].key == key && front[i].id == existing[key];
          assert rows[i] == front[i];
        }
      }
    }
  }

  /** With unique standing rows and ids, a row is indexed exactly when it stands. */
  lemma IndexedIffStands(t: Table, student: nat, graph: set<nat>, i: nat)
    requires Inv(t) && i < |t.rows|
    ensures var existing, r := Existing(t.rows, student, graph), t.rows[i];
            r.key in existing && existing[r.key] == r.id <==> Stands(r, student, graph)
  {
    hide Existing;
    ExistingIndexes(t.rows, student, graph);
    var existing, r := Existing(t.rows, student, graph), t.rows[i];
    if r.key in existing {
      var k :| 0 <= k < |t.rows| && Stands(t.rows[k], student, graph) && t.rows[k].key == r.key && t.rows[k].id == existing[r.key];
    }
  }

  // ----- Inserted rows --------------------------------------------------------------------------

  lemma {:induction false} InsertedAreNew(findings: seq<Finding>, existing: map<Key, nat>, next: nat, student: nat, i: nat)
    requires i < |Inserted(findings, existing, next, student)|
    ensures var r := Inserted(findings, existing, next, student)[i];
            && r.key !in existing && r.student == student && r.status == Active && r.note == None && r.id == next + i
            && Finding(r.key, r.claim) in findings
  {
    var n := |findings| - 1;
    if i < |Inserted(findings[..n], existing, next, student)| {
      InsertedAreNew(findings[..n], existing, next, student, i);
    }
  }

  lemma {:induction false} MissingAreInserted(findings: seq<Finding>, existing: map<Key, nat>, next: nat, student: nat, k: nat)
    requires k < |findings| && findings[k].key !in existing
    ensures exists i :: 0 <= i < |Inserted(findings, existing, next, student)|
                        && Inserted(findings, existing, next, student)[i].key == findings[k].key
                        && Inserted(findings, existing, next, student)[i].claim == findings[k].claim
  {
    var n := |findings| - 1;
    var front, all := Inserted(findings[..n], existing, next, student), Inserted(findings, existing, next, student);
    if k < n {
      MissingAreInserted(findings[..n], existing, next, student, k);
      var i :| 0 <= i < |front| && front[i].key == findings[..n][k].key && front[i].claim == findings[..n][k].claim;
      assert all[i] == front[i];
    } else {
      assert all[|front|].key == findings[k].key;
    }
  }

  lemma {:induction false} InsertedDiffer(findings: seq<Finding>, existing: map<Key, nat>, next: nat, student: nat, i: nat, j: nat)
    requires DistinctKeys(findings) && i < j < |Inserted(findings, existing, next, student)|
    ensures Inserted(findings, existing, next, student)[i].key != Inserted(findings, existing, next, student)[j].key
  {
    var n := |findings| - 1;
    if j < |Inserted(findings[..n], existing, next, student)| {
      InsertedDiffer(findings[..n], existing, next, student, i, j);
    } else {
      InsertedAreNew(findings[..n], existing, next, student, i);
      var f := Inserted(findings[..n], existing, next, student)[i];
      var k :| 0 <= k < n && findings[..n][k] == Finding(f.key, f.claim);
    }
  }

  // ----- Every step keeps the invariant ------------------------------------------------------------

  lemma SettleFacts(r: Row, existing: map<Key, nat>, findings: seq<Finding>)
    ensures var q := Settle(r, existing, findings);
            && q.id == r.id && q.student == r.student && q.key == r.key
            && (Standing(q) ==> Standing(r)) && (r.status != Active ==> q == r) && (q.status == Active ==> r.status == Active)
  {
  }

  /** Rows after materialising: settled ones in place, then new ones under keys that had none. */
  lemma MaterialisedAt(t: Table, student: nat, graph: set<nat>, findings: seq<Finding>, i: nat)
    requires i < |Materialise(t.rows, t.next, student, graph, findings)|
    ensures var r, existing := Materialise(t.rows, t.next, student, graph, findings)[i], Existing(t.rows, student, graph);
            if i < |t.rows| then r == Settle(t.rows[i], existing, findings)
            else r.key !in existing && r.student == student && r.status == Active && r.note == None && r.id == t.next + (i - |t.rows|)
                 && Finding(r.key, r.claim) in findings
  {
    hide Existing, Inserted;
    if i >= |t.rows| {
      InsertedAreNew(findings, Existing(t.rows, student, graph), t.next, student, i - |t.rows|);
    }
  }

  lemma MaterialisedSize(t: Table, student: nat, graph: set<nat>, findings: seq<Finding>)
    ensures |Materialise(t.rows, t.next, student, graph, findings)| ==
            |t.rows| + NextAfter(t.rows, t.next, student, graph, findings) - t.next
    ensures NextAfter(t.rows, t.next, student, graph, findings) >= t.next
  {
  }

  lemma NewKeysHaveNoRow(t: Table, student: nat, graph: set<nat>, i: nat, key: Key)
    requires i < |t.rows| && key !in Existing(t.rows, student, graph) && key.point in graph
    ensures Standing(t.rows[i]) && t.rows[i].student == student ==> t.rows[i].key != key
  {
    hide Existing;
    ExistingIndexes(t.rows, student, graph);
  }

  lemma NewKeysDiffer(t: Table, student: nat, graph: set<nat>, findings: seq<Finding>, i: nat, k: nat)
    requires DistinctKeys(findings) && |t.rows| <= i < k < |Materialise(t.rows, t.next, student, graph, findings)|
    ensures Materialise(t.rows, t.next, student, graph, findings)[i].key != Materialise(t.rows, t.next, student, graph, findings)[k].key
  {
    hide Existing, Inserted;
    InsertedDiffer(findings, Existing(t.rows, student, graph), t.next, student, i - |t.rows|, k - |t.rows|);
  }

  lemma MaterialiseKeepsOneStanding(t: Table, e: Event)
    requires Inv(t) && e.Materialised? && WellPosed(e)
    ensures OneStanding(Step(t, e).rows)
  {
    hide Existing, Settle, Materialise, Keyed;
    var all := Step(t, e).rows;
    forall i, k | 0 <= i < k < |all| && Standing(all[i]) && Standing(all[k])
      ensures all[i].student != all[k].student || all[i].key != all[k].key
    {
      MaterialisedAt(t, e.student, e.graph, e.findings, i);
      MaterialisedAt(t, e.student, e.graph, e.findings, k);
      if i < |t.rows| { SettleFacts(t.rows[i], Existing(t.rows, e.student, e.graph), e.findings); }
      if k < |t.rows| {
        SettleFacts(t.rows[k], Existing(t.rows, e.student, e.graph), e.findings);
      } else if i < |t.rows| {
        var f := Finding(all[k].key, all[k].claim);
        var m :| 0 <= m < |e.findings| && e.findings[m] == f;
        NewKeysHaveNoRow(t, e.student, e.graph, i, all[k].key);
      } else {
        NewKeysDiffer(t, e.student, e.graph, e.findings, i, k);
      }
    }
  }

  lemma MaterialiseKeepsKeys(t: Table, e: Event)
    requires Keyed(t) && e.Materialised?
    ensures Keyed(Step(t, e))
  {
    hide Existing, Settle, Materialise, NextAfter;
    var all := Step(t, e).rows;
    MaterialisedSize(t, e.student, e.graph, e.findings);
    forall i | 0 <= i < |all| ensures all[i].id == if i < |t.rows| then t.rows[i].id else t.next + (i - |t.rows|) {
      MaterialisedAt(t, e.student, e.graph, e.findings, i);
      if i < |t.rows| { SettleFacts(t.rows[i], Existing(t.rows, e.student, e.graph), e.findings); }
    }
  }

  lemma StepKeepsInv(t: Table, e: Event)
    requires Inv(t) && WellPosed(e)
    ensures Inv(Step(t, e))
  {
    if e.Materialised? {
      MaterialiseKeepsKeys(t, e);
      MaterialiseKeepsOneStanding(t, e);
    }
  }

  /** Over every run there is at most one active-or-overridden row per student, point and cause. */
  lemma {:induction false} OneStandingRow(run: seq<Table>, events: seq<Event>, i: nat)
    requires IsRun(run, events) && i < |run|
    ensures Inv(run[i])
  {
    hide Inv, Step, WellPosed;
    if i == 0 { EmptyInv(); } else {
      OneStandingRow(run, events, i - 1);
      StepKeepsInv(run[i - 1], events[i - 1]);
    }
  }

  lemma EmptyInv()
    ensures Inv(Table([], 0))
  {
  }

  // ----- Verdicts are final ---------------------------------------------------------------------

  /** Rows never move or vanish, keep their student and key, and change only while active. */
  lemma StepFreezes(t: Table, e: Event, p: nat)
    requires p < |t.rows|
    ensures var t' := Step(t, e);
            && p < |t'.rows| && t'.rows[p].student == t.rows[p].student && t'.rows[p].key == t.rows[p].key
            && (t.rows[p].status != Active ==> t'.rows[p] == t.rows[p])
  {
    hide Existing, Settle, Inserted;
    if e.Materialised? {
      MaterialisedAt(t, e.student, e.graph, e.findings, p);
      SettleFacts(t.rows[p], Existing(t.rows, e.student, e.graph), e.findings);
    }
  }

  /** An overridden or resolved row stays exactly as it is, whatever happens later. */
  lemma {:induction false} VerdictsAreFinal(run: seq<Table>, events: seq<Event>, i: nat, k: nat, p: nat)
    requires IsRun(run, events) && i <= k < |run| && p < |run[i].rows|
    ensures p < |run[k].rows|
    ensures run[i].rows[p].status != Active ==> run[k].rows[p] == run[i].rows[p]
  {
    hide Step, WellPosed;
    if i < k {
      VerdictsAreFinal(run, events, i, k - 1, p);
      StepFreezes(run[k - 1], events[k - 1], p);
    }
  }

  /** Once a student's attribution has been overridden, no row for that key is ever active again. */
  lemma VetoIsNeverRevived(run: seq<Table>, events: seq<Event>, i: nat, k: nat, p: nat, q: nat)
    requires IsRun(run, events) && i <= k < |run| && p < |run[i].rows| && run[i].rows[p].status == Overridden
    requires q < |run[k].rows| && run[k].rows[q].student == run[i].rows[p].student && run[k].rows[q].key == run[i].rows[p].key
    ensures run[k].rows[q].status != Active
  {
    hide IsRun, Keyed;
    VerdictsAreFinal(run, events, i, k, p);
    OneStandingRow(run, events, k);
  }

  // ----- Reading and writing agree ------------------------------------------------------------------

  ghost predicate StoredActive(rows: seq<Row>, student: nat, graph: set<nat>, f: Finding) {
    exists i :: 0 <= i < |rows| && Stands(rows[i], student, graph) && rows[i].status == Active
                && rows[i].key == f.key && rows[i].claim == f.claim
  }

  lemma {:induction false} ClaimIsUnique(findings: seq<Finding>, i: nat)
    requires DistinctKeys(findings) && i < |findings|
    ensures Finds(findings, findings[i].key) && ClaimOn(findings, findings[i].key) == findings[i].claim
  {
    var c := ClaimOn(findings, findings[i].key);
    var k :| 0 <= k < |findings| && findings[k] == Finding(findings[i].key, c);
  }

  lemma SettledActive(r: Row, existing: map<Key, nat>, findings: seq<Finding>)
    requires r.key in existing && existing[r.key] == r.id
    ensures var q := Settle(r, existing, findings);
            && (q.status == Active <==> r.status == Active && Finds(findings, r.key))
            && (q.status == Active ==> q.claim == ClaimOn(findings, r.key))
  {
  }

  lemma StoredIsRead(t: Table, e: Event, i: nat)
    requires Inv(t) && e.Materialised? && WellPosed(e)
    requires i < |Step(t, e).rows| && Stands(Step(t, e).rows[i], e.student, e.graph) && Step(t, e).rows[i].status == Active
    ensures var r := Step(t, e).rows[i]; ReadAsActive(t.rows, e.student, e.graph, e.findings, Finding(r.key, r.claim))
  {
    hide Existing, Materialise, Settle, ClaimOn, NextAfter;
    var r, existing := Step(t, e).rows[i], Existing(t.rows, e.student, e.graph);
    MaterialisedAt(t, e.student, e.graph, e.findings, i);
    ExistingIndexes(t.rows, e.student, e.graph);
    if i < |t.rows| {
      SettleFacts(t.rows[i], existing, e.findings);
      IndexedIffStands(t, e.student, e.graph, i);
      SettledActive(t.rows[i], existing, e.findings);
    }
  }

  lemma ReadIsStored(t: Table, e: Event, k: nat)
    requires Inv(t) && e.Materialised? && WellPosed(e) && k < |e.findings|
    requires !Vetoed(t.rows, e.student, e.graph, e.findings[k].key)
    ensures StoredActive(Step(t, e).rows, e.student, e.graph, e.findings[k])
  {
    hide Existing, Settle, ClaimOn, Inserted, OneStanding;
    var f, existing, all := e.findings[k], Existing(t.rows, e.student, e.graph), Step(t, e).rows;
    ExistingIndexes(t.rows, e.student, e.graph);
    if f.key in existing {
      var i :| 0 <= i < |t.rows| && Stands(t.rows[i], e.student, e.graph) && t.rows[i].key == f.key && t.rows[i].id == existing[f.key];
      assert t.rows[i].status == Active;
      ClaimIsUnique(e.findings, k);
      SettledActive(t.rows[i], existing, e.findings);
      SettleFacts(t.rows[i], existing, e.findings);
      assert all[i] == Settle(t.rows[i], existing, e.findings);
    } else {
      MissingAreInserted(e.findings, existing, t.next, e.student, k);
      var added := Inserted(e.findings, existing, t.next, e.student);
      var i :| 0 <= i < |added| && added[i].key == f.key && added[i].claim == f.claim;
      InsertedAreNew(e.findings, existing, t.next, e.student, i);
      assert all[|t.rows| + i] == added[i];
    }
  }

  /** What materialising leaves active in the graph is exactly what reading shows as active. */
  lemma ReadAndWriteAgree(t: Table, e: Event, f: Finding)
    requires Inv(t) && e.Materialised? && WellPosed(e)
    ensures StoredActive(Step(t, e).rows, e.student, e.graph, f) <==> ReadAsActive(t.rows, e.student, e.graph, e.findings, f)
  {
    hide Inv, WellPosed, Step, Vetoed;
    if StoredActive(Step(t, e).rows, e.student, e.graph, f) {
      var rows := Step(t, e).rows;
      var i :| 0 <= i < |rows| && Stands(rows[i], e.student, e.graph) && rows[i].status == Active
               && rows[i].key == f.key && rows[i].claim == f.claim;
      StoredIsRead(t, e, i);
    }
    if ReadAsActive(t.rows, e.student, e.graph, e.findings, f) {
      var k :| 0 <= k < |e.findings| && e.findings[k] == f;
      ReadIsStored(t, e, k);
    }
  }

  /** Materialising changes no veto, so reading before and after shows the same; and it touches
      no other student, no other graph and no resolved row. */
  lemma MaterialisingSparesTheRest(t: Table, e: Event, key: Key, p: nat)
    requires Inv(t) && e.Materialised? && WellPosed(e)
    ensures Vetoed(Step(t, e).rows, e.student, e.graph, key) <==> Vetoed(t.rows, e.student, e.graph, key)
    ensures p < |t.rows| && !Stands(t.rows[p], e.student, e.graph) ==> p < |Step(t, e).rows| && Step(t, e).rows[p] == t.rows[p]
  {
    hide Existing, Materialise, Settle, NextAfter;
    var existing, all := Existing(t.rows, e.student, e.graph), Step(t, e).rows;
    MaterialisedSize(t, e.student, e.graph, e.findings);
    if i :| 0 <= i < |t.rows| && Vetoes(t.rows[i], e.student, e.graph, key) {
      StepFreezes(t, e, i);
      assert Vetoes(all[i], e.student, e.graph, key);
    }
    if i :| 0 <= i < |all| && Vetoes(all[i], e.student, e.graph, key) {
      MaterialisedAt(t, e.student, e.graph, e.findings, i);
      SettleStatus(t.rows[i], existing, e.findings);
      assert Vetoes(t.rows[i], e.student, e.graph, key);
    }
    if p < |t.rows| && !Stands(t.rows[p], e.student, e.graph) {
      MaterialisedAt(t, e.student, e.graph, e.findings, p);
      IndexedIffStands(t, e.student, e.graph, p);
      UnindexedStay(t.rows[p], existing, e.findings);
    }
  }

  lemma SettleStatus(r: Row, existing: map<Key, nat>, findings: seq<Finding>)
    ensures var q := Settle(r, existing, findings); q.status == Overridden ==> q == r
  {
  }

  lemma UnindexedStay(r: Row, existing: map<Key, nat>, findings: seq<Finding>)
    requires !(r.key in existing && existing[r.key] == r.id)
    ensures Settle(r, existing, findings) == r
  {
  }

  // ----- The returned list --------------------------------------------------------------------------

  lemma {:induction false} ActiveOnFinds(rows: seq<Row>, student: nat, key: Key)
    ensures ActiveOn(rows, student, key).Some? ==>
              var row := ActiveOn(rows, student, key).value;
              row in rows && row.student == student && row.key == key && row.status == Active
    ensures ActiveOn(rows, student, key).None? ==>
              forall i | 0 <= i < |rows| :: !(rows[i].student == student && rows[i].key == key && rows[i].status == Active)
  {
    if rows != [] {
      ActiveOnFinds(rows[..|rows| - 1], student, key);
      assert forall i | 0 <= i < |rows| - 1 :: rows[..|rows| - 1][i] == rows[i];
    }
  }

  lemma KeyIsInGraph(e: Event, k: nat)
    requires e.Materialised? && WellPosed(e) && k < |e.findings|
    ensures e.findings[k].key.point in e.graph
  {
  }

  /** After materialising, a finding has an active row, with its content, exactly when it is not vetoed. */
  lemma ActiveOnIff(t: Table, e: Event, k: nat)
    requires Inv(t) && e.Materialised? && WellPosed(e) && k < |e.findings|
    ensures var row, f := ActiveOn(Step(t, e).rows, e.student, e.findings[k].key), e.findings[k];
            && (row.Some? <==> !Vetoed(t.rows, e.student, e.graph, f.key))
            && (row.Some? ==> row.value.claim == f.claim)
  {
    hide Step, Inv, Vetoed, ActiveOn;
    var rows, f := Step(t, e).rows, e.findings[k];
    ActiveOnFinds(rows, e.student, f.key);
    KeyIsInGraph(e, k);
    if ActiveOn(rows, e.student, f.key).Some? {
      var row := ActiveOn(rows, e.student, f.key).value;
      var i :| 0 <= i < |rows| && rows[i] == row;
      StoredIsRead(t, e, i);
      var m :| 0 <= m < |e.findings| && e.findings[m] == Finding(row.key, row.claim);
    }
    if !Vetoed(t.rows, e.student, e.graph, f.key) {
      ReadIsStored(t, e, k);
    }
  }

  /** A row and the finding it stores. */
  ghost predicate Stores(row: Row, student: nat, f: Finding) {
    row.student == student && row.status == Active && row.key == f.key && row.claim == f.claim
  }

  /** The rows materialising returns are, one by one and in order, what reading shows as active. */
  lemma {:induction false} ReturnedIsShown(t: Table, e: Event, n: nat)
    requires Inv(t) && e.Materialised? && WellPosed(e) && n <= |e.findings|
    ensures var list := ActiveList(Step(t, e).rows, e.student, e.findings[..n]);
            var shown := Shown(t.rows, e.student, e.graph, e.findings[..n]);
            && |list| == |shown|
            && forall i | 0 <= i < |list| :: list[i] in Step(t, e).rows && Stores(list[i], e.student, shown[i])
  {
    hide Step, Inv, WellPosed, Vetoed, ActiveOn;
    if n > 0 {
      ReturnedIsShown(t, e, n - 1);
      assert e.findings[..n][..n - 1] == e.findings[..n - 1];
      ActiveOnIff(t, e, n - 1);
      ActiveOnFinds(Step(t, e).rows, e.student, e.findings[n - 1].key);
    }
  }

  // ----- The fate of every row --------------------------------------------------------------------

  /** Materialising touches the student's active rows in the graph and no others: one whose key is found
      again takes over the claim, one that is not found is resolved. */
  lemma MaterialisedRowFate(t: Table, e: Event, p: nat)
    requires Inv(t) && e.Materialised? && WellPosed(e) && p < |t.rows|
    ensures p < |Step(t, e).rows|
    ensures var r, q := t.rows[p], Step(t, e).rows[p];
            if r.student == e.student && r.key.point in e.graph && r.status == Active then
              && (forall k | 0 <= k < |e.findings| && e.findings[k].key == r.key :: q == r.(claim := e.findings[k].claim))
              && ((forall k | 0 <= k < |e.findings| :: e.findings[k].key != r.key) ==> q == r.(status := Resolved))
            else q == r
  {
    hide Existing, Inserted, ClaimOn, Inv, Finds;
    var r, existing := t.rows[p], Existing(t.rows, e.student, e.graph);
    MaterialisedSize(t, e.student, e.graph, e.findings);
    MaterialisedAt(t, e.student, e.graph, e.findings, p);
    IndexedIffStands(t, e.student, e.graph, p);
    forall k | 0 <= k < |e.findings| && e.findings[k].key == r.key ensures Finds(e.findings, r.key) && ClaimOn(e.findings, r.key) == e.findings[k].claim {
      ClaimIsUnique(e.findings, k);
    }
    FindsSome(e.findings, r.key);
  }

  lemma FindsSome(findings: seq<Finding>, key: Key)
    ensures Finds(findings, key) ==> exists k :: 0 <= k < |findings| && findings[k].key == key
  {
  }

  /** A new row is an active, unannotated row of the student for a finding whose key had no active or
      overridden row. */
  lemma MaterialisedNewRow(t: Table, e: Event, p: nat)
    requires Inv(t) && e.Materialised? && WellPosed(e) && |t.rows| <= p < |Step(t, e).rows|
    ensures var q := Step(t, e).rows[p];
            && q.student == e.student && q.status == Active && q.note == None && q.id == t.next + (p - |t.rows|)
            && Finding(q.key, q.claim) in e.findings
            && forall i | 0 <= i < |t.rows| && t.rows[i].student == e.student && t.rows[i].key == q.key :: t.rows[i].status == Resolved
  {
    hide Existing, Inserted, Inv;
    var existing := Existing(t.rows, e.student, e.graph);
    MaterialisedAt(t, e.student, e.graph, e.findings, p);
    InsertedAreNew(e.findings, existing, t.next, e.student, p - |t.rows|);
    var q := Step(t, e).rows[p];
    var k :| 0 <= k < |e.findings| && e.findings[k] == Finding(q.key, q.claim);
    forall i | 0 <= i < |t.rows| && t.rows[i].student == e.student && t.rows[i].key == q.key ensures t.rows[i].status == Resolved {
      NewKeysHaveNoRow(t, e.student, e.graph, i, q.key);
    }
  }

  // ----- Weak everywhere ------------------------------------------------------------------------------

  ghost function PastGate(s: seq<Assessment>): set<nat> {
    set i: nat | i < |s| && s[i].gate == Open && s[i].mastery.Some?
  }

  /** The sample is the number of assessments past the gate that have a mastery. */
  lemma {:induction false} SampleIs(s: seq<Assessment>)
    ensures ValidCount(s) == |PastGate(s)|
  {
    hide PastGate;
    if s == [] {
      NobodyPastGate();
    } else {
      var n := |s| - 1;
      SampleIs(s[..n]);
      PastGateAdds(s[..n], s[n]);
      assert s == s[..n] + [s[n]];
    }
  }

  lemma NobodyPastGate()
    ensures PastGate([]) == {}
  {
  }

  lemma PastGateAdds(s: seq<Assessment>, a: Assessment)
    ensures |PastGate(s + [a])| == |PastGate(s)| + if a.gate == Open && a.mastery.Some? then 1 else 0
  {
    var all, before, n := s + [a], PastGate(s), |s|;
    assert all[n] == a;
    assert forall i | 0 <= i < n :: all[i] == s[i];
    assert PastGate(all) == if a.gate == Open && a.mastery.Some? then before + {n} else before;
  }

  /** Each of them weighs its importance, in the whole and, if weak, in the weak part. */
  lemma WeightAdds(e: Engines, s: seq<Assessment>, a: Assessment, weakOnly: bool)
    ensures Weight(e, s + [a], weakOnly) ==
            Weight(e, s, weakOnly) + if a.gate == Open && a.mastery.Some? && (weakOnly ==> a.weak) then e.importance(a.point) else 0.0
  {
    assert (s + [a])[..|s|] == s;
  }
}
