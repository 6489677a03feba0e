/** The attribution table as the pipeline and the teachers update it: backend/app/pipeline/attribution.py. */
module AttributionTables {
  import opened Options
  import opened Assessments
  import opened Attributions
  import opened AttributionTheorems

  // ----- One finding at a time -----------------------------------------------------------------

  predicate Indexed(existing: map<Key, nat>, r: Row) {
    r.key in existing && existing[r.key] == r.id
  }

  /** Ids in the index name rows of their own key. */
  ghost predicate Addresses(existing: map<Key, nat>, rows: seq<Row>) {
    forall i, key | 0 <= i < |rows| && key in existing && existing[key] == rows[i].id :: rows[i].key == key
  }

  lemma ExistingAddresses(t: Table, student: nat, graph: set<nat>)
    requires Keyed(t)
    ensures var existing := Existing(t.rows, student, graph);
            Addresses(existing, t.rows) && forall key | key in existing :: existing[key] < t.next
  {
    hide Existing;
    ExistingIndexes(t.rows, student, graph);
    var existing := Existing(t.rows, student, graph);
    assert forall key | key in existing :: Holds(t.rows, student, graph, key, existing[key]);
  }

  function Refreshed(r: Row, existing: map<Key, nat>, findings: seq<Finding>): Row {
    if Indexed(existing, r) && r.status == Active && Finds(findings, r.key) then r.(claim := ClaimOn(findings, r.key)) else r
  }

  function RefreshedRows(rows: seq<Row>, existing: map<Key, nat>, findings: seq<Finding>): seq<Row> {
    seq(|rows|, i requires 0 <= i < |rows| => Refreshed(rows[i], existing, findings))
  }

  function RefreshById(rows: seq<Row>, id: nat, claim: Claim): seq<Row> {
    seq(|rows|, i requires 0 <= i < |rows| => if rows[i].id == id && rows[i].status == Active then rows[i].(claim := claim) else rows[i])
  }

  function ResolveById(rows: seq<Row>, id: nat): seq<Row> {
    seq(|rows|, i requires 0 <= i < |rows| => if rows[i].id == id && rows[i].status == Active then rows[i].(status := Resolved) else rows[i])
  }

  function ResolvedRows(rows: seq<Row>, existing: map<Key, nat>, findings: seq<Finding>, looked: set<Key>): seq<Row> {
    seq(|rows|, i requires 0 <= i < |rows| =>
      if Indexed(existing, rows[i]) && rows[i].key in looked && rows[i].status == Active && !Finds(findings, rows[i].key)
      then rows[i].(status := Resolved) else rows[i])
  }

  lemma FindsMore(findings: seq<Finding>, k: nat, key: Key)
    requires k < |findings|
    ensures Finds(findings[..k + 1], key) <==> Finds(findings[..k], key) || findings[k].key == key
    ensures Finds(findings[..k + 1], key) ==>
              ClaimOn(findings[..k + 1], key) == if findings[k].key == key then findings[k].claim else ClaimOn(findings[..k], key)
  {
    var more, less := findings[..k + 1], findings[..k];
    assert more[..k] == less && more[k] == findings[k];
    if Finds(more, key) && findings[k].key != key {
      var i :| 0 <= i < |more| && more[i].key == key;
      assert less[i].key == key;
    }
    if Finds(less, key) {
      var i :| 0 <= i < |less| && less[i].key == key;
      assert more[i].key == key;
    }
  }

  lemma InsertedStep(findings: seq<Finding>, k: nat, existing: map<Key, nat>, next: nat, student: nat)
    requires k < |findings|
    ensures var f, front := findings[k], Inserted(findings[..k], existing, next, student);
            Inserted(findings[..k + 1], existing, next, student) ==
            if f.key in existing then front else front + [Row(next + |front|, student, f.key, f.claim, Active, None)]
  {
    assert findings[..k + 1][..k] == findings[..k];
  }

  lemma RefreshStep(before: Row, existing: map<Key, nat>, findings: seq<Finding>, k: nat)
    requires k < |findings|
    requires forall key | key in existing && existing[key] == before.id :: before.key == key
    ensures var f, now := findings[k], Refreshed(before, existing, findings[..k]);
            Refreshed(before, existing, findings[..k + 1]) ==
            if f.key in existing && existing[f.key] == now.id && now.status == Active then now.(claim := f.claim) else now
  {
    hide ClaimOn, Finds;
    FindsMore(findings, k, before.key);
  }

  /** One finding takes the table from k stored findings to k + 1. */
  lemma StoreStep(before: seq<Row>, existing: map<Key, nat>, findings: seq<Finding>, k: nat, next: nat, student: nat)
    requires k < |findings| && Addresses(existing, before) && forall key | key in existing :: existing[key] < next
    ensures var f, added := findings[k], Inserted(findings[..k], existing, next, student);
            var now := RefreshedRows(before, existing, findings[..k]) + added;
            RefreshedRows(before, existing, findings[..k + 1]) + Inserted(findings[..k + 1], existing, next, student) ==
            if f.key in existing then RefreshById(now, existing[f.key], f.claim)
            else now + [Row(next + |added|, student, f.key, f.claim, Active, None)]
  {
    hide Inserted, Refreshed;
    var f, added := findings[k], Inserted(findings[..k], existing, next, student);
    var now, then' := RefreshedRows(before, existing, findings[..k]), RefreshedRows(before, existing, findings[..k + 1]);
    InsertedStep(findings, k, existing, next, student);
    forall i | 0 <= i < |before| ensures
      then'[i] == if f.key in existing && existing[f.key] == now[i].id && now[i].status == Active then now[i].(claim := f.claim) else now[i]
    {
      RefreshStep(before[i], existing, findings, k);
    }
    if f.key in existing {
      forall i | 0 <= i < |added| ensures added[i].id != existing[f.key] {
        InsertedAreNew(findings[..k], existing, next, student, i);
      }
      assert then' + added == RefreshById(now + added, existing[f.key], f.claim);
    } else {
      assert then' == now;
    }
  }

  lemma ResolveStep(before: seq<Row>, existing: map<Key, nat>, findings: seq<Finding>, looked: set<Key>, key: Key)
    requires Addresses(existing, before) && key in existing && key !in looked
    ensures var now := ResolvedRows(before, existing, findings, looked);
            ResolvedRows(before, existing, findings, looked + {key}) ==
            if Finds(findings, key) then now else ResolveById(now, existing[key])
  {
    hide Finds;
    var now, then' := ResolvedRows(before, existing, findings, looked), ResolvedRows(before, existing, findings, looked + {key});
    forall i | 0 <= i < |before| ensures
      then'[i] == if !Finds(findings, key) && now[i].id == existing[key] && now[i].status == Active then now[i].(status := Resolved) else now[i]
    {
    }
    if Finds(findings, key) { assert then' == now; } else { assert then' == ResolveById(now, existing[key]); }
  }

  lemma StoredAddresses(t: Table, existing: map<Key, nat>, findings: seq<Finding>, student: nat)
    requires Addresses(existing, t.rows) && forall key | key in existing :: existing[key] < t.next
    ensures Addresses(existing, RefreshedRows(t.rows, existing, findings) + Inserted(findings, existing, t.next, student))
  {
    hide Inserted, ClaimOn, Finds;
    var added := Inserted(findings, existing, t.next, student);
    var all := RefreshedRows(t.rows, existing, findings) + added;
    forall i | 0 <= i < |added| ensures added[i].id >= t.next { InsertedAreNew(findings, existing, t.next, student, i); }
    forall i | 0 <= i < |t.rows| ensures all[i].id == t.rows[i].id && all[i].key == t.rows[i].key {
    }
  }

  /** Storing all findings and then resolving is the one-pass reconciliation. */
  lemma StepsMaterialise(t: Table, student: nat, graph: set<nat>, findings: seq<Finding>)
    requires Keyed(t)
    ensures var existing := Existing(t.rows, student, graph);
            var stored := RefreshedRows(t.rows, existing, findings) + Inserted(findings, existing, t.next, student);
            ResolvedRows(stored, existing, findings, existing.Keys) == Materialise(t.rows, t.next, student, graph, findings)
  {
    hide Existing, Inserted, Finds, ClaimOn;
    var existing := Existing(t.rows, student, graph);
    var added := Inserted(findings, existing, t.next, student);
    ExistingAddresses(t, student, graph);
    forall i | 0 <= i < |added| ensures !Indexed(existing, added[i]) { InsertedAreNew(findings, existing, t.next, student, i); }
  }

  class AttributionTable {
    var rows: seq<Row>
    var next: nat

    function State(): Table
      reads this
    {
      Table(rows, next)
    }

    constructor ()
      ensures State() == Table([], 0)
    {
      rows, next := [], 0;
    }

    method StoreFindings(student: nat, findings: seq<Finding>, existing: map<Key, nat>)
      requires Addresses(existing, rows) && forall key | key in existing :: existing[key] < next
      modifies this
      ensures var added := Inserted(findings, existing, old(next), student);
              rows == RefreshedRows(old(rows), existing, findings) + added && next == old(next) + |added|
    {
      hide RefreshedRows, Addresses, RefreshById;
      ghost var before, first := rows, next;
      NothingStored(before, existing, findings);
      for k := 0 to |findings|
        invariant rows == RefreshedRows(before, existing, findings[..k]) + Inserted(findings[..k], existing, first, student)
        invariant next == first + |Inserted(findings[..k], existing, first, student)|
      {
        StoreStep(before, existing, findings, k, first, student);
        InsertedStep(findings, k, existing, first, student);
        var f := findings[k];
        if f.key in existing {
          rows := RefreshById(rows, existing[f.key], f.claim);
        } else {
          rows := rows + [Row(next, student, f.key, f.claim, Active, None)];
          next := next + 1;
        }
      }
      assert findings[..|findings|] == findings;
    }

    method ResolveMissing(findings: seq<Finding>, existing: map<Key, nat>)
      requires Addresses(existing, rows)
      modifies this`rows
      ensures rows == ResolvedRows(old(rows), existing, findings, existing.Keys)
    {
      hide ResolvedRows, Addresses, ResolveById, Finds;
      ghost var before, looked := rows, {};
      var todo := existing.Keys;
      NothingResolved(before, existing, findings);
      while todo != {}
        invariant looked + todo == existing.Keys && looked !! todo
        invariant rows == ResolvedRows(before, existing, findings, looked)
        decreases |todo|
      {
        var key :| key in todo;
        ResolveStep(before, existing, findings, looked, key);
        if !Finds(findings, key) { rows := ResolveById(rows, existing[key]); }
        todo, looked := todo - {key}, looked + {key};
      }
      assert looked == existing.Keys;
    }

    /** Returns the active rows of the findings: one for each finding shown as active, in order. */
    method MaterialiseVerdicts(student: nat, graph: set<nat>, findings: seq<Finding>) returns (active: seq<Row>)
      requires Inv(State()) && WellPosed(Materialised(student, graph, findings))
      modifies this
      ensures State() == Step(old(State()), Materialised(student, graph, findings)) && Inv(State())
      ensures var shown := Shown(old(rows), student, graph, findings);
              && |active| == |shown|
              && forall i | 0 <= i < |active| :: active[i] in rows && Stores(active[i], student, shown[i])
    {
      hide RefreshedRows, Addresses, ResolvedRows, Inserted, Materialise, OneStanding;
      ghost var t := State();
      var existing: map<Key, nat> := map[];
      for i := 0 to |rows|
        invariant existing == Existing(rows[..i], student, graph)
      {
        assert rows[..i + 1][..i] == rows[..i];
        if Stands(rows[i], student, graph) { existing := existing[rows[i].key := rows[i].id]; }
      }
      assert rows[..|rows|] == rows;
      hide Existing;
      ExistingAddresses(t, student, graph);
      StoreFindings(student, findings, existing);
      StoredAddresses(t, existing, findings, student);
      ResolveMissing(findings, existing);
      StepsMaterialise(t, student, graph, findings);
      StepKeepsInv(t, Materialised(student, graph, findings));
      active := ListActive(rows, student, findings);
      ReturnedIsShown(t, Materialised(student, graph, findings), |findings|);
      assert findings[..|findings|] == findings;
    }

    /** True when the override was accepted. */
    method OverrideAttribution(i: nat, note: Option<string>) returns (ok: bool)
      requires Inv(State())
      modifies this`rows
      ensures State() == Step(old(State()), TeacherOverrides(i, note)) && Inv(State())
      ensures ok <==> i < |old(rows)| && old(rows)[i].status == Active
    {
      StepKeepsInv(State(), TeacherOverrides(i, note));
      ok := i < |rows| && rows[i].status == Active;
      if ok { rows := rows[i := rows[i].(status := Overridden, note := note)]; }
    }

    method VerifyPrediction(i: nat, count: nat, mastery: Option<real>, minEvidence: nat, finding: string) returns (ok: bool)
      requires Inv(State())
      modifies this`rows
      ensures State() == Step(old(State()), Verified(i, count, mastery, minEvidence, finding)) && Inv(State())
      ensures ok <==> i < |old(rows)| && old(rows)[i].status == Active && old(rows)[i].key.cause == Prerequisite
                      && old(rows)[i].claim.root.Some?
      ensures ok ==> (rows[i].status == Overridden <==> count >= minEvidence && mastery.Some? && mastery.value >= 0.6)
      ensures ok ==> rows[i].note == Some(finding) && rows == old(rows)[i := rows[i]] && rows[i].(status := Active, note := old(rows)[i].note) == old(rows)[i]
    {
      StepKeepsInv(State(), Verified(i, count, mastery, minEvidence, finding));
      ok := i < |rows| && rows[i].status == Active && rows[i].key.cause == Prerequisite && rows[i].claim.root.Some?;
      if ok {
        if count >= minEvidence && mastery.Some? && mastery.value >= RootThreshold { rows := rows[i := rows[i].(status := Overridden)]; }
        rows := rows[i := rows[i].(note := Some(finding))];
      }
    }
  }

  method ListActive(rows: seq<Row>, student: nat, findings: seq<Finding>) returns (active: seq<Row>)
    ensures active == ActiveList(rows, student, findings)
  {
    hide ActiveOn;
    active := [];
    for k := 0 to |findings|
      invariant active == ActiveList(rows, student, findings[..k])
    {
      assert findings[..k + 1][..k] == findings[..k];
      var row := ActiveOn(rows, student, findings[k].key);
      if row.Some? { active := active + [row.value]; }
    }
    assert findings[..|findings|] == findings;
  }

  lemma NothingStored(before: seq<Row>, existing: map<Key, nat>, findings: seq<Finding>)
    ensures RefreshedRows(before, existing, findings[..0]) == before && findings[..0] == []
  {
  }

  lemma NothingResolved(before: seq<Row>, existing: map<Key, nat>, findings: seq<Finding>)
    ensures ResolvedRows(before, existing, findings, {}) == before
  {
  }

  // ----- Deriving findings ---------------------------------------------------------------------

  /** Collects the findings, then caps prerequisite confidences in place if the student is weak everywhere. */
  method DeriveFindings(e: Engines, s: seq<Assessment>) returns (findings: seq<Finding>)
    ensures findings == Derive(e, s)
  {
    hide AttributeAssessment, Capped;
    findings := [];
    var valid, total, weak := 0, 0.0, 0.0;
    for i := 0 to |s|
      invariant findings == AllFindings(e, s[..i])
      invariant valid == ValidCount(s[..i]) && total == Weight(e, s[..i], false) && weak == Weight(e, s[..i], true)
    {
      assert s[..i + 1][..i] == s[..i];
      findings := findings + AttributeAssessment(e, s[i]);
      if Valid(s[i]) {
        valid, total := valid + 1, total + e.importance(s[i].point);
        if s[i].weak { weak := weak + e.importance(s[i].point); }
      }
    }
    assert s[..|s|] == s;
    if valid >= e.minSample && total > 0.0 && weak / total >= e.ratio {
      ghost var before := findings;
      for i := 0 to |findings|
        invariant |findings| == |before|
        invariant forall k | 0 <= k < |findings| :: findings[k] == if k < i then Capped(e, before[k]) else before[k]
      {
        findings := findings[i := Capped(e, findings[i])];
      }
    }
  }
}
