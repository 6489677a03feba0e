/** The table after a generation run, row by row, in terms of the rows before it and the evaluation. */
module GenerationOutcome {
  import opened Options
  import opened Interventions
  import opened InterventionPlan
  import opened InterventionTheorems
  import opened PlanTheorems
  import opened PlanMeaning
  import opened GenerationTheorems

  /** A suggestion of the class, at a point of the graph. */
  predicate Standing(r: Row, c: Run) {
    r.classId == c.classId && r.need.point in c.graph && r.status == Suggested
  }

  ghost predicate Outdated(rows: seq<Row>, c: Run, r: Row) {
    exists k :: 0 <= k < |rows| && Standing(rows[k], c) && rows[k].exam != c.exam && rows[k].need == r.need && rows[k].id > r.id
  }

  /** The row says what the action asks for, as of this run. */
  predicate Says(r: Row, x: Action, c: Run) {
    && r.exam == c.exam && r.report == c.report && r.kind == x.kind && r.scope == x.scope && r.attribution == x.attribution
    && r.baseline == c.asOf && r.note == x.note
    && r.group == (if x.scope == Group then Some(GroupRef(if c.report.Some? then c.report.value else 0, x.root)) else None)
  }

  /** Same suggestion: what a refresh leaves alone. */
  predicate SameEntry(r: Row, q: Row) {
    && q.id == r.id && q.classId == r.classId && q.need == r.need && q.status == r.status
    && q.suggestedAt == r.suggestedAt && q.doneAt == r.doneAt
  }

  ghost predicate Wanted(rows: seq<Row>, c: Run, f: Facts, need: Need) {
    exists x :: Planned(rows, c, f, x) && x.need == need
  }

  /** What becomes of a row that is not a suggestion of this very exam. */
  ghost predicate Becomes(rows: seq<Row>, c: Run, f: Facts, r: Row, q: Row) {
    if !Standing(r, c) then q == r
    else if Outdated(rows, c, r) then q == r.(status := Skipped, note := Merged)
    else if Wanted(rows, c, f, r.need) then SameEntry(r, q) && exists x :: Planned(rows, c, f, x) && x.need == r.need && Says(q, x, c)
    else if Unfounded(rows, c, f, r.need) then q == r.(status := Skipped, note := Unsupported)
    else q == r
  }

  /** A new suggestion for an action whose need nothing pending covers. */
  ghost predicate IsNew(rows: seq<Row>, next: nat, c: Run, f: Facts, q: Row) {
    && q.id >= next && q.classId == c.classId && q.status == Suggested && q.suggestedAt == c.now && q.doneAt == None
    && !Covered(rows, c, q.need)
    && exists x :: Planned(rows, c, f, x) && x.need == q.need && Says(q, x, c)
  }

  ghost predicate Covered(rows: seq<Row>, c: Run, need: Need) {
    exists k :: 0 <= k < |rows| && Standing(rows[k], c) && rows[k].exam != c.exam && rows[k].need == need
  }

  lemma CoveredIff(rows: seq<Row>, c: Run, need: Need)
    ensures need in Latest(Remaining(rows, c), c) <==> Covered(rows, c, need)
  {
    hide Latest, Remaining;
    var kept := Remaining(rows, c);
    LatestAreLatest(kept, c);
    if need in Latest(kept, c) {
      assert Attained(kept, c, need, Latest(kept, c)[need]);
      var m :| 0 <= m < |kept| && Queued(kept[m], c) && kept[m].need == need;
      RemainingAreRows(rows, c, m);
      var i :| 0 <= i < |rows| && rows[i] == kept[m];
    }
    if i :| 0 <= i < |rows| && Standing(rows[i], c) && rows[i].exam != c.exam && rows[i].need == need {
      PendingIsNoLater(rows, c, i);
    }
  }

  lemma OutdatedIff(rows: seq<Row>, next: nat, c: Run, i: nat)
    requires Keyed(rows, next) && i < |rows| && Pending(rows[i], c)
    ensures var latest := Latest(Remaining(rows, c), c);
            rows[i].need in latest && (Outdated(rows, c, rows[i]) <==> latest[rows[i].need] != rows[i].id)
  {
    hide Latest, Remaining, Keyed;
    NewestIffLatest(rows, next, c, i);
  }

  lemma WantedIff(rows: seq<Row>, c: Run, f: Facts, need: Need)
    ensures Asks(MakePlan(rows, c, f).actions, need) <==> Wanted(rows, c, f, need)
  {
    hide MakePlan, Planned;
    var actions := MakePlan(rows, c, f).actions;
    forall x ensures x in actions <==> Planned(rows, c, f, x) { PlanIff(rows, c, f, x); }
    if x :| Planned(rows, c, f, x) && x.need == need { assert x in actions; }
  }

  lemma SettleBecomes(rows: seq<Row>, next: nat, c: Run, f: Facts, i: nat)
    requires Keyed(rows, next) && WellPosed(f, c) && i < |rows| && !Cleared(rows[i], c)
    ensures Becomes(rows, c, f, rows[i], Settle(rows[i], Latest(Remaining(rows, c), c), MakePlan(rows, c, f), c))
  {
    hide MakePlan, Latest, Remaining, Keyed, WellPosed, Planned, Unfounded, Outdated, Wanted, Gone, Asks;
    var r, p := rows[i], MakePlan(rows, c, f);
    if Queued(r, c) {
      OutdatedIff(rows, next, c, i);
      WantedIff(rows, c, f, r.need);
      GoneIffUnfounded(rows, c, f, r.need);
      if Asks(p.actions, r.need) {
        PlanIff(rows, c, f, ActionOn(p.actions, r.need));
        RefreshSays(r, ActionOn(p.actions, r.need), c);
      }
    }
  }

  lemma RefreshSays(r: Row, x: Action, c: Run)
    ensures SameEntry(r, Refresh(r, x, c)) && Says(Refresh(r, x, c), x, c)
  {
  }

  lemma NewRowSays(x: Action, id: nat, c: Run)
    ensures var q := NewRow(x, id, c);
            && q.id == id && q.classId == c.classId && q.status == Suggested && q.suggestedAt == c.now && q.doneAt == None
            && q.need == x.need && Says(q, x, c)
  {
  }

  /** Every row goes where it should ... */
  lemma EveryRowBecomes(rows: seq<Row>, next: nat, c: Run, f: Facts, i: nat)
    requires Keyed(rows, next) && WellPosed(f, c) && f.committed != [] && i < |rows|
    ensures var all := Generate(rows, next, c, f);
            if Standing(rows[i], c) && rows[i].exam == c.exam then forall k | 0 <= k < |all| :: all[k].id != rows[i].id
            else exists q :: q in all && Becomes(rows, c, f, rows[i], q)
  {
    hide MakePlan, Latest, Remaining, Keyed, WellPosed, Reconcile, Settle, Becomes;
    RowFate(rows, next, MakePlan(rows, c, f), c, i);
    if !Cleared(rows[i], c) {
      SettleBecomes(rows, next, c, f, i);
      SettleSpares(rows[i], Latest(Remaining(rows, c), c), MakePlan(rows, c, f), c);
    }
  }

  lemma SettleSpares(r: Row, latest: map<Need, nat>, p: Plan, c: Run)
    ensures !Queued(r, c) ==> Settle(r, latest, p, c) == r
  {
  }

  /** ... every action finds its row ... */
  lemma EveryActionIsStored(rows: seq<Row>, next: nat, c: Run, f: Facts, x: Action)
    requires Keyed(rows, next) && WellPosed(f, c) && f.committed != [] && Planned(rows, c, f, x) && !Covered(rows, c, x.need)
    ensures exists q :: q in Generate(rows, next, c, f) && IsNew(rows, next, c, f, q) && q.need == x.need && Says(q, x, c)
  {
    hide MakePlan, Latest, Remaining, Keyed, WellPosed, Planned, Inserted, Says, NewRow, Covered;
    var actions, latest := MakePlan(rows, c, f).actions, Latest(Remaining(rows, c), c);
    PlanIff(rows, c, f, x);
    CoveredIff(rows, c, x.need);
    var k :| 0 <= k < |actions| && actions[k] == x;
    MissingAreInserted(actions, latest, next, c, k);
    var i :| 0 <= i < |Inserted(actions, latest, next, c)| && Inserted(actions, latest, next, c)[i] == NewRow(x, next + i, c);
    NewRowSays(x, next + i, c);
    assert NewRow(x, next + i, c) in Generate(rows, next, c, f);
  }

  /** ... and nothing else is in the table. */
  lemma EveryRowHasGrounds(rows: seq<Row>, next: nat, c: Run, f: Facts, q: Row)
    requires Keyed(rows, next) && WellPosed(f, c) && f.committed != [] && q in Generate(rows, next, c, f)
    ensures IsNew(rows, next, c, f, q) ||
            exists i :: 0 <= i < |rows| && !(Standing(rows[i], c) && rows[i].exam == c.exam) && Becomes(rows, c, f, rows[i], q)
  {
    hide MakePlan, Latest, Remaining, Keyed, WellPosed, Planned, Says, NewRow, Covered, Reconcile, Settle, Becomes;
    var all, p, kept := Generate(rows, next, c, f), MakePlan(rows, c, f), Remaining(rows, c);
    var j :| 0 <= j < |all| && all[j] == q;
    RowOrigin(rows, next, p, c, j);
    if j < |kept| {
      RemainingAreRows(rows, c, j);
      var i :| 0 <= i < |rows| && rows[i] == kept[j];
      SettleBecomes(rows, next, c, f, i);
    } else {
      var k :| 0 <= k < |p.actions| && q == NewRow(p.actions[k], next + (j - |kept|), c);
      NewRowSays(p.actions[k], next + (j - |kept|), c);
      PlanIff(rows, c, f, p.actions[k]);
      CoveredIff(rows, c, q.need);
    }
  }
}
