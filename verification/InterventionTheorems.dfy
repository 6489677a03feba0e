/** What reconciling the queue of suggestions keeps, changes and repeats. */
module InterventionTheorems {
  import opened Interventions

  // ----- Clearing ------------------------------------------------------------------------

  lemma {:induction false} RemainingAreRows(rows: seq<Row>, c: Run, i: nat)
    requires i < |Remaining(rows, c)|
    ensures Remaining(rows, c)[i] in rows && !Cleared(Remaining(rows, c)[i], c)
  {
    var front := rows[..|rows| - 1];
    if i < |Remaining(front, c)| { RemainingAreRows(front, c, i); }
  }

  lemma {:induction false} UnclearedRemain(rows: seq<Row>, c: Run, i: nat)
    requires i < |rows| && !Cleared(rows[i], c)
    ensures rows[i] in Remaining(rows, c)
  {
    if i < |rows| - 1 { UnclearedRemain(rows[..|rows| - 1], c, i); }
  }

  lemma {:induction false} RemainingKeyed(rows: seq<Row>, next: nat, c: Run)
    requires Keyed(rows, next)
    ensures Keyed(Remaining(rows, c), next)
  {
    if rows != [] {
      var front := rows[..|rows| - 1];
      RemainingKeyed(front, next, c);
      forall i | 0 <= i < |Remaining(front, c)| ensures Remaining(front, c)[i].id != rows[|rows| - 1].id {
        RemainingAreRows(front, c, i);
      }
    }
  }

  // ----- The newest row per need ------------------------------------------------------------

  ghost predicate Attained(rows: seq<Row>, c: Run, need: Need, id: nat) {
    exists i :: 0 <= i < |rows| && Queued(rows[i], c) && rows[i].need == need && rows[i].id == id
  }

  ghost predicate AreLatest(rows: seq<Row>, c: Run, latest: map<Need, nat>) {
    && (forall i | 0 <= i < |rows| && Queued(rows[i], c) :: rows[i].need in latest && rows[i].id <= latest[rows[i].need])
    && (forall need | need in latest :: Attained(rows, c, need, latest[need]))
  }

  lemma {:induction false} LatestAreLatest(rows: seq<Row>, c: Run)
    ensures AreLatest(rows, c, Latest(rows, c))
  {
    if rows != [] {
      var n := |rows| - 1;
      var front, latest := rows[..n], Latest(rows, c);
      LatestAreLatest(front, c);
      forall i | 0 <= i < |rows| && Queued(rows[i], c)
        ensures rows[i].need in latest && rows[i].id <= latest[rows[i].need]
      {
        if i < n { assert front[i] == rows[i]; }
      }
      forall need | need in latest ensures Attained(rows, c, need, latest[need]) {
        if need in Latest(front, c) && latest[need] == Latest(front, c)[need] {
          var i :| 0 <= i < |front| && Queued(front[i], c) && front[i].need == need && front[i].id == latest[need];
          assert rows[i] == front[i];
        } else {
          assert rows[n].need == need && rows[n].id == latest[need];
        }
      }
    }
  }

  // ----- Inserting -----------------------------------------------------------------------

  lemma {:induction false} InsertedAreNew(actions: seq<Action>, latest: map<Need, nat>, next: nat, c: Run, i: nat)
    requires i < |Inserted(actions, latest, next, c)|
    ensures var r := Inserted(actions, latest, next, c)[i];
            r.need !in latest && exists k :: 0 <= k < |actions| && r == NewRow(actions[k], next + i, c)
  {
    var n := |actions| - 1;
    var front := actions[..n];
    if i < |Inserted(front, latest, next, c)| {
      InsertedAreNew(front, latest, next, c, i);
      var k :| 0 <= k < |front| && Inserted(front, latest, next, c)[i] == NewRow(front[k], next + i, c);
      assert actions[k] == front[k];
    } else {
      assert Inserted(actions, latest, next, c)[i] == NewRow(actions[n], next + i, c);
    }
  }

  lemma {:induction false} MissingAreInserted(actions: seq<Action>, latest: map<Need, nat>, next: nat, c: Run, k: nat)
    requires k < |actions| && actions[k].need !in latest
    ensures exists i :: 0 <= i < |Inserted(actions, latest, next, c)|
                        && Inserted(actions, latest, next, c)[i] == NewRow(actions[k], next + i, c)
  {
    var n := |actions| - 1;
    var front, all := Inserted(actions[..n], latest, next, c), Inserted(actions, latest, next, c);
    if k < n {
      MissingAreInserted(actions[..n], latest, next, c, k);
      var i :| 0 <= i < |front| && front[i] == NewRow(actions[..n][k], next + i, c);
      assert all[i] == NewRow(actions[k], next + i, c);
    } else {
      assert all[|front|] == NewRow(actions[k], next + |front|, c);
    }
  }

  lemma {:induction false} InsertedDiffer(actions: seq<Action>, latest: map<Need, nat>, next: nat, c: Run, i: nat, j: nat)
    requires forall a, b | 0 <= a < b < |actions| :: actions[a].need != actions[b].need
    requires i < j < |Inserted(actions, latest, next, c)|
    ensures Inserted(actions, latest, next, c)[i].need != Inserted(actions, latest, next, c)[j].need
  {
    var front := actions[..|actions| - 1];
    if j < |Inserted(front, latest, next, c)| {
      InsertedDiffer(front, latest, next, c, i, j);
    } else {
      InsertedAreNew(front, latest, next, c, i);
    }
  }

  // ----- The reconciled table ---------------------------------------------------------------

  /** Where each row of the reconciled table comes from. */
  ghost predicate Origin(r: Row, i: nat, kept: seq<Row>, latest: map<Need, nat>, next: nat, p: Plan, c: Run) {
    if i < |kept| then r == Settle(kept[i], latest, p, c)
    else r.need !in latest && exists k :: 0 <= k < |p.actions| && r == NewRow(p.actions[k], next + (i - |kept|), c)
  }

  lemma RowOrigin(rows: seq<Row>, next: nat, p: Plan, c: Run, i: nat)
    requires i < |Reconcile(rows, next, p, c)|
    ensures var kept := Remaining(rows, c);
            Origin(Reconcile(rows, next, p, c)[i], i, kept, Latest(kept, c), next, p, c)
  {
    var kept := Remaining(rows, c);
    if i >= |kept| { InsertedAreNew(p.actions, Latest(kept, c), next, c, i - |kept|); }
  }

  /** Settling never changes identity, and keeps a row queued only if it is the newest of its need. */
  lemma SettleFacts(r: Row, latest: map<Need, nat>, p: Plan, c: Run)
    ensures var q := Settle(r, latest, p, c);
            && q.id == r.id && q.need == r.need && q.classId == r.classId
            && (Queued(q, c) ==> Queued(r, c) && (r.need in latest ==> latest[r.need] == r.id))
  {
  }

  lemma QueuedHaveLatestIds(kept: seq<Row>, latest: map<Need, nat>, p: Plan, c: Run, i: nat, next: nat)
    requires Keyed(kept, next) && AreLatest(kept, c, latest) && i < |kept| && Queued(Settle(kept[i], latest, p, c), c)
    ensures kept[i].need in latest && latest[kept[i].need] == kept[i].id && Queued(kept[i], c)
  {
    SettleFacts(kept[i], latest, p, c);
  }

  /** After a run the queue holds at most one suggestion per class, student and point. */
  lemma OneSuggestionPerNeed(rows: seq<Row>, next: nat, p: Plan, c: Run, i: nat, k: nat)
    requires Keyed(rows, next) && Sound(p, c)
    requires var all := Reconcile(rows, next, p, c);
             i < k < |all| && Queued(all[i], c) && Queued(all[k], c)
    ensures Reconcile(rows, next, p, c)[i].need != Reconcile(rows, next, p, c)[k].need
  {
    var kept, all := Remaining(rows, c), Reconcile(rows, next, p, c);
    var latest := Latest(kept, c);
    RemainingKeyed(rows, next, c);
    LatestAreLatest(kept, c);
    RowOrigin(rows, next, p, c, i);
    RowOrigin(rows, next, p, c, k);
    hide Settle, Latest, Remaining, AreLatest, Queued;
    if k < |kept| {
      QueuedHaveLatestIds(kept, latest, p, c, i, next);
      QueuedHaveLatestIds(kept, latest, p, c, k, next);
      SettleFacts(kept[i], latest, p, c);
      SettleFacts(kept[k], latest, p, c);
    } else if i < |kept| {
      QueuedHaveLatestIds(kept, latest, p, c, i, next);
      SettleFacts(kept[i], latest, p, c);
    } else {
      InsertedDiffer(p.actions, latest, next, c, i - |kept|, k - |kept|);
    }
  }

  /** Primary keys stay primary keys. */
  lemma ReconcileKeepsKeys(rows: seq<Row>, next: nat, p: Plan, c: Run)
    requires Keyed(rows, next)
    ensures Keyed(Reconcile(rows, next, p, c), NextAfter(rows, next, p, c))
  {
    var kept, all := Remaining(rows, c), Reconcile(rows, next, p, c);
    var latest := Latest(kept, c);
    RemainingKeyed(rows, next, c);
    hide Settle, Latest, Remaining, Inserted;
    forall i | 0 <= i < |all|
      ensures all[i].id == if i < |kept| then kept[i].id else next + (i - |kept|)
    {
      RowOrigin(rows, next, p, c, i);
      if i < |kept| { SettleFacts(kept[i], latest, p, c); }
    }
  }

  // ----- Exactly what the queue says afterwards ------------------------------------------------

  /** The queue after a run: what the plan asks for, and otherwise the newest pending word that
      has not lost its ground. */
  ghost predicate Expected(rows: seq<Row>, p: Plan, c: Run, need: Need, x: Content) {
    if Asks(p.actions, need) then x == Asked(ActionOn(p.actions, need), c)
    else !Gone(p, need) && NewestPending(rows, c, need, x)
  }

  lemma SettledContent(r: Row, latest: map<Need, nat>, p: Plan, c: Run)
    requires Queued(r, c) && r.need in latest
    ensures var q := Settle(r, latest, p, c);
            && (Queued(q, c) <==> latest[r.need] == r.id && (Asks(p.actions, r.need) || !Gone(p, r.need)))
            && (Queued(q, c) ==> ContentOf(q) == if Asks(p.actions, r.need) then Asked(ActionOn(p.actions, r.need), c) else ContentOf(r))
  {
  }

  lemma {:induction false} ActionIsUnique(actions: seq<Action>, i: nat)
    requires forall a, b | 0 <= a < b < |actions| :: actions[a].need != actions[b].need
    requires i < |actions|
    ensures Asks(actions, actions[i].need) && ActionOn(actions, actions[i].need) == actions[i]
  {
    var need := actions[i].need;
    var a := ActionOn(actions, need);
    var k :| 0 <= k < |actions| && actions[k] == a;
  }

  /** Pending rows are the queued rows that remain. */
  lemma NewestRemains(rows: seq<Row>, c: Run, next: nat, need: Need, i: nat)
    requires Keyed(rows, next) && i < |Remaining(rows, c)|
    requires var kept := Remaining(rows, c);
             && Queued(kept[i], c) && kept[i].need == need && need in Latest(kept, c) && Latest(kept, c)[need] == kept[i].id
    ensures NewestPending(rows, c, need, ContentOf(Remaining(rows, c)[i]))
  {
    hide Latest, Remaining, ContentOf, Keyed;
    var kept := Remaining(rows, c);
    RemainingAreRows(rows, c, i);
    var j :| 0 <= j < |rows| && rows[j] == kept[i];
    forall k | 0 <= k < |rows| && Pending(rows[k], c) && rows[k].need == need ensures rows[k].id <= rows[j].id {
      PendingIsNoLater(rows, c, k);
    }
  }

  lemma PendingIsNoLater(rows: seq<Row>, c: Run, k: nat)
    requires k < |rows| && Pending(rows[k], c)
    ensures var latest := Latest(Remaining(rows, c), c); rows[k].need in latest && rows[k].id <= latest[rows[k].need]
  {
    hide Latest, Remaining;
    var kept := Remaining(rows, c);
    LatestAreLatest(kept, c);
    UnclearedRemain(rows, c, k);
    var i :| 0 <= i < |kept| && kept[i] == rows[k];
    assert Queued(kept[i], c);
  }

  lemma NewestIsLatest(rows: seq<Row>, c: Run, next: nat, need: Need, x: Content) returns (i: nat)
    requires Keyed(rows, next) && NewestPending(rows, c, need, x)
    ensures var kept := Remaining(rows, c);
            && i < |kept| && Queued(kept[i], c) && kept[i].need == need && ContentOf(kept[i]) == x
            && need in Latest(kept, c) && Latest(kept, c)[need] == kept[i].id
  {
    var kept := Remaining(rows, c);
    var latest := Latest(kept, c);
    LatestAreLatest(kept, c);
    var j :| 0 <= j < |rows| && Pending(rows[j], c) && rows[j].need == need && ContentOf(rows[j]) == x
      && forall k | 0 <= k < |rows| && Pending(rows[k], c) && rows[k].need == need :: rows[k].id <= rows[j].id;
    UnclearedRemain(rows, c, j);
    i :| 0 <= i < |kept| && kept[i] == rows[j];
    hide Latest, Remaining;
    var m :| 0 <= m < |kept| && Queued(kept[m], c) && kept[m].need == need && kept[m].id == latest[need];
    RemainingAreRows(rows, c, m);
  }

  lemma SuggestedIsExpected(rows: seq<Row>, next: nat, p: Plan, c: Run, i: nat)
    requires Keyed(rows, next) && Sound(p, c)
    requires i < |Reconcile(rows, next, p, c)| && Queued(Reconcile(rows, next, p, c)[i], c)
    ensures var r := Reconcile(rows, next, p, c)[i]; Expected(rows, p, c, r.need, ContentOf(r))
  {
    var kept, r := Remaining(rows, c), Reconcile(rows, next, p, c)[i];
    var latest := Latest(kept, c);
    RemainingKeyed(rows, next, c);
    LatestAreLatest(kept, c);
    RowOrigin(rows, next, p, c, i);
    hide Settle, Latest, Remaining, Reconcile, NewestPending, ActionOn, Gone;
    if i < |kept| {
      QueuedHaveLatestIds(kept, latest, p, c, i, next);
      SettleFacts(kept[i], latest, p, c);
      SettledContent(kept[i], latest, p, c);
      NewestRemains(rows, c, next, r.need, i);
    } else {
      var k :| 0 <= k < |p.actions| && r == NewRow(p.actions[k], next + (i - |kept|), c);
      ActionIsUnique(p.actions, k);
    }
  }

  lemma ReconcileAt(rows: seq<Row>, next: nat, p: Plan, c: Run, i: nat)
    requires i < |Remaining(rows, c)|
    ensures var kept := Remaining(rows, c);
            && i < |Reconcile(rows, next, p, c)|
            && Reconcile(rows, next, p, c)[i] == Settle(kept[i], Latest(kept, c), p, c)
  {
  }

  lemma ExpectedIsSuggested(rows: seq<Row>, next: nat, p: Plan, c: Run, need: Need, x: Content)
    requires Keyed(rows, next) && Sound(p, c) && Expected(rows, p, c, need, x)
    ensures Suggests(Reconcile(rows, next, p, c), c, need, x)
  {
    var kept, all := Remaining(rows, c), Reconcile(rows, next, p, c);
    var latest := Latest(kept, c);
    LatestAreLatest(kept, c);
    hide Settle, Latest, Remaining, NewestPending, ActionOn, Gone;
    if !Asks(p.actions, need) || need in latest {
      var i: nat;
      if Asks(p.actions, need) {
        i :| 0 <= i < |kept| && Queued(kept[i], c) && kept[i].need == need && kept[i].id == latest[need];
      } else {
        i := NewestIsLatest(rows, c, next, need, x);
      }
      SettledContent(kept[i], latest, p, c);
      SettleFacts(kept[i], latest, p, c);
      ReconcileAt(rows, next, p, c, i);
      assert Queued(all[i], c) && all[i].need == need && ContentOf(all[i]) == x;
    } else {
      var k :| 0 <= k < |p.actions| && p.actions[k].need == need;
      ActionIsUnique(p.actions, k);
      MissingAreInserted(p.actions, latest, next, c, k);
      var i :| 0 <= i < |Inserted(p.actions, latest, next, c)|
               && Inserted(p.actions, latest, next, c)[i] == NewRow(p.actions[k], next + i, c);
      assert all[|kept| + i] == NewRow(p.actions[k], next + i, c);
    }
  }

  /** The queue says of a need exactly what is expected of it: no more, no less. */
  lemma QueueIsExact(rows: seq<Row>, next: nat, p: Plan, c: Run, need: Need, x: Content)
    requires Keyed(rows, next) && Sound(p, c)
    ensures Suggests(Reconcile(rows, next, p, c), c, need, x) <==> Expected(rows, p, c, need, x)
  {
    hide *;
    if Suggests(Reconcile(rows, next, p, c), c, need, x) {
      var i := SuggestingRow(Reconcile(rows, next, p, c), c, need, x);
      SuggestedIsExpected(rows, next, p, c, i);
    }
    if Expected(rows, p, c, need, x) {
      ExpectedIsSuggested(rows, next, p, c, need, x);
    }
  }

  lemma SuggestingRow(rows: seq<Row>, c: Run, need: Need, x: Content) returns (i: nat)
    requires Suggests(rows, c, need, x)
    ensures i < |rows| && Queued(rows[i], c) && rows[i].need == need && ContentOf(rows[i]) == x
  {
    i :| 0 <= i < |rows| && Queued(rows[i], c) && rows[i].need == need && ContentOf(rows[i]) == x;
  }

  // ----- Running again ---------------------------------------------------------------------

  lemma PendingIsSuggested(rows: seq<Row>, c: Run, need: Need, x: Content)
    requires NewestPending(rows, c, need, x)
    ensures Suggests(rows, c, need, x) && x.exam != c.exam
  {
  }

  /** A lone suggestion of another exam is the newest pending word. */
  lemma LoneSuggestionIsNewest(rows: seq<Row>, c: Run, need: Need, x: Content, i: nat)
    requires i < |rows| && Queued(rows[i], c) && rows[i].need == need && ContentOf(rows[i]) == x && x.exam != c.exam
    requires forall k | 0 <= k < |rows| && Queued(rows[k], c) && k != i :: rows[k].need != need
    ensures NewestPending(rows, c, need, x)
  {
  }

  lemma SuggestedStaysNewest(rows: seq<Row>, next: nat, p: Plan, c: Run, need: Need, x: Content)
    requires Keyed(rows, next) && Sound(p, c)
    requires !Asks(p.actions, need) && Suggests(Reconcile(rows, next, p, c), c, need, x)
    ensures NewestPending(Reconcile(rows, next, p, c), c, need, x) && !Gone(p, need)
  {
    hide Reconcile, NewestPending, Gone, Asks, Suggests, Queued, ContentOf;
    var all := Reconcile(rows, next, p, c);
    QueueIsExact(rows, next, p, c, need, x);
    PendingIsSuggested(rows, c, need, x);
    var i := SuggestingRow(all, c, need, x);
    forall k | 0 <= k < |all| && Queued(all[k], c) && k != i ensures all[k].need != need {
      if k < i { OneSuggestionPerNeed(rows, next, p, c, k, i); } else { OneSuggestionPerNeed(rows, next, p, c, i, k); }
    }
    LoneSuggestionIsNewest(all, c, need, x, i);
  }

  lemma ClockIsIrrelevant(rows: seq<Row>, p: Plan, c: Run, later: real, need: Need, x: Content)
    ensures var c' := c.(now := later);
            && (Suggests(rows, c', need, x) <==> Suggests(rows, c, need, x))
            && (Expected(rows, p, c', need, x) <==> Expected(rows, p, c, need, x))
            && (Sound(p, c') <==> Sound(p, c))
  {
    var c' := c.(now := later);
    assert forall r :: Queued(r, c') == Queued(r, c) && Pending(r, c') == Pending(r, c);
    assert forall a :: Asked(a, c') == Asked(a, c);
  }

  /** A second run on the same inputs, at whatever later time, leaves the queue saying exactly the same. */
  lemma RerunSaysTheSame(rows: seq<Row>, next: nat, p: Plan, c: Run, later: real, need: Need, x: Content)
    requires Keyed(rows, next) && Sound(p, c)
    ensures var once, next1 := Reconcile(rows, next, p, c), NextAfter(rows, next, p, c);
            Suggests(Reconcile(once, next1, p, c.(now := later)), c, need, x) <==> Suggests(once, c, need, x)
  {
    hide Reconcile, NextAfter, Keyed, Sound, Suggests, NewestPending, Asks, Gone;
    var once, next1 := Reconcile(rows, next, p, c), NextAfter(rows, next, p, c);
    var c' := c.(now := later);
    ReconcileKeepsKeys(rows, next, p, c);
    QueueIsExact(rows, next, p, c, need, x);
    ClockIsIrrelevant(once, p, c, later, need, x);
    ClockIsIrrelevant(Reconcile(once, next1, p, c'), p, c, later, need, x);
    QueueIsExact(once, next1, p, c', need, x);
    if !Asks(p.actions, need) {
      if Suggests(once, c, need, x) { SuggestedStaysNewest(rows, next, p, c, need, x); }
      if NewestPending(once, c, need, x) { PendingIsSuggested(once, c, need, x); }
    }
  }

  /** Nor does the second run merge or archive anything: it only replaces its own suggestions. */
  lemma RerunOnlyReplaces(rows: seq<Row>, next: nat, p: Plan, c: Run, i: nat)
    requires Keyed(rows, next) && Sound(p, c)
    requires i < |Remaining(Reconcile(rows, next, p, c), c)|
    ensures var once, next1 := Reconcile(rows, next, p, c), NextAfter(rows, next, p, c);
            && i < |Reconcile(once, next1, p, c)|
            && Reconcile(once, next1, p, c)[i] == Remaining(once, c)[i]
  {
    hide Reconcile, NextAfter, Remaining, Latest;
    var once, next1 := Reconcile(rows, next, p, c), NextAfter(rows, next, p, c);
    var kept := Remaining(once, c);
    ReconcileAt(once, next1, p, c, i);
    if Queued(kept[i], c) {
      ReconcileKeepsKeys(rows, next, p, c);
      RemainingAreRows(once, c, i);
      var j :| 0 <= j < |once| && once[j] == kept[i];
      SuggestedIsExpected(rows, next, p, c, j);
      assert !Asks(p.actions, kept[i].need);
      assert Suggests(once, c, kept[i].need, ContentOf(kept[i]));
      SuggestedStaysNewest(rows, next, p, c, kept[i].need, ContentOf(kept[i]));
      LoneIsLatest(rows, next, p, c, i);
    }
  }

  lemma LoneIsLatest(rows: seq<Row>, next: nat, p: Plan, c: Run, i: nat)
    requires Keyed(rows, next) && Sound(p, c)
    requires var kept := Remaining(Reconcile(rows, next, p, c), c); i < |kept| && Queued(kept[i], c)
    ensures var kept := Remaining(Reconcile(rows, next, p, c), c);
            kept[i].need in Latest(kept, c) && Latest(kept, c)[kept[i].need] == kept[i].id
  {
    hide Reconcile, Remaining, Latest, Queued;
    var once := Reconcile(rows, next, p, c);
    var kept := Remaining(once, c);
    var need := kept[i].need;
    LatestAreLatest(kept, c);
    var m :| 0 <= m < |kept| && Queued(kept[m], c) && kept[m].need == need && kept[m].id == Latest(kept, c)[need];
    RemainingAreRows(once, c, i);
    RemainingAreRows(once, c, m);
    var a :| 0 <= a < |once| && once[a] == kept[i];
    var b :| 0 <= b < |once| && once[b] == kept[m];
    if a < b { OneSuggestionPerNeed(rows, next, p, c, a, b); }
    if b < a { OneSuggestionPerNeed(rows, next, p, c, b, a); }
  }

  // ----- History -------------------------------------------------------------------------

  /** Rows no run of this class and graph may touch: other classes, other graphs, and what was done. */
  predicate Protected(r: Row, c: Run) {
    r.classId != c.classId || r.need.point !in c.graph || r.status == Done
  }

  function ProtectedRows(rows: seq<Row>, c: Run): seq<Row> {
    if rows == [] then [] else
      var front, last := ProtectedRows(rows[..|rows| - 1], c), rows[|rows| - 1];
      if Protected(last, c) then front + [last] else front
  }

  lemma {:induction false} ProtectedAppend(a: seq<Row>, b: seq<Row>, c: Run)
    ensures ProtectedRows(a + b, c) == ProtectedRows(a, c) + ProtectedRows(b, c)
  {
    if b == [] {
      assert a + b == a;
    } else {
      assert (a + b)[..|a + b| - 1] == a + b[..|b| - 1];
      ProtectedAppend(a, b[..|b| - 1], c);
    }
  }

  lemma {:induction false} ClearingKeepsProtected(rows: seq<Row>, c: Run)
    ensures ProtectedRows(Remaining(rows, c), c) == ProtectedRows(rows, c)
  {
    if rows != [] {
      var front, last := Remaining(rows[..|rows| - 1], c), rows[|rows| - 1];
      ClearingKeepsProtected(rows[..|rows| - 1], c);
      if !Cleared(last, c) { assert (front + [last])[..|front|] == front; }
    }
  }

  lemma {:induction false} SettlingKeepsProtected(rows: seq<Row>, latest: map<Need, nat>, p: Plan, c: Run)
    ensures ProtectedRows(Settled(rows, latest, p, c), c) == ProtectedRows(rows, c)
  {
    if rows != [] {
      var n := |rows| - 1;
      SettlingKeepsProtected(rows[..n], latest, p, c);
      assert Settled(rows, latest, p, c)[..n] == Settled(rows[..n], latest, p, c);
      assert Settled(rows, latest, p, c)[n] == Settle(rows[n], latest, p, c);
    }
  }

  lemma {:induction false} InsertingKeepsProtected(actions: seq<Action>, latest: map<Need, nat>, next: nat, c: Run)
    requires forall i | 0 <= i < |actions| :: actions[i].need.point in c.graph
    ensures ProtectedRows(Inserted(actions, latest, next, c), c) == []
  {
    if actions != [] {
      var front, last := Inserted(actions[..|actions| - 1], latest, next, c), actions[|actions| - 1];
      InsertingKeepsProtected(actions[..|actions| - 1], latest, next, c);
      if last.need !in latest {
        var row := NewRow(last, next + |front|, c);
        assert (front + [row])[..|front|] == front;
        assert !Protected(row, c);
      }
    }
  }

  /** Rows of other classes and graphs, and everything done, come through unchanged and in order. */
  lemma HistoryIsKept(rows: seq<Row>, next: nat, p: Plan, c: Run)
    requires Sound(p, c)
    ensures ProtectedRows(Reconcile(rows, next, p, c), c) == ProtectedRows(rows, c)
  {
    hide ProtectedRows, Settled, Inserted, Remaining, Latest;
    var kept := Remaining(rows, c);
    var latest := Latest(kept, c);
    ClearingKeepsProtected(rows, c);
    SettlingKeepsProtected(kept, latest, p, c);
    InsertingKeepsProtected(p.actions, latest, next, c);
    ProtectedAppend(Settled(kept, latest, p, c), Inserted(p.actions, latest, next, c), c);
  }

  /** The fate of every row: suggestions of this exam go, anything not queued (skipped rows
      included) stays as it is, and a pending row is merged, refreshed, archived or left. */
  lemma RowFate(rows: seq<Row>, next: nat, p: Plan, c: Run, i: nat)
    requires Keyed(rows, next) && i < |rows|
    ensures var r, all, latest := rows[i], Reconcile(rows, next, p, c), Latest(Remaining(rows, c), c);
            && (Cleared(r, c) ==> forall k | 0 <= k < |all| :: all[k].id != r.id)
            && (!Queued(r, c) ==> r in all)
            && (Pending(r, c) ==> Settle(r, latest, p, c) in all && r.need in latest && r.id <= latest[r.need])
  {
    var r, all, kept := rows[i], Reconcile(rows, next, p, c), Remaining(rows, c);
    var latest := Latest(kept, c);
    LatestAreLatest(kept, c);
    hide Remaining, Latest, Reconcile;
    if Cleared(r, c) {
      forall k | 0 <= k < |all| ensures all[k].id != r.id {
        RowOrigin(rows, next, p, c, k);
        if k < |kept| {
          RemainingAreRows(rows, c, k);
        }
      }
    } else {
      UnclearedRemain(rows, c, i);
      var k :| 0 <= k < |kept| && kept[k] == r;
      ReconcileAt(rows, next, p, c, k);
    }
  }
}
