/** The generation run step by step, as the code stores it, against the one-pass reconciliation. */
module InterventionSteps {
  import opened Interventions
  import opened InterventionPlan
  import opened InterventionTheorems
  import opened GenerationTheorems
  import opened GenerationOutcome

  function MergedRows(rows: seq<Row>, latest: map<Need, nat>, c: Run): seq<Row> {
    seq(|rows|, i requires 0 <= i < |rows| => MergeRow(rows[i], latest, c))
  }

  function RefreshById(rows: seq<Row>, id: nat, a: Action, c: Run): seq<Row> {
    seq(|rows|, i requires 0 <= i < |rows| => if rows[i].id == id then Refresh(rows[i], a, c) else rows[i])
  }

  function ArchiveById(rows: seq<Row>, id: nat): seq<Row> {
    seq(|rows|, i requires 0 <= i < |rows| => if rows[i].id == id && rows[i].status == Suggested then Archived(rows[i]) else rows[i])
  }

  /** A row is the one its need points at. */
  predicate Points(pending: map<Need, nat>, r: Row) {
    r.need in pending && pending[r.need] == r.id
  }

  function Refreshed(r: Row, actions: seq<Action>, pending: map<Need, nat>, c: Run): Row {
    if Points(pending, r) && Asks(actions, r.need) then Refresh(r, ActionOn(actions, r.need), c) else r
  }

  function RefreshedRows(rows: seq<Row>, actions: seq<Action>, pending: map<Need, nat>, c: Run): seq<Row> {
    seq(|rows|, i requires 0 <= i < |rows| => Refreshed(rows[i], actions, pending, c))
  }

  function ArchivedIfGone(r: Row, p: Plan, pending: map<Need, nat>, looked: set<Need>): Row {
    if Points(pending, r) && r.need in looked && r.status == Suggested && Gone(p, r.need) then Archived(r) else r
  }

  function ArchivedRows(rows: seq<Row>, p: Plan, pending: map<Need, nat>, looked: set<Need>): seq<Row> {
    seq(|rows|, i requires 0 <= i < |rows| => ArchivedIfGone(rows[i], p, pending, looked))
  }

  /** Pending ids name rows of their own need. */
  ghost predicate Addresses(rows: seq<Row>, pending: map<Need, nat>) {
    forall i, need | 0 <= i < |rows| && need in pending && pending[need] == rows[i].id :: rows[i].need == need
  }

  lemma LatestAddresses(rows: seq<Row>, next: nat, c: Run)
    requires Keyed(rows, next)
    ensures Addresses(rows, Latest(rows, c)) && forall need | need in Latest(rows, c) :: Latest(rows, c)[need] < next
    ensures forall i | 0 <= i < |rows| && Points(Latest(rows, c), rows[i]) :: Queued(rows[i], c)
  {
    hide Latest;
    LatestAreLatest(rows, c);
    assert forall need | need in Latest(rows, c) :: Attained(rows, c, need, Latest(rows, c)[need]);
  }

  // ----- Planning after merging plans the same ---------------------------------------------------

  lemma MergingKeepsDone(rows: seq<Row>, c: Run)
    ensures var kept := Remaining(rows, c); SameDone(MergedRows(kept, Latest(kept, c), c), c, rows, c)
  {
    hide LastDone, ProtectedRows, Latest, Remaining;
    var kept := Remaining(rows, c);
    var latest, nothing := Latest(kept, c), Plan([], map[], {});
    var merged := MergedRows(kept, latest, c);
    assert merged == Settled(kept, latest, nothing, c);
    SettlingKeepsProtected(kept, latest, nothing, c);
    ClearingKeepsProtected(rows, c);
    forall need, kind ensures LastDone(merged, c, need, kind) == LastDone(rows, c, need, kind) {
      DoneAreProtected(merged, c, c.now, need, kind);
      DoneAreProtected(rows, c, c.now, need, kind);
      assert c.(now := c.now) == c;
    }
  }

  // ----- One upsert ------------------------------------------------------------------------

  lemma AsksMore(actions: seq<Action>, k: nat, need: Need)
    requires k < |actions| && need != actions[k].need
    ensures Asks(actions[..k + 1], need) <==> Asks(actions[..k], need)
    ensures Asks(actions[..k], need) ==> ActionOn(actions[..k + 1], need) == ActionOn(actions[..k], need)
  {
    var more, less := actions[..k + 1], actions[..k];
    assert more[..k] == less && more[k] == actions[k];
    if Asks(more, need) {
      var i :| 0 <= i < |more| && more[i].need == need;
      assert less[i].need == need;
    }
    if Asks(less, need) {
      var i :| 0 <= i < |less| && less[i].need == need;
      assert more[i].need == need;
    }
  }

  lemma AsksLast(actions: seq<Action>, k: nat)
    requires k < |actions|
    ensures var a := actions[k]; Asks(actions[..k + 1], a.need) && ActionOn(actions[..k + 1], a.need) == a
  {
    assert actions[..k + 1][k] == actions[k];
  }

  /** Refreshing by id moves every row one action further. */
  lemma RefreshStep(before: Row, now: Row, actions: seq<Action>, k: nat, pending: map<Need, nat>, c: Run)
    requires k < |actions| && now == Refreshed(before, actions[..k], pending, c)
    requires forall need | need in pending && pending[need] == before.id :: before.need == need
    ensures var a := actions[k];
            Refreshed(before, actions[..k + 1], pending, c) ==
            if a.need in pending && pending[a.need] == now.id then Refresh(now, a, c) else now
  {
    hide ActionOn, Asks;
    AsksLast(actions, k);
    if before.need != actions[k].need { AsksMore(actions, k, before.need); }
  }

  lemma InsertedStep(actions: seq<Action>, k: nat, pending: map<Need, nat>, next: nat, c: Run)
    requires k < |actions|
    ensures var a, front := actions[k], Inserted(actions[..k], pending, next, c);
            Inserted(actions[..k + 1], pending, next, c) == if a.need in pending then front else front + [NewRow(a, next + |front|, c)]
  {
    assert actions[..k + 1][..k] == actions[..k];
  }

  // ----- The steps together ------------------------------------------------------------------

  /** Clear, merge, upsert and archive, row by row, is the settled row. */
  lemma StepsSettle(r: Row, latest: map<Need, nat>, p: Plan, c: Run)
    requires Sound(p, c)
    requires Points(latest, r) ==> Queued(r, c)
    requires Queued(r, c) ==> r.need in latest
    ensures ArchivedIfGone(Refreshed(MergeRow(r, latest, c), p.actions, latest, c), p, latest, latest.Keys) ==
            Settle(r, latest, p, c)
  {
    hide ActionOn;
  }

  lemma StepsReconcile(rows: seq<Row>, next: nat, p: Plan, c: Run)
    requires Keyed(rows, next) && Sound(p, c)
    ensures var kept := Remaining(rows, c);
            var latest := Latest(kept, c);
            var settled := ArchivedRows(RefreshedRows(MergedRows(kept, latest, c), p.actions, latest, c), p, latest, latest.Keys);
            settled + Inserted(p.actions, latest, next, c) == Reconcile(rows, next, p, c)
  {
    hide Remaining, Latest, Inserted, MergeRow, Refreshed, ArchivedIfGone, Settle, Queued;
    var kept := Remaining(rows, c);
    var latest := Latest(kept, c);
    RemainingKeyed(rows, next, c);
    LatestAddresses(kept, next, c);
    LatestAreLatest(kept, c);
    forall i | 0 <= i < |kept| ensures
      ArchivedIfGone(Refreshed(MergeRow(kept[i], latest, c), p.actions, latest, c), p, latest, latest.Keys) ==
      Settle(kept[i], latest, p, c)
    {
      StepsSettle(kept[i], latest, p, c);
    }
  }

  /** One upsert takes the table from k stored actions to k + 1. */
  lemma UpsertPosition(before: seq<Row>, actions: seq<Action>, k: nat, pending: map<Need, nat>, first: nat, c: Run)
    requires k < |actions| && Addresses(before, pending) && forall need | need in pending :: pending[need] < first
    ensures var added := Inserted(actions[..k], pending, first, c);
            var now, a := RefreshedRows(before, actions[..k], pending, c) + added, actions[k];
            RefreshedRows(before, actions[..k + 1], pending, c) + Inserted(actions[..k + 1], pending, first, c) ==
            if a.need in pending then RefreshById(now, pending[a.need], a, c) else now + [NewRow(a, first + |added|, c)]
  {
    hide Inserted, Refreshed, Refresh, Addresses;
    var added, a := Inserted(actions[..k], pending, first, c), actions[k];
    var now, then' := RefreshedRows(before, actions[..k], pending, c), RefreshedRows(before, actions[..k + 1], pending, c);
    InsertedStep(actions, k, pending, first, c);
    forall i | 0 <= i < |before| ensures
      then'[i] == if a.need in pending && pending[a.need] == now[i].id then Refresh(now[i], a, c) else now[i]
    {
      AddressAt(before, pending, i);
      RefreshStep(before[i], now[i], actions, k, pending, c);
    }
    if a.need in pending {
      forall i | 0 <= i < |added| ensures added[i].id != pending[a.need] {
        InsertedAreNew(actions[..k], pending, first, c, i);
      }
      assert then' + added == RefreshById(now + added, pending[a.need], a, c);
    } else {
      assert then' == now;
      assert then' + (added + [NewRow(a, first + |added|, c)]) == now + added + [NewRow(a, first + |added|, c)];
    }
  }

  lemma AddressAt(rows: seq<Row>, pending: map<Need, nat>, i: nat)
    requires Addresses(rows, pending) && i < |rows|
    ensures forall need | need in pending && pending[need] == rows[i].id :: rows[i].need == need
  {
  }

  // ----- Archiving -------------------------------------------------------------------------

  predicate Lives(rows: seq<Row>, id: nat) {
    exists i :: 0 <= i < |rows| && rows[i].id == id && rows[i].status == Suggested
  }

  /** Pending needs that are gone and still suggested. */
  ghost function Losses(rows: seq<Row>, p: Plan, pending: map<Need, nat>): set<Need> {
    set need | need in pending && Gone(p, need) && Lives(rows, pending[need])
  }

  lemma ArchiveStep(before: seq<Row>, p: Plan, pending: map<Need, nat>, looked: set<Need>, need: Need)
    requires Addresses(before, pending) && need in pending && need !in looked
    ensures var now := ArchivedRows(before, p, pending, looked);
            && (Lives(now, pending[need]) <==> Lives(before, pending[need]))
            && ArchivedRows(before, p, pending, looked + {need}) ==
               if Gone(p, need) && Lives(now, pending[need]) then ArchiveById(now, pending[need]) else now
  {
    var now, id := ArchivedRows(before, p, pending, looked), pending[need];
    forall i | 0 <= i < |before| ensures before[i].id == id ==> now[i] == before[i] && Points(pending, before[i]) {
      AddressAt(before, pending, i);
    }
    forall i | 0 <= i < |before| ensures now[i].id == before[i].id && now[i].need == before[i].need {
    }
    hide Gone;
    if Lives(before, id) {
      var i :| 0 <= i < |before| && before[i].id == id && before[i].status == Suggested;
      assert now[i].id == id && now[i].status == Suggested;
    }
    var then' := ArchivedRows(before, p, pending, looked + {need});
    forall i | 0 <= i < |before| ensures
      then'[i] == if Gone(p, need) && now[i].id == id && now[i].status == Suggested then Archived(now[i]) else now[i]
    {
    }
    if Gone(p, need) && Lives(now, id) {
      assert then' == ArchiveById(now, id);
    } else {
      assert then' == now;
    }
  }

  lemma LossStep(rows: seq<Row>, p: Plan, pending: map<Need, nat>, looked: set<Need>, need: Need)
    requires need in pending && need !in looked
    ensures var lost := Losses(rows, p, pending) * looked;
            && need !in lost
            && Losses(rows, p, pending) * (looked + {need}) ==
               if Gone(p, need) && Lives(rows, pending[need]) then lost + {need} else lost
  {
    hide Gone, Lives;
  }

  lemma AllLosses(rows: seq<Row>, p: Plan, pending: map<Need, nat>)
    ensures Losses(rows, p, pending) * pending.Keys == Losses(rows, p, pending)
  {
  }

  // ----- Gluing the run together --------------------------------------------------------------

  lemma PlanAfterMerge(rows: seq<Row>, c: Run, f: Facts)
    ensures var kept := Remaining(rows, c);
            var merged := MergedRows(kept, Latest(kept, c), c);
            MakePlan(merged, c, f) == MakePlan(rows, c, f) && Lists(merged, c, f) == Lists(rows, c, f)
  {
    hide *;
    var kept := Remaining(rows, c);
    var merged := MergedRows(kept, Latest(kept, c), c);
    MergingKeepsDone(rows, c);
    SamePlan(merged, c, rows, c, f);
    SameLists(merged, c, rows, c, f);
  }

  /** Merging and refreshing change no id and no need. */
  lemma StillAddressed(rows: seq<Row>, rows': seq<Row>, pending: map<Need, nat>)
    requires Addresses(rows, pending) && |rows| <= |rows'|
    requires forall i | 0 <= i < |rows| :: rows'[i].id == rows[i].id && rows'[i].need == rows[i].need
    requires forall i | |rows| <= i < |rows'| :: forall need | need in pending :: pending[need] < rows'[i].id
    ensures Addresses(rows', pending)
  {
  }

  lemma MergedAddresses(rows: seq<Row>, next: nat, c: Run)
    requires Keyed(rows, next)
    ensures var kept := Remaining(rows, c);
            var latest := Latest(kept, c);
            Addresses(MergedRows(kept, latest, c), latest) && forall need | need in latest :: latest[need] < next
  {
    hide Latest, Remaining, Addresses;
    var kept := Remaining(rows, c);
    RemainingKeyed(rows, next, c);
    LatestAddresses(kept, next, c);
    StillAddressed(kept, MergedRows(kept, Latest(kept, c), c), Latest(kept, c));
  }

  lemma UpsertedAddresses(rows: seq<Row>, pending: map<Need, nat>, next: nat, actions: seq<Action>, c: Run)
    requires Addresses(rows, pending) && forall need | need in pending :: pending[need] < next
    ensures Addresses(RefreshedRows(rows, actions, pending, c) + Inserted(actions, pending, next, c), pending)
  {
    hide Inserted, Addresses, ActionOn;
    var added := Inserted(actions, pending, next, c);
    forall i | 0 <= i < |added| ensures next <= added[i].id {
      InsertedAreNew(actions, pending, next, c, i);
    }
    StillAddressed(rows, RefreshedRows(rows, actions, pending, c) + added, pending);
  }

  /** Freshly inserted rows are nobody's pending row, so archiving passes over them. */
  lemma ArchivingSparesNew(rows: seq<Row>, p: Plan, pending: map<Need, nat>, next: nat, actions: seq<Action>, c: Run)
    requires forall need | need in pending :: pending[need] < next
    ensures var added := Inserted(actions, pending, next, c);
            ArchivedRows(rows + added, p, pending, pending.Keys) == ArchivedRows(rows, p, pending, pending.Keys) + added
  {
    hide Inserted, Gone;
    var added := Inserted(actions, pending, next, c);
    forall i | 0 <= i < |added| ensures ArchivedIfGone(added[i], p, pending, pending.Keys) == added[i] {
      InsertedAreNew(actions, pending, next, c, i);
    }
  }

  lemma NothingStored(before: seq<Row>, actions: seq<Action>, pending: map<Need, nat>, first: nat, c: Run)
    ensures RefreshedRows(before, actions[..0], pending, c) + Inserted(actions[..0], pending, first, c) == before
    ensures Inserted(actions[..0], pending, first, c) == []
  {
    assert actions[..0] == [];
  }

  lemma NothingLooked(before: seq<Row>, p: Plan, pending: map<Need, nat>)
    ensures ArchivedRows(before, p, pending, {}) == before
  {
  }

  /** The needs the run archives: pending from another exam, and unfounded by this evaluation. */
  ghost function LostNeeds(rows: seq<Row>, c: Run, f: Facts): set<Need> {
    set i | 0 <= i < |rows| && Standing(rows[i], c) && rows[i].exam != c.exam && Unfounded(rows, c, f, rows[i].need) :: rows[i].need
  }

  /** The pending row of a need is still suggested once the plan has been stored. */
  lemma PendingLives(kept: seq<Row>, next: nat, c: Run, actions: seq<Action>, need: Need)
    requires Keyed(kept, next) && need in Latest(kept, c)
    ensures var latest := Latest(kept, c);
            Lives(RefreshedRows(MergedRows(kept, latest, c), actions, latest, c) + Inserted(actions, latest, next, c), latest[need])
  {
    hide Latest, Inserted, ActionOn, Asks;
    var latest := Latest(kept, c);
    LatestAreLatest(kept, c);
    assert Attained(kept, c, need, latest[need]);
    var i :| 0 <= i < |kept| && Queued(kept[i], c) && kept[i].need == need && kept[i].id == latest[need];
    var stored := RefreshedRows(MergedRows(kept, latest, c), actions, latest, c);
    assert stored[i].id == latest[need] && stored[i].status == Suggested;
    assert (stored + Inserted(actions, latest, next, c))[i] == stored[i];
  }

  /** So what archiving loses are exactly the needs the evaluation leaves unfounded. */
  lemma LossesAreUnfounded(rows: seq<Row>, next: nat, c: Run, f: Facts)
    requires Keyed(rows, next)
    ensures var kept, p := Remaining(rows, c), MakePlan(rows, c, f);
            var latest := Latest(kept, c);
            Losses(RefreshedRows(MergedRows(kept, latest, c), p.actions, latest, c) + Inserted(p.actions, latest, next, c), p, latest) ==
            LostNeeds(rows, c, f)
  {
    hide Latest, Remaining, MakePlan, Inserted, RefreshedRows, MergedRows, Lives, Gone, Unfounded, Keyed;
    var kept, p := Remaining(rows, c), MakePlan(rows, c, f);
    RemainingKeyed(rows, next, c);
    forall need | need in Latest(kept, c) { PendingLives(kept, next, c, p.actions, need); }
    forall need { GoneIffUnfounded(rows, c, f, need); }
    forall need { CoveredIff(rows, c, need); }
  }
}
