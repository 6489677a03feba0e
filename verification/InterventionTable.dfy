/** The intervention table and the generation run on it: backend/app/intervention.py. */
module InterventionTables {
  import opened Interventions
  import opened InterventionPlan
  import opened InterventionTheorems
  import opened PlanTheorems
  import opened GenerationTheorems
  import opened InterventionSteps
  import opened InterventionPlanner

  class InterventionTable {
    var rows: seq<Row>
    var next: nat

    constructor ()
      ensures rows == [] && next == 0
    {
      rows, next := [], 0;
    }

    /** Deletes this exam's own suggestions. */
    method ClearSuggested(c: Run)
      modifies this`rows
      ensures rows == Remaining(old(rows), c)
    {
      var kept: seq<Row> := [];
      for i := 0 to |rows|
        invariant kept == Remaining(rows[..i], c)
      {
        assert rows[..i + 1][..i] == rows[..i];
        if !Cleared(rows[i], c) { kept := kept + [rows[i]]; }
      }
      assert rows[..|rows|] == rows;
      rows := kept;
    }

    /** Keeps the newest suggestion of every need pending and skips the others. */
    method MergePending(c: Run) returns (pending: map<Need, nat>)
      modifies this`rows
      ensures pending == Latest(old(rows), c) && rows == MergedRows(old(rows), pending, c)
    {
      pending := map[];
      for i := 0 to |rows|
        invariant pending == Latest(rows[..i], c)
      {
        assert rows[..i + 1][..i] == rows[..i];
        pending := LatestStep(pending, rows[i], c);
      }
      assert rows[..|rows|] == rows;
      ghost var before := rows;
      for i := 0 to |rows|
        invariant |rows| == |before|
        invariant forall k | 0 <= k < |rows| :: rows[k] == if k < i then MergeRow(before[k], pending, c) else before[k]
      {
        if Queued(rows[i], c) && rows[i].need in pending && pending[rows[i].need] != rows[i].id {
          rows := rows[i := rows[i].(status := Skipped, note := Merged)];
        }
      }
    }

    /** Refreshes the pending row of the action's need in place, or adds a row. */
    method Upsert(a: Action, pending: map<Need, nat>, c: Run)
      modifies this
      ensures a.need in pending ==> rows == RefreshById(old(rows), pending[a.need], a, c) && next == old(next)
      ensures a.need !in pending ==> rows == old(rows) + [NewRow(a, old(next), c)] && next == old(next) + 1
    {
      if a.need in pending {
        ghost var before := rows;
        for i := 0 to |rows|
          invariant next == old(next) && |rows| == |before|
          invariant forall k | 0 <= k < |rows| ::
                      rows[k] == if k < i && before[k].id == pending[a.need] then Refresh(before[k], a, c) else before[k]
        {
          if rows[i].id == pending[a.need] { rows := rows[i := Refresh(rows[i], a, c)]; }
        }
      } else {
        rows, next := rows + [NewRow(a, next, c)], next + 1;
      }
    }

    /** Stores the plan, action by action. */
    method UpsertAll(actions: seq<Action>, pending: map<Need, nat>, c: Run) returns (created: nat)
      requires Addresses(rows, pending) && forall need | need in pending :: pending[need] < next
      modifies this
      ensures created == |actions|
      ensures var added := Inserted(actions, pending, old(next), c);
              rows == RefreshedRows(old(rows), actions, pending, c) + added && next == old(next) + |added|
    {
      hide RefreshedRows, RefreshById, NewRow, Addresses;
      ghost var before, first := rows, next;
      created := 0;
      NothingStored(before, actions, pending, first, c);
      for k := 0 to |actions|
        invariant created == k
        invariant rows == RefreshedRows(before, actions[..k], pending, c) + Inserted(actions[..k], pending, first, c)
        invariant next == first + |Inserted(actions[..k], pending, first, c)|
      {
        UpsertPosition(before, actions, k, pending, first, c);
        InsertedStep(actions, k, pending, first, c);
        Upsert(actions[k], pending, c);
        created := created + 1;
      }
      assert actions[..|actions|] == actions;
    }

    /** Skips pending suggestions that have lost their ground. */
    method ArchiveUnsupported(p: Plan, pending: map<Need, nat>) returns (archived: nat)
      requires Addresses(rows, pending)
      modifies this`rows
      ensures rows == ArchivedRows(old(rows), p, pending, pending.Keys)
      ensures archived == |Losses(old(rows), p, pending)|
    {
      hide ArchivedRows, ArchiveById, Addresses, Gone, Lives, Losses;
      ghost var before, looked, lost := rows, {}, {};
      var todo := pending.Keys;
      archived := 0;
      NothingLooked(before, p, pending);
      while todo != {}
        invariant looked + todo == pending.Keys && looked !! todo
        invariant rows == ArchivedRows(before, p, pending, looked)
        invariant lost == Losses(before, p, pending) * looked && archived == |lost|
        decreases |todo|
      {
        var need :| need in todo;
        ArchiveStep(before, p, pending, looked, need);
        LossStep(before, p, pending, looked, need);
        if Gone(p, need) && Lives(rows, pending[need]) {
          rows := ArchiveById(rows, pending[need]);
          archived, lost := archived + 1, lost + {need};
        }
        todo, looked := todo - {need}, looked + {need};
      }
      AllLosses(before, p, pending);
    }

    /** The whole run leaves the one-pass reconciliation of what it found. */
    method Generate(c: Run, f: Facts) returns (suggested: nat, groups: nat, archived: nat)
      requires Keyed(rows, next) && WellPosed(f, c)
      modifies this
      ensures rows == InterventionPlan.Generate(old(rows), old(next), c, f) && next == NextId(old(rows), old(next), c, f)
      ensures Keyed(rows, next)
      ensures suggested == if f.committed == [] then 0 else |MakePlan(old(rows), c, f).actions|
      ensures groups == if f.committed == [] then 0 else |GroupRoots(Lists(old(rows), c, f), f.groupMin)|
      ensures archived == if f.committed == [] then 0 else |LostNeeds(old(rows), c, f)|
    {
      hide Remaining, Latest, MergedRows, RefreshedRows, ArchivedRows, Inserted, MakePlan, Lists, Reconcile, WellPosed, Sound, Addresses, GroupRoots, Keyed, LostNeeds, Losses;
      suggested, groups, archived := 0, 0, 0;
      if f.committed != [] {
        ghost var found, first := rows, next;
        ClearSuggested(c);
        var pending := MergePending(c);
        ghost var merged := rows;
        var p;
        p, groups := PlanActions(rows, c, f);
        PlanAfterMerge(found, c, f);
        MergedAddresses(found, first, c);
        suggested := UpsertAll(p.actions, pending, c);
        UpsertedAddresses(merged, pending, first, p.actions, c);
        LossesAreUnfounded(found, first, c, f);
        archived := ArchiveUnsupported(p, pending);
        ArchivingSparesNew(RefreshedRows(merged, p.actions, pending, c), p, pending, first, p.actions, c);
        PlansAreSound(found, c, f);
        StepsReconcile(found, first, p, c);
        ReconcileKeepsKeys(found, first, p, c);
      }
    }
  }
}
