/** The item and job tables as the workers, the watchdog and the teachers update them: backend/app/ingestion/batch.py. */
module BatchStores {
  import opened Options
  import opened Batch

  class BatchStore {
    var items: seq<Item>
    var jobs: seq<JobStatus>
    var responses: map<(nat, nat), nat>
    var nextResponse: nat
    ghost var workers: seq<Worker>

    ghost function State(): State
      reads this
    {
      Batch.State(items, jobs, responses, nextResponse, workers)
    }

    constructor ()
      ensures State() == Empty
    {
      items, jobs, responses, nextResponse, workers := [], [], map[], 0, [];
    }

    /** Looks at the job's items one by one. */
    method FinalizeJob(job: nat)
      modifies this`jobs
      ensures jobs == Finalize(items, old(jobs), job)
    {
      var some, all := false, true;
      for i := 0 to |items|
        invariant some <==> exists k :: 0 <= k < i && items[k].job == job
        invariant all <==> forall k | 0 <= k < i && items[k].job == job :: Terminal(items[k].status)
      {
        if items[i].job == job {
          some := true;
          if !Terminal(items[i].status) { all := false; }
        }
      }
      if some && all && job < |jobs| { jobs := jobs[job := Done]; }
    }

    /** Inserts a response; the unique constraint turns a second one into a duplicate. */
    method PersistResponse(exam: nat, student: nat) returns (status: Status, response: nat)
      modifies this`responses, this`nextResponse
      ensures var r := StoreResponse(old(State()), exam, student);
              status == r.status && response == r.response && State() == WithStored(old(State()), r)
    {
      if (exam, student) in responses {
        status, response := Duplicate, responses[(exam, student)];
      } else {
        status, response := Matched, nextResponse;
        responses := responses[(exam, student) := nextResponse];
        nextResponse := nextResponse + 1;
      }
    }

    method PersistBatchResult(i: nat, exam: nat, payload: Option<Payload>, template: bool, found: Option<nat>)
      requires i < |items|
      modifies this`items, this`jobs, this`responses, this`nextResponse
      ensures State() == Persist(old(State()), i, exam, payload, template, found)
    {
      hide Finalize;
      var it := items[i];
      if payload.None? || !template {
        items := items[i := FailedItem(it)];
      } else if found.None? {
        items := items[i := UnmatchedItem(it, payload.value)];
      } else {
        var status, response := PersistResponse(exam, found.value);
        items := items[i := it.(status := status, student := found, response := Some(response), detected := None, payload := None, file := false)];
      }
      FinalizeJob(items[i].job);
    }

    /** Fails what has been parsing since before the cutoff. */
    method FailStale(cutoff: real) returns (touched: set<nat>, count: nat)
      modifies this`items
      ensures |items| == |old(items)| && forall k | 0 <= k < |items| :: items[k] == GiveUp(old(items)[k], cutoff)
      ensures forall j: nat :: j in touched <==> HasStale(old(items), cutoff, j)
      ensures count == StaleCount(old(items), cutoff)
    {
      ghost var before := items;
      touched, count := {}, 0;
      for i := 0 to |items|
        invariant |items| == |before|
        invariant forall k | 0 <= k < |items| :: items[k] == if k < i then GiveUp(before[k], cutoff) else before[k]
        invariant forall j: nat :: j in touched <==> HasStale(before[..i], cutoff, j)
        invariant count == StaleCount(before[..i], cutoff)
      {
        StaleStep(before, i, cutoff);
        if Stale(items[i], cutoff) {
          touched := touched + {items[i].job};
          items := items[i := items[i].(status := Failed)];
          count := count + 1;
        }
      }
      assert before[..|before|] == before;
    }

    /** The watchdog: fails stale items, then finalizes the jobs concerned. */
    method ReconcileStaleRuntime(cutoff: real) returns (count: nat)
      modifies this`items, this`jobs
      ensures State() == Watch(old(State()), cutoff)
      ensures count == StaleCount(old(items), cutoff)
    {
      hide HasStale, HasItems, AllTerminal, GiveUp;
      ghost var before := State();
      var touched;
      touched, count := FailStale(cutoff);
      FinalizeAll(touched);
      WatchInFull(before, items, jobs, cutoff, touched);
    }

    method FinalizeAll(touched: set<nat>)
      modifies this`jobs
      ensures |jobs| == |old(jobs)|
      ensures forall j | 0 <= j < |jobs| ::
                jobs[j] == if j in touched && HasItems(items, j) && AllTerminal(items, j) then Done else old(jobs)[j]
    {
      hide HasItems, AllTerminal, Finalize;
      ghost var before, looked: set<nat> := jobs, {};
      var todo := touched;
      while todo != {}
        invariant looked + todo == touched && looked !! todo && |jobs| == |before|
        invariant forall j | 0 <= j < |jobs| ::
                    jobs[j] == if j in looked && HasItems(items, j) && AllTerminal(items, j) then Done else before[j]
        decreases |todo|
      {
        var j :| j in todo;
        FinalizeShape(items, jobs, j);
        FinalizeJob(j);
        todo, looked := todo - {j}, looked + {j};
      }
    }

    /** True when the item was unmatched, had answers to store, and the student sits the exam. */
    method AssignItem(i: nat, student: nat, people: People) returns (ok: bool)
      modifies this`items, this`responses, this`nextResponse
      ensures State() == Assign(old(State()), i, student, people)
      ensures ok <==> Assignable(old(State()), i, student, people)
      ensures ok ==> (items[i].exam, student) in responses && items[i].response == Some(responses[(items[i].exam, student)])
    {
      ok := i < |items| && items[i].status == Unmatched && items[i].payload.Some? && items[i].payload.value.answered
            && Sits(people, items[i].exam, student);
      if ok {
        var it := items[i];
        var status, response := PersistResponse(it.exam, student);
        items := items[i := it.(status := status, student := Some(student), response := Some(response), detected := None, file := false)];
      }
    }
  }

  lemma WatchInFull(s: State, items: seq<Item>, jobs: seq<JobStatus>, cutoff: real, touched: set<nat>)
    requires |items| == |s.items| && |jobs| == |s.jobs|
    requires forall k | 0 <= k < |items| :: items[k] == GiveUp(s.items[k], cutoff)
    requires forall j: nat :: j in touched <==> HasStale(s.items, cutoff, j)
    requires forall j | 0 <= j < |jobs| ::
               jobs[j] == if j in touched && HasItems(items, j) && AllTerminal(items, j) then Done else s.jobs[j]
    ensures s.(items := items, jobs := jobs) == Watch(s, cutoff)
  {
    hide AllTerminal;
    assert items == Watch(s, cutoff).items;
    forall j: nat | j < |jobs| && HasStale(s.items, cutoff, j) ensures HasItems(items, j) {
      var k :| 0 <= k < |s.items| && Stale(s.items[k], cutoff) && s.items[k].job == j;
      assert items[k].job == j;
    }
  }

  lemma FinalizeShape(items: seq<Item>, jobs: seq<JobStatus>, job: nat)
    ensures var jobs' := Finalize(items, jobs, job);
            && |jobs'| == |jobs|
            && forall j | 0 <= j < |jobs| :: jobs'[j] == if j == job && HasItems(items, j) && AllTerminal(items, j) then Done else jobs[j]
  {
    hide HasItems, AllTerminal;
  }

  function StaleCount(items: seq<Item>, cutoff: real): nat {
    if items == [] then 0
    else StaleCount(items[..|items| - 1], cutoff) + if Stale(items[|items| - 1], cutoff) then 1 else 0
  }

  lemma StaleStep(items: seq<Item>, i: nat, cutoff: real)
    requires i < |items|
    ensures StaleCount(items[..i + 1], cutoff) == StaleCount(items[..i], cutoff) + if Stale(items[i], cutoff) then 1 else 0
    ensures forall j: nat :: HasStale(items[..i + 1], cutoff, j) <==>
              HasStale(items[..i], cutoff, j) || (Stale(items[i], cutoff) && items[i].job == j)
  {
    assert items[..i + 1][..i] == items[..i];
    forall j: nat ensures HasStale(items[..i + 1], cutoff, j) <==>
                          HasStale(items[..i], cutoff, j) || (Stale(items[i], cutoff) && items[i].job == j)
    {
      if k :| 0 <= k < i && Stale(items[..i][k], cutoff) && items[..i][k].job == j { assert items[..i + 1][k] == items[k]; }
      if Stale(items[i], cutoff) && items[i].job == j { assert items[..i + 1][i] == items[i]; }
    }
  }
}
