/** What each transaction leaves behind, said on the rows themselves: backend/app/ingestion/batch.py. */
module BatchOutcomes {
  import opened Options
  import opened Batch
  import opened BatchTheorems

  /** Not finished: queued or parsing. */
  predicate Unfinished(it: Item) {
    it.status == Queued || it.status == Parsing
  }

  ghost predicate JobFinished(items: seq<Item>, job: nat) {
    && (exists i :: 0 <= i < |items| && items[i].job == job)
    && forall i | 0 <= i < |items| && items[i].job == job :: !Unfinished(items[i])
  }

  /** Item i becomes `it`; nothing else changes but its job, which is done if its items all are. */
  ghost predicate Concludes(s: State, i: nat, it: Item, s': State) {
    && i < |s.items| && s'.items == s.items[i := it] && |s'.jobs| == |s.jobs|
    && forall j: nat | j < |s.jobs| :: s'.jobs[j] == if j == it.job && JobFinished(s'.items, j) then Done else s.jobs[j]
  }

  lemma FinalizeIs(items: seq<Item>, jobs: seq<JobStatus>, job: nat)
    ensures |Finalize(items, jobs, job)| == |jobs|
    ensures forall j: nat | j < |jobs| :: Finalize(items, jobs, job)[j] == if j == job && JobFinished(items, j) then Done else jobs[j]
  {
  }

  lemma PutConcludes(s: State, i: nat, it: Item)
    requires i < |s.items|
    ensures Concludes(s, i, it, Put(s, i, it, true))
    ensures Put(s, i, it, true) == s.(items := s.items[i := it], jobs := Put(s, i, it, true).jobs)
  {
    hide Finalize;
    FinalizeIs(s.items[i := it], s.jobs, it.job);
  }

  // ----- Upload and begin ------------------------------------------------------------------------------

  /** An upload opens a running job with one queued item per sheet, each with its file and a worker of its own. */
  lemma UploadIs(s: State, exam: nat, count: nat)
    ensures var s', n, m := Step(s, Uploads(exam, count)), |s.items|, |s.workers|;
            && s'.jobs == s.jobs + [Running] && s'.responses == s.responses && s'.nextResponse == s.nextResponse
            && |s'.items| == n + count && s'.items[..n] == s.items && |s'.workers| == m + count && s'.workers[..m] == s.workers
            && (forall i | n <= i < n + count :: s'.items[i] == Item(|s.jobs|, exam, Queued, None, None, None, None, true, None))
            && (forall w | m <= w < m + count :: s'.workers[w] == Submitted(n + (w - m)))
  {
  }

  /** A worker takes up its item exactly when it is still queued; it then reopens the job. Otherwise it ends. */
  lemma BeginIs(s: State, w: nat, now: real)
    requires Inv(s) && w < |s.workers| && s.workers[w].Submitted?
    ensures var s', i := Step(s, Begins(w, now)), s.workers[w].item;
            && i < |s.items| && s.items[i].job < |s.jobs|
            && s'.responses == s.responses && s'.nextResponse == s.nextResponse
            && (if s.items[i].status == Queued then
                  && s'.items == s.items[i := s.items[i].(status := Parsing, started := Some(now))]
                  && s'.jobs == s.jobs[s.items[i].job := Running]
                  && s'.workers == s.workers[w := Working(i, s.items[i].job, s.items[i].exam)]
                else s' == s.(workers := s.workers[w := Ended]))
  {
  }

  // ----- The end of a worker -----------------------------------------------------------------------------

  /** The item after its sheet was read: failed without a result or a template, unmatched without a student,
      matched with a new response, or a duplicate of the response there is. */
  ghost predicate ReadAs(s: State, it: Item, payload: Option<Payload>, template: bool, found: Option<nat>, it': Item, s': State) {
    if payload.None? || !template then
      it' == it.(status := Failed, detected := None, payload := None) && s'.responses == s.responses
    else if found.None? then
      && it' == it.(status := Unmatched, detected := payload.value.name, payload := payload, student := None, file := false)
      && s'.responses == s.responses
    else
      var key := (it.exam, found.value);
      && key in s'.responses
      && it' == it.(status := if key in s.responses then Duplicate else Matched, student := found,
                    response := Some(s'.responses[key]), detected := None, payload := None, file := false)
      && s'.responses == (if key in s.responses then s.responses else s.responses[key := s.nextResponse])
  }

  lemma PersistIs(s: State, w: nat, payload: Option<Payload>, template: bool, found: Option<nat>)
    requires Inv(s) && w < |s.workers| && s.workers[w].Working?
    ensures var s', i := Step(s, Persists(w, payload, template, found)), s.workers[w].item;
            && i < |s.items| && |s'.items| == |s.items| && s'.workers == s.workers[w := Ended]
            && ReadAs(s, s.items[i], payload, template, found, s'.items[i], s') && Concludes(s, i, s'.items[i], s')
  {
    hide Finalize, Put;
    WorkerIsOk(s, w);
    var i, exam := s.workers[w].item, s.workers[w].exam;
    var it, s' := s.items[i], Step(s, Persists(w, payload, template, found));
    if payload.None? || !template {
      PutConcludes(s, i, FailedItem(it));
    } else if found.None? {
      PutConcludes(s, i, UnmatchedItem(it, payload.value));
    } else {
      var r := StoreResponse(s, exam, found.value);
      PutConcludes(WithStored(s, r), i, StoredItem(it, found.value, r).(payload := None));
    }
  }

  /** A lost file fails the item; so does a crash, unless the item is finished already. The worker ends. */
  lemma BreakdownIs(s: State, e: Event)
    requires (e.LosesFile? && e.w < |s.workers| && s.workers[e.w].Working?) || (e.Crashes? && e.w < |s.workers| && s.workers[e.w] != Ended)
    requires s.workers[e.w].item < |s.items|
    ensures var s', i := Step(s, e), s.workers[e.w].item;
            && |s'.items| == |s.items| && s'.workers == s.workers[e.w := Ended] && s'.responses == s.responses
            && s'.items[i] == (if e.LosesFile? || Unfinished(s.items[i]) then s.items[i].(status := Failed, detected := None) else s.items[i])
            && Concludes(s, i, s'.items[i], s')
  {
    hide Finalize, Put;
    var i := s.workers[e.w].item;
    PutConcludes(s, i, if e.LosesFile? || Unfinished(s.items[i]) then s.items[i].(status := Failed, detected := None) else s.items[i]);
  }

  /** A worker that dies leaves everything else as it is; a response stored elsewhere only takes its key. */
  lemma OthersAre(s: State, e: Event)
    requires (e.Dies? && e.w < |s.workers| && s.workers[e.w] != Ended && s.workers[e.w].item < |s.items|) || e.OtherResponse?
    ensures var s' := Step(s, e);
            && (e.Dies? ==> s' == s.(workers := s.workers[e.w := Ended]))
            && (e.OtherResponse? ==>
                  && s'.items == s.items && s'.jobs == s.jobs && s'.workers == s.workers
                  && s'.responses == if (e.exam, e.student) in s.responses then s.responses else s.responses[(e.exam, e.student) := s.nextResponse])
  {
  }

  // ----- The teacher -------------------------------------------------------------------------------------

  /** A teacher assigns exactly unmatched items with answers, to students of the exam's class who sit it. */
  ghost predicate MayAssign(s: State, i: nat, student: nat, people: People) {
    && i < |s.items| && s.items[i].status == Unmatched && s.items[i].payload.Some? && s.items[i].payload.value.answered
    && student in people.students && s.items[i].exam in people.exams
    && people.students[student] == people.exams[s.items[i].exam] && (s.items[i].exam, student) in people.sitting
  }

  lemma AssignIs(s: State, i: nat, student: nat, people: People)
    ensures var s' := Step(s, Assigns(i, student, people));
            if MayAssign(s, i, student, people) then
              var it, key := s.items[i], (s.items[i].exam, student);
              && s'.jobs == s.jobs && s'.workers == s.workers && key in s'.responses
              && s'.responses == (if key in s.responses then s.responses else s.responses[key := s.nextResponse])
              && s'.items == s.items[i := it.(status := if key in s.responses then Duplicate else Matched, student := Some(student),
                                              response := Some(s'.responses[key]), detected := None, file := false)]
            else s' == s
  {
  }

  /** Exactly failed items whose file is there are queued again, with a new worker; the job is not reopened. */
  lemma RetryIs(s: State, i: nat, onDisk: bool)
    ensures var s' := Step(s, Retries(i, onDisk));
            if i < |s.items| && s.items[i].status == Failed && s.items[i].file && onDisk
            then s' == s.(items := s.items[i := s.items[i].(status := Queued, detected := None)], workers := s.workers + [Submitted(i)])
            else s' == s
  {
  }

  /** Exactly unmatched and failed items are discarded, and their file with them. */
  lemma DiscardIs(s: State, i: nat)
    ensures var s' := Step(s, Discards(i));
            if i < |s.items| && s.items[i].status in {Unmatched, Failed}
            then s' == s.(items := s.items[i := s.items[i].(status := Discarded, detected := None, file := false)])
            else s' == s
  {
  }

  // ----- Watchdog and restart ------------------------------------------------------------------------------

  /** A restart fails the unfinished items of running jobs and calls every job done. */
  lemma RestartIs(s: State, dead: set<nat>)
    ensures var s' := Step(s, Restarts(dead));
            && s'.responses == s.responses && s'.nextResponse == s.nextResponse
            && |s'.items| == |s.items| && |s'.jobs| == |s.jobs| && |s'.workers| == |s.workers|
            && (forall i | 0 <= i < |s.items| :: s'.items[i] ==
                  if Unfinished(s.items[i]) && s.items[i].job < |s.jobs| && s.jobs[s.items[i].job] == Running
                  then s.items[i].(status := Failed) else s.items[i])
            && (forall j | 0 <= j < |s.jobs| :: s'.jobs[j] == Done)
            && (forall w | 0 <= w < |s.workers| :: s'.workers[w] == if w in dead then Ended else s.workers[w])
  {
  }

  /** The watchdog fails what has been parsing since before the cutoff; a job it touched is done if its items all are. */
  lemma WatchIs(s: State, cutoff: real)
    ensures var s' := Step(s, Watches(cutoff));
            && s'.responses == s.responses && s'.workers == s.workers && |s'.items| == |s.items| && |s'.jobs| == |s.jobs|
            && (forall i | 0 <= i < |s.items| :: s'.items[i] == if Late(s.items[i], cutoff) then s.items[i].(status := Failed) else s.items[i])
            && (forall j: nat | j < |s.jobs| :: s'.jobs[j] ==
                  if (exists i :: 0 <= i < |s.items| && Late(s.items[i], cutoff) && s.items[i].job == j) && JobFinished(s'.items, j)
                  then Done else s.jobs[j])
  {
    var s' := Step(s, Watches(cutoff));
    forall j: nat | j < |s.jobs| && HasStale(s.items, cutoff, j) ensures AllTerminal(s'.items, j) <==> JobFinished(s'.items, j) {
      var i :| 0 <= i < |s.items| && Stale(s.items[i], cutoff) && s.items[i].job == j;
      assert s'.items[i].job == j;
    }
    assert forall i | 0 <= i < |s.items| :: Late(s.items[i], cutoff) <==> Stale(s.items[i], cutoff);
  }

  predicate Late(it: Item, cutoff: real) {
    it.status == Parsing && it.started.Some? && it.started.value < cutoff
  }
}
