/** Batches over every interleaving of workers, watchdog, restarts and teachers. */
module BatchTheorems {
  import opened Options
  import opened Batch

  // ----- Invariant -----------------------------------------------------------------------------------

  /** A name is kept only while unmatched; a matched or duplicate item names the response of its
      exam and student; an unfinished item has its file, and a parsing one its time of start. */
  ghost predicate ItemOk(it: Item, responses: map<(nat, nat), nat>) {
    && (it.detected.Some? ==> it.status == Unmatched)
    && (it.status == Matched || it.status == Duplicate ==>
          it.student.Some? && (it.exam, it.student.value) in responses && it.response == Some(responses[(it.exam, it.student.value)]))
    && (!Terminal(it.status) ==> it.file)
    && (it.status == Parsing ==> it.started.Some?)
  }

  ghost predicate ItemsOk(items: seq<Item>, responses: map<(nat, nat), nat>) {
    forall i | 0 <= i < |items| :: ItemOk(items[i], responses)
  }

  /** A parsing item's job is running. */
  ghost predicate JobsRun(items: seq<Item>, jobs: seq<JobStatus>) {
    forall i | 0 <= i < |items| :: items[i].job < |jobs| && (items[i].status == Parsing ==> jobs[items[i].job] == Running)
  }

  /** Workers know their item's exam and job, which never change. */
  ghost predicate WorkersOk(items: seq<Item>, workers: seq<Worker>) {
    forall w | 0 <= w < |workers| ::
      && (workers[w].Submitted? ==> workers[w].item < |items|)
      && (workers[w].Working? ==> workers[w].item < |items| && items[workers[w].item].exam == workers[w].exam
                                  && items[workers[w].item].job == workers[w].job)
  }

  ghost predicate AtWork(workers: seq<Worker>, i: nat) {
    exists w :: 0 <= w < |workers| && workers[w].Working? && workers[w].item == i
  }

  /** Response ids are distinct. */
  ghost predicate ResponsesOk(s: State) {
    && (forall k | k in s.responses :: s.responses[k] < s.nextResponse)
    && (forall k, m | k in s.responses && m in s.responses && s.responses[k] == s.responses[m] :: k == m)
  }

  ghost predicate Inv(s: State) {
    ItemsOk(s.items, s.responses) && JobsRun(s.items, s.jobs) && WorkersOk(s.items, s.workers)
    && ResponsesOk(s)
  }

  // ----- Building blocks --------------------------------------------------------------------------------

  ghost predicate Grows(responses: map<(nat, nat), nat>, responses': map<(nat, nat), nat>) {
    forall k | k in responses :: k in responses' && responses'[k] == responses[k]
  }

  lemma StoreIsSound(s: State, exam: nat, student: nat)
    requires ResponsesOk(s)
    ensures var r := StoreResponse(s, exam, student);
            && Grows(s.responses, r.responses) && ResponsesOk(WithStored(s, r))
            && (exam, student) in r.responses && r.responses[(exam, student)] == r.response
            && (r.status == Matched || r.status == Duplicate)
  {
  }

  lemma FinalizeKeepsJobs(items: seq<Item>, jobs: seq<JobStatus>, job: nat)
    requires JobsRun(items, jobs)
    ensures JobsRun(items, Finalize(items, jobs, job))
  {
  }

  /** Replacing an item by one that is not parsing, with the same exam and job. */
  lemma PutKeepsInv(s: State, s0: State, i: nat, it: Item, finalize: bool)
    requires Inv(s0) && ResponsesOk(s) && Grows(s0.responses, s.responses)
    requires s.items == s0.items && s.jobs == s0.jobs && s.workers == s0.workers
    requires i < |s.items| && it.job == s.items[i].job && it.exam == s.items[i].exam && it.status != Parsing
    requires ItemOk(it, s.responses)
    ensures Inv(Put(s, i, it, finalize)) && Put(s, i, it, finalize).workers == s.workers
    ensures Put(s, i, it, finalize).items == s.items[i := it]
  {
    hide Finalize;
    var items := s.items[i := it];
    assert ItemsOk(items, s.responses);
    assert JobsRun(items, s.jobs);
    FinalizeKeepsJobs(items, s.jobs, it.job);
  }

  lemma EndKeepsInv(s: State, w: nat)
    requires Inv(s) && w < |s.workers|
    ensures Inv(EndWorker(s, w))
  {
    hide ItemsOk, JobsRun;
  }

  // ----- Each event -------------------------------------------------------------------------------------

  lemma PersistKeepsInv(s: State, i: nat, exam: nat, payload: Option<Payload>, template: bool, found: Option<nat>)
    requires Inv(s) && i < |s.items| && s.items[i].exam == exam
    ensures var s' := Persist(s, i, exam, payload, template, found);
            Inv(s') && s'.workers == s.workers && |s'.items| == |s.items| && s'.items[i].status != Parsing
  {
    hide Inv, Put, ResponsesOk;
    var it := s.items[i];
    ResponsesAreOk(s);
    if payload.None? || !template {
      PutKeepsInv(s, s, i, FailedItem(it), true);
    } else if found.None? {
      PutKeepsInv(s, s, i, UnmatchedItem(it, payload.value), true);
    } else {
      StoreIsSound(s, exam, found.value);
      var r := StoreResponse(s, exam, found.value);
      PutKeepsInv(WithStored(s, r), s, i, StoredItem(it, found.value, r).(payload := None), true);
    }
  }

  lemma ResponsesAreOk(s: State)
    requires Inv(s)
    ensures ResponsesOk(s)
  {
  }

  lemma ItemIsOk(s: State, i: nat)
    requires Inv(s) && i < |s.items|
    ensures ItemOk(s.items[i], s.responses)
  {
  }

  lemma WorkerIsOk(s: State, w: nat)
    requires Inv(s) && w < |s.workers| && s.workers[w].Working?
    ensures s.workers[w].item < |s.items| && s.items[s.workers[w].item].exam == s.workers[w].exam
  {
  }

  /** However a worker ends of its own accord, in its last transaction, on a lost file or in its
      handler of last resort, its item is left terminal. */
  lemma WorkerEnds(s: State, e: Event)
    requires Inv(s) && (((e.LosesFile? || e.Persists?) && Busy(s, e.w)) || (e.Crashes? && Alive(s, e.w)))
    ensures Inv(Step(s, e)) && s.workers[e.w].item < |Step(s, e).items| && Terminal(Step(s, e).items[s.workers[e.w].item].status)
  {
    hide Inv, Finalize, ResponsesOk;
    var i := s.workers[e.w].item;
    var it := s.items[i];
    ItemIsOk(s, i);
    ResponsesAreOk(s);
    match e
    case LosesFile(w) =>
      PutKeepsInv(s, s, i, it.(status := Failed, detected := None), true);
      EndKeepsInv(Put(s, i, it.(status := Failed, detected := None), true), w);
    case Crashes(w) =>
      var it' := if Terminal(it.status) then it else it.(status := Failed, detected := None);
      PutKeepsInv(s, s, i, it', true);
      EndKeepsInv(Put(s, i, it', true), w);
    case Persists(w, payload, template, found) =>
      WorkerIsOk(s, w);
      PersistKeepsInv(s, i, s.workers[w].exam, payload, template, found);
      PersistIsTerminal(s, i, s.workers[w].exam, payload, template, found);
      EndKeepsInv(Persist(s, i, s.workers[w].exam, payload, template, found), w);
  }

  lemma PersistIsTerminal(s: State, i: nat, exam: nat, payload: Option<Payload>, template: bool, found: Option<nat>)
    requires i < |s.items|
    ensures var s' := Persist(s, i, exam, payload, template, found); i < |s'.items| && Terminal(s'.items[i].status)
  {
  }

  lemma BeginKeepsInv(s: State, w: nat, now: real)
    requires Inv(s) && w < |s.workers| && s.workers[w].Submitted?
    ensures Inv(Begin(s, w, now))
  {
    if s.items[s.workers[w].item].status != Queued { EndKeepsInv(s, w); }
  }

  lemma UploadKeepsInv(s: State, exam: nat, count: nat)
    requires Inv(s)
    ensures Inv(Upload(s, exam, count))
  {
    var s' := Upload(s, exam, count);
    assert forall i | 0 <= i < |s.items| :: s'.items[i] == s.items[i];
    assert forall w | 0 <= w < |s.workers| :: s'.workers[w] == s.workers[w];
  }

  lemma WatchKeepsInv(s: State, cutoff: real)
    requires Inv(s)
    ensures Inv(Watch(s, cutoff))
  {
    hide HasStale;
    var s' := Watch(s, cutoff);
    assert forall i | 0 <= i < |s.items| :: s'.items[i] == GiveUp(s.items[i], cutoff);
  }

  lemma RestartKeepsInv(s: State, dead: set<nat>)
    requires Inv(s)
    ensures Inv(Restart(s, dead)) && forall i | 0 <= i < |s.items| :: Restart(s, dead).items[i].status != Parsing
  {
    var s' := Restart(s, dead);
    assert forall i | 0 <= i < |s.items| :: s'.items[i] == Recover(s.items[i], s.jobs) && s'.items[i].status != Parsing;
  }

  lemma TeacherKeepsInv(s: State, e: Event)
    requires Inv(s) && (e.Assigns? || e.Retries? || e.Discards?)
    ensures Inv(Step(s, e))
  {
    hide Inv, Put, ResponsesOk;
    ResponsesAreOk(s);
    if e.i < |s.items| {
      var it := s.items[e.i];
      match e
      case Assigns(i, student, people) =>
        if Assign(s, i, student, people) != s {
          StoreIsSound(s, it.exam, student);
          var r := StoreResponse(s, it.exam, student);
          PutKeepsInv(WithStored(s, r), s, i, StoredItem(it, student, r), false);
        }
      case Retries(i, _) =>
        if it.file {
          PutKeepsInv(s, s, i, it.(status := Queued, detected := None), false);
          MoreWorkers(Put(s, i, it.(status := Queued, detected := None), false), i);
        }
      case Discards(i) => PutKeepsInv(s, s, i, it.(status := Discarded, detected := None, file := false), false);
    }
  }

  lemma MoreWorkers(s: State, i: nat)
    requires Inv(s) && i < |s.items|
    ensures Inv(s.(workers := s.workers + [Submitted(i)]))
  {
    hide ItemsOk, JobsRun;
  }

  lemma OtherKeepsInv(s: State, exam: nat, student: nat)
    requires Inv(s)
    ensures Inv(WithStored(s, StoreResponse(s, exam, student)))
  {
    hide StoreResponse, JobsRun, WorkersOk;
    StoreIsSound(s, exam, student);
  }

  lemma StepKeepsInv(s: State, e: Event)
    requires Inv(s)
    ensures Inv(Step(s, e))
  {
    hide Inv, Begin, Persist, Put, Watch, Restart, Upload, Assign, EndWorker, StoreResponse;
    match e
    case Uploads(exam, count) => UploadKeepsInv(s, exam, count);
    case Begins(w, now) => if w < |s.workers| && s.workers[w].Submitted? { BeginKeepsInv(s, w, now); }
    case LosesFile(w) => if Busy(s, w) { WorkerEnds(s, e); }
    case Persists(w, _, _, _) => if Busy(s, w) { WorkerEnds(s, e); }
    case Crashes(w) => if Alive(s, w) { WorkerEnds(s, e); }
    case Dies(w) => if Alive(s, w) { EndKeepsInv(s, w); }
    case Watches(cutoff) => WatchKeepsInv(s, cutoff);
    case Restarts(dead) => RestartKeepsInv(s, dead);
    case Assigns(_, _, _) => TeacherKeepsInv(s, e);
    case Retries(_, _) => TeacherKeepsInv(s, e);
    case Discards(_) => TeacherKeepsInv(s, e);
    case OtherResponse(exam, student) => OtherKeepsInv(s, exam, student);
  }

  /** At every commit point of every run, whatever crashes or dies: a parsing item has a running
      job, a time of start and its file; a kept name means unmatched; and matched or duplicate items
      name the one response of their exam and student. */
  lemma {:induction false} EveryCommitPointIsConsistent(run: seq<State>, events: seq<Event>, i: nat)
    requires IsRun(run, events) && i < |run|
    ensures Inv(run[i])
  {
    hide Inv, Step;
    if i == 0 { EmptyInv(); } else {
      EveryCommitPointIsConsistent(run, events, i - 1);
      StepKeepsInv(run[i - 1], events[i - 1]);
    }
  }

  lemma EmptyInv()
    ensures Inv(Empty)
  {
  }

  // ----- Runs and executions -----------------------------------------------------------------------------

  lemma {:induction false} ExecAppend(s: State, events: seq<Event>, e: Event)
    ensures Exec(s, events + [e]) == Step(Exec(s, events), e)
    decreases |events|
  {
    hide Step;
    if events == [] {
      assert [] + [e] == [e] && [e][1..] == [];
    } else {
      assert (events + [e])[1..] == events[1..] + [e];
      ExecAppend(Step(s, events[0]), events[1..], e);
    }
  }

  /** The states of executing ever more of the events form a run, so what is executed is reachable. */
  lemma ExecIsRun(events: seq<Event>) returns (run: seq<State>)
    ensures IsRun(run, events) && run[|events|] == Exec(Empty, events)
  {
    hide Step, Exec;
    run := seq(|events| + 1, i requires 0 <= i <= |events| => Exec(Empty, events[..i]));
    forall i | 0 <= i < |events| ensures run[i + 1] == Step(run[i], events[i]) {
      assert events[..i + 1] == events[..i] + [events[i]];
      ExecAppend(Empty, events[..i], events[i]);
    }
    assert events[..0] == [] && events[..|events|] == events;
    ExecNothing(Empty);
  }

  ghost predicate Reachable(s: State) {
    exists run, events :: IsRun(run, events) && run[|events|] == s
  }

  lemma ExecIsReachable(events: seq<Event>)
    ensures Reachable(Exec(Empty, events))
  {
    hide IsRun;
    var run := ExecIsRun(events);
  }

  // ----- Responses ----------------------------------------------------------------------------------------

  lemma StepKeepsResponses(s: State, e: Event)
    ensures Grows(s.responses, Step(s, e).responses)
  {
  }

  /** A response, once stored, is never lost or replaced, whatever late workers do. */
  lemma {:induction false} ResponsesAreKept(run: seq<State>, events: seq<Event>, i: nat, k: nat)
    requires IsRun(run, events) && i <= k < |run|
    ensures Grows(run[i].responses, run[k].responses)
  {
    hide Step;
    if i < k {
      ResponsesAreKept(run, events, i, k - 1);
      StepKeepsResponses(run[k - 1], events[k - 1]);
    }
  }

  // ----- What a restart strands ------------------------------------------------------------------------------

  /** Queued with nobody coming for it. */
  ghost predicate Stranded(s: State, i: nat) {
    i < |s.items| && s.items[i].status == Queued
    && forall w | 0 <= w < |s.workers| && s.workers[w] != Ended :: s.workers[w].item != i
  }

  /** A restart strands exactly the queued items whose job was done and whose workers it kills: it
      recovers running jobs only, and a retry does not reopen the job. */
  lemma RestartStrandsIff(s: State, dead: set<nat>, i: nat)
    requires Inv(s) && i < |s.items|
    ensures Stranded(Restart(s, dead), i) <==>
            && s.items[i].status == Queued && s.jobs[s.items[i].job] == Done
            && forall w: nat | w < |s.workers| && s.workers[w] != Ended && s.workers[w].item == i :: w in dead
  {
    var s' := Restart(s, dead);
    assert s'.items[i] == Recover(s.items[i], s.jobs);
    assert forall w: nat | w < |s.workers| :: s'.workers[w] == if w in dead then Ended else s.workers[w];
  }

  lemma StepLeavesStranded(s: State, e: Event, i: nat)
    requires Inv(s) && Stranded(s, i)
    requires e.Restarts? ==> s.jobs[s.items[i].job] == Done
    ensures Stranded(Step(s, e), i)
  {
  }

  /** Nothing but a later restart touches a stranded item: it cannot be assigned, retried or discarded. */
  lemma {:induction false} StrandedStays(run: seq<State>, events: seq<Event>, i: nat, k: nat, item: nat)
    requires IsRun(run, events) && i <= k < |run| && Stranded(run[i], item)
    requires forall m | i <= m < k :: !events[m].Restarts?
    ensures Stranded(run[k], item)
  {
    hide Step, Stranded, Inv;
    if i < k {
      StrandedStays(run, events, i, k - 1, item);
      EveryCommitPointIsConsistent(run, events, k - 1);
      StepLeavesStranded(run[k - 1], events[k - 1], item);
    }
  }

  /** A reachable state with a stranded item: read without success, retried after its job was done, restarted. */
  lemma RestartCanStrand()
    ensures var s := Exec(Empty, [Uploads(0, 1), Begins(0, 0.0), Persists(0, None, true, None), Retries(0, true), Restarts({0, 1})]);
            Reachable(s) && Stranded(s, 0)
  {
    hide *;
    ExecIsReachable([Uploads(0, 1), Begins(0, 0.0), Persists(0, None, true, None), Retries(0, true), Restarts({0, 1})]);
    FiveSteps(Empty, Uploads(0, 1), Begins(0, 0.0), Persists(0, None, true, None), Retries(0, true), Restarts({0, 1}));
    FirstBegins();
    RetriedAndRestarted();
  }

  /** One sheet uploaded and begun. */
  const Begun := State([NewItem(0, 0).(status := Parsing, started := Some(0.0))], [Running], map[], 0, [Working(0, 0, 0)])

  lemma FirstBegins()
    ensures Step(Step(Empty, Uploads(0, 1)), Begins(0, 0.0)) == Begun
  {
    var s := Upload(Empty, 0, 1);
    assert s == State([NewItem(0, 0)], [Running], map[], 0, [Submitted(0)]);
  }

  lemma RetriedAndRestarted()
    ensures Stranded(Step(Step(Step(Begun, Persists(0, None, true, None)), Retries(0, true)), Restarts({0, 1})), 0)
  {
    var s2 := Begun;
    var s3 := Step(s2, Persists(0, None, true, None));
    var failed := FailedItem(s2.items[0]);
    assert s3.items == [failed];
    assert HasItems([failed], 0) by { assert [failed][0].job == 0; }
    assert s3 == State([failed], [Done], map[], 0, [Ended]);
    var s4 := Step(s3, Retries(0, true));
    assert s4 == State([failed.(status := Queued)], [Done], map[], 0, [Ended, Submitted(0)]);
  }

  lemma FiveSteps(s: State, a: Event, b: Event, c: Event, d: Event, e: Event)
    ensures Exec(s, [a, b, c, d, e]) == Step(Step(Step(Step(Step(s, a), b), c), d), e)
  {
    hide *;
    ExecStep(s, a, [b, c, d, e]);
    ExecStep(Step(s, a), b, [c, d, e]);
    ExecStep(Step(Step(s, a), b), c, [d, e]);
    ExecStep(Step(Step(Step(s, a), b), c), d, [e]);
    ExecStep(Step(Step(Step(Step(s, a), b), c), d), e, []);
    ExecNothing(Step(Step(Step(Step(Step(s, a), b), c), d), e));
    assert [a] + [b, c, d, e] == [a, b, c, d, e] && [b] + [c, d, e] == [b, c, d, e] && [c] + [d, e] == [c, d, e];
    assert [d] + [e] == [d, e] && [e] + [] == [e];
  }

  lemma ExecStep(s: State, e: Event, more: seq<Event>)
    ensures Exec(s, [e] + more) == Exec(Step(s, e), more)
  {
    hide Step;
    assert ([e] + more)[1..] == more;
  }

  lemma ExecNothing(s: State)
    ensures Exec(s, []) == s
  {
  }

  // ----- Orphans and the watchdog --------------------------------------------------------------------

  /** The event kills a worker at work on the item. */
  predicate KillsWorkerOf(s: State, e: Event, i: nat) {
    e.Dies? && Busy(s, e.w) && s.workers[e.w].item == i
  }

  ghost predicate Attended(s: State, i: nat) {
    i < |s.items| && s.items[i].status == Parsing ==> AtWork(s.workers, i)
  }

  lemma WorkerStays(workers: seq<Worker>, workers': seq<Worker>, i: nat)
    requires AtWork(workers, i) && |workers| <= |workers'|
    requires forall w | 0 <= w < |workers| && workers[w].Working? && workers[w].item == i :: workers'[w] == workers[w]
    ensures AtWork(workers', i)
  {
    var w :| 0 <= w < |workers| && workers[w].Working? && workers[w].item == i;
    assert workers'[w] == workers[w];
  }

  lemma StepKeepsAttended(s: State, e: Event, i: nat)
    requires Inv(s) && Attended(s, i) && !KillsWorkerOf(s, e, i)
    ensures Attended(Step(s, e), i)
  {
    hide Finalize, StoreResponse, HasStale, ItemsOk, JobsRun, ResponsesOk;
    var s' := Step(s, e);
    if i < |s'.items| && s'.items[i].status == Parsing {
      if e.Begins? && e.w < |s.workers| && s.workers[e.w] == Submitted(i) && s.items[i].status == Queued {
        assert s'.workers[e.w].Working? && s'.workers[e.w].item == i;
      } else {
        ParsingWasParsing(s, e, i);
        WorkerStays(s.workers, s'.workers, i);
      }
    }
  }

  /** An ending of a worker changes its own item only, and leaves it terminal, death aside. */
  lemma EndingsAreLocal(s: State, e: Event, i: nat)
    requires (((e.LosesFile? || e.Persists?) && Busy(s, e.w)) || (e.Crashes? && Alive(s, e.w)))
    ensures var s' := Step(s, e);
            && |s'.items| == |s.items| && s'.workers == s.workers[e.w := Ended]
            && Terminal(s'.items[s.workers[e.w].item].status)
            && (i < |s.items| && i != s.workers[e.w].item ==> s'.items[i] == s.items[i])
  {
    hide Finalize;
  }

  /** Nothing but a beginning makes an item parse, and an item that goes on parsing keeps its
      workers, death aside. */
  lemma ParsingWasParsing(s: State, e: Event, i: nat)
    requires Inv(s) && i < |Step(s, e).items| && Step(s, e).items[i].status == Parsing
    requires !(e.Begins? && e.w < |s.workers| && s.workers[e.w] == Submitted(i) && i < |s.items| && s.items[i].status == Queued)
    ensures i < |s.items| && s.items[i].status == Parsing
    ensures |s.workers| <= |Step(s, e).workers|
    ensures forall w: nat | w < |s.workers| && s.workers[w].Working? && s.workers[w].item == i && !(e.Dies? && e.w == w) ::
              Step(s, e).workers[w] == s.workers[w]
  {
    hide Finalize, HasStale, AllTerminal, ItemsOk, ResponsesOk, Persist, Crash, LoseFile;
    if ((e.LosesFile? || e.Persists?) && Busy(s, e.w)) || (e.Crashes? && Alive(s, e.w)) {
      EndingsAreLocal(s, e, i);
    } else if e.Restarts? {
      RestartKeepsInv(s, e.dead);
    } else if e.Watches? {
      assert Step(s, e).items[i] == GiveUp(s.items[i], e.cutoff);
    }
  }

  /** Unless a worker at work on it has died, a parsing item has a worker at work on it. */
  lemma {:induction false} OrphansComeFromDeaths(run: seq<State>, events: seq<Event>, k: nat, i: nat)
    requires IsRun(run, events) && k < |run| && forall m | 0 <= m < k :: !KillsWorkerOf(run[m], events[m], i)
    ensures Attended(run[k], i)
  {
    hide Step, Inv, KillsWorkerOf, Attended;
    if k == 0 { NothingParses(i); } else {
      OrphansComeFromDeaths(run, events, k - 1, i);
      EveryCommitPointIsConsistent(run, events, k - 1);
      StepKeepsAttended(run[k - 1], events[k - 1], i);
    }
  }

  lemma NothingParses(i: nat)
    ensures Attended(Empty, i)
  {
  }

  /** Deaths do orphan items. */
  lemma DeathsOrphan()
    ensures var s := Exec(Empty, [Uploads(0, 1), Begins(0, 0.0), Dies(0)]);
            Reachable(s) && |s.items| == 1 && s.items[0].status == Parsing && !AtWork(s.workers, 0)
  {
    hide Reachable, Exec, Upload, Begin;
    ExecIsReachable([Uploads(0, 1), Begins(0, 0.0), Dies(0)]);
    FirstBegins();
    var begun := Step(Step(Empty, Uploads(0, 1)), Begins(0, 0.0));
    ExecStep(Empty, Uploads(0, 1), [Begins(0, 0.0), Dies(0)]);
    ExecStep(Step(Empty, Uploads(0, 1)), Begins(0, 0.0), [Dies(0)]);
    ExecStep(begun, Dies(0), []);
    ExecNothing(Step(begun, Dies(0)));
    assert [Uploads(0, 1)] + [Begins(0, 0.0), Dies(0)] == [Uploads(0, 1), Begins(0, 0.0), Dies(0)];
    assert [Begins(0, 0.0)] + [Dies(0)] == [Begins(0, 0.0), Dies(0)] && [Dies(0)] + [] == [Dies(0)];
    assert Step(Begun, Dies(0)).workers == [Ended];
  }

  /** In every reachable state the watchdog fails a parsing item, orphan or not, exactly when its
      start lies before the cutoff, and otherwise leaves it parsing in a running job ... */
  lemma WatchdogFailsIff(run: seq<State>, events: seq<Event>, k: nat, i: nat, cutoff: real)
    requires IsRun(run, events) && k < |run| && i < |run[k].items| && run[k].items[i].status == Parsing
    ensures var it, s' := run[k].items[i], Step(run[k], Watches(cutoff));
            && it.started.Some? && i < |s'.items|
            && (it.started.value < cutoff ==> s'.items[i] == it.(status := Failed))
            && (it.started.value >= cutoff ==> s'.items[i] == it && it.job < |s'.jobs| && s'.jobs[it.job] == Running)
  {
    hide HasStale, AllTerminal, IsRun;
    EveryCommitPointIsConsistent(run, events, k);
    WatchKeepsInv(run[k], cutoff);
    assert Watch(run[k], cutoff).items[i] == GiveUp(run[k].items[i], cutoff);
  }

  /** ... so every orphan is recovered: past its time the watchdog fails it, and a retry then queues
      it with a new worker as long as its file is on disk. */
  lemma OrphansAreRecovered(run: seq<State>, events: seq<Event>, k: nat, i: nat, cutoff: real)
    requires IsRun(run, events) && k < |run| && i < |run[k].items| && run[k].items[i].status == Parsing
    requires run[k].items[i].started.Some? ==> run[k].items[i].started.value < cutoff
    ensures var s' := Exec(run[k], [Watches(cutoff), Retries(i, true)]);
            && i < |s'.items| && s'.items[i].status == Queued
            && s'.workers == run[k].workers + [Submitted(i)]
  {
    hide IsRun, HasStale, AllTerminal;
    WatchdogFailsIff(run, events, k, i, cutoff);
    EveryCommitPointIsConsistent(run, events, k);
    assert run[k].items[i].file;
    var watched := Step(run[k], Watches(cutoff));
    ExecStep(run[k], Watches(cutoff), [Retries(i, true)]);
    ExecStep(watched, Retries(i, true), []);
    assert [Watches(cutoff)] + [Retries(i, true)] == [Watches(cutoff), Retries(i, true)] && [Retries(i, true)] + [] == [Retries(i, true)];
  }

  /** A sheet that could not be read keeps its file, so a retry queues it again with a new worker;
      once it was read, the file is gone and a retry does nothing. */
  lemma OnlyFailuresAreRetried(s: State, i: nat, exam: nat, payload: Option<Payload>, template: bool, found: Option<nat>)
    requires i < |s.items| && s.items[i].file
    ensures var read := Persist(s, i, exam, payload, template, found);
            var again := Step(read, Retries(i, true));
            if payload.None? || !template
            then again.items[i].status == Queued && again.workers == s.workers + [Submitted(i)]
            else again == read && !read.items[i].file
  {
    hide Finalize;
  }

  // ----- When a match is final -------------------------------------------------------------------------

  /** A matched item nobody works on is left alone, and nobody starts to work on it. */
  lemma UnattendedStays(s: State, e: Event, i: nat)
    requires i < |s.items| && s.items[i].status == Matched && !AtWork(s.workers, i)
    ensures var s' := Step(s, e); i < |s'.items| && s'.items[i] == s.items[i] && !AtWork(s'.workers, i)
  {
    hide Finalize, StoreResponse, HasStale;
    assert forall w | 0 <= w < |s.workers| && s.workers[w].Working? :: s.workers[w].item != i;
  }

  /** Whatever happens later, the item is exactly as it was. */
  ghost predicate Final(s: State, i: nat)
    requires i < |s.items|
  {
    forall more: seq<Event> :: i < |Exec(s, more).items| && Exec(s, more).items[i] == s.items[i]
  }

  lemma {:induction false} UnattendedIsFinal(s: State, i: nat, more: seq<Event>)
    requires i < |s.items| && s.items[i].status == Matched && !AtWork(s.workers, i)
    ensures var s' := Exec(s, more); i < |s'.items| && s'.items[i] == s.items[i] && !AtWork(s'.workers, i)
    decreases |more|
  {
    hide Step, AtWork;
    if more != [] {
      UnattendedStays(s, more[0], i);
      UnattendedIsFinal(Step(s, more[0]), i, more[1..]);
    }
  }

  /** In every reachable state a match, with its student and response, is final over all
      continuations exactly when no worker is at work on the item: a worker the watchdog gave up on
      may yet fail it, because the last transaction does not look at the status. */
  lemma MatchIsFinalIff(run: seq<State>, events: seq<Event>, k: nat, i: nat)
    requires IsRun(run, events) && k < |run| && i < |run[k].items| && run[k].items[i].status == Matched
    ensures Final(run[k], i) <==> !AtWork(run[k].workers, i)
  {
    hide Step, IsRun;
    var s := run[k];
    if AtWork(s.workers, i) {
      var w: nat :| w < |s.workers| && s.workers[w].Working? && s.workers[w].item == i;
      LosingFileFails(s, w);
      assert [LosesFile(w)][1..] == [];
      assert Exec(s, [LosesFile(w)]) == Step(s, LosesFile(w));
    } else {
      forall more: seq<Event> ensures i < |Exec(s, more).items| && Exec(s, more).items[i] == s.items[i] { UnattendedIsFinal(s, i, more); }
    }
  }

  lemma LosingFileFails(s: State, w: nat)
    requires w < |s.workers| && s.workers[w].Working? && s.workers[w].item < |s.items|
    ensures var s' := Step(s, LosesFile(w)); |s'.items| == |s.items| && s'.items[s.workers[w].item].status == Failed
  {
  }

  /** Given up by the watchdog and retried, an item has two workers at work on it ... */
  lemma TwoAtWork()
    ensures var s := Exec(Empty, [Uploads(0, 1), Begins(0, 0.0), Watches(1.0), Retries(0, true), Begins(1, 2.0)]);
            |s.items| == 1 && s.responses == map[] && s.workers == [Working(0, 0, 0), Working(0, 0, 0)]
  {
    hide *;
    FiveSteps(Empty, Uploads(0, 1), Begins(0, 0.0), Watches(1.0), Retries(0, true), Begins(1, 2.0));
    FirstBegins();
    GivenUpAndRetried();
  }

  lemma GivenUpAndRetried()
    ensures var s := Step(Step(Step(Begun, Watches(1.0)), Retries(0, true)), Begins(1, 2.0));
            |s.items| == 1 && s.responses == map[] && s.workers == [Working(0, 0, 0), Working(0, 0, 0)]
  {
    hide HasStale, AllTerminal;
    var s3 := Step(Begun, Watches(1.0));
    var failed := Begun.items[0].(status := Failed);
    assert s3.items == [failed] && s3.workers == [Working(0, 0, 0)] && |s3.jobs| == 1;
    var s4 := Step(s3, Retries(0, true));
    assert s4.items == [failed.(status := Queued)] && s4.workers == [Working(0, 0, 0), Submitted(0)];
  }

  /** ... so a run can end in a match by the second while the first is still at work. */
  lemma LateWorkersExist(student: nat)
    ensures var s := Exec(Empty, [Uploads(0, 1), Begins(0, 0.0), Watches(1.0), Retries(0, true), Begins(1, 2.0)]
                                 + [Persists(1, Some(Payload(None, true)), true, Some(student))]);
            Reachable(s) && |s.items| == 1 && s.items[0].status == Matched && s.items[0].student == Some(student) && AtWork(s.workers, 0)
  {
    hide Exec, Finalize, Reachable;
    var before := [Uploads(0, 1), Begins(0, 0.0), Watches(1.0), Retries(0, true), Begins(1, 2.0)];
    var last := Persists(1, Some(Payload(None, true)), true, Some(student));
    ExecIsReachable(before + [last]);
    TwoAtWork();
    ExecAppend(Empty, before, last);
    assert Step(Exec(Empty, before), last).workers[0] == Working(0, 0, 0);
  }
}
