/** Batches of photographed answer sheets: backend/app/ingestion/batch.py. Each transaction is one step. */
module Batch {
  import opened Options

  datatype Status = Queued | Parsing | Matched | Unmatched | Failed | Duplicate | Discarded
  datatype JobStatus = Running | Done

  /** What the model read off a sheet: the name, and whether there were any answers. */
  datatype Payload = Payload(name: Option<string>, answered: bool)

  datatype Item = Item(job: nat, exam: nat, status: Status, detected: Option<string>, student: Option<nat>,
                       response: Option<nat>, payload: Option<Payload>, file: bool, started: Option<real>)

  /** A worker has its item's id and, once it has begun, what it read then. */
  datatype Worker = Submitted(item: nat) | Working(item: nat, job: nat, exam: nat) | Ended

  /** Responses are keyed by exam and student, as their unique constraint has it. */
  datatype State = State(items: seq<Item>, jobs: seq<JobStatus>, responses: map<(nat, nat), nat>, nextResponse: nat, workers: seq<Worker>)

  const Empty := State([], [], map[], 0, [])

  predicate Terminal(st: Status) {
    st != Queued && st != Parsing
  }

  // ----- Jobs --------------------------------------------------------------------------------------

  predicate AllTerminal(items: seq<Item>, job: nat) {
    forall i | 0 <= i < |items| && items[i].job == job :: Terminal(items[i].status)
  }

  predicate HasItems(items: seq<Item>, job: nat) {
    exists i :: 0 <= i < |items| && items[i].job == job
  }

  /** A job with items is done once none of them is queued or parsing. */
  function Finalize(items: seq<Item>, jobs: seq<JobStatus>, job: nat): seq<JobStatus> {
    if job < |jobs| && HasItems(items, job) && AllTerminal(items, job) then jobs[job := Done] else jobs
  }

  // ----- One item ----------------------------------------------------------------------------------

  /** Storing a response for the student, or finding that there is one already. */
  datatype Stored = Stored(status: Status, response: nat, responses: map<(nat, nat), nat>, next: nat)

  function StoreResponse(s: State, exam: nat, student: nat): Stored {
    if (exam, student) in s.responses then Stored(Duplicate, s.responses[(exam, student)], s.responses, s.nextResponse)
    else Stored(Matched, s.nextResponse, s.responses[(exam, student) := s.nextResponse], s.nextResponse + 1)
  }

  function FailedItem(it: Item): Item {
    it.(status := Failed, detected := None, payload := None)
  }

  function UnmatchedItem(it: Item, p: Payload): Item {
    it.(status := Unmatched, detected := p.name, payload := Some(p), student := None, file := false)
  }

  function StoredItem(it: Item, student: nat, r: Stored): Item {
    it.(status := r.status, student := Some(student), response := Some(r.response), detected := None, file := false)
  }

  /** An item is replaced, and its job finalized if asked. */
  function Put(s: State, i: nat, it: Item, finalize: bool): State
    requires i < |s.items|
  {
    var items := s.items[i := it];
    s.(items := items, jobs := if finalize then Finalize(items, s.jobs, it.job) else s.jobs)
  }

  function WithStored(s: State, r: Stored): State {
    s.(responses := r.responses, nextResponse := r.next)
  }

  /** The last transaction of a worker. It does not look at the item's status: a worker the
      watchdog has given up on still overwrites whatever is there. */
  function Persist(s: State, i: nat, exam: nat, payload: Option<Payload>, template: bool, found: Option<nat>): State
    requires i < |s.items|
  {
    var it := s.items[i];
    if payload.None? || !template then Put(s, i, FailedItem(it), true)
    else if found.None? then Put(s, i, UnmatchedItem(it, payload.value), true)
    else
      var r := StoreResponse(s, exam, found.value);
      Put(WithStored(s, r), i, StoredItem(it, found.value, r).(payload := None), true)
  }

  // ----- Events ------------------------------------------------------------------------------------

  datatype Event =
    | Uploads(exam: nat, count: nat)
    | Begins(w: nat, now: real)
    | LosesFile(w: nat)
    | Persists(w: nat, payload: Option<Payload>, template: bool, found: Option<nat>)
    | Crashes(w: nat)
    | Dies(w: nat)
    | Watches(cutoff: real)
    | Restarts(dead: set<nat>)
    | Assigns(i: nat, student: nat, people: People)
    | Retries(i: nat, onDisk: bool)
    | Discards(i: nat)
    | OtherResponse(exam: nat, student: nat)

  function EndWorker(s: State, w: nat): State
    requires w < |s.workers|
  {
    s.(workers := s.workers[w := Ended])
  }

  function NewItem(job: nat, exam: nat): Item {
    Item(job, exam, Queued, None, None, None, None, true, None)
  }

  function Upload(s: State, exam: nat, count: nat): State {
    s.(items := s.items + seq(count, _ => NewItem(|s.jobs|, exam)), jobs := s.jobs + [Running],
       workers := s.workers + seq(count, i requires 0 <= i < count => Submitted(|s.items| + i)))
  }

  function Begin(s: State, w: nat, now: real): State
    requires w < |s.workers| && s.workers[w].Submitted?
  {
    var i := s.workers[w].item;
    if i >= |s.items| || s.items[i].status != Queued || s.items[i].job >= |s.jobs| then EndWorker(s, w) else
      var it := s.items[i];
      s.(items := s.items[i := it.(status := Parsing, started := Some(now))], jobs := s.jobs[it.job := Running],
         workers := s.workers[w := Working(i, it.job, it.exam)])
  }

  predicate Stale(it: Item, cutoff: real) {
    it.status == Parsing && it.started.Some? && it.started.value < cutoff
  }

  /** The watchdog fails items parsing for too long and finalizes their jobs. */
  function GiveUp(it: Item, cutoff: real): Item {
    if Stale(it, cutoff) then it.(status := Failed) else it
  }

  predicate HasStale(items: seq<Item>, cutoff: real, job: nat) {
    exists i :: 0 <= i < |items| && Stale(items[i], cutoff) && items[i].job == job
  }

  function Watch(s: State, cutoff: real): State {
    var items := seq(|s.items|, i requires 0 <= i < |s.items| => GiveUp(s.items[i], cutoff));
    s.(items := items,
       jobs := seq(|s.jobs|, j requires 0 <= j < |s.jobs| =>
         if HasStale(s.items, cutoff, j) && AllTerminal(items, j) then Done else s.jobs[j]))
  }

  /** After a restart, unfinished items of running jobs fail and those jobs are done. */
  function Recover(it: Item, jobs: seq<JobStatus>): Item {
    if it.job < |jobs| && jobs[it.job] == Running && !Terminal(it.status) then it.(status := Failed) else it
  }

  function Restart(s: State, dead: set<nat>): State {
    s.(items := seq(|s.items|, i requires 0 <= i < |s.items| => Recover(s.items[i], s.jobs)),
       jobs := seq(|s.jobs|, _ => Done),
       workers := seq(|s.workers|, w requires 0 <= w < |s.workers| => if w in dead then Ended else s.workers[w]))
  }

  /** The class of each student and of each exam, and who sits which exam. */
  datatype People = People(students: map<nat, nat>, exams: map<nat, nat>, sitting: set<(nat, nat)>)

  /** The student exists, belongs to the exam's class and sits the exam. */
  predicate Sits(people: People, exam: nat, student: nat) {
    && student in people.students && exam in people.exams && people.students[student] == people.exams[exam]
    && (exam, student) in people.sitting
  }

  predicate Assignable(s: State, i: nat, student: nat, people: People) {
    && i < |s.items| && s.items[i].status == Unmatched
    && s.items[i].payload.Some? && s.items[i].payload.value.answered
    && Sits(people, s.items[i].exam, student)
  }

  function Assign(s: State, i: nat, student: nat, people: People): State {
    if !Assignable(s, i, student, people) then s else
      var r := StoreResponse(s, s.items[i].exam, student);
      Put(WithStored(s, r), i, StoredItem(s.items[i], student, r), false)
  }

  predicate Alive(s: State, w: nat) {
    w < |s.workers| && s.workers[w] != Ended && s.workers[w].item < |s.items|
  }

  predicate Busy(s: State, w: nat) {
    Alive(s, w) && s.workers[w].Working?
  }

  /** The handler of last resort, for an exception in any part of the work: the item fails unless
      it is terminal already. */
  function Crash(s: State, w: nat): State
    requires Alive(s, w)
  {
    var i := s.workers[w].item;
    var it := s.items[i];
    EndWorker(Put(s, i, if Terminal(it.status) then it else it.(status := Failed, detected := None), true), w)
  }

  /** When even that handler fails, or the thread is killed, the worker is gone and the item stays as it is. */
  function Die(s: State, w: nat): State
    requires Alive(s, w)
  {
    EndWorker(s, w)
  }

  function LoseFile(s: State, w: nat): State
    requires Busy(s, w)
  {
    var i := s.workers[w].item;
    EndWorker(Put(s, i, s.items[i].(status := Failed, detected := None), true), w)
  }

  function Step(s: State, e: Event): State {
    match e
    case Uploads(exam, count) => Upload(s, exam, count)
    case Begins(w, now) => if w < |s.workers| && s.workers[w].Submitted? then Begin(s, w, now) else s
    case LosesFile(w) => if Busy(s, w) then LoseFile(s, w) else s
    case Persists(w, payload, template, found) =>
      if Busy(s, w) then EndWorker(Persist(s, s.workers[w].item, s.workers[w].exam, payload, template, found), w) else s
    case Crashes(w) => if Alive(s, w) then Crash(s, w) else s
    case Dies(w) => if Alive(s, w) then Die(s, w) else s
    case Watches(cutoff) => Watch(s, cutoff)
    case Restarts(dead) => Restart(s, dead)
    case Assigns(i, student, people) => Assign(s, i, student, people)
    case Retries(i, onDisk) =>
      if i < |s.items| && s.items[i].status == Failed && s.items[i].file && onDisk
      then Put(s, i, s.items[i].(status := Queued, detected := None), false).(workers := s.workers + [Submitted(i)]) else s
    case Discards(i) =>
      if i < |s.items| && (s.items[i].status == Unmatched || s.items[i].status == Failed)
      then Put(s, i, s.items[i].(status := Discarded, detected := None, file := false), false) else s
    case OtherResponse(exam, student) => WithStored(s, StoreResponse(s, exam, student))
  }

  /** The state after a sequence of events. */
  function Exec(s: State, events: seq<Event>): State
    decreases |events|
  {
    if events == [] then s else Exec(Step(s, events[0]), events[1..])
  }

  ghost predicate IsRun(run: seq<State>, events: seq<Event>) {
    && |run| == |events| + 1 && run[0] == Empty
    && forall i | 0 <= i < |events| :: run[i + 1] == Step(run[i], events[i])
  }
}
