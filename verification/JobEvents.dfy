/**
 * The event log of a job (packages/db/src/job-events.ts, packages/shared/src/jobs.ts): any number of transactions
 * that write to it, statement by statement and in any interleaving, each holding the job's row lock from its first
 * write to its end.
 */
module JobEvents {
  import opened Prelude

  // ---------------------------------------------------------------------------
  // Statuses
  // ---------------------------------------------------------------------------

  datatype Status =
    | Queued | Preflight | WaitingApproval | Running | Validating
    | Succeeded | PartiallySucceeded | Failed | RolledBack | Cancelled

  /** Every legal move, and nothing else. */
  predicate CanTransition(source: Status, target: Status) {
    match source
    case Queued => target.Preflight? || target.Running? || target.Cancelled? || target.Failed?
    case Preflight => target.WaitingApproval? || target.Running? || target.Cancelled? || target.Failed?
    case WaitingApproval => target.Queued? || target.Cancelled? || target.Failed?
    case Running =>
      target.WaitingApproval? || target.Validating? || target.Succeeded? || target.PartiallySucceeded?
      || target.Failed? || target.RolledBack? || target.Cancelled?
    case Validating =>
      target.Succeeded? || target.PartiallySucceeded? || target.Failed? || target.RolledBack? || target.Cancelled?
    case _ => false
  }

  function AssertTransition(source: Status, target: Status): (r: Result<(), (Status, Status)>)
    ensures r.Err? ==> r.error == (source, target)
  {
    if CanTransition(source, target) then Ok(()) else Err((source, target))
  }

  predicate IsTerminal(status: Status) {
    status.Succeeded? || status.PartiallySucceeded? || status.Failed? || status.RolledBack? || status.Cancelled?
  }

  predicate IsActive(status: Status) {
    status.Queued? || status.Preflight? || status.WaitingApproval? || status.Running? || status.Validating?
  }

  /**
   * A status is active or terminal; what is terminal has no way out, and what is active can always fail or be
   * cancelled.
   */
  lemma ActiveOrFinal(status: Status)
    ensures IsActive(status) <==> !IsTerminal(status)
    ensures IsTerminal(status) <==> forall target :: !CanTransition(status, target)
    ensures IsActive(status) <==> CanTransition(status, Failed) && CanTransition(status, Cancelled)
  {
    assert IsActive(status) ==> CanTransition(status, Failed);
  }

  // ---------------------------------------------------------------------------
  // The database
  // ---------------------------------------------------------------------------

  /** A job's row; `other` stands for the columns that are neither. */
  datatype Job = Job(status: Status, eventSeq: nat, other: string)

  /** An event, with the transaction that wrote it. */
  datatype Event = Event(seqNo: nat, status: Status, message: string, author: nat)

  /** What must still hold of the row, and what is then written to it. */
  datatype Change = Change(guard: Job -> bool, data: Job -> Job)

  /**
   * A transaction, by the statement it has come to; after its first write it has a row of its own, not yet committed.
   */
  datatype Writer =
    | Begun(message: string, change: Option<Change>)
    | Changed(message: string, row: Job)
    | Numbered(message: string, row: Job)
    | Inserted(event: Event, row: Job)
    | Committed(event: Event)
    | Lost
    | RolledBackWhole
  {
    predicate Holding() {
      Changed? || Numbered? || Inserted?
    }
  }

  /** The committed row and events, the transactions, and which of them holds the row's lock. */
  datatype Db = Db(row: Job, events: seq<Event>, writers: map<nat, Writer>, lock: Option<nat>)

  datatype Action = Begin(w: nat, message: string, change: Option<Change>) | Proceed(w: nat) | Abort(w: nat)

  function NumberIn(db: Db, w: nat, message: string, row: Job): Db {
    db.(lock := Some(w), writers := db.writers[w := Numbered(message, row.(eventSeq := row.eventSeq + 1))])
  }

  /** The next statement of a transaction; one that needs the row waits, unchanged, while another holds the lock. */
  function Statement(db: Db, w: nat): Db
    requires w in db.writers
  {
    var free := db.lock == None || db.lock == Some(w);
    match db.writers[w]
    case Begun(message, Some(change)) =>
      if !change.guard(db.row) then db.(writers := db.writers[w := Lost])
      else if !free then db
      else db.(lock := Some(w), writers := db.writers[w := Changed(message, change.data(db.row))])
    case Begun(message, None) => if free then NumberIn(db, w, message, db.row) else db
    case Changed(message, row) => NumberIn(db, w, message, row)
    case Numbered(message, row) =>
      db.(writers := db.writers[w := Inserted(Event(row.eventSeq, row.status, message, w), row)])
    case Inserted(event, row) =>
      Db(row, db.events + [event], db.writers[w := Committed(event)], None)
    case _ => db
  }

  function Act(db: Db, action: Action): Db {
    match action
    case Begin(w, message, change) =>
      if w in db.writers then db else db.(writers := db.writers[w := Begun(message, change)])
    case Proceed(w) =>
      if w in db.writers then Statement(db, w) else db
    case Abort(w) =>
      if w !in db.writers || db.writers[w].Committed? || db.writers[w].Lost? then db
      else db.(lock := if db.lock == Some(w) then None else db.lock, writers := db.writers[w := RolledBackWhole])
  }

  function Run(db: Db, actions: seq<Action>): Db {
    if actions == [] then db else Act(Run(db, actions[..|actions| - 1]), actions[|actions| - 1])
  }

  // ---------------------------------------------------------------------------
  // What callers promise
  // ---------------------------------------------------------------------------

  predicate Follows(source: Status, target: Status) {
    target == source || CanTransition(source, target)
  }

  /** A change leaves the event number alone, and moves the status along the table if it moves it. */
  ghost predicate Lawful(change: Change) {
    forall row :: change.guard(row) ==>
      change.data(row).eventSeq == row.eventSeq && Follows(row.status, change.data(row).status)
  }

  ghost predicate AllLawful(actions: seq<Action>) {
    forall k :: 0 <= k < |actions| && actions[k].Begin? && actions[k].change.Some? ==> Lawful(actions[k].change.value)
  }

  /** How callers move a job: asserted against the table, and guarded by the status they moved it from. */
  function Move(source: Status, target: Status, others: Job -> bool,
                other: string): (r: Result<Change, (Status, Status)>)
    ensures r.Ok? <==> CanTransition(source, target)
    ensures r.Ok? ==> Lawful(r.value)
    ensures r.Ok? ==> forall row :: r.value.guard(row) <==> row.status == source && others(row)
    ensures r.Ok? ==> forall row :: r.value.data(row).status == target && r.value.data(row).other == other
  {
    match AssertTransition(source, target)
    case Ok(_) =>
      var guard := (row: Job) => row.status == source && others(row);
      var data := (row: Job) => Job(target, row.eventSeq, other);
      assert forall row :: guard(row) ==> data(row).eventSeq == row.eventSeq && Follows(row.status, data(row).status);
      Ok(Change(guard, data))
    case Err(e) => Err(e)
  }

  // ---------------------------------------------------------------------------
  // What every step keeps
  // ---------------------------------------------------------------------------

  /** The status the log starts from, and then the one of each event. */
  function StatusAfter(start: Status, events: seq<Event>, k: nat): Status
    requires k <= |events|
  {
    if k == 0 then start else events[k - 1].status
  }

  /** Numbered 1, 2, 3 and so on; each status the one before it or a legal move from it; the row agrees with the end. */
  ghost predicate GoodLog(start: Status, events: seq<Event>, row: Job) {
    && row.eventSeq == |events|
    && row.status == StatusAfter(start, events, |events|)
    && (forall k :: 0 <= k < |events| ==> events[k].seqNo == k + 1)
    && (forall k {:trigger StatusAfter(start, events, k)} ::
        0 <= k < |events| ==> Follows(StatusAfter(start, events, k), events[k].status))
  }

  /** What a transaction has in hand is one event away from what is committed. */
  ghost predicate GoodWriter(row: Job, w: nat, writer: Writer) {
    match writer
    case Begun(_, change) => change.Some? ==> Lawful(change.value)
    case Changed(_, mine) => mine.eventSeq == row.eventSeq && Follows(row.status, mine.status)
    case Numbered(_, mine) => mine.eventSeq == row.eventSeq + 1 && Follows(row.status, mine.status)
    case Inserted(event, mine) =>
      mine.eventSeq == row.eventSeq + 1 && Follows(row.status, mine.status)
      && event.seqNo == mine.eventSeq && event.status == mine.status && event.author == w
    case _ => true
  }

  predicate Answered(writers: map<nat, Writer>, w: nat, event: Event) {
    w in writers && writers[w].Committed? && writers[w].event == event
  }

  /** The events are the answers of the transactions that committed, each of its own. */
  ghost predicate Answers(events: seq<Event>, writers: map<nat, Writer>) {
    && (forall k :: 0 <= k < |events| ==> Answered(writers, events[k].author, events[k]))
    && (forall w :: w in writers && writers[w].Committed? ==> IsLogged(events, w, writers[w].event))
  }

  predicate IsLogged(events: seq<Event>, w: nat, event: Event) {
    1 <= event.seqNo <= |events| && events[event.seqNo - 1] == event && event.author == w
  }

  ghost predicate Inv(start: Status, db: Db) {
    && GoodLog(start, db.events, db.row)
    && (forall w :: w in db.writers && db.writers[w].Holding() ==> db.lock == Some(w))
    && (forall w :: w in db.writers ==> GoodWriter(db.row, w, db.writers[w]))
    && Answers(db.events, db.writers)
  }

  /** A transaction's own step, up to its commit: nobody else sees anything. */
  lemma OwnStepKeeps(start: Status, db: Db, w: nat, writer: Writer, lock: Option<nat>)
    requires Inv(start, db) && (w in db.writers ==> !db.writers[w].Committed?)
    requires GoodWriter(db.row, w, writer) && !writer.Committed?
    requires db.lock == None || db.lock == Some(w) || (lock == db.lock && !writer.Holding())
    requires writer.Holding() ==> lock == Some(w)
    ensures Inv(start, db.(writers := db.writers[w := writer], lock := lock))
  {
    OwnStepKeepsAnswers(db.events, db.writers, w, writer);
  }

  lemma OwnStepKeepsAnswers(events: seq<Event>, writers: map<nat, Writer>, w: nat, writer: Writer)
    requires Answers(events, writers) && (w in writers ==> !writers[w].Committed?) && !writer.Committed?
    ensures Answers(events, writers[w := writer])
  {
    forall k | 0 <= k < |events| ensures Answered(writers[w := writer], events[k].author, events[k]) {
      assert Answered(writers, events[k].author, events[k]);
    }
  }

  lemma CommitKeepsAnswers(events: seq<Event>, writers: map<nat, Writer>, w: nat, event: Event)
    requires Answers(events, writers) && w in writers && !writers[w].Committed?
    requires event.seqNo == |events| + 1 && event.author == w
    ensures Answers(events + [event], writers[w := Committed(event)])
  {
    var more, after := events + [event], writers[w := Committed(event)];
    forall k | 0 <= k < |more| ensures Answered(after, more[k].author, more[k]) {
      assert k < |events| ==> Answered(writers, events[k].author, events[k]);
    }
    forall v | v in after && after[v].Committed? ensures IsLogged(more, v, after[v].event) {
      assert v != w ==> IsLogged(events, v, writers[v].event);
    }
  }

  lemma CommitKeepsLog(start: Status, events: seq<Event>, row: Job, event: Event, mine: Job)
    requires GoodLog(start, events, row)
    requires event.seqNo == mine.eventSeq == row.eventSeq + 1 && event.status == mine.status
      && Follows(row.status, mine.status)
    ensures GoodLog(start, events + [event], mine)
  {
    var more := events + [event];
    forall k | 0 <= k < |more| ensures Follows(StatusAfter(start, more, k), more[k].status) {
      assert StatusAfter(start, more, k) == StatusAfter(start, events, k);
      if k < |events| {
        assert Follows(StatusAfter(start, events, k), events[k].status);
      }
    }
  }

  lemma CommitKeeps(start: Status, db: Db, w: nat)
    requires Inv(start, db) && w in db.writers && db.writers[w].Inserted?
    ensures Inv(start, Statement(db, w))
  {
    var event, mine := db.writers[w].event, db.writers[w].row;
    CommitKeepsLog(start, db.events, db.row, event, mine);
    CommitKeepsAnswers(db.events, db.writers, w, event);
    var after := Statement(db, w);
    forall v | v in after.writers ensures GoodWriter(after.row, v, after.writers[v]) && !after.writers[v].Holding() {
      assert v != w ==> GoodWriter(db.row, v, db.writers[v]);
    }
  }

  lemma StatementKeeps(start: Status, db: Db, w: nat)
    requires Inv(start, db) && w in db.writers
    ensures Inv(start, Statement(db, w))
  {
    var free := db.lock == None || db.lock == Some(w);
    assert GoodWriter(db.row, w, db.writers[w]);
    match db.writers[w]
    case Begun(message, change) =>
      if change.Some? && !change.value.guard(db.row) {
        OwnStepKeeps(start, db, w, Lost, db.lock);
      } else if free && change.Some? {
        OwnStepKeeps(start, db, w, Changed(message, change.value.data(db.row)), Some(w));
      } else if free {
        OwnStepKeeps(start, db, w, Numbered(message, db.row.(eventSeq := db.row.eventSeq + 1)), Some(w));
      }
    case Changed(message, row) =>
      OwnStepKeeps(start, db, w, Numbered(message, row.(eventSeq := row.eventSeq + 1)), Some(w));
    case Numbered(message, row) =>
      OwnStepKeeps(start, db, w, Inserted(Event(row.eventSeq, row.status, message, w), row), Some(w));
    case Inserted(_, _) => CommitKeeps(start, db, w);
    case _ =>
  }

  lemma ActKeeps(start: Status, db: Db, action: Action)
    requires Inv(start, db) && (action.Begin? && action.change.Some? ==> Lawful(action.change.value))
    ensures Inv(start, Act(db, action))
  {
    match action
    case Begin(w, message, change) =>
      if w !in db.writers {
        OwnStepKeeps(start, db, w, Begun(message, change), db.lock);
      }
    case Proceed(w) =>
      if w in db.writers {
        StatementKeeps(start, db, w);
      }
    case Abort(w) =>
      if w in db.writers && !db.writers[w].Committed? && !db.writers[w].Lost? {
        OwnStepKeeps(start, db, w, RolledBackWhole, if db.lock == Some(w) then None else db.lock);
      }
  }

  // ---------------------------------------------------------------------------
  // What holds at every point of every run
  // ---------------------------------------------------------------------------

  /** A job just made: no events, and nobody writing. */
  ghost predicate Fresh(db: Db) {
    db.row.eventSeq == 0 && db.events == [] && db.writers == map[] && db.lock == None
  }

  lemma EarlierLawful(actions: seq<Action>)
    requires AllLawful(actions) && actions != []
    ensures AllLawful(actions[..|actions| - 1])
  {
    var init := actions[..|actions| - 1];
    assert forall k :: 0 <= k < |init| ==> init[k] == actions[k];
  }

  lemma {:induction false} RunKeeps(db: Db, actions: seq<Action>)
    requires Fresh(db) && AllLawful(actions)
    ensures Inv(db.row.status, Run(db, actions))
  {
    if actions != [] {
      var init, last := actions[..|actions| - 1], actions[|actions| - 1];
      EarlierLawful(actions);
      RunKeeps(db, init);
      ActKeeps(db.row.status, Run(db, init), last);
    }
  }

  /**
   * After any interleaving the committed events are numbered 1 up to the row's counter, in the order they were
   * committed, and are exactly what the transactions that answered an event answered, one each.
   */
  lemma LogIsComplete(db: Db, actions: seq<Action>)
    requires Fresh(db) && AllLawful(actions)
    ensures var end := Run(db, actions);
            && |end.events| == end.row.eventSeq
            && (forall k :: 0 <= k < |end.events| ==> end.events[k].seqNo == k + 1)
            && Answers(end.events, end.writers)
  {
    RunKeeps(db, actions);
  }

  lemma NoWayOut(source: Status, target: Status)
    requires IsTerminal(source) && Follows(source, target)
    ensures target == source
  {
  }

  lemma {:induction false} FinalStatusStays(start: Status, events: seq<Event>, j: nat, k: nat)
    requires forall i {:trigger StatusAfter(start, events, i)} ::
      0 <= i < |events| ==> Follows(StatusAfter(start, events, i), events[i].status)
    requires j <= k <= |events| && IsTerminal(StatusAfter(start, events, j))
    ensures StatusAfter(start, events, k) == StatusAfter(start, events, j)
    decreases k
  {
    if j < k {
      FinalStatusStays(start, events, j, k - 1);
      NoWayOut(StatusAfter(start, events, k - 1), events[k - 1].status);
    }
  }

  /** Once an event shows a final status, so do all that follow it. */
  ghost predicate FinalIsFinal(events: seq<Event>) {
    forall j, k :: 0 <= j <= k < |events| && IsTerminal(events[j].status) ==> events[k].status == events[j].status
  }

  lemma GoodLogIsFinal(start: Status, events: seq<Event>, row: Job)
    requires GoodLog(start, events, row)
    ensures FinalIsFinal(events)
  {
    forall j, k | 0 <= j <= k < |events| && IsTerminal(events[j].status) ensures events[k].status == events[j].status {
      FinalBetween(start, events, row, j, k);
    }
  }

  lemma FinalBetween(start: Status, events: seq<Event>, row: Job, j: nat, k: nat)
    requires GoodLog(start, events, row) && j <= k < |events| && IsTerminal(events[j].status)
    ensures events[k].status == events[j].status
  {
    FinalStatusStays(start, events, j + 1, k + 1);
  }

  /** The log follows the table from the job's first status, ends where the row stands, and what is final stays. */
  lemma LogFollowsTable(db: Db, actions: seq<Action>)
    requires Fresh(db) && AllLawful(actions)
    ensures GoodLog(db.row.status, Run(db, actions).events, Run(db, actions).row)
    ensures FinalIsFinal(Run(db, actions).events)
  {
    RunKeeps(db, actions);
    GoodLogIsFinal(db.row.status, Run(db, actions).events, Run(db, actions).row);
  }

  // ---------------------------------------------------------------------------
  // What is committed
  // ---------------------------------------------------------------------------

  /** What a transaction was begun with. */
  datatype Task = Task(message: string, change: Option<Change>)

  ghost function TasksOf(actions: seq<Action>): map<nat, Task> {
    if actions == [] then map[]
    else
      var tasks, last := TasksOf(actions[..|actions| - 1]), actions[|actions| - 1];
      if last.Begin? && last.w !in tasks then tasks[last.w := Task(last.message, last.change)] else tasks
  }

  /** The row once a transaction has made its change, if it has one, and counted its event. */
  ghost function RowAfter(row: Job, task: Task): Job {
    var changed := if task.change.Some? then task.change.value.data(row) else row;
    changed.(eventSeq := changed.eventSeq + 1)
  }

  /** What the transaction was to change is as it asked. */
  ghost predicate MayChange(row: Job, task: Task) {
    task.change.Some? ==> task.change.value.guard(row)
  }

  /** The start row with the changes of the events' transactions made, in the order of the events. */
  ghost function Replayed(start: Job, tasks: map<nat, Task>, events: seq<Event>): Job
    requires forall k :: 0 <= k < |events| ==> events[k].author in tasks
  {
    if events == [] then start
    else RowAfter(Replayed(start, tasks, events[..|events| - 1]), tasks[events[|events| - 1].author])
  }

  /** The event has its transaction's message, the count and status its change gave, and the change was as it asked. */
  ghost predicate IsAnswer(before: Job, task: Task, event: Event) {
    && MayChange(before, task)
    && event.message == task.message
    && event.seqNo == RowAfter(before, task).eventSeq && event.status == RowAfter(before, task).status
  }

  /** Every event is the answer to its own transaction, from the row the events before it left. */
  ghost predicate AllAnswer(start: Job, tasks: map<nat, Task>, events: seq<Event>) {
    && (forall k :: 0 <= k < |events| ==> events[k].author in tasks)
    && (forall k ::
        0 <= k < |events| ==> IsAnswer(Replayed(start, tasks, events[..k]), tasks[events[k].author], events[k]))
  }

  /** What a transaction has in hand is its own task, begun, done or to be committed. */
  ghost predicate AtWork(row: Job, w: nat, task: Task, writer: Writer) {
    match writer
    case Begun(message, change) => task == Task(message, change)
    case Changed(message, mine) =>
      && message == task.message && task.change.Some? && MayChange(row, task)
      && mine == task.change.value.data(row)
    case Numbered(message, mine) => message == task.message && MayChange(row, task) && mine == RowAfter(row, task)
    case Inserted(event, mine) =>
      && MayChange(row, task) && mine == RowAfter(row, task)
      && event == Event(mine.eventSeq, mine.status, task.message, w)
    case Committed(event) => event.author == w
    case _ => true
  }

  ghost predicate Locked(db: Db) {
    forall w :: w in db.writers && db.writers[w].Holding() ==> db.lock == Some(w)
  }

  ghost predicate AllAtWork(row: Job, tasks: map<nat, Task>, writers: map<nat, Writer>) {
    writers.Keys == tasks.Keys && forall w :: w in writers ==> AtWork(row, w, tasks[w], writers[w])
  }

  /** An event is there for each transaction that committed, the one it answered. */
  ghost predicate AllLogged(events: seq<Event>, writers: map<nat, Writer>) {
    forall w :: w in writers && writers[w].Committed? ==> writers[w].event in events && writers[w].event.author == w
  }

  /** The row is what the logged transactions made of the start, and each has its answer. */
  ghost predicate Done(start: Job, tasks: map<nat, Task>, db: Db) {
    && AllAnswer(start, tasks, db.events) && db.row == Replayed(start, tasks, db.events)
    && AllLogged(db.events, db.writers)
    && Locked(db) && AllAtWork(db.row, tasks, db.writers)
  }

  lemma {:induction false} ReplayedInMore(start: Job, tasks: map<nat, Task>, w: nat, task: Task, events: seq<Event>)
    requires w !in tasks && forall k :: 0 <= k < |events| ==> events[k].author in tasks
    ensures Replayed(start, tasks[w := task], events) == Replayed(start, tasks, events)
  {
    if events != [] {
      ReplayedInMore(start, tasks, w, task, events[..|events| - 1]);
    }
  }

  lemma AnswersInMore(start: Job, tasks: map<nat, Task>, w: nat, task: Task, events: seq<Event>)
    requires w !in tasks && AllAnswer(start, tasks, events)
    ensures AllAnswer(start, tasks[w := task], events)
    ensures Replayed(start, tasks[w := task], events) == Replayed(start, tasks, events)
  {
    var more := tasks[w := task];
    ReplayedInMore(start, tasks, w, task, events);
    forall k | 0 <= k < |events|
      ensures IsAnswer(Replayed(start, more, events[..k]), more[events[k].author], events[k])
    {
      ReplayedInMore(start, tasks, w, task, events[..k]);
    }
  }

  lemma BeginKeepsDone(start: Job, tasks: map<nat, Task>, db: Db, w: nat, message: string, change: Option<Change>)
    requires Done(start, tasks, db) && w !in db.writers
    ensures Done(start, tasks[w := Task(message, change)], Act(db, Begin(w, message, change)))
  {
    AnswersInMore(start, tasks, w, Task(message, change), db.events);
  }

  /** A transaction's own step before its commit. */
  lemma OwnStepKeepsDone(start: Job, tasks: map<nat, Task>, db: Db, w: nat, writer: Writer, lock: Option<nat>)
    requires Done(start, tasks, db) && w in db.writers && !db.writers[w].Committed? && !writer.Committed?
    requires AtWork(db.row, w, tasks[w], writer)
    requires db.lock == None || db.lock == Some(w) || (lock == db.lock && !writer.Holding())
    requires writer.Holding() ==> lock == Some(w)
    ensures Done(start, tasks, db.(writers := db.writers[w := writer], lock := lock))
  {
  }

  lemma CommitAnswers(start: Job, tasks: map<nat, Task>, events: seq<Event>, event: Event)
    requires AllAnswer(start, tasks, events) && event.author in tasks
    requires IsAnswer(Replayed(start, tasks, events), tasks[event.author], event)
    ensures AllAnswer(start, tasks, events + [event])
    ensures Replayed(start, tasks, events + [event]) == RowAfter(Replayed(start, tasks, events), tasks[event.author])
  {
    var more := events + [event];
    assert more[..|events|] == events;
    forall k | 0 <= k < |more|
      ensures more[k].author in tasks
      ensures IsAnswer(Replayed(start, tasks, more[..k]), tasks[more[k].author], more[k])
    {
      if k < |events| {
        assert more[..k] == events[..k];
      }
    }
  }

  /** Nobody else has the row in hand when a transaction commits. */
  lemma CommitKeepsWork(row: Job, tasks: map<nat, Task>, db: Db, w: nat, event: Event)
    requires AllAtWork(db.row, tasks, db.writers) && Locked(db)
    requires w in db.writers && db.writers[w].Holding() && event.author == w
    ensures AllAtWork(row, tasks, db.writers[w := Committed(event)])
    ensures Locked(db.(writers := db.writers[w := Committed(event)], lock := None))
  {
    var after := db.writers[w := Committed(event)];
    forall v | v in after ensures AtWork(row, v, tasks[v], after[v]) && !after[v].Holding() {
      assert v != w ==> AtWork(db.row, v, tasks[v], db.writers[v]) && !db.writers[v].Holding();
    }
  }

  lemma CommitLogs(events: seq<Event>, writers: map<nat, Writer>, w: nat, event: Event)
    requires AllLogged(events, writers) && event.author == w
    ensures AllLogged(events + [event], writers[w := Committed(event)])
  {
  }

  lemma CommitKeepsDone(start: Job, tasks: map<nat, Task>, db: Db, w: nat)
    requires Done(start, tasks, db) && w in db.writers && db.writers[w].Inserted?
    ensures Done(start, tasks, Statement(db, w))
  {
    var event, mine := db.writers[w].event, db.writers[w].row;
    assert AtWork(db.row, w, tasks[w], db.writers[w]);
    CommitAnswers(start, tasks, db.events, event);
    CommitLogs(db.events, db.writers, w, event);
    CommitKeepsWork(mine, tasks, db, w, event);
  }

  lemma StatementKeepsDone(start: Job, tasks: map<nat, Task>, db: Db, w: nat)
    requires Done(start, tasks, db) && w in db.writers
    ensures Done(start, tasks, Statement(db, w))
  {
    var free := db.lock == None || db.lock == Some(w);
    assert AtWork(db.row, w, tasks[w], db.writers[w]);
    match db.writers[w]
    case Begun(message, change) =>
      if change.Some? && !change.value.guard(db.row) {
        OwnStepKeepsDone(start, tasks, db, w, Lost, db.lock);
      } else if free && change.Some? {
        OwnStepKeepsDone(start, tasks, db, w, Changed(message, change.value.data(db.row)), Some(w));
      } else if free {
        OwnStepKeepsDone(start, tasks, db, w, Numbered(message, RowAfter(db.row, tasks[w])), Some(w));
      }
    case Changed(message, row) =>
      OwnStepKeepsDone(start, tasks, db, w, Numbered(message, RowAfter(db.row, tasks[w])), Some(w));
    case Numbered(message, row) =>
      OwnStepKeepsDone(start, tasks, db, w, Inserted(Event(row.eventSeq, row.status, message, w), row), Some(w));
    case Inserted(_, _) => CommitKeepsDone(start, tasks, db, w);
    case _ =>
  }

  lemma ActKeepsDone(start: Job, actions: seq<Action>, db: Db, action: Action)
    requires Done(start, TasksOf(actions), db)
    ensures Done(start, TasksOf(actions + [action]), Act(db, action))
  {
    assert (actions + [action])[..|actions|] == actions;
    match action
    case Begin(w, message, change) =>
      if w !in db.writers {
        BeginKeepsDone(start, TasksOf(actions), db, w, message, change);
      }
    case Proceed(w) =>
      if w in db.writers {
        StatementKeepsDone(start, TasksOf(actions), db, w);
      }
    case Abort(w) =>
      if w in db.writers && !db.writers[w].Committed? && !db.writers[w].Lost? {
        OwnStepKeepsDone(start, TasksOf(actions), db, w, RolledBackWhole, if db.lock == Some(w) then None else db.lock);
      }
  }

  lemma NothingIsDone(db: Db)
    requires Fresh(db)
    ensures Done(db.row, map[], db)
  {
  }

  lemma {:induction false} RunIsDone(db: Db, actions: seq<Action>)
    requires Fresh(db)
    ensures Done(db.row, TasksOf(actions), Run(db, actions))
  {
    if actions == [] {
      NothingIsDone(db);
    } else {
      var init, last := actions[..|actions| - 1], actions[|actions| - 1];
      RunIsDone(db, init);
      ActKeepsDone(db.row, init, Run(db, init), last);
      assert init + [last] == actions;
    }
  }

  /**
   * After any run, whatever its changes: the row is the first one with the changes of the committed transactions made,
   * in the order of the log and each counted once; and each event has the message its transaction began with and the
   * status its change gave, which was allowed by the row the events before it left.
   */
  lemma ChangesAreWritten(db: Db, actions: seq<Action>)
    requires Fresh(db)
    ensures var end, tasks := Run(db, actions), TasksOf(actions);
            && AllAnswer(db.row, tasks, end.events)
            && end.row == Replayed(db.row, tasks, end.events)
            && AllLogged(end.events, end.writers)
  {
    RunIsDone(db, actions);
  }

  /** So a move that is committed is in the log with the status it moved to, from the one it was to move from. */
  lemma MovesAreLogged(db: Db, actions: seq<Action>, w: nat, source: Status, target: Status, others: Job -> bool,
                       other: string) returns (k: nat)
    requires Fresh(db) && w in Run(db, actions).writers && Run(db, actions).writers[w].Committed?
    requires w in TasksOf(actions) && Move(source, target, others, other).Ok?
    requires TasksOf(actions)[w].change == Some(Move(source, target, others, other).value)
    ensures k < |Run(db, actions).events|
    ensures var event := Run(db, actions).events[k];
            event.author == w && event.status == target && event.message == TasksOf(actions)[w].message
    ensures forall i :: 0 <= i < k ==> Run(db, actions).events[i].author in TasksOf(actions)
    ensures Replayed(db.row, TasksOf(actions), Run(db, actions).events[..k]).status == source
  {
    var end, tasks := Run(db, actions), TasksOf(actions);
    RunIsDone(db, actions);
    k :| 0 <= k < |end.events| && end.events[k] == end.writers[w].event;
    assert IsAnswer(Replayed(db.row, tasks, end.events[..k]), tasks[w], end.events[k]);
  }

  /** The statements of one transaction, with nothing between them. */
  function Proceeded(db: Db, w: nat, n: nat): Db {
    if n == 0 then db else Act(Proceeded(db, w, n - 1), Proceed(w))
  }

  /** From its change on, a transaction left to itself numbers its event, inserts it and commits. */
  lemma RestCommits(db: Db, w: nat, task: Task, n: nat, start: Db, k: nat)
    requires k <= 1 && n == k + 3 && w in db.writers && db == Proceeded(start, w, k)
    requires db.lock == None || db.lock == Some(w)
    requires var row := RowAfter(start.row, task);
             if db.writers[w].Changed? then
               && db.writers[w].message == task.message
               && db.writers[w].row.(eventSeq := db.writers[w].row.eventSeq + 1) == row
             else db.writers[w] == Begun(task.message, None) && db.row.(eventSeq := db.row.eventSeq + 1) == row
    ensures var row := RowAfter(start.row, task);
            var event := Event(row.eventSeq, row.status, task.message, w);
            Proceeded(start, w, n) == Db(row, db.events + [event], db.writers[w := Committed(event)], None)
  {
    var row := RowAfter(start.row, task);
    var event := Event(row.eventSeq, row.status, task.message, w);
    assert Proceeded(start, w, k + 1) == db.(lock := Some(w), writers := db.writers[w := Numbered(task.message, row)]);
    assert Proceeded(start, w, k + 2) == db.(lock := Some(w), writers := db.writers[w := Inserted(event, row)]);
    assert Proceeded(start, w, k + 3) == Db(row, db.events + [event], db.writers[w := Committed(event)], None);
  }

  /** Left to itself a transaction is lost if what it was to change is not as it asked, and else commits its answer. */
  lemma AloneItCommits(db: Db, w: nat, task: Task)
    requires db.lock == None && w in db.writers && db.writers[w] == Begun(task.message, task.change)
    ensures !MayChange(db.row, task) ==> Proceeded(db, w, 1) == db.(writers := db.writers[w := Lost])
    ensures MayChange(db.row, task) ==>
      var row := RowAfter(db.row, task);
      var event := Event(row.eventSeq, row.status, task.message, w);
      Proceeded(db, w, if task.change.Some? then 4 else 3) ==
        Db(row, db.events + [event], db.writers[w := Committed(event)], None)
  {
    assert Proceeded(db, w, 0) == db;
    if MayChange(db.row, task) {
      if task.change.Some? {
        RestCommits(Proceeded(db, w, 1), w, task, 4, db, 1);
      } else {
        RestCommits(db, w, task, 3, db, 0);
      }
    }
  }

  // ---------------------------------------------------------------------------
  // What is not committed
  // ---------------------------------------------------------------------------

  /** The same without one transaction, and without its lock. */
  ghost function Without(db: Db, w: nat): Db {
    db.(writers := db.writers - {w}, lock := if db.lock == Some(w) then None else db.lock)
  }

  lemma NothingToLeaveOut(db: Db, w: nat)
    requires Fresh(db)
    ensures Without(db, w) == db
  {
    assert db.writers - {w} == db.writers;
  }

  /** The action does nothing, or is the transaction's own. */
  ghost predicate LeftOut(db: Db, action: Action, w: nat) {
    action.w == w || Act(db, action) == db
  }

  /** What the others did, leaving out where they waited. */
  ghost function Others(db: Db, actions: seq<Action>, w: nat): (r: seq<Action>)
    ensures forall a :: a in r ==> a in actions && a.w != w
  {
    if actions == [] then []
    else
      var init, last := actions[..|actions| - 1], actions[|actions| - 1];
      var before := Run(db, init);
      if LeftOut(before, last, w) then Others(db, init, w) else Others(db, init, w) + [last]
  }

  predicate Uncommitted(db: Db, w: nat) {
    w in db.writers ==> !db.writers[w].Committed?
  }

  /** A step of a transaction that has not committed is not to be told from outside it. */
  lemma OwnStepIsUnseen(db: Db, action: Action)
    requires action.w in db.writers && db.writers[action.w].Holding() ==> db.lock == Some(action.w)
    requires Uncommitted(Act(db, action), action.w)
    ensures Without(Act(db, action), action.w) == Without(db, action.w)
  {
    OthersLeft(db, action);
  }

  lemma OthersLeft(db: Db, action: Action)
    ensures Act(db, action).writers - {action.w} == db.writers - {action.w}
  {
  }

  lemma OtherLeft<T>(m: map<nat, T>, v: nat, x: T, w: nat)
    requires v != w
    ensures m[v := x] - {w} == (m - {w})[v := x]
  {
  }

  lemma OtherStatementIsSame(db: Db, v: nat, w: nat)
    requires v in db.writers && v != w && (db.writers[v].Holding() ==> db.lock == Some(v))
    requires Statement(db, v) != db
    ensures Statement(Without(db, w), v) == Without(Statement(db, v), w)
  {
    OtherLeft(db.writers, v, Statement(db, v).writers[v], w);
  }

  /** What another does, it does just so without the transaction. */
  lemma OtherStepIsSame(db: Db, action: Action, w: nat)
    requires action.w != w && Act(db, action) != db
    requires action.w in db.writers && db.writers[action.w].Holding() ==> db.lock == Some(action.w)
    ensures Act(Without(db, w), action) == Without(Act(db, action), w)
  {
    var v := action.w;
    match action
    case Begin(_, message, change) => OtherLeft(db.writers, v, Begun(message, change), w);
    case Proceed(_) => OtherStatementIsSame(db, v, w);
    case Abort(_) => OtherLeft(db.writers, v, RolledBackWhole, w);
  }

  lemma RunOneMore(db: Db, actions: seq<Action>, action: Action)
    ensures Run(db, actions + [action]) == Act(Run(db, actions), action)
  {
    assert (actions + [action])[..|actions|] == actions;
  }

  lemma CommittedStays(db: Db, action: Action, w: nat)
    requires Uncommitted(Act(db, action), w)
    ensures Uncommitted(db, w)
  {
  }

  lemma StepLeavesNoTrace(start: Status, db: Db, action: Action, w: nat)
    requires Inv(start, db) && Uncommitted(Act(db, action), w)
    ensures Without(Act(db, action), w) ==
      if LeftOut(db, action, w) then Without(db, w) else Act(Without(db, w), action)
  {
    if action.w == w {
      OwnStepIsUnseen(db, action);
    } else if Act(db, action) != db {
      OtherStepIsSame(db, action, w);
    }
  }

  lemma OthersOneMore(db: Db, init: seq<Action>, last: Action, w: nat)
    ensures Others(db, init + [last], w) ==
      if LeftOut(Run(db, init), last, w) then Others(db, init, w) else Others(db, init, w) + [last]
  {
    assert (init + [last])[..|init|] == init;
  }

  lemma OneMoreLeavesNoTrace(db: Db, init: seq<Action>, last: Action, w: nat)
    requires Fresh(db) && AllLawful(init) && Uncommitted(Run(db, init + [last]), w)
    requires Run(db, Others(db, init, w)) == Without(Run(db, init), w)
    ensures Run(db, Others(db, init + [last], w)) == Without(Run(db, init + [last]), w)
  {
    RunOneMore(db, init, last);
    RunOneMore(db, Others(db, init, w), last);
    OthersOneMore(db, init, last, w);
    RunKeeps(db, init);
    StepLeavesNoTrace(db.row.status, Run(db, init), last, w);
  }

  /**
   * A transaction that has not committed, be it lost, rolled back or still going, has changed nothing: the row, the
   * events and every other transaction are as the others alone would have made them.
   */
  lemma {:induction false} UncommittedLeavesNoTrace(db: Db, actions: seq<Action>, w: nat)
    requires Fresh(db) && AllLawful(actions) && Uncommitted(Run(db, actions), w)
    ensures Run(db, Others(db, actions, w)) == Without(Run(db, actions), w)
  {
    if actions == [] {
      NothingToLeaveOut(db, w);
    } else {
      var init, last := actions[..|actions| - 1], actions[|actions| - 1];
      EarlierLawful(actions);
      CommittedStays(Run(db, init), last, w);
      UncommittedLeavesNoTrace(db, init, w);
      assert init + [last] == actions;
      OneMoreLeavesNoTrace(db, init, last, w);
    }
  }

  // ---------------------------------------------------------------------------
  // Catching up
  // ---------------------------------------------------------------------------

  function After(events: seq<Event>, k: nat): seq<Event> {
    if events == [] then []
    else (if events[0].seqNo > k then [events[0]] else []) + After(events[1..], k)
  }

  lemma {:induction false} AfterIsSuffix(events: seq<Event>, first: nat, k: nat)
    requires forall i :: 0 <= i < |events| ==> events[i].seqNo == first + i + 1
    requires first <= k <= first + |events|
    ensures After(events, k) == events[k - first..]
  {
    if events != [] {
      if first < k {
        AfterIsSuffix(events[1..], first + 1, k);
      } else {
        assert events == [events[0]] + events[1..];
        AllAfter(events, k);
      }
    }
  }

  lemma {:induction false} AllAfter(events: seq<Event>, k: nat)
    requires forall i :: 0 <= i < |events| ==> events[i].seqNo > k
    ensures After(events, k) == events
  {
    if events != [] {
      AllAfter(events[1..], k);
    }
  }

  lemma {:induction false} LogOnlyGrows(db: Db, actions: seq<Action>, n: nat)
    requires n <= |actions|
    ensures Run(db, actions[..n]).events <= Run(db, actions).events
  {
    if n < |actions| {
      var init := actions[..|actions| - 1];
      assert init[..n] == actions[..n];
      LogOnlyGrows(db, init, n);
    } else {
      assert actions[..n] == actions;
    }
  }

  lemma SuffixOfGoodLog(start: Status, early: seq<Event>, late: seq<Event>, row: Job, k: nat)
    requires early <= late && GoodLog(start, late, row) && k <= |early|
    ensures early[..k] + After(late, k) == late
  {
    AfterIsSuffix(late, 0, k);
    assert early[..k] == late[..k];
  }

  /** Who has the log up to number k, read at any point, and asks later for what comes after k, has the whole log. */
  lemma CatchingUp(db: Db, actions: seq<Action>, n: nat, k: nat)
    requires Fresh(db) && AllLawful(actions) && n <= |actions|
    requires k <= |Run(db, actions[..n]).events|
    ensures Run(db, actions[..n]).events[..k] + After(Run(db, actions).events, k) == Run(db, actions).events
  {
    LogOnlyGrows(db, actions, n);
    RunKeeps(db, actions);
    SuffixOfGoodLog(db.row.status, Run(db, actions[..n]).events, Run(db, actions).events, Run(db, actions).row, k);
  }
}
