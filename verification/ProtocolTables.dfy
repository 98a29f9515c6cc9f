// What every step of the protocol keeps about the table, the queue of cards and the keys in
// flight.
module ProtocolTables {
  import opened Wrappers
  import opened Actions
  import opened Approvals
  import opened Ledger
  import opened Store
  import opened Protocol

  // --- the table stays repaired ---

  ghost predicate TableOk(db: Db) {
    CleanTable(db.rows) && forall id | id in db.rows :: id < db.nextRow
  }

  // A table whose rows only changed status, none of them back to life, or went away.
  ghost predicate Shrinks(t: Table, u: Table) {
    forall id | id in u ::
      id in t && u[id].(status := t[id].status) == t[id] && (t[id].status == Rejected ==> u[id].status == Rejected)
  }

  lemma LoadShrinks(t: Table)
    requires CleanTable(t)
    ensures Shrinks(t, Loaded(t))
    ensures forall id | id in Loaded(t) :: Loaded(t)[id] == t[id]
    ensures forall id | Active(t, id) :: id in Loaded(t)
    ensures CleanTable(Loaded(t))
  {
    LoadOfCleanTable(t);
  }

  lemma RequeueShrinks(t: Table)
    ensures Shrinks(t, Requeued(t))
  {
  }

  // Which steps write the table: commands, the worker's commits, and loads.
  predicate Commands(step: Step) {
    step.Propose? || step.Approve? || step.Reject? || step.Ignore? || step.DropRow? || step.Retire?
  }

  predicate Commits(step: Step) {
    step.Persist? || step.Recommit?
  }

  predicate Reloads(step: Step) {
    step.Fold? || step.Restart?
  }

  predicate TouchesRows(step: Step) {
    Commands(step) || Commits(step) || Reloads(step)
  }

  lemma RowsUntouched(s: Sys, step: Step)
    requires !TouchesRows(step)
    ensures Next(s, step).db.rows == s.db.rows && Next(s, step).pending == s.pending
    ensures Next(s, step).db.nextRow == s.db.nextRow
  {
    hide RateLimited, Pruned;
  }

  ghost predicate Reduced(s: Sys, t: Sys) {
    Shrinks(s.db.rows, t.db.rows) && t.db.nextRow == s.db.nextRow
  }

  lemma CommandShrinks(s: Sys, step: Step)
    requires Commands(step) && !step.Propose?
    ensures Reduced(s, Next(s, step))
  {
    hide Parses;
  }

  lemma CommitShrinks(s: Sys, step: Step)
    requires Commits(step)
    ensures Reduced(s, Next(s, step))
  {
    hide UndoFits;
  }

  lemma FoldLeaves(s: Sys, loaded: bool)
    ensures var t := FoldStep(s, loaded);
            && (t.db.rows == s.db.rows || t.db.rows == Loaded(s.db.rows))
            && t.db.nextRow == s.db.nextRow
  {
    hide Loaded, Cards;
  }

  lemma FoldShrinks(s: Sys, loaded: bool)
    requires TableOk(s.db)
    ensures Reduced(s, FoldStep(s, loaded))
  {
    LoadShrinks(s.db.rows);
    FoldLeaves(s, loaded);
    hide FoldStep, Loaded, TableOk;
  }

  lemma RestartShrinks(s: Sys, requeued: bool, loaded: bool)
    requires TableOk(s.db)
    ensures Reduced(s, RestartStep(s, requeued, loaded))
  {
    var t := s.db.rows;
    RequeueShrinks(t);
    FewerKeepsClean(t, Requeued(t));
    LoadShrinks(t);
    LoadShrinks(Requeued(t));
    hide Loaded, TableOk, Cards, Requeued, IdsWith;
  }

  // Every step except a new card leaves a shrunken table.
  lemma StepShrinks(s: Sys, step: Step)
    requires TableOk(s.db) && !step.Propose?
    ensures Reduced(s, Next(s, step))
  {
    hide TableOk;
    if Commands(step) {
      CommandShrinks(s, step);
      hide Next;
    } else if Commits(step) {
      CommitShrinks(s, step);
      hide Next;
    } else if step.Fold? {
      FoldShrinks(s, step.loaded);
      hide FoldStep;
    } else if step.Restart? {
      RestartShrinks(s, step.requeued, step.loaded);
      hide RestartStep;
    } else {
      RowsUntouched(s, step);
      hide Next;
    }
  }

  lemma TableStays(s: Sys, step: Step)
    requires TableOk(s.db)
    ensures TableOk(Next(s, step).db)
  {
    if step.Propose? {
      if Insertable(s.db.rows, step.fix) { InsertKeepsClean(s.db.rows, s.db.nextRow, step.fix); }
      hide CleanTable, Insertable;
    } else {
      StepShrinks(s, step);
      hide Next;
      FewerKeepsClean(s.db.rows, Next(s, step).db.rows);
      hide CleanTable;
    }
  }

  // --- keys in flight ---

  // Keys of the outcomes of fixes; a registry undo reports under the empty key.
  function OutcomeKeys(os: seq<Outcome>): seq<string> {
    if os == [] then []
    else OutcomeKey(os[0]) + OutcomeKeys(os[1..])
  }

  function OutcomeKey(o: Outcome): seq<string> {
    if o.key == "" then [] else [o.key]
  }

  function WorkerKeys(w: WorkerPc): seq<string> {
    match w
    case Idle => []
    case Reporting(out) => OutcomeKey(out)
    case _ => [w.job.fix.key]
  }

  function QueueKeys(queue: seq<Job>): seq<string> {
    seq(|queue|, i requires 0 <= i < |queue| => queue[i].fix.key)
  }

  // Work on its way through the worker, in the order in which it will be folded.
  function Pipeline(s: Sys): seq<string> {
    OutcomeKeys(s.outcomes) + WorkerKeys(s.worker) + QueueKeys(s.queue)
  }

  ghost predicate InFlightOk(s: Sys) {
    NoDup(Pipeline(s)) && s.inFlight == Elements(Pipeline(s))
  }

  lemma {:induction false} OutcomeKeysAppend(os: seq<Outcome>, o: Outcome)
    ensures OutcomeKeys(os + [o]) == OutcomeKeys(os) + OutcomeKey(o)
    ensures "" !in OutcomeKeys(os)
  {
    if os == [] {
      assert os + [o] == [o];
    } else {
      assert (os + [o])[1..] == os[1..] + [o];
      OutcomeKeysAppend(os[1..], o);
    }
  }

  predicate MovesWork(step: Step) {
    step.Enqueue? || step.AutoEnqueue? || step.Fold? || step.Restart? || step.Start? || step.Report? || step.UndoReport?
  }

  // The steps in between leave the pipeline as it is: what the worker does to a job keeps
  // the job's key.
  lemma PipelineUntouched(s: Sys, step: Step)
    requires !MovesWork(step)
    ensures Pipeline(Next(s, step)) == Pipeline(s) && Next(s, step).inFlight == s.inFlight
  {
    WorkerKeepsKey(s, step);
    SamePipeline(s, Next(s, step));
    hide Next, Pipeline;
  }

  predicate OnTheJob(step: Step) {
    Commits(step) || step.Finish? || step.Abandon? || step.Rollback?
  }

  lemma WorkerKeepsKey(s: Sys, step: Step)
    requires !MovesWork(step)
    ensures var t := Next(s, step);
            && t.outcomes == s.outcomes && t.queue == s.queue && t.inFlight == s.inFlight
            && WorkerKeys(t.worker) == WorkerKeys(s.worker)
  {
    hide RateLimited, Persistable, Persisted, Claimable, Insertable, Pruned, Queued;
    if OnTheJob(step) {
    } else {
      assert Next(s, step).worker == s.worker;
      hide WorkerKeys;
    }
  }

  lemma SamePipeline(s: Sys, t: Sys)
    requires t.outcomes == s.outcomes && t.queue == s.queue && WorkerKeys(t.worker) == WorkerKeys(s.worker)
    ensures Pipeline(t) == Pipeline(s)
  {
  }

  // Starting a job and reporting its outcome only move its key along.
  lemma PipelineOnStart(s: Sys)
    ensures Pipeline(StartStep(s)) == Pipeline(s) && StartStep(s).inFlight == s.inFlight
  {
    if s.worker.Idle? && s.queue != [] {
      assert QueueKeys(s.queue) == [s.queue[0].fix.key] + QueueKeys(s.queue[1..]);
      hide OutcomeKeys, QueueKeys;
    }
  }

  lemma PipelineOnReport(s: Sys)
    ensures Pipeline(ReportStep(s)) == Pipeline(s) && ReportStep(s).inFlight == s.inFlight
  {
    if s.worker.Reporting? {
      OutcomeKeysAppend(s.outcomes, s.worker.out);
      hide OutcomeKeys, QueueKeys, OutcomeKey;
    }
  }

  lemma PipelineOnUndo(s: Sys, success: bool)
    ensures Pipeline(Next(s, UndoReport(success))) == Pipeline(s) && Next(s, UndoReport(success)).inFlight == s.inFlight
  {
    OutcomeKeysAppend(s.outcomes, Outcome("", false, success, None, false, None));
    hide OutcomeKeys, QueueKeys, WorkerKeys;
  }

  lemma PipelineShifted(s: Sys, step: Step)
    requires step.Start? || step.Report? || step.UndoReport?
    ensures Pipeline(Next(s, step)) == Pipeline(s) && Next(s, step).inFlight == s.inFlight
  {
    hide Pipeline, StartStep, ReportStep;
    match step
    case Start => PipelineOnStart(s);
    case Report => PipelineOnReport(s);
    case UndoReport(success) => PipelineOnUndo(s, success);
  }

  lemma SendKeeps(s: Sys, job: Job)
    requires InFlightOk(s) && job.fix.key !in s.inFlight
    ensures InFlightOk(Send(s, job))
  {
    assert QueueKeys(s.queue + [job]) == QueueKeys(s.queue) + [job.fix.key];
    assert Pipeline(Send(s, job)) == Pipeline(s) + [job.fix.key];
    NoDupSnoc(Pipeline(s), job.fix.key);
  }

  lemma PipelineFolded(s: Sys, loaded: bool)
    requires s.loop.Ready? && s.outcomes != []
    ensures Pipeline(s) == OutcomeKey(s.outcomes[0]) + Pipeline(FoldStep(s, loaded))
    ensures FoldStep(s, loaded).inFlight == s.inFlight - {s.outcomes[0].key}
  {
    hide Loaded, Cards, WorkerKeys, QueueKeys;
  }

  lemma FoldKeeps(s: Sys, loaded: bool)
    requires InFlightOk(s)
    ensures InFlightOk(FoldStep(s, loaded))
  {
    if s.loop.Ready? && s.outcomes != [] {
      PipelineFolded(s, loaded);
      hide FoldStep, Pipeline, NoDup, Elements;
      var o, t := s.outcomes[0], FoldStep(s, loaded);
      if o.key == "" {
        assert Pipeline(t) == Pipeline(s);
        NoEmptyKey(s);
      } else {
        NoDupTail(o.key, Pipeline(t));
      }
    }
  }

  lemma NoEmptyKey(s: Sys)
    requires InFlightOk(s)
    ensures "" !in s.inFlight
  {
    OutcomeKeysAppend(s.outcomes, Outcome("", false, false, None, false, None));
  }

  lemma InFlightStays(s: Sys, step: Step)
    requires InFlightOk(s)
    ensures InFlightOk(Next(s, step))
  {
    match step
    case Fold(loaded) => FoldKeeps(s, loaded);
    case Enqueue =>
      if s.loop.Checked? && s.loop.fix.key !in s.inFlight {
        SendKeeps(s, Job(s.loop.fix, Some(s.loop.id), s.loop.gateAt));
      }
    case AutoEnqueue =>
      if s.loop.AutoChecked? && s.loop.fix.key !in s.inFlight {
        SendKeeps(s, Job(s.loop.fix, None, s.loop.gateAt));
      }
    case Restart(requeued, loaded) =>
    case _ =>
      if MovesWork(step) { PipelineShifted(s, step); } else { PipelineUntouched(s, step); }
      hide Next, Pipeline;
  }

  // --- cards and tickets ---

  predicate Holds(t: Table, id: nat, status: Status, fix: Fix) {
    id in t && t[id].status == status && t[id].fix == Some(fix)
  }

  ghost predicate CardsOk(s: Sys) {
    forall id | id in s.pending :: Holds(s.db.rows, id, Pending, s.pending[id])
  }

  // A claim the loop is still working on.
  datatype Ticket = Ticket(id: nat, fix: Fix)

  function LoopTicket(pc: LoopPc): Option<Ticket> {
    match pc
    case Claiming(id, fix) => Some(Ticket(id, fix))
    case Checked(id, fix, _) => Some(Ticket(id, fix))
    case Dropping(id, fix) => Some(Ticket(id, fix))
    case _ => None
  }

  // The job whose row the worker has not settled yet.
  function WorkerJob(w: WorkerPc): Option<Job> {
    if w.Idle? || w.Reporting? then None else Some(w.job)
  }

  ghost predicate JobHolds(t: Table, job: Job) {
    job.approval.Some? ==> Holds(t, job.approval.value, Approved, job.fix)
  }

  ghost predicate TicketsOk(s: Sys) {
    && (forall i | 0 <= i < |s.queue| :: JobHolds(s.db.rows, s.queue[i]))
    && (WorkerJob(s.worker).Some? ==> JobHolds(s.db.rows, WorkerJob(s.worker).value))
    && (LoopTicket(s.loop).Some? ==>
          var t := LoopTicket(s.loop).value;
          && Holds(s.db.rows, t.id, Approved, t.fix)
          && (forall i | 0 <= i < |s.queue| :: s.queue[i].approval != Some(t.id))
          && (WorkerJob(s.worker).Some? ==> WorkerJob(s.worker).value.approval != Some(t.id)))
  }

  ghost predicate QueueOk(s: Sys) {
    TableOk(s.db) && InFlightOk(s) && CardsOk(s) && TicketsOk(s)
  }

  // The worker's key is not waiting in the queue behind it.
  lemma WorkerKeyNotQueued(s: Sys, i: nat)
    requires InFlightOk(s) && WorkerJob(s.worker).Some? && i < |s.queue|
    ensures s.queue[i].fix.key != WorkerJob(s.worker).value.fix.key
  {
    var p, n := Pipeline(s), |OutcomeKeys(s.outcomes)|;
    assert p[n] == s.worker.job.fix.key && p[n + 1 + i] == s.queue[i].fix.key;
  }

  lemma CardsOnReload(s: Sys, step: Step)
    requires TableOk(s.db) && CardsOk(s) && Reloads(step)
    ensures CardsOk(Next(s, step))
  {
    CardsAreRows(Loaded(s.db.rows));
    CardsAreRows(Loaded(Requeued(s.db.rows)));
    hide Loaded, Cards, TableOk, Requeued;
  }

  lemma CardsOnCommit(s: Sys, step: Step)
    requires CardsOk(s) && Commits(step)
    ensures CardsOk(Next(s, step))
  {
    hide UndoFits;
  }

  lemma CardsOnCommand(s: Sys, step: Step)
    requires TableOk(s.db) && CardsOk(s) && TicketsOk(s) && Commands(step)
    ensures CardsOk(Next(s, step))
  {
    hide CleanTable, Insertable;
  }

  lemma CardsStay(s: Sys, step: Step)
    requires QueueOk(s)
    ensures CardsOk(Next(s, step))
  {
    hide InFlightOk, TicketsOk, TableOk;
    if !TouchesRows(step) {
      RowsUntouched(s, step);
    } else if Commands(step) {
      CardsOnCommand(s, step);
    } else if Commits(step) {
      CardsOnCommit(s, step);
    } else {
      CardsOnReload(s, step);
    }
    hide Next, TouchesRows, Commands, Commits, Reloads;
  }

  lemma CardsAreRows(t: Table)
    ensures forall id | id in Cards(t) :: Holds(t, id, Pending, Cards(t)[id])
  {
  }

  // One job on the worker commits: its row goes, every other claim keeps its own.
  lemma SettleKeepsTickets(s: Sys, result: ExecResult, requeue: bool)
    requires QueueOk(s) && WorkerJob(s.worker).Some?
    requires var job := WorkerJob(s.worker).value; Persistable(s.db, job.fix, result, job.approval, requeue)
    ensures TicketsOk(Logs(s, WorkerJob(s.worker).value, result, requeue))
  {
    hide InFlightOk, CleanTable;
    var job := WorkerJob(s.worker).value;
    forall i | 0 <= i < |s.queue| ensures JobHolds(Settled(s.db.rows, job.approval, requeue), s.queue[i]) {
      WorkerKeyNotQueued(s, i);
    }
  }

  lemma TicketsOnMove(s: Sys, step: Step)
    requires TicketsOk(s) && !TouchesRows(step)
    ensures TicketsOk(Next(s, step))
  {
    RowsUntouched(s, step);
    hide RateLimited, Pruned, Holds;
  }

  lemma TicketsOnCommand(s: Sys, step: Step)
    requires TicketsOk(s) && CardsOk(s) && Commands(step)
    requires s.db.nextRow !in s.db.rows
    ensures TicketsOk(Next(s, step))
  {
    hide Insertable, Queued;
  }

  lemma TicketsKeepRows(s: Sys, t: Sys)
    requires TicketsOk(s) && forall id | Active(s.db.rows, id) :: id in t.db.rows && t.db.rows[id] == s.db.rows[id]
    requires t.queue == s.queue && t.worker == s.worker && t.loop == s.loop
    ensures TicketsOk(t)
  {
    forall id, fix | Holds(s.db.rows, id, Approved, fix) ensures Holds(t.db.rows, id, Approved, fix) {
      assert Active(s.db.rows, id);
    }
    hide Holds, WorkerJob, LoopTicket;
  }

  lemma TicketsOnFold(s: Sys, loaded: bool)
    requires TableOk(s.db) && TicketsOk(s)
    ensures TicketsOk(FoldStep(s, loaded))
  {
    LoadShrinks(s.db.rows);
    hide TableOk, Cards, Loaded, TicketsOk;
    TicketsKeepRows(s, FoldStep(s, loaded));
  }

  lemma TicketsOnRestart(s: Sys, requeued: bool, loaded: bool)
    ensures TicketsOk(RestartStep(s, requeued, loaded))
  {
    hide Cards, Loaded, Requeued, Holds, IdsWith;
  }

  lemma TicketsStay(s: Sys, step: Step)
    requires QueueOk(s)
    ensures TicketsOk(Next(s, step))
  {
    hide InFlightOk, CleanTable, CardsOk;
    assert s.db.nextRow !in s.db.rows;
    if !TouchesRows(step) {
      TicketsOnMove(s, step);
      hide Next;
    } else if Commands(step) {
      TicketsOnCommand(s, step);
      hide Next;
    } else if Commits(step) {
      PersistKeepsTickets(s, step);
      hide Next;
    } else if step.Fold? {
      TicketsOnFold(s, step.loaded);
      hide FoldStep, TicketsOk;
    } else {
      TicketsOnRestart(s, step.requeued, step.loaded);
      hide RestartStep, TicketsOk;
    }
  }

  lemma PersistKeepsTickets(s: Sys, step: Step)
    requires QueueOk(s) && Commits(step)
    ensures TicketsOk(Next(s, step))
  {
    hide TableOk, InFlightOk, CardsOk;
    if s.worker.Finished? || s.worker.RolledBack? {
      var job := s.worker.job;
      var requeue := job.approval.Some? && (s.worker.RolledBack? || s.worker.synthetic);
      if Persistable(s.db, job.fix, s.worker.result, job.approval, requeue) {
        SettleKeepsTickets(s, s.worker.result, requeue);
        hide Logs, Persistable;
      }
    }
  }

  lemma QueueStays(s: Sys, step: Step)
    requires QueueOk(s)
    ensures QueueOk(Next(s, step))
  {
    TableStays(s, step);
    InFlightStays(s, step);
    CardsStay(s, step);
    TicketsStay(s, step);
    hide Next;
  }
}
