// The approval and execution protocol: one decision loop, one executor worker and the
// audit database, interleaved step by step, with a process stop possible between any two
// (eir-svc/src/main.rs).
module Protocol {
  import opened Wrappers
  import opened Actions
  import opened Approvals
  import opened Ledger
  import opened Registry
  import opened Store

  // `gateAt`: when the rate limit was read for this job.
  datatype Job = Job(fix: Fix, approval: Option<nat>, gateAt: int)

  // `key` is empty for a user-requested registry undo. `way` records the way back that the
  // executor handed over with the result; it steers nothing.
  datatype Outcome = Outcome(key: string, reset: bool, success: bool, undoId: Option<nat>, refresh: bool,
                             way: Option<Undo>)

  // Where the loop stands between two awaits of one arm.
  datatype LoopPc =
    | Ready
    | Claiming(id: nat, fix: Fix)                  // claimed; safety preflight still to come
    | Checked(id: nat, fix: Fix, gateAt: int)      // preflight passed; not yet in flight
    | Dropping(id: nat, fix: Fix)                  // resolved or duplicate; row still to be deleted
    | AutoChecked(fix: Fix, gateAt: int)           // rate limit passed for an autonomous fix

  datatype WorkerPc =
    | Idle
    | Executing(job: Job)
    | Finished(job: Job, result: ExecResult, synthetic: bool)
    | RollingBack(job: Job, result: ExecResult)    // a reset ran, its commit failed
    | RolledBack(job: Job, result: ExecResult)     // the live value is back; that is still to be logged
    | Reporting(out: Outcome)

  datatype Event =
    | Claim(id: nat, key: string)                  // the user's approval was recorded
    | Run(card: Option<nat>, key: string)          // the executor started the action
    // One transaction logged it, as that row of `hist`, and left its card as `left`; `ran`
    // says that the result is the action's own, not a panic, a timeout or a rollback.
    | Logged(id: nat, key: string, row: nat, ran: bool, left: Option<Row>)
    | Dropped(id: nat)                             // preflight or duplicate handling deleted its row
    | Restarted(back: Table)                       // the approved rows that are pending after startup

  // `hist` and `trace` record what happened and steer nothing: `hist` is the log without
  // retention, from the row with the id `firstExec` on.
  datatype Sys = Sys(
    db: Db, pending: map<nat, Fix>, inFlight: set<string>, queue: seq<Job>, worker: WorkerPc,
    outcomes: seq<Outcome>, loop: LoopPc, now: int, window: nat, retention: nat,
    firstExec: nat, hist: seq<LogRow>, trace: seq<Event>)

  datatype Step =
    | Tick(elapsed: nat)
    | Propose(fix: Fix, stored: bool)
    | Approve(id: nat, commits: bool)
    | Reject(id: nat, commits: bool, deleted: bool)
    | Ignore(id: nat, deleted: bool)
    | PreflightPass
    | PreflightResolve
    | PreflightRetry
    | Enqueue
    | DropRow(deleted: bool)
    | AutoCheck(fix: Fix)
    | AutoEnqueue
    | Fold(loaded: bool)
    | Retire                                       // a load that got no further than its first statement
    | UndoMark(id: nat, undone: bool)
    | UndoReport(success: bool)
    | Start
    | Finish(result: ExecResult)
    | Abandon
    | Persist(ok: bool)
    | Rollback(ok: bool)
    | Recommit(ok: bool)
    | Report
    | Prune
    | Restart(requeued: bool, loaded: bool)

  // --- the loop ---

  predicate Queued(pending: map<nat, Fix>, key: string) {
    exists id | id in pending :: pending[id].key == key
  }

  // A fix that needs approval becomes a card unless one is queued or it is executing.
  function ProposeStep(s: Sys, fix: Fix, stored: bool): Sys {
    if !s.loop.Ready? || Queued(s.pending, fix.key) || fix.key in s.inFlight then s
    else if !stored || !Insertable(s.db.rows, fix) then s
    else
      var id := s.db.nextRow;
      s.(db := s.db.(rows := s.db.rows[id := NewRow(fix)], nextRow := id + 1), pending := s.pending[id := fix])
  }

  function ApproveStep(s: Sys, id: nat, commits: bool): Sys {
    if !s.loop.Ready? || !commits || !Claimable(s.db.rows, id) then s
    else
      var fix := s.db.rows[id].fix.value;
      s.(db := s.db.(rows := Claimed(s.db.rows, id, true)), pending := s.pending - {id},
         loop := Claiming(id, fix), trace := s.trace + [Claim(id, fix.key)])
  }

  function RejectStep(s: Sys, id: nat, commits: bool, deleted: bool): Sys {
    if !s.loop.Ready? || !commits || !Claimable(s.db.rows, id) then s
    else
      s.(db := s.db.(rows := if deleted then s.db.rows - {id} else Claimed(s.db.rows, id, false)),
         pending := s.pending - {id})
  }

  function IgnoreStep(s: Sys, id: nat, deleted: bool): Sys {
    if !s.loop.Ready? || id !in s.pending then s
    else s.(db := s.db.(rows := if deleted then s.db.rows - {id} else s.db.rows), pending := s.pending - {id})
  }

  // The three ends of `approved_action_ready`; a policy verdict may block at any time.
  function PreflightPassStep(s: Sys): Sys {
    if !s.loop.Claiming? || RateLimited(s.db.log, s.loop.fix, s.now, s.window) then s
    else s.(loop := Checked(s.loop.id, s.loop.fix, s.now))
  }

  function PreflightResolveStep(s: Sys): Sys {
    if s.loop.Claiming? then s.(loop := Dropping(s.loop.id, s.loop.fix)) else s
  }

  function PreflightRetryStep(s: Sys): Sys {
    if s.loop.Claiming? then s.(loop := Ready) else s
  }

  function Send(s: Sys, job: Job): Sys {
    s.(inFlight := s.inFlight + {job.fix.key}, queue := s.queue + [job], loop := Ready)
  }

  function EnqueueStep(s: Sys): Sys {
    if !s.loop.Checked? then s
    else if s.loop.fix.key in s.inFlight then s.(loop := Dropping(s.loop.id, s.loop.fix))
    else Send(s, Job(s.loop.fix, Some(s.loop.id), s.loop.gateAt))
  }

  function DropRowStep(s: Sys, deleted: bool): Sys {
    if !s.loop.Dropping? then s
    else if !deleted then s.(loop := Ready)
    else s.(db := s.db.(rows := s.db.rows - {s.loop.id}), loop := Ready, trace := s.trace + [Dropped(s.loop.id)])
  }

  function AutoCheckStep(s: Sys, fix: Fix): Sys {
    if !s.loop.Ready? || RateLimited(s.db.log, fix, s.now, s.window) then s
    else s.(loop := AutoChecked(fix, s.now))
  }

  function AutoEnqueueStep(s: Sys): Sys {
    if !s.loop.AutoChecked? then s
    else if s.loop.fix.key in s.inFlight || Queued(s.pending, s.loop.fix.key) then s.(loop := Ready)
    else Send(s, Job(s.loop.fix, None, s.loop.gateAt))
  }

  // Folds one finished outcome; a requeued row makes the loop reload the queue.
  ghost function FoldStep(s: Sys, loaded: bool): Sys {
    if !s.loop.Ready? || s.outcomes == [] then s
    else
      var o := s.outcomes[0];
      var t := s.(inFlight := s.inFlight - {o.key}, outcomes := s.outcomes[1..]);
      if o.refresh && loaded then Reload(t) else t
  }

  ghost function Reload(s: Sys): Sys {
    var rows := Loaded(s.db.rows);
    s.(db := s.db.(rows := rows), pending := Cards(rows))
  }

  function UndoMarkStep(s: Sys, id: nat, undone: bool): Sys {
    s.(db := s.db.(undos := if undone then UndoClaimed(s.db.undos, id) else UndoReleased(s.db.undos, id)))
  }

  // --- the worker ---

  function StartStep(s: Sys): Sys {
    if !s.worker.Idle? || s.queue == [] then s
    else
      var job := s.queue[0];
      s.(queue := s.queue[1..], worker := Executing(job), trace := s.trace + [Run(job.approval, job.fix.key)])
  }

  function FinishStep(s: Sys, result: ExecResult, synthetic: bool): Sys {
    if s.worker.Executing? then s.(worker := Finished(s.worker.job, result, synthetic)) else s
  }

  // A panic or a timeout: a failure without an undo.
  function Synthetic(job: Job): ExecResult {
    ExecResult(job.fix.shown, false, None)
  }

  function RowIn(t: Table, id: nat): Option<Row> {
    if id in t then Some(t[id]) else None
  }

  function LoggedEvent(s: Sys, job: Job, after: Table): Event
    requires job.approval.Some?
  {
    Logged(job.approval.value, job.fix.key, |s.hist|, s.worker.Finished? && !s.worker.synthetic,
           RowIn(after, job.approval.value))
  }

  // One committed transaction: log row, undo record and approval transition together.
  function Logs(s: Sys, job: Job, result: ExecResult, requeue: bool): Sys
    requires Persistable(s.db, job.fix, result, job.approval, requeue)
  {
    s.(db := Persisted(s.db, job.fix, result, job.approval, requeue, s.now),
       hist := s.hist + [LoggedRow(job.fix, result, s.now)],
       trace := if job.approval.None? then s.trace
                else s.trace + [LoggedEvent(s, job, Settled(s.db.rows, job.approval, requeue))],
       worker := Reporting(Outcome(job.fix.key, job.fix.reset, result.success, UndoIdOf(s.db, result), requeue,
                                   result.undo)))
  }

  function Failed(job: Job): Outcome {
    Outcome(job.fix.key, job.fix.reset, false, None, false, None)
  }

  function PersistStep(s: Sys, ok: bool): Sys {
    if !s.worker.Finished? then s
    else
      var job, result := s.worker.job, s.worker.result;
      var requeue := s.worker.synthetic && job.approval.Some?;
      if ok && Persistable(s.db, job.fix, result, job.approval, requeue) then Logs(s, job, result, requeue)
      else if !(result.success && job.fix.reset) then
        s.(worker := Reporting(Outcome(job.fix.key, job.fix.reset, result.success, None, false, None)))
      else if result.undo.Some? then s.(worker := RollingBack(job, result))
      else s.(worker := Reporting(Failed(job)))
  }

  // The restore of a reset whose undo could not be stored.
  function RollbackStep(s: Sys, ok: bool): Sys {
    if !s.worker.RollingBack? then s
    else if ok && s.worker.result.undo.Some? && Complete(s.worker.result.undo.value) then
      s.(worker := RolledBack(s.worker.job, ExecResult(s.worker.result.shown, false, None)))
    else s.(worker := Reporting(Failed(s.worker.job)))
  }

  function RecommitStep(s: Sys, ok: bool): Sys {
    if !s.worker.RolledBack? then s
    else
      var job, result := s.worker.job, s.worker.result;
      if ok && Persistable(s.db, job.fix, result, job.approval, job.approval.Some?) then
        Logs(s, job, result, job.approval.Some?)
      else s.(worker := Reporting(Failed(job)))
  }

  function ReportStep(s: Sys): Sys {
    if s.worker.Reporting? then s.(outcomes := s.outcomes + [s.worker.out], worker := Idle) else s
  }

  // --- the process ---

  // Everything in memory is lost; startup requeues approved rows and loads the queue.
  ghost function RestartStep(s: Sys, requeued: bool, loaded: bool): Sys {
    var t := s.(db := if requeued then s.db.(rows := Requeued(s.db.rows)) else s.db,
                pending := map[], inFlight := {}, queue := [], worker := Idle, outcomes := [], loop := Ready);
    var u := if loaded then Reload(t) else t;
    u.(trace := s.trace + [Restarted(HandedBack(s.db.rows, u.db.rows))])
  }

  function HandedBack(before: Table, after: Table): Table {
    map id | id in before && before[id].status == Approved && id in after && after[id].status == Pending :: after[id]
  }

  ghost function Next(s: Sys, step: Step): Sys {
    match step
    case Tick(d) => s.(now := s.now + d)
    case Propose(fix, stored) => ProposeStep(s, fix, stored)
    case Approve(id, commits) => ApproveStep(s, id, commits)
    case Reject(id, commits, deleted) => RejectStep(s, id, commits, deleted)
    case Ignore(id, deleted) => IgnoreStep(s, id, deleted)
    case PreflightPass => PreflightPassStep(s)
    case PreflightResolve => PreflightResolveStep(s)
    case PreflightRetry => PreflightRetryStep(s)
    case Enqueue => EnqueueStep(s)
    case DropRow(deleted) => DropRowStep(s, deleted)
    case AutoCheck(fix) => AutoCheckStep(s, fix)
    case AutoEnqueue => AutoEnqueueStep(s)
    case Fold(loaded) => FoldStep(s, loaded)
    case Retire => s.(db := s.db.(rows := DropRejected(s.db.rows)))
    case UndoMark(id, undone) => UndoMarkStep(s, id, undone)
    case UndoReport(success) => s.(outcomes := s.outcomes + [Outcome("", false, success, None, false, None)])
    case Start => StartStep(s)
    case Finish(result) => FinishStep(s, result, false)
    case Abandon => if s.worker.Executing? then FinishStep(s, Synthetic(s.worker.job), true) else s
    case Persist(ok) => PersistStep(s, ok)
    case Rollback(ok) => RollbackStep(s, ok)
    case Recommit(ok) => RecommitStep(s, ok)
    case Report => ReportStep(s)
    case Prune => s.(db := s.db.(log := Pruned(s.db.log, s.now - s.retention)))
    case Restart(requeued, loaded) => RestartStep(s, requeued, loaded)
  }

  // A freshly started service on a table a load has repaired, whose log keeps the gate.
  ghost predicate Init(s: Sys) {
    && CleanTable(s.db.rows) && (forall id | id in s.db.rows :: id < s.db.nextRow)
    && s.pending == Cards(s.db.rows)
    && s.inFlight == {} && s.queue == [] && s.worker == Idle && s.outcomes == [] && s.loop == Ready
    && (forall id | id in s.db.undos :: id < s.db.nextUndo)
    && s.hist == s.db.log && s.db.nextExec == s.firstExec + |s.hist|
    && Chronological(s.hist) && (forall i | 0 <= i < |s.hist| :: s.hist[i].at <= s.now)
    && Respected(s.hist, s.window)
    && s.trace == []
  }

  ghost function Play(s: Sys, steps: seq<Step>): Sys
    decreases |steps|
  {
    if steps == [] then s else Play(Next(s, steps[0]), steps[1..])
  }
}
