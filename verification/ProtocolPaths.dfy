// What the protocol does when nothing gets in the way, and what becomes of a card on each
// way it can end (eir-svc/src/main.rs).
module ProtocolPaths {
  import opened Wrappers
  import opened Actions
  import opened Approvals
  import opened Ledger
  import opened Registry
  import opened Store
  import opened Protocol
  import opened ProtocolTables
  import opened ProtocolRuns
  import opened ProtocolTheorems

  // --- a new card ---

  // A fix that needs approval becomes a card exactly if it could be stored, no card of its
  // issue is queued, it is not executing, and the table has room and no active row of it.
  lemma NewCardIff(s: Sys, fix: Fix, stored: bool)
    requires TableOk(s.db) && CardsOk(s) && s.loop.Ready?
    ensures var t, id := Next(s, Propose(fix, stored)), s.db.nextRow;
            && (t == s || (t.pending == s.pending[id := fix] && t.trace == s.trace && id !in s.db.rows
                           && t.db.rows == s.db.rows[id := Row(Pending, Some(fix.key), Some(fix), false, true)]))
            && (t != s <==>
                  && stored && fix.key !in s.inFlight
                  && (forall i | i in s.pending :: s.pending[i].key != fix.key)
                  && |ActiveIds(s.db.rows)| < 256
                  && (forall i | Active(s.db.rows, i) :: s.db.rows[i].key != Some(fix.key)))
  {
    var t := Next(s, Propose(fix, stored));
    assert t != s ==> t.db.nextRow != s.db.nextRow;
    hide CleanTable, ActiveIds;
  }

  // --- an approved card ---

  // The user approves, the safety checks pass, the job is queued.
  ghost function ApprovalSteps(s: Sys, id: nat): Sys {
    Next(Next(Next(s, Approve(id, true)), PreflightPass), Enqueue)
  }

  predicate CanApprove(s: Sys, id: nat, fix: Fix) {
    s.loop.Ready? && Holds(s.db.rows, id, Pending, fix) && Parses(s.db.rows[id])
  }

  lemma ApprovalQueues(s: Sys, id: nat, fix: Fix)
    requires CanApprove(s, id, fix)
    requires !RateLimited(s.db.log, fix, s.now, s.window) && fix.key !in s.inFlight
    ensures ApprovalSteps(s, id)
            == s.(db := s.db.(rows := s.db.rows[id := s.db.rows[id].(status := Approved)]),
                  pending := s.pending - {id}, inFlight := s.inFlight + {fix.key},
                  queue := s.queue + [Job(fix, Some(id), s.now)], trace := s.trace + [Claim(id, fix.key)])
  {
    hide RateLimited;
    var a := Next(s, Approve(id, true));
    assert a.loop == Claiming(id, fix);
    var b := Next(a, PreflightPass);
    assert b.loop == Checked(id, fix, s.now);
  }

  // A duplicate of a running fix, and a fix that policy or the gate now refuses, are dropped
  // without being queued.
  lemma DuplicateIsDropped(s: Sys, id: nat, fix: Fix)
    requires CanApprove(s, id, fix)
    requires !RateLimited(s.db.log, fix, s.now, s.window) && fix.key in s.inFlight
    ensures var t := Next(ApprovalSteps(s, id), DropRow(true));
            t == s.(db := s.db.(rows := s.db.rows - {id}), pending := s.pending - {id},
                    trace := s.trace + [Claim(id, fix.key), Dropped(id)])
  {
    hide RateLimited;
    var a := Next(s, Approve(id, true));
    var b := Next(a, PreflightPass);
    assert b.loop == Checked(id, fix, s.now);
    assert b.trace + [Dropped(id)] == s.trace + [Claim(id, fix.key), Dropped(id)];
    assert s.db.rows[id := s.db.rows[id].(status := Approved)] - {id} == s.db.rows - {id};
  }

  lemma RefusedIsDropped(s: Sys, id: nat, fix: Fix)
    requires CanApprove(s, id, fix)
    ensures var t := Next(Next(Next(s, Approve(id, true)), PreflightResolve), DropRow(true));
            t == s.(db := s.db.(rows := s.db.rows - {id}), pending := s.pending - {id},
                    trace := s.trace + [Claim(id, fix.key), Dropped(id)])
  {
    var a := Next(s, Approve(id, true));
    assert a.loop == Claiming(id, fix);
    assert a.trace + [Dropped(id)] == s.trace + [Claim(id, fix.key), Dropped(id)];
    assert s.db.rows[id := s.db.rows[id].(status := Approved)] - {id} == s.db.rows - {id};
  }

  // A check that could not complete leaves the row approved, and startup hands it back.
  lemma UncheckedStaysApproved(s: Sys, id: nat, fix: Fix)
    requires CanApprove(s, id, fix)
    ensures var t := Next(Next(s, Approve(id, true)), PreflightRetry);
            t == s.(db := s.db.(rows := s.db.rows[id := s.db.rows[id].(status := Approved)]),
                    pending := s.pending - {id}, trace := s.trace + [Claim(id, fix.key)])
  {
  }

  // --- an autonomous fix ---

  lemma AutonomousFixIsQueued(s: Sys, fix: Fix)
    requires s.loop.Ready? && !RateLimited(s.db.log, fix, s.now, s.window)
    requires fix.key !in s.inFlight && forall i | i in s.pending :: s.pending[i].key != fix.key
    ensures Next(Next(s, AutoCheck(fix)), AutoEnqueue)
            == s.(inFlight := s.inFlight + {fix.key}, queue := s.queue + [Job(fix, None, s.now)])
  {
    hide RateLimited;
  }

  // One that is running, or waits for approval, is not queued again.
  lemma AutonomousFixIsSkipped(s: Sys, fix: Fix)
    requires s.loop.Ready?
    requires fix.key in s.inFlight || exists i | i in s.pending :: s.pending[i].key == fix.key
    ensures Next(Next(s, AutoCheck(fix)), AutoEnqueue) == s
  {
    hide RateLimited;
  }

  // --- the worker takes a job through ---

  predicate AtHead(s: Sys, job: Job) {
    s.loop.Ready? && s.worker.Idle? && s.outcomes == [] && s.queue != [] && s.queue[0] == job
  }

  ghost function WorkedOff(s: Sys, result: ExecResult, loaded: bool): Sys {
    Next(Next(Next(Next(Next(s, Start), Finish(result)), Persist(true)), Report), Fold(loaded))
  }

  ghost function GivenUp(s: Sys, loaded: bool): Sys {
    Next(Next(Next(Next(Next(s, Start), Abandon), Persist(true)), Report), Fold(loaded))
  }

  predicate WellFormed(fix: Fix, result: ExecResult) {
    if fix.reset && result.success then result.undo.Some? && Complete(result.undo.value) else result.undo.None?
  }

  // A fix that ran to its end is logged, its card is gone, its undo is stored, and its key
  // is free again.
  lemma FinishedJobSettles(s: Sys, job: Job, result: ExecResult, loaded: bool)
    requires AtHead(s, job) && JobHolds(s.db.rows, job) && WellFormed(job.fix, result)
    ensures var t := WorkedOff(s, result, loaded);
            && t.db.log == s.db.log + [LogRow(Some(job.fix.key), result.shown, result.success, s.now)]
            && t.db.rows == (if job.approval.Some? then s.db.rows - {job.approval.value} else s.db.rows)
            && t.db.undos == (if result.undo.None? then s.db.undos
                              else s.db.undos[s.db.nextUndo := UndoRow(result.undo.value, s.db.nextExec, false)])
            && t.inFlight == s.inFlight - {job.fix.key} && t.queue == s.queue[1..] && t.pending == s.pending
            && t.worker.Idle? && t.outcomes == [] && t.loop.Ready?
            && Run(job.approval, job.fix.key) in t.trace
  {
    var a := Next(s, Start);
    assert a.worker == Executing(job);
    var b := Next(a, Finish(result));
    assert b.worker == Finished(job, result, false) && b.db == s.db && b.now == s.now;
    assert Persistable(b.db, job.fix, result, job.approval, false);
    var c := Next(b, Persist(true));
    assert c == Logs(b, job, result, false);
    assert a.trace[|s.trace|] == Run(job.approval, job.fix.key) && a.trace <= c.trace;
    SettledOutcome(c, loaded);
    hide Persistable, Logs, Loaded, Cards, StartStep, FinishStep, PersistStep, ReportStep, FoldStep;
  }

  // An outcome without a reload is folded in.
  lemma SettledOutcome(c: Sys, loaded: bool)
    requires c.worker.Reporting? && c.outcomes == [] && c.loop.Ready?
    ensures var t := Next(Next(c, Report), Fold(loaded));
            && t.inFlight == c.inFlight - {c.worker.out.key} && t.worker == Idle && t.outcomes == []
            && t.queue == c.queue && t.loop == c.loop && t.trace == c.trace
            && t.db == (if c.worker.out.refresh && loaded then c.db.(rows := Loaded(c.db.rows)) else c.db)
            && t.pending == if c.worker.out.refresh && loaded then Cards(Loaded(c.db.rows)) else c.pending
  {
    hide Loaded, Cards;
    var d := Next(c, Report);
    assert d == c.(outcomes := [c.worker.out], worker := Idle);
  }

  // What the worker holds once it has logged a fix that it had to give up.
  ghost function GivenUpLogged(s: Sys): Sys {
    Next(Next(Next(s, Start), Abandon), Persist(true))
  }

  lemma GivenUpJobIsLogged(s: Sys, job: Job)
    requires AtHead(s, job) && job.approval.Some? && JobHolds(s.db.rows, job)
    ensures var c, id := GivenUpLogged(s), job.approval.value;
            && c.db.log == s.db.log + [LogRow(Some(job.fix.key), job.fix.shown, false, s.now)]
            && id in s.db.rows && c.db.rows == s.db.rows[id := s.db.rows[id].(status := Pending)]
            && c.worker.Reporting? && c.worker.out.refresh && c.worker.out.key == job.fix.key
            && c.inFlight == s.inFlight && c.queue == s.queue[1..] && c.outcomes == [] && c.loop.Ready?
  {
    var result := ExecResult(job.fix.shown, false, None);
    var a := Next(s, Start);
    assert a.worker == Executing(job);
    var b := Next(a, Abandon);
    assert b.worker == Finished(job, result, true) && b.db == s.db && b.now == s.now;
    assert Persistable(b.db, job.fix, result, job.approval, true);
    assert Next(b, Persist(true)) == Logs(b, job, result, true);
  }

  // A fix that panicked or timed out is logged as a failure, and its card comes back to the
  // user unchanged.
  lemma GivenUpJobComesBack(s: Sys, job: Job)
    requires TableOk(s.db) && AtHead(s, job) && job.approval.Some? && JobHolds(s.db.rows, job)
    ensures var t, id := GivenUp(s, true), job.approval.value;
            && t.db.log == s.db.log + [LogRow(Some(job.fix.key), job.fix.shown, false, s.now)]
            && id in s.db.rows && id in t.db.rows && t.db.rows[id] == s.db.rows[id].(status := Pending)
            && id in t.pending && t.pending[id] == job.fix
            && t.inFlight == s.inFlight - {job.fix.key} && t.queue == s.queue[1..] && t.worker.Idle?
  {
    GivenUpJobIsLogged(s, job);
    CardIsBack(s.db.rows, job.approval.value, job.fix);
    hide Next, Loaded, Cards, CleanTable;
    SettledOutcome(GivenUpLogged(s), true);
  }

  // Setting one approved row back to pending and loading puts its card in the queue.
  lemma CardIsBack(t: Table, id: nat, fix: Fix)
    requires CleanTable(t) && Holds(t, id, Approved, fix)
    ensures var rows := Loaded(t[id := t[id].(status := Pending)]);
            && id in rows && rows[id] == t[id].(status := Pending)
            && id in Cards(rows) && Cards(rows)[id] == fix
  {
    var u := t[id := t[id].(status := Pending)];
    FewerKeepsClean(t, u);
    LoadShrinks(u);
    hide CleanTable, Loaded;
    assert Active(u, id);
  }

  // --- a rejected card ---

  ghost predicate Gone(s: Sys, id: nat) {
    id < s.db.nextRow && !Active(s.db.rows, id) && id !in s.pending
  }

  lemma GoneStays(s: Sys, step: Step, id: nat)
    requires QueueOk(s) && Gone(s, id)
    ensures Gone(Next(s, step), id)
  {
    var t := Next(s, step);
    QueueStays(s, step);
    if step.Propose? {
      assert id != s.db.nextRow;
      hide Insertable, Queued, CleanTable, InFlightOk, TicketsOk;
    } else {
      StepShrinks(s, step);
      hide Next, CleanTable, InFlightOk, TicketsOk;
      assert !Active(t.db.rows, id);
      assert id in t.pending ==> Holds(t.db.rows, id, Pending, t.pending[id]);
    }
  }

  lemma {:induction false} GoneForGood(s: Sys, steps: seq<Step>, id: nat)
    requires QueueOk(s) && Gone(s, id)
    ensures Gone(Play(s, steps), id)
    decreases |steps|
  {
    hide Next, Gone, QueueOk;
    if steps == [] {
    } else {
      GoneStays(s, steps[0], id);
      QueueStays(s, steps[0]);
      GoneForGood(Next(s, steps[0]), steps[1..], id);
    }
  }

  // Once a rejection is recorded, whether or not the row could be deleted too, the card is
  // never active again, on any run and after any restart, and so it can never be approved.
  lemma RejectedIsFinal(s: Sys, id: nat, deleted: bool, steps: seq<Step>)
    requires QueueOk(s) && s.loop.Ready? && Claimable(s.db.rows, id)
    ensures var t := Play(Next(s, Reject(id, true, deleted)), steps);
            && !Active(t.db.rows, id) && id !in t.pending && !Claimable(t.db.rows, id)
  {
    var r := Next(s, Reject(id, true, deleted));
    QueueStays(s, Reject(id, true, deleted));
    assert Gone(r, id);
    hide Next, QueueOk, Play;
    GoneForGood(r, steps, id);
  }

  lemma IgnoredIsFinal(s: Sys, id: nat, steps: seq<Step>)
    requires QueueOk(s) && s.loop.Ready? && id in s.pending
    ensures var t := Play(Next(s, Ignore(id, true)), steps);
            && !Active(t.db.rows, id) && id !in t.pending && !Claimable(t.db.rows, id)
  {
    var r := Next(s, Ignore(id, true));
    QueueStays(s, Ignore(id, true));
    assert Gone(r, id);
    hide Next, QueueOk, Play;
    GoneForGood(r, steps, id);
  }

  // --- a restart ---

  lemma RequeuedCard(t: Table, id: nat)
    requires CleanTable(t) && Active(t, id)
    ensures CleanTable(Requeued(t))
    ensures var rows := Loaded(Requeued(t));
            && id in rows && rows[id] == t[id].(status := Pending)
            && id in Cards(rows) && Some(Cards(rows)[id]) == t[id].fix
  {
    var u := Requeued(t);
    FewerKeepsClean(t, u);
    LoadShrinks(u);
    assert u[id] == t[id].(status := Pending) && t[id].fix.Some?;
    hide CleanTable, Loaded, Requeued;
    assert Active(u, id);
  }

  // The cards after a restart are the rows that were active before it.
  ghost predicate HandsBack(s: Sys, t: Sys) {
    && (forall id | Active(s.db.rows, id) ::
          && id in t.db.rows && t.db.rows[id] == s.db.rows[id].(status := Pending)
          && id in t.pending && Some(t.pending[id]) == s.db.rows[id].fix)
    && (forall id | Active(t.db.rows, id) :: Active(s.db.rows, id))
  }

  lemma RestartKeepsCards(s: Sys)
    requires TableOk(s.db)
    ensures HandsBack(s, Next(s, Restart(true, true)))
  {
    hide HandsBack, RestartStep, TableOk;
    RestartStepKeepsCards(s);
    RestartIsOneStep(s);
    hide Next;
  }

  lemma RestartIsOneStep(s: Sys)
    ensures Next(s, Restart(true, true)) == RestartStep(s, true, true)
  {
    hide RestartStep;
  }

  lemma RestartStepKeepsCards(s: Sys)
    requires TableOk(s.db)
    ensures HandsBack(s, RestartStep(s, true, true))
  {
    var t, rows := RestartStep(s, true, true), Loaded(Requeued(s.db.rows));
    RestartLeaves(s, true, true);
    RestartShrinks(s, true, true);
    hide RestartStep, CleanTable, Loaded, Requeued, Cards;
    forall id | Active(s.db.rows, id)
      ensures && id in rows && rows[id] == s.db.rows[id].(status := Pending)
              && id in Cards(rows) && Some(Cards(rows)[id]) == s.db.rows[id].fix
    {
      RequeuedCard(s.db.rows, id);
    }
  }

  // After a restart in any state of any run, with the two startup statements working, every
  // card that was pending or approved is a pending card again, holding the same fix; no
  // other row is active.
  lemma RestartHandsBack(s: Sys, steps: seq<Step>)
    requires Init(s)
    ensures HandsBack(Play(s, steps), Next(Play(s, steps), Restart(true, true)))
  {
    SoundAtStart(s);
    AlwaysSound(s, steps);
    hide Init, Play, RunsOk, ClaimsOk, InFlightOk, CardsOk, TicketsOk, TableOk, HandsBack, Next;
    RestartKeepsCards(Play(s, steps));
  }

  // And nothing is queued, running or waiting to be folded in.
  lemma RestartForgetsWork(s: Sys, requeued: bool, loaded: bool)
    ensures var t := Next(s, Restart(requeued, loaded));
            t.inFlight == {} && t.queue == [] && t.worker.Idle? && t.outcomes == [] && t.loop.Ready?
  {
    hide Loaded, Cards, Requeued, HandedBack;
  }
}
