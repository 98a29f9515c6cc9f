// The rate limit read before a job is queued still holds when its row is written, and a
// reset is reported successful only with a stored undo.
module ProtocolGate {
  import opened Wrappers
  import opened Actions
  import opened Approvals
  import opened Ledger
  import opened Registry
  import opened Store
  import opened Protocol
  import opened ProtocolTables

  // The stored log is the full history without rows too old for the gate to count.
  ghost predicate LogKept(log: seq<LogRow>, hist: seq<LogRow>, now: int, window: nat) {
    && |log| <= |hist|
    && var gone := |hist| - |log|;
       && log == hist[gone..]
       && (forall i | 0 <= i < gone :: hist[i].at <= now - window)
       && Chronological(hist) && (forall i | 0 <= i < |hist| :: hist[i].at <= now)
       && Respected(hist, window)
  }

  ghost predicate LogOk(s: Sys) {
    s.window <= s.retention + 1 && LogKept(s.db.log, s.hist, s.now, s.window)
  }

  // The gate passed at `at`, and no row of the key has been written since.
  ghost predicate Cleared(hist: seq<LogRow>, now: int, window: nat, key: string, at: int) {
    at <= now && Quiet(Since(hist, key, at - window))
  }

  ghost predicate JobCleared(s: Sys, job: Job) {
    Cleared(s.hist, s.now, s.window, job.fix.key, job.gateAt)
  }

  ghost predicate GateOk(s: Sys) {
    && (forall i | 0 <= i < |s.queue| :: JobCleared(s, s.queue[i]))
    && (WorkerJob(s.worker).Some? ==> JobCleared(s, WorkerJob(s.worker).value))
    && (s.loop.Checked? || s.loop.AutoChecked? ==>
          s.loop.fix.key in s.inFlight || Cleared(s.hist, s.now, s.window, s.loop.fix.key, s.loop.gateAt))
  }

  lemma GateRead(s: Sys, fix: Fix)
    requires LogOk(s) && !RateLimited(s.db.log, fix, s.now, s.window)
    ensures Cleared(s.hist, s.now, s.window, fix.key, s.now)
  {
    hide RateLimited, Quiet, LogKept;
    GatePassed(s.db.log, fix, s.now, s.window);
    StoredLogIsEnough(s.db.log, s.hist, s.now, s.window, fix.key);
  }

  // The rows that retention removed are too old for the window.
  lemma StoredLogIsEnough(log: seq<LogRow>, hist: seq<LogRow>, now: int, window: nat, key: string)
    requires LogKept(log, hist, now, window)
    ensures Since(hist, key, now - window) == Since(log, key, now - window)
  {
    hide Respected, Chronological;
    var gone := |hist| - |log|;
    assert hist == hist[..gone] + log;
    hide Since;
    SinceDropsOld(hist[..gone], log, key, now - window);
  }

  lemma LogKeptPrune(log: seq<LogRow>, hist: seq<LogRow>, now: int, window: nat, n: nat)
    requires LogKept(log, hist, now, window) && n <= |log| && forall i | 0 <= i < n :: log[i].at <= now - window
    ensures LogKept(log[n..], hist, now, window)
  {
    hide Respected, Chronological;
    var gone := |hist| - |log|;
    forall i | 0 <= i < gone + n ensures hist[i].at <= now - window {
      assert i >= gone ==> hist[i] == log[i - gone];
    }
  }

  lemma StoredLogInOrder(log: seq<LogRow>, hist: seq<LogRow>, now: int, window: nat)
    requires LogKept(log, hist, now, window)
    ensures Chronological(log)
  {
    hide Respected;
    assert forall i | 0 <= i < |log| :: log[i] == hist[|hist| - |log| + i];
  }

  lemma LogAfterPrune(s: Sys)
    requires LogOk(s)
    ensures LogOk(Next(s, Prune))
  {
    hide Respected;
    StoredLogInOrder(s.db.log, s.hist, s.now, s.window);
    hide Chronological, LogKept;
    var n := PruningDropsAPrefix(s.db.log, s.now - s.retention);
    LogKeptPrune(s.db.log, s.hist, s.now, s.window, n);
    hide LogKept, Pruned;
  }

  lemma LogKeptAppend(log: seq<LogRow>, hist: seq<LogRow>, now: int, window: nat, r: LogRow)
    requires LogKept(log, hist, now, window) && r.at == now && Respected(hist + [r], window)
    ensures LogKept(log + [r], hist + [r], now, window)
  {
    hide Respected;
    var gone := |hist| - |log|;
    assert (hist + [r])[gone..] == hist[gone..] + [r];
  }

  // A job whose gate is still clear may write its row.
  lemma LogAfterCommit(s: Sys, job: Job, result: ExecResult, requeue: bool)
    requires LogOk(s) && JobCleared(s, job)
    requires Persistable(s.db, job.fix, result, job.approval, requeue)
    ensures LogOk(Logs(s, job, result, requeue))
  {
    hide Quiet, Since, Persistable, Settled, Chronological;
    var r := LoggedRow(job.fix, result, s.now);
    StaysQuiet(s.hist, job.fix.key, job.gateAt - s.window, s.now - s.window);
    RespectedAppend(s.hist, r, s.window);
    hide Respected;
    LogKeptAppend(s.db.log, s.hist, s.now, s.window, r);
    hide LogKept;
  }

  lemma ClearedElsewhere(hist: seq<LogRow>, now: int, window: nat, r: LogRow, key: string, at: int)
    requires Cleared(hist, now, window, key, at) && r.key != Some(key)
    ensures Cleared(hist + [r], now, window, key, at)
  {
    SinceAppend(hist, r, key, at - window);
  }

  lemma GateAfterCommit(s: Sys, result: ExecResult, requeue: bool)
    requires InFlightOk(s) && GateOk(s) && WorkerJob(s.worker).Some?
    requires var job := WorkerJob(s.worker).value; Persistable(s.db, job.fix, result, job.approval, requeue)
    ensures GateOk(Logs(s, WorkerJob(s.worker).value, result, requeue))
  {
    hide Persistable, Settled, Cleared;
    var job := WorkerJob(s.worker).value;
    var t, r := Logs(s, job, result, requeue), LoggedRow(job.fix, result, s.now);
    WorkerKeyInFlight(s);
    forall i | 0 <= i < |t.queue| ensures JobCleared(t, t.queue[i]) {
      WorkerKeyNotQueued(s, i);
      assert JobCleared(s, s.queue[i]);
      ClearedElsewhere(s.hist, s.now, s.window, r, s.queue[i].fix.key, s.queue[i].gateAt);
    }
    if (s.loop.Checked? || s.loop.AutoChecked?) && s.loop.fix.key !in s.inFlight {
      ClearedElsewhere(s.hist, s.now, s.window, r, s.loop.fix.key, s.loop.gateAt);
    }
  }

  lemma WorkerKeyInFlight(s: Sys)
    requires InFlightOk(s) && WorkerJob(s.worker).Some?
    ensures s.worker.job.fix.key in s.inFlight
  {
    assert Pipeline(s)[|OutcomeKeys(s.outcomes)|] == s.worker.job.fix.key;
  }

  lemma GateOnPersist(s: Sys, ok: bool)
    requires InFlightOk(s) && LogOk(s) && GateOk(s)
    ensures LogOk(PersistStep(s, ok)) && GateOk(PersistStep(s, ok))
    ensures LogOk(RecommitStep(s, ok)) && GateOk(RecommitStep(s, ok))
  {
    hide InFlightOk, Cleared, LogKept;
    if s.worker.Finished? || s.worker.RolledBack? {
      var job, result := s.worker.job, s.worker.result;
      var requeue := job.approval.Some? && (s.worker.RolledBack? || s.worker.synthetic);
      if Persistable(s.db, job.fix, result, job.approval, requeue) {
        hide Persistable;
        LogAfterCommit(s, job, result, requeue);
        GateAfterCommit(s, result, requeue);
        hide LogOk, GateOk, Logs;
      }
    }
  }

  lemma GateOnTick(s: Sys, elapsed: nat)
    requires LogOk(s) && GateOk(s)
    ensures var t := Next(s, Tick(elapsed)); LogOk(t) && GateOk(t)
  {
    hide Respected, Quiet, Chronological;
  }

  lemma GateOnSend(s: Sys, job: Job)
    requires LogOk(s) && GateOk(s) && JobCleared(s, job)
    ensures LogOk(Send(s, job)) && GateOk(Send(s, job))
  {
    hide Cleared, LogKept;
  }

  lemma GateOnStart(s: Sys)
    requires LogOk(s) && GateOk(s)
    ensures LogOk(StartStep(s)) && GateOk(StartStep(s))
  {
    hide Cleared, LogKept;
  }

  lemma GateOnEnqueue(s: Sys)
    requires LogOk(s) && GateOk(s)
    ensures LogOk(EnqueueStep(s)) && GateOk(EnqueueStep(s))
  {
    hide Cleared, LogKept;
    if s.loop.Checked? && s.loop.fix.key !in s.inFlight {
      GateOnSend(s, Job(s.loop.fix, Some(s.loop.id), s.loop.gateAt));
      hide Send, GateOk, LogOk;
    }
  }

  lemma GateOnAutoEnqueue(s: Sys)
    requires LogOk(s) && GateOk(s)
    ensures LogOk(AutoEnqueueStep(s)) && GateOk(AutoEnqueueStep(s))
  {
    hide Cleared, LogKept, Queued;
    if s.loop.AutoChecked? && s.loop.fix.key !in s.inFlight {
      GateOnSend(s, Job(s.loop.fix, None, s.loop.gateAt));
    }
  }

  lemma GateOnAutoCheck(s: Sys, fix: Fix)
    requires LogOk(s) && GateOk(s)
    ensures LogOk(AutoCheckStep(s, fix)) && GateOk(AutoCheckStep(s, fix))
  {
    if !RateLimited(s.db.log, fix, s.now, s.window) { GateRead(s, fix); }
    hide Cleared, LogKept, RateLimited;
  }

  lemma GateOnPreflight(s: Sys)
    requires LogOk(s) && GateOk(s)
    ensures LogOk(PreflightPassStep(s)) && GateOk(PreflightPassStep(s))
  {
    if s.loop.Claiming? && !RateLimited(s.db.log, s.loop.fix, s.now, s.window) { GateRead(s, s.loop.fix); }
    hide Cleared, LogKept, RateLimited;
  }

  predicate MovesGate(step: Step) {
    Commits(step) || step.Tick? || step.Prune? || step.Enqueue? || step.AutoEnqueue? || step.PreflightPass?
    || step.AutoCheck? || step.Start?
  }

  // The other steps write no row, move no clock and queue no job.
  lemma GateElsewhere(s: Sys, step: Step)
    requires LogOk(s) && GateOk(s) && !MovesGate(step)
    ensures LogOk(Next(s, step)) && GateOk(Next(s, step))
  {
    hide Cleared, LogKept, Loaded, Cards, Claimable, Insertable, Requeued, IdsWith, Queued;
  }

  lemma GateOnPrune(s: Sys)
    requires LogOk(s) && GateOk(s)
    ensures LogOk(Next(s, Prune)) && GateOk(Next(s, Prune))
  {
    LogAfterPrune(s);
    hide Cleared, LogKept, Pruned;
  }

  lemma GateStays(s: Sys, step: Step)
    requires InFlightOk(s) && LogOk(s) && GateOk(s)
    ensures LogOk(Next(s, step)) && GateOk(Next(s, step))
  {
    hide InFlightOk, LogOk, GateOk;
    if !MovesGate(step) {
      GateElsewhere(s, step);
      hide Next;
    } else {
      hide PersistStep, RecommitStep, StartStep, EnqueueStep, AutoEnqueueStep, PreflightPassStep, AutoCheckStep;
      match step
      case Persist(ok) => GateOnPersist(s, ok);
      case Recommit(ok) => GateOnPersist(s, ok);
      case Start => GateOnStart(s);
      case Enqueue => GateOnEnqueue(s);
      case AutoEnqueue => GateOnAutoEnqueue(s);
      case PreflightPass => GateOnPreflight(s);
      case AutoCheck(fix) => GateOnAutoCheck(s, fix);
      case Tick(elapsed) => GateOnTick(s, elapsed); hide Next;
      case Prune => GateOnPrune(s); hide Next;
    }
  }

  // --- resets ---

  // The way back the executor handed over with a reported reset, stored under the id the
  // outcome carries, with the log row of that very reset.
  ghost predicate Durable(db: Db, hist: seq<LogRow>, firstExec: nat, o: Outcome) {
    && o.undoId.Some? && o.undoId.value in db.undos && o.way.Some?
    && var u := db.undos[o.undoId.value];
       && u.undo == o.way.value && Complete(u.undo)
       && firstExec <= u.execution < firstExec + |hist|
       && hist[u.execution - firstExec].key == Some(o.key) && hist[u.execution - firstExec].success
  }

  ghost predicate Backed(s: Sys, o: Outcome) {
    o.reset && o.success ==> Durable(s.db, s.hist, s.firstExec, o)
  }

  ghost predicate ResetsOk(s: Sys) {
    && s.db.nextExec == s.firstExec + |s.hist|
    && (forall id | id in s.db.undos :: id < s.db.nextUndo)
    && (forall i | 0 <= i < |s.outcomes| :: Backed(s, s.outcomes[i]))
    && (s.worker.Reporting? ==> Backed(s, s.worker.out))
  }

  lemma DurableGrows(s: Sys, t: Sys, o: Outcome)
    requires Backed(s, o)
    requires s.hist <= t.hist && t.firstExec == s.firstExec
    requires forall id | id in s.db.undos ::
               id in t.db.undos && t.db.undos[id].(undone := s.db.undos[id].undone) == s.db.undos[id]
    ensures Backed(t, o)
  {
  }

  lemma ResetsAfterCommit(s: Sys, job: Job, result: ExecResult, requeue: bool)
    requires ResetsOk(s) && Persistable(s.db, job.fix, result, job.approval, requeue)
    ensures ResetsOk(Logs(s, job, result, requeue))
  {
    hide Settled, Backed, Durable;
    var t := Logs(s, job, result, requeue);
    forall i | 0 <= i < |t.outcomes| ensures Backed(t, t.outcomes[i]) {
      DurableGrows(s, t, s.outcomes[i]);
    }
    NewUndoIsDurable(s, job, result, requeue);
  }

  lemma NewUndoIsDurable(s: Sys, job: Job, result: ExecResult, requeue: bool)
    requires s.db.nextExec == s.firstExec + |s.hist| && Persistable(s.db, job.fix, result, job.approval, requeue)
    ensures var t := Logs(s, job, result, requeue); Backed(t, t.worker.out)
  {
  }

  // The way back in a reported reset is the one the executor handed over with its result.
  lemma ReportCarriesItsWay(s: Sys, ok: bool)
    requires s.worker.Finished?
    ensures var t := PersistStep(s, ok);
            t.worker.Reporting? && t.worker.out.reset && t.worker.out.success ==>
              t.worker.out.way == s.worker.result.undo && s.worker.result.success
  {
  }

  lemma ResetsOnPersist(s: Sys, ok: bool)
    requires ResetsOk(s)
    ensures ResetsOk(PersistStep(s, ok)) && ResetsOk(RecommitStep(s, ok))
  {
    if s.worker.Finished? || s.worker.RolledBack? {
      var job, result := s.worker.job, s.worker.result;
      var requeue := job.approval.Some? && (s.worker.RolledBack? || s.worker.synthetic);
      if Persistable(s.db, job.fix, result, job.approval, requeue) {
        ResetsAfterCommit(s, job, result, requeue);
        hide Logs, ResetsOk;
      }
    }
  }

  lemma ResetsOnUndoMark(s: Sys, id: nat, undone: bool)
    requires ResetsOk(s)
    ensures ResetsOk(UndoMarkStep(s, id, undone))
  {
    var t := UndoMarkStep(s, id, undone);
    forall i | 0 <= i < |s.outcomes| ensures Backed(t, s.outcomes[i]) {
      DurableGrows(s, t, s.outcomes[i]);
    }
    if s.worker.Reporting? { DurableGrows(s, t, s.worker.out); }
    hide Backed;
  }

  lemma ReportsCarried(s: Sys, t: Sys)
    requires ResetsOk(s) && t.db.undos == s.db.undos && t.hist == s.hist
    requires t.firstExec == s.firstExec && t.db.nextExec == s.db.nextExec && t.db.nextUndo == s.db.nextUndo
    requires forall o | o in t.outcomes :: o in s.outcomes || !o.reset || (s.worker.Reporting? && o == s.worker.out)
    requires t.worker.Reporting? ==> t.worker == s.worker || !t.worker.out.success
    ensures ResetsOk(t)
  {
    forall i | 0 <= i < |t.outcomes| ensures Backed(t, t.outcomes[i]) {
      assert t.outcomes[i] in t.outcomes;
    }
  }

  // The other steps report nothing new but what the worker held, a failure, or an undo.
  lemma ResetsElsewhere(s: Sys, step: Step)
    requires ResetsOk(s) && !Commits(step) && !step.UndoMark?
    ensures ResetsOk(Next(s, step))
  {
    hide Loaded, Cards, Claimable, Insertable, Requeued, IdsWith, Queued, RateLimited, Pruned, ResetsOk;
    ReportsCarried(s, Next(s, step));
  }

  lemma ResetsStay(s: Sys, step: Step)
    requires ResetsOk(s)
    ensures ResetsOk(Next(s, step))
  {
    if Commits(step) || step.UndoMark? {
      hide PersistStep, RecommitStep, UndoMarkStep, ResetsOk;
      match step
      case Persist(ok) => ResetsOnPersist(s, ok);
      case Recommit(ok) => ResetsOnPersist(s, ok);
      case UndoMark(id, undone) => ResetsOnUndoMark(s, id, undone);
    } else {
      ResetsElsewhere(s, step);
      hide Next, ResetsOk;
    }
  }
}
