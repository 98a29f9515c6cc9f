// How the executor worker settles one finished action: the commit, the rollback of a reset
// whose undo could not be stored, and the outcome it reports (eir-svc/src/main.rs).
module Executor {
  import opened Wrappers
  import opened Actions
  import opened Approvals
  import opened Ledger
  import opened Registry
  import opened Store
  import opened AuditDb
  import opened Protocol

  class LiveRegistry {
    var values: map<string, Scalar>

    function At(target: string): Live
      reads this
    {
      if target in values then Some(values[target]) else None
    }

    constructor (values: map<string, Scalar>)
      ensures this.values == values
    {
      this.values := values;
    }

    // Guarded restore. `works` says that the script ran to its end; one that did not may
    // have written the value (`wrote`) or not, but never past the guard.
    method RestoreValue(u: Undo, works: bool, wrote: bool) returns (ok: bool)
      modifies this
      ensures ok <==> works && Restorable(old(At(u.target)), u)
      ensures At(u.target) == old(At(u.target)) || (Restorable(old(At(u.target)), u) && At(u.target) == Prior(u))
      ensures ok ==> At(u.target) == Prior(u)
      ensures forall other | other != u.target :: At(other) == old(At(other))
    {
      if !Complete(u) || At(u.target) != Applied(u) {
        return false;
      }
      if works || wrote {
        values := if u.priorExisted then values[u.target := Scalar(u.priorKind.value, u.priorData.value)]
                  else values - {u.target};
      }
      return works;
    }
  }

  // Where the two transactions fail, if they do, and what becomes of the restore.
  datatype Faults = Faults(commitAt: nat, restoreWorks: bool, restoreWrote: bool, recommitAt: nat)

  predicate Passes(failAt: nat) {
    !(1 <= failAt <= 5)
  }

  // The same work as steps of the protocol.
  function WorkerSteps(s: Sys, f: Faults, restored: bool): Sys {
    RecommitStep(RollbackStep(PersistStep(s, Passes(f.commitAt)), restored), Passes(f.recommitAt))
  }

  function Requeues(synthetic: bool, job: Job): bool {
    synthetic && job.approval.Some?
  }

  // Those steps, by how far the work got.
  lemma WorkerStepsAre(s: Sys, f: Faults, restored: bool)
    requires s.worker.Finished?
    ensures var job, result, t := s.worker.job, s.worker.result, WorkerSteps(s, f, restored);
            var requeue, failure := Requeues(s.worker.synthetic, job), ExecResult(result.shown, false, None);
            if Passes(f.commitAt) && Persistable(s.db, job.fix, result, job.approval, requeue) then
              t == Logs(s, job, result, requeue)
            else if !(result.success && job.fix.reset) then
              t == s.(worker := Reporting(Outcome(job.fix.key, job.fix.reset, result.success, None, false, None)))
            else if result.undo.Some? && restored && Complete(result.undo.value)
                    && Passes(f.recommitAt) && Persistable(s.db, job.fix, failure, job.approval, job.approval.Some?) then
              t == Logs(s.(worker := RolledBack(job, failure)), job, failure, job.approval.Some?)
            else t == s.(worker := Reporting(Protocol.Failed(job)))
  {
    hide Persistable, Passes;
  }

  // The committed reset `undo` of `key` can be found from the id the outcome carries.
  predicate UndoStored(db: Db, id: Option<nat>, undo: Undo, execution: nat) {
    id.Some? && id.value in db.undos && db.undos[id.value] == UndoRow(undo, execution, false)
  }

  predicate StillApproved(t: Table, job: Job) {
    job.approval.Some? ==> job.approval.value in t && t[job.approval.value].status == Approved
  }

  method SettleJob(db: AuditDb, reg: LiveRegistry, job: Job, result: ExecResult, synthetic: bool, now: int, f: Faults,
                   ghost s: Sys) returns (out: Outcome, ghost restored: bool)
    requires db.Valid() && s.db == db.View() && s.now == now && s.worker == Finished(job, result, synthetic)
    requires synthetic ==> !result.success
    requires StillApproved(db.rows, job)
    modifies db, reg
    ensures db.Valid()
    // It is what the worker's steps do in the protocol.
    ensures WorkerSteps(s, f, restored).db == db.View() && WorkerSteps(s, f, restored).worker == Reporting(out)
    // A reset is reported successful only with its log row and its undo stored.
    ensures job.fix.reset && out.success ==>
              && result.success && result.undo.Some?
              && UndoStored(db.View(), out.undoId, result.undo.value, old(db.nextExec))
              && db.log == old(db.log) + [LoggedRow(job.fix, result, now)]
    // A reset that ran but is not reported successful was put back to its exact prior type
    // and data, or else nothing was committed and any approved row still stands.
    ensures job.fix.reset && result.success && !out.success ==>
              || (result.undo.Some? && Complete(result.undo.value)
                  && reg.At(result.undo.value.target) == Prior(result.undo.value))
              || (db.View() == old(db.View()) && StillApproved(db.rows, job))
    // At most one row is logged: under the job's key, now, and as successful as reported.
    ensures || db.View() == old(db.View())
            || db.log == old(db.log) + [LogRow(Some(job.fix.key), result.shown, out.success, now)]
    // One is, if the result is well formed and the first commit is not cut off.
    ensures Passes(f.commitAt) && !(result.success && job.fix.reset) && result.undo.None? ==> db.log != old(db.log)
    ensures Passes(f.commitAt) && result.success && job.fix.reset && result.undo.Some? && Complete(result.undo.value)
            ==> db.log != old(db.log) && out.success
    // A card whose fix panicked or timed out, or whose reset was rolled back, is pending
    // again, and the loop is told to reload; a result of its own removes the card.
    ensures job.approval.Some? && db.log != old(db.log) ==>
              var id := job.approval.value;
              if synthetic || (result.success && !out.success) then
                && id in old(db.rows) && db.rows == old(db.rows)[id := old(db.rows)[id].(status := Pending)]
                && out.refresh
              else db.rows == old(db.rows) - {id} && !out.refresh
    // Nothing else changes in the table.
    ensures job.approval.None? || db.log == old(db.log) ==> db.rows == old(db.rows) && !out.refresh
  {
    var requeue := Requeues(synthetic, job);
    WorkerStepsAre(s, f, false);
    WorkerStepsAre(s, f, true);
    hide WorkerSteps, Settled;
    restored := false;
    var commit := db.PersistExecution(job.fix, result, job.approval, requeue, now, f.commitAt);
    if commit.Some? {
      return Outcome(job.fix.key, job.fix.reset, result.success, commit.value.undoId, requeue, result.undo), false;
    }
    if !(result.success && job.fix.reset) {
      return Outcome(job.fix.key, job.fix.reset, result.success, None, false, None), false;
    }
    if result.undo.None? {
      return Protocol.Failed(job), false;
    }
    var ok := reg.RestoreValue(result.undo.value, f.restoreWorks, f.restoreWrote);
    if !ok {
      return Protocol.Failed(job), false;
    }
    restored := true;
    var failure := ExecResult(result.shown, false, None);
    commit := db.PersistExecution(job.fix, failure, job.approval, job.approval.Some?, now, f.recommitAt);
    if commit.Some? {
      return Outcome(job.fix.key, job.fix.reset, false, commit.value.undoId, job.approval.Some?, None), true;
    }
    return Protocol.Failed(job), true;
  }
}
