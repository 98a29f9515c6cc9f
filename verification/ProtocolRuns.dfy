// One run per click, and no approved action lost: what every step of the protocol keeps
// about its history of claims and runs.
module ProtocolRuns {
  import opened Wrappers
  import opened Actions
  import opened Approvals
  import opened Ledger
  import opened Store
  import opened Protocol
  import opened ProtocolTables

  predicate IsClaim(e: Event, id: nat) {
    e.Claim? && e.id == id
  }

  predicate IsRun(e: Event, id: nat) {
    e.Run? && e.card == Some(id)
  }

  // The user approved the card and it has not run since.
  ghost predicate Armed(trace: seq<Event>, id: nat) {
    exists m :: 0 <= m < |trace| && IsClaim(trace[m], id) && forall n | m < n < |trace| :: !IsRun(trace[n], id)
  }

  ghost predicate RunsArmed(trace: seq<Event>) {
    forall q, id | 0 <= q < |trace| && IsRun(trace[q], id) :: Armed(trace[..q], id)
  }

  // Claims that a job or the loop still holds and the worker has not started.
  ghost predicate Unstarted(s: Sys, id: nat) {
    || (LoopTicket(s.loop).Some? && LoopTicket(s.loop).value.id == id)
    || exists i :: 0 <= i < |s.queue| && s.queue[i].approval == Some(id)
  }

  ghost predicate RunsOk(s: Sys) {
    RunsArmed(s.trace) && forall id | Unstarted(s, id) :: Armed(s.trace, id)
  }

  lemma ArmedAppend(trace: seq<Event>, e: Event, id: nat)
    requires IsClaim(e, id) || (Armed(trace, id) && !IsRun(e, id))
    ensures Armed(trace + [e], id)
  {
    var more := trace + [e];
    if IsClaim(e, id) {
      assert IsClaim(more[|trace|], id);
    } else {
      var m :| 0 <= m < |trace| && IsClaim(trace[m], id) && forall n | m < n < |trace| :: !IsRun(trace[n], id);
      assert IsClaim(more[m], id);
    }
  }

  lemma RunsArmedAppend(trace: seq<Event>, e: Event)
    requires RunsArmed(trace)
    requires e.Run? && e.card.Some? ==> Armed(trace, e.card.value)
    ensures RunsArmed(trace + [e])
  {
    var more := trace + [e];
    forall q, id | 0 <= q < |more| && IsRun(more[q], id) ensures Armed(more[..q], id) {
      if q < |trace| {
        assert more[..q] == trace[..q] && more[q] == trace[q];
      } else {
        assert more[..q] == trace;
      }
    }
  }

  // A step that logs one event which is not a run, and hands out no claim but its own.
  lemma RunsExtend(s: Sys, t: Sys, e: Event)
    requires RunsOk(s) && t.trace == s.trace + [e] && !e.Run?
    requires forall id | Unstarted(t, id) :: Unstarted(s, id) || IsClaim(e, id)
    ensures RunsOk(t)
  {
    RunsArmedAppend(s.trace, e);
    forall id | Unstarted(t, id) ensures Armed(t.trace, id) {
      ArmedAppend(s.trace, e, id);
    }
  }

  // Two queued jobs never carry the same card.
  lemma CardsQueuedOnce(s: Sys, i: nat, j: nat)
    requires QueueOk(s) && i < j < |s.queue|
    ensures s.queue[i].approval.None? || s.queue[i].approval != s.queue[j].approval
  {
    hide CleanTable;
    var p, n := Pipeline(s), |OutcomeKeys(s.outcomes) + WorkerKeys(s.worker)|;
    assert p[n + i] == s.queue[i].fix.key && p[n + j] == s.queue[j].fix.key;
    assert JobHolds(s.db.rows, s.queue[i]) && JobHolds(s.db.rows, s.queue[j]);
  }

  lemma RunsAfterStart(s: Sys)
    requires QueueOk(s) && RunsOk(s)
    ensures RunsOk(StartStep(s))
  {
    hide TableOk, InFlightOk, CardsOk;
    if s.worker.Idle? && s.queue != [] {
      var t, job := StartStep(s), s.queue[0];
      var e := Run(job.approval, job.fix.key);
      if job.approval.Some? { assert Unstarted(s, job.approval.value); }
      RunsArmedAppend(s.trace, e);
      forall id | Unstarted(t, id) ensures Armed(t.trace, id) {
        if LoopTicket(t.loop).Some? && LoopTicket(t.loop).value.id == id {
          assert Unstarted(s, id) && s.queue[0].approval != Some(id);
        } else {
          var i :| 0 <= i < |t.queue| && t.queue[i].approval == Some(id);
          assert s.queue[i + 1].approval == Some(id) && Unstarted(s, id);
          CardsQueuedOnce(s, 0, i + 1);
        }
        ArmedAppend(s.trace, e, id);
      }
    }
  }

  lemma RunsAfterSend(s: Sys, job: Job)
    requires RunsOk(s)
    requires job.approval.Some? ==> Unstarted(s, job.approval.value)
    ensures RunsOk(Send(s, job))
  {
    var t := Send(s, job);
    forall id: nat | Unstarted(t, id) ensures Armed(t.trace, id) {
      var i :| 0 <= i < |t.queue| && t.queue[i].approval == Some(id);
      assert i < |s.queue| ==> s.queue[i].approval == Some(id);
      assert Unstarted(s, id);
    }
  }

  // What the remaining steps do to the history: nothing, or one event.
  lemma TraceStep(s: Sys, step: Step)
    requires !step.Start?
    ensures var t := Next(s, step);
            || t.trace == s.trace
            || (|t.trace| == |s.trace| + 1 && t.trace == s.trace + [t.trace[|s.trace|]] && !t.trace[|s.trace|].Run?)
  {
    hide RateLimited, Persistable, Persisted, Claimable, Insertable, Pruned, Loaded, Cards, IdsWith;
  }

  lemma NoNewClaims(s: Sys, step: Step)
    requires !step.Start? && !step.Enqueue? && !step.AutoEnqueue? && !step.Approve?
    ensures forall id | Unstarted(Next(s, step), id) :: Unstarted(s, id)
  {
    hide RateLimited, Persistable, Persisted, Claimable, Insertable, Pruned, Loaded, Cards, IdsWith;
    var t := Next(s, step);
    assert t.queue == s.queue || t.queue == [];
    assert LoopTicket(t.loop).Some? ==>
             LoopTicket(s.loop).Some? && LoopTicket(t.loop).value.id == LoopTicket(s.loop).value.id;
  }

  lemma RunsStay(s: Sys, step: Step)
    requires QueueOk(s) && RunsOk(s)
    ensures RunsOk(Next(s, step))
  {
    match step
    case Start => RunsAfterStart(s);
    case Approve(id, commits) =>
      hide Claimable, QueueOk, RunsOk;
      var t := ApproveStep(s, id, commits);
      if t != s { RunsExtend(s, t, t.trace[|s.trace|]); }
    case Enqueue =>
      hide QueueOk;
      if s.loop.Checked? && s.loop.fix.key !in s.inFlight {
        RunsAfterSend(s, Job(s.loop.fix, Some(s.loop.id), s.loop.gateAt));
      }
    case AutoEnqueue =>
      hide QueueOk, Queued;
      if s.loop.AutoChecked? && s.loop.fix.key !in s.inFlight && !Queued(s.pending, s.loop.fix.key) {
        RunsAfterSend(s, Job(s.loop.fix, None, s.loop.gateAt));
      }
    case _ => RunsOtherwise(s, step);
  }

  lemma RunsOtherwise(s: Sys, step: Step)
    requires RunsOk(s)
    requires !step.Start? && !step.Enqueue? && !step.AutoEnqueue? && !step.Approve?
    ensures RunsOk(Next(s, step))
  {
    var t := Next(s, step);
    NoNewClaims(s, step);
    TraceStep(s, step);
    hide Next;
    if t.trace != s.trace { RunsExtend(s, t, t.trace[|s.trace|]); }
  }

  // --- no approved action is lost ---

  predicate Standing(t: Table, id: nat, key: string) {
    id in t && t[id].status == Approved && t[id].fix.Some? && t[id].fix.value.key == key
  }

  // The claim ended: logged by the transaction that removed its card, or, if the fix gave no
  // result of its own, put the card back; resolved before it ran; or handed back to the user
  // at startup.
  predicate Settles(e: Event, id: nat, key: string, hist: seq<LogRow>) {
    match e
    case Logged(i, k, n, ran, left) =>
      && i == id && k == key && n < |hist| && hist[n].key == Some(key)
      && if ran then left.None?
         else left.Some? && left.value.status == Pending && left.value.fix.Some? && left.value.fix.value.key == key
    case Dropped(i) => i == id
    case Restarted(back) =>
      id in back && back[id].status == Pending && back[id].fix.Some? && back[id].fix.value.key == key
    case _ => false
  }

  ghost predicate Accounted(s: Sys, m: nat)
    requires m < |s.trace| && s.trace[m].Claim?
  {
    var c := s.trace[m];
    Standing(s.db.rows, c.id, c.key) || exists n :: m < n < |s.trace| && Settles(s.trace[n], c.id, c.key, s.hist)
  }

  ghost predicate ClaimsOk(s: Sys) {
    forall m | 0 <= m < |s.trace| && s.trace[m].Claim? :: Accounted(s, m)
  }

  // An approved row stands until an event accounts for it.
  ghost predicate Carried(s: Sys, t: Sys, id: nat, key: string) {
    || Standing(t.db.rows, id, key)
    || (|t.trace| > |s.trace| && Settles(t.trace[|s.trace|], id, key, t.hist))
  }

  lemma CarriedByCommit(s: Sys, step: Step, id: nat, key: string)
    requires TicketsOk(s) && Standing(s.db.rows, id, key) && Commits(step)
    ensures Carried(s, Next(s, step), id, key)
  {
    hide UndoFits;
  }

  lemma CarriedByFold(s: Sys, loaded: bool, id: nat, key: string)
    requires TableOk(s.db) && Standing(s.db.rows, id, key)
    ensures Carried(s, FoldStep(s, loaded), id, key)
  {
    StandingSurvivesLoad(s.db.rows, id, key);
    hide TableOk, Loaded, Cards, Standing;
  }

  // A requeued row is still there, and a load keeps it.
  lemma RequeuedStays(t: Table, id: nat)
    requires CleanTable(t) && id in t && t[id].status == Approved
    ensures CleanTable(Requeued(t))
    ensures id in Requeued(t) && Requeued(t)[id] == t[id].(status := Pending)
    ensures id in Loaded(Requeued(t)) && Loaded(Requeued(t))[id] == t[id].(status := Pending)
  {
    FewerKeepsClean(t, Requeued(t));
    LoadShrinks(Requeued(t));
    hide CleanTable, Loaded;
    assert Active(Requeued(t), id);
  }

  // The table and the event that a restart leaves.
  lemma RestartLeaves(s: Sys, requeued: bool, loaded: bool)
    ensures var t, rows := RestartStep(s, requeued, loaded), if requeued then Requeued(s.db.rows) else s.db.rows;
            && t.db.rows == (if loaded then Loaded(rows) else rows)
            && t.trace == s.trace + [Restarted(HandedBack(s.db.rows, t.db.rows))]
            && (loaded ==> t.pending == Cards(t.db.rows))
  {
    hide Loaded, Cards, Requeued, HandedBack;
  }

  lemma SettledByRestart(before: Table, after: Table, id: nat, key: string, hist: seq<LogRow>)
    requires Standing(before, id, key) && id in after && after[id] == before[id].(status := Pending)
    ensures Settles(Restarted(HandedBack(before, after)), id, key, hist)
  {
    assert id in HandedBack(before, after);
  }

  lemma CarriedByRestart(s: Sys, requeued: bool, loaded: bool, id: nat, key: string)
    requires TableOk(s.db) && Standing(s.db.rows, id, key)
    ensures Carried(s, RestartStep(s, requeued, loaded), id, key)
  {
    var t := RestartStep(s, requeued, loaded);
    RestartLeaves(s, requeued, loaded);
    if requeued {
      RequeuedStays(s.db.rows, id);
      hide RestartStep, TableOk, Loaded, Cards, Requeued;
      SettledByRestart(s.db.rows, t.db.rows, id, key, t.hist);
      hide Standing, Settles, HandedBack;
    } else {
      StandingSurvivesLoad(s.db.rows, id, key);
      hide RestartStep, TableOk, Loaded, Cards, Standing, Requeued, HandedBack, Settles;
    }
  }

  lemma StandingSurvivesLoad(t: Table, id: nat, key: string)
    requires CleanTable(t) && Standing(t, id, key)
    ensures Standing(Loaded(t), id, key)
  {
    LoadShrinks(t);
    hide CleanTable, Loaded;
    assert Active(t, id);
  }

  lemma CarriedByCommand(s: Sys, step: Step, id: nat, key: string)
    requires s.db.nextRow !in s.db.rows && Standing(s.db.rows, id, key)
    requires CardsOk(s) && Commands(step)
    ensures Carried(s, Next(s, step), id, key)
  {
    hide Insertable, Queued, Parses;
  }

  lemma CarriedOver(s: Sys, step: Step, id: nat, key: string)
    requires QueueOk(s) && Standing(s.db.rows, id, key)
    ensures Carried(s, Next(s, step), id, key)
  {
    NextRowIsNew(s.db);
    hide TableOk, TicketsOk, CardsOk, InFlightOk, Standing;
    if !TouchesRows(step) {
      RowsUntouched(s, step);
      hide Next;
    } else if Commands(step) {
      CarriedByCommand(s, step, id, key);
      hide Next, Carried;
    } else if Commits(step) {
      CarriedByCommit(s, step, id, key);
      hide Next, Carried;
    } else if step.Fold? {
      CarriedByFold(s, step.loaded, id, key);
      hide FoldStep, Carried;
    } else {
      CarriedByRestart(s, step.requeued, step.loaded, id, key);
      hide RestartStep, Carried;
    }
  }

  lemma NextRowIsNew(db: Db)
    requires TableOk(db)
    ensures db.nextRow !in db.rows
  {
  }

  lemma NewClaim(s: Sys, step: Step)
    requires TableOk(s.db)
    ensures var t := Next(s, step);
            |t.trace| > |s.trace| && t.trace[|s.trace|].Claim? ==>
              Standing(t.db.rows, t.trace[|s.trace|].id, t.trace[|s.trace|].key)
  {
    hide CleanTable, RateLimited, Cards, Loaded, Pruned;
  }

  predicate Prolongs(s: Sys, t: Sys) {
    && s.trace <= t.trace && |t.trace| <= |s.trace| + 1
    && s.hist <= t.hist
  }

  lemma HistoryGrowsOnCommit(s: Sys, step: Step)
    requires Commits(step)
    ensures Prolongs(s, Next(s, step))
  {
    hide Persistable, Settled;
  }

  lemma HistoryGrows(s: Sys, step: Step)
    ensures Prolongs(s, Next(s, step))
  {
    if Commits(step) {
      HistoryGrowsOnCommit(s, step);
      hide Next;
    } else {
      hide RateLimited, Cards, Loaded, Pruned, Claimable, Insertable, Queued, Requeued, IdsWith;
    }
  }

  lemma StillAccounted(s: Sys, t: Sys, m: nat)
    requires m < |s.trace| && s.trace[m].Claim? && Accounted(s, m) && Prolongs(s, t)
    requires var c := s.trace[m]; Standing(s.db.rows, c.id, c.key) ==> Carried(s, t, c.id, c.key)
    ensures t.trace[m] == s.trace[m] && Accounted(t, m)
  {
    hide Standing;
    var c := s.trace[m];
    if !Standing(s.db.rows, c.id, c.key) {
      var n :| m < n < |s.trace| && Settles(s.trace[n], c.id, c.key, s.hist);
      assert Settles(t.trace[n], c.id, c.key, t.hist);
    }
  }

  lemma ClaimStays(s: Sys, step: Step, m: nat)
    requires QueueOk(s) && Prolongs(s, Next(s, step))
    requires m < |s.trace| && s.trace[m].Claim? && Accounted(s, m)
    ensures Next(s, step).trace[m] == s.trace[m] && Accounted(Next(s, step), m)
  {
    var c := s.trace[m];
    hide Next, QueueOk, Standing, Settles, Carried, Accounted;
    if Standing(s.db.rows, c.id, c.key) { CarriedOver(s, step, c.id, c.key); }
    StillAccounted(s, Next(s, step), m);
  }

  lemma AllAccounted(s: Sys, t: Sys)
    requires Prolongs(s, t)
    requires forall m | 0 <= m < |s.trace| && s.trace[m].Claim? :: t.trace[m] == s.trace[m] && Accounted(t, m)
    requires |t.trace| > |s.trace| && t.trace[|s.trace|].Claim? ==>
               Standing(t.db.rows, t.trace[|s.trace|].id, t.trace[|s.trace|].key)
    ensures ClaimsOk(t)
  {
    hide Standing, Settles;
    forall m | 0 <= m < |t.trace| && t.trace[m].Claim? ensures Accounted(t, m) {
      assert m < |s.trace| ==> t.trace[m] == s.trace[m];
    }
  }

  lemma ClaimsStay(s: Sys, step: Step)
    requires QueueOk(s) && ClaimsOk(s)
    ensures ClaimsOk(Next(s, step))
  {
    var t := Next(s, step);
    HistoryGrows(s, step);
    NewClaim(s, step);
    hide Next, QueueOk, Standing, Settles, Accounted;
    forall m | 0 <= m < |s.trace| && s.trace[m].Claim? ensures t.trace[m] == s.trace[m] && Accounted(t, m) {
      ClaimStays(s, step, m);
    }
    AllAccounted(s, t);
    hide ClaimsOk;
  }
}
