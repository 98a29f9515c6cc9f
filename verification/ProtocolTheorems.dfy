// What holds in every state of every run of the protocol, whatever the interleaving, the
// failed writes, the panics and the restarts.
module ProtocolTheorems {
  import opened Wrappers
  import opened Actions
  import opened Approvals
  import opened Ledger
  import opened Registry
  import opened Store
  import opened Protocol
  import opened ProtocolTables
  import opened ProtocolRuns
  import opened ProtocolGate

  ghost predicate Sound(s: Sys) {
    QueueOk(s) && RunsOk(s) && ClaimsOk(s) && ResetsOk(s)
  }

  ghost predicate Gated(s: Sys) {
    LogOk(s) && GateOk(s)
  }

  lemma SoundAtStart(s: Sys)
    requires Init(s)
    ensures Sound(s)
    ensures s.window <= s.retention + 1 ==> Gated(s)
  {
    hide CleanTable, Respected, Chronological;
    CardsAreRows(s.db.rows);
    assert s.hist[0..] == s.hist;
  }

  lemma SoundStays(s: Sys, step: Step)
    requires Sound(s)
    ensures Sound(Next(s, step))
    ensures Gated(s) ==> Gated(Next(s, step))
  {
    QueueStays(s, step);
    RunsStay(s, step);
    ClaimsStay(s, step);
    ResetsStay(s, step);
    if Gated(s) { GateStays(s, step); }
    hide Next, QueueOk, RunsOk, ClaimsOk, ResetsOk, LogOk, GateOk;
  }

  lemma {:induction false} AlwaysSound(s: Sys, steps: seq<Step>)
    requires Sound(s)
    ensures Sound(Play(s, steps))
    ensures Gated(s) ==> Gated(Play(s, steps))
    decreases |steps|
  {
    hide Next, Sound, Gated;
    if steps == [] {
    } else {
      SoundStays(s, steps[0]);
      AlwaysSound(Next(s, steps[0]), steps[1..]);
    }
  }

  lemma FixedLimits(s: Sys, step: Step)
    ensures Next(s, step).window == s.window && Next(s, step).retention == s.retention
    ensures Next(s, step).firstExec == s.firstExec
  {
    hide RateLimited, Persistable, Persisted, Claimable, Insertable, Pruned, Loaded, Cards, IdsWith, Requeued;
  }

  lemma {:induction false} LimitsNeverChange(s: Sys, steps: seq<Step>)
    ensures Play(s, steps).window == s.window && Play(s, steps).retention == s.retention
    decreases |steps|
  {
    hide Next;
    if steps == [] {
    } else {
      FixedLimits(s, steps[0]);
      LimitsNeverChange(Next(s, steps[0]), steps[1..]);
    }
  }

  // --- at most one run per click ---

  // Every run of a card was approved, and two runs of it have a fresh approval in between.
  lemma OneRunPerClick(s: Sys, steps: seq<Step>, id: nat, q: nat)
    requires Init(s)
    requires var trace := Play(s, steps).trace; q < |trace| && IsRun(trace[q], id)
    ensures var trace := Play(s, steps).trace;
            exists m :: 0 <= m < q && IsClaim(trace[m], id) && forall p | m < p < q :: !IsRun(trace[p], id)
  {
    SoundAtStart(s);
    AlwaysSound(s, steps);
    hide Init, Play, QueueOk, ClaimsOk, ResetsOk;
    var trace := Play(s, steps).trace;
    assert Armed(trace[..q], id);
    var m :| 0 <= m < q && IsClaim(trace[..q][m], id) && forall p | m < p < q :: !IsRun(trace[..q][p], id);
    assert IsClaim(trace[m], id);
    assert forall p | m < p < q :: trace[..q][p] == trace[p];
  }

  function Runs(trace: seq<Event>, id: nat): nat {
    if trace == [] then 0 else Runs(trace[..|trace| - 1], id) + if IsRun(trace[|trace| - 1], id) then 1 else 0
  }

  function Claims(trace: seq<Event>, id: nat): nat {
    if trace == [] then 0 else Claims(trace[..|trace| - 1], id) + if IsClaim(trace[|trace| - 1], id) then 1 else 0
  }

  // Since an armed card has been claimed once more than it has run.
  lemma {:induction false} CountArmed(trace: seq<Event>, id: nat)
    requires RunsArmed(trace)
    ensures Runs(trace, id) <= Claims(trace, id)
    ensures Armed(trace, id) ==> Runs(trace, id) < Claims(trace, id)
  {
    if trace == [] {
    } else {
      var init, e := trace[..|trace| - 1], trace[|trace| - 1];
      forall q, i | 0 <= q < |init| && IsRun(init[q], i) ensures Armed(init[..q], i) {
        assert init[..q] == trace[..q] && trace[q] == init[q];
      }
      CountArmed(init, id);
      if IsRun(e, id) {
        assert Armed(trace[..|trace| - 1], id);
        assert !Armed(trace, id) by { assert IsRun(trace[|trace| - 1], id); }
      } else if Armed(trace, id) && !IsClaim(e, id) {
        var m :| 0 <= m < |trace| && IsClaim(trace[m], id) && forall n | m < n < |trace| :: !IsRun(trace[n], id);
        assert IsClaim(init[m], id) && forall n | m < n < |init| :: init[n] == trace[n];
        assert Armed(init, id);
      }
    }
  }

  lemma RunsNeverExceedClaims(s: Sys, steps: seq<Step>, id: nat)
    requires Init(s)
    ensures Runs(Play(s, steps).trace, id) <= Claims(Play(s, steps).trace, id)
  {
    SoundAtStart(s);
    AlwaysSound(s, steps);
    hide Init, Play, QueueOk, ClaimsOk, ResetsOk;
    CountArmed(Play(s, steps).trace, id);
  }

  // --- no approved action is lost ---

  lemma NothingApprovedIsLost(s: Sys, steps: seq<Step>, m: nat)
    requires Init(s)
    requires m < |Play(s, steps).trace| && Play(s, steps).trace[m].Claim?
    ensures var t := Play(s, steps);
            var c := t.trace[m];
            Standing(t.db.rows, c.id, c.key) || exists n :: m < n < |t.trace| && Settles(t.trace[n], c.id, c.key, t.hist)
  {
    SoundAtStart(s);
    AlwaysSound(s, steps);
    hide Init, Play, QueueOk, RunsOk, ResetsOk;
    assert Accounted(Play(s, steps), m);
  }

  // A claimed row can always be settled: only a failed write or a missing undo stops it.
  lemma ApprovalNeverMovesAway(s: Sys, steps: seq<Step>)
    requires Init(s)
    ensures var t := Play(s, steps);
            WorkerJob(t.worker).Some? ==>
              var job := WorkerJob(t.worker).value;
              forall result, requeue: bool | UndoFits(job.fix, result) && (requeue ==> job.approval.Some?) ::
                Persistable(t.db, job.fix, result, job.approval, requeue)
  {
    SoundAtStart(s);
    AlwaysSound(s, steps);
    hide Init, Play, TableOk, InFlightOk, CardsOk, RunsOk, ClaimsOk, ResetsOk, UndoFits;
  }

  // --- keys in flight ---

  lemma InFlightIsExact(s: Sys, steps: seq<Step>)
    requires Init(s)
    ensures var t := Play(s, steps);
            NoDup(Pipeline(t)) && t.inFlight == Elements(Pipeline(t)) && "" !in t.inFlight
  {
    SoundAtStart(s);
    AlwaysSound(s, steps);
    hide Init, Play;
    NoEmptyKey(Play(s, steps));
  }

  // --- a reload in the middle of a run ---

  lemma LoadKeepsActive(t: Table)
    requires CleanTable(t)
    ensures forall id | Active(t, id) :: id in Loaded(t) && Loaded(t)[id] == t[id]
    ensures IndexOk(Loaded(t)) && |ActiveIds(Loaded(t))| <= MAX_ACTIVE_APPROVALS
    ensures Cards(Loaded(t)).Keys == IdsWith(t, Pending)
  {
    LoadShrinks(t);
    LoadedQueue(t);
    LoadRepairs(t);
    hide CleanTable, Loaded, Cards, IndexOk;
    assert IdsWith(Loaded(t), Pending) == IdsWith(t, Pending);
  }

  // It drops no row that is pending or approved, so no queued or running job loses its
  // claim; what it returns is bounded and has one card per key, each still pending.
  lemma ReloadKeepsClaims(s: Sys, steps: seq<Step>)
    requires Init(s)
    ensures var t := Play(s, steps);
            var rows := Loaded(t.db.rows);
            && (forall id | Active(t.db.rows, id) :: id in rows && rows[id] == t.db.rows[id])
            && (forall i | 0 <= i < |t.queue| :: JobHolds(rows, t.queue[i]))
            && (WorkerJob(t.worker).Some? ==> JobHolds(rows, WorkerJob(t.worker).value))
            && |ActiveIds(rows)| <= MAX_ACTIVE_APPROVALS && IndexOk(rows)
            && Cards(rows).Keys == IdsWith(t.db.rows, Pending)
  {
    SoundAtStart(s);
    AlwaysSound(s, steps);
    hide Init, Play, InFlightOk, CardsOk, RunsOk, ClaimsOk, ResetsOk, Loaded, IndexOk, Cards, CleanTable, ActiveIds,
      IdsWith, TicketsOk;
    var t := Play(s, steps);
    LoadKeepsActive(t.db.rows);
    JobsKeepRows(t, Loaded(t.db.rows));
    hide Active, JobHolds, WorkerJob;
  }

  lemma JobsKeepRows(s: Sys, rows: Table)
    requires TicketsOk(s) && forall id | Active(s.db.rows, id) :: id in rows && rows[id] == s.db.rows[id]
    ensures forall i | 0 <= i < |s.queue| :: JobHolds(rows, s.queue[i])
    ensures WorkerJob(s.worker).Some? ==> JobHolds(rows, WorkerJob(s.worker).value)
  {
    var t := s.(db := s.db.(rows := rows));
    TicketsKeepRows(s, t);
    hide JobHolds, WorkerJob;
  }

  // --- registry resets ---

  lemma ReportedResetIsDurable(s: Sys, steps: seq<Step>, i: nat)
    requires Init(s) && i < |Play(s, steps).outcomes|
    ensures var t := Play(s, steps);
            t.outcomes[i].reset && t.outcomes[i].success ==> Durable(t.db, t.hist, t.firstExec, t.outcomes[i])
  {
    SoundAtStart(s);
    AlwaysSound(s, steps);
    hide Init, Play, QueueOk, RunsOk, ClaimsOk, Durable;
    assert Backed(Play(s, steps), Play(s, steps).outcomes[i]);
  }

  // --- the sliding window ---

  lemma ExecutionsBounded(s: Sys, steps: seq<Step>)
    requires Init(s) && s.window <= s.retention + 1
    ensures Bounded(Play(s, steps).hist, s.window)
  {
    SoundAtStart(s);
    AlwaysSound(s, steps);
    LimitsNeverChange(s, steps);
    hide Init, Play, Sound, GateOk, Bounded;
    RespectedIsBounded(Play(s, steps).hist, s.window);
  }

  ghost predicate Reaches(s: Sys, t: Sys) {
    exists steps :: Play(s, steps) == t
  }

  lemma {:induction false} PlaySnoc(s: Sys, steps: seq<Step>, step: Step)
    ensures Play(s, steps + [step]) == Next(Play(s, steps), step)
    decreases |steps|
  {
    hide Next;
    if steps == [] {
      assert Play(s, [step]) == Play(Next(s, step), [step][1..]);
    } else {
      assert (steps + [step])[1..] == steps[1..] + [step];
      PlaySnoc(Next(s, steps[0]), steps[1..], step);
    }
  }

  lemma ReachesNext(s: Sys, t: Sys, step: Step)
    requires Reaches(s, t)
    ensures Reaches(s, Next(t, step))
  {
    var steps :| Play(s, steps) == t;
    PlaySnoc(s, steps, step);
  }

  // Nothing queued, running or being decided, and an empty log.
  predicate Resting(s: Sys) {
    s.db.log == [] && s.pending == map[] && s.inFlight == {} && s.queue == [] && s.worker.Idle?
    && s.outcomes == [] && s.loop.Ready?
  }

  const PROBE: Fix := RawFix("k", "k", false)

  function ProbeJob(s: Sys): Job {
    Job(PROBE, None, s.now)
  }

  // From rest, an autonomous fix is let through and starts ...
  lemma AutonomousStart(s0: Sys, s: Sys) returns (t: Sys)
    requires Reaches(s0, s) && Resting(s)
    ensures Reaches(s0, t)
    ensures t == s.(inFlight := {"k"}, worker := Executing(ProbeJob(s)), trace := t.trace)
  {
    assert Matching([], PROBE, s.now - s.window) == [];
    var a := Next(s, AutoCheck(PROBE));
    assert a == s.(loop := AutoChecked(PROBE, s.now));
    var b := Next(a, AutoEnqueue);
    assert b == s.(inFlight := {"k"}, queue := [ProbeJob(s)]);
    t := Next(b, Start);
    assert t.queue == [];
    hide Next, Resting;
    ReachesNext(s0, s, AutoCheck(PROBE));
    ReachesNext(s0, a, AutoEnqueue);
    ReachesNext(s0, b, Start);
  }

  // ... and succeeds and is logged.
  lemma AutonomousSuccess(s0: Sys, s: Sys) returns (t: Sys)
    requires Reaches(s0, s) && Resting(s)
    ensures Reaches(s0, t)
    ensures var r := LogRow(Some("k"), "k", true, s.now);
            t == s.(db := s.db.(log := [r], nextExec := s.db.nextExec + 1), hist := s.hist + [r], trace := t.trace)
  {
    var c := AutonomousStart(s0, s);
    var done, r := ExecResult("k", true, None), LogRow(Some("k"), "k", true, s.now);
    var out := Outcome("k", false, true, None, false, None);
    var d := Next(c, Finish(done));
    assert d == c.(worker := Finished(ProbeJob(s), done, false));
    var e := Next(d, Persist(true));
    assert e.db == s.db.(log := [r], nextExec := s.db.nextExec + 1);
    assert e == c.(db := e.db, hist := s.hist + [r], worker := Reporting(out));
    var f := Next(e, Report);
    assert f == e.(outcomes := [out], worker := Idle);
    t := Next(f, Fold(false));
    assert t == f.(inFlight := {}, outcomes := []);
    hide Next, Resting;
    ReachesNext(s0, c, Finish(done));
    ReachesNext(s0, d, Persist(true));
    ReachesNext(s0, e, Report);
    ReachesNext(s0, f, Fold(false));
  }

  // The window the gate looks back over must not outlast the log: otherwise a success is
  // forgotten and repeated inside the window.
  lemma ForgottenSuccess(window: nat, retention: nat) returns (s: Sys, steps: seq<Step>)
    requires window > retention + 1
    ensures Init(s) && s.window == window && s.retention == retention
    ensures !Bounded(Play(s, steps).hist, window)
  {
    s := Empty(window, retention);
    assert Reaches(s, s) by { assert Play(s, []) == s; }
    EmptyStarts(window, retention);
    hide Init;
    var a := AutonomousSuccess(s, s);
    var c := Forget(s, a);
    hide Next, Resting, Pruned;
    var d := AutonomousSuccess(s, c);
    steps :| Play(s, steps) == d;
    TwoSuccesses(a.hist[0], d.hist[1], window);
    assert d.hist == [a.hist[0], d.hist[1]];
  }

  // Once the log's rows are past retention, pruning empties it.
  lemma Forget(s0: Sys, s: Sys) returns (t: Sys)
    requires Reaches(s0, s)
    requires Resting(s.(db := s.db.(log := []))) && |s.db.log| == 1 && s.db.log[0].at == s.now
    ensures Reaches(s0, t) && Resting(t)
    ensures t == s.(now := s.now + s.retention + 1, db := s.db.(log := []))
  {
    var b := Next(s, Tick(s.retention + 1));
    t := Next(b, Prune);
    assert s.db.log[1..] == [] && Pruned(s.db.log, s.now + 1) == [];
    hide Next, Resting;
    ReachesNext(s0, s, Tick(s.retention + 1));
    ReachesNext(s0, b, Prune);
  }

  function Empty(window: nat, retention: nat): Sys {
    Sys(Db(map[], 0, [], 0, map[], 0), map[], {}, [], Idle, [], Ready, 0, window, retention, 0, [], [])
  }

  lemma EmptyStarts(window: nat, retention: nat)
    ensures Init(Empty(window, retention)) && Resting(Empty(window, retention))
  {
    assert ActiveIds(map[]) == {};
    assert Cards(map[]) == map[];
  }

  lemma TwoSuccesses(r1: LogRow, r2: LogRow, window: nat)
    requires r1.key == r2.key == Some("k") && r1.success && 0 == r1.at <= r2.at < window
    ensures !Bounded([r1, r2], window)
  {
    assert Inside([r1, r2], "k", 0, window, 0) && Inside([r1, r2], "k", 0, window, 1);
  }

  // So the bound holds on every run exactly when retention covers the window.
  lemma BoundedIffRetained(window: nat, retention: nat)
    ensures (forall s, steps | Init(s) && s.window == window && s.retention == retention ::
               Bounded(Play(s, steps).hist, window))
            <==> window <= retention + 1
  {
    hide Init, Play, Bounded;
    if window <= retention + 1 {
      forall s, steps | Init(s) && s.window == window && s.retention == retention
        ensures Bounded(Play(s, steps).hist, window)
      {
        ExecutionsBounded(s, steps);
      }
    } else {
      var s, steps := ForgottenSuccess(window, retention);
    }
  }
}
