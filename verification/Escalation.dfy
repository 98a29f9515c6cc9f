// The daily cap on advisor escalations, across midnight and across restarts
// (eir-svc/src/main.rs).
module Escalation {
  import opened Wrappers

  const MAX_ESCALATIONS_PER_DAY := 24

  // The analysis task keeps the count it was given when it was spawned.
  datatype Task = Task(baseline: nat, escalated: bool)

  // `date` and `count` are the loop's; `stored` is the table by day. `folded` counts the
  // successful escalations folded in on each day and `intact` that no save or load has
  // failed; neither steers anything.
  datatype State = State(today: nat, date: nat, count: nat, task: Option<Task>, stored: map<nat, nat>,
                         folded: map<nat, nat>, intact: bool)

  datatype Step =
    | Midnight
    | Spawn
    | Escalate(wanted: bool, works: bool)
    | FoldOk(saved: bool)
    | FoldFailed
    | Restart(loaded: bool)

  function Get(m: map<nat, nat>, day: nat): nat {
    if day in m then m[day] else 0
  }

  // The loop's counter: the day it is for, and how many were counted.
  datatype Counter = Counter(date: nat, count: nat)

  function Rolled(c: Counter, today: nat): Counter {
    if c.date != today then Counter(today, 0) else c
  }

  // Only what this analysis spent is attributed to a day that began while it ran.
  function Folded(c: Counter, today: nat, task: Task): Counter {
    Counter(today, if c.date != today then Spent(task) else Total(task))
  }

  function Spent(t: Task): nat {
    if t.escalated then 1 else 0
  }

  function Total(t: Task): nat {
    t.baseline + Spent(t)
  }

  // `wanted`: advisor mode is on, a deeper tier is configured, and the answer was ambiguous
  // or of low confidence.
  predicate Escalates(s: State, wanted: bool) {
    s.task.Some? && !s.task.value.escalated && wanted && s.task.value.baseline < MAX_ESCALATIONS_PER_DAY
  }

  function SpawnStep(s: State): State {
    if s.task.Some? then s
    else
      var c := Rolled(Counter(s.date, s.count), s.today);
      s.(date := c.date, count := c.count, task := Some(Task(c.count, false)))
  }

  function FoldStep(s: State, saved: bool): State {
    if s.task.None? then s
    else
      var c := Folded(Counter(s.date, s.count), s.today, s.task.value);
      s.(task := None, date := c.date, count := c.count,
         stored := if saved then s.stored[s.today := c.count] else s.stored,
         folded := s.folded[s.today := Get(s.folded, s.today) + Spent(s.task.value)],
         intact := s.intact && saved)
  }

  function Next(s: State, step: Step): State {
    match step
    case Midnight => s.(today := s.today + 1)
    case Spawn => SpawnStep(s)
    case Escalate(wanted, works) =>
      if Escalates(s, wanted) && works then s.(task := Some(s.task.value.(escalated := true))) else s
    case FoldOk(saved) => FoldStep(s, saved)
    case FoldFailed => s.(task := None)
    case Restart(loaded) =>
      s.(task := None, date := s.today, count := if loaded then Get(s.stored, s.today) else 0,
         intact := s.intact && loaded)
  }

  class AdvisorCounters {
    var date: nat
    var count: nat

    function View(): Counter
      reads this
    {
      Counter(date, count)
    }

    method OnSpawn(today: nat) returns (baseline: nat)
      modifies this
      ensures View() == Rolled(old(View()), today) && baseline == count
    {
      if date != today {
        date, count := today, 0;
      }
      baseline := count;
    }

    method OnAnalysisDone(today: nat, task: Task)
      modifies this
      ensures View() == Folded(old(View()), today, task)
    {
      if date != today {
        date, count := today, if task.escalated then 1 else 0;
      } else {
        count := Total(task);
      }
    }
  }

  function Play(s: State, steps: seq<Step>): State
    decreases |steps|
  {
    if steps == [] then s else Play(Next(s, steps[0]), steps[1..])
  }

  ghost predicate Capped(s: State) {
    && s.date <= s.today
    && s.count <= MAX_ESCALATIONS_PER_DAY
    && (forall d | d in s.stored :: s.stored[d] <= MAX_ESCALATIONS_PER_DAY)
    && (s.task.Some? ==> s.task.value.baseline == s.count && Total(s.task.value) <= MAX_ESCALATIONS_PER_DAY)
  }

  // While no save or load has failed, the counter is the number of escalations folded in on
  // its day, and the table agrees for every day.
  ghost predicate Exact(s: State) {
    s.intact ==>
      && s.count == Get(s.folded, s.date)
      && (forall d: nat :: Get(s.stored, d) == Get(s.folded, d))
      && (forall d: nat | d > s.date :: Get(s.folded, d) == 0)
      && (forall d: nat :: Get(s.folded, d) <= MAX_ESCALATIONS_PER_DAY)
  }

  lemma CappedStays(s: State, step: Step)
    requires Capped(s)
    ensures Capped(Next(s, step))
  {
  }

  lemma ExactStays(s: State, step: Step)
    requires Capped(s) && Exact(s)
    ensures Exact(Next(s, step))
  {
    var t := Next(s, step);
    if t.intact && step.FoldOk? && s.task.Some? {
      assert s.date != s.today ==> Get(s.folded, s.today) == 0;
      assert t.count == Get(t.folded, s.today) == Get(t.stored, s.today);
      forall d: nat | d != s.today
        ensures Get(t.stored, d) == Get(s.stored, d) == Get(s.folded, d) == Get(t.folded, d)
      {
      }
      CappedStays(s, step);
    }
  }

  // On every run: never more than 24 counted, and exactly the folded ones while the table
  // can be written and read.
  lemma {:induction false} AlwaysCapped(s: State, steps: seq<Step>)
    requires Capped(s) && Exact(s)
    ensures Capped(Play(s, steps)) && Exact(Play(s, steps))
    decreases |steps|
  {
    if steps == [] {
    } else {
      CappedStays(s, steps[0]);
      ExactStays(s, steps[0]);
      AlwaysCapped(Next(s, steps[0]), steps[1..]);
    }
  }

  // No escalation starts once 24 are counted for the current day.
  lemma NoEscalationPastTheCap(s: State, steps: seq<Step>, wanted: bool)
    requires Capped(s) && Exact(s)
    ensures var t := Play(s, steps);
            && (Escalates(t, wanted) ==> t.count < MAX_ESCALATIONS_PER_DAY)
            && (t.intact && t.date == t.today && Get(t.folded, t.today) == MAX_ESCALATIONS_PER_DAY
                ==> !Escalates(t, wanted))
  {
    AlwaysCapped(s, steps);
  }

  // --- exactly when the counter is right ---

  // The counter is the number of escalations folded in on its day, and the running analysis
  // started from it.
  ghost predicate Current(s: State) {
    && s.date <= s.today
    && s.count == Get(s.folded, s.date)
    && (forall d: nat | d > s.date :: Get(s.folded, d) == 0)
    && (s.task.Some? ==> s.task.value.baseline == s.count)
  }

  lemma FoldKeepsCurrent(s: State, saved: bool)
    requires Current(s)
    ensures Current(FoldStep(s, saved))
  {
    var t := FoldStep(s, saved);
    if s.task.Some? {
      assert s.date < s.today ==> Get(s.folded, s.today) == 0;
      forall d: nat | d > t.date ensures Get(t.folded, d) == 0 {
        assert Get(t.folded, d) == Get(s.folded, d);
      }
    }
  }

  // Failed saves, failed analyses and midnights do not make it wrong by themselves.
  lemma OnlyRestartForgets(s: State, step: Step)
    requires Current(s) && !step.Restart?
    ensures Current(Next(s, step))
  {
    if step.FoldOk? { FoldKeepsCurrent(s, step.saved); }
  }

  // What a restart would read back, and what it ought to.
  predicate Recovers(s: State, loaded: bool) {
    (if loaded then Get(s.stored, s.today) else 0) == (if s.date == s.today then s.count else 0)
  }

  lemma RestartForgetsIff(s: State, loaded: bool)
    requires Current(s)
    ensures Current(Next(s, Restart(loaded))) <==> Recovers(s, loaded)
  {
    assert s.date < s.today ==> Get(s.folded, s.today) == 0;
  }

  // After a fold the table can give today's count back exactly when it was saved, or held
  // that very count already.
  lemma RecoverableIffSaved(s: State, saved: bool)
    requires s.task.Some?
    ensures var t := FoldStep(s, saved);
            Recovers(t, true) <==> saved || Get(s.stored, s.today) == t.count
  {
  }

  // Each restart of the run found in the table what it ought to.
  predicate EachRestartRecovers(s: State, steps: seq<Step>)
    decreases |steps|
  {
    steps == [] ||
    ((steps[0].Restart? ==> Recovers(s, steps[0].loaded)) && EachRestartRecovers(Next(s, steps[0]), steps[1..]))
  }

  // On every run the counter is right after every step exactly when every restart
  // recovered, whether or not saves or loads failed in between.
  ghost predicate AlwaysCurrent(s: State, steps: seq<Step>)
    decreases |steps|
  {
    Current(s) && (steps == [] || AlwaysCurrent(Next(s, steps[0]), steps[1..]))
  }

  lemma {:induction false} CurrentIffRestartsRecover(s: State, steps: seq<Step>)
    requires Current(s)
    ensures AlwaysCurrent(s, steps) <==> EachRestartRecovers(s, steps)
    decreases |steps|
  {
    if steps == [] {
    } else {
      var t := Next(s, steps[0]);
      if steps[0].Restart? {
        RestartForgetsIff(s, steps[0].loaded);
      } else {
        OnlyRestartForgets(s, steps[0]);
      }
      hide Current, Next, Recovers;
      if Current(t) {
        CurrentIffRestartsRecover(t, steps[1..]);
      } else {
        assert !AlwaysCurrent(t, steps[1..]);
      }
    }
  }

  // One way for a restart not to: the count of an escalation could not be saved.
  lemma UnsavedCountIsForgotten(s: State)
    requires Capped(s) && Exact(s) && s.intact && s.date == s.today && s.task == Some(Task(s.count, true))
    ensures var t := Next(Next(s, FoldOk(false)), Restart(true));
            t.count == s.count && Get(t.folded, t.today) == s.count + 1
  {
  }

  // A later save makes up for it.
  lemma LaterSaveMakesUp(s: State)
    requires Current(s) && s.task.Some?
    ensures Current(Play(s, [FoldOk(false), Spawn, FoldOk(true), Restart(true)]))
  {
    var a := FoldStep(s, false);
    var b := SpawnStep(a);
    var c := FoldStep(b, true);
    FoldKeepsCurrent(s, false);
    OnlyRestartForgets(a, Spawn);
    FoldKeepsCurrent(b, true);
    RecoverableIffSaved(b, true);
    RestartForgetsIff(c, true);
    hide Current, FoldStep, SpawnStep;
    assert [FoldOk(false), Spawn, FoldOk(true), Restart(true)][1..] == [Spawn, FoldOk(true), Restart(true)];
    assert [Spawn, FoldOk(true), Restart(true)][1..] == [FoldOk(true), Restart(true)];
    assert [FoldOk(true), Restart(true)][1..] == [Restart(true)] && [Restart(true)][1..] == [];
    assert Play(Next(c, Restart(true)), []) == Next(c, Restart(true));
    assert Play(c, [Restart(true)]) == Next(c, Restart(true));
    assert Play(b, [FoldOk(true), Restart(true)]) == Next(c, Restart(true));
  }

  // While the counter is right, no analysis escalates once 24 are folded in for the day,
  // whatever became of the saves.
  lemma CurrentCounterCaps(s: State, wanted: bool)
    requires Current(s) && s.task.Some? && s.date == s.today && Get(s.folded, s.today) >= MAX_ESCALATIONS_PER_DAY
    ensures !Escalates(s, wanted)
  {
  }

  // --- whether to escalate at all ---

  function Highest(confidences: seq<real>): real {
    if confidences == [] then 0.0
    else
      var rest, last := Highest(confidences[..|confidences| - 1]), confidences[|confidences| - 1];
      if rest < last then last else rest
  }

  // `lever`: a stronger model or a higher effort is configured. `flagged`: the agent called
  // the signals ambiguous.
  predicate ShouldEscalate(enabled: bool, lever: bool, count: nat, flagged: bool, confidences: seq<real>,
                           threshold: real)
  {
    && enabled && lever && count < MAX_ESCALATIONS_PER_DAY
    && (flagged || (confidences != [] && Highest(confidences) < threshold))
  }

  lemma {:induction false} HighestBelow(confidences: seq<real>, threshold: real)
    ensures Highest(confidences) < threshold <==>
              threshold > 0.0 && forall i | 0 <= i < |confidences| :: confidences[i] < threshold
  {
    if confidences == [] {
    } else {
      var init := confidences[..|confidences| - 1];
      HighestBelow(init, threshold);
      assert forall i | 0 <= i < |init| :: init[i] == confidences[i];
    }
  }

  // Below the cap, with advisor mode on and a deeper tier set, it is the agent's own doubt or
  // the lack of any confident finding that escalates; nothing found at all does not.
  lemma EscalatesOnDoubt(enabled: bool, lever: bool, count: nat, flagged: bool, confidences: seq<real>, threshold: real)
    ensures ShouldEscalate(enabled, lever, count, flagged, confidences, threshold) <==>
              && enabled && lever && count < 24
              && (flagged || (confidences != [] && threshold > 0.0
                              && forall i | 0 <= i < |confidences| :: confidences[i] < threshold))
  {
    HighestBelow(confidences, threshold);
  }

  // The gate on the running task is the cap on the loop's own counter: an analysis that wants
  // to escalates exactly while fewer than 24 are counted.
  lemma EscalatesBelowTheCap(s: State, steps: seq<Step>)
    requires Capped(s) && Exact(s)
    ensures var t := Play(s, steps);
            t.task.Some? && !t.task.value.escalated ==> (Escalates(t, true) <==> t.count < 24)
  {
    AlwaysCapped(s, steps);
  }
}
