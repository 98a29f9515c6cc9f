// Game Mode's power-plan boost: the plan to go back to is stored before the switch and
// forgotten only after the restore (eir-svc/src/game_mode.rs).
module PowerPlan {
  import opened Wrappers
  import opened Actions

  const HIGH_PERF: string := "8c5e7fda-e8bf-4a96-9a85-a6e23a8c635c"

  predicate IsHighPerf(plan: string) {
    LowerAscii(plan) == LowerAscii(HIGH_PERF)
  }

  // `boostedFrom` records, while the live plan is High Performance because Eir switched to
  // it, the plan that was active just before; it steers nothing.
  datatype State = State(live: string, saved: Option<string>, boostedFrom: Option<string>)

  // A call that reports failure may still have taken effect. `race` is a plan another
  // program selects between Eir's read and its switch. The process stops after `stop` steps.
  datatype Faults = Faults(readOk: bool, saveOk: bool, saveWrote: bool, setOk: bool, setTook: bool, clearOk: bool,
                           clearWrote: bool, race: Option<string>, stop: nat)

  const NO_FAULTS := Faults(true, true, true, true, true, true, true, None, 9)

  function Select(s: State, plan: string): State {
    s.(live := plan, boostedFrom := None)
  }

  function Boosted(s: State): State {
    if IsHighPerf(s.live) then s.(live := HIGH_PERF)
    else s.(live := HIGH_PERF, boostedFrom := Some(s.live))
  }

  function Boost(s: State, f: Faults): State {
    if f.stop == 0 || !f.readOk || IsHighPerf(s.live) then s
    else
      var stored := if f.saveOk || f.saveWrote then s.(saved := Some(s.live)) else s;
      if f.stop == 1 || !f.saveOk then stored
      else
        var raced := if f.race.Some? then Select(stored, f.race.value) else stored;
        if f.stop == 2 || !(f.setOk || f.setTook) then raced else Boosted(raced)
  }

  function Restore(s: State, f: Faults): State {
    if f.stop == 0 || !f.readOk || s.saved.None? then s
    else
      var back := if f.setOk || f.setTook then Select(s, s.saved.value) else s;
      if f.stop == 1 || !f.setOk || !(f.clearOk || f.clearWrote) then back else back.(saved := None)
  }

  function Edge(s: State, powerBoost: bool, on: bool, f: Faults): State {
    if !on then Restore(s, f) else if powerBoost then Boost(s, f) else s
  }

  class PowerControl {
    var live: string
    var saved: Option<string>
    ghost var boostedFrom: Option<string>

    ghost function View(): State
      reads this
    {
      State(live, saved, boostedFrom)
    }

    method SetScheme(plan: string, f: Faults) returns (changed: bool)
      modifies this
      ensures changed == f.setOk && saved == old(saved)
      ensures f.setOk || f.setTook ==> live == plan
      ensures !(f.setOk || f.setTook) ==> live == old(live)
      ensures boostedFrom == old(boostedFrom)
    {
      if f.setOk || f.setTook {
        live := plan;
      }
      changed := f.setOk;
    }

    method OnGamingEdge(powerBoost: bool, on: bool, f: Faults)
      modifies this
      ensures View() == Edge(old(View()), powerBoost, on, f)
    {
      if !on {
        RestorePlan(f);
        return;
      }
      if !powerBoost || f.stop == 0 || !f.readOk {
        return;
      }
      var cur := live;
      if IsHighPerf(cur) {
        return;
      }
      // The way back is recorded before the switch.
      if f.saveOk || f.saveWrote {
        saved := Some(cur);
      }
      if f.stop == 1 || !f.saveOk {
        return;
      }
      if f.race.Some? {
        live, boostedFrom := f.race.value, None;
      }
      if f.stop == 2 {
        return;
      }
      ghost var before := live;
      var changed := SetScheme(HIGH_PERF, f);
      if (f.setOk || f.setTook) && !IsHighPerf(before) {
        boostedFrom := Some(before);
      }
    }

    method RestorePlan(f: Faults)
      modifies this
      ensures View() == Restore(old(View()), f)
    {
      if f.stop == 0 || !f.readOk || saved.None? {
        return;
      }
      var changed := SetScheme(saved.value, f);
      if f.setOk || f.setTook {
        boostedFrom := None;
      }
      if f.stop == 1 || !changed {
        return;
      }
      if f.clearOk || f.clearWrote {
        saved := None;
      }
    }
  }

  // Whenever Eir's own switch is in force, the plan to go back to is stored.
  predicate Recoverable(s: State) {
    s.boostedFrom.Some? ==> IsHighPerf(s.live) && s.saved == s.boostedFrom
  }

  datatype Event =
    | GameEdge(powerBoost: bool, on: bool, f: Faults)
    | Startup(f: Faults)
    | OtherProgram(plan: string)

  function Next(s: State, e: Event): State {
    match e
    case GameEdge(powerBoost, on, f) => Edge(s, powerBoost, on, f)
    case Startup(f) => Restore(s, f)
    case OtherProgram(plan) => Select(s, plan)
  }

  function Play(s: State, events: seq<Event>): State
    decreases |events|
  {
    if events == [] then s else Play(Next(s, events[0]), events[1..])
  }

  predicate Raced(e: Event) {
    e.GameEdge? && e.on && e.f.race.Some?
  }

  // On every run, with every call free to fail, to time out having worked, and to be cut
  // off after any step, and with other programs switching plans at any other time.
  lemma {:induction false} AlwaysRecoverable(s: State, events: seq<Event>)
    requires Recoverable(s) && forall i | 0 <= i < |events| :: !Raced(events[i])
    ensures Recoverable(Play(s, events))
    decreases |events|
  {
    if events == [] {
    } else {
      assert IsHighPerf(HIGH_PERF);
      hide IsHighPerf;
      assert Recoverable(Next(s, events[0]));
      AlwaysRecoverable(Next(s, events[0]), events[1..]);
    }
  }

  // A switch by another program between Eir's read and Eir's own breaks that invariant
  // exactly when Eir's switch then takes effect over a third plan: what is stored is then
  // not the plan that was replaced.
  lemma RaceBreaksRecovery(s: State, f: Faults, other: string)
    requires Recoverable(s) && f.race == Some(other)
    ensures Recoverable(Boost(s, f)) <==>
              !(f.stop > 2 && f.readOk && f.saveOk && (f.setOk || f.setTook) && !IsHighPerf(s.live) && !IsHighPerf(other)
                && other != s.live)
  {
    assert IsHighPerf(HIGH_PERF);
    hide IsHighPerf;
  }

  // --- a plan that another program or the user selects ---

  // A restore does not look at the live plan. It overwrites a choice made in the meantime
  // exactly when it takes effect with another plan stored.
  lemma RestoreOverwritesIff(s: State, other: string, f: Faults)
    ensures Restore(Select(s, other), f).live == other
            <==> !(f.stop > 0 && f.readOk && s.saved.Some? && (f.setOk || f.setTook) && s.saved.value != other)
  {
  }

  // So a plan chosen during a game is gone after it, without any fault or race.
  lemma ChoiceDuringAGameIsLost(plan: string, other: string)
    requires !IsHighPerf(plan) && plan != other
    ensures var events := [GameEdge(true, true, NO_FAULTS), OtherProgram(other), GameEdge(true, false, NO_FAULTS)];
            && Play(State(plan, None, None), events) == State(plan, None, None)
            && forall i | 0 <= i < |events| :: !Raced(events[i])
  {
    var start := State(plan, None, None);
    var on, off := GameEdge(true, true, NO_FAULTS), GameEdge(true, false, NO_FAULTS);
    var events := [on, OtherProgram(other), off];
    assert IsHighPerf(HIGH_PERF);
    hide IsHighPerf;
    var boosted := Next(start, on);
    assert boosted == State(HIGH_PERF, Some(plan), Some(plan));
    var chosen := Next(boosted, OtherProgram(other));
    assert Next(chosen, off) == start;
    assert [off][1..] == [] && Play(chosen, [off]) == Play(start, []) == start;
    assert [OtherProgram(other), off][1..] == [off];
    assert Play(boosted, [OtherProgram(other), off]) == Play(chosen, [off]);
    assert events[1..] == [OtherProgram(other), off];
  }

  // The choice is in force, or stored to come back to after Eir's own switch.
  predicate Kept(s: State, choice: string) {
    s.live == choice || (s.boostedFrom == Some(choice) && s.saved == Some(choice))
  }

  // Only Eir acts, and it does not overlap another program's switch.
  predicate OnlyEir(events: seq<Event>) {
    forall i | 0 <= i < |events| :: !events[i].OtherProgram? && !Raced(events[i])
  }

  predicate Stored(s: State, choice: string) {
    s.saved.None? || s.saved.value == choice
  }

  lemma {:induction false} ChoiceStaysKept(s: State, choice: string, events: seq<Event>)
    requires Recoverable(s) && Kept(s, choice) && Stored(s, choice) && OnlyEir(events)
    ensures Kept(Play(s, events), choice)
    decreases |events|
  {
    if events == [] {
    } else {
      var t := Next(s, events[0]);
      assert IsHighPerf(HIGH_PERF);
      hide IsHighPerf;
      assert !Raced(events[0]);
      assert Recoverable(t) && Kept(t, choice) && Stored(t, choice);
      ChoiceStaysKept(t, choice, events[1..]);
    }
  }

  // A choice survives everything Eir may do from then on, game sessions and faults
  // included, exactly when no other plan is stored at the moment it is made.
  lemma ChoiceIsKeptIff(s: State, choice: string)
    ensures (forall events | OnlyEir(events) :: Kept(Play(Select(s, choice), events), choice)) <==> Stored(s, choice)
  {
    var t := Select(s, choice);
    if Stored(s, choice) {
      forall events | OnlyEir(events) ensures Kept(Play(t, events), choice) {
        ChoiceStaysKept(t, choice, events);
      }
    } else {
      var restore := [Startup(NO_FAULTS)];
      assert restore[1..] == [];
      assert Play(t, restore) == Play(Next(t, restore[0]), []) == Restore(t, NO_FAULTS);
      assert OnlyEir(restore) && !Kept(Play(t, restore), choice);
    }
  }

  // The next restore that works brings the plan back, however many failed before it.
  lemma {:induction false} RestoreBringsBack(s: State, failed: seq<Faults>, f: Faults)
    requires Recoverable(s) && s.boostedFrom.Some?
    requires forall i | 0 <= i < |failed| :: !failed[i].setOk
    requires f.stop > 0 && f.readOk && f.setOk
    ensures Restore(Play(s, Attempts(failed)), f).live == s.boostedFrom.value
    decreases |failed|
  {
    hide IsHighPerf;
    RetriesKeepSaved(s, failed);
  }

  function Attempts(failed: seq<Faults>): seq<Event> {
    seq(|failed|, i requires 0 <= i < |failed| => Startup(failed[i]))
  }

  lemma {:induction false} RetriesKeepSaved(s: State, failed: seq<Faults>)
    requires forall i | 0 <= i < |failed| :: !failed[i].setOk
    ensures Play(s, Attempts(failed)).saved == s.saved
    decreases |failed|
  {
    if failed == [] {
    } else {
      assert Attempts(failed)[1..] == Attempts(failed[1..]);
      RetriesKeepSaved(Restore(s, failed[0]), failed[1..]);
    }
  }

  // --- a whole session without faults ---

  function Drained(s: State, edges: seq<(bool, bool)>): State {
    if edges == [] then s
    else
      var last := edges[|edges| - 1];
      Edge(Drained(s, edges[..|edges| - 1]), last.0, last.1, NO_FAULTS)
  }

  lemma {:induction false} SessionLeavesNoTrace(plan: string, edges: seq<(bool, bool)>)
    requires !IsHighPerf(plan)
    ensures var start := State(plan, None, None);
            var end := Drained(start, edges);
            && (end == start || end == State(HIGH_PERF, Some(plan), Some(plan)))
            && (edges == [] || !edges[|edges| - 1].1 ==> end == start)
  {
    assert IsHighPerf(HIGH_PERF);
    hide IsHighPerf;
    if edges == [] {
    } else {
      SessionLeavesNoTrace(plan, edges[..|edges| - 1]);
    }
  }

  // --- single edges ---

  // With the setting off, the start of a game leaves the plan and the store alone.
  lemma NoBoostWithoutTheSetting(s: State, f: Faults)
    ensures Edge(s, false, true, f) == s
  {
  }

  // With it on and no faults, the machine ends on High Performance; the old plan is stored,
  // unless it was High Performance already.
  lemma BoostStoresAndSwitches(s: State)
    ensures var t := Edge(s, true, true, NO_FAULTS);
            if IsHighPerf(s.live) then t == s
            else t.live == HIGH_PERF && t.saved == Some(s.live) && t.boostedFrom == Some(s.live)
  {
    hide IsHighPerf;
  }

  // The end of a game goes back to the stored plan and forgets it, whatever the setting.
  lemma EndGoesBack(s: State, powerBoost: bool)
    ensures var t := Edge(s, powerBoost, false, NO_FAULTS);
            if s.saved.None? then t == s else t.live == s.saved.value && t.saved.None?
  {
  }

  // A plan that could not be stored is not switched away from.
  lemma NoSwitchWithoutStore(s: State, powerBoost: bool, f: Faults)
    ensures !f.saveOk ==> Edge(s, powerBoost, true, f).live == s.live
    ensures !f.readOk ==> Edge(s, powerBoost, true, f) == s && Edge(s, powerBoost, false, f) == s
  {
  }

  // And a stored plan is forgotten only after a switch back that reported success.
  lemma NotForgottenBeforeRestored(s: State, powerBoost: bool, f: Faults)
    requires s.saved.Some? && Edge(s, powerBoost, false, f).saved.None?
    ensures f.setOk && Edge(s, powerBoost, false, f).live == s.saved.value
  {
  }
}
