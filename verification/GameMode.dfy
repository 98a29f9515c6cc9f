// Game Mode: a manual latch, an automatic lease, and the ordered edges they queue for the
// power plan (eir-svc/src/main.rs).
module GameMode {
  import opened Wrappers
  import PowerPlan

  const LEASE_SECS := 90
  const MAX_TIME := 0x7FFF_FFFF_FFFF_FFFF

  // `edges` is everything ever queued for the power-plan worker: (boost setting, on).
  datatype State = State(manual: bool, until: int, wasGaming: bool, edges: seq<(bool, bool)>)

  predicate IsGaming(s: State, now: int) {
    s.manual || s.until > now
  }

  function LeaseEnd(now: int): int {
    if now + LEASE_SECS > MAX_TIME then MAX_TIME else now + LEASE_SECS
  }

  function Applied(s: State, on: bool, manual: bool, now: int): State {
    if manual then (if on then s.(manual := true) else s.(manual := false, until := 0))
    else s.(until := if on then LeaseEnd(now) else 0)
  }

  function SetGaming(s: State, on: bool, manual: bool, boost: bool, now: int): State {
    var was, t := IsGaming(s, now), Applied(s, on, manual, now);
    var active := IsGaming(t, now);
    if !was && active then t.(wasGaming := true, edges := s.edges + [(boost, true)])
    else if was && !active then t.(wasGaming := false, edges := s.edges + [(false, false)])
    else t
  }

  // The decision tick ends a session whose lease lapsed without an explicit off.
  function Tick(s: State, now: int): State {
    var active := IsGaming(s, now);
    s.(wasGaming := active, edges := if s.wasGaming && !active then s.edges + [(false, false)] else s.edges)
  }

  class GamingState {
    var manual: bool
    var until: int
    var wasGaming: bool
    var edges: seq<(bool, bool)>

    function View(): State
      reads this
    {
      State(manual, until, wasGaming, edges)
    }

    method ApplySetGaming(on: bool, byHand: bool, now: int)
      modifies this
      ensures View() == Applied(old(View()), on, byHand, now)
    {
      if byHand {
        manual := on;
        if !on {
          until := 0;
        }
      } else {
        until := if on then LeaseEnd(now) else 0;
      }
    }

    method OnSetGaming(on: bool, byHand: bool, boost: bool, now: int)
      modifies this
      ensures View() == SetGaming(old(View()), on, byHand, boost, now)
    {
      var was := IsGaming(View(), now);
      ApplySetGaming(on, byHand, now);
      var active := IsGaming(View(), now);
      if !was && active {
        wasGaming := true;
        edges := edges + [(boost, true)];
      } else if was && !active {
        edges := edges + [(false, false)];
        wasGaming := false;
      }
    }

    method OnTick(now: int)
      modifies this
      ensures View() == Tick(old(View()), now)
    {
      var active := IsGaming(View(), now);
      if wasGaming && !active {
        edges := edges + [(false, false)];
      }
      wasGaming := active;
    }
  }

  datatype Event =
    | Message(at: int, on: bool, manual: bool, boost: bool)
    | DecisionTick(at: int)

  function Next(s: State, e: Event): State {
    match e
    case Message(at, on, manual, boost) => SetGaming(s, on, manual, boost, at)
    case DecisionTick(at) => Tick(s, at)
  }

  function Play(s: State, events: seq<Event>): State {
    if events == [] then s
    else Next(Play(s, events[..|events| - 1]), events[|events| - 1])
  }

  // A clock that never goes back.
  predicate InOrder(events: seq<Event>) {
    forall i, j | 0 <= i < j < |events| :: events[i].at <= events[j].at
  }

  predicate LastOn(edges: seq<(bool, bool)>) {
    edges != [] && edges[|edges| - 1].1
  }

  ghost predicate Agrees(s: State, now: int) {
    && (s.wasGaming <==> LastOn(s.edges))
    && (IsGaming(s, now) ==> s.wasGaming)
    && (forall i | 0 <= i < |s.edges| && !s.edges[i].1 :: i > 0 && s.edges[i - 1].1)
  }

  const START := State(false, 0, false, [])

  // At every moment of every run: the last queued edge is "on" exactly while the loop
  // counts as gaming, active Game Mode implies that, every "off" directly follows an "on",
  // and after a tick at which Game Mode is inactive the last edge is not "on".
  lemma {:induction false} EdgesAgree(events: seq<Event>, now: int)
    requires InOrder(events) && forall i | 0 <= i < |events| :: 0 <= events[i].at <= now
    requires now >= 0
    ensures Agrees(Play(START, events), now)
    ensures events != [] && events[|events| - 1].DecisionTick? && !IsGaming(Play(START, events), events[|events| - 1].at)
            ==> !LastOn(Play(START, events).edges)
  {
    if events == [] {
    } else {
      var init, e := events[..|events| - 1], events[|events| - 1];
      EdgesAgree(init, e.at);
      var s, t := Play(START, init), Play(START, events);
      assert t == Next(s, e);
      forall i | 0 <= i < |t.edges| && !t.edges[i].1 ensures i > 0 && t.edges[i - 1].1 {
        if i < |s.edges| { assert t.edges[i] == s.edges[i]; }
      }
    }
  }

  // With a power plan that does as it is told, once Game Mode is over and a tick has seen
  // it, draining the queued edges leaves the plan the machine started with.
  lemma PlanIsBackAfterGame(events: seq<Event>, plan: string)
    requires InOrder(events) && forall i | 0 <= i < |events| :: 0 <= events[i].at
    requires !PowerPlan.IsHighPerf(plan)
    requires events != [] && events[|events| - 1].DecisionTick? && !IsGaming(Play(START, events), events[|events| - 1].at)
    ensures PowerPlan.Drained(PowerPlan.State(plan, None, None), Play(START, events).edges)
            == PowerPlan.State(plan, None, None)
  {
    EdgesAgree(events, events[|events| - 1].at);
    PowerPlan.SessionLeavesNoTrace(plan, Play(START, events).edges);
  }

  // --- how long each message keeps Game Mode active ---

  // The manual switch latches it on, or ends it at once together with any lease.
  lemma ManualLasts(s: State, boost: bool, at: int, now: int)
    requires 0 <= at <= now
    ensures IsGaming(SetGaming(s, true, true, boost, at), now)
    ensures !IsGaming(SetGaming(s, false, true, boost, at), now)
  {
  }

  // The detector's heartbeat is good for 90 seconds, and its off withdraws only the lease.
  lemma LeaseLasts(s: State, boost: bool, at: int, now: int)
    requires 0 <= at <= now
    ensures at + 90 <= MAX_TIME ==> (IsGaming(SetGaming(s, true, false, boost, at), now) <==> s.manual || now < at + 90)
    ensures at + 90 > MAX_TIME ==>
              (IsGaming(SetGaming(s, true, false, boost, at), now) <==> s.manual || now < MAX_TIME)
    ensures IsGaming(SetGaming(s, false, false, boost, at), now) <==> s.manual
  {
  }

  // An edge is queued exactly when Game Mode as a whole starts or ends, and an "on" carries
  // the boost setting of that moment.
  lemma EdgeIffTransition(s: State, on: bool, manual: bool, boost: bool, at: int)
    ensures var t := SetGaming(s, on, manual, boost, at);
            t.edges == s.edges + if !IsGaming(s, at) && IsGaming(t, at) then [(boost, true)]
                                 else if IsGaming(s, at) && !IsGaming(t, at) then [(false, false)]
                                 else []
  {
    assert s.edges + [] == s.edges;
  }
}
