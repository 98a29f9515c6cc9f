// A problem the user asks Eir to look into: accepted one at a time, carried by one
// analysis, reported once (eir-svc/src/main.rs, eir-svc/src/ask.rs).
module Investigation {
  import opened Wrappers

  const MIN_GAP_SECS := 60
  const MAX_QUESTION_CHARS := 1000

  // What the Ask history says of a finished investigation, and the request that the
  // analysis it stems from had been given.
  datatype Report = Report(description: string, analysed: Option<string>, success: bool)

  // `analysis`: the request inside the running analysis, if one runs; `carrying` is the
  // loop's own flag for it. `accepted` and `reports` list everything so far.
  datatype State = State(open: Option<string>, lastAt: int, carrying: bool, analysis: Option<Option<string>>,
                         accepted: seq<string>, reports: seq<Report>)

  // `description` is already trimmed.
  predicate Rejected(s: State, description: string, aiConfigured: bool, paused: bool, now: int) {
    || description == "" || |description| > MAX_QUESTION_CHARS || !aiConfigured || paused
    || s.open.Some? || (s.lastAt != 0 && now - s.lastAt < MIN_GAP_SECS)
  }

  function Request(s: State, description: string, aiConfigured: bool, paused: bool, now: int): State {
    if Rejected(s, description, aiConfigured, paused, now) then s
    else s.(open := Some(description), lastAt := now, accepted := s.accepted + [description])
  }

  function Spawn(s: State): State {
    if s.analysis.Some? then s else s.(analysis := Some(s.open), carrying := s.open.Some?)
  }

  // Success, error, panic and timeout all end here, once.
  function Finish(s: State, success: bool): State {
    if s.analysis.None? then s
    else
      var done := s.(analysis := None, carrying := false);
      if s.carrying && s.open.Some? then
        done.(open := None, reports := s.reports + [Report(s.open.value, s.analysis.value, success)])
      else done
  }

  class InvestigationState {
    var open: Option<string>
    var lastAt: int
    var carrying: bool
    ghost var analysis: Option<Option<string>>
    ghost var accepted: seq<string>
    ghost var reports: seq<Report>

    ghost function View(): State
      reads this
    {
      State(open, lastAt, carrying, analysis, accepted, reports)
    }

    method OnInvestigate(description: string, aiConfigured: bool, paused: bool, now: int) returns (ok: bool)
      modifies this
      ensures View() == Request(old(View()), description, aiConfigured, paused, now)
      ensures ok <==> View().accepted == old(accepted) + [description]
      ensures ok <==>
                && 0 < |description| <= 1000 && aiConfigured && !paused && old(open).None?
                && (old(lastAt) == 0 || now - old(lastAt) >= 60)
      ensures if ok then open == Some(description) && lastAt == now else open == old(open) && lastAt == old(lastAt)
    {
      if description == "" || |description| > MAX_QUESTION_CHARS || !aiConfigured || paused || open.Some?
         || (lastAt != 0 && now - lastAt < MIN_GAP_SECS) {
        return false;
      }
      open, lastAt := Some(description), now;
      accepted := accepted + [description];
      return true;
    }

    // The running flag is the caller's: an analysis is never started beside another.
    method OnSpawn()
      requires analysis.None?
      modifies this
      ensures View() == Spawn(old(View()))
    {
      carrying := open.Some?;
      analysis := Some(open);
    }

    method OnAnalysisDone(success: bool) returns (reported: Option<string>)
      requires analysis.Some?
      modifies this
      ensures View() == Finish(old(View()), success)
      ensures reported.Some? <==> |reports| == old(|reports|) + 1
      ensures reported.Some? ==> reports[|reports| - 1].description == reported.value
    {
      var carried := carrying;
      carrying := false;
      reported := None;
      if carried {
        reported := open;
        open := None;
      }
      if reported.Some? {
        reports := reports + [Report(reported.value, analysis.value, success)];
      }
      analysis := None;
    }
  }

  datatype Step =
    | Ask(description: string, aiConfigured: bool, paused: bool, at: int)
    | Analyse
    | Done(success: bool)

  function Next(s: State, step: Step): State {
    match step
    case Ask(d, ai, paused, at) => Request(s, d, ai, paused, at)
    case Analyse => Spawn(s)
    case Done(success) => Finish(s, success)
  }

  function Play(s: State, steps: seq<Step>): State
    decreases |steps|
  {
    if steps == [] then s else Play(Next(s, steps[0]), steps[1..])
  }

  function Descriptions(reports: seq<Report>): seq<string> {
    seq(|reports|, i requires 0 <= i < |reports| => reports[i].description)
  }

  function Outstanding(s: State): seq<string> {
    if s.open.Some? then [s.open.value] else []
  }

  ghost predicate Conserved(s: State) {
    && s.accepted == Descriptions(s.reports) + Outstanding(s)
    && (forall i | 0 <= i < |s.reports| :: s.reports[i].analysed == Some(s.reports[i].description))
    && (s.carrying ==> s.open.Some? && s.analysis == Some(s.open))
    && (s.analysis.Some? && !s.carrying ==> s.analysis.value.None?)
  }

  lemma ConservedStays(s: State, step: Step)
    requires Conserved(s)
    ensures Conserved(Next(s, step))
  {
    var t := Next(s, step);
    if |t.reports| > |s.reports| {
      assert Descriptions(t.reports) == Descriptions(s.reports) + [s.open.value];
    }
  }

  const START := State(None, 0, false, None, [], [])

  lemma ConservedAtStart()
    ensures Conserved(START)
  {
    assert Descriptions([]) == [];
  }

  // On every run the reports name the accepted requests, each once and in order, with at
  // most one request still open; and each report stems from an analysis that was given it.
  lemma {:induction false} EveryInvestigationReportedOnce(s: State, steps: seq<Step>)
    requires Conserved(s)
    ensures Conserved(Play(s, steps))
    decreases |steps|
  {
    if steps == [] {
    } else {
      ConservedStays(s, steps[0]);
      EveryInvestigationReportedOnce(Next(s, steps[0]), steps[1..]);
    }
  }

  // A request made while an analysis is already running outlives it, however it ends, and
  // goes into the next one.
  lemma LateRequestWaits(s: State, description: string, now: int, success: bool)
    requires Conserved(s) && s.analysis.Some? && !Rejected(s, description, true, false, now)
    ensures var t := Finish(Request(s, description, true, false, now), success);
            && t.open == Some(description) && t.reports == s.reports
            && Spawn(t).analysis == Some(Some(description)) && Spawn(t).carrying
  {
  }
}
