// Skipping cycles in which nothing changed: the fingerprint of the actionable signals and
// the gate that compares it (eir-svc/src/main.rs).
module IdleSkip {
  import opened Wrappers
  import Actions

  // --- the fingerprint ---

  datatype Signal =
    | LogLines(path: string, severity: string, digest: string, snippets: bool)
    | EventEntry(level: string, source: string, id: string)
    | ScreenError(app: string, title: string, hung: bool)
    | Fault(part: string)
    | Benign

  function PartOf(s: Signal): Option<string> {
    match s
    case LogLines(path, severity, digest, snippets) =>
      if severity != "INFO" || snippets then Some("F|" + path + "|" + severity + "|" + digest) else None
    case EventEntry(level, source, id) =>
      if level == "Error" || level == "Warning" then Some("E|" + level + "|" + source + "|" + id) else None
    case ScreenError(app, title, hung) => Some(if hung then "H|" + app else "D|" + app + "|" + title)
    case Fault(part) => Some(part)
    case Benign => None
  }

  function Parts(signals: seq<Signal>): seq<string> {
    if signals == [] then []
    else (if PartOf(signals[0]).Some? then [PartOf(signals[0]).value] else []) + Parts(signals[1..])
  }

  predicate Leq(a: string, b: string) {
    a == "" || (b != "" && (a[0] < b[0] || (a[0] == b[0] && Leq(a[1..], b[1..]))))
  }

  function Insert(x: string, s: seq<string>): seq<string> {
    if s == [] || Leq(x, s[0]) then [x] + s else [s[0]] + Insert(x, s[1..])
  }

  function Sort(s: seq<string>): seq<string> {
    if s == [] then [] else Insert(s[0], Sort(s[1..]))
  }

  function Join(parts: seq<string>): string
    requires parts != []
  {
    if |parts| == 1 then parts[0] else parts[0] + "\n" + Join(parts[1..])
  }

  function Fingerprint(signals: seq<Signal>): Option<string> {
    var parts := Sort(Parts(signals));
    if parts == [] then None else Some(Join(parts))
  }

  lemma {:induction false} LeqTotal(a: string, b: string)
    ensures Leq(a, b) || Leq(b, a)
    ensures Leq(a, b) && Leq(b, a) ==> a == b
  {
    if a != "" && b != "" && a[0] == b[0] {
      LeqTotal(a[1..], b[1..]);
      assert a == [a[0]] + a[1..] && b == [b[0]] + b[1..];
    }
  }

  lemma {:induction false} LeqTransitive(a: string, b: string, c: string)
    requires Leq(a, b) && Leq(b, c)
    ensures Leq(a, c)
  {
    if a != "" && a[0] == b[0] == c[0] {
      LeqTransitive(a[1..], b[1..], c[1..]);
    }
  }

  predicate Sorted(s: seq<string>) {
    forall i, j | 0 <= i < j < |s| :: Leq(s[i], s[j])
  }

  lemma {:induction false} InsertSorts(x: string, s: seq<string>)
    requires Sorted(s)
    ensures Sorted(Insert(x, s)) && multiset(Insert(x, s)) == multiset(s) + multiset{x}
  {
    hide Leq;
    if s == [] {
    } else {
      assert s == [s[0]] + s[1..];
      if Leq(x, s[0]) {
        forall i | 0 <= i < |s| ensures Leq(x, s[i]) {
          if i > 0 { LeqTransitive(x, s[0], s[i]); }
        }
      } else {
        LeqTotal(x, s[0]);
        InsertSorts(x, s[1..]);
        var rest := Insert(x, s[1..]);
        forall i | 0 <= i < |rest| ensures Leq(s[0], rest[i]) {
          assert rest[i] in multiset(rest);
          assert rest[i] == x || rest[i] in s[1..];
        }
      }
    }
  }

  lemma {:induction false} SortSorts(s: seq<string>)
    ensures Sorted(Sort(s)) && multiset(Sort(s)) == multiset(s)
  {
    if s == [] {
    } else {
      SortSorts(s[1..]);
      InsertSorts(s[0], Sort(s[1..]));
      assert s == [s[0]] + s[1..];
    }
  }

  // The least element comes first.
  lemma SameHead(a: seq<string>, b: seq<string>)
    requires Sorted(a) && Sorted(b) && multiset(a) == multiset(b) && a != [] && b != []
    ensures a[0] == b[0]
  {
    assert a[0] in multiset(b) && b[0] in multiset(a);
    var i :| 0 <= i < |b| && b[i] == a[0];
    var j :| 0 <= j < |a| && a[j] == b[0];
    LeqTotal(a[0], b[0]);
    LeqReflexive(a[0]);
    hide Leq;
    assert Leq(b[0], b[i]) && Leq(a[0], a[j]);
  }

  lemma {:induction false} SortedIsUnique(a: seq<string>, b: seq<string>)
    requires Sorted(a) && Sorted(b) && multiset(a) == multiset(b)
    ensures a == b
    decreases |a|
  {
    assert |multiset(a)| == |a| && |multiset(b)| == |b|;
    if a == [] {
    } else {
      SameHead(a, b);
      hide Leq;
      assert a == [a[0]] + a[1..] && b == [b[0]] + b[1..];
      assert multiset(a[1..]) == multiset(a) - multiset{a[0]};
      assert multiset(b[1..]) == multiset(b) - multiset{b[0]};
      SortedIsUnique(a[1..], b[1..]);
    }
  }

  lemma {:induction false} LeqReflexive(a: string)
    ensures Leq(a, a)
  {
    if a == "" {
    } else {
      LeqReflexive(a[1..]);
    }
  }

  predicate OneLine(parts: seq<string>) {
    forall i | 0 <= i < |parts| :: '\n' !in parts[i]
  }

  lemma {:induction false} JoinIsExact(a: seq<string>, b: seq<string>)
    requires a != [] && b != [] && OneLine(a) && OneLine(b) && Join(a) == Join(b)
    ensures a == b
    decreases |a|
  {
    var x, y := Join(a), Join(b);
    assert forall i | 0 <= i < |a[0]| :: x[i] == a[0][i] != '\n';
    assert forall i | 0 <= i < |b[0]| :: y[i] == b[0][i] != '\n';
    assert |a| > 1 ==> x[|a[0]|] == '\n' && x[|a[0]| + 1..] == Join(a[1..]);
    assert |b| > 1 ==> y[|b[0]|] == '\n' && y[|b[0]| + 1..] == Join(b[1..]);
    assert |a[0]| == |b[0]|;
    assert a[0] == x[..|a[0]|] == b[0];
    if |a| > 1 {
      JoinIsExact(a[1..], b[1..]);
      assert a == [a[0]] + a[1..] && b == [b[0]] + b[1..];
    }
  }

  // The fingerprint does not depend on the order of the signals; and when no part holds a
  // line break, two snapshots share it exactly when they have the same actionable parts.
  lemma FingerprintIgnoresOrder(a: seq<Signal>, b: seq<Signal>)
    ensures multiset(Parts(a)) == multiset(Parts(b)) ==> Fingerprint(a) == Fingerprint(b)
    ensures OneLine(Parts(a)) && OneLine(Parts(b)) && Fingerprint(a) == Fingerprint(b)
            ==> multiset(Parts(a)) == multiset(Parts(b))
    ensures Fingerprint(a).None? <==> Parts(a) == []
  {
    var p, q := Sort(Parts(a)), Sort(Parts(b));
    SortSorts(Parts(a));
    SortSorts(Parts(b));
    assert |p| == |multiset(p)| == |Parts(a)| && |q| == |multiset(q)| == |Parts(b)|;
    if multiset(Parts(a)) == multiset(Parts(b)) {
      SortedIsUnique(p, q);
    }
    if OneLine(Parts(a)) && OneLine(Parts(b)) && Fingerprint(a) == Fingerprint(b) && p != [] {
      OneLineSorted(Parts(a), p);
      OneLineSorted(Parts(b), q);
      JoinIsExact(p, q);
    }
  }

  lemma OneLineSorted(s: seq<string>, t: seq<string>)
    requires OneLine(s) && multiset(s) == multiset(t)
    ensures OneLine(t)
  {
    forall i | 0 <= i < |t| ensures '\n' !in t[i] {
      assert t[i] in multiset(s);
      var j :| 0 <= j < |s| && s[j] == t[i];
    }
  }

  // --- the gate ---

  datatype Event =
    | Started(fingerprint: Option<string>)
    | Analysed(fingerprint: Option<string>)     // an analysis succeeded and was folded in
    | Failed
    | Skipped(fingerprint: Option<string>)
    | GameOver

  // `trace` records what happened and steers nothing.
  datatype State = State(last: Option<string>, running: Option<Option<string>>, trace: seq<Event>)

  datatype Step =
    | Cycle(fingerprint: Option<string>, userReport: bool, heartbeat: bool)
    | AnalysisOk
    | AnalysisFailed
    | EndGame

  function CycleStep(s: State, fp: Option<string>, userReport: bool, heartbeat: bool): State {
    if s.running.Some? then s
    else
      var changed := userReport || (fp.Some? && fp != s.last);
      if changed || heartbeat then s.(running := Some(fp), trace := s.trace + [Started(fp)])
      else s.(last := if fp.None? then None else s.last, trace := s.trace + [Skipped(fp)])
  }

  function Next(s: State, step: Step): State {
    match step
    case Cycle(fp, userReport, heartbeat) => CycleStep(s, fp, userReport, heartbeat)
    case AnalysisOk =>
      if s.running.None? then s
      else s.(last := s.running.value, running := None, trace := s.trace + [Analysed(s.running.value)])
    case AnalysisFailed => if s.running.None? then s else s.(running := None, trace := s.trace + [Failed])
    case EndGame => s.(last := None, trace := s.trace + [GameOver])
  }

  function Play(s: State, steps: seq<Step>): State
    decreases |steps|
  {
    if steps == [] then s else Play(Next(s, steps[0]), steps[1..])
  }

  const START := State(None, None, [])

  // Something that makes the next actionable cycle count as a change, unless it is of what
  // was analysed.
  predicate Resets(e: Event) {
    e.GameOver? || e == Skipped(None) || e.Analysed?
  }

  // An analysis begins or ends.
  predicate OfAnalysis(e: Event) {
    e.Started? || e.Analysed? || e.Failed?
  }

  // `fp` was analysed successfully before position `n`, and nothing has reset that since.
  ghost predicate StillCurrent(trace: seq<Event>, fp: string, n: nat) {
    exists m :: 0 <= m < n <= |trace| && trace[m] == Analysed(Some(fp)) && forall k | m < k < n :: !Resets(trace[k])
  }

  // An analysis of `fp` began before position `n` and has not ended since.
  ghost predicate InFlight(trace: seq<Event>, fp: Option<string>, n: nat) {
    exists k :: 0 <= k < n <= |trace| && trace[k] == Started(fp) && forall j | k < j < n :: !OfAnalysis(trace[j])
  }

  // Every skip was of a current fingerprint; the remembered fingerprint is the current one,
  // the running analysis the one in flight; and every success was of the one in flight.
  ghost predicate Honest(s: State) {
    && (forall n, fp | 0 <= n < |s.trace| && s.trace[n] == Skipped(Some(fp)) :: StillCurrent(s.trace, fp, n))
    && (forall fp :: s.last == Some(fp) <==> StillCurrent(s.trace, fp, |s.trace|))
    && (forall fp :: s.running == Some(fp) <==> InFlight(s.trace, fp, |s.trace|))
    && (forall n, fp | 0 <= n < |s.trace| && s.trace[n] == Analysed(fp) :: InFlight(s.trace, fp, n))
  }

  lemma CurrentGrows(trace: seq<Event>, e: Event, fp: string, n: nat)
    requires n <= |trace|
    ensures StillCurrent(trace + [e], fp, n) <==> StillCurrent(trace, fp, n)
  {
    var more := trace + [e];
    if m :| 0 <= m < n && trace[m] == Analysed(Some(fp)) && forall k | m < k < n :: !Resets(trace[k]) {
      assert more[m] == trace[m] && forall k | m < k < n :: more[k] == trace[k];
    }
    if m :| 0 <= m < n && more[m] == Analysed(Some(fp)) && forall k | m < k < n :: !Resets(more[k]) {
      assert trace[m] == more[m] && forall k | m < k < n :: trace[k] == more[k];
    }
  }

  lemma CurrentAfter(trace: seq<Event>, e: Event, fp: string)
    ensures StillCurrent(trace + [e], fp, |trace| + 1)
            <==> e == Analysed(Some(fp)) || (!Resets(e) && StillCurrent(trace, fp, |trace|))
  {
    var more, n := trace + [e], |trace|;
    assert more[n] == e;
    if m :| 0 <= m < n && trace[m] == Analysed(Some(fp)) && forall k | m < k < n :: !Resets(trace[k]) {
      if !Resets(e) {
        assert more[m] == trace[m] && forall k | m < k < n + 1 :: !Resets(more[k]);
      }
    }
    if m :| 0 <= m < n + 1 && more[m] == Analysed(Some(fp)) && forall k | m < k < n + 1 :: !Resets(more[k]) {
      if m < n {
        assert trace[m] == more[m] && forall k | m < k < n :: trace[k] == more[k];
      }
    }
  }

  lemma FlightGrows(trace: seq<Event>, e: Event, fp: Option<string>, n: nat)
    requires n <= |trace|
    ensures InFlight(trace + [e], fp, n) <==> InFlight(trace, fp, n)
  {
    var more := trace + [e];
    if k :| 0 <= k < n && trace[k] == Started(fp) && forall j | k < j < n :: !OfAnalysis(trace[j]) {
      assert more[k] == trace[k] && forall j | k < j < n :: more[j] == trace[j];
    }
    if k :| 0 <= k < n && more[k] == Started(fp) && forall j | k < j < n :: !OfAnalysis(more[j]) {
      assert trace[k] == more[k] && forall j | k < j < n :: trace[j] == more[j];
    }
  }

  lemma FlightAfter(trace: seq<Event>, e: Event, fp: Option<string>)
    ensures InFlight(trace + [e], fp, |trace| + 1)
            <==> e == Started(fp) || (!OfAnalysis(e) && InFlight(trace, fp, |trace|))
  {
    var more, n := trace + [e], |trace|;
    assert more[n] == e;
    if k :| 0 <= k < n && trace[k] == Started(fp) && forall j | k < j < n :: !OfAnalysis(trace[j]) {
      if !OfAnalysis(e) {
        assert more[k] == trace[k] && forall j | k < j < n + 1 :: !OfAnalysis(more[j]);
      }
    }
    if k :| 0 <= k < n + 1 && more[k] == Started(fp) && forall j | k < j < n + 1 :: !OfAnalysis(more[j]) {
      if k < n {
        assert trace[k] == more[k] && forall j | k < j < n :: trace[j] == more[j];
      }
    }
  }

  // One more event, told apart from the past: what honesty asks of it.
  lemma HonestExtends(s: State, t: State, e: Event)
    requires Honest(s) && t.trace == s.trace + [e]
    requires e.Skipped? && e.fingerprint.Some? ==> s.last == e.fingerprint
    requires e.Analysed? ==> s.running == Some(e.fingerprint)
    requires t.last == if e.Analysed? then e.fingerprint else if Resets(e) then None else s.last
    requires e.Started? ==> s.running.None?
    requires t.running == if e.Started? then Some(e.fingerprint) else if OfAnalysis(e) then None else s.running
    ensures Honest(t)
  {
    hide StillCurrent, InFlight;
    forall n, fp | 0 <= n < |t.trace| && t.trace[n] == Skipped(Some(fp)) ensures StillCurrent(t.trace, fp, n) {
      CurrentGrows(s.trace, e, fp, n);
      assert n < |s.trace| ==> s.trace[n] == Skipped(Some(fp));
    }
    forall fp ensures t.last == Some(fp) <==> StillCurrent(t.trace, fp, |t.trace|) {
      CurrentAfter(s.trace, e, fp);
    }
    forall fp ensures t.running == Some(fp) <==> InFlight(t.trace, fp, |t.trace|) {
      FlightAfter(s.trace, e, fp);
    }
    forall n, fp | 0 <= n < |t.trace| && t.trace[n] == Analysed(fp) ensures InFlight(t.trace, fp, n) {
      FlightGrows(s.trace, e, fp, n);
      assert n < |s.trace| ==> s.trace[n] == Analysed(fp);
    }
  }

  lemma HonestStays(s: State, step: Step)
    requires Honest(s)
    ensures Honest(Next(s, step))
  {
    var t := Next(s, step);
    hide Honest;
    if t.trace != s.trace {
      HonestExtends(s, t, t.trace[|s.trace|]);
    }
  }

  lemma HonestAtStart()
    ensures Honest(START)
  {
  }

  // On every run, an actionable cycle is skipped only if the last successful analysis was of
  // that very fingerprint and neither a quiet skip nor the end of a game came in between.
  lemma {:induction false} SkipsAreHonest(s: State, steps: seq<Step>)
    requires Honest(s)
    ensures Honest(Play(s, steps))
    decreases |steps|
  {
    hide Honest;
    if steps == [] {
    } else {
      HonestStays(s, steps[0]);
      SkipsAreHonest(Next(s, steps[0]), steps[1..]);
    }
  }

  // The end of a game asks for a fresh analysis. At once, that is lost exactly when an
  // analysis of the same signals was in flight at that moment and then succeeds.
  lemma GameEndIsLostInFlight(s: State, fp: string)
    ensures var t := Next(Next(s, EndGame), AnalysisOk);
            CycleStep(t, Some(fp), false, false).running.None? <==> s.running == Some(Some(fp))
  {
  }

  // An analysis that was in flight when the game ended has succeeded since, and neither a
  // quiet skip nor another game's end came after it.
  ghost predicate OldAnalysisLanded(trace: seq<Event>, fp: string, g: nat) {
    && InFlight(trace, Some(fp), g)
    && exists m :: g < m < |trace| && trace[m] == Analysed(Some(fp)) && forall k | m < k < |trace| :: !Resets(trace[k])
  }

  // And on every run, however long after: as long as no analysis has begun since the game
  // ended, the next cycle of some signals is skipped exactly when an analysis of those very
  // signals was in flight at the end of the game, has succeeded since and still counts.
  lemma GameEndIsLostIff(steps: seq<Step>, g: nat, fp: string)
    requires var t := Play(START, steps);
             && t.running.None? && g < |t.trace| && t.trace[g] == GameOver
             && forall k | g < k < |t.trace| :: !t.trace[k].Started?
    ensures var t := Play(START, steps);
            CycleStep(t, Some(fp), false, false).trace == t.trace + [Skipped(Some(fp))]
            <==> OldAnalysisLanded(t.trace, fp, g)
  {
    HonestAtStart();
    SkipsAreHonest(START, steps);
    var t := Play(START, steps);
    hide Play;
    assert CycleStep(t, Some(fp), false, false).trace == t.trace + [Skipped(Some(fp))] <==> t.last == Some(fp) by {
      assert t.trace + [Skipped(Some(fp))] != t.trace + [Started(Some(fp))] by {
        assert (t.trace + [Skipped(Some(fp))])[|t.trace|] != (t.trace + [Started(Some(fp))])[|t.trace|];
      }
    }
    if t.last == Some(fp) { LastLandedLate(t, g, fp); }
  }

  lemma LastLandedLate(t: State, g: nat, fp: string)
    requires Honest(t) && g < |t.trace| && t.trace[g] == GameOver && t.last == Some(fp)
    requires forall k | g < k < |t.trace| :: !t.trace[k].Started?
    ensures OldAnalysisLanded(t.trace, fp, g)
  {
    var n := |t.trace|;
    assert StillCurrent(t.trace, fp, n);
    var m :| 0 <= m < n && t.trace[m] == Analysed(Some(fp)) && forall k | m < k < n :: !Resets(t.trace[k]);
    assert g < m;
    assert InFlight(t.trace, Some(fp), m);
    var k :| 0 <= k < m && t.trace[k] == Started(Some(fp)) && forall j | k < j < m :: !OfAnalysis(t.trace[j]);
    assert k < g;
  }

  // --- what counts ---

  // Signals of the same fault: same kind and same identifying fields.
  predicate SameFault(a: Signal, b: Signal) {
    match a
    case LogLines(path, severity, digest, _) =>
      b.LogLines? && b.path == path && b.severity == severity && b.digest == digest
    case EventEntry(level, source, id) => b.EventEntry? && b.level == level && b.source == source && b.id == id
    case ScreenError(app, title, hung) => b.ScreenError? && b.app == app && b.hung == hung && (hung || b.title == title)
    case Fault(part) => b == a
    case Benign => b == a
  }

  predicate Barless(s: Signal) {
    match s
    case LogLines(path, severity, digest, _) => '|' !in path && '|' !in severity && '|' !in digest
    case EventEntry(level, source, id) => '|' !in level && '|' !in source && '|' !in id
    case ScreenError(app, title, _) => '|' !in app && '|' !in title
    case _ => true
  }

  // A signal is actionable when it is a log change that is not plain information or brought
  // new error lines, an error or warning event, a hung or failed window, or a system fault.
  lemma ActionableIff(s: Signal)
    ensures PartOf(s).Some? <==>
              || (s.LogLines? && (s.severity != "INFO" || s.snippets))
              || (s.EventEntry? && s.level in {"Error", "Warning"})
              || s.ScreenError? || s.Fault?
  {
  }

  function Tail(s: Signal): string
    requires s.LogLines? || s.EventEntry? || s.ScreenError?
  {
    match s
    case LogLines(path, severity, digest, _) => Actions.ThreeParts(path, severity, digest)
    case EventEntry(level, source, id) => Actions.ThreeParts(level, source, id)
    case ScreenError(app, title, hung) => if hung then app else Actions.RegistryTarget(app, title)
  }

  function Tag(s: Signal): char {
    if s.LogLines? then 'F' else if s.EventEntry? then 'E' else if s.ScreenError? && s.hung then 'H' else 'D'
  }

  lemma PartIsTagged(s: Signal)
    requires (s.LogLines? || s.EventEntry? || s.ScreenError?) && PartOf(s).Some?
    ensures PartOf(s).value == [Tag(s)] + "|" + Tail(s)
  {
  }

  // Two actionable signals have the same part exactly when they are of the same fault, for
  // fields without bars; parts of system faults are given as they are.
  lemma SamePartIffSameFault(a: Signal, b: Signal)
    requires !a.Fault? && !b.Fault? && PartOf(a).Some? && PartOf(b).Some? && Barless(a)
    ensures PartOf(a) == PartOf(b) <==> SameFault(a, b)
  {
    PartIsTagged(a);
    PartIsTagged(b);
    var x, y := PartOf(a).value, PartOf(b).value;
    assert x[0] == Tag(a) && y[0] == Tag(b) && x[2..] == Tail(a) && y[2..] == Tail(b);
    hide PartOf;
    if x == y {
      match a
      case LogLines(path, severity, digest, _) =>
        Actions.TwoBarsSplitOnce(path, severity, digest, b.path, b.severity, b.digest);
      case EventEntry(level, source, id) =>
        Actions.TwoBarsSplitOnce(level, source, id, b.level, b.source, b.id);
      case ScreenError(app, title, hung) =>
        if !hung { Actions.RegistryTargetUnambiguous(app, title); }
    }
  }

  // On every run, a cycle starts an analysis exactly when none is running and the user asked,
  // the heartbeat is due, or there is something actionable that is not what the last
  // successful analysis since any reset was of.
  lemma StartsIff(steps: seq<Step>, fp: Option<string>, userReport: bool, heartbeat: bool)
    ensures var t := Play(START, steps);
            CycleStep(t, fp, userReport, heartbeat).trace == t.trace + [Started(fp)] <==>
              && t.running.None?
              && (userReport || heartbeat || (fp.Some? && !StillCurrent(t.trace, fp.value, |t.trace|)))
  {
    HonestAtStart();
    SkipsAreHonest(START, steps);
    var t := Play(START, steps);
    hide Play, StillCurrent, InFlight;
    assert (t.trace + [Started(fp)])[|t.trace|] != (t.trace + [Skipped(fp)])[|t.trace|];
    assert |t.trace + [Started(fp)]| != |t.trace|;
  }
}
