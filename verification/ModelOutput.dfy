// Bounding what the model answered before it is logged, shown or routed
// (eir-svc/src/models.rs).
module ModelOutput {
  import opened Wrappers
  import opened Utf8

  const MAX_MODEL_PROBLEMS: nat := 5
  const MAX_MODEL_DECISION_TEXT_BYTES: nat := 16 * 1024
  const MAX_MODEL_ACTION_STRING_BYTES: nat := 16 * 1024
  const MAX_MODEL_ACTION_BYTES: nat := 64 * 1024

  datatype Json =
    | Null
    | Bool(flag: bool)
    | Number(digits: Str)
    | String(text: Str)
    | Array(items: seq<Json>)
    | Object(members: seq<Member>)

  datatype Member = Member(name: Str, value: Json)

  predicate JsonStringsWithin(j: Json, max: nat) {
    match j
    case String(text) => |text| <= max
    case Array(items) => forall v | v in items :: JsonStringsWithin(v, max)
    case Object(members) => forall m | m in members :: |m.name| <= max && JsonStringsWithin(m.value, max)
    case _ => true
  }

  // Every text and every member name anywhere in the value.
  ghost predicate Mentions(j: Json, t: Str) {
    match j
    case String(text) => t == text
    case Array(items) => exists v :: v in items && Mentions(v, t)
    case Object(members) => exists m :: m in members && (t == m.name || Mentions(m.value, t))
    case _ => false
  }

  lemma {:induction false} WithinMeans(j: Json, max: nat)
    ensures JsonStringsWithin(j, max) <==> forall t :: Mentions(j, t) ==> |t| <= max
  {
    match j
    case String(text) =>
      assert Mentions(j, text);
    case Array(items) =>
      forall v | v in items ensures JsonStringsWithin(v, max) <==> forall t :: Mentions(v, t) ==> |t| <= max {
        WithinMeans(v, max);
      }
      forall v, t | v in items && Mentions(v, t) ensures Mentions(j, t) {}
    case Object(members) =>
      forall m | m in members
        ensures JsonStringsWithin(m.value, max) <==> forall t :: Mentions(m.value, t) ==> |t| <= max
      {
        WithinMeans(m.value, max);
      }
      forall m, t | m in members && (t == m.name || Mentions(m.value, t)) ensures Mentions(j, t) {}
      forall m | m in members ensures Mentions(j, m.name) {}
    case _ =>
  }

  // `confidence` in thousandths: it is only carried along.
  datatype Problem = Problem(diagnosis: Str, rootCause: Str, confidence: int, proposedFix: Json, reasoning: Str,
                             sideEffects: Str, undoInstructions: Str)

  // The serialiser and the action parser: any will do.
  datatype Codec = Codec(size: Json -> Option<nat>, parses: Json -> bool)

  predicate Passes(fix: Json, codec: Codec) {
    && JsonStringsWithin(fix, MAX_MODEL_ACTION_STRING_BYTES)
    && codec.size(fix).Some? && codec.size(fix).value <= MAX_MODEL_ACTION_BYTES
    && codec.parses(fix)
  }

  function Short(text: Str): Str {
    Truncated(text, MAX_MODEL_DECISION_TEXT_BYTES)
  }

  function Shortened(p: Problem): Problem {
    Problem(Short(p.diagnosis), Short(p.rootCause), p.confidence, p.proposedFix, Short(p.reasoning),
            Short(p.sideEffects), Short(p.undoInstructions))
  }

  function ShortenedAll(ps: seq<Problem>): seq<Problem> {
    seq(|ps|, i requires 0 <= i < |ps| => Shortened(ps[i]))
  }

  function Retained(ps: seq<Problem>, codec: Codec): seq<Problem> {
    if ps == [] then []
    else
      var rest := Retained(ps[..|ps| - 1], codec);
      if Passes(ps[|ps| - 1].proposedFix, codec) then rest + [ps[|ps| - 1]] else rest
  }

  function FirstFew(ps: seq<Problem>): seq<Problem> {
    if |ps| <= MAX_MODEL_PROBLEMS then ps else ps[..MAX_MODEL_PROBLEMS]
  }

  function Bounded(ps: seq<Problem>, codec: Codec): seq<Problem> {
    FirstFew(Retained(ShortenedAll(ps), codec))
  }

  class ModelDecision {
    var analysis: Str
    var problems: seq<Problem>
    var needsDeeperAnalysis: bool

    constructor (analysis: Str, problems: seq<Problem>, needsDeeperAnalysis: bool)
      ensures this.analysis == analysis && this.problems == problems
      ensures this.needsDeeperAnalysis == needsDeeperAnalysis
    {
      this.analysis, this.problems, this.needsDeeperAnalysis := analysis, problems, needsDeeperAnalysis;
    }

    method BoundModelOutput(codec: Codec)
      modifies `analysis, `problems
      ensures analysis == Short(old(analysis))
      ensures problems == Bounded(old(problems), codec)
    {
      hide Truncated, Passes, Valid;
      analysis := TruncateUtf8Bytes(analysis, MAX_MODEL_DECISION_TEXT_BYTES);
      ShortenTexts();
      Retain(codec);
      if |problems| > MAX_MODEL_PROBLEMS {
        problems := problems[..MAX_MODEL_PROBLEMS];
      }
    }

    method ShortenTexts()
      modifies `problems
      ensures problems == ShortenedAll(old(problems))
    {
      hide Truncated, Valid, Longest;
      for i := 0 to |problems|
        invariant |problems| == |old(problems)|
        invariant forall k | 0 <= k < |problems| ::
                    problems[k] == if k < i then Shortened(old(problems)[k]) else old(problems)[k]
      {
        var p := problems[i];
        var diagnosis := TruncateUtf8Bytes(p.diagnosis, MAX_MODEL_DECISION_TEXT_BYTES);
        var rootCause := TruncateUtf8Bytes(p.rootCause, MAX_MODEL_DECISION_TEXT_BYTES);
        var reasoning := TruncateUtf8Bytes(p.reasoning, MAX_MODEL_DECISION_TEXT_BYTES);
        var sideEffects := TruncateUtf8Bytes(p.sideEffects, MAX_MODEL_DECISION_TEXT_BYTES);
        var undoInstructions := TruncateUtf8Bytes(p.undoInstructions, MAX_MODEL_DECISION_TEXT_BYTES);
        problems := problems[i := Problem(diagnosis, rootCause, p.confidence, p.proposedFix, reasoning, sideEffects,
                                          undoInstructions)];
      }
    }

    method Retain(codec: Codec)
      modifies `problems
      ensures problems == Retained(old(problems), codec)
    {
      hide Passes;
      var kept := [];
      for i := 0 to |problems|
        invariant problems == old(problems)
        invariant kept == Retained(problems[..i], codec)
      {
        assert problems[..i + 1][..i] == problems[..i];
        if Passes(problems[i].proposedFix, codec) {
          kept := kept + [problems[i]];
        }
      }
      assert problems[..|problems|] == problems;
      problems := kept;
    }
  }

  // Where the problems that pass stand in the answer.
  function PassingAt(ps: seq<Problem>, codec: Codec): seq<nat> {
    if ps == [] then []
    else
      var rest := PassingAt(ps[..|ps| - 1], codec);
      if Passes(ps[|ps| - 1].proposedFix, codec) then rest + [|ps| - 1] else rest
  }

  lemma {:induction false} PassingAtMeans(ps: seq<Problem>, codec: Codec)
    ensures forall i, j | 0 <= i < j < |PassingAt(ps, codec)| :: PassingAt(ps, codec)[i] < PassingAt(ps, codec)[j]
    ensures forall i: nat :: i in PassingAt(ps, codec) <==> i < |ps| && Passes(ps[i].proposedFix, codec)
  {
    hide Passes;
    if ps == [] {
    } else {
      var init := ps[..|ps| - 1];
      PassingAtMeans(init, codec);
      var rest := PassingAt(init, codec);
      assert forall k | 0 <= k < |rest| :: rest[k] in rest;
    }
  }

  lemma {:induction false} RetainedIsPassing(ps: seq<Problem>, codec: Codec)
    ensures |Retained(ps, codec)| == |PassingAt(ps, codec)|
    ensures forall k | 0 <= k < |PassingAt(ps, codec)| ::
              PassingAt(ps, codec)[k] < |ps| && Retained(ps, codec)[k] == ps[PassingAt(ps, codec)[k]]
  {
    hide Passes;
    if ps == [] {
    } else {
      RetainedIsPassing(ps[..|ps| - 1], codec);
    }
  }

  lemma {:induction false} ShorteningKeepsPassing(ps: seq<Problem>, codec: Codec)
    ensures PassingAt(ShortenedAll(ps), codec) == PassingAt(ps, codec)
  {
    hide Passes, Truncated;
    if ps == [] {
    } else {
      ShorteningKeepsPassing(ps[..|ps| - 1], codec);
      assert ShortenedAll(ps)[..|ps| - 1] == ShortenedAll(ps[..|ps| - 1]);
    }
  }

  // What is kept: the first five problems whose untouched action passes, in order, with
  // their texts cut and their actions as they were.
  lemma KeepsFirstFivePassing(ps: seq<Problem>, codec: Codec)
    ensures var at, kept := PassingAt(ps, codec), Bounded(ps, codec);
            && |kept| == (if |at| < MAX_MODEL_PROBLEMS then |at| else MAX_MODEL_PROBLEMS)
            && forall k | 0 <= k < |kept| ::
                 && at[k] < |ps| && kept[k] == Shortened(ps[at[k]])
                 && kept[k].proposedFix == ps[at[k]].proposedFix && Passes(kept[k].proposedFix, codec)
  {
    hide Passes, Truncated;
    var at := PassingAt(ps, codec);
    RetainedIsPassing(ShortenedAll(ps), codec);
    ShorteningKeepsPassing(ps, codec);
    PassingAtMeans(ps, codec);
    assert forall k | 0 <= k < |at| :: at[k] in at;
  }

  lemma {:induction false} AllRetained(ps: seq<Problem>, codec: Codec)
    requires forall i | 0 <= i < |ps| :: Passes(ps[i].proposedFix, codec)
    ensures Retained(ps, codec) == ps
  {
    hide Passes;
    if ps == [] {
    } else {
      AllRetained(ps[..|ps| - 1], codec);
    }
  }

  lemma ShortTwice(text: Str)
    ensures Short(Short(text)) == Short(text)
  {
    TruncatedIsLongest(text, MAX_MODEL_DECISION_TEXT_BYTES);
    TruncatedIsLongest(Short(text), MAX_MODEL_DECISION_TEXT_BYTES);
  }

  lemma ShortenedTwice(p: Problem)
    ensures Shortened(Shortened(p)) == Shortened(p)
  {
    hide Truncated;
    ShortTwice(p.diagnosis);
    ShortTwice(p.rootCause);
    ShortTwice(p.reasoning);
    ShortTwice(p.sideEffects);
    ShortTwice(p.undoInstructions);
  }

  // Bounding an answer twice changes nothing more.
  lemma BoundingIsIdempotent(analysis: Str, ps: seq<Problem>, codec: Codec)
    ensures Short(Short(analysis)) == Short(analysis)
    ensures Bounded(Bounded(ps, codec), codec) == Bounded(ps, codec)
  {
    ShortTwice(analysis);
    hide Passes, Short, Shortened, Retained;
    var once, at := Bounded(ps, codec), PassingAt(ps, codec);
    KeepsFirstFivePassing(ps, codec);
    forall k | 0 <= k < |once| ensures ShortenedAll(once)[k] == once[k] {
      ShortenedTwice(ps[at[k]]);
    }
    assert ShortenedAll(once) == once;
    AllRetained(once, codec);
  }

  // --- the same, on the fields ---

  // Each text is the longest well-formed prefix of that very text within 16 KiB.
  predicate CutTo(text: Str, cut: Str) {
    && cut <= text && |cut| <= 16384
    && forall i | |cut| < i <= |text| && i <= 16384 :: !Valid(text[..i])
  }

  predicate OnlyTextsCut(p: Problem, q: Problem) {
    && CutTo(p.diagnosis, q.diagnosis) && CutTo(p.rootCause, q.rootCause) && CutTo(p.reasoning, q.reasoning)
    && CutTo(p.sideEffects, q.sideEffects) && CutTo(p.undoInstructions, q.undoInstructions)
    && q.confidence == p.confidence && q.proposedFix == p.proposedFix
  }

  lemma ShortIsCut(text: Str)
    ensures CutTo(text, Short(text))
  {
    TruncatedIsLongest(text, MAX_MODEL_DECISION_TEXT_BYTES);
  }

  lemma ShortenedIsCut(p: Problem)
    ensures OnlyTextsCut(p, Shortened(p))
  {
    ShortIsCut(p.diagnosis);
    ShortIsCut(p.rootCause);
    ShortIsCut(p.reasoning);
    ShortIsCut(p.sideEffects);
    ShortIsCut(p.undoInstructions);
    hide CutTo, Short;
  }

  // An action is kept exactly when every text and member name in it is within 16 KiB, it
  // serialises within 64 KiB, and it parses.
  ghost predicate Acceptable(fix: Json, codec: Codec) {
    && (forall t :: Mentions(fix, t) ==> |t| <= 16384)
    && codec.size(fix).Some? && codec.size(fix).value <= 65536
    && codec.parses(fix)
  }

  lemma PassesIffAcceptable(fix: Json, codec: Codec)
    ensures Passes(fix, codec) <==> Acceptable(fix, codec)
  {
    WithinMeans(fix, MAX_MODEL_ACTION_STRING_BYTES);
    hide JsonStringsWithin, Mentions;
  }

  // The k-th problem that is kept is the k-th acceptable one, with nothing but its texts cut;
  // and there are five of them unless fewer are acceptable.
  lemma KeptFields(ps: seq<Problem>, codec: Codec)
    ensures var at, kept := PassingAt(ps, codec), Bounded(ps, codec);
            && (forall i: nat :: i in at <==> i < |ps| && Acceptable(ps[i].proposedFix, codec))
            && (forall i, j | 0 <= i < j < |at| :: at[i] < at[j])
            && |kept| == (if |at| < 5 then |at| else 5)
            && forall k | 0 <= k < |kept| :: at[k] < |ps| && OnlyTextsCut(ps[at[k]], kept[k])
  {
    var at, kept := PassingAt(ps, codec), Bounded(ps, codec);
    PassingAtMeans(ps, codec);
    KeepsFirstFivePassing(ps, codec);
    hide PassingAt, Bounded, Passes, Acceptable, Shortened, OnlyTextsCut;
    forall i: nat ensures i in at <==> i < |ps| && Acceptable(ps[i].proposedFix, codec) {
      if i < |ps| { PassesIffAcceptable(ps[i].proposedFix, codec); }
    }
    forall k | 0 <= k < |kept| ensures OnlyTextsCut(ps[at[k]], kept[k]) {
      ShortenedIsCut(ps[at[k]]);
    }
  }
}
