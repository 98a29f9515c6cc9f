// Undoing registry resets on request: concurrent requests, restores that fail, releases
// that fail, other writers, and restarts (eir-svc/src/audit.rs, eir-svc/src/main.rs).
module UndoProtocol {
  import opened Wrappers
  import opened Registry
  import opened Store

  datatype Phase = Restoring | Releasing

  // One spawned undo task: it holds the record until it ends.
  datatype Task = Task(id: nat, phase: Phase)

  // `restores` lists the successful restores; `lost` the records whose holder went away
  // without restoring or releasing.
  datatype World = World(undos: map<nat, UndoRow>, nextUndo: nat, live: map<string, Scalar>, tasks: seq<Task>,
                         restores: seq<nat>, lost: set<nat>)

  datatype Step =
    | Reset(target: string, data: string, execution: nat)
    | Request(id: nat, legible: bool)
    | Restore(task: nat, works: bool, wrote: bool)
    | Release(task: nat, stored: bool)
    | OtherWriter(target: string, found: Live)
    | Restart

  function At(w: World, target: string): Live {
    if target in w.live then Some(w.live[target]) else None
  }

  function Write(live: map<string, Scalar>, target: string, v: Live): map<string, Scalar> {
    match v
    case Some(s) => live[target := s]
    case None => live - {target}
  }

  function Drop(tasks: seq<Task>, i: nat): seq<Task>
    requires i < |tasks|
  {
    tasks[..i] + tasks[i + 1..]
  }

  function ResetStep(w: World, target: string, data: string, execution: nat): World {
    var u := ResetUndo(target, At(w, target), data);
    w.(undos := w.undos[w.nextUndo := UndoRow(u, execution, false)], nextUndo := w.nextUndo + 1,
       live := Write(w.live, target, Applied(u)))
  }

  // Only the request that claims the record starts a task.
  function RequestStep(w: World, id: nat, legible: bool): World {
    if !legible || !UndoFree(w.undos, id) then w
    else w.(undos := UndoClaimed(w.undos, id), tasks := w.tasks + [Task(id, Restoring)])
  }

  function RestoreStep(w: World, i: nat, works: bool, wrote: bool): World {
    if i >= |w.tasks| || !w.tasks[i].phase.Restoring? || w.tasks[i].id !in w.undos then w
    else
      var id := w.tasks[i].id;
      var u := w.undos[id].undo;
      var passes := Restorable(At(w, u.target), u);
      var live := if passes && (works || wrote) then Write(w.live, u.target, Prior(u)) else w.live;
      if passes && works then w.(live := live, tasks := Drop(w.tasks, i), restores := w.restores + [id])
      else w.(live := live, tasks := w.tasks[i := Task(id, Releasing)])
  }

  // A failed restore gives the record back; if that write fails too, it stays claimed.
  function ReleaseStep(w: World, i: nat, stored: bool): World {
    if i >= |w.tasks| || !w.tasks[i].phase.Releasing? || w.tasks[i].id !in w.undos then w
    else
      var id := w.tasks[i].id;
      if stored then w.(undos := UndoReleased(w.undos, id), tasks := Drop(w.tasks, i))
      else w.(tasks := Drop(w.tasks, i), lost := w.lost + {id})
  }

  function Next(w: World, step: Step): World {
    match step
    case Reset(target, data, execution) => ResetStep(w, target, data, execution)
    case Request(id, legible) => RequestStep(w, id, legible)
    case Restore(task, works, wrote) => RestoreStep(w, task, works, wrote)
    case Release(task, stored) => ReleaseStep(w, task, stored)
    case OtherWriter(target, found) => w.(live := Write(w.live, target, found))
    case Restart => w.(tasks := [], lost := w.lost + Holders(w.tasks))
  }

  function Play(w: World, steps: seq<Step>): World
    decreases |steps|
  {
    if steps == [] then w else Play(Next(w, steps[0]), steps[1..])
  }

  function Holders(tasks: seq<Task>): set<nat> {
    set t | t in tasks :: t.id
  }

  ghost predicate OneHolderEach(tasks: seq<Task>) {
    forall i, j | 0 <= i < j < |tasks| :: tasks[i].id != tasks[j].id
  }

  // A record is claimed exactly while someone holds it, after it was restored, or after its
  // holder was lost; and these exclude one another.
  ghost predicate Sound(w: World) {
    && (forall id | id in w.undos :: id < w.nextUndo)
    && OneHolderEach(w.tasks)
    && NoDup(w.restores)
    && Holders(w.tasks) !! Elements(w.restores)
    && w.lost !! Elements(w.restores)
    && Holders(w.tasks) !! w.lost
    && (forall id | id in Holders(w.tasks) + Elements(w.restores) + w.lost :: id in w.undos)
    && (forall id | id in w.undos ::
          w.undos[id].undone <==> id in Holders(w.tasks) || id in w.restores || id in w.lost)
  }

  lemma DropHolder(tasks: seq<Task>, i: nat)
    requires OneHolderEach(tasks) && i < |tasks|
    ensures OneHolderEach(Drop(tasks, i))
    ensures Holders(Drop(tasks, i)) == Holders(tasks) - {tasks[i].id}
    ensures tasks[i].id in Holders(tasks)
  {
    var d := Drop(tasks, i);
    forall k | 0 <= k < |d| ensures d[k] == tasks[if k < i then k else k + 1] && d[k].id != tasks[i].id {}
    assert tasks[i] in tasks;
    forall id | id in Holders(tasks) && id != tasks[i].id ensures id in Holders(d) {
      var k :| 0 <= k < |tasks| && tasks[k].id == id;
      assert d[if k < i then k else k - 1] == tasks[k];
      assert tasks[k] in d;
    }
    forall id | id in Holders(d) ensures id in Holders(tasks) && id != tasks[i].id {
      var k :| 0 <= k < |d| && d[k].id == id;
      assert d[k] in tasks;
    }
  }

  lemma SoundAfterRequest(w: World, id: nat, legible: bool)
    requires Sound(w)
    ensures Sound(RequestStep(w, id, legible))
  {
    if legible && UndoFree(w.undos, id) {
      var t := RequestStep(w, id, legible);
      assert forall k | 0 <= k < |w.tasks| :: w.tasks[k].id in Holders(w.tasks);
      assert Holders(t.tasks) == Holders(w.tasks) + {id} by {
        assert Task(id, Restoring) in t.tasks;
        assert forall x | x in w.tasks :: x in t.tasks;
      }
    }
  }

  lemma SoundAfterRestore(w: World, i: nat, works: bool, wrote: bool)
    requires Sound(w)
    ensures Sound(RestoreStep(w, i, works, wrote))
  {
    hide Restorable, Prior, Write;
    if i < |w.tasks| {
      var t := RestoreStep(w, i, works, wrote);
      DropHolder(w.tasks, i);
      if t.tasks == Drop(w.tasks, i) && |t.restores| > |w.restores| {
        assert w.tasks[i].id !in w.restores;
        NoDupSnoc(w.restores, w.tasks[i].id);
      } else if |t.tasks| == |w.tasks| {
        SameHolders(w.tasks, t.tasks);
      }
    }
  }

  lemma SameHolders(a: seq<Task>, b: seq<Task>)
    requires |a| == |b| && forall k | 0 <= k < |a| :: a[k].id == b[k].id
    ensures Holders(a) == Holders(b)
  {
    assert forall k | 0 <= k < |a| :: a[k] in a && b[k] in b;
  }

  lemma SoundAfterRelease(w: World, i: nat, stored: bool)
    requires Sound(w)
    ensures Sound(ReleaseStep(w, i, stored))
  {
    if i < |w.tasks| {
      DropHolder(w.tasks, i);
    }
  }

  lemma SoundStays(w: World, step: Step)
    requires Sound(w)
    ensures Sound(Next(w, step))
  {
    match step
    case Request(id, legible) => SoundAfterRequest(w, id, legible);
    case Restore(task, works, wrote) => SoundAfterRestore(w, task, works, wrote);
    case Release(task, stored) => SoundAfterRelease(w, task, stored);
    case _ =>
  }

  lemma {:induction false} AlwaysSound(w: World, steps: seq<Step>)
    requires Sound(w)
    ensures Sound(Play(w, steps))
    decreases |steps|
  {
    hide Next, Sound;
    if steps == [] {
    } else {
      SoundStays(w, steps[0]);
      AlwaysSound(Next(w, steps[0]), steps[1..]);
    }
  }

  ghost predicate Fresh(w: World) {
    && (forall id | id in w.undos :: id < w.nextUndo && !w.undos[id].undone)
    && w.tasks == [] && w.restores == [] && w.lost == {}
  }

  // On every run each record has at most one holder and at most one successful restore, a
  // restored record is never handed out again, and an undo can be requested exactly while
  // nobody holds it, nobody restored it and no holder of it was lost to a restart or a
  // failed release.
  lemma UndoAtMostOnce(w: World, steps: seq<Step>)
    requires Fresh(w)
    ensures var t := Play(w, steps);
            && OneHolderEach(t.tasks)
            && NoDup(t.restores)
            && (forall i | 0 <= i < |t.tasks| :: t.tasks[i].id !in t.restores)
            && (forall id | id in t.undos ::
                  !t.undos[id].undone <==> id !in Holders(t.tasks) && id !in t.restores && id !in t.lost)
  {
    assert Sound(w);
    AlwaysSound(w, steps);
    var t := Play(w, steps);
    hide Play;
    forall i | 0 <= i < |t.tasks| ensures t.tasks[i].id !in t.restores {
      assert t.tasks[i] in t.tasks && t.tasks[i].id in Holders(t.tasks);
      assert t.tasks[i].id !in Elements(t.restores);
    }
    forall id | id in t.undos
      ensures !t.undos[id].undone <==> id !in Holders(t.tasks) && id !in t.restores && id !in t.lost
    {
    }
  }

  // A restart while an undo is running leaves its record claimed although nothing was
  // restored: no later request can start it.
  lemma RestartLosesARunningUndo(w: World, id: nat)
    requires Sound(w) && id in w.undos && !w.undos[id].undone
    ensures var t := Next(Next(w, Request(id, true)), Restart);
            && t.live == w.live && id !in t.restores && Next(t, Request(id, true)) == t
  {
    var a := RequestStep(w, id, true);
    assert Task(id, Restoring) in a.tasks;
  }

  // A restore puts back the exact prior value, and touches nothing unless the live value
  // still is what the reset applied.
  lemma RestoreIsGuarded(w: World, i: nat, works: bool, wrote: bool)
    requires i < |w.tasks| && w.tasks[i].phase.Restoring? && w.tasks[i].id in w.undos
    ensures var t, u := RestoreStep(w, i, works, wrote), w.undos[w.tasks[i].id].undo;
            && (!Restorable(At(w, u.target), u) ==> t.live == w.live)
            && (|t.restores| > |w.restores| ==> At(t, u.target) == Prior(u) && At(w, u.target) == Applied(u))
            && (forall other | other != u.target :: At(t, other) == At(w, other))
  {
  }

  // --- chains of resets of one value ---

  // What a restore is about to write over, if it writes at all.
  predicate Overwrites(w: World, i: nat, works: bool, wrote: bool) {
    && i < |w.tasks| && w.tasks[i].phase.Restoring? && w.tasks[i].id in w.undos
    && var u := w.undos[w.tasks[i].id].undo;
       Restorable(At(w, u.target), u) && (works || wrote)
  }

  predicate RestoresAt(w: World, step: Step, target: string) {
    && step.Restore? && Overwrites(w, step.task, step.works, step.wrote)
    && w.undos[w.tasks[step.task].id].undo.target == target
  }

  // The resets of the value that have not been put back, oldest first.
  function Opened(w: World, step: Step, target: string, open: seq<nat>): seq<nat> {
    if step.Reset? && step.target == target then open + [w.nextUndo]
    else if RestoresAt(w, step, target) && open != [] then open[..|open| - 1]
    else open
  }

  function OpenAfter(w: World, steps: seq<Step>, target: string, open: seq<nat>): seq<nat>
    decreases |steps|
  {
    if steps == [] then open
    else OpenAfter(Next(w, steps[0]), steps[1..], target, Opened(w, steps[0], target, open))
  }

  // No other program writes the value, and what is put back is always the latest reset.
  predicate Orderly(w: World, step: Step, target: string, open: seq<nat>) {
    && (step.OtherWriter? ==> step.target != target)
    && (RestoresAt(w, step, target) ==> open != [] && w.tasks[step.task].id == open[|open| - 1])
  }

  predicate OrderlyRun(w: World, steps: seq<Step>, target: string, open: seq<nat>)
    decreases |steps|
  {
    steps == [] || (Orderly(w, steps[0], target, open)
                    && OrderlyRun(Next(w, steps[0]), steps[1..], target, Opened(w, steps[0], target, open)))
  }

  predicate IsResetOf(w: World, id: nat, target: string) {
    id in w.undos && Complete(w.undos[id].undo) && w.undos[id].undo.target == target
  }

  // The value after the first `k` open resets.
  function ValueAfter(w: World, original: Live, open: seq<nat>, k: nat): Live
    requires k <= |open| && (k > 0 ==> open[k - 1] in w.undos && Complete(w.undos[open[k - 1]].undo))
  {
    if k == 0 then original else Applied(w.undos[open[k - 1]].undo)
  }

  // An open reset found the value as the one before it left it.
  predicate Linked(w: World, target: string, original: Live, open: seq<nat>, k: nat) {
    && k < |open| && IsResetOf(w, open[k], target)
    && (k > 0 ==> IsResetOf(w, open[k - 1], target))
    && Prior(w.undos[open[k]].undo) == ValueAfter(w, original, open, k)
  }

  ghost predicate Stacked(w: World, target: string, original: Live, open: seq<nat>) {
    && (forall id | id in w.undos :: id < w.nextUndo)
    && (forall k: nat | k < |open| :: Linked(w, target, original, open, k))
    && (open != [] ==> IsResetOf(w, open[|open| - 1], target))
    && At(w, target) == ValueAfter(w, original, open, |open|)
  }

  // A link is about the records of the open resets up to it.
  lemma LinkedAlike(w: World, v: World, target: string, original: Live, open: seq<nat>, more: seq<nat>, k: nat)
    requires Linked(w, target, original, open, k) && k < |more| && more[..k + 1] == open[..k + 1]
    requires forall id | id in w.undos :: id in v.undos && v.undos[id].undo == w.undos[id].undo
    ensures Linked(v, target, original, more, k)
  {
    assert more[k] == more[..k + 1][k] && open[k] == open[..k + 1][k];
    assert k > 0 ==> more[k - 1] == more[..k + 1][k - 1] && open[k - 1] == open[..k + 1][k - 1];
  }

  // Same records, same value.
  lemma StackedAlike(w: World, v: World, target: string, original: Live, open: seq<nat>)
    requires Stacked(w, target, original, open) && At(v, target) == At(w, target)
    requires forall id | id in w.undos :: id in v.undos && v.undos[id].undo == w.undos[id].undo
    requires forall id | id in v.undos :: id < v.nextUndo
    ensures Stacked(v, target, original, open)
  {
    hide At, Linked;
    forall k: nat | k < |open| ensures Linked(v, target, original, open, k) {
      LinkedAlike(w, v, target, original, open, open, k);
    }
  }

  lemma ResetLinks(w: World, target: string, data: string, execution: nat, original: Live, open: seq<nat>)
    requires Stacked(w, target, original, open)
    ensures var v, more := ResetStep(w, target, data, execution), open + [w.nextUndo];
            && Linked(v, target, original, more, |open|)
            && At(v, target) == ValueAfter(v, original, more, |more|)
  {
    hide Linked;
    var v, more := ResetStep(w, target, data, execution), open + [w.nextUndo];
    assert IsResetOf(v, w.nextUndo, target);
    assert open != [] ==> IsResetOf(v, open[|open| - 1], target);
    LinkOf(v, target, original, more, |open|);
  }

  lemma LinkOf(w: World, target: string, original: Live, open: seq<nat>, k: nat)
    requires k < |open| && IsResetOf(w, open[k], target) && (k > 0 ==> IsResetOf(w, open[k - 1], target))
    requires Prior(w.undos[open[k]].undo) == ValueAfter(w, original, open, k)
    ensures Linked(w, target, original, open, k)
  {
  }

  lemma StackedAfterReset(w: World, target: string, data: string, execution: nat, original: Live, open: seq<nat>)
    requires Stacked(w, target, original, open)
    ensures Stacked(ResetStep(w, target, data, execution), target, original, open + [w.nextUndo])
  {
    var v, more := ResetStep(w, target, data, execution), open + [w.nextUndo];
    ResetLinks(w, target, data, execution, original, open);
    assert IsResetOf(v, w.nextUndo, target);
    hide Linked, At, IsResetOf;
    forall k: nat | k < |more| ensures Linked(v, target, original, more, k) {
      if k < |open| {
        assert more[..k + 1] == open[..k + 1];
        LinkedAlike(w, v, target, original, open, more, k);
      }
    }
  }

  lemma RestorePutsBack(w: World, step: Step, target: string)
    requires RestoresAt(w, step, target)
    ensures var v, u := Next(w, step), w.undos[w.tasks[step.task].id].undo;
            v.undos == w.undos && v.nextUndo == w.nextUndo && Complete(u) && At(v, target) == Prior(u)
  {
  }

  lemma StackedPopped(w: World, v: World, target: string, original: Live, open: seq<nat>)
    requires Stacked(w, target, original, open) && open != []
    requires v.undos == w.undos && v.nextUndo == w.nextUndo
    requires IsResetOf(w, open[|open| - 1], target) && At(v, target) == Prior(w.undos[open[|open| - 1]].undo)
    ensures Stacked(v, target, original, open[..|open| - 1])
  {
    var rest := open[..|open| - 1];
    assert Linked(w, target, original, open, |open| - 1);
    assert At(v, target) == ValueAfter(w, original, open, |rest|) == ValueAfter(v, original, rest, |rest|);
    assert rest != [] ==> IsResetOf(v, rest[|rest| - 1], target);
    hide At, Linked, ValueAfter, IsResetOf;
    forall k: nat | k < |rest| ensures Linked(v, target, original, rest, k) {
      assert rest[..k + 1] == open[..k + 1];
      LinkedAlike(w, v, target, original, open, rest, k);
    }
  }

  lemma StackedAfterRestore(w: World, step: Step, target: string, original: Live, open: seq<nat>)
    requires Stacked(w, target, original, open) && RestoresAt(w, step, target) && Orderly(w, step, target, open)
    ensures Stacked(Next(w, step), target, original, open[..|open| - 1])
  {
    assert IsResetOf(w, open[|open| - 1], target);
    RestorePutsBack(w, step, target);
    hide Next, Stacked, RestoresAt, At;
    StackedPopped(w, Next(w, step), target, original, open);
  }

  predicate LeavesValue(w: World, step: Step, target: string) {
    !(step.Reset? && step.target == target) && !RestoresAt(w, step, target)
  }

  // Whatever else happens leaves the value and the records alone.
  lemma ValueUntouched(w: World, step: Step, target: string)
    requires LeavesValue(w, step, target) && (step.OtherWriter? ==> step.target != target)
    requires forall id | id in w.undos :: id < w.nextUndo
    ensures var v := Next(w, step);
            && At(v, target) == At(w, target)
            && (forall id | id in w.undos :: id in v.undos && v.undos[id].undo == w.undos[id].undo)
            && (forall id | id in v.undos :: id < v.nextUndo)
  {
    hide Prior, Restorable;
  }

  lemma StackedStays(w: World, step: Step, target: string, original: Live, open: seq<nat>)
    requires Stacked(w, target, original, open) && Orderly(w, step, target, open)
    ensures Stacked(Next(w, step), target, original, Opened(w, step, target, open))
  {
    if step.Reset? && step.target == target {
      StackedAfterReset(w, target, step.data, step.execution, original, open);
      hide ResetStep, Stacked;
    } else if RestoresAt(w, step, target) {
      StackedAfterRestore(w, step, target, original, open);
      hide Next, Stacked, RestoresAt;
    } else {
      ValueUntouched(w, step, target);
      StackedAlike(w, Next(w, step), target, original, open);
      hide Next, Stacked, RestoresAt;
    }
  }

  lemma {:induction false} StackedAlways(w: World, steps: seq<Step>, target: string, original: Live, open: seq<nat>)
    requires Stacked(w, target, original, open) && OrderlyRun(w, steps, target, open)
    ensures Stacked(Play(w, steps), target, original, OpenAfter(w, steps, target, open))
    decreases |steps|
  {
    hide Next, Stacked, Orderly, Opened;
    if steps == [] {
    } else {
      StackedStays(w, steps[0], target, original, open);
      StackedAlways(Next(w, steps[0]), steps[1..], target, original, Opened(w, steps[0], target, open));
    }
  }

  // The value is the original one while nothing is open, and else what the latest open
  // reset applied.
  predicate LatestIsLive(w: World, target: string, original: Live, open: seq<nat>) {
    if open == [] then At(w, target) == original
    else IsResetOf(w, open[|open| - 1], target) && At(w, target) == Applied(w.undos[open[|open| - 1]].undo)
  }

  lemma NothingOpen(w: World, target: string)
    requires Sound(w)
    ensures Stacked(w, target, At(w, target), [])
  {
  }

  lemma StackedMeans(w: World, target: string, original: Live, open: seq<nat>)
    requires Stacked(w, target, original, open)
    ensures LatestIsLive(w, target, original, open)
  {
    assert open != [] ==> IsResetOf(w, open[|open| - 1], target);
  }

  // On every run, with any tasks, failures, releases, restarts and resets of other values in
  // between: while no other program writes the value and its resets are put back latest
  // first, the value is what the latest open reset applied, and once all are put back it
  // has its original type and data again.
  lemma UndoneInReverseIsOriginal(w: World, steps: seq<Step>, target: string)
    requires Sound(w) && OrderlyRun(w, steps, target, [])
    ensures LatestIsLive(Play(w, steps), target, At(w, target), OpenAfter(w, steps, target, []))
  {
    NothingOpen(w, target);
    hide Play, OpenAfter, OrderlyRun, Sound, Stacked, LatestIsLive, At;
    StackedAlways(w, steps, target, At(w, target), []);
    StackedMeans(Play(w, steps), target, At(w, target), OpenAfter(w, steps, target, []));
  }

  // The guard alone keeps that order, unless an earlier reset applied the very value of the
  // latest one.
  lemma GuardKeepsOrder(w: World, step: Step, target: string, original: Live, open: seq<nat>)
    requires Stacked(w, target, original, open) && open != []
    requires RestoresAt(w, step, target)
    ensures Applied(w.undos[w.tasks[step.task].id].undo) == Applied(w.undos[open[|open| - 1]].undo)
    ensures w.tasks[step.task].id in open
            && (forall k | 0 <= k < |open| - 1 && IsResetOf(w, open[k], target) ::
                  Applied(w.undos[open[k]].undo) != Applied(w.undos[open[|open| - 1]].undo))
            ==> Orderly(w, step, target, open)
  {
    StackedMeans(w, target, original, open);
    hide Stacked;
  }

  // --- one request on its own ---

  // A request for a free record whose value is still what the reset applied puts it back.
  lemma RequestedUndoRestores(w: World, id: nat, wrote: bool)
    requires UndoFree(w.undos, id) && Restorable(At(w, w.undos[id].undo.target), w.undos[id].undo)
    ensures var u, t := w.undos[id].undo, Next(Next(w, Request(id, true)), Restore(|w.tasks|, true, wrote));
            && At(t, u.target) == Prior(u) && t.restores == w.restores + [id] && t.tasks == w.tasks
            && t.undos == w.undos[id := w.undos[id].(undone := true)]
  {
    var a := Next(w, Request(id, true));
    assert a.tasks == w.tasks + [Task(id, Restoring)] && a.live == w.live;
    assert Drop(a.tasks, |w.tasks|) == w.tasks;
  }

  // One whose value has changed since changes nothing, and once released can be tried again.
  lemma RefusedUndoCanBeRetried(w: World, id: nat, works: bool, wrote: bool)
    requires UndoFree(w.undos, id) && !Restorable(At(w, w.undos[id].undo.target), w.undos[id].undo)
    ensures Next(Next(Next(w, Request(id, true)), Restore(|w.tasks|, works, wrote)), Release(|w.tasks|, true)) == w
  {
    var n := |w.tasks|;
    var a := Next(w, Request(id, true));
    assert a.tasks == w.tasks + [Task(id, Restoring)] && a.live == w.live;
    var b := Next(a, Restore(n, works, wrote));
    assert b == a.(tasks := w.tasks + [Task(id, Releasing)]);
    assert Drop(b.tasks, n) == w.tasks;
    assert UndoReleased(UndoClaimed(w.undos, id), id) == w.undos;
  }
}
