// Registry scalars, the snapshot taken before a reset, and its exact restore
// (eir-svc/src/models.rs, eir-svc/src/executor/registry.rs).
module Registry {
  import opened Wrappers

  datatype Kind = Text | ExpandText | DWord | QWord
  datatype Scalar = Scalar(kind: Kind, data: string)

  // A value of the live registry: None when the name does not exist.
  type Live = Option<Scalar>

  datatype Undo = Undo(target: string, priorExisted: bool, priorKind: Option<Kind>, priorData: Option<string>,
                       appliedKind: Option<Kind>, appliedData: Option<string>)

  // The exact snapshot `persist_execution` insists on before it commits a reset.
  predicate Complete(u: Undo) {
    u.appliedKind.Some? && u.appliedData.Some? &&
    if u.priorExisted then u.priorKind.Some? && u.priorData.Some? else u.priorKind.None? && u.priorData.None?
  }

  function Prior(u: Undo): Live
    requires Complete(u)
  {
    if u.priorExisted then Some(Scalar(u.priorKind.value, u.priorData.value)) else None
  }

  function Applied(u: Undo): Live
    requires Complete(u)
  {
    Some(Scalar(u.appliedKind.value, u.appliedData.value))
  }

  // A successful reset keeps the type of an existing value and creates a missing one as
  // text; `data` is already in the canonical form of that type.
  function ResetUndo(target: string, live: Live, data: string): (u: Undo)
    ensures Complete(u) && Prior(u) == live
  {
    match live
    case Some(v) => Undo(target, true, Some(v.kind), Some(v.data), Some(v.kind), Some(data))
    case None => Undo(target, false, None, None, Some(Text), Some(data))
  }

  // Undo writes only while the live value still is what Eir applied.
  predicate Restorable(live: Live, u: Undo) {
    Complete(u) && live == Applied(u)
  }

  function Restored(live: Live, u: Undo): Live {
    if Restorable(live, u) then Prior(u) else live
  }

  // A chain of resets of one value: the undo records, oldest first.
  function ChainUndos(target: string, live: Live, datas: seq<string>): seq<Undo>
    decreases |datas|
  {
    if datas == [] then []
    else
      var u := ResetUndo(target, live, datas[0]);
      [u] + ChainUndos(target, Applied(u), datas[1..])
  }

  function ChainLive(target: string, live: Live, datas: seq<string>): Live
    decreases |datas|
  {
    if datas == [] then live
    else ChainLive(target, Applied(ResetUndo(target, live, datas[0])), datas[1..])
  }

  function UndoneInReverse(live: Live, undos: seq<Undo>): Live
    decreases |undos|
  {
    if undos == [] then live
    else UndoneInReverse(Restored(live, undos[|undos| - 1]), undos[..|undos| - 1])
  }

  lemma {:induction false} ReverseThenFirst(live: Live, u: Undo, rest: seq<Undo>)
    ensures UndoneInReverse(live, [u] + rest) == Restored(UndoneInReverse(live, rest), u)
    decreases |rest|
  {
    var all := [u] + rest;
    if rest == [] {
      assert all[..|all| - 1] == [];
    } else {
      assert all[..|all| - 1] == [u] + rest[..|rest| - 1];
      ReverseThenFirst(Restored(live, rest[|rest| - 1]), u, rest[..|rest| - 1]);
    }
  }

  // Undoing every reset of a chain, latest first, gives back the original type and data.
  lemma {:induction false} ReverseUndoIsExact(target: string, live: Live, datas: seq<string>)
    ensures UndoneInReverse(ChainLive(target, live, datas), ChainUndos(target, live, datas)) == live
    decreases |datas|
  {
    if datas == [] {
    } else {
      var u := ResetUndo(target, live, datas[0]);
      ReverseUndoIsExact(target, Applied(u), datas[1..]);
      ReverseThenFirst(ChainLive(target, live, datas), u, ChainUndos(target, Applied(u), datas[1..]));
    }
  }

  function KindAfterReset(live: Live): Kind {
    if live.Some? then live.value.kind else Text
  }

  // Every reset of the chain applied its own data, in the type the value started with.
  lemma {:induction false} ChainApplies(target: string, live: Live, datas: seq<string>, i: nat)
    requires i < |datas|
    ensures |ChainUndos(target, live, datas)| == |datas|
    ensures var u := ChainUndos(target, live, datas)[i];
            Complete(u) && Applied(u) == Some(Scalar(KindAfterReset(live), datas[i]))
    ensures ChainLive(target, live, datas) == Some(Scalar(KindAfterReset(live), datas[|datas| - 1]))
    decreases |datas|
  {
    var u := ResetUndo(target, live, datas[0]);
    if |datas| > 1 {
      ChainApplies(target, Applied(u), datas[1..], if i > 0 then i - 1 else 0);
    }
  }

  // Out of order, an undo goes through exactly when the chain ended on the very data that
  // reset applied; otherwise the live value is left alone.
  lemma OutOfOrderUndo(target: string, live: Live, datas: seq<string>, i: nat)
    requires i < |datas|
    ensures |ChainUndos(target, live, datas)| == |datas|
    ensures var end, u := ChainLive(target, live, datas), ChainUndos(target, live, datas)[i];
            && (Restorable(end, u) <==> datas[i] == datas[|datas| - 1])
            && (datas[i] != datas[|datas| - 1] ==> Restored(end, u) == end)
  {
    ChainApplies(target, live, datas, i);
  }
}
