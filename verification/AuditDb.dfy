// The audit database as the object its callers update (eir-svc/src/audit.rs). Every write
// keeps the partial unique index, statement by statement; a transaction works on a copy
// and is visible only once it commits.
module AuditDb {
  import opened Wrappers
  import opened Actions
  import opened Approvals
  import opened Ledger
  import opened Registry
  import opened Store

  datatype ClaimResult = Taken(fix: Fix) | Stale | Failed

  datatype Commit = Commit(execution: nat, undoId: Option<nat>)

  class AuditDb {
    var rows: Table
    var nextRow: nat
    var log: seq<LogRow>
    var nextExec: nat
    var undos: map<nat, UndoRow>
    var nextUndo: nat

    function View(): Db
      reads this
    {
      Db(rows, nextRow, log, nextExec, undos, nextUndo)
    }

    ghost predicate Valid()
      reads this
    {
      && IndexOk(rows)
      && (forall id | id in rows :: id < nextRow)
      && (forall id | id in undos :: id < nextUndo)
    }

    constructor ()
      ensures Valid() && View() == Db(map[], 0, [], 0, map[], 0)
    {
      rows, nextRow, log, nextExec, undos, nextUndo := map[], 0, [], 0, map[], 0;
    }

    // `fits`: the three texts are within their limits and parse back.
    method InsertPendingApproval(fix: Fix, fits: bool) returns (id: Option<nat>)
      requires Valid()
      modifies this
      ensures Valid()
      ensures id.Some? <==> fits && Insertable(old(rows), fix)
      ensures id.Some? <==>
                && fits && |set i | i in old(rows) && old(rows)[i].status != Rejected| < 256
                && forall i | i in old(rows) && old(rows)[i].status != Rejected :: old(rows)[i].key != Some(fix.key)
      ensures id.Some? ==> rows == old(rows)[id.value := Row(Pending, Some(fix.key), Some(fix), false, true)]
      ensures id.Some? ==> id.value == old(nextRow) && id.value !in old(rows)
      ensures View() == if id.None? then old(View())
                        else old(View()).(rows := old(rows)[id.value := NewRow(fix)], nextRow := id.value + 1)
    {
      assert ActiveIds(rows) == set i | i in rows && rows[i].status != Rejected;
      if !fits || |ActiveIds(rows)| >= MAX_ACTIVE_APPROVALS || KeyTaken(rows, fix.key) {
        return None;
      }
      id := Some(nextRow);
      rows, nextRow := rows[nextRow := NewRow(fix)], nextRow + 1;
    }

    // `commits`: the transaction could be committed.
    method ClaimPendingApproval(id: nat, approved: bool, commits: bool) returns (r: ClaimResult)
      requires Valid()
      modifies this
      ensures Valid()
      ensures r.Taken? <==> commits && Claimable(old(rows), id)
      ensures r.Taken? <==>
                && commits && id in old(rows) && old(rows)[id].status == Pending && old(rows)[id].fix.Some?
                && old(rows)[id].readable && !old(rows)[id].oversized
      ensures r.Taken? ==>
                && id in rows && rows[id] == old(rows)[id].(status := if approved then Approved else Rejected)
                && rows - {id} == old(rows) - {id}
      ensures r.Stale? <==> commits && !(id in old(rows) && old(rows)[id].status == Pending)
      ensures r.Taken? ==> Some(r.fix) == old(rows)[id].fix
      ensures View() == if r.Taken? then old(View()).(rows := Claimed(old(rows), id, approved)) else old(View())
    {
      var tx := rows;
      if id !in tx || tx[id].status != Pending {
        return if commits then Stale else Failed;
      }
      tx := tx[id := tx[id].(status := if approved then Approved else Rejected)];
      if !Parses(tx[id]) || !commits {
        return Failed;
      }
      rows := tx;
      return Taken(tx[id].fix.value);
    }

    method DeletePendingApproval(id: nat, works: bool)
      requires Valid()
      modifies this
      ensures Valid() && View() == if works then old(View()).(rows := old(rows) - {id}) else old(View())
    {
      if works {
        rows := rows - {id};
      }
    }

    method RequeueClaimedApprovalsOnStartup() returns (count: nat)
      requires Valid()
      modifies this
      ensures Valid() && View() == old(View()).(rows := Requeued(old(rows)))
      ensures count == |IdsWith(old(rows), Approved)| && IdsWith(rows, Approved) == {}
      ensures rows.Keys == old(rows).Keys
      ensures forall id | id in rows ::
                rows[id] == if old(rows)[id].status == Approved then old(rows)[id].(status := Pending) else old(rows)[id]
    {
      count := |IdsWith(rows, Approved)|;
      rows := Requeued(rows);
    }

    // The active ids, approved rows first and newer before older.
    method SelectActive() returns (order: seq<nat>)
      ensures order == Ranked(rows, ActiveIds(rows))
    {
      var rest := ActiveIds(rows);
      order := [];
      while rest != {}
        invariant rest <= rows.Keys
        invariant order + Ranked(rows, rest) == Ranked(rows, ActiveIds(rows))
        decreases |rest|
      {
        BestExists(rows, rest);
        var b :| b in rest && forall j | j in rest && j != b :: Beats(rows, b, j);
        assert BestOf(rows, rest, b) && BestOf(rows, rest, Best(rows, rest));
        assert b == Best(rows, rest);
        order, rest := order + [b], rest - {b};
      }
    }

    method SanitizeActiveApprovalRows()
      requires Valid()
      modifies this
      ensures Valid() && View() == old(View()).(rows := Sanitized(old(rows)))
    {
      hide Ranked;
      rows := DropOversized(rows);
      var order := SelectActive();
      KeepBest(if |order| <= MAX_ACTIVE_APPROVALS then order else order[..MAX_ACTIVE_APPROVALS]);
    }

    // The active rows that are not kept go.
    method KeepBest(kept: seq<nat>)
      requires Valid() && Elements(kept) == BestIds(rows)
      modifies this
      ensures Valid() && View() == old(View()).(rows := DropOverflow(old(rows)))
    {
      hide BestIds;
      assert forall id :: id in kept <==> id in BestIds(rows);
      rows := map id | id in rows && (rows[id].status == Rejected || id in kept) :: rows[id];
    }

    // One key written back. It would violate the index unless no other active row
    // holds that key.
    method SetKey(id: nat, key: string)
      requires Valid() && id in rows
      requires forall j | Active(rows, j) && j != id :: rows[j].key != Some(key)
      modifies this
      ensures Valid() && View() == old(View()).(rows := old(rows)[id := old(rows)[id].(key := Some(key))])
    {
      rows := rows[id := rows[id].(key := Some(key))];
    }

    method NormalizeActiveApprovalKeys()
      requires Valid()
      modifies this
      ensures Valid() && View() == old(View()).(rows := Normalized(old(rows)))
    {
      hide Ranked, Wins, Normalized, IndexOk, Deleted, Cleared;
      ghost var t := rows;
      var order := SelectActive();
      RankedInOrder(t, ActiveIds(t));
      var keep, remove := SplitWinners(order);
      WinnersAreActive(t);
      KeyedStart(t, remove);
      // Duplicates go first, so that no later statement can meet one in the index.
      DeleteAll(remove);
      ClearKeys();
      SetKeys(t, keep);
    }

    method DeleteAll(ids: seq<nat>)
      requires Valid()
      modifies this
      ensures Valid() && View() == old(View()).(rows := Deleted(old(rows), ids))
    {
      for n := 0 to |ids|
        invariant Valid() && View() == old(View()).(rows := rows)
        invariant rows == Deleted(old(rows), ids[..n])
      {
        assert ids[..n + 1] == ids[..n] + [ids[n]];
        rows := rows - {ids[n]};
      }
      assert ids[..|ids|] == ids;
    }

    method ClearKeys()
      requires Valid()
      modifies this
      ensures Valid() && View() == old(View()).(rows := Cleared(old(rows)))
    {
      rows := Cleared(rows);
    }

    // `t`: the table before the repair.
    method SetKeys(ghost t: Table, keep: seq<nat>)
      requires Valid() && (forall id :: id in keep <==> Wins(t, id)) && rows == KeyedTable(t, [])
      modifies this
      ensures Valid() && View() == old(View()).(rows := Normalized(t))
    {
      hide Wins, IndexOk, KeyedTable, Normalized;
      for n := 0 to |keep|
        invariant Valid() && View() == old(View()).(rows := rows)
        invariant rows == KeyedTable(t, keep[..n])
      {
        var id := keep[n];
        assert id in keep;
        assert keep[..n + 1] == keep[..n] + [id];
        KeyedStep(t, keep[..n], id);
        KeyIsFree(t, keep, n);
        SetKey(id, rows[id].fix.value.key);
      }
      assert keep[..|keep|] == keep;
      KeyedEnd(t, keep);
    }

    // The first row met of each key wins; later ones and unreadable ones are removed.
    method SplitWinners(order: seq<nat>) returns (keep: seq<nat>, remove: seq<nat>)
      requires order == Ranked(rows, ActiveIds(rows))
      ensures forall id :: id in keep <==> id in order && Wins(rows, id)
      ensures forall id :: id in remove <==> id in order && !Wins(rows, id)
    {
      hide Wins, Ranked, ActiveIds, KeyAt;
      var seen: set<string> := {};
      keep, remove := [], [];
      for n := 0 to |order|
        invariant forall key :: key in seen <==> exists m :: 0 <= m < n && KeyAt(order[m]) == Some(key)
        invariant forall id :: id in keep <==> id in order[..n] && Wins(rows, id)
        invariant forall id :: id in remove <==> id in order[..n] && !Wins(rows, id)
      {
        var id := order[n];
        assert order[..n + 1] == order[..n] + [id];
        match KeyAt(id)
        case None =>
          UnreadableLoses(id);
          remove := remove + [id];
        case Some(key) =>
          if key !in seen {
            FirstOfItsKeyWins(order, n);
            seen, keep := seen + {key}, keep + [id];
          } else {
            var m :| 0 <= m < n && KeyAt(order[m]) == Some(key);
            LaterOfItsKeyLoses(order, m, n);
            remove := remove + [id];
          }
      }
      assert order[..|order|] == order;
    }

    lemma UnreadableLoses(id: nat)
      requires KeyAt(id).None?
      ensures !Wins(rows, id)
    {
    }

    lemma LaterOfItsKeyLoses(order: seq<nat>, m: nat, n: nat)
      requires order == Ranked(rows, ActiveIds(rows)) && m < n < |order|
      requires KeyAt(order[n]).Some? && KeyAt(order[m]) == KeyAt(order[n])
      ensures !Wins(rows, order[n])
    {
      RankedInOrder(rows, ActiveIds(rows));
      assert order[m] in ActiveIds(rows) && order[n] in ActiveIds(rows);
      hide Ranked, ActiveIds;
      assert Rival(rows, order[n], order[m]) && Beats(rows, order[m], order[n]);
    }

    function KeyAt(id: nat): Option<string>
      reads this
    {
      if id in rows && rows[id].fix.Some? then Some(rows[id].fix.value.key) else None
    }

    lemma FirstOfItsKeyWins(order: seq<nat>, n: nat)
      requires order == Ranked(rows, ActiveIds(rows)) && n < |order|
      requires KeyAt(order[n]).Some? && forall m | 0 <= m < n :: KeyAt(order[m]) != KeyAt(order[n])
      ensures Wins(rows, order[n])
    {
      RankedInOrder(rows, ActiveIds(rows));
      forall j | j in rows && Rival(rows, order[n], j) ensures Beats(rows, order[n], j) {
        assert j in ActiveIds(rows);
        var k :| 0 <= k < |order| && order[k] == j;
        assert k > n;
      }
    }

    // Loads the queue oldest first, after repairing the table. Deletes of single rows are
    // best effort: those of the rows in `stay` fail. The queue does not depend on them.
    method LoadPendingApprovals(stay: set<nat>) returns (queue: seq<nat>)
      requires Valid()
      modifies this
      ensures Valid() && View() == old(View()).(rows := LoadedBut(old(rows), stay))
      ensures Elements(queue) == Cards(Loaded(old(rows))).Keys && |queue| <= MAX_ACTIVE_APPROVALS
      ensures forall id :: id in queue <==> Survives(old(rows), id) && old(rows)[id].status == Pending
      ensures forall i, j | 0 <= i < j < |queue| :: queue[i] < queue[j]
    {
      hide Sanitized, Normalized, IndexOk, DropUnreadableBut, DropUnreadable, DropRejected, Parses;
      ghost var t := rows;
      DeleteRejected();
      SanitizeActiveApprovalRows();
      NormalizeActiveApprovalKeys();
      var out := SelectPending();
      var parsed := DropUnreadableRows(out, stay);
      QueueOf(t, stay, parsed);
      queue := SweepDuplicates(parsed, stay);
      QueueIsSurvivors(t, queue);
    }

    method DeleteRejected()
      requires Valid()
      modifies this
      ensures Valid() && View() == old(View()).(rows := DropRejected(old(rows)))
    {
      rows := DropRejected(rows);
    }

    // The pending ids, oldest first.
    method SelectPending() returns (out: seq<nat>)
      requires Valid()
      ensures forall id :: id in out <==> id in IdsWith(rows, Pending)
      ensures forall i, j | 0 <= i < j < |out| :: out[i] < out[j]
    {
      out := [];
      for id := 0 to nextRow
        invariant forall k :: k in out <==> k < id && k in IdsWith(rows, Pending)
        invariant forall i, j | 0 <= i < j < |out| :: out[i] < out[j]
      {
        if id in rows && rows[id].status == Pending {
          assert forall i | 0 <= i < |out| :: out[i] in out;
          out := out + [id];
        }
      }
    }

    method DropUnreadableRows(out: seq<nat>, stay: set<nat>) returns (parsed: seq<nat>)
      requires Valid()
      requires forall id :: id in out <==> id in IdsWith(rows, Pending)
      requires forall i, j | 0 <= i < j < |out| :: out[i] < out[j]
      modifies this
      ensures Valid() && View() == old(View()).(rows := DropUnreadableBut(old(rows), stay))
      ensures forall id :: id in parsed <==> id in IdsWith(old(rows), Pending) && Parses(old(rows)[id])
      ensures forall i, j | 0 <= i < j < |parsed| :: parsed[i] < parsed[j]
    {
      hide IndexOk, Parses;
      ghost var t := rows;
      UnreadStart(t, stay);
      assert forall id | id in out :: id in t;
      parsed := [];
      for i := 0 to |out|
        invariant Valid() && View() == old(View()).(rows := rows)
        invariant rows == Unread(t, out[..i], stay)
        invariant forall id :: id in parsed <==> id in out[..i] && id in t && Parses(t[id])
        invariant forall a, b | 0 <= a < b < |parsed| :: parsed[a] < parsed[b]
      {
        var id := out[i];
        assert id in out && id !in out[..i];
        assert out[..i + 1] == out[..i] + [id];
        UnreadStep(t, out[..i], stay, id);
        if Parses(rows[id]) {
          assert forall a | 0 <= a < |parsed| :: parsed[a] in parsed;
          parsed := parsed + [id];
        } else {
          DeletePendingApproval(id, id !in stay);
        }
      }
      assert out[..|out|] == out;
      UnreadEnd(t, out, stay);
    }

    // Keeps the newest card of each key and deletes the older ones.
    method SweepDuplicates(out: seq<nat>, stay: set<nat>) returns (keep: seq<nat>)
      requires Valid()
      requires forall id | id in out :: id in rows && rows[id].fix.Some?
      requires forall i, j | 0 <= i < j < |out| :: out[i] < out[j]
      modifies this
      ensures Valid() && keep == Newest(old(rows), out)
      ensures View() == old(View()).(rows := Without(old(rows), out, keep, stay))
    {
      hide IndexOk, Newest, Without, KeysOf;
      SweepStart(rows, stay);
      var cards := rows;
      var seen: set<string> := {};
      keep := [];
      var i := |out|;
      assert out[i..] == [] && out[0..] == out;
      while i > 0
        invariant 0 <= i <= |out| && keep == Newest(cards, out[i..])
        invariant forall id | id in keep :: id in out[i..]
        invariant Valid() && View() == old(View()).(rows := rows)
        invariant rows == Without(cards, out[i..], keep, stay)
        invariant seen == KeysOf(cards, out[i..])
      {
        i := i - 1;
        var id := out[i];
        assert id in out && id !in out[i + 1..] && out[i..] == [id] + out[i + 1..];
        SweepStep(cards, id, out[i + 1..], keep, stay);
        var key := cards[id].fix.value.key;
        if key in seen {
          DeletePendingApproval(id, id !in stay);
        } else {
          seen, keep := seen + {key}, [id] + keep;
        }
      }
    }

    // `failAt` is the statement (1-4) or the commit (5) that fails or at which the process
    // stops; any other number lets the transaction through.
    method PersistExecution(fix: Fix, result: ExecResult, approval: Option<nat>, requeue: bool, now: int, failAt: nat)
      returns (r: Option<Commit>)
      requires Valid()
      modifies this
      ensures Valid()
      ensures r.Some? <==> Persistable(old(View()), fix, result, approval, requeue) && !(1 <= failAt <= 5)
      ensures r.None? ==> View() == old(View())
      ensures r.Some? ==>
                && View() == Persisted(old(View()), fix, result, approval, requeue, now)
                && r.value == Commit(old(nextExec), UndoIdOf(old(View()), result))
      ensures r.Some? ==>
                && log == old(log) + [LogRow(Some(fix.key), result.shown, result.success, now)]
                && (approval.None? ==> rows == old(rows))
                && (approval.Some? && !requeue ==> rows == old(rows) - {approval.value})
                && (approval.Some? && requeue ==>
                      approval.value in old(rows)
                      && rows == old(rows)[approval.value := old(rows)[approval.value].(status := Pending)])
                && (result.undo.None? ==> undos == old(undos) && r.value.undoId.None?)
                && (result.undo.Some? ==>
                      && r.value.undoId == Some(old(nextUndo))
                      && undos == old(undos)[old(nextUndo) := UndoRow(result.undo.value, old(nextExec), false)])
    {
      if requeue && approval.None? {
        return None;
      }
      if result.success && fix.reset {
        if result.undo.None? || !Complete(result.undo.value) {
          return None;
        }
      } else if result.undo.Some? {
        return None;
      }
      var txLog := log + [LogRow(Some(fix.key), result.shown, result.success, now)];
      if failAt == 1 || failAt == 2 {
        return None;
      }
      var txUndos, txNextUndo, undoId := undos, nextUndo, None;
      if result.success && fix.reset {
        txUndos := txUndos[nextUndo := UndoRow(result.undo.value, nextExec, false)];
        txNextUndo, undoId := nextUndo + 1, Some(nextUndo);
      }
      if failAt == 3 {
        return None;
      }
      var txRows := rows;
      if approval.Some? {
        var id := approval.value;
        if id !in txRows || txRows[id].status != Approved {
          return None;
        }
        txRows := if requeue then txRows[id := txRows[id].(status := Pending)] else txRows - {id};
      }
      if failAt == 4 || failAt == 5 {
        return None;
      }
      r := Some(Commit(nextExec, undoId));
      rows, log, nextExec, undos, nextUndo := txRows, txLog, nextExec + 1, txUndos, txNextUndo;
    }

    // Retention: rows older than the cutoff go.
    method PruneOld(cutoff: int)
      modifies this
      ensures View() == old(View()).(log := Pruned(old(log), cutoff))
    {
      var kept := [];
      for i := 0 to |log|
        invariant View() == old(View())
        invariant kept + Pruned(log[i..], cutoff) == Pruned(log, cutoff)
      {
        assert log[i..][1..] == log[i + 1..];
        if log[i].at >= cutoff {
          kept := kept + [log[i]];
        }
      }
      log := kept;
    }

    // `legible`: the stored value types are known ones and the transaction could be committed.
    method ClaimRegistryUndo(id: nat, legible: bool) returns (undo: Option<Undo>)
      requires Valid()
      modifies this
      ensures Valid()
      ensures undo.Some? <==> legible && UndoFree(old(undos), id)
      ensures undo.Some? ==> undo.value == old(undos)[id].undo
      ensures View() == if undo.None? then old(View()) else old(View()).(undos := UndoClaimed(old(undos), id))
    {
      var tx := undos;
      if id !in tx || tx[id].undone {
        return None;
      }
      tx := tx[id := tx[id].(undone := true)];
      if !legible {
        return None;
      }
      undos := tx;
      undo := Some(tx[id].undo);
    }

    method UnclaimRegistryUndo(id: nat)
      requires Valid()
      modifies this
      ensures Valid()
      ensures View() == old(View()).(undos := UndoReleased(old(undos), id))
    {
      if id in undos {
        undos := undos[id := undos[id].(undone := false)];
      }
    }
  }

  function KeyedSoFar(r: Row, id: nat, done: seq<nat>): Row {
    if r.status != Rejected && id !in done then r.(key := None) else Keyed(r)
  }

  function Deleted(t: Table, ids: seq<nat>): Table {
    map id | id in t && id !in ids :: t[id]
  }

  function Cleared(t: Table): Table {
    map id | id in t :: if t[id].status != Rejected then t[id].(key := None) else t[id]
  }

  // The repaired table while only the winners in `done` have their keys back.
  function KeyedTable(t: Table, done: seq<nat>): Table {
    map id | id in t && (t[id].status == Rejected || Wins(t, id)) :: KeyedSoFar(t[id], id, done)
  }

  lemma WinnersAreActive(t: Table)
    ensures forall id | Wins(t, id) :: id in ActiveIds(t)
  {
  }

  lemma KeyedStart(t: Table, remove: seq<nat>)
    requires forall id :: id in remove <==> id in ActiveIds(t) && !Wins(t, id)
    ensures Cleared(Deleted(t, remove)) == KeyedTable(t, [])
  {
    WinnersAreActive(t);
    hide Wins;
  }

  lemma KeyedStep(t: Table, done: seq<nat>, id: nat)
    requires Wins(t, id)
    ensures id in KeyedTable(t, done) && KeyedTable(t, done)[id].fix == t[id].fix && t[id].fix.Some?
    ensures KeyedTable(t, done + [id])
            == KeyedTable(t, done)[id := KeyedTable(t, done)[id].(key := Some(t[id].fix.value.key))]
  {
    assert t[id].status != Rejected && t[id].fix.Some?;
    hide Wins;
  }

  lemma KeyedEnd(t: Table, keep: seq<nat>)
    requires forall id :: id in keep <==> Wins(t, id)
    ensures KeyedTable(t, keep) == Normalized(t)
  {
    hide Wins;
  }

  // While winners get their keys back one by one, the next one's key is still free.
  lemma KeyIsFree(t: Table, keep: seq<nat>, n: nat)
    requires n < |keep| && forall id :: id in keep <==> Wins(t, id)
    ensures Wins(t, keep[n])
    ensures var rows := KeyedTable(t, keep[..n]);
            forall j | Active(rows, j) && j != keep[n] :: rows[j].key != Some(t[keep[n]].fix.value.key)
  {
    var id, rows := keep[n], KeyedTable(t, keep[..n]);
    assert id in keep;
    assert t[id].fix.Some?;
    hide Wins;
    forall j | Active(rows, j) && j != id && j in keep[..n] ensures rows[j].key != Some(t[id].fix.value.key) {
      assert j in keep;
      WinnersDiffer(t, id, j);
    }
  }

  lemma WinnersDiffer(t: Table, i: nat, j: nat)
    requires Wins(t, i) && Wins(t, j) && i != j
    ensures i in t && j in t && t[i].fix.Some? && t[j].fix.Some? && t[i].fix.value.key != t[j].fix.value.key
  {
    if t[i].fix.value.key == t[j].fix.value.key {
      assert Rival(t, i, j) && Rival(t, j, i);
    }
  }

  function KeysOf(t: Table, ids: seq<nat>): set<string> {
    set id | id in ids && id in t && t[id].fix.Some? :: t[id].fix.value.key
  }

  // The last deletes of a load, those of the rows in `stay` having failed.
  function DropUnreadableBut(t: Table, stay: set<nat>): Table {
    map id | id in t && !(t[id].status == Pending && !Parses(t[id]) && id !in stay) :: t[id]
  }

  ghost function LoadedBut(t: Table, stay: set<nat>): Table {
    DropUnreadableBut(Normalized(Sanitized(DropRejected(t))), stay)
  }

  // A delete that fails leaves an unreadable pending row for the next load, and nothing else.
  lemma LeftByFailedDeletes(t: Table, stay: set<nat>)
    ensures LoadedBut(t, {}) == Loaded(t)
    ensures forall id | id in Loaded(t) :: id in LoadedBut(t, stay) && LoadedBut(t, stay)[id] == Loaded(t)[id]
    ensures forall id | id in LoadedBut(t, stay) && id !in Loaded(t) ::
              id in stay && LoadedBut(t, stay)[id].status == Pending && !Parses(LoadedBut(t, stay)[id])
  {
    hide Normalized, Sanitized, DropRejected, Parses;
  }

  // On a table this version wrote there is none to delete.
  lemma NoDeletesOnCleanTable(t: Table, stay: set<nat>)
    requires CleanTable(t)
    ensures LoadedBut(t, stay) == Loaded(t)
  {
    LoadOfCleanTable(t);
    hide Normalized, Sanitized, IndexOk, ActiveIds;
  }

  // The table after the unreadable ones among `done` are deleted, as far as that works.
  function Unread(t: Table, done: seq<nat>, stay: set<nat>): Table {
    map id | id in t && (id in done && id !in stay ==> Parses(t[id])) :: t[id]
  }

  lemma UnreadStart(t: Table, stay: set<nat>)
    ensures Unread(t, [], stay) == t
  {
  }

  lemma UnreadStep(t: Table, done: seq<nat>, stay: set<nat>, id: nat)
    requires id in t && id !in done
    ensures id in Unread(t, done, stay) && Unread(t, done, stay)[id] == t[id]
    ensures Unread(t, done + [id], stay)
            == if Parses(t[id]) || id in stay then Unread(t, done, stay) else Unread(t, done, stay) - {id}
  {
    hide Parses;
  }

  lemma UnreadEnd(t: Table, out: seq<nat>, stay: set<nat>)
    requires forall id :: id in out <==> id in IdsWith(t, Pending)
    ensures Unread(t, out, stay) == DropUnreadableBut(t, stay)
  {
    hide Parses;
  }

  // The table after the cards of `out` that are not kept are deleted, as far as that works.
  function Without(t: Table, out: seq<nat>, keep: seq<nat>, stay: set<nat>): Table {
    map id | id in t && !(id in out && id !in keep && id !in stay) :: t[id]
  }

  function Newest(t: Table, out: seq<nat>): seq<nat> {
    if out == [] then []
    else
      var rest := Newest(t, out[1..]);
      if out[0] in t && t[out[0]].fix.Some? && t[out[0]].fix.value.key in KeysOf(t, out[1..]) then rest
      else [out[0]] + rest
  }

  lemma SweepStart(t: Table, stay: set<nat>)
    ensures Newest(t, []) == [] && Without(t, [], [], stay) == t && KeysOf(t, []) == {}
  {
  }

  lemma SweepStep(t: Table, id: nat, rest: seq<nat>, keep: seq<nat>, stay: set<nat>)
    requires id in t && t[id].fix.Some? && id !in rest
    requires keep == Newest(t, rest) && forall k | k in keep :: k in rest
    ensures var key := t[id].fix.value.key;
            && KeysOf(t, [id] + rest) == KeysOf(t, rest) + {key}
            && if key in KeysOf(t, rest)
               then Newest(t, [id] + rest) == keep
                    && Without(t, [id] + rest, keep, stay)
                       == Without(t, rest, keep, stay) - if id in stay then {} else {id}
               else Newest(t, [id] + rest) == [id] + keep
                    && Without(t, [id] + rest, [id] + keep, stay) == Without(t, rest, keep, stay)
  {
    assert ([id] + rest)[1..] == rest;
  }

  // With one row per key, which is what normalisation leaves, the sweep keeps every card.
  lemma {:induction false} NothingToSweep(t: Table, out: seq<nat>, stay: set<nat>)
    requires IndexOk(t)
    requires forall id | id in out :: Active(t, id) && Clean(t[id])
    requires forall i, j | 0 <= i < j < |out| :: out[i] < out[j]
    ensures Newest(t, out) == out
    ensures Without(t, out, out, stay) == t
  {
    if out == [] {
    } else {
      assert out == [out[0]] + out[1..];
      NothingToSweep(t, out[1..], stay);
      assert out[0] in out && forall i | 0 <= i < |out[1..]| :: out[1..][i] != out[0];
      assert t[out[0]].fix.value.key !in KeysOf(t, out[1..]);
    }
  }

  // The pending rows of a repaired table that parse, in id order: the sweep deletes none of
  // them, and they are the queue.
  lemma QueueOf(t: Table, stay: set<nat>, out: seq<nat>)
    requires IndexOk(LoadedBut(t, stay))
    requires var n := Normalized(Sanitized(DropRejected(t)));
             forall id :: id in out <==> id in IdsWith(n, Pending) && Parses(n[id])
    requires forall i, j | 0 <= i < j < |out| :: out[i] < out[j]
    ensures forall id | id in out :: id in LoadedBut(t, stay) && LoadedBut(t, stay)[id].fix.Some?
    ensures Newest(LoadedBut(t, stay), out) == out && Without(LoadedBut(t, stay), out, out, stay) == LoadedBut(t, stay)
    ensures Elements(out) == Cards(Loaded(t)).Keys && |out| <= MAX_ACTIVE_APPROVALS
  {
    var n := Normalized(Sanitized(DropRejected(t)));
    PendingThatParse(n, out);
    hide IndexOk, Cards, Newest, Without, Normalized, Sanitized, DropRejected, Parses, DropUnreadableBut, DropUnreadable;
    assert Loaded(t) == DropUnreadable(n);
    hide Loaded;
    CardsOfLoad(t, out);
    CleanInBoth(t, stay, out);
    hide LoadedBut, Clean;
    NothingToSweep(LoadedBut(t, stay), out, stay);
  }

  // The queue, on the fields of the table before the load.
  lemma QueueIsSurvivors(t: Table, queue: seq<nat>)
    requires Elements(queue) == Cards(Loaded(t)).Keys
    ensures forall id :: id in queue <==> Survives(t, id) && t[id].status == Pending
  {
    hide Loaded, Survives;
    forall id ensures id in queue <==> id in t && Survives(t, id) && t[id].status == Pending {
      LoadKeepsExactly(t, id);
      LoadRepairs(t);
      assert id in queue <==> id in Elements(queue);
    }
    forall id | Survives(t, id) ensures id in t {
      LoadKeepsExactly(t, id);
      LoadRepairs(t);
    }
  }

  lemma CardsOfLoad(t: Table, out: seq<nat>)
    requires forall id :: id in out <==> id in IdsWith(Loaded(t), Pending)
    requires forall i, j | 0 <= i < j < |out| :: out[i] < out[j]
    ensures Elements(out) == Cards(Loaded(t)).Keys && |out| <= MAX_ACTIVE_APPROVALS
  {
    LoadRepairs(t);
    LoadedQueue(t);
    hide Loaded, IndexOk, Cards, Clean;
    SortedIsDistinct(out);
    assert Elements(out) == IdsWith(Loaded(t), Pending);
    FewerRows(Elements(out), ActiveIds(Loaded(t)));
  }

  lemma CleanInBoth(t: Table, stay: set<nat>, out: seq<nat>)
    requires forall id :: id in out <==> id in IdsWith(Loaded(t), Pending)
    ensures forall id | id in out :: Active(LoadedBut(t, stay), id) && Clean(LoadedBut(t, stay)[id])
  {
    LoadRepairs(t);
    LeftByFailedDeletes(t, stay);
    hide Loaded, LoadedBut, IndexOk, Clean, ActiveIds;
  }

  lemma PendingThatParse(n: Table, out: seq<nat>)
    requires forall id :: id in out <==> id in IdsWith(n, Pending) && Parses(n[id])
    ensures forall id :: id in out <==> id in IdsWith(DropUnreadable(n), Pending)
  {
    hide Parses;
  }

  lemma {:induction false} SortedIsDistinct(s: seq<nat>)
    requires forall i, j | 0 <= i < j < |s| :: s[i] < s[j]
    ensures |s| == |Elements(s)|
  {
    if s == [] {
    } else {
      var init := s[..|s| - 1];
      SortedIsDistinct(init);
      assert s == init + [s[|s| - 1]];
      assert Elements(s) == Elements(init) + {s[|s| - 1]};
    }
  }
}
