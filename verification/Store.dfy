// The audit database as values: the effect of each committed call (eir-svc/src/audit.rs).
module Store {
  import opened Wrappers
  import opened Actions
  import opened Approvals
  import opened Ledger
  import opened Registry

  datatype UndoRow = UndoRow(undo: Undo, execution: nat, undone: bool)

  // Row ids are AUTOINCREMENT: `nextRow`, `nextExec` and `nextUndo` never go back.
  datatype Db = Db(rows: Table, nextRow: nat, log: seq<LogRow>, nextExec: nat, undos: map<nat, UndoRow>, nextUndo: nat)

  datatype ExecResult = ExecResult(shown: string, success: bool, undo: Option<Undo>)

  // --- insert_pending_approval ---

  predicate KeyTaken(t: Table, key: string) {
    exists id | id in t :: t[id].status != Rejected && t[id].key == Some(key)
  }

  // The queue has room and the unique index has no row of this key.
  predicate Insertable(t: Table, fix: Fix) {
    |ActiveIds(t)| < MAX_ACTIVE_APPROVALS && !KeyTaken(t, fix.key)
  }

  function NewRow(fix: Fix): Row {
    Row(Pending, Some(fix.key), Some(fix), false, true)
  }

  // --- claim_pending_approval ---

  // Only a pending row is matched; a row that does not parse rolls the claim back.
  predicate Claimable(t: Table, id: nat) {
    id in t && t[id].status == Pending && Parses(t[id])
  }

  function Claimed(t: Table, id: nat, approved: bool): Table
    requires Claimable(t, id)
  {
    t[id := t[id].(status := if approved then Approved else Rejected)]
  }

  // --- requeue_claimed_approvals_on_startup ---

  function Requeued(t: Table): Table {
    map id | id in t :: if t[id].status == Approved then t[id].(status := Pending) else t[id]
  }

  // --- persist_execution ---

  // A successful reset carries its exact undo, and nothing else carries one.
  predicate UndoFits(fix: Fix, result: ExecResult) {
    if result.success && fix.reset then result.undo.Some? && Complete(result.undo.value) else result.undo.None?
  }

  predicate Persistable(db: Db, fix: Fix, result: ExecResult, approval: Option<nat>, requeue: bool) {
    && (requeue ==> approval.Some?)
    && UndoFits(fix, result)
    && (approval.Some? ==> approval.value in db.rows && db.rows[approval.value].status == Approved)
  }

  function LoggedRow(fix: Fix, result: ExecResult, now: int): LogRow {
    LogRow(Some(fix.key), result.shown, result.success, now)
  }

  function Settled(t: Table, approval: Option<nat>, requeue: bool): Table
    requires approval.Some? ==> approval.value in t
  {
    match approval
    case None => t
    case Some(id) => if requeue then t[id := t[id].(status := Pending)] else t - {id}
  }

  function Persisted(db: Db, fix: Fix, result: ExecResult, approval: Option<nat>, requeue: bool, now: int): Db
    requires Persistable(db, fix, result, approval, requeue)
  {
    db.(rows := Settled(db.rows, approval, requeue),
        log := db.log + [LoggedRow(fix, result, now)],
        nextExec := db.nextExec + 1,
        undos := if result.undo.Some? then db.undos[db.nextUndo := UndoRow(result.undo.value, db.nextExec, false)]
                 else db.undos,
        nextUndo := if result.undo.Some? then db.nextUndo + 1 else db.nextUndo)
  }

  function UndoIdOf(db: Db, result: ExecResult): Option<nat> {
    if result.undo.Some? then Some(db.nextUndo) else None
  }

  // --- claim_registry_undo and unclaim_registry_undo ---

  predicate UndoFree(undos: map<nat, UndoRow>, id: nat) {
    id in undos && !undos[id].undone
  }

  function UndoClaimed(undos: map<nat, UndoRow>, id: nat): map<nat, UndoRow> {
    if id in undos then undos[id := undos[id].(undone := true)] else undos
  }

  function UndoReleased(undos: map<nat, UndoRow>, id: nat): map<nat, UndoRow> {
    if id in undos then undos[id := undos[id].(undone := false)] else undos
  }

  // --- what these calls keep ---

  lemma OneMoreActive(t: Table, id: nat, fix: Fix)
    requires id !in t
    ensures |ActiveIds(t[id := NewRow(fix)])| == |ActiveIds(t)| + 1
  {
    assert ActiveIds(t[id := NewRow(fix)]) == ActiveIds(t) + {id};
  }

  lemma InsertKeepsIndex(t: Table, id: nat, fix: Fix)
    requires IndexOk(t) && !KeyTaken(t, fix.key) && id !in t
    ensures IndexOk(t[id := NewRow(fix)])
  {
    var u := t[id := NewRow(fix)];
    forall i, j | Active(u, i) && Active(u, j) && i != j && u[i].key.Some? ensures u[i].key != u[j].key {
      assert i != id ==> Active(t, i);
      assert j != id ==> Active(t, j);
    }
  }

  lemma InsertKeepsClean(t: Table, id: nat, fix: Fix)
    requires CleanTable(t) && Insertable(t, fix) && id !in t
    ensures CleanTable(t[id := NewRow(fix)])
  {
    OneMoreActive(t, id, fix);
    InsertKeepsIndex(t, id, fix);
    hide ActiveIds, IndexOk, KeyTaken;
  }

  lemma FewerKeepsClean(t: Table, u: Table)
    requires CleanTable(t)
    requires forall id | id in u :: id in t && u[id].(status := t[id].status) == t[id]
    requires forall id | id in u && t[id].status == Rejected :: u[id].status == Rejected
    ensures CleanTable(u)
  {
    forall i, j | Active(u, i) && Active(u, j) && i != j && u[i].key.Some? ensures u[i].key != u[j].key {
      assert Active(t, i) && Active(t, j);
    }
    FewerRows(ActiveIds(u), ActiveIds(t));
  }
}
