// The pending_approvals table: what its statements do to it, and what the repair that
// runs before every load of the queue makes of it (eir-svc/src/audit.rs).
module Approvals {
  import opened Wrappers
  import opened Actions

  const MAX_ACTIVE_APPROVALS: nat := 256

  datatype Status = Pending | Approved | Rejected

  // `fix` is None when the stored action no longer parses; `readable` says that the stored
  // details and baseline do; `oversized` that one of the three texts is over its byte limit.
  datatype Row = Row(status: Status, key: Option<string>, fix: Option<Fix>, oversized: bool, readable: bool)

  type Table = map<nat, Row>

  predicate Active(t: Table, id: nat) {
    id in t && t[id].status != Rejected
  }

  function ActiveIds(t: Table): set<nat> {
    set id | id in t && t[id].status != Rejected
  }

  function IdsWith(t: Table, status: Status): set<nat> {
    set id | id in t && t[id].status == status
  }

  // The partial unique index on the key of active rows.
  ghost predicate IndexOk(t: Table) {
    forall i, j | Active(t, i) && Active(t, j) && i != j && t[i].key.Some? :: t[i].key != t[j].key
  }

  // What `parse_pending_approval` accepts.
  predicate Parses(r: Row) {
    r.fix.Some? && r.readable && !r.oversized
  }

  // Approved rows come before pending ones, and newer ones before older.
  predicate Beats(t: Table, i: nat, j: nat)
    requires i in t && j in t
  {
    if t[i].status.Approved? == t[j].status.Approved? then i > j else t[i].status.Approved?
  }

  ghost predicate BestOf(t: Table, ids: set<nat>, b: nat)
    requires ids <= t.Keys
  {
    b in ids && forall j | j in ids && j != b :: Beats(t, b, j)
  }

  lemma {:induction false} BestExists(t: Table, ids: set<nat>)
    requires ids <= t.Keys && ids != {}
    ensures exists b :: BestOf(t, ids, b)
  {
    var i :| i in ids;
    var rest := ids - {i};
    assert forall j | j in ids :: j == i || j in rest;
    if rest == {} {
      assert BestOf(t, ids, i);
    } else {
      BestExists(t, rest);
      var c :| BestOf(t, rest, c);
      assert BestOf(t, ids, if Beats(t, i, c) then i else c);
    }
  }

  ghost function Best(t: Table, ids: set<nat>): (b: nat)
    requires ids <= t.Keys && ids != {}
    ensures BestOf(t, ids, b)
  {
    BestExists(t, ids);
    var b :| BestOf(t, ids, b);
    b
  }

  // The ids in that order.
  ghost function Ranked(t: Table, ids: set<nat>): seq<nat>
    requires ids <= t.Keys
    decreases |ids|
  {
    if ids == {} then []
    else
      var b := Best(t, ids);
      [b] + Ranked(t, ids - {b})
  }

  lemma {:induction false} RankedInOrder(t: Table, ids: set<nat>)
    requires ids <= t.Keys
    ensures var r := Ranked(t, ids);
            && |r| == |ids|
            && (forall i | 0 <= i < |r| :: r[i] in ids)
            && (forall id | id in ids :: id in r)
            && forall i, j | 0 <= i < j < |r| :: r[i] != r[j] && Beats(t, r[i], r[j])
    decreases |ids|
  {
    if ids == {} {
    } else {
      var b := Best(t, ids);
      var rest := Ranked(t, ids - {b});
      RankedInOrder(t, ids - {b});
      var r := [b] + rest;
      forall i, j | 0 <= i < j < |r| ensures r[i] != r[j] && Beats(t, r[i], r[j]) {
        assert r[j] == rest[j - 1];
      }
    }
  }

  // --- sanitize_active_approval_rows ---

  function DropOversized(t: Table): Table {
    map id | id in t && !(t[id].status != Rejected && t[id].oversized) :: t[id]
  }

  // The first 256 in that order.
  ghost function BestIds(t: Table): set<nat> {
    var r := Ranked(t, ActiveIds(t));
    Elements(if |r| <= MAX_ACTIVE_APPROVALS then r else r[..MAX_ACTIVE_APPROVALS])
  }

  lemma BestIdsBound(t: Table)
    ensures var ids := BestIds(t);
            && ids <= ActiveIds(t) && |ids| <= MAX_ACTIVE_APPROVALS
            && (|ActiveIds(t)| <= MAX_ACTIVE_APPROVALS ==> ids == ActiveIds(t))
            && (forall i, j | i in ids && j in ActiveIds(t) - ids :: Beats(t, i, j))
  {
    var r := Ranked(t, ActiveIds(t));
    RankedInOrder(t, ActiveIds(t));
    if |r| <= MAX_ACTIVE_APPROVALS {
      ElementsBounded(r);
      assert BestIds(t) == ActiveIds(t);
    } else {
      ElementsBounded(r[..MAX_ACTIVE_APPROVALS]);
    }
  }

  ghost function DropOverflow(t: Table): Table {
    var kept := BestIds(t);
    map id | id in t && (t[id].status == Rejected || id in kept) :: t[id]
  }

  ghost function Sanitized(t: Table): Table {
    DropOverflow(DropOversized(t))
  }

  // --- normalize_active_approval_keys ---

  predicate Rival(t: Table, id: nat, j: nat)
    requires Active(t, id) && t[id].fix.Some?
  {
    j != id && Active(t, j) && t[j].fix.Some? && t[j].fix.value.key == t[id].fix.value.key
  }

  // The one row of its semantic key that stays: approved before pending, then the newest.
  predicate Wins(t: Table, id: nat) {
    Active(t, id) && t[id].fix.Some? && forall j | j in t && Rival(t, id, j) :: Beats(t, id, j)
  }

  function Keyed(r: Row): Row {
    if r.status != Rejected && r.fix.Some? then r.(key := Some(r.fix.value.key)) else r
  }

  function Normalized(t: Table): Table {
    map id | id in t && (t[id].status == Rejected || Wins(t, id)) :: Keyed(t[id])
  }

  // Every semantic key that an active, readable row had keeps exactly one row.
  lemma OneRowPerKey(t: Table, id: nat) returns (w: nat)
    requires Active(t, id) && t[id].fix.Some?
    ensures w in Normalized(t) && Wins(t, w) && t[w].fix.value.key == t[id].fix.value.key
    ensures w == id || Beats(t, w, id)
    ensures forall j | Active(Normalized(t), j) && Normalized(t)[j].key == Some(t[id].fix.value.key) :: j == w
  {
    var same := set j | j in t && Active(t, j) && t[j].fix.Some? && t[j].fix.value.key == t[id].fix.value.key;
    assert id in same;
    BestExists(t, same);
    w :| BestOf(t, same, w);
    forall j | j in t && Rival(t, w, j) ensures Beats(t, w, j) {
      assert j in same;
    }
  }

  lemma NormalizedKeepsIndex(t: Table)
    ensures IndexOk(Normalized(t))
    ensures forall id | Active(Normalized(t), id) ::
              Normalized(t)[id].fix.Some? && Normalized(t)[id].key == Some(Normalized(t)[id].fix.value.key)
  {
    var n := Normalized(t);
    forall i, j | Active(n, i) && Active(n, j) && i != j && n[i].key.Some?
      ensures n[i].key != n[j].key
    {
      if n[i].key == n[j].key {
        assert Rival(t, i, j) && Rival(t, j, i);
      }
    }
  }

  // --- load_pending_approvals ---

  function DropRejected(t: Table): Table {
    map id | id in t && t[id].status != Rejected :: t[id]
  }

  function DropUnreadable(t: Table): Table {
    map id | id in t && !(t[id].status == Pending && !Parses(t[id])) :: t[id]
  }

  ghost function Loaded(t: Table): Table {
    DropUnreadable(Normalized(Sanitized(DropRejected(t))))
  }

  // The queue a load returns: its cards by row id.
  function Cards(t: Table): map<nat, Fix> {
    map id | id in t && t[id].status == Pending && t[id].fix.Some? :: t[id].fix.value
  }

  // A row as this version writes it.
  predicate Clean(r: Row) {
    Parses(r) && r.key == Some(r.fix.value.key)
  }

  ghost predicate CleanTable(t: Table) {
    && (forall id | id in t :: Clean(t[id]))
    && IndexOk(t)
    && |ActiveIds(t)| <= MAX_ACTIVE_APPROVALS
  }

  lemma FewerRows(a: set<nat>, b: set<nat>)
    requires a <= b
    ensures |a| <= |b|
  {
    assert b == a + (b - a);
  }

  lemma SanitizedBound(t: Table)
    ensures var s := Sanitized(t);
            && |ActiveIds(s)| <= MAX_ACTIVE_APPROVALS
            && s.Keys <= t.Keys
            && (forall id | id in s :: s[id] == t[id])
            && (forall id | Active(s, id) :: !s[id].oversized)
  {
    var d := DropOversized(t);
    BestIdsBound(d);
    assert ActiveIds(Sanitized(t)) == BestIds(d);
  }

  lemma LoadedRows(t: Table)
    ensures var l := Loaded(t);
            && (forall id | id in l :: id in t && l[id].status == t[id].status != Rejected && l[id].fix == t[id].fix)
            && (forall id | id in l :: !l[id].oversized && l[id].fix.Some? && l[id].key == Some(l[id].fix.value.key))
            && (forall id | id in l && l[id].status == Pending :: Clean(l[id]))
  {
    var s := Sanitized(DropRejected(t));
    SanitizedBound(DropRejected(t));
    hide Sanitized, Wins, ActiveIds;
    NormalizedKeepsIndex(s);
    hide IndexOk;
    assert forall id | id in s :: Active(s, id);
  }

  // From any table at all, a load leaves a bounded one whose rows carry the key of the
  // action they hold, no two of them the same, and whose pending rows all parse. It never
  // creates, approves or un-approves a row.
  lemma LoadRepairs(t: Table)
    ensures var l := Loaded(t);
            && IndexOk(l)
            && |ActiveIds(l)| <= MAX_ACTIVE_APPROVALS
            && (forall id | id in l :: id in t && l[id].status == t[id].status != Rejected && l[id].fix == t[id].fix)
            && (forall id | id in l :: !l[id].oversized && l[id].fix.Some? && l[id].key == Some(l[id].fix.value.key))
            && (forall id | id in l && l[id].status == Pending :: Clean(l[id]))
  {
    var s := Sanitized(DropRejected(t));
    LoadedRows(t);
    SanitizedBound(DropRejected(t));
    NormalizedKeepsIndex(s);
    hide Sanitized, Wins;
    FewerKeepsIndex(Normalized(s), Loaded(t));
    FewerRows(ActiveIds(Loaded(t)), ActiveIds(s));
    hide IndexOk, Loaded, ActiveIds, Normalized, Clean;
  }

  lemma FewerKeepsIndex(t: Table, u: Table)
    requires IndexOk(t) && forall id | id in u :: id in t && u[id] == t[id]
    ensures IndexOk(u)
  {
  }

  // The queue a load returns has one card per semantic key, and is the pending rows.
  lemma LoadedQueue(t: Table)
    ensures var l := Loaded(t);
            && Cards(l).Keys == IdsWith(l, Pending)
            && (forall i, j | i in Cards(l) && j in Cards(l) && i != j :: Cards(l)[i].key != Cards(l)[j].key)
  {
    LoadRepairs(t);
    hide Loaded;
  }

  lemma NothingToDrop(t: Table)
    requires CleanTable(t)
    ensures Sanitized(t) == t
  {
    assert DropOversized(t) == t;
    BestIdsBound(t);
    hide BestIds;
  }

  lemma NothingToNormalize(t: Table)
    requires CleanTable(t)
    ensures Normalized(t) == t
  {
    forall id | Active(t, id) ensures Wins(t, id) {
      forall j | j in t && Active(t, j) && j != id ensures !Rival(t, id, j) {
        assert t[j].key != t[id].key;
      }
    }
  }

  // On a clean table a load only retires the rejected rows, and does that first: wherever it
  // stops, it has either done nothing or all there is to do.
  lemma LoadOfCleanTable(t: Table)
    requires CleanTable(t)
    ensures Loaded(t) == DropRejected(t) == Sanitized(DropRejected(t)) == Normalized(Sanitized(DropRejected(t)))
    ensures CleanTable(DropRejected(t))
  {
    var d := DropRejected(t);
    RetiredIsClean(t);
    hide Active, IndexOk;
    NothingToDrop(d);
    NothingToNormalize(d);
    hide Sanitized, Normalized;
    assert DropUnreadable(d) == d;
  }

  lemma RetiredIsClean(t: Table)
    requires CleanTable(t)
    ensures CleanTable(DropRejected(t))
  {
    assert ActiveIds(DropRejected(t)) == ActiveIds(t);
  }

  // --- which rows a load keeps, on the fields of the table ---

  // Approved before pending, then the newer.
  predicate Outranks(t: Table, i: nat, j: nat) {
    && i in t && j in t
    && ((t[i].status == Approved && t[j].status == Pending) || (t[i].status == t[j].status && i > j))
  }

  function Eligible(t: Table): set<nat> {
    set id | id in t && t[id].status != Rejected && !t[id].oversized
  }

  // Fewer than 256 eligible rows outrank it.
  predicate HasRoom(t: Table, id: nat) {
    id in Eligible(t) && |set j | j in Eligible(t) && Outranks(t, j, id)| < MAX_ACTIVE_APPROVALS
  }

  predicate SameIssueRow(t: Table, i: nat, j: nat) {
    && i in t && j in t && t[i].fix.Some? && t[j].fix.Some?
    && t[i].fix.value.key == t[j].fix.value.key
  }

  predicate Survives(t: Table, id: nat) {
    && HasRoom(t, id) && t[id].fix.Some?
    && (forall j | j in t && j != id && HasRoom(t, j) && SameIssueRow(t, id, j) :: Outranks(t, id, j))
    && (t[id].status == Pending ==> t[id].readable)
  }

  // The ids that beat the one in place `k` are those in the places before it.
  lemma PlaceInRanking(t: Table, ids: set<nat>, k: nat, id: nat)
    requires ids <= t.Keys && k < |Ranked(t, ids)| && id == Ranked(t, ids)[k] && id in t
    ensures |set j | j in ids && j in t && Beats(t, j, id)| == k
  {
    var r := Ranked(t, ids);
    RankedInOrder(t, ids);
    hide Ranked;
    var better := set j | j in ids && j in t && Beats(t, j, id);
    forall i | k <= i < |r| ensures !Beats(t, r[i], id) {
      if i > k { assert Beats(t, id, r[i]); }
    }
    forall j | j in better ensures j in r[..k] {
      var i :| 0 <= i < |r| && r[i] == j;
      assert i < k;
    }
    forall j | j in r[..k] ensures j in better {
      var i :| 0 <= i < k && r[i] == j;
      assert Beats(t, r[i], r[k]);
    }
    assert better == Elements(r[..k]);
    NoDupSize(r[..k]);
  }

  lemma BestIdsAreFewBeaten(t: Table, id: nat)
    requires id in ActiveIds(t)
    ensures id in BestIds(t) <==> |set j | j in ActiveIds(t) && j in t && Beats(t, j, id)| < MAX_ACTIVE_APPROVALS
  {
    var r := Ranked(t, ActiveIds(t));
    RankedInOrder(t, ActiveIds(t));
    var k :| 0 <= k < |r| && r[k] == id;
    PlaceInRanking(t, ActiveIds(t), k, id);
    hide Ranked, ActiveIds;
    if |r| > MAX_ACTIVE_APPROVALS {
      assert k < MAX_ACTIVE_APPROVALS ==> r[..MAX_ACTIVE_APPROVALS][k] == id;
      if id in r[..MAX_ACTIVE_APPROVALS] {
        var i :| 0 <= i < MAX_ACTIVE_APPROVALS && r[i] == id;
        assert i == k;
      }
    }
  }

  lemma OutranksIsBeats(t: Table, i: nat, j: nat)
    requires Active(t, i) && Active(t, j)
    ensures Outranks(t, i, j) <==> Beats(t, i, j)
  {
  }

  // What sanitising keeps: the eligible rows that fewer than 256 of them outrank.
  lemma SanitizedKeeps(t: Table, id: nat)
    ensures var s := Sanitized(DropRejected(t));
            (id in s <==> HasRoom(t, id)) && (id in s ==> s[id] == t[id])
  {
    var d := DropOversized(DropRejected(t));
    assert ActiveIds(d) == Eligible(t) == d.Keys;
    if id in d {
      BestIdsAreFewBeaten(d, id);
      forall j | j in Eligible(t) ensures Outranks(t, j, id) <==> j in d && Beats(d, j, id) {
        OutranksIsBeats(t, j, id);
      }
      assert (set j | j in Eligible(t) && Outranks(t, j, id))
             == (set j | j in ActiveIds(d) && j in d && Beats(d, j, id));
    }
    hide BestIds;
  }

  lemma WinsIsUnrivalled(t: Table, s: Table, id: nat)
    requires forall i :: i in s <==> HasRoom(t, i)
    requires forall i | i in s :: i in t && s[i] == t[i] && Active(t, i)
    ensures Wins(s, id) <==>
              && HasRoom(t, id) && t[id].fix.Some?
              && forall j | j in t && j != id && HasRoom(t, j) && SameIssueRow(t, id, j) :: Outranks(t, id, j)
  {
    hide HasRoom;
    forall j | j in s && id in s ensures Outranks(t, id, j) <==> Beats(s, id, j) {
      OutranksIsBeats(t, id, j);
    }
    hide Outranks, Beats;
    if Wins(s, id) {
      forall j | j in t && j != id && HasRoom(t, j) && SameIssueRow(t, id, j) ensures Outranks(t, id, j) {
        assert Rival(s, id, j);
      }
    }
  }

  // From any table at all, a row survives a load exactly when it is one of the best 256
  // that are not oversized, its action is readable, it outranks every other such row of its
  // key, and, while pending, all of it is readable. It then has its key and is else unchanged.
  lemma LoadKeepsExactly(t: Table, id: nat)
    ensures id in Loaded(t) <==> Survives(t, id)
    ensures id in Loaded(t) ==> Loaded(t)[id] == t[id].(key := Some(t[id].fix.value.key))
  {
    var s := Sanitized(DropRejected(t));
    forall i ensures (i in s <==> HasRoom(t, i)) && (i in s ==> s[i] == t[i]) {
      SanitizedKeeps(t, i);
    }
    assert forall i | i in s :: Active(t, i) && !t[i].oversized;
    WinsIsUnrivalled(t, s, id);
    hide Sanitized, HasRoom, Wins;
    assert id in Normalized(s) <==> Wins(s, id);
  }
}
