// The execution log and the gate that reads it (eir-svc/src/safety.rs).
module Ledger {
  import opened Wrappers
  import opened Actions

  // `key` is None on rows written before the column existed; those rows match by label.
  datatype LogRow = LogRow(key: Option<string>, shown: string, success: bool, at: int)

  const FAILURE_BREAKER_THRESHOLD := 3

  function Matching(log: seq<LogRow>, fix: Fix, after: int): seq<LogRow> {
    if log == [] then [] else
    var init, r := log[..|log| - 1], log[|log| - 1];
    var rest := Matching(init, fix, after);
    if r.at > after && (r.key == Some(fix.key) || (r.key.None? && r.shown == fix.shown)) then rest + [r] else rest
  }

  function Successes(rows: seq<LogRow>): (n: nat)
    ensures n <= |rows|
  {
    if rows == [] then 0
    else Successes(rows[..|rows| - 1]) + if rows[|rows| - 1].success then 1 else 0
  }

  // True when this action must not run again yet.
  predicate RateLimited(log: seq<LogRow>, fix: Fix, now: int, window: nat) {
    var rows := Matching(log, fix, now - window);
    var failures := |rows| - Successes(rows);
    Successes(rows) > 0 || failures >= FAILURE_BREAKER_THRESHOLD
  }

  // Rows of one semantic key younger than `after`.
  function Since(log: seq<LogRow>, key: string, after: int): seq<LogRow> {
    if log == [] then [] else
    var init, r := log[..|log| - 1], log[|log| - 1];
    var rest := Since(init, key, after);
    if r.at > after && r.key == Some(key) then rest + [r] else rest
  }

  // At most two rows, all of them failures: what the gate lets an action run after.
  predicate Quiet(rows: seq<LogRow>) {
    |rows| < FAILURE_BREAKER_THRESHOLD && forall i | 0 <= i < |rows| :: !rows[i].success
  }

  lemma {:induction false} NoSuccesses(rows: seq<LogRow>)
    ensures Successes(rows) == 0 <==> forall i | 0 <= i < |rows| :: !rows[i].success
  {
    if rows == [] {
    } else {
      NoSuccesses(rows[..|rows| - 1]);
      assert forall i | 0 <= i < |rows| - 1 :: rows[i] == rows[..|rows| - 1][i];
    }
  }

  // The gate, stated without counting: it opens exactly on a quiet window.
  lemma GateOpensOnQuietWindow(log: seq<LogRow>, fix: Fix, now: int, window: nat)
    ensures !RateLimited(log, fix, now, window) <==> Quiet(Matching(log, fix, now - window))
  {
    NoSuccesses(Matching(log, fix, now - window));
  }

  lemma {:induction false} SinceWithinMatching(log: seq<LogRow>, fix: Fix, after: int)
    ensures |Since(log, fix.key, after)| <= |Matching(log, fix, after)|
    ensures forall r | r in Since(log, fix.key, after) :: r in Matching(log, fix, after)
  {
    if log == [] {
    } else {
      SinceWithinMatching(log[..|log| - 1], fix, after);
    }
  }

  // A passed gate leaves the keyed rows quiet, whatever legacy rows the log also holds.
  lemma GatePassed(log: seq<LogRow>, fix: Fix, now: int, window: nat)
    requires !RateLimited(log, fix, now, window)
    ensures Quiet(Since(log, fix.key, now - window))
  {
    var since, matching := Since(log, fix.key, now - window), Matching(log, fix, now - window);
    GateOpensOnQuietWindow(log, fix, now, window);
    SinceWithinMatching(log, fix, now - window);
    forall i | 0 <= i < |since| ensures !since[i].success {
      assert since[i] in matching;
    }
  }

  lemma {:induction false} SinceLater(log: seq<LogRow>, key: string, after: int, later: int)
    requires after <= later
    ensures |Since(log, key, later)| <= |Since(log, key, after)|
    ensures forall r | r in Since(log, key, later) :: r in Since(log, key, after)
  {
    if log == [] {
    } else {
      SinceLater(log[..|log| - 1], key, after, later);
    }
  }

  // Time passing never closes a window that was quiet.
  lemma StaysQuiet(log: seq<LogRow>, key: string, after: int, later: int)
    requires after <= later
    requires Quiet(Since(log, key, after))
    ensures Quiet(Since(log, key, later))
  {
    SinceLater(log, key, after, later);
    var longer, shorter := Since(log, key, after), Since(log, key, later);
    forall i | 0 <= i < |shorter| ensures !shorter[i].success {
      assert shorter[i] in longer;
    }
  }

  lemma SinceAppend(log: seq<LogRow>, r: LogRow, key: string, after: int)
    ensures Since(log + [r], key, after)
            == Since(log, key, after) + if r.at > after && r.key == Some(key) then [r] else []
  {
    assert (log + [r])[..|log|] == log;
  }

  // Rows too old to matter can be in front or not.
  lemma {:induction false} SinceDropsOld(gone: seq<LogRow>, log: seq<LogRow>, key: string, after: int)
    requires forall i | 0 <= i < |gone| :: gone[i].at <= after
    ensures Since(gone + log, key, after) == Since(log, key, after)
  {
    if log != [] {
      SinceDropsOld(gone, log[..|log| - 1], key, after);
      assert (gone + log)[..|gone + log| - 1] == gone + log[..|log| - 1];
    } else if gone != [] {
      SinceDropsOld(gone[..|gone| - 1], [], key, after);
      assert gone + log == gone;
      assert gone[..|gone| - 1] + [] == gone[..|gone| - 1];
    }
  }

  // Retention: rows older than the cutoff go.
  function Pruned(log: seq<LogRow>, cutoff: int): seq<LogRow> {
    if log == [] then []
    else (if log[0].at >= cutoff then [log[0]] else []) + Pruned(log[1..], cutoff)
  }

  predicate Chronological(log: seq<LogRow>) {
    forall i, j | 0 <= i < j < |log| :: log[i].at <= log[j].at
  }

  // On a log written in time order, retention removes a prefix of rows below the cutoff.
  lemma {:induction false} PruningDropsAPrefix(log: seq<LogRow>, cutoff: int) returns (n: nat)
    requires Chronological(log)
    ensures n <= |log| && Pruned(log, cutoff) == log[n..]
    ensures forall i | 0 <= i < n :: log[i].at < cutoff
  {
    if log == [] {
      n := 0;
    } else {
      var m := PruningDropsAPrefix(log[1..], cutoff);
      if log[0].at < cutoff {
        n := m + 1;
        assert log[1..][m..] == log[n..];
        forall i | 0 <= i < n ensures log[i].at < cutoff {
          if i > 0 { assert log[i] == log[1..][i - 1]; }
        }
      } else {
        n := 0;
        assert |log| > 1 ==> log[0].at <= log[1..][0].at;
        assert [log[0]] + log[1..][0..] == log;
      }
    }
  }

  // Every keyed row was written when the rows of its key in the window before it were quiet.
  predicate Respected(log: seq<LogRow>, window: nat) {
    forall j | 0 <= j < |log| && log[j].key.Some? :: Quiet(Since(log[..j], log[j].key.value, log[j].at - window))
  }

  lemma RespectedAppend(log: seq<LogRow>, r: LogRow, window: nat)
    requires Respected(log, window)
    requires r.key.Some? ==> Quiet(Since(log, r.key.value, r.at - window))
    ensures Respected(log + [r], window)
  {
    var more := log + [r];
    forall j | 0 <= j < |more| && more[j].key.Some?
      ensures Quiet(Since(more[..j], more[j].key.value, more[j].at - window))
    {
      assert more[..j] == log[..j];
      if j == |log| { assert log[..j] == log; }
    }
  }

  // Rows of one key in the half-open window [start, start + window).
  function InWindow(log: seq<LogRow>, key: string, start: int, window: nat): seq<LogRow> {
    if log == [] then [] else
    var init, r := log[..|log| - 1], log[|log| - 1];
    var rest := InWindow(init, key, start, window);
    if start <= r.at < start + window && r.key == Some(key) then rest + [r] else rest
  }

  lemma {:induction false} WindowWithinSince(log: seq<LogRow>, key: string, start: int, window: nat, after: int)
    requires after < start
    ensures |InWindow(log, key, start, window)| <= |Since(log, key, after)|
    ensures forall r | r in InWindow(log, key, start, window) :: r in Since(log, key, after)
  {
    if log == [] {
    } else {
      WindowWithinSince(log[..|log| - 1], key, start, window, after);
    }
  }

  // The execution bound: in any window of the gate's length one key has at most three
  // rows, and only the last of them can be a success.
  lemma {:induction false} WindowBound(log: seq<LogRow>, key: string, start: int, window: nat)
    requires Respected(log, window)
    ensures var rows := InWindow(log, key, start, window);
            |rows| <= 3 && forall i | 0 <= i < |rows| - 1 :: !rows[i].success
  {
    if log == [] {
    } else {
      var init, r := log[..|log| - 1], log[|log| - 1];
      forall j | 0 <= j < |init| ensures init[..j] == log[..j] && init[j] == log[j] {}
      WindowBound(init, key, start, window);
      if start <= r.at < start + window && r.key == Some(key) {
        var before, seen := InWindow(init, key, start, window), Since(init, key, r.at - window);
        WindowWithinSince(init, key, start, window, r.at - window);
        assert Quiet(seen);
        forall i | 0 <= i < |before| ensures !before[i].success {
          assert before[i] in seen;
        }
      }
    }
  }

  // --- the gate and the bound, on the fields of the log ---

  // A row the gate counts.
  predicate Hit(log: seq<LogRow>, fix: Fix, now: int, window: nat, i: int) {
    && 0 <= i < |log| && log[i].at > now - window
    && (log[i].key == Some(fix.key) || (log[i].key.None? && log[i].shown == fix.shown))
  }

  // A row of the key in the half-open window [start, start + window).
  predicate Inside(log: seq<LogRow>, key: string, start: int, window: nat, i: int) {
    0 <= i < |log| && log[i].key == Some(key) && start <= log[i].at < start + window
  }

  // The positions of the rows that `p` picks.
  function Positions(log: seq<LogRow>, p: LogRow -> bool): seq<nat> {
    if log == [] then [] else
    var rest := Positions(log[..|log| - 1], p);
    if p(log[|log| - 1]) then rest + [|log| - 1] else rest
  }

  lemma {:induction false} PositionsMean(log: seq<LogRow>, p: LogRow -> bool)
    ensures forall i, j | 0 <= i < j < |Positions(log, p)| :: Positions(log, p)[i] < Positions(log, p)[j]
    ensures forall i: nat :: i in Positions(log, p) <==> i < |log| && p(log[i])
  {
    if log == [] {
    } else {
      var init := log[..|log| - 1];
      PositionsMean(init, p);
      var rest := Positions(init, p);
      assert forall k | 0 <= k < |rest| :: rest[k] in rest;
    }
  }

  predicate PicksOut(rows: seq<LogRow>, log: seq<LogRow>, p: LogRow -> bool) {
    var at := Positions(log, p);
    |rows| == |at| && forall k | 0 <= k < |at| :: at[k] < |log| && rows[k] == log[at[k]]
  }

  function HitTest(fix: Fix, after: int): LogRow -> bool {
    (r: LogRow) => r.at > after && (r.key == Some(fix.key) || (r.key.None? && r.shown == fix.shown))
  }

  lemma {:induction false} MatchingPicks(log: seq<LogRow>, fix: Fix, after: int)
    ensures PicksOut(Matching(log, fix, after), log, HitTest(fix, after))
  {
    if log == [] {
    } else {
      MatchingPicks(log[..|log| - 1], fix, after);
    }
  }

  function InsideTest(key: string, start: int, window: nat): LogRow -> bool {
    (r: LogRow) => start <= r.at < start + window && r.key == Some(key)
  }

  lemma {:induction false} InWindowPicks(log: seq<LogRow>, key: string, start: int, window: nat)
    ensures PicksOut(InWindow(log, key, start, window), log, InsideTest(key, start, window))
  {
    if log == [] {
    } else {
      InWindowPicks(log[..|log| - 1], key, start, window);
    }
  }

  // The gate closes exactly on a success among the rows it counts, or on three of them. It
  // counts the rows younger than the window with the key, or, on legacy rows, the label.
  lemma LimitedIff(log: seq<LogRow>, fix: Fix, now: int, window: nat)
    ensures RateLimited(log, fix, now, window) <==>
              || (exists i :: Hit(log, fix, now, window, i) && log[i].success)
              || (exists i, j, k :: i < j < k && Hit(log, fix, now, window, i) && Hit(log, fix, now, window, j)
                                    && Hit(log, fix, now, window, k))
  {
    var rows, p := Matching(log, fix, now - window), HitTest(fix, now - window);
    var at := Positions(log, p);
    GateOpensOnQuietWindow(log, fix, now, window);
    MatchingPicks(log, fix, now - window);
    PositionsMean(log, p);
    hide RateLimited, Matching, Positions;
    forall i: int ensures Hit(log, fix, now, window, i) <==> i in at {}
    if i :| 0 <= i < |rows| && rows[i].success {
      assert at[i] in at && Hit(log, fix, now, window, at[i]);
    }
    if |at| >= 3 {
      assert at[0] in at && at[1] in at && at[2] in at;
    }
    if i, j, k :| i < j < k && Hit(log, fix, now, window, i) && Hit(log, fix, now, window, j)
                  && Hit(log, fix, now, window, k)
    {
      ThreePlaces(at, i, j, k);
    }
    if i :| Hit(log, fix, now, window, i) && log[i].success {
      var x :| 0 <= x < |at| && at[x] == i;
      assert rows[x].success;
    }
  }

  lemma ThreePlaces(at: seq<nat>, i: nat, j: nat, k: nat)
    requires i in at && j in at && k in at && i < j < k
    ensures |at| >= 3
  {
    var x :| 0 <= x < |at| && at[x] == i;
    var y :| 0 <= y < |at| && at[y] == j;
    var z :| 0 <= z < |at| && at[z] == k;
  }

  lemma FourPlaces(at: seq<nat>, i: nat, j: nat, k: nat, l: nat)
    requires i in at && j in at && k in at && l in at && i < j < k < l
    ensures |at| >= 4
  {
    var w :| 0 <= w < |at| && at[w] == i;
    var x :| 0 <= x < |at| && at[x] == j;
    var y :| 0 <= y < |at| && at[y] == k;
    var z :| 0 <= z < |at| && at[z] == l;
  }

  // No four rows of one key in any window, and none after a success.
  ghost predicate Bounded(log: seq<LogRow>, window: nat) {
    && (forall key, start, i, j | Inside(log, key, start, window, i) && Inside(log, key, start, window, j) && i < j ::
          !log[i].success)
    && (forall key, start, i, j, k, l |
          Inside(log, key, start, window, i) && Inside(log, key, start, window, j)
          && Inside(log, key, start, window, k) && Inside(log, key, start, window, l) ::
          !(i < j < k < l))
  }

  lemma RespectedIsBounded(log: seq<LogRow>, window: nat)
    requires Respected(log, window)
    ensures Bounded(log, window)
  {
    forall key, start, i, j | Inside(log, key, start, window, i) && Inside(log, key, start, window, j) && i < j
      ensures !log[i].success
    {
      NoneAfterSuccess(log, window, key, start, i, j);
    }
    forall key, start, i, j, k, l |
      Inside(log, key, start, window, i) && Inside(log, key, start, window, j)
      && Inside(log, key, start, window, k) && Inside(log, key, start, window, l)
      ensures !(i < j < k < l)
    {
      if i < j < k < l { NotFour(log, window, key, start, i, j, k, l); }
    }
  }

  lemma InsideIsPicked(log: seq<LogRow>, key: string, start: int, window: nat, i: nat)
    requires Inside(log, key, start, window, i)
    ensures i in Positions(log, InsideTest(key, start, window))
  {
    PositionsMean(log, InsideTest(key, start, window));
  }

  lemma NoneAfterSuccess(log: seq<LogRow>, window: nat, key: string, start: int, i: nat, j: nat)
    requires Respected(log, window)
    requires Inside(log, key, start, window, i) && Inside(log, key, start, window, j) && i < j
    ensures !log[i].success
  {
    var at := Positions(log, InsideTest(key, start, window));
    WindowBound(log, key, start, window);
    InWindowPicks(log, key, start, window);
    PositionsMean(log, InsideTest(key, start, window));
    hide Respected, InWindow, Positions;
    var x :| 0 <= x < |at| && at[x] == i;
    var y :| 0 <= y < |at| && at[y] == j;
    assert x < y && InWindow(log, key, start, window)[x] == log[i];
  }

  lemma NotFour(log: seq<LogRow>, window: nat, key: string, start: int, i: nat, j: nat, k: nat, l: nat)
    requires Respected(log, window) && i < j < k < l
    requires Inside(log, key, start, window, i) && Inside(log, key, start, window, j)
    requires Inside(log, key, start, window, k)
    ensures !Inside(log, key, start, window, l)
  {
    if Inside(log, key, start, window, l) {
      var at := Positions(log, InsideTest(key, start, window));
      WindowBound(log, key, start, window);
      InWindowPicks(log, key, start, window);
      InsideIsPicked(log, key, start, window, i);
      InsideIsPicked(log, key, start, window, j);
      InsideIsPicked(log, key, start, window, k);
      InsideIsPicked(log, key, start, window, l);
      hide Respected, InWindow, Positions, Inside;
      FourPlaces(at, i, j, k, l);
      assert false;
    }
  }

  // Retention keeps exactly the rows at or after the cutoff, as often as they were there.
  lemma {:induction false} PrunedMeans(log: seq<LogRow>, cutoff: int, r: LogRow)
    ensures multiset(Pruned(log, cutoff))[r] == if r.at >= cutoff then multiset(log)[r] else 0
  {
    if log == [] {
    } else {
      PrunedMeans(log[1..], cutoff, r);
      assert log == [log[0]] + log[1..];
    }
  }
}
