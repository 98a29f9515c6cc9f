// Downsampling a history series by a uniform stride (eir-svc/src/audit.rs).
module ThinPoints {

  predicate Thinned(n: nat, cap: nat) {
    cap >= 2 && n > cap
  }

  function Index(n: nat, cap: nat, i: nat): nat
    requires Thinned(n, cap)
  {
    i * (n - 1) / (cap - 1)
  }

  function Indices(n: nat, cap: nat): seq<nat>
    requires Thinned(n, cap)
  {
    seq(cap, i requires 0 <= i < cap => Index(n, cap, i))
  }

  function ThinPoints<T>(points: seq<T>, cap: nat): seq<T> {
    if !Thinned(|points|, cap) then points
    else
      IndexInRange(|points|, cap);
      seq(cap, i requires 0 <= i < cap => points[Index(|points|, cap, i)])
  }

  lemma Step(q: nat, e: nat, d: nat)
    requires q < e
    ensures q * d + d <= e * d
  {
    var k: nat := e - q - 1;
    assert e * d == (q + 1 + k) * d == q * d + d + k * d;
  }

  lemma QuotientIsUnique(d: nat, q: nat, r: nat, e: nat, s: nat)
    requires q * d + r == e * d + s && r < d && s < d
    ensures q == e
  {
    if q < e { Step(q, e, d); }
    if e < q { Step(e, q, d); }
  }

  lemma Divided(x: nat, d: nat, q: nat, r: nat)
    requires x == q * d + r && r < d
    ensures x / d == q
  {
    var e, s := x / d, x % d;
    assert x == e * d + s;
    QuotientIsUnique(d, q, r, e, s);
  }

  lemma SumDivided(x: nat, y: nat, d: nat)
    requires d > 0
    ensures x / d + y / d <= (x + y) / d <= x / d + y / d + if y % d == 0 then 0 else 1
  {
    var q, r, a, b := x / d, x % d, y / d, y % d;
    assert x == q * d + r && y == a * d + b;
    SumOfQuotients(x, y, d, q, r, a, b);
  }

  lemma SumOfQuotients(x: nat, y: nat, d: nat, q: nat, r: nat, a: nat, b: nat)
    requires x == q * d + r && y == a * d + b && r < d && b < d
    ensures q + a <= (x + y) / d <= q + a + if b == 0 then 0 else 1
  {
    assert (q + a) * d == q * d + a * d;
    if r + b < d {
      Divided(x + y, d, q + a, r + b);
    } else {
      assert (q + a + 1) * d == (q + a) * d + d;
      Divided(x + y, d, q + a + 1, r + b - d);
    }
  }

  function Floor(n: nat, cap: nat): nat
    requires Thinned(n, cap)
  {
    (n - 1) / (cap - 1)
  }

  function Ceiling(n: nat, cap: nat): nat
    requires Thinned(n, cap)
  {
    (n - 1) / (cap - 1) + if (n - 1) % (cap - 1) == 0 then 0 else 1
  }

  lemma Gap(n: nat, cap: nat, i: nat)
    requires Thinned(n, cap)
    ensures 1 <= Floor(n, cap) <= Index(n, cap, i + 1) - Index(n, cap, i) <= Ceiling(n, cap)
  {
    var m, d := n - 1, cap - 1;
    SumDivided(i * m, m, d);
    assert (i + 1) * m == i * m + m;
    assert m / d >= 1 by {
      assert m == m / d * d + m % d;
    }
  }

  lemma Ends(n: nat, cap: nat)
    requires Thinned(n, cap)
    ensures Index(n, cap, 0) == 0 && Index(n, cap, cap - 1) == n - 1
  {
    var m, d := n - 1, cap - 1;
    Divided(0, d, 0, 0);
    assert 0 * m == 0;
    assert d * m == m * d + 0;
    Divided(d * m, d, m, 0);
  }

  lemma {:induction false} Climbs(n: nat, cap: nat, i: nat, j: nat)
    requires Thinned(n, cap) && i < j
    ensures Index(n, cap, i) < Index(n, cap, j)
    decreases j
  {
    hide Index, Floor, Ceiling;
    Gap(n, cap, j - 1);
    if i < j - 1 {
      Climbs(n, cap, i, j - 1);
    }
  }

  lemma IndexInRange(n: nat, cap: nat)
    requires Thinned(n, cap)
    ensures forall i | 0 <= i < cap :: Index(n, cap, i) < n
  {
    hide Index;
    Ends(n, cap);
    forall i: nat | i < cap - 1 ensures Index(n, cap, i) < n {
      Climbs(n, cap, i, cap - 1);
    }
  }

  // `cap` indices that take in both ends, in order.
  ghost predicate Spans(idx: seq<nat>, n: nat, cap: nat) {
    && |idx| == cap >= 2 && n > 0
    && idx[0] == 0 && idx[cap - 1] == n - 1
    && forall i, j | 0 <= i < j < cap :: idx[i] < idx[j]
  }

  ghost predicate Gaps(idx: seq<nat>, least: nat, most: nat) {
    forall i | 0 < i < |idx| :: least <= idx[i] - idx[i - 1] <= most
  }

  // A series longer than the cap keeps exactly `cap` points, both ends among them, in order,
  // at gaps that differ by at most one; a series within the cap, or a cap below two, is
  // left alone.
  lemma ThinnedEvenly<T>(points: seq<T>, cap: nat)
    ensures !Thinned(|points|, cap) ==> ThinPoints(points, cap) == points
    ensures Thinned(|points|, cap) ==>
              var n := |points|;
              && |ThinPoints(points, cap)| == cap
              && Spans(Indices(n, cap), n, cap)
              && Gaps(Indices(n, cap), Floor(n, cap), Ceiling(n, cap))
              && (forall i | 0 <= i < cap :: Indices(n, cap)[i] < n && ThinPoints(points, cap)[i] == points[Indices(n, cap)[i]])
  {
    var n := |points|;
    if Thinned(n, cap) {
      hide Index, Floor, Ceiling;
      Ends(n, cap);
      IndexInRange(n, cap);
      var idx := Indices(n, cap);
      forall i, j | 0 <= i < j < cap ensures idx[i] < idx[j] {
        Climbs(n, cap, i, j);
      }
      forall i | 0 < i < cap ensures Floor(n, cap) <= idx[i] - idx[i - 1] <= Ceiling(n, cap) {
        Gap(n, cap, i - 1);
      }
    }
  }

  lemma {:induction false} Reach(idx: seq<nat>, k: nat, least: nat, most: nat)
    requires k < |idx| && idx[0] == 0 && Gaps(idx, least, most)
    ensures k * least <= idx[k] <= k * most
    decreases k
  {
    if k == 0 {
    } else {
      Reach(idx, k - 1, least, most);
      assert (k - 1) * most + most == k * most && (k - 1) * least + least == k * least;
    }
  }

  // No other choice of `cap` points with both ends has a smaller largest gap, nor a larger
  // smallest one.
  lemma NoEvenerChoice(idx: seq<nat>, n: nat, cap: nat, least: nat, most: nat)
    requires Thinned(n, cap) && Spans(idx, n, cap) && Gaps(idx, least, most)
    ensures least <= Floor(n, cap) && Ceiling(n, cap) <= most
  {
    var m, d := n - 1, cap - 1;
    Reach(idx, d, least, most);
    var a, b := m / d, m % d;
    assert m == a * d + b;
    assert d * least == least * d && d * most == most * d;
    if least > a { Step(a, least, d); }
    if most < a { Step(most, a, d); }
  }
}
