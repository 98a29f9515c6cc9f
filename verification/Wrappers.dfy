// Optional values, and the few facts about sequences that several modules share.
module Wrappers {

  datatype Option<+T> = None | Some(value: T)

  predicate NoDup<T(==)>(s: seq<T>) {
    forall i, j :: 0 <= i < j < |s| ==> s[i] != s[j]
  }

  function Elements<T>(s: seq<T>): set<T> {
    set x | x in s
  }

  lemma {:induction false} ElementsBounded<T>(s: seq<T>)
    ensures |Elements(s)| <= |s|
  {
    if s == [] {
    } else {
      var init, x := s[..|s| - 1], s[|s| - 1];
      ElementsBounded(init);
      assert s == init + [x];
      assert Elements(s) == Elements(init) + {x};
    }
  }

  lemma NoDupTail<T>(x: T, rest: seq<T>)
    requires NoDup([x] + rest)
    ensures NoDup(rest) && x !in rest && Elements(rest) == Elements([x] + rest) - {x}
  {
    var s := [x] + rest;
    assert forall i | 0 <= i < |rest| :: rest[i] == s[i + 1] && s[0] != s[i + 1];
    assert forall y | y in s :: y == x || y in rest;
    assert forall y | y in rest :: y in s;
  }

  lemma NoDupSnoc<T>(s: seq<T>, x: T)
    requires NoDup(s) && x !in s
    ensures NoDup(s + [x]) && Elements(s + [x]) == Elements(s) + {x}
  {
    assert forall i | 0 <= i < |s| :: s[i] in s;
  }

  lemma {:induction false} NoDupSize<T>(s: seq<T>)
    requires NoDup(s)
    ensures |Elements(s)| == |s|
  {
    if s == [] {
    } else {
      var init, x := s[..|s| - 1], s[|s| - 1];
      assert x !in init;
      NoDupSize(init);
      assert s == init + [x];
      assert Elements(s) == Elements(init) + {x};
    }
  }
}
