// Files attached to a question: reading a capped prefix as text, and picking files within a
// byte budget (eir-ui/src/ask_attach.rs).
module Attach {
  import opened Wrappers
  import opened Utf8

  const MAX_TEXT_FILE_CHARS: nat := 100 * 1024
  const MAX_TEXT_READ_BYTES: nat := 1024 * 1024

  // --- from_utf8 ---

  datatype Checked = Good | Incomplete(validUpTo: nat) | Bad

  // The input ended inside a character that was fine so far.
  predicate CutShort(s: seq<Byte>) {
    s != [] && |s| < Width(s[0]) && TrailFits(s)
  }

  function FromUtf8(s: seq<Byte>): Checked
    decreases |s|
  {
    if s == [] then Good
    else if !StartsChar(s) then if CutShort(s) then Incomplete(0) else Bad
    else
      var rest := FromUtf8(s[Width(s[0])..]);
      if rest.Incomplete? then Incomplete(Width(s[0]) + rest.validUpTo) else rest
  }

  ghost predicate Extends(s: seq<Byte>) {
    exists tail :: Valid(s + tail)
  }

  // Bytes that complete a character cut short.
  function Completion(s: seq<Byte>): seq<Byte>
    requires CutShort(s)
  {
    var second: Byte := if s[0] == 0xE0 then 0xA0 else if s[0] == 0xF0 then 0x90 else 0x80;
    [second, 0x80, 0x80][|s| - 1..Width(s[0]) - 1]
  }

  lemma CutShortExtends(s: seq<Byte>)
    requires CutShort(s)
    ensures Extends(s)
  {
    CompletionCompletes(s);
    OneChar(s + Completion(s));
    hide Valid, StartsChar;
  }

  lemma CompletionCompletes(s: seq<Byte>)
    requires CutShort(s)
    ensures StartsChar(s + Completion(s)) && |s + Completion(s)| == Width((s + Completion(s))[0])
  {
    hide Valid;
    var t, w := s + Completion(s), Width(s[0]);
    assert t[0] == s[0] && |t| == w;
    assert t[1] == if |s| > 1 then s[1] else Completion(s)[0];
    assert w > 2 ==> t[2] == if |s| > 2 then s[2] else Completion(s)[2 - |s|];
    assert w > 3 ==> t[3] == Completion(s)[3 - |s|];
  }

  lemma OneChar(t: seq<Byte>)
    requires StartsChar(t) && |t| == Width(t[0])
    ensures Valid(t)
  {
    assert t[Width(t[0])..] == [];
  }

  // Text that is fine, that could go on to be, or that never can.
  lemma {:induction false} CheckedMeans(s: seq<Byte>)
    ensures FromUtf8(s).Good? <==> Valid(s)
    ensures !FromUtf8(s).Bad? <==> Extends(s)
    ensures FromUtf8(s).Incomplete? ==>
              var n := FromUtf8(s).validUpTo;
              n < |s| && Valid(s[..n]) && forall i | n < i <= |s| :: !Valid(s[..i])
    decreases |s|
  {
    if s == [] {
      assert Valid(s + []);
    } else if !StartsChar(s) {
      if CutShort(s) {
        CutShortExtends(s);
        forall i | 0 < i <= |s| ensures !Valid(s[..i]) {
          assert s[..i][0] == s[0];
        }
      } else {
        forall tail ensures !Valid(s + tail) {
          assert forall k | 0 <= k < |s| :: (s + tail)[k] == s[k];
        }
      }
    } else {
      var w := Width(s[0]);
      CheckedMeans(s[w..]);
      ExtendsAfterChar(s);
      if FromUtf8(s).Incomplete? { CutAfterChar(s, FromUtf8(s[w..]).validUpTo); }
    }
  }

  lemma ExtendsAfterChar(s: seq<Byte>)
    requires StartsChar(s)
    ensures Extends(s) <==> Extends(s[Width(s[0])..])
  {
    var w := Width(s[0]);
    forall tail ensures Valid(s + tail) <==> Valid(s[w..] + tail) {
      assert forall k | 0 <= k < |s| :: (s + tail)[k] == s[k];
      assert (s + tail)[w..] == s[w..] + tail;
    }
  }

  lemma CutAfterChar(s: seq<Byte>, n: nat)
    requires StartsChar(s) && n < |s| - Width(s[0])
    requires var rest := s[Width(s[0])..]; Valid(rest[..n]) && forall i | n < i <= |rest| :: !Valid(rest[..i])
    ensures var m := Width(s[0]) + n; Valid(s[..m]) && forall i | m < i <= |s| :: !Valid(s[..i])
  {
    var w := Width(s[0]);
    CharThenValid(s, s[w..][..n]);
    assert s[..w + n] == s[..w] + s[w..][..n];
    forall i | w + n < i <= |s| ensures !Valid(s[..i]) {
      assert s[..i][0] == s[0] && s[..i][w..] == s[w..][..i - w];
    }
  }

  // --- as_text ---

  function FirstChars(s: Str, count: nat): Str
    decreases |s|
  {
    if s == [] || count == 0 then []
    else
      var w, rest := Width(s[0]), FirstChars(s[Width(s[0])..], count - 1);
      CharThenValid(s, rest);
      s[..w] + rest
  }

  function AsText(bytes: seq<Byte>): Option<Str> {
    if 0 in bytes then None
    else
      CheckedMeans(bytes);
      match FromUtf8(bytes)
      case Good => Some(FirstChars(bytes, MAX_TEXT_FILE_CHARS))
      case Incomplete(n) => Some(FirstChars(bytes[..n], MAX_TEXT_FILE_CHARS))
      case Bad => None
  }

  lemma SameFirstChar(s: seq<Byte>, rest: Str)
    requires StartsChar(s)
    ensures var t := s[..Width(s[0])] + rest; Valid(t) && Decode(t) == [DecodeChar(s)] + Decode(rest)
  {
    CharThenValid(s, rest);
    var t := s[..Width(s[0])] + rest;
    SameStart(s, t);
    hide DecodeChar, StartsChar, Valid;
    assert t[Width(t[0])..] == rest;
  }

  function Take<T>(s: seq<T>, count: nat): seq<T> {
    if count < |s| then s[..count] else s
  }

  lemma TakeOneMore<T>(x: T, rest: seq<T>, count: nat)
    requires count > 0
    ensures Take([x] + rest, count) == [x] + Take(rest, count - 1)
  {
  }

  lemma {:induction false} FirstCharsIsPrefix(s: Str, count: nat)
    ensures FirstChars(s, count) <= s
    decreases |s|
  {
    if s == [] || count == 0 {
    } else {
      FirstCharsIsPrefix(s[Width(s[0])..], count - 1);
      hide Width, Valid, StartsChar;
      assert s == s[..Width(s[0])] + s[Width(s[0])..];
    }
  }

  lemma {:induction false} FirstCharsMeans(s: Str, count: nat)
    ensures FirstChars(s, count) <= s
    ensures Decode(FirstChars(s, count)) == Take(Decode(s), count)
    decreases |s|
  {
    FirstCharsIsPrefix(s, count);
    if s == [] || count == 0 {
    } else {
      var rest := s[Width(s[0])..];
      FirstCharsMeans(rest, count - 1);
      SameFirstChar(s, FirstChars(rest, count - 1));
      TakeOneMore(DecodeChar(s), Decode(rest), count);
      hide DecodeChar, StartsChar, Width, Valid, Take;
      assert Decode(s) == [DecodeChar(s)] + Decode(rest);
    }
  }

  // Bytes are text exactly when they hold no NUL and some continuation makes them well formed.
  lemma TextIffExtends(bytes: seq<Byte>)
    ensures AsText(bytes).Some? <==> 0 !in bytes && Extends(bytes)
  {
    CheckedMeans(bytes);
  }

  // For every well-formed file without a NUL and every read cap, the capped bytes are text,
  // and the text is a character prefix of the file.
  lemma CappedReadIsText(file: Str, cap: nat)
    requires 0 !in file && cap <= |file|
    ensures AsText(file[..cap]) == Some(FirstChars(Truncated(file, cap), MAX_TEXT_FILE_CHARS))
    ensures AsText(file[..cap]).value <= file && Decode(AsText(file[..cap]).value) <= Decode(file)
  {
    var bytes := file[..cap];
    assert bytes + file[cap..] == file;
    assert Extends(bytes);
    CheckedMeans(bytes);
    TruncatedIsLongest(file, cap);
    var whole := if FromUtf8(bytes).Good? then bytes else bytes[..FromUtf8(bytes).validUpTo];
    assert whole == file[..|whole|];
    assert Longest(file, cap, whole) by {
      forall i | |whole| < i <= cap ensures !Valid(file[..i]) {
        assert bytes[..i] == file[..i];
      }
    }
    LongestIsUnique(file, cap, whole, Truncated(file, cap));
    FirstCharsMeans(whole, MAX_TEXT_FILE_CHARS);
    PrefixInChars(file, FirstChars(whole, MAX_TEXT_FILE_CHARS));
  }

  // No character is longer than four bytes, so a cut at four bytes a character costs none.
  lemma {:induction false} RoomForChars(s: Str, max: nat, count: nat)
    requires 4 * count <= max
    ensures FirstChars(Truncated(s, max), count) == FirstChars(s, count)
    decreases |s|
  {
    if s == [] || count == 0 {
    } else {
      var w, t := Width(s[0]), Truncated(s, max);
      var rest := Truncated(s[w..], max - w);
      RoomForChars(s[w..], max - w, count - 1);
      assert t == s[..w] + rest && t[0] == s[0] && t[w..] == rest && t[..w] == s[..w];
    }
  }

  // With the real cap, what is attached is exactly the first MAX_TEXT_FILE_CHARS characters.
  lemma ReadCapCostsNoText(file: Str)
    requires 0 !in file
    ensures var cap := if |file| < MAX_TEXT_READ_BYTES then |file| else MAX_TEXT_READ_BYTES;
            && AsText(file[..cap]).Some?
            && Decode(AsText(file[..cap]).value) == Take(Decode(file), MAX_TEXT_FILE_CHARS)
  {
    var cap := if |file| < MAX_TEXT_READ_BYTES then |file| else MAX_TEXT_READ_BYTES;
    CappedReadIsText(file, cap);
    if cap == |file| {
      TruncatedIsLongest(file, cap);
    } else {
      RoomForChars(file, cap, MAX_TEXT_FILE_CHARS);
    }
    FirstCharsMeans(file, MAX_TEXT_FILE_CHARS);
  }

  // --- process_files ---

  // What each picked file would add; None if it cannot be attached at all.
  type Picks = seq<Option<Str>>

  function Size(p: Option<Str>): nat {
    if p.Some? then |p.value| else 0
  }

  // The bytes of the chosen picks.
  function Total(picks: Picks, chosen: seq<nat>): nat
    requires forall k | 0 <= k < |chosen| :: chosen[k] < |picks|
  {
    if chosen == [] then 0
    else Total(picks, chosen[..|chosen| - 1]) + Size(picks[chosen[|chosen| - 1]])
  }

  ghost predicate Increasing(chosen: seq<nat>) {
    forall i, j | 0 <= i < j < |chosen| :: chosen[i] < chosen[j]
  }

  // The pick does not fit beside the ones chosen before it, which are the first `k`.
  ghost predicate NoRoomAfter(picks: Picks, chosen: seq<nat>, k: nat, i: nat, budget: nat) {
    && i < |picks| && k <= |chosen| && (forall m | 0 <= m < |chosen| :: chosen[m] < |picks|)
    && (k > 0 ==> chosen[k - 1] < i) && (k < |chosen| ==> i < chosen[k])
    && (Total(picks, chosen[..k]) + Size(picks[i]) > budget || Total(picks, chosen[..k]) >= budget)
  }

  ghost predicate NoRoom(picks: Picks, chosen: seq<nat>, i: nat, budget: nat) {
    exists k: nat :: NoRoomAfter(picks, chosen, k, i, budget)
  }

  lemma NoRoomStays(picks: Picks, chosen: seq<nat>, i: nat, j: nat, budget: nat)
    requires i < j < |picks| && NoRoom(picks, chosen, i, budget)
    ensures NoRoom(picks, chosen + [j], i, budget)
  {
    hide Total;
    var k: nat :| NoRoomAfter(picks, chosen, k, i, budget);
    assert (chosen + [j])[..k] == chosen[..k];
    assert NoRoomAfter(picks, chosen + [j], k, i, budget);
  }

  lemma NoRoomNow(picks: Picks, chosen: seq<nat>, i: nat, budget: nat)
    requires i < |picks| && forall m | 0 <= m < |chosen| :: chosen[m] < i
    requires Total(picks, chosen) + Size(picks[i]) > budget || Total(picks, chosen) >= budget
    ensures NoRoom(picks, chosen, i, budget)
  {
    hide Total;
    assert chosen[..|chosen|] == chosen;
    assert NoRoomAfter(picks, chosen, |chosen|, i, budget);
  }

  lemma TotalAppend(picks: Picks, chosen: seq<nat>, i: nat)
    requires i < |picks| && forall m | 0 <= m < |chosen| :: chosen[m] < |picks|
    ensures Total(picks, chosen + [i]) == Total(picks, chosen) + Size(picks[i])
  {
    assert (chosen + [i])[..|chosen|] == chosen;
  }

  // The picks in order, within the budget; one that does not fit hides no later one that does.
  method ProcessFiles(picks: Picks, maxCount: nat, budget: nat) returns (chosen: seq<nat>)
    ensures Increasing(chosen)
    ensures forall k | 0 <= k < |chosen| :: chosen[k] < |picks| && chosen[k] < maxCount && picks[chosen[k]].Some?
    ensures Total(picks, chosen) <= budget
    ensures forall i | 0 <= i < |picks| && i < maxCount && picks[i].Some? ::
              i in chosen || NoRoom(picks, chosen, i, budget)
  {
    hide Total, NoRoom;
    var n := if |picks| < maxCount then |picks| else maxCount;
    chosen := [];
    var total := 0;
    assert Total(picks, chosen) == 0 by { TotalOfNone(picks); }
    for i := 0 to n
      invariant Increasing(chosen)
      invariant forall k | 0 <= k < |chosen| :: chosen[k] < i && picks[chosen[k]].Some?
      invariant total == Total(picks, chosen) <= budget
      invariant forall j | 0 <= j < i && picks[j].Some? :: j in chosen || NoRoom(picks, chosen, j, budget)
    {
      if total >= budget {
        forall j | i <= j < n ensures NoRoom(picks, chosen, j, budget) {
          NoRoomNow(picks, chosen, j, budget);
        }
        break;
      }
      if picks[i].None? {
        continue;
      }
      if total + |picks[i].value| > budget {
        NoRoomNow(picks, chosen, i, budget);
        continue;
      }
      total := total + |picks[i].value|;
      forall j | 0 <= j < i && picks[j].Some? && j !in chosen ensures NoRoom(picks, chosen + [i], j, budget) {
        NoRoomStays(picks, chosen, j, i, budget);
      }
      TotalAppend(picks, chosen, i);
      chosen := chosen + [i];
    }
  }

  lemma TotalOfNone(picks: Picks)
    ensures Total(picks, []) == 0
  {
  }
}
