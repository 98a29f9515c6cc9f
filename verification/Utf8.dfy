// UTF-8 as RFC 3629 section 3 defines it, and cutting a string to a byte limit without
// splitting a character (eir-svc/src/models.rs).
module Utf8 {

  type Byte = b: int | 0 <= b < 256

  type Scalar = c: int | 0 <= c < 0xD800 || 0xE000 <= c < 0x11_0000

  // A string: bytes that are well formed.
  type Str = s: seq<Byte> | Valid(s) witness []

  // How many bytes the character that starts with this byte has; 0 if none starts with it.
  function Width(lead: Byte): nat {
    if lead < 0x80 then 1
    else if 0xC2 <= lead <= 0xDF then 2
    else if 0xE0 <= lead <= 0xEF then 3
    else if 0xF0 <= lead <= 0xF4 then 4
    else 0
  }

  predicate Continuation(b: Byte) {
    0x80 <= b <= 0xBF
  }

  // The second byte also keeps out overlong forms, surrogates and values past 0x10FFFF.
  predicate Second(lead: Byte, b: Byte) {
    && Continuation(b)
    && (lead == 0xE0 ==> 0xA0 <= b)
    && (lead == 0xED ==> b <= 0x9F)
    && (lead == 0xF0 ==> 0x90 <= b)
    && (lead == 0xF4 ==> b <= 0x8F)
  }

  // The bytes after the lead, as far as they are there.
  predicate TrailFits(s: seq<Byte>)
    requires s != []
  {
    var w := Width(s[0]);
    && (w > 1 && |s| > 1 ==> Second(s[0], s[1]))
    && (w > 2 && |s| > 2 ==> Continuation(s[2]))
    && (w > 3 && |s| > 3 ==> Continuation(s[3]))
  }

  predicate StartsChar(s: seq<Byte>) {
    s != [] && 0 < Width(s[0]) <= |s| && TrailFits(s)
  }

  predicate Valid(s: seq<Byte>)
    decreases |s|
  {
    s == [] || (StartsChar(s) && Valid(s[Width(s[0])..]))
  }

  // --- the same strings, from the other side: encoded characters ---

  function EncodeChar(c: Scalar): (s: seq<Byte>)
    ensures StartsChar(s) && |s| == Width(s[0])
  {
    if c < 0x80 then [c]
    else if c < 0x800 then [0xC0 + c / 0x40, 0x80 + c % 0x40]
    else if c < 0x1_0000 then [0xE0 + c / 0x1000, 0x80 + c / 0x40 % 0x40, 0x80 + c % 0x40]
    else [0xF0 + c / 0x4_0000, 0x80 + c / 0x1000 % 0x40, 0x80 + c / 0x40 % 0x40, 0x80 + c % 0x40]
  }

  function Encode(cs: seq<Scalar>): seq<Byte> {
    if cs == [] then [] else EncodeChar(cs[0]) + Encode(cs[1..])
  }

  function DecodeChar(s: seq<Byte>): Scalar
    requires StartsChar(s)
  {
    var lead: int := s[0];
    match Width(s[0])
    case 1 => lead
    case 2 => (lead - 0xC0) * 0x40 + Low(s[1])
    case 3 => ((lead - 0xE0) * 0x40 + Low(s[1])) * 0x40 + Low(s[2])
    case _ => (((lead - 0xF0) * 0x40 + Low(s[1])) * 0x40 + Low(s[2])) * 0x40 + Low(s[3])
  }

  function Low(b: Byte): (v: int)
    ensures Continuation(b) ==> 0 <= v < 0x40
  {
    b as int - 0x80
  }

  function Decode(s: Str): seq<Scalar>
    decreases |s|
  {
    if s == [] then [] else [DecodeChar(s)] + Decode(s[Width(s[0])..])
  }

  lemma CharDecodes(c: Scalar)
    ensures DecodeChar(EncodeChar(c)) == c
  {
    var q := c / 0x40;
    assert c == q * 0x40 + c % 0x40;
    assert q == q / 0x40 * 0x40 + q % 0x40;
    assert c / 0x1000 == q / 0x40 && c / 0x4_0000 == q / 0x40 / 0x40;
  }

  lemma CharRoundTrip(c: Scalar, rest: seq<Byte>)
    ensures StartsChar(EncodeChar(c) + rest) && DecodeChar(EncodeChar(c) + rest) == c
  {
    CharDecodes(c);
    SameStart(EncodeChar(c), EncodeChar(c) + rest);
    hide EncodeChar, DecodeChar, StartsChar;
  }

  // The first character depends on its own bytes only.
  lemma SameStart(s: seq<Byte>, t: seq<Byte>)
    requires StartsChar(s) && Width(s[0]) <= |t| && t[..Width(s[0])] == s[..Width(s[0])]
    ensures StartsChar(t) && t[0] == s[0] && DecodeChar(t) == DecodeChar(s)
  {
    var w := Width(s[0]);
    assert forall k | 0 <= k < w :: t[k] == t[..w][k] == s[..w][k] == s[k];
  }

  lemma TwoBytesAreExact(s: seq<Byte>)
    requires StartsChar(s) && Width(s[0]) == 2
    ensures EncodeChar(DecodeChar(s)) == s[..2]
  {
    assert DecodeChar(s) / 0x40 == s[0] - 0xC0;
  }

  lemma ThreeBytesAreExact(s: seq<Byte>)
    requires StartsChar(s) && Width(s[0]) == 3
    ensures EncodeChar(DecodeChar(s)) == s[..3]
  {
    var lead: int, c: int := s[0], DecodeChar(s);
    var high := (lead - 0xE0) * 0x40 + Low(s[1]);
    assert c / 0x40 == high && high / 0x40 == lead - 0xE0;
  }

  lemma FourBytesAreExact(s: seq<Byte>)
    requires StartsChar(s) && Width(s[0]) == 4
    ensures EncodeChar(DecodeChar(s)) == s[..4]
  {
    var lead: int, c: int := s[0], DecodeChar(s);
    var top := (lead - 0xF0) * 0x40 + Low(s[1]);
    var high := top * 0x40 + Low(s[2]);
    assert c / 0x40 == high && high / 0x40 == top && top / 0x40 == lead - 0xF0;
  }

  lemma CharIsExact(s: seq<Byte>)
    requires StartsChar(s)
    ensures EncodeChar(DecodeChar(s)) == s[..Width(s[0])]
  {
    match Width(s[0])
    case 1 =>
    case 2 => TwoBytesAreExact(s);
    case 3 => ThreeBytesAreExact(s);
    case 4 => FourBytesAreExact(s);
  }

  lemma {:induction false} DecodeAfterEncode(cs: seq<Scalar>)
    ensures Valid(Encode(cs)) && Decode(Encode(cs)) == cs
  {
    if cs == [] {
    } else {
      var c, rest := EncodeChar(cs[0]), Encode(cs[1..]);
      DecodeAfterEncode(cs[1..]);
      CharRoundTrip(cs[0], rest);
      assert (c + rest)[|c|..] == rest;
      assert (c + rest)[0] == c[0];
    }
  }

  lemma EncodeOneMore(c: Scalar, cs: seq<Scalar>)
    ensures Encode([c] + cs) == EncodeChar(c) + Encode(cs)
  {
    hide EncodeChar;
    assert ([c] + cs)[1..] == cs;
  }

  lemma DecodeOneMore(s: Str)
    requires s != []
    ensures Decode(s) == [DecodeChar(s)] + Decode(s[Width(s[0])..])
  {
  }

  lemma EncodedInTwo(c: Scalar, cs: seq<Scalar>, s: seq<Byte>, w: nat)
    requires w <= |s| && EncodeChar(c) == s[..w] && Encode(cs) == s[w..]
    ensures Encode([c] + cs) == s
  {
    EncodeOneMore(c, cs);
    hide EncodeChar, Encode;
    assert s == s[..w] + s[w..];
  }

  lemma {:induction false} EncodeAfterDecode(s: Str)
    ensures Encode(Decode(s)) == s
    decreases |s|
  {
    if s == [] {
      assert Decode(s) == [];
    } else {
      CharIsExact(s);
      EncodeAfterDecode(s[Width(s[0])..]);
      DecodeOneMore(s);
      hide EncodeChar, DecodeChar, Encode, Decode, Valid, StartsChar, TrailFits, Width;
      EncodedInTwo(DecodeChar(s), Decode(s[Width(s[0])..]), s, Width(s[0]));
    }
  }

  // Well formed is what encoding characters produces, and nothing else.
  lemma ValidIffEncoded(s: seq<Byte>)
    ensures Valid(s) <==> exists cs :: s == Encode(cs)
  {
    if Valid(s) {
      EncodeAfterDecode(s);
      assert s == Encode(Decode(s));
    } else {
      forall cs ensures s != Encode(cs) {
        DecodeAfterEncode(cs);
      }
    }
  }

  // --- cutting between characters ---

  // `is_char_boundary`: the ends, or a byte that continues no character.
  predicate IsBoundary(s: seq<Byte>, i: nat)
    requires i <= |s|
  {
    i == 0 || i == |s| || !Continuation(s[i])
  }

  // Whole characters, while they fit.
  function Truncated(s: Str, max: nat): Str
    decreases |s|
  {
    if s == [] || Width(s[0]) > max then []
    else
      var w, rest := Width(s[0]), Truncated(s[Width(s[0])..], max - Width(s[0]));
      CharThenValid(s, rest);
      s[..w] + rest
  }

  lemma CharThenValid(s: seq<Byte>, rest: seq<Byte>)
    requires StartsChar(s) && Valid(rest)
    ensures Valid(s[..Width(s[0])] + rest)
  {
    var w := Width(s[0]);
    var t := s[..w] + rest;
    assert t[0] == s[0] && t[w..] == rest;
    assert forall k | 0 <= k < w :: t[k] == s[k];
  }

  // A prefix of a string is a string exactly when it ends at a boundary.
  lemma {:induction false} BoundaryIffValid(s: Str, i: nat)
    requires i <= |s|
    ensures Valid(s[..i]) <==> IsBoundary(s, i)
    decreases |s|
  {
    if s == [] || i == 0 {
    } else {
      var w := Width(s[0]);
      if i < w {
        assert s[..i][0] == s[0];
      } else {
        BoundaryIffValid(s[w..], i - w);
        assert s[..i][w..] == s[w..][..i - w];
        assert s[..i][0] == s[0];
        assert i == w && w < |s| ==> s[w..][0] == s[w] && StartsChar(s[w..]);
      }
    }
  }

  ghost predicate Longest(s: seq<Byte>, max: nat, r: seq<Byte>) {
    && r <= s && |r| <= max && Valid(r)
    && forall i | |r| < i <= |s| && i <= max :: !Valid(s[..i])
  }

  lemma NothingFits(s: Str, max: nat)
    requires s != [] && Width(s[0]) > max
    ensures Longest(s, max, []) && max <= 3
  {
    forall i | 0 < i <= |s| && i <= max ensures !Valid(s[..i]) {
      assert s[..i][0] == s[0];
    }
  }

  lemma LongestAfterChar(s: Str, max: nat, rest: seq<Byte>)
    requires s != [] && Width(s[0]) <= max && Longest(s[Width(s[0])..], max - Width(s[0]), rest)
    ensures Longest(s, max, s[..Width(s[0])] + rest)
  {
    var w := Width(s[0]);
    var r := s[..w] + rest;
    CharThenValid(s, rest);
    assert s == s[..w] + s[w..];
    forall i | |r| < i <= |s| && i <= max ensures !Valid(s[..i]) {
      assert s[..i][0] == s[0] && s[..i][w..] == s[w..][..i - w];
    }
  }

  lemma {:induction false} TruncatedIsLongest(s: Str, max: nat)
    ensures Longest(s, max, Truncated(s, max))
    ensures |s| <= max ==> Truncated(s, max) == s
    ensures |s| > max ==> max - |Truncated(s, max)| <= 3
    decreases |s|
  {
    if s == [] {
      assert Truncated(s, max) == [];
    } else if Width(s[0]) > max {
      NothingFits(s, max);
      hide Valid, Longest;
    } else {
      var w := Width(s[0]);
      TruncatedIsLongest(s[w..], max - w);
      LongestAfterChar(s, max, Truncated(s[w..], max - w));
      hide Longest, TrailFits;
      assert s == s[..w] + s[w..];
    }
  }

  lemma LongestIsUnique(s: seq<Byte>, max: nat, a: seq<Byte>, b: seq<Byte>)
    requires Longest(s, max, a) && Longest(s, max, b)
    ensures a == b
  {
    assert a == s[..|a|] && b == s[..|b|];
  }

  // `truncate_utf8_bytes`: it ends, with the longest string that fits.
  method TruncateUtf8Bytes(value: Str, maxBytes: nat) returns (r: Str)
    ensures Longest(value, maxBytes, r) && r == Truncated(value, maxBytes)
    ensures |value| > maxBytes ==> maxBytes - |r| <= 3
  {
    hide Valid, Truncated;
    TruncatedIsLongest(value, maxBytes);
    if |value| <= maxBytes {
      return value;
    }
    var end := maxBytes;
    while !IsBoundary(value, end)
      invariant 0 <= end <= maxBytes
      invariant forall i | end < i <= maxBytes :: !Valid(value[..i])
      decreases end
    {
      BoundaryIffValid(value, end);
      end := end - 1;
    }
    BoundaryIffValid(value, end);
    r := value[..end];
    assert Longest(value, maxBytes, r);
    LongestIsUnique(value, maxBytes, r, Truncated(value, maxBytes));
  }

  // In characters, a cut string is a prefix.
  lemma {:induction false} PrefixInChars(s: Str, r: Str)
    requires r <= s
    ensures Decode(r) <= Decode(s)
    decreases |s|
  {
    if r == [] {
    } else {
      var w := Width(s[0]);
      assert r[0] == s[0] && r[..w] == s[..w];
      SameStart(s, r);
      assert r[w..] <= s[w..];
      PrefixInChars(s[w..], r[w..]);
      hide DecodeChar;
    }
  }
}
