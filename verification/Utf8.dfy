/** Cutting UTF-8 text without splitting a character (truncateUTF8 in internal/extract/jev.go). */
module Utf8 {

  newtype byte = b: int | 0 <= b < 256

  /** utf8.RuneStart: not a continuation byte. */
  predicate RuneStart(b: byte) {
    !(0x80 <= b < 0xC0)
  }

  predicate Tail(b: byte) {
    0x80 <= b <= 0xBF
  }

  /** Length of the well-formed character at the front, 0 if there is none
      (section 4 of RFC 3629). */
  function CharLength(s: seq<byte>): (n: nat)
    ensures n <= |s| && n <= 4
  {
    if s == [] then 0
    else
      var a := s[0];
      if a <= 0x7F then 1
      else if |s| < 2 then 0
      else
        var b := s[1];
        if 0xC2 <= a <= 0xDF && Tail(b) then 2
        else if |s| < 3 || !Tail(s[2]) then 0
        else if a == 0xE0 && 0xA0 <= b <= 0xBF then 3
        else if (0xE1 <= a <= 0xEC || 0xEE <= a <= 0xEF) && Tail(b) then 3
        else if a == 0xED && 0x80 <= b <= 0x9F then 3
        else if |s| < 4 || !Tail(s[3]) then 0
        else if a == 0xF0 && 0x90 <= b <= 0xBF then 4
        else if 0xF1 <= a <= 0xF3 && Tail(b) then 4
        else if a == 0xF4 && 0x80 <= b <= 0x8F then 4
        else 0
  }

  /** The bytes are a run of well-formed characters. */
  predicate ValidUtf8(s: seq<byte>) {
    s == [] || (CharLength(s) > 0 && ValidUtf8(s[CharLength(s)..]))
  }

  // ---------- valid text is what encoding produces ----------

  /** A Unicode scalar value: any code point but the surrogates. */
  predicate Scalar(c: int) {
    0 <= c < 0xD800 || 0xE000 <= c <= 0x10FFFF
  }

  /** The bytes of a scalar value (section 3 of RFC 3629). */
  function Encode(c: int): (s: seq<byte>)
    requires Scalar(c)
    ensures 1 <= |s| <= 4
  {
    if c < 0x80 then [c as byte]
    else if c < 0x800 then [(0xC0 + c / 64) as byte, (0x80 + c % 64) as byte]
    else if c < 0x10000 then [(0xE0 + c / 4096) as byte, (0x80 + c / 64 % 64) as byte, (0x80 + c % 64) as byte]
    else
      [(0xF0 + c / 262144) as byte, (0x80 + c / 4096 % 64) as byte, (0x80 + c / 64 % 64) as byte, (0x80 + c % 64) as byte]
  }

  /** Six low bits at a time: c is h followed by l. */
  lemma {:induction false} Shifted(h: int, l: int)
    requires 0 <= h && 0 <= l < 64
    ensures (h * 64 + l) / 64 == h && (h * 64 + l) % 64 == l
  {
  }

  lemma {:induction false} Nested(c: int)
    requires 0 <= c
    ensures c / 64 / 64 == c / 4096 && c / 4096 / 64 == c / 262144
  {
  }

  /** The encoding of a scalar value is one character, whatever follows. */
  lemma {:induction false} EncodedIsCharacter(c: int, rest: seq<byte>)
    requires Scalar(c)
    ensures CharLength(Encode(c) + rest) == |Encode(c)|
  {
    var s := Encode(c) + rest;
    assert forall i :: 0 <= i < |Encode(c)| ==> s[i] == Encode(c)[i];
    Nested(c);
  }

  /** The scalar value of a character. */
  function Decode(s: seq<byte>): int
    requires CharLength(s) > 0
  {
    var n := CharLength(s);
    if n == 1 then s[0] as int
    else if n == 2 then (s[0] as int - 0xC0) * 64 + (s[1] as int - 0x80)
    else if n == 3 then ((s[0] as int - 0xE0) * 64 + (s[1] as int - 0x80)) * 64 + (s[2] as int - 0x80)
    else
      (((s[0] as int - 0xF0) * 64 + (s[1] as int - 0x80)) * 64 + (s[2] as int - 0x80)) * 64 + (s[3] as int - 0x80)
  }

  lemma {:induction false} TwoBytes(a: byte, b: byte)
    requires 0xC2 <= a <= 0xDF && Tail(b)
    ensures
      var c := (a as int - 0xC0) * 64 + (b as int - 0x80);
      Scalar(c) && Encode(c) == [a, b]
  {
    Shifted(a as int - 0xC0, b as int - 0x80);
  }

  lemma {:induction false} ThreeBytes(a: byte, b: byte, d: byte)
    requires 0xE0 <= a <= 0xEF && Tail(b) && Tail(d) && (a == 0xE0 ==> 0xA0 <= b) && (a == 0xED ==> b <= 0x9F)
    ensures
      var c := ((a as int - 0xE0) * 64 + (b as int - 0x80)) * 64 + (d as int - 0x80);
      Scalar(c) && Encode(c) == [a, b, d]
  {
    var h := (a as int - 0xE0) * 64 + (b as int - 0x80);
    Shifted(a as int - 0xE0, b as int - 0x80);
    Shifted(h, d as int - 0x80);
    Nested(h * 64 + (d as int - 0x80));
  }

  lemma {:induction false} FourBytes(a: byte, b: byte, d: byte, e: byte)
    requires 0xF0 <= a <= 0xF4 && Tail(b) && Tail(d) && Tail(e) && (a == 0xF0 ==> 0x90 <= b) && (a == 0xF4 ==> b <= 0x8F)
    ensures
      var c := (((a as int - 0xF0) * 64 + (b as int - 0x80)) * 64 + (d as int - 0x80)) * 64 + (e as int - 0x80);
      Scalar(c) && Encode(c) == [a, b, d, e]
  {
    var h := (a as int - 0xF0) * 64 + (b as int - 0x80);
    var h' := h * 64 + (d as int - 0x80);
    Shifted(a as int - 0xF0, b as int - 0x80);
    Shifted(h, d as int - 0x80);
    Shifted(h', e as int - 0x80);
    Nested(h' * 64 + (e as int - 0x80));
  }

  /** Every character is the encoding of a scalar value. */
  lemma {:induction false} CharacterIsEncoded(s: seq<byte>)
    requires CharLength(s) > 0
    ensures Scalar(Decode(s)) && s[..CharLength(s)] == Encode(Decode(s))
  {
    hide Scalar, Encode;
    var n := CharLength(s);
    if n == 1 {
      OneByte(s[0]);
    } else if n == 2 {
      TwoBytes(s[0], s[1]);
    } else if n == 3 {
      ThreeBytes(s[0], s[1], s[2]);
    } else {
      FourBytes(s[0], s[1], s[2], s[3]);
    }
  }

  lemma {:induction false} OneByte(a: byte)
    requires a <= 0x7F
    ensures Scalar(a as int) && Encode(a as int) == [a]
  {
  }

  ghost predicate Scalars(cs: seq<int>) {
    forall i :: 0 <= i < |cs| ==> Scalar(cs[i])
  }

  function EncodeAll(cs: seq<int>): seq<byte>
    requires Scalars(cs)
  {
    if cs == [] then [] else Encode(cs[0]) + EncodeAll(cs[1..])
  }

  lemma {:induction false} EncodedIsValid(cs: seq<int>)
    requires Scalars(cs)
    ensures ValidUtf8(EncodeAll(cs))
  {
    hide Encode, CharLength;
    if cs != [] {
      var first, rest := Encode(cs[0]), EncodeAll(cs[1..]);
      EncodedIsCharacter(cs[0], rest);
      EncodedIsValid(cs[1..]);
      assert (first + rest)[|first|..] == rest;
    }
  }

  lemma {:induction false} ValidIsEncoded(s: seq<byte>) returns (cs: seq<int>)
    requires ValidUtf8(s)
    ensures Scalars(cs) && EncodeAll(cs) == s
    decreases |s|
  {
    hide Encode, CharLength, Decode, Scalar;
    if s == [] {
      cs := [];
    } else {
      var n := CharLength(s);
      CharacterIsEncoded(s);
      var rest := ValidIsEncoded(s[n..]);
      cs := [Decode(s)] + rest;
      assert cs[1..] == rest;
      assert s == s[..n] + s[n..];
    }
  }

  // ---------- cutting ----------

  /** A character starts with a start byte and goes on with continuation bytes. */
  lemma {:induction false} CharShape(s: seq<byte>)
    requires CharLength(s) > 0
    ensures RuneStart(s[0])
    ensures forall i :: 1 <= i < CharLength(s) ==> !RuneStart(s[i])
  {
  }

  /** A cut at the end of the text or in front of a start byte falls between characters. */
  lemma {:induction false} CutBetweenCharacters(s: seq<byte>, m: nat)
    requires ValidUtf8(s) && m <= |s|
    ensures ValidUtf8(s[..m]) <==> m == |s| || RuneStart(s[m])
    decreases |s|
  {
    if s != [] {
      var n := CharLength(s);
      CharShape(s);
      if m == 0 {
      } else if m < n {
        CutInsideCharacter(s, m);
      } else {
        CutBetweenCharacters(s[n..], m - n);
        assert s[..m][n..] == s[n..][..m - n];
        CharKept(s, m);
      }
    }
  }

  lemma {:induction false} CharKept(s: seq<byte>, m: nat)
    requires CharLength(s) <= m <= |s| && CharLength(s) > 0
    ensures CharLength(s[..m]) == CharLength(s)
  {
  }

  lemma {:induction false} CutInsideCharacter(s: seq<byte>, m: nat)
    requires 0 < m < CharLength(s)
    ensures CharLength(s[..m]) == 0
  {
  }

  /** Among any four bytes in a row of valid text, or the text's end, there is a cut between characters. */
  lemma {:induction false} StartNearby(s: seq<byte>, n: nat) returns (m: nat)
    requires ValidUtf8(s) && n < |s|
    ensures m <= n && n - m <= 3 && RuneStart(s[m])
    decreases |s|
  {
    var k := CharLength(s);
    CharShape(s);
    if n < k {
      m := 0;
    } else {
      m := StartNearby(s[k..], n - k);
      m := m + k;
    }
  }

  /** Where the loop of truncateUTF8 stops on any bytes: the last start byte at or before n, or 0. */
  ghost predicate LastStart(s: seq<byte>, n: nat, m: nat)
    requires n < |s|
  {
    m <= n && (m == 0 || RuneStart(s[m])) && forall j :: m < j <= n ==> !RuneStart(s[j])
  }

  method TruncateUtf8(s: seq<byte>, limit: nat) returns (r: seq<byte>)
    ensures r <= s
    ensures |s| <= limit ==> r == s
    ensures |s| > limit ==> LastStart(s, limit, |r|)
    ensures |r| <= limit
    ensures ValidUtf8(s) ==> ValidUtf8(r)
    ensures ValidUtf8(s) && |s| > limit ==> limit - |r| <= 3
    ensures ValidUtf8(s) ==> forall longer: seq<byte> :: longer <= s && |r| < |longer| <= limit ==> !ValidUtf8(longer)
  {
    if |s| <= limit {
      return s;
    }
    var n := limit;
    while n > 0 && !RuneStart(s[n])
      invariant 0 <= n <= limit
      invariant forall j :: n < j <= limit ==> !RuneStart(s[j])
    {
      n := n - 1;
    }
    r := s[..n];
    if ValidUtf8(s) {
      CutBetweenCharacters(s, n);
      ghost var m := StartNearby(s, limit);
      forall longer: seq<byte> | longer <= s && n < |longer| <= limit ensures !ValidUtf8(longer) {
        CutBetweenCharacters(s, |longer|);
        assert longer == s[..|longer|];
      }
    }
  }
}
