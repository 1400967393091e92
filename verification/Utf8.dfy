/** Bytes, text as code points (surrogates included), and strict UTF-8. */
module Utf8 {
  import opened Wrappers

  type byte = x: int | 0 <= x < 256
  type CodePoint = x: int | 0 <= x <= 0x10FFFF
  type Text = seq<CodePoint>

  predicate IsSurrogate(c: CodePoint) {
    0xD800 <= c <= 0xDFFF
  }

  /** Text that has a UTF-8 form. */
  predicate IsScalarText(t: Text) {
    forall i :: 0 <= i < |t| ==> !IsSurrogate(t[i])
  }

  predicate IsAscii(t: Text) {
    forall i :: 0 <= i < |t| ==> t[i] < 128
  }

  function CharLength(c: CodePoint): nat {
    if c < 0x80 then 1 else if c < 0x800 then 2 else if c < 0x10000 then 3 else 4
  }

  function EncodeChar(c: CodePoint): (r: seq<byte>)
    ensures |r| == CharLength(c)
  {
    if c < 0x80 then [c]
    else if c < 0x800 then [0xC0 + c / 64, 0x80 + c % 64]
    else if c < 0x10000 then [0xE0 + c / 4096, 0x80 + c / 64 % 64, 0x80 + c % 64]
    else [0xF0 + c / 262144, 0x80 + c / 4096 % 64, 0x80 + c / 64 % 64, 0x80 + c % 64]
  }

  function Encode(t: Text): seq<byte> {
    if t == [] then [] else EncodeChar(t[0]) + Encode(t[1..])
  }

  predicate Continues(b: seq<byte>, n: nat) {
    n <= |b| && forall i :: 1 <= i < n ==> 0x80 <= b[i] < 0xC0
  }

  /** The six bits a continuation byte carries. */
  function Low(b: byte): int {
    b as int - 0x80
  }

  /** The code point at the head of `b`: shortest form only, no surrogates. */
  function DecodeChar(b: seq<byte>): Option<CodePoint> {
    if b == [] then None
    else if b[0] < 0x80 then Some(b[0])
    else if 0xC2 <= b[0] < 0xE0 && Continues(b, 2) then Some(64 * (b[0] as int - 0xC0) + Low(b[1]))
    else if 0xE0 <= b[0] < 0xF0 && Continues(b, 3) then
      var c := 4096 * (b[0] as int - 0xE0) + 64 * Low(b[1]) + Low(b[2]);
      if c < 0x800 || IsSurrogate(c) then None else Some(c)
    else if 0xF0 <= b[0] < 0xF5 && Continues(b, 4) then
      var c := 262144 * (b[0] as int - 0xF0) + 4096 * Low(b[1]) + 64 * Low(b[2]) + Low(b[3]);
      if c < 0x10000 || c > 0x10FFFF then None else Some(c)
    else None
  }

  lemma CharShape(c: CodePoint)
    requires !IsSurrogate(c)
    ensures DecodeChar(EncodeChar(c)) == Some(c)
  {
    Nested(c);
  }

  lemma PrefixDecodes(b: seq<byte>, rest: seq<byte>)
    requires DecodeChar(b).Some?
    ensures DecodeChar(b + rest) == DecodeChar(b)
  {
    assert forall n :: Continues(b, n) ==> Continues(b + rest, n);
  }

  lemma SixBits(h: int, l: int)
    requires 0 <= l < 64
    ensures (64 * h + l) / 64 == h && (64 * h + l) % 64 == l
  {
  }

  lemma DecodeCharInverts(b: seq<byte>)
    requires DecodeChar(b).Some?
    ensures var c := DecodeChar(b).value;
      !IsSurrogate(c) && CharLength(c) <= |b| && EncodeChar(c) == b[..CharLength(c)]
  {
    if 0xC2 <= b[0] < 0xE0 {
      SixBits(b[0] as int - 0xC0, Low(b[1]));
    } else if 0xE0 <= b[0] < 0xF0 {
      DecodeThree(b);
    } else if 0xF0 <= b[0] {
      DecodeFour(b);
    }
  }

  lemma DecodeThree(b: seq<byte>)
    requires DecodeChar(b).Some? && 0xE0 <= b[0] < 0xF0
    ensures EncodeChar(DecodeChar(b).value) == b[..3]
  {
    var c := DecodeChar(b).value;
    var h, m, l := b[0] as int - 0xE0, Low(b[1]), Low(b[2]);
    SixBits(64 * h + m, l);
    SixBits(h, m);
    Nested(c);
    assert c / 4096 == h && c / 64 % 64 == m && c % 64 == l;
  }

  lemma DecodeFour(b: seq<byte>)
    requires DecodeChar(b).Some? && 0xF0 <= b[0]
    ensures EncodeChar(DecodeChar(b).value) == b[..4]
  {
    var c := DecodeChar(b).value;
    var g, h, m, l := b[0] as int - 0xF0, Low(b[1]), Low(b[2]), Low(b[3]);
    SixBits(4096 * g + 64 * h + m, l);
    SixBits(64 * g + h, m);
    SixBits(g, h);
    Nested(c);
    assert c / 262144 == g && c / 4096 % 64 == h && c / 64 % 64 == m && c % 64 == l;
  }

  lemma Nested(c: int)
    ensures c / 64 / 64 == c / 4096 && c / 4096 / 64 == c / 262144
  {
  }

  function Decode(b: seq<byte>): Option<Text>
    decreases |b|
  {
    if b == [] then Some([])
    else if DecodeChar(b).None? then None
    else
      DecodeCharInverts(b);
      var c := DecodeChar(b).value;
      var rest := Decode(b[CharLength(c)..]);
      if rest.None? then None else Some([c] + rest.value)
  }

  /** Decoding accepts exactly the UTF-8 forms, each as the text it encodes. */
  lemma {:induction false} DecodeIff(b: seq<byte>, t: Text)
    ensures Decode(b) == Some(t) <==> IsScalarText(t) && b == Encode(t)
    decreases |b|, |t|
  {
    hide EncodeChar, DecodeChar, CharLength, IsSurrogate;
    if Decode(b) == Some(t) && b != [] {
      DecodeCharInverts(b);
      var n := CharLength(t[0]);
      assert 1 <= n by { LengthPositive(t[0]); }
      DecodeIff(b[n..], t[1..]);
      assert b == b[..n] + b[n..];
    }
    if IsScalarText(t) && b == Encode(t) && t != [] {
      CharShape(t[0]);
      LengthPositive(t[0]);
      PrefixDecodes(EncodeChar(t[0]), Encode(t[1..]));
      assert b[CharLength(t[0])..] == Encode(t[1..]);
      DecodeIff(b[CharLength(t[0])..], t[1..]);
      assert t == [t[0]] + t[1..];
    }
  }

  lemma LengthPositive(c: CodePoint)
    ensures 1 <= CharLength(c) <= 4 && |EncodeChar(c)| == CharLength(c)
  {
  }

  lemma {:induction false} EncodeAppend(a: Text, b: Text)
    ensures Encode(a + b) == Encode(a) + Encode(b)
  {
    hide EncodeChar, CharLength;
    if a == [] {
      assert a + b == b;
    } else {
      EncodeAppend(a[1..], b);
      assert (a + b)[1..] == a[1..] + b && (a + b)[0] == a[0];
      assert Encode(a + b) == EncodeChar(a[0]) + Encode((a + b)[1..]);
    }
  }

  lemma {:induction false} EncodeAscii(t: Text)
    requires IsAscii(t)
    ensures |Encode(t)| == |t| && forall i :: 0 <= i < |t| ==> Encode(t)[i] == t[i]
  {
    if t != [] { EncodeAscii(t[1..]); }
  }
}
