/** The version-1 binary result envelope: what a valid envelope is, the layout of its
    bytes, and the encoder and decoder between the two. */
module Envelope {
  import opened Wrappers
  import opened Utf8

  const NULL_LENGTH := 0xFFFF_FFFF
  const MAX_U32 := 0xFFFF_FFFE
  const MAX_CONTENT_TYPE := 1024
  const MAGIC: seq<byte> := [66, 84, 82, 69]

  datatype Trust = Untrusted | TrustedInternal

  datatype Metadata = Metadata(format: Text, version: int, contentType: Option<Text>, trust: Trust)

  datatype Envelope = Envelope(version: int, owner: Text, metadata: Metadata, algorithm: Text, payload: seq<byte>)

  // ----- what the constructors of these values accept -----

  predicate IsLower(c: CodePoint) { 97 <= c <= 122 }
  predicate IsUpper(c: CodePoint) { 65 <= c <= 90 }
  predicate IsDigitCode(c: CodePoint) { 48 <= c <= 57 }

  /** Letters, digits and `.` `_` `~` `-`. */
  predicate IsTokenCode(c: CodePoint) {
    IsLower(c) || IsUpper(c) || IsDigitCode(c) || c == 46 || c == 95 || c == 126 || c == 45
  }

  /** Lower-case letters, digits and `-` `_` `.`. */
  predicate IsAlgorithmCode(c: CodePoint) {
    IsLower(c) || IsDigitCode(c) || c == 45 || c == 95 || c == 46
  }

  /** As algorithms, and `/`. */
  predicate IsFormatCode(c: CodePoint) {
    IsAlgorithmCode(c) || c == 47
  }

  predicate IsToken(t: Text) {
    1 <= |t| <= 128 && forall i :: 0 <= i < |t| ==> IsTokenCode(t[i])
  }

  predicate IsAlgorithm(t: Text) {
    1 <= |t| <= 64 && forall i :: 0 <= i < |t| ==> IsAlgorithmCode(t[i])
  }

  predicate IsFormat(t: Text) {
    1 <= |t| <= 64 && forall i :: 0 <= i < |t| ==> IsFormatCode(t[i])
  }

  predicate ValidMetadata(m: Metadata) {
    IsFormat(m.format) && m.version > 0
  }

  predicate ValidEnvelope(e: Envelope) {
    e.version > 0 && IsToken(e.owner) && ValidMetadata(e.metadata) && IsAlgorithm(e.algorithm)
  }

  /** untrusted, trusted_internal */
  function TrustText(t: Trust): (r: Text)
    ensures IsAscii(r) && 1 <= |r| <= 64
  {
    match t
    case Untrusted => [117, 110, 116, 114, 117, 115, 116, 101, 100]
    case TrustedInternal => [116, 114, 117, 115, 116, 101, 100, 95, 105, 110, 116, 101, 114, 110, 97, 108]
  }

  function TrustOf(t: Text): (r: Option<Trust>)
    ensures forall x :: r == Some(x) <==> t == TrustText(x)
  {
    if t == TrustText(Untrusted) then Some(Untrusted)
    else if t == TrustText(TrustedInternal) then Some(TrustedInternal)
    else None
  }

  // ----- the layout -----

  /** Four bytes, most significant first. */
  function Pack(n: int): (r: seq<byte>)
    requires 0 <= n <= NULL_LENGTH
    ensures |r| == 4
  {
    [n / 0x100_0000, n / 0x1_0000 % 256, n / 256 % 256, n % 256]
  }

  /** A length and that many bytes. */
  function Field(b: seq<byte>): (r: seq<byte>)
    requires |b| <= MAX_U32
    ensures |r| == 4 + |b|
  {
    Pack(|b|) + b
  }

  function AsciiBytes(t: Text): (r: seq<byte>)
    requires IsAscii(t)
    ensures |r| == |t| && forall i :: 0 <= i < |t| ==> r[i] == t[i]
  {
    t
  }

  lemma ValidIsAscii(e: Envelope)
    requires ValidEnvelope(e)
    ensures IsAscii(e.owner) && IsAscii(e.metadata.format) && IsAscii(e.algorithm)
  {
  }

  function ContentBytes(c: Option<Text>): seq<byte> {
    if c.None? then [] else Encode(c.value)
  }

  predicate ContentFits(c: Option<Text>) {
    c.Some? ==> IsScalarText(c.value) && |Encode(c.value)| <= MAX_CONTENT_TYPE
  }

  function ContentField(c: Option<Text>): (r: seq<byte>)
    requires ContentFits(c)
    ensures |r| == 4 + |ContentBytes(c)|
  {
    if c.None? then Pack(NULL_LENGTH) else Field(Encode(c.value))
  }

  /** What can be laid out in bytes at all. */
  predicate Layable(e: Envelope) {
    && ValidEnvelope(e) && ContentFits(e.metadata.contentType)
    && e.version < 256 && e.metadata.version <= NULL_LENGTH && |e.payload| <= MAX_U32
  }

  function AfterContent(e: Envelope): seq<byte>
    requires Layable(e)
  {
    ValidIsAscii(e);
    Field(AsciiBytes(TrustText(e.metadata.trust))) + (Field(AsciiBytes(e.algorithm)) + Field(e.payload))
  }

  function AfterFormat(e: Envelope): seq<byte>
    requires Layable(e)
  {
    Pack(e.metadata.version) + (ContentField(e.metadata.contentType) + AfterContent(e))
  }

  /** Magic, version byte, owner, format, format version, content type, trust
      profile, algorithm, payload. */
  function Layout(e: Envelope): seq<byte>
    requires Layable(e)
  {
    ValidIsAscii(e);
    MAGIC + ([e.version] + (Field(AsciiBytes(e.owner)) + (Field(AsciiBytes(e.metadata.format)) + AfterFormat(e))))
  }

  function Size(e: Envelope): nat {
    5 + 7 * 4 + |e.owner| + |e.metadata.format| + |TrustText(e.metadata.trust)| + |e.algorithm| + |e.payload|
    + |ContentBytes(e.metadata.contentType)|
  }

  lemma LayoutSize(e: Envelope)
    requires Layable(e)
    ensures |Layout(e)| == Size(e)
  {
    ValidIsAscii(e);
  }

  const Sample := Envelope(1, [111, 49], Metadata([106, 47, 49], 258, None, Untrusted), [122], [7, 255])

  /** The bytes of one envelope, field by field: owner `o1`, format `j/1` of version
      258, no content type, untrusted, algorithm `z` and two bytes of payload. */
  lemma SampleBytes()
    ensures Layable(Sample)
    ensures Layout(Sample) ==
      [66, 84, 82, 69] + ([1] + ([0, 0, 0, 2, 111, 49] + ([0, 0, 0, 3, 106, 47, 49] + ([0, 0, 1, 2]
      + ([255, 255, 255, 255] + ([0, 0, 0, 9, 117, 110, 116, 114, 117, 115, 116, 101, 100]
      + ([0, 0, 0, 1, 122] + [0, 0, 0, 2, 7, 255])))))))
  {
    SampleLayable();
    SampleFields();
    hide Layable, Field, Pack, TrustText, ContentField, IsToken, IsFormat, IsAlgorithm, IsAscii;
  }

  lemma SampleLayable()
    ensures Layable(Sample) && IsAscii(Sample.owner) && IsAscii(Sample.metadata.format) && IsAscii(Sample.algorithm)
  {
  }

  lemma SampleFields()
    requires Layable(Sample)
    ensures Pack(Sample.metadata.version) == [0, 0, 1, 2] && Pack(NULL_LENGTH) == [255, 255, 255, 255]
    ensures Field(Sample.owner) == [0, 0, 0, 2, 111, 49] && Field(Sample.metadata.format) == [0, 0, 0, 3, 106, 47, 49]
    ensures Field(Sample.algorithm) == [0, 0, 0, 1, 122] && Field(Sample.payload) == [0, 0, 0, 2, 7, 255]
    ensures Field(TrustText(Untrusted)) == [0, 0, 0, 9, 117, 110, 116, 114, 117, 115, 116, 101, 100]
    ensures ContentField(None) == [255, 255, 255, 255]
  {
    hide IsToken, IsFormat, IsAlgorithm, IsAscii;
  }

  lemma Regroup(m: seq<byte>, a: seq<byte>, b: seq<byte>, rest: seq<byte>)
    ensures m + ((a + b) + rest) == m + a + b + rest && m + (a + (b + rest)) == m + a + b + rest
  {
    assert (a + b) + rest == a + (b + rest);
  }

  /** The appends one by one: `c` is the content type's length and bytes. */
  function Appended(e: Envelope, c: seq<byte>): seq<byte>
    requires Layable(e)
  {
    ValidIsAscii(e);
    var start := MAGIC + [e.version] + Pack(|e.owner|) + AsciiBytes(e.owner)
      + Pack(|e.metadata.format|) + AsciiBytes(e.metadata.format);
    var middle := start + Pack(e.metadata.version) + c;
    var trust := AsciiBytes(TrustText(e.metadata.trust));
    middle + Pack(|trust|) + trust + Pack(|e.algorithm|) + AsciiBytes(e.algorithm) + Pack(|e.payload|) + e.payload
  }

  lemma AppendedIsLayout(e: Envelope)
    requires Layable(e)
    ensures Appended(e, ContentField(e.metadata.contentType)) == Layout(e)
  {
    ValidIsAscii(e);
    hide Pack, TrustText, IsToken, IsAlgorithm, IsFormat, AsciiBytes, Encode, ContentField;
    var owner, format := AsciiBytes(e.owner), AsciiBytes(e.metadata.format);
    var trust, algorithm := AsciiBytes(TrustText(e.metadata.trust)), AsciiBytes(e.algorithm);
    var head := MAGIC + [e.version];
    var start := head + Pack(|owner|) + owner + Pack(|format|) + format;
    var middle := start + Pack(e.metadata.version) + ContentField(e.metadata.contentType);
    Regroup(MAGIC, [e.version], [], Field(owner) + (Field(format) + AfterFormat(e)));
    assert [e.version] + [] == [e.version] && head + [] == head;
    Regroup(head, Pack(|owner|), owner, Field(format) + AfterFormat(e));
    Regroup(head + Pack(|owner|) + owner, Pack(|format|), format, AfterFormat(e));
    Regroup(start, Pack(e.metadata.version), ContentField(e.metadata.contentType), AfterContent(e));
    Regroup(middle, Pack(|trust|), trust, Field(algorithm) + Field(e.payload));
    Regroup(middle + Pack(|trust|) + trust, Pack(|algorithm|), algorithm, Field(e.payload));
    Regroup(middle + Pack(|trust|) + trust + Pack(|algorithm|) + algorithm, Pack(|e.payload|), e.payload, []);
  }

  // ----- encoding -----

  datatype EncodeError = BadContentType | SizeLimit | VersionRange | FormatVersionRange

  /** The computed size is exactly what is written, so the second size check never
      fails. */
  method EncodeEnvelope(e: Envelope, max: nat) returns (r: Result<seq<byte>, EncodeError>)
    requires ValidEnvelope(e) && 1 <= max <= MAX_U32
    ensures r.Ok? ==> Layable(e) && r.value == Layout(e) && |r.value| <= max
    ensures r.Ok? <==> Layable(e) && Size(e) <= max
    ensures r == Fail(BadContentType) <==> !ContentFits(e.metadata.contentType)
    ensures r == Fail(SizeLimit) <==> ContentFits(e.metadata.contentType) && Size(e) > max
    ensures r == Fail(VersionRange) <==> ContentFits(e.metadata.contentType) && Size(e) <= max && e.version > 255
    ensures r == Fail(FormatVersionRange) <==>
      ContentFits(e.metadata.contentType) && Size(e) <= max && e.version <= 255 && e.metadata.version > NULL_LENGTH
  {
    hide Encode, Pack, TrustText, IsToken, IsAlgorithm, IsFormat, Layout;
    ValidIsAscii(e);
    var owner, format := AsciiBytes(e.owner), AsciiBytes(e.metadata.format);
    var trust, algorithm := AsciiBytes(TrustText(e.metadata.trust)), AsciiBytes(e.algorithm);
    var content: Option<seq<byte>> := None;
    if e.metadata.contentType.Some? {
      if !IsScalarText(e.metadata.contentType.value) { return Fail(BadContentType); }
      content := Some(Encode(e.metadata.contentType.value));
      if |content.value| > MAX_CONTENT_TYPE { return Fail(BadContentType); }
    }
    if |e.payload| > MAX_U32 { return Fail(SizeLimit); }
    var size := 5 + 7 * 4 + |owner| + |format| + |trust| + |algorithm| + |e.payload|;
    if content.Some? { size := size + |content.value|; }
    if size > max { return Fail(SizeLimit); }
    assert size == Size(e);

    var output := MAGIC;
    if e.version > 255 { return Fail(VersionRange); }
    output := output + [e.version];
    output := output + Pack(|owner|);
    output := output + owner;
    output := output + Pack(|format|);
    output := output + format;
    if e.metadata.version > NULL_LENGTH { return Fail(FormatVersionRange); }
    output := output + Pack(e.metadata.version);
    ghost var before := output;
    if content.None? {
      output := output + Pack(NULL_LENGTH);
    } else {
      output := output + Pack(|content.value|);
      output := output + content.value;
    }
    assert output == before + ContentField(e.metadata.contentType);
    output := output + Pack(|trust|);
    output := output + trust;
    output := output + Pack(|algorithm|);
    output := output + algorithm;
    output := output + Pack(|e.payload|);
    output := output + e.payload;
    assert output == Appended(e, ContentField(e.metadata.contentType));
    AppendedIsLayout(e);
    LayoutSize(e);
    if |output| > max { return Fail(SizeLimit); }
    r := Ok(output);
  }

  // ----- reading at a cursor -----

  function Take(data: seq<byte>, cursor: nat, size: int): (r: Option<(seq<byte>, nat)>)
    requires cursor <= |data|
    ensures r.Some? <==> 0 <= size && cursor + size <= |data|
    ensures r.Some? ==>
        cursor <= r.value.1 <= |data| && |r.value.0| == size && data[cursor..] == r.value.0 + data[r.value.1..]
  {
    if size < 0 || size > |data| - cursor then None
    else Some((data[cursor..cursor + size], cursor + size))
  }

  function Unpack(b: seq<byte>): (n: int)
    requires |b| == 4
    ensures 0 <= n <= NULL_LENGTH
  {
    var w: int, x: int, y: int, z: int := b[0], b[1], b[2], b[3];
    0x100_0000 * w + 0x1_0000 * x + 256 * y + z
  }

  lemma PackUnpack(b: seq<byte>)
    requires |b| == 4
    ensures Pack(Unpack(b)) == b
  {
    var w: int, x: int, y: int, z: int := b[0], b[1], b[2], b[3];
    Bytes(0x1_0000 * w + 256 * x + y, z);
    Bytes(256 * w + x, y);
    Bytes(w, x);
    Nest(Unpack(b));
  }

  lemma UnpackPack(n: int)
    requires 0 <= n <= NULL_LENGTH
    ensures Unpack(Pack(n)) == n
  {
    Nest(n);
  }

  lemma Bytes(h: int, l: int)
    requires 0 <= l < 256
    ensures (256 * h + l) / 256 == h && (256 * h + l) % 256 == l
  {
  }

  lemma Nest(n: int)
    ensures n / 256 / 256 == n / 0x1_0000 && n / 0x1_0000 / 256 == n / 0x100_0000
  {
  }

  function ReadU32(data: seq<byte>, cursor: nat): (r: Option<(int, nat)>)
    requires cursor <= |data|
    ensures r.Some? ==> cursor <= r.value.1 <= |data| && 0 <= r.value.0 <= NULL_LENGTH
  {
    var raw := Take(data, cursor, 4);
    if raw.None? then None else Some((Unpack(raw.value.0), raw.value.1))
  }

  function ReadRequiredText(data: seq<byte>, cursor: nat, maximum: nat): (r: Option<(Text, nat)>)
    requires cursor <= |data|
    ensures r.Some? ==> cursor <= r.value.1 <= |data|
  {
    var size := ReadU32(data, cursor);
    if size.None? || !(1 <= size.value.0 <= maximum) then None
    else
      var raw := Take(data, size.value.1, size.value.0);
      if raw.None? || exists i :: 0 <= i < |raw.value.0| && raw.value.0[i] >= 128 then None
      else Some((raw.value.0, raw.value.1))
  }

  function ReadContentType(data: seq<byte>, cursor: nat): (r: Option<(Option<Text>, nat)>)
    requires cursor <= |data|
    ensures r.Some? ==> cursor <= r.value.1 <= |data|
  {
    var size := ReadU32(data, cursor);
    if size.None? then None
    else if size.value.0 == NULL_LENGTH then Some((None, size.value.1))
    else if size.value.0 > MAX_CONTENT_TYPE then None
    else
      var raw := Take(data, size.value.1, size.value.0);
      if raw.None? then None
      else
        var text := Decode(raw.value.0);
        if text.None? then None else Some((Some(text.value), raw.value.1))
  }

  /** Reading finds `b` next exactly when the data goes on with `b`'s form. */
  lemma ReadU32Step(data: seq<byte>, cursor: nat, n: int, end: nat)
    requires cursor <= |data| && 0 <= n <= NULL_LENGTH
    ensures ReadU32(data, cursor) == Some((n, end)) <==> end <= |data| && data[cursor..] == Pack(n) + data[end..]
  {
    hide Pack, Unpack;
    UnpackPack(n);
    if ReadU32(data, cursor) == Some((n, end)) { PackUnpack(Take(data, cursor, 4).value.0); }
    if end <= |data| && data[cursor..] == Pack(n) + data[end..] {
      assert |data| - cursor == 4 + |data| - end;
      assert Take(data, cursor, 4).value.0 == data[cursor..][..4] == Pack(n);
    }
  }

  lemma ReadTextStep(data: seq<byte>, cursor: nat, maximum: nat, t: Text, end: nat)
    requires cursor <= |data| && maximum <= 1024
    ensures ReadRequiredText(data, cursor, maximum) == Some((t, end))
       <==> end <= |data| && 1 <= |t| <= maximum && IsAscii(t) && data[cursor..] == Field(AsciiBytes(t)) + data[end..]
  {
    hide Pack, Unpack, ReadU32;
    var size := ReadU32(data, cursor);
    if ReadRequiredText(data, cursor, maximum) == Some((t, end)) {
      ReadU32Step(data, cursor, |t|, size.value.1);
      assert data[cursor..] == Pack(|t|) + (t + data[end..]);
      assert data[cursor..] == Field(AsciiBytes(t)) + data[end..];
    }
    if end <= |data| && 1 <= |t| <= maximum && IsAscii(t) && data[cursor..] == Field(AsciiBytes(t)) + data[end..] {
      FieldSplit(data, cursor, AsciiBytes(t), end);
      ReadU32Step(data, cursor, |t|, cursor + 4);
    }
  }

  lemma FieldSplit(data: seq<byte>, cursor: nat, b: seq<byte>, end: nat)
    requires cursor <= |data| && end <= |data| && |b| <= MAX_U32 && data[cursor..] == Field(b) + data[end..]
    ensures end == cursor + 4 + |b| && data[cursor + 4..end] == b && data[cursor..] == Pack(|b|) + data[cursor + 4..]
  {
    hide Pack;
    assert |data| - cursor == 4 + |b| + |data| - end;
    assert data[cursor..][4..4 + |b|] == b;
  }

  lemma ReadContentStep(data: seq<byte>, cursor: nat, c: Option<Text>, end: nat)
    requires cursor <= |data|
    ensures ReadContentType(data, cursor) == Some((c, end))
       <==> end <= |data| && ContentFits(c) && data[cursor..] == ContentField(c) + data[end..]
  {
    hide Pack, Unpack, ReadU32, Encode, Decode, IsScalarText;
    var size := ReadU32(data, cursor);
    if ReadContentType(data, cursor) == Some((c, end)) {
      ReadU32Step(data, cursor, size.value.0, size.value.1);
      if c.Some? {
        var raw := Take(data, size.value.1, size.value.0).value.0;
        DecodeIff(raw, c.value);
        assert data[cursor..] == Pack(|raw|) + (raw + data[end..]);
        assert data[cursor..] == Field(raw) + data[end..];
      }
    }
    if end <= |data| && ContentFits(c) && data[cursor..] == ContentField(c) + data[end..] {
      if c.None? {
        ReadU32Step(data, cursor, NULL_LENGTH, end);
      } else {
        FieldSplit(data, cursor, Encode(c.value), end);
        ReadU32Step(data, cursor, |Encode(c.value)|, cursor + 4);
        DecodeIff(Encode(c.value), c.value);
      }
    }
  }

  // ----- decoding -----

  datatype DecodeError = TooLarge | Malformed | UnsupportedVersion

  /** The reads of `DecodeEnvelope` from the owner on, without its error codes. */
  function ReadBody(data: seq<byte>, cursor: nat): Option<Envelope>
    requires cursor <= |data|
  {
    var owner := ReadRequiredText(data, cursor, 128);
    if owner.None? then None else
    var format := ReadRequiredText(data, owner.value.1, 64);
    if format.None? then None else
    var version := ReadU32(data, format.value.1);
    if version.None? then None else
    var content := ReadContentType(data, version.value.1);
    if content.None? then None else
    var trust := ReadRequiredText(data, content.value.1, 64);
    if trust.None? then None else
    var algorithm := ReadRequiredText(data, trust.value.1, 64);
    if algorithm.None? then None else
    var size := ReadU32(data, algorithm.value.1);
    if size.None? then None else
    var payload := Take(data, size.value.1, size.value.0);
    if payload.None? || payload.value.1 != |data| then None else
    if TrustOf(trust.value.0).None? then None else
    var metadata := Metadata(format.value.0, version.value.0, content.value.0, TrustOf(trust.value.0).value);
    var e := Envelope(1, owner.value.0, metadata, algorithm.value.0, payload.value.0);
    if ValidEnvelope(e) then Some(e) else None
  }

  function BodyOf(e: Envelope): seq<byte>
    requires Layable(e)
  {
    ValidIsAscii(e);
    Field(AsciiBytes(e.owner)) + (Field(AsciiBytes(e.metadata.format)) + AfterFormat(e))
  }

  /** What the reads accept is exactly the layout of what they return. */
  lemma ReadBodySound(data: seq<byte>, cursor: nat)
    requires cursor <= |data| <= MAX_U32
    ensures ReadBody(data, cursor).Some? ==>
      var e := ReadBody(data, cursor).value;
      e.version == 1 && Layable(e) && data[cursor..] == BodyOf(e)
  {
    hide Pack, Unpack, ReadU32, ReadRequiredText, ReadContentType, IsToken, IsAlgorithm, IsFormat, AsciiBytes,
      TrustText, TrustOf, ContentField, Encode, Field, ContentFits;
    if ReadBody(data, cursor).Some? {
      var e := ReadBody(data, cursor).value;
      ValidIsAscii(e);
      var owner := ReadRequiredText(data, cursor, 128).value;
      var format := ReadRequiredText(data, owner.1, 64).value;
      var version := ReadU32(data, format.1).value;
      var content := ReadContentType(data, version.1).value;
      var trust := ReadRequiredText(data, content.1, 64).value;
      var algorithm := ReadRequiredText(data, trust.1, 64).value;
      var size := ReadU32(data, algorithm.1).value;
      var payload := Take(data, size.1, size.0).value;
      ReadTextStep(data, cursor, 128, e.owner, owner.1);
      ReadTextStep(data, owner.1, 64, e.metadata.format, format.1);
      ReadU32Step(data, format.1, version.0, version.1);
      ReadContentStep(data, version.1, content.0, content.1);
      ReadTextStep(data, content.1, 64, trust.0, trust.1);
      ReadTextStep(data, trust.1, 64, algorithm.0, algorithm.1);
      ReadU32Step(data, algorithm.1, size.0, size.1);
      assert data[algorithm.1..] == Field(e.payload) by { PayloadField(data, algorithm.1, e.payload); }
      assert data[format.1..] == AfterFormat(e);
    }
  }

  lemma PayloadField(data: seq<byte>, cursor: nat, b: seq<byte>)
    requires cursor <= |data| && |b| <= MAX_U32
    requires cursor + 4 <= |data| && data[cursor..] == Pack(|b|) + data[cursor + 4..] && data[cursor + 4..] == b
    ensures data[cursor..] == Field(b)
  {
  }

  lemma ReadBodyComplete(data: seq<byte>, cursor: nat, e: Envelope)
    requires cursor <= |data| <= MAX_U32 && Layable(e) && e.version == 1 && data[cursor..] == BodyOf(e)
    ensures ReadBody(data, cursor) == Some(e)
  {
    hide Pack, Unpack, ReadU32, ReadRequiredText, ReadContentType, IsToken, IsAlgorithm, IsFormat, AsciiBytes,
      TrustText, TrustOf, ContentField, Encode, ContentFits;
    ValidIsAscii(e);
    var trust := TrustText(e.metadata.trust);
    assert TrustOf(trust) == Some(e.metadata.trust);
    assert 1 <= |e.owner| <= 128 && 1 <= |e.metadata.format| <= 64 && 1 <= |e.algorithm| <= 64 by { Lengths(e); }
    var c1 := cursor + 4 + |e.owner|;
    assert data[c1..] == Field(AsciiBytes(e.metadata.format)) + AfterFormat(e) by {
      Drop(data, cursor, Field(AsciiBytes(e.owner)), Field(AsciiBytes(e.metadata.format)) + AfterFormat(e));
    }
    ReadTextStep(data, cursor, 128, e.owner, c1);
    var c2 := c1 + 4 + |e.metadata.format|;
    assert data[c2..] == AfterFormat(e) by { Drop(data, c1, Field(AsciiBytes(e.metadata.format)), AfterFormat(e)); }
    ReadTextStep(data, c1, 64, e.metadata.format, c2);
    ReadRestComplete(data, c2, e);
  }

  lemma Lengths(e: Envelope)
    requires ValidEnvelope(e)
    ensures 1 <= |e.owner| <= 128 && 1 <= |e.metadata.format| <= 64 && 1 <= |e.algorithm| <= 64
  {
  }

  lemma Drop(data: seq<byte>, cursor: nat, a: seq<byte>, rest: seq<byte>)
    requires cursor <= |data| && data[cursor..] == a + rest
    ensures cursor + |a| <= |data| && data[cursor + |a|..] == rest
  {
    assert |data| - cursor == |a| + |rest|;
    assert data[cursor + |a|..] == data[cursor..][|a|..];
  }

  /** The reads after the format. */
  lemma ReadRestComplete(data: seq<byte>, c2: nat, e: Envelope)
    requires c2 <= |data| <= MAX_U32 && Layable(e) && data[c2..] == AfterFormat(e)
    ensures var c3, c4 := c2 + 4, c2 + 8 + |ContentBytes(e.metadata.contentType)|;
      var c5 := c4 + 4 + |TrustText(e.metadata.trust)|;
      var c6 := c5 + 4 + |e.algorithm|;
      && c6 + 4 <= |data|
      && ReadU32(data, c2) == Some((e.metadata.version, c3))
      && ReadContentType(data, c3) == Some((e.metadata.contentType, c4))
      && ReadRequiredText(data, c4, 64) == Some((TrustText(e.metadata.trust), c5))
      && ReadRequiredText(data, c5, 64) == Some((e.algorithm, c6))
      && ReadU32(data, c6) == Some((|e.payload|, c6 + 4))
      && Take(data, c6 + 4, |e.payload|) == Some((e.payload, |data|))
  {
    hide Pack, Unpack, ReadU32, ReadRequiredText, ReadContentType, IsToken, IsAlgorithm, IsFormat, AsciiBytes,
      TrustText, TrustOf, ContentField, Encode, ContentFits, ContentBytes;
    ValidIsAscii(e);
    Lengths(e);
    var trust := AsciiBytes(TrustText(e.metadata.trust));
    var c3, c4 := c2 + 4, c2 + 8 + |ContentBytes(e.metadata.contentType)|;
    Drop(data, c2, Pack(e.metadata.version), ContentField(e.metadata.contentType) + AfterContent(e));
    ReadU32Step(data, c2, e.metadata.version, c3);
    Drop(data, c3, ContentField(e.metadata.contentType), AfterContent(e));
    ReadContentStep(data, c3, e.metadata.contentType, c4);
    var c5 := c4 + 4 + |trust|;
    Drop(data, c4, Field(trust), Field(AsciiBytes(e.algorithm)) + Field(e.payload));
    ReadTextStep(data, c4, 64, TrustText(e.metadata.trust), c5);
    var c6 := c5 + 4 + |e.algorithm|;
    Drop(data, c5, Field(AsciiBytes(e.algorithm)), Field(e.payload));
    ReadTextStep(data, c5, 64, e.algorithm, c6);
    Drop(data, c6, Pack(|e.payload|), e.payload);
    ReadU32Step(data, c6, |e.payload|, c6 + 4);
    assert data[c6 + 4..] == e.payload && c6 + 4 + |e.payload| == |data|;
    assert Take(data, c6 + 4, |e.payload|).value.0 == e.payload;
  }

  /** Decoding succeeds exactly on the layouts of valid version-1 envelopes within
      the bound, and yields that envelope; the other two errors are told apart by
      size and by the version byte. */
  method DecodeEnvelope(data: seq<byte>, max: nat) returns (r: Result<Envelope, DecodeError>)
    requires 1 <= max <= MAX_U32
    ensures r.Ok? ==> |data| <= max && Layable(r.value) && r.value.version == 1 && data == Layout(r.value)
    ensures forall e :: |data| <= max && Layable(e) && e.version == 1 && data == Layout(e) ==> r == Ok(e)
    ensures r == Fail(TooLarge) <==> |data| > max
    ensures r == Fail(UnsupportedVersion) <==> 5 <= |data| <= max && data[..4] == MAGIC && data[4] != 1
  {
    hide BodyOf, Layable, Pack, Unpack, ReadU32, ReadRequiredText, ReadContentType, ValidEnvelope, TrustOf;
    if |data| > max { return Fail(TooLarge); }
    forall e | Layable(e) && e.version == 1 && data == Layout(e)
      ensures 5 <= |data| && data[..4] == MAGIC && data[4] == 1 && ReadBody(data, 5) == Some(e)
    {
      LayoutParts(data, e);
      ReadBodyComplete(data, 5, e);
    }
    var magic := Take(data, 0, 4);
    if magic.None? || magic.value.0 != MAGIC { return Fail(Malformed); }
    var cursor := magic.value.1;
    var versionBytes := Take(data, cursor, 1);
    if versionBytes.None? { return Fail(Malformed); }
    cursor := versionBytes.value.1;
    if versionBytes.value.0[0] != 1 { return Fail(UnsupportedVersion); }
    ghost var body := ReadBody(data, cursor);
    ReadBodySound(data, cursor);
    if body.Some? { PartsLayout(data, body.value); }

    var owner := ReadRequiredText(data, cursor, 128);
    if owner.None? { return Fail(Malformed); }
    cursor := owner.value.1;
    var format := ReadRequiredText(data, cursor, 64);
    if format.None? { return Fail(Malformed); }
    cursor := format.value.1;
    var version := ReadU32(data, cursor);
    if version.None? { return Fail(Malformed); }
    cursor := version.value.1;
    var content := ReadContentType(data, cursor);
    if content.None? { return Fail(Malformed); }
    cursor := content.value.1;
    var trust := ReadRequiredText(data, cursor, 64);
    if trust.None? { return Fail(Malformed); }
    cursor := trust.value.1;
    var algorithm := ReadRequiredText(data, cursor, 64);
    if algorithm.None? { return Fail(Malformed); }
    cursor := algorithm.value.1;
    var size := ReadU32(data, cursor);
    if size.None? { return Fail(Malformed); }
    cursor := size.value.1;
    var payload := Take(data, cursor, size.value.0);
    if payload.None? { return Fail(Malformed); }
    cursor := payload.value.1;
    if cursor != |data| { return Fail(Malformed); }
    var profile := TrustOf(trust.value.0);
    if profile.None? { return Fail(Malformed); }
    var e := Envelope(1, owner.value.0, Metadata(format.value.0, version.value.0, content.value.0, profile.value),
      algorithm.value.0, payload.value.0);
    if !ValidEnvelope(e) { return Fail(Malformed); }
    r := Ok(e);
  }

  lemma LayoutParts(data: seq<byte>, e: Envelope)
    requires Layable(e) && e.version == 1 && data == Layout(e)
    ensures 5 <= |data| && data[..4] == MAGIC && data[4] == 1 && data[5..] == BodyOf(e)
  {
    hide Pack, Field, AfterFormat, AsciiBytes;
    assert Layout(e) == MAGIC + ([1] + BodyOf(e));
  }

  lemma PartsLayout(data: seq<byte>, e: Envelope)
    requires Layable(e) && e.version == 1
    requires 5 <= |data| && data[..4] == MAGIC && data[4] == 1 && data[5..] == BodyOf(e)
    ensures data == Layout(e)
  {
    hide Pack, Field, AfterFormat, AsciiBytes;
    assert data == data[..4] + ([data[4]] + data[5..]);
  }

  /** Layouts are unambiguous, and so both round trips hold. */
  lemma LayoutInjective(a: Envelope, b: Envelope)
    requires Layable(a) && Layable(b) && a.version == b.version == 1
    requires Layout(a) == Layout(b) && |Layout(a)| <= MAX_U32
    ensures a == b
  {
    hide Layable, Layout, BodyOf, ReadBody;
    LayoutParts(Layout(a), a);
    LayoutParts(Layout(b), b);
    ReadBodyComplete(Layout(a), 5, a);
    ReadBodyComplete(Layout(b), 5, b);
  }

  /** `decode(encode(e)) == e` for every version-1 envelope that encodes. */
  method EncodeThenDecode(e: Envelope, max: nat) returns (r: Result<Envelope, DecodeError>)
    requires Layable(e) && e.version == 1 && Size(e) <= max && 1 <= max <= MAX_U32
    ensures r == Ok(e)
  {
    var bytes := EncodeEnvelope(e, max);
    r := DecodeEnvelope(bytes.value, max);
  }

  /** `encode(decode(b)) == b` for every byte string that decodes. */
  method DecodeThenEncode(data: seq<byte>, max: nat) returns (r: Result<seq<byte>, EncodeError>, decoded: bool)
    requires 1 <= max <= MAX_U32
    ensures decoded ==> r == Ok(data)
  {
    hide Layout;
    var e := DecodeEnvelope(data, max);
    decoded := e.Ok?;
    if decoded {
      LayoutSize(e.value);
      r := EncodeEnvelope(e.value, max);
    } else {
      r := Fail(SizeLimit);
    }
  }
}
