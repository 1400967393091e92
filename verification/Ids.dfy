/** Monotonic identifiers: ULID text, and the ULID and UUIDv7 generators (UUIDv7:
    sections 5.7 and 6.2 of RFC 9562).  Shifts and masks are divisions and
    remainders, and `|` of disjoint bit fields is addition. */
module Ids {
  import opened Wrappers
  import opened Utf8

  const MAX_TIMESTAMP: nat := 0xFFFF_FFFF_FFFF
  const TWO_80: nat := 0x1_0000_0000_0000_0000_0000
  const TWO_128: nat := 0x1_0000_0000_0000_0000_0000_0000_0000_0000
  const ULID_LENGTH := 26
  const ALPHABET := "0123456789ABCDEFGHJKMNPQRSTVWXYZ"

  // ----- ULID text -----

  /** The alphabet, which leaves out I, L, O and U. */
  function Digit(d: nat): char
    requires d < 32
  {
    (if d < 10 then 48 + d
     else if d < 18 then 55 + d
     else if d < 20 then 56 + d
     else if d < 22 then 57 + d
     else if d < 27 then 58 + d
     else 59 + d) as char
  }

  /** The digits are the alphabet's characters. */
  lemma DigitIsAlphabet(d: nat)
    requires d < 32
    ensures ALPHABET[d] == Digit(d)
  {
    if d < 8 {
      assert ALPHABET[..8] == "01234567";
      assert ALPHABET[d] == ALPHABET[..8][d];
    } else if d < 16 {
      assert ALPHABET[8..] == "89ABCDEFGHJKMNPQRSTVWXYZ";
      assert ALPHABET[d] == ALPHABET[8..][d - 8];
    } else if d < 24 {
      assert ALPHABET[16..24] == "GHJKMNPQ";
      assert ALPHABET[d] == ALPHABET[16..24][d - 16];
    } else {
      assert ALPHABET[24..] == "RSTVWXYZ";
      assert ALPHABET[d] == ALPHABET[24..][d - 24];
    }
  }

  function DigitValue(c: char): (r: Option<nat>)
    ensures r.Some? ==> r.value < 32 && Digit(r.value) == c
    ensures r.None? ==> forall d :: 0 <= d < 32 ==> Digit(d) != c
  {
    FindDigit(c, 0)
  }

  function FindDigit(c: char, from: nat): (r: Option<nat>)
    requires from <= 32
    ensures r.Some? ==> from <= r.value < 32 && Digit(r.value) == c
    ensures r.None? ==> forall d :: from <= d < 32 ==> Digit(d) != c
    decreases 32 - from
  {
    if from == 32 then None else if Digit(from) == c then Some(from) else FindDigit(c, from + 1)
  }

  /** The alphabet is in character order. */
  lemma DigitsOrdered(d: nat, e: nat)
    requires d < e < 32
    ensures Digit(d) < Digit(e)
  {
  }

  /** The last `n` base-32 digits of `v`. */
  function Digits(v: nat, n: nat): (r: string)
    ensures |r| == n
  {
    if n == 0 then "" else Digits(v / 32, n - 1) + [Digit(v % 32)]
  }

  /** The number a string of digits denotes. */
  function Number(s: string): Option<nat> {
    if s == "" then Some(0)
    else
      var init, last := Number(s[..|s| - 1]), DigitValue(s[|s| - 1]);
      if init.None? || last.None? then None else Some(32 * init.value + last.value)
  }

  function Pow32(n: nat): (r: nat)
    ensures r >= 1
  {
    if n == 0 then 1 else 32 * Pow32(n - 1)
  }

  lemma Pow32Is26()
    ensures Pow32(26) == 4 * TWO_128
  {
    assert Pow32(4) == 0x10_0000;
    assert Pow32(8) == 0x10_0000 * Pow32(4);
    assert Pow32(12) == 0x10_0000 * Pow32(8);
    assert Pow32(16) == 0x10_0000 * Pow32(12);
    assert Pow32(20) == 0x10_0000 * Pow32(16);
    assert Pow32(24) == 0x10_0000 * Pow32(20);
    assert Pow32(26) == 32 * (32 * Pow32(24));
  }

  /** Writing digits into an array from the end. */
  method EncodeUlid(timestamp: nat, randomness: nat) returns (s: string)
    requires timestamp <= MAX_TIMESTAMP && randomness < TWO_80
    ensures s == Digits(timestamp * TWO_80 + randomness, ULID_LENGTH)
  {
    hide Digit;
    var value: nat := timestamp * TWO_80 + randomness;
    ghost var whole := value;
    var output := new char[ULID_LENGTH](i => '0');
    var index := ULID_LENGTH;
    while index > 0
      invariant 0 <= index <= ULID_LENGTH && output.Length == ULID_LENGTH
      invariant Digits(whole, ULID_LENGTH) == Digits(value, index) + output[index..]
    {
      index := index - 1;
      ghost var done := output[index + 1..];
      DigitIsAlphabet(value % 32);
      output[index] := ALPHABET[value % 32];
      assert output[index..] == [Digit(value % 32)] + done;
      assert Digits(value, index + 1) == Digits(value / 32, index) + [Digit(value % 32)];
      value := value / 32;
    }
    s := output[..];
  }

  /** `None` is the invalid-identifier error. */
  method DecodeUlid(s: string) returns (r: Option<nat>)
    ensures r.Some? <==> Number(s).Some? && Number(s).value < TWO_128
    ensures r.Some? ==> r == Number(s)
  {
    var decoded := 0;
    assert s[..0] == "";
    for i := 0 to |s|
      invariant Number(s[..i]) == Some(decoded)
    {
      var digit := DigitValue(s[i]);
      assert s[..i + 1][..i] == s[..i];
      if digit.None? {
        UnreadablePrefix(s, i + 1);
        return None;
      }
      decoded := 32 * decoded + digit.value;
    }
    assert s[..|s|] == s;
    r := if decoded >= TWO_128 then None else Some(decoded);
  }

  lemma {:induction false} UnreadablePrefix(s: string, n: nat)
    requires n <= |s| && Number(s[..n]).None?
    ensures Number(s).None?
  {
    if n == |s| {
      assert s[..n] == s;
    } else {
      assert s[..|s| - 1][..n] == s[..n];
      UnreadablePrefix(s[..|s| - 1], n);
    }
  }

  lemma DigitValueOf(d: nat)
    requires d < 32
    ensures DigitValue(Digit(d)) == Some(d)
  {
    var e := DigitValue(Digit(d));
    if e.Some? && e.value < d { DigitsOrdered(e.value, d); }
    if e.Some? && d < e.value { DigitsOrdered(d, e.value); }
  }

  /** Decoding undoes encoding for every number the length can hold. */
  lemma {:induction false} NumberOfDigits(v: nat, n: nat)
    requires v < Pow32(n)
    ensures Number(Digits(v, n)) == Some(v)
  {
    hide Digit, DigitValue;
    if n > 0 {
      NumberOfDigits(v / 32, n - 1);
      DigitValueOf(v % 32);
      assert Digits(v, n)[..n - 1] == Digits(v / 32, n - 1);
    }
  }

  /** Encoding undoes decoding: every readable string is the one form of its number. */
  lemma {:induction false} DigitsOfNumber(s: string)
    requires Number(s).Some?
    ensures Number(s).value < Pow32(|s|) && Digits(Number(s).value, |s|) == s
  {
    hide Digit, DigitValue;
    if s != "" {
      DigitsOfNumber(s[..|s| - 1]);
      assert s == s[..|s| - 1] + [s[|s| - 1]];
    }
  }

  /** Strings compare by their first difference. */
  predicate TextLess(a: string, b: string)
    requires |a| == |b|
  {
    exists i :: 0 <= i < |a| && FirstDifference(a, b, i)
  }

  predicate FirstDifference(a: string, b: string, i: nat)
    requires |a| == |b|
  {
    i < |a| && a[..i] == b[..i] && a[i] < b[i]
  }

  /** Numeric order is string order. */
  lemma {:induction false} OrderPreserved(v: nat, w: nat, n: nat)
    requires v < w < Pow32(n)
    ensures TextLess(Digits(v, n), Digits(w, n))
  {
    hide Digit;
    var a, b := Digits(v, n), Digits(w, n);
    var last := n - 1;
    assert a[..last] == Digits(v / 32, last) && b[..last] == Digits(w / 32, last);
    if v / 32 == w / 32 {
      DigitsOrdered(v % 32, w % 32);
      assert FirstDifference(a, b, last);
    } else {
      OrderPreserved(v / 32, w / 32, last);
      var c, d := Digits(v / 32, last), Digits(w / 32, last);
      var i :| 0 <= i < |c| && FirstDifference(c, d, i);
      assert c[..i] == a[..i] && d[..i] == b[..i];
      assert FirstDifference(a, b, i);
    }
  }

  lemma DifferBeyond(a: string, b: string, i: nat, j: nat)
    requires |a| == |b| && FirstDifference(a, b, i) && i < j <= |a|
    ensures a[..j] != b[..j]
  {
    assert a[..j][i] == a[i] && b[..j][i] == b[i];
  }

  lemma TextLessIrreflexive(a: string, b: string)
    requires |a| == |b| && TextLess(a, b)
    ensures a != b && !TextLess(b, a)
  {
    var i :| 0 <= i < |a| && FirstDifference(a, b, i);
    forall j | 0 <= j < |a| ensures !FirstDifference(b, a, j) {
      if i < j {
        DifferBeyond(a, b, i, j);
      } else if j < i && FirstDifference(b, a, j) {
        DifferBeyond(b, a, j, i);
      }
    }
  }

  lemma OrderIff(v: nat, w: nat)
    requires v < TWO_128 && w < TWO_128
    ensures v < w <==> TextLess(Digits(v, ULID_LENGTH), Digits(w, ULID_LENGTH))
  {
    hide Digits, TextLess;
    Pow32Is26();
    if v < w {
      OrderPreserved(v, w, ULID_LENGTH);
    } else if w < v {
      OrderPreserved(w, v, ULID_LENGTH);
      TextLessIrreflexive(Digits(w, ULID_LENGTH), Digits(v, ULID_LENGTH));
    } else if TextLess(Digits(v, ULID_LENGTH), Digits(w, ULID_LENGTH)) {
      TextLessIrreflexive(Digits(v, ULID_LENGTH), Digits(w, ULID_LENGTH));
    }
  }

  datatype IdError = IdOverflow | InvalidId

  method UlidTimestamp(s: string) returns (r: Result<nat, IdError>)
    ensures r.Ok? <==> |s| == ULID_LENGTH && Number(s).Some? && Number(s).value < TWO_128
    ensures r.Ok? ==> r.value == Number(s).value / TWO_80
  {
    if |s| != ULID_LENGTH { return Fail(InvalidId); }
    var v := DecodeUlid(s);
    r := if v.None? then Fail(InvalidId) else Ok(v.value / TWO_80);
  }

  // ----- clock and entropy -----

  function BigEndian(b: seq<byte>): nat {
    if b == [] then 0 else 256 * BigEndian(b[..|b| - 1]) + b[|b| - 1]
  }

  function Pow256(n: nat): nat {
    if n == 0 then 1 else 256 * Pow256(n - 1)
  }

  lemma {:induction false} BigEndianBound(b: seq<byte>)
    ensures BigEndian(b) < Pow256(|b|)
  {
    if b != [] { BigEndianBound(b[..|b| - 1]); }
  }

  lemma TenBytes(b: seq<byte>)
    requires |b| == 10
    ensures BigEndian(b) < TWO_80
  {
    BigEndianBound(b);
    assert Pow256(5) == 0x100_0000_0000;
    assert Pow256(10) == 0x100_0000_0000 * Pow256(5);
  }

  /** The checks on what the callbacks return, before any state is read. */
  function ReadInputs(observed: int, entropy: seq<byte>): Option<IdError> {
    if observed < 0 || observed > MAX_TIMESTAMP then Some(IdOverflow)
    else if |entropy| != 10 then Some(InvalidId)
    else None
  }

  // ----- the monotonic ULID generator -----

  /** The last identifier's two fields. */
  datatype Last = Last(ms: nat, low: nat)

  function UlidNext(last: Option<Last>, observed: int, entropy: seq<byte>): Result<Last, IdError> {
    if ReadInputs(observed, entropy).Some? then Fail(ReadInputs(observed, entropy).value)
    else if last.None? || observed > last.value.ms then Ok(Last(observed, BigEndian(entropy)))
    else if last.value.low == TWO_80 - 1 then Fail(IdOverflow)
    else Ok(Last(last.value.ms, last.value.low + 1))
  }

  predicate UlidFields(l: Last) {
    l.ms <= MAX_TIMESTAMP && l.low < TWO_80
  }

  function UlidValue(l: Last): nat {
    l.ms * TWO_80 + l.low
  }

  lemma UlidNextFacts(last: Option<Last>, observed: int, entropy: seq<byte>)
    requires last.Some? ==> UlidFields(last.value)
    ensures var r := UlidNext(last, observed, entropy);
      && (r.Ok? ==>
            && UlidFields(r.value) && UlidValue(r.value) < TWO_128
            && UlidValue(r.value) / TWO_80 == r.value.ms >= observed
            && (last.Some? ==> UlidValue(last.value) < UlidValue(r.value)))
  {
    if |entropy| == 10 { TenBytes(entropy); }
  }

  /** Inputs that pass the generators' checks. */
  predicate GoodInputs(observed: int, entropy: seq<byte>) {
    0 <= observed <= MAX_TIMESTAMP && |entropy| == 10
  }

  /** The clock has not moved past the last identifier. */
  predicate Stalled(last: Option<Last>, observed: int) {
    last.Some? && observed <= last.value.ms
  }

  /** A clock that moves on gives its own millisecond with the fresh entropy; a stalled
      one gives exactly the next number, and fails exactly when the millisecond has no
      number left. */
  lemma UlidNextIff(last: Option<Last>, observed: int, entropy: seq<byte>)
    requires last.Some? ==> UlidFields(last.value)
    ensures var r := UlidNext(last, observed, entropy);
      && (r == Fail(IdOverflow) <==>
            || !(0 <= observed <= MAX_TIMESTAMP)
            || (|entropy| == 10 && Stalled(last, observed) && UlidValue(last.value) % TWO_80 == TWO_80 - 1))
      && (r == Fail(InvalidId) <==> 0 <= observed <= MAX_TIMESTAMP && |entropy| != 10)
      && (r.Ok? && Stalled(last, observed) ==>
            UlidValue(r.value) == UlidValue(last.value) + 1 && r.value.ms == last.value.ms)
      && (r.Ok? && !Stalled(last, observed) ==>
            UlidValue(r.value) == observed * TWO_80 + BigEndian(entropy) && UlidValue(r.value) / TWO_80 == observed)
  {
    if |entropy| == 10 { TenBytes(entropy); }
    if last.Some? { LowPart(last.value.ms, last.value.low); }
  }

  lemma LowPart(ms: nat, low: nat)
    requires low < TWO_80
    ensures (ms * TWO_80 + low) % TWO_80 == low
  {
  }

  class MonotonicUlidGenerator {
    var lastMs: Option<nat>
    var randomness: nat

    function View(): Option<Last> reads this {
      if lastMs.None? then None else Some(Last(lastMs.value, randomness))
    }

    predicate Valid() reads this {
      View().Some? ==> UlidFields(View().value)
    }

    constructor ()
      ensures Valid() && View() == None
    {
      lastMs, randomness := None, 0;
    }

    /** The new identifier is later than every earlier one, as a number and as text;
        a refusal leaves the generator as it was. */
    method New(observed: int, entropy: seq<byte>) returns (r: Result<string, IdError>)
      requires Valid()
      modifies this
      ensures Valid()
      ensures match UlidNext(old(View()), observed, entropy)
        case Fail(error) => r == Fail(error) && View() == old(View())
        case Ok(next) => View() == Some(next) && r == Ok(Digits(UlidValue(next), ULID_LENGTH))
      ensures r.Ok? && old(View()).Some? ==> TextLess(Digits(UlidValue(old(View()).value), ULID_LENGTH), r.value)
      ensures r.Ok? ==> Number(r.value) == Some(UlidValue(View().value))
    {
      hide Digits, TextLess, BigEndian;
      UlidNextFacts(View(), observed, entropy);
      Pow32Is26();
      if observed < 0 || observed > MAX_TIMESTAMP { return Fail(IdOverflow); }
      if |entropy| != 10 { return Fail(InvalidId); }
      var start := BigEndian(entropy);
      var logical, random;
      if lastMs.None? || observed > lastMs.value {
        logical, random := observed, start;
      } else {
        logical := lastMs.value;
        if randomness == TWO_80 - 1 { return Fail(IdOverflow); }
        random := randomness + 1;
      }
      var value := EncodeUlid(logical, random);
      if View().Some? { OrderIff(UlidValue(View().value), UlidValue(Last(logical, random))); }
      NumberOfDigits(UlidValue(Last(logical, random)), ULID_LENGTH);
      lastMs := Some(logical);
      randomness := random;
      r := Ok(value);
    }
  }

  // ----- the UUIDv7 generator -----

  const COUNTER_RANGE: nat := 0x1000
  const TWO_62: nat := 0x4000_0000_0000_0000
  const TWO_64: nat := 0x1_0000_0000_0000_0000
  const TWO_76: nat := 0x1000_0000_0000_0000_0000

  function Seed(entropy: seq<byte>): nat
    requires |entropy| == 10
  {
    BigEndian(entropy[..2]) % COUNTER_RANGE
  }

  function RandomBits(entropy: seq<byte>): nat
    requires |entropy| == 10
  {
    BigEndian(entropy[2..]) % TWO_62
  }

  /** The logical clock and counter: the counter goes on while the clock stalls, and
      carries into the logical clock when it is exhausted. */
  function UuidNext(last: Option<Last>, observed: int, entropy: seq<byte>): Result<Last, IdError> {
    if ReadInputs(observed, entropy).Some? then Fail(ReadInputs(observed, entropy).value)
    else if last.None? || observed > last.value.ms then Ok(Last(observed, Seed(entropy)))
    else if last.value.low < COUNTER_RANGE - 1 then Ok(Last(last.value.ms, last.value.low + 1))
    else if last.value.ms + 1 > MAX_TIMESTAMP then Fail(IdOverflow)
    else Ok(Last(last.value.ms + 1, Seed(entropy)))
  }

  predicate UuidFields(l: Last) {
    l.ms <= MAX_TIMESTAMP && l.low < COUNTER_RANGE
  }

  function UuidValue(l: Last, random: nat): nat {
    l.ms * TWO_80 + 7 * TWO_76 + l.low * TWO_64 + 2 * TWO_62 + random
  }

  function Version(u: nat): nat {
    u / TWO_76 % 16
  }

  function Variant(u: nat): nat {
    u / TWO_62 % 4
  }

  /** `None` for a UUID of another version or variant. */
  function UuidTimestamp(u: nat): Option<nat> {
    if Version(u) == 7 && Variant(u) == 2 then Some(u / TWO_80) else None
  }

  /** Counter, version and timestamp, as one number. */
  function AboveVariant(l: Last): nat {
    COUNTER_RANGE * (16 * l.ms + 7) + l.low
  }

  lemma UuidQuotients(l: Last, random: nat)
    requires UuidFields(l) && random < TWO_62
    ensures var u := UuidValue(l, random);
      && u / TWO_80 == l.ms && u / TWO_76 == 16 * l.ms + 7
      && u / TWO_64 == AboveVariant(l) && u / TWO_62 == 4 * AboveVariant(l) + 2
  {
    var u := UuidValue(l, random);
    assert u / TWO_62 == 4 * AboveVariant(l) + 2 by { Above62(4 * AboveVariant(l) + 2, random); }
    assert u / TWO_64 == AboveVariant(l) by { Above64(AboveVariant(l), 2 * TWO_62 + random); }
    assert u / TWO_76 == 16 * l.ms + 7 by { Above76(16 * l.ms + 7, l.low * TWO_64 + 2 * TWO_62 + random); }
    assert u / TWO_80 == l.ms by { Above80(l.ms, 7 * TWO_76 + l.low * TWO_64 + 2 * TWO_62 + random); }
  }

  lemma UuidBelow(l: Last, random: nat)
    requires UuidFields(l) && random < TWO_62
    ensures UuidValue(l, random) < TWO_128
  {
  }

  lemma UuidLayout(l: Last, random: nat)
    requires UuidFields(l) && random < TWO_62
    ensures var u := UuidValue(l, random);
      && u < TWO_128 && Version(u) == 7 && Variant(u) == 2 && UuidTimestamp(u) == Some(l.ms)
      && u / TWO_64 % COUNTER_RANGE == l.low && u % TWO_62 == random
  {
    hide UuidValue, AboveVariant;
    UuidBelow(l, random);
    UuidLow(l, random);
    UuidQuotients(l, random);
    LowFields(l);
  }

  lemma UuidLow(l: Last, random: nat)
    requires UuidFields(l) && random < TWO_62
    ensures UuidValue(l, random) % TWO_62 == random
  {
    Remainder62(4 * AboveVariant(l) + 2, random);
  }

  lemma Remainder62(high: nat, low: nat)
    requires low < TWO_62
    ensures (high * TWO_62 + low) % TWO_62 == low
  {
  }

  /** A timestamp is read exactly from the numbers that have the layout, and is their
      millisecond field. */
  lemma UuidReadIff(u: nat, ms: nat)
    requires u < TWO_128
    ensures UuidTimestamp(u) == Some(ms) <==>
      exists low: nat, random: nat ::
        UuidFields(Last(ms, low)) && random < TWO_62 && u == UuidValue(Last(ms, low), random)
  {
    hide UuidValue;
    if UuidTimestamp(u) == Some(ms) {
      var low, random := u / TWO_64 % COUNTER_RANGE, u % TWO_62;
      FieldsOf(u);
      assert UuidFields(Last(ms, low)) && random < TWO_62 && u == UuidValue(Last(ms, low), random);
    }
    if low: nat, random: nat :| UuidFields(Last(ms, low)) && random < TWO_62 && u == UuidValue(Last(ms, low), random) {
      UuidLayout(Last(ms, low), random);
    }
  }

  lemma FieldsOf(u: nat)
    requires u < TWO_128 && Version(u) == 7 && Variant(u) == 2
    ensures UuidFields(Last(u / TWO_80, u / TWO_64 % COUNTER_RANGE))
    ensures u == UuidValue(Last(u / TWO_80, u / TWO_64 % COUNTER_RANGE), u % TWO_62)
  {
    var a, b, c := u / TWO_62, u / TWO_64, u / TWO_76;
    assert u == a * TWO_62 + u % TWO_62;
    assert a / 4 == b;
    assert b / COUNTER_RANGE == c;
    assert c / 16 == u / TWO_80;
    assert a == 4 * b + 2 && b == COUNTER_RANGE * c + b % COUNTER_RANGE && c == 16 * (u / TWO_80) + 7;
  }

  lemma LowFields(l: Last)
    requires UuidFields(l)
    ensures (16 * l.ms + 7) % 16 == 7 && (4 * AboveVariant(l) + 2) % 4 == 2 && AboveVariant(l) % COUNTER_RANGE == l.low
  {
    assert (4 * AboveVariant(l) + 2) % 4 == 2 by { hide AboveVariant; }
  }

  lemma Above62(high: nat, low: nat)
    requires low < TWO_62
    ensures (high * TWO_62 + low) / TWO_62 == high
  {
  }

  lemma Above64(high: nat, low: nat)
    requires low < TWO_64
    ensures (high * TWO_64 + low) / TWO_64 == high
  {
  }

  lemma Above76(high: nat, low: nat)
    requires low < TWO_76
    ensures (high * TWO_76 + low) / TWO_76 == high
  {
  }

  lemma Above80(high: nat, low: nat)
    requires low < TWO_80
    ensures (high * TWO_80 + low) / TWO_80 == high
  {
  }

  predicate FieldsBelow(a: Last, b: Last) {
    a.ms < b.ms || (a.ms == b.ms && a.low < b.low)
  }

  lemma UuidOrder(a: Last, b: Last, r: nat, s: nat)
    requires UuidFields(a) && UuidFields(b) && r < TWO_62 && s < TWO_62
    requires FieldsBelow(a, b)
    ensures UuidValue(a, r) < UuidValue(b, s)
  {
  }

  lemma UuidNextFacts(last: Option<Last>, observed: int, entropy: seq<byte>)
    requires last.Some? ==> UuidFields(last.value)
    ensures var r := UuidNext(last, observed, entropy);
      && (r.Ok? ==>
            && UuidFields(r.value) && r.value.ms >= observed
            && (last.Some? ==> FieldsBelow(last.value, r.value)))
  {
  }

  /** The same for UUIDs: a stalled clock counts on, carries into the next millisecond
      with a fresh counter when that is exhausted, and fails only at the last one. */
  lemma UuidNextIff(last: Option<Last>, observed: int, entropy: seq<byte>)
    requires last.Some? ==> UuidFields(last.value)
    ensures var r := UuidNext(last, observed, entropy);
      && (r == Fail(IdOverflow) <==>
            || !(0 <= observed <= MAX_TIMESTAMP)
            || (|entropy| == 10 && Stalled(last, observed) && last.value == Last(MAX_TIMESTAMP, COUNTER_RANGE - 1)))
      && (r == Fail(InvalidId) <==> 0 <= observed <= MAX_TIMESTAMP && |entropy| != 10)
      && (r.Ok? ==>
            if !Stalled(last, observed) then r.value == Last(observed, LowTwelve(entropy))
            else if last.value.low == COUNTER_RANGE - 1 then r.value == Last(last.value.ms + 1, LowTwelve(entropy))
            else AboveVariant(r.value) == AboveVariant(last.value) + 1 && r.value.ms == last.value.ms)
  {
    if |entropy| == 10 { SeedBits(entropy); }
  }

  /** The low twelve bits of the first two bytes. */
  function LowTwelve(entropy: seq<byte>): nat
    requires |entropy| == 10
  {
    var first: nat, second: nat := entropy[0], entropy[1];
    256 * (first % 16) + second
  }

  lemma SeedBits(entropy: seq<byte>)
    requires |entropy| == 10
    ensures Seed(entropy) == LowTwelve(entropy)
    ensures RandomBits(entropy) == (entropy[2] % 64) * 0x100_0000_0000_0000 + BigEndian(entropy[3..])
  {
    var two := entropy[..2];
    var first: nat, second: nat := entropy[0], entropy[1];
    LeadingByte(entropy[0], [entropy[1]]);
    assert two == [entropy[0]] + [entropy[1]];
    assert BigEndian([entropy[1]]) == second by { assert [entropy[1]][..0] == []; }
    assert Pow256(1) == 256 * Pow256(0) == 256;
    var rest := entropy[2..];
    assert rest[1..] == entropy[3..] && rest == [entropy[2]] + rest[1..];
    LeadingByte(entropy[2], rest[1..]);
    BigEndianBound(rest[1..]);
    assert Pow256(7) == 0x100_0000_0000_0000;
    LowBits(entropy[2], BigEndian(rest[1..]));
  }

  lemma LowBits(first: nat, low: nat)
    requires first < 256 && low < 0x100_0000_0000_0000
    ensures (first * 0x100_0000_0000_0000 + low) % TWO_62 == (first % 64) * 0x100_0000_0000_0000 + low
  {
  }

  lemma {:induction false} LeadingByte(first: byte, b: seq<byte>)
    ensures BigEndian([first] + b) == first * Pow256(|b|) + BigEndian(b)
  {
    if b == [] {
      assert [first] + b == [first] && [first][..0] == [];
    } else {
      var all := [first] + b;
      assert all[..|b|] == [first] + b[..|b| - 1];
      LeadingByte(first, b[..|b| - 1]);
    }
  }

  class Uuid7Generator {
    var lastMs: Option<nat>
    var counter: nat
    ghost var issued: nat

    function View(): Option<Last> reads this {
      if lastMs.None? then None else Some(Last(lastMs.value, counter))
    }

    /** `issued` is the last UUID given out. */
    ghost predicate Valid() reads this {
      View().Some? ==>
        && UuidFields(View().value)
        && exists random: nat :: random < TWO_62 && issued == UuidValue(View().value, random)
    }

    constructor ()
      ensures Valid() && View() == None
    {
      lastMs, counter := None, 0;
    }

    method New(observed: int, entropy: seq<byte>) returns (r: Result<nat, IdError>)
      requires Valid()
      modifies this
      ensures Valid()
      ensures match UuidNext(old(View()), observed, entropy)
        case Fail(error) => r == Fail(error) && View() == old(View()) && issued == old(issued)
        case Ok(next) => View() == Some(next) && r == Ok(UuidValue(next, RandomBits(entropy))) && issued == r.value
      ensures r.Ok? ==>
          Version(r.value) == 7 && Variant(r.value) == 2 && UuidTimestamp(r.value) == Some(View().value.ms)
      ensures r.Ok? && old(View()).Some? ==> old(issued) < r.value
    {
      hide BigEndian, Version, Variant, UuidTimestamp, UuidValue;
      UuidNextFacts(View(), observed, entropy);
      if observed < 0 || observed > MAX_TIMESTAMP { return Fail(IdOverflow); }
      if |entropy| != 10 { return Fail(InvalidId); }
      var seed, random := Seed(entropy), RandomBits(entropy);
      var logical: nat, next: nat;
      if lastMs.None? || observed > lastMs.value {
        logical, next := observed, seed;
      } else if counter < COUNTER_RANGE - 1 {
        logical, next := lastMs.value, counter + 1;
      } else {
        logical := lastMs.value + 1;
        if logical > MAX_TIMESTAMP { return Fail(IdOverflow); }
        next := seed;
      }
      var value := UuidValue(Last(logical, next), random);
      UuidLayout(Last(logical, next), random);
      if View().Some? {
        ghost var before: nat :| before < TWO_62 && issued == UuidValue(View().value, before);
        UuidOrder(View().value, Last(logical, next), before, random);
      }
      lastMs := Some(logical);
      counter := next;
      issued := value;
      r := Ok(value);
    }
  }

  // ----- whole histories -----

  datatype Call = Call(observed: int, entropy: seq<byte>)

  /** The generator's state after a history of calls, for any clock and entropy. */
  function After(next: (Option<Last>, int, seq<byte>) -> Result<Last, IdError>, calls: seq<Call>): Option<Last> {
    if calls == [] then None
    else
      var before := After(next, calls[..|calls| - 1]);
      var r := next(before, calls[|calls| - 1].observed, calls[|calls| - 1].entropy);
      if r.Ok? then Some(r.value) else before
  }

  function ResultAt(next: (Option<Last>, int, seq<byte>) -> Result<Last, IdError>, calls: seq<Call>,
    i: nat): Result<Last, IdError>
    requires i < |calls|
  {
    next(After(next, calls[..i]), calls[i].observed, calls[i].entropy)
  }

  lemma {:induction false} UlidHistory(calls: seq<Call>, i: nat)
    requires i <= |calls|
    ensures After(UlidNext, calls).Some? ==> UlidFields(After(UlidNext, calls).value)
    ensures var a, b := After(UlidNext, calls[..i]), After(UlidNext, calls);
      a.Some? ==> b.Some? && UlidValue(a.value) <= UlidValue(b.value)
  {
    if calls != [] {
      var last := |calls| - 1;
      if i <= last {
        assert calls[..last][..i] == calls[..i];
        UlidHistory(calls[..last], i);
      } else {
        assert calls[..i] == calls;
        UlidHistory(calls[..last], last);
      }
      UlidNextFacts(After(UlidNext, calls[..last]), calls[last].observed, calls[last].entropy);
    }
  }

  /** Whatever the clock and the entropy do, a later ULID is greater, as text too, and
      its timestamp is at least the observed one. */
  lemma UlidsIncrease(calls: seq<Call>, i: nat, j: nat)
    requires i < j < |calls| && ResultAt(UlidNext, calls, i).Ok? && ResultAt(UlidNext, calls, j).Ok?
    ensures var a, b := UlidValue(ResultAt(UlidNext, calls, i).value), UlidValue(ResultAt(UlidNext, calls, j).value);
      a < b < TWO_128 && TextLess(Digits(a, ULID_LENGTH), Digits(b, ULID_LENGTH)) && b / TWO_80 >= calls[j].observed
  {
    hide TextLess, Digits;
    assert calls[..j][..i + 1] == calls[..i + 1] && calls[..i + 1][..i] == calls[..i];
    assert After(UlidNext, calls[..i + 1]) == Some(ResultAt(UlidNext, calls, i).value);
    UlidHistory(calls[..j], i + 1);
    UlidNextFacts(After(UlidNext, calls[..j]), calls[j].observed, calls[j].entropy);
    OrderIff(UlidValue(ResultAt(UlidNext, calls, i).value), UlidValue(ResultAt(UlidNext, calls, j).value));
  }

  /** The latest clock reading of a history, of those that came with good inputs. */
  function LatestReading(calls: seq<Call>): int {
    if calls == [] then -1
    else
      var before, c := LatestReading(calls[..|calls| - 1]), calls[|calls| - 1];
      if GoodInputs(c.observed, c.entropy) && c.observed > before then c.observed else before
  }

  /** Over whole histories a ULID carries the latest reading so far, however the clock
      jumps. */
  lemma {:induction false} UlidCarriesLatest(calls: seq<Call>)
    ensures After(UlidNext, calls).Some? ==> After(UlidNext, calls).value.ms == LatestReading(calls)
    ensures After(UlidNext, calls).None? ==> LatestReading(calls) == -1
  {
    if calls != [] {
      var init, c := calls[..|calls| - 1], calls[|calls| - 1];
      UlidCarriesLatest(init);
      UlidHistory(init, |init|);
      UlidNextIff(After(UlidNext, init), c.observed, c.entropy);
    }
  }

  lemma {:induction false} UuidHistory(calls: seq<Call>, i: nat)
    requires i <= |calls|
    ensures After(UuidNext, calls).Some? ==> UuidFields(After(UuidNext, calls).value)
    ensures var a, b := After(UuidNext, calls[..i]), After(UuidNext, calls);
      a.Some? ==> b.Some? && (a == b || FieldsBelow(a.value, b.value))
  {
    if calls != [] {
      var last := |calls| - 1;
      if i <= last {
        assert calls[..last][..i] == calls[..i];
        UuidHistory(calls[..last], i);
      } else {
        assert calls[..i] == calls;
        UuidHistory(calls[..last], last);
      }
      UuidNextFacts(After(UuidNext, calls[..last]), calls[last].observed, calls[last].entropy);
    }
  }

  /** A later UUIDv7 is greater whatever its random bits, and both keep their version,
      variant and logical millisecond. */
  lemma UuidsIncrease(calls: seq<Call>, i: nat, j: nat, r: nat, s: nat)
    requires i < j < |calls| && ResultAt(UuidNext, calls, i).Ok? && ResultAt(UuidNext, calls, j).Ok?
    requires r < TWO_62 && s < TWO_62
    ensures UuidValue(ResultAt(UuidNext, calls, i).value, r) < UuidValue(ResultAt(UuidNext, calls, j).value, s)
    ensures UuidTimestamp(UuidValue(ResultAt(UuidNext, calls, j).value, s)) ==
        Some(ResultAt(UuidNext, calls, j).value.ms)
    ensures ResultAt(UuidNext, calls, j).value.ms >= calls[j].observed
  {
    hide UuidValue, UuidTimestamp;
    assert calls[..j][..i + 1] == calls[..i + 1] && calls[..i + 1][..i] == calls[..i];
    assert After(UuidNext, calls[..i + 1]) == Some(ResultAt(UuidNext, calls, i).value);
    UuidHistory(calls[..j], i + 1);
    UuidNextFacts(After(UuidNext, calls[..j]), calls[j].observed, calls[j].entropy);
    UuidHistory(calls[..i + 1], i + 1);
    UuidOrder(ResultAt(UuidNext, calls, i).value, ResultAt(UuidNext, calls, j).value, r, s);
    UuidLayout(ResultAt(UuidNext, calls, j).value, s);
  }
}
