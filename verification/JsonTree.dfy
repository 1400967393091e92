/** JSON values as finite trees, their compact text, and the lower bound of its
    encoded size that the encode-side guard keeps. */
module JsonTree {
  import opened Utf8
  import Decimal

  predicate IsNumberCode(c: CodePoint) {
    48 <= c <= 57 || c == 43 || c == 45 || c == 46 || c == 101
  }

  /** The shortest decimal form of a float: digits and `+` `-` `.` `e`. */
  type FloatText = t: Text | |t| >= 1 && forall i :: 0 <= i < |t| ==> IsNumberCode(t[i]) witness [48]

  datatype Tree =
    | Null
    | Bool(b: bool)
    | Int(n: int)
    | Float(text: FloatText, finite: bool)
    | Str(s: Text)
    | Arr(items: seq<Tree>)
    | Obj(members: seq<Member>)

  datatype Member = Member(key: Text, value: Tree)

  const MAX_INTEGER_DIGITS := 640

  function Magnitude(n: int): nat {
    if n < 0 then -n else n
  }

  /** Within the digit limit, finite, and without surrogates. */
  predicate Valid(t: Tree) {
    match t
    case Null => true
    case Bool(_) => true
    case Int(n) => Magnitude(n) < Decimal.Pow10(MAX_INTEGER_DIGITS)
    case Float(_, finite) => finite
    case Str(s) => IsScalarText(s)
    case Arr(items) => forall i :: 0 <= i < |items| ==> Valid(items[i])
    case Obj(members) => forall i :: 0 <= i < |members| ==> IsScalarText(members[i].key) && Valid(members[i].value)
  }

  /** Nested arrays and objects. */
  function Depth(t: Tree): nat {
    match t
    case Arr(items) => 1 + DepthOfItems(items)
    case Obj(members) => 1 + DepthOfMembers(members)
    case _ => 0
  }

  function Max(a: nat, b: nat): nat {
    if a < b then b else a
  }

  function DepthOfItems(items: seq<Tree>): nat {
    if items == [] then 0 else Max(Depth(items[0]), DepthOfItems(items[1..]))
  }

  function DepthOfMembers(members: seq<Member>): nat {
    if members == [] then 0 else Max(Depth(members[0].value), DepthOfMembers(members[1..]))
  }

  // ----- compact text -----

  function HexDigit(n: nat): CodePoint
    requires n < 16
  {
    if n < 10 then 48 + n else 87 + n
  }

  /** A character inside a JSON string (section 7 of RFC 8259). */
  function EscapeChar(c: CodePoint): (r: Text)
    ensures |r| >= 1
  {
    if c == 34 then [92, 34]
    else if c == 92 then [92, 92]
    else if c == 8 then [92, 98]
    else if c == 9 then [92, 116]
    else if c == 10 then [92, 110]
    else if c == 12 then [92, 102]
    else if c == 13 then [92, 114]
    else if c < 32 then [92, 117, 48, 48, HexDigit(c / 16), HexDigit(c % 16)]
    else [c]
  }

  function EscapeText(s: Text): Text {
    if s == [] then [] else EscapeChar(s[0]) + EscapeText(s[1..])
  }

  function Quoted(s: Text): Text {
    [34] + EscapeText(s) + [34]
  }

  function DigitCode(s: string, i: nat): (c: CodePoint)
    requires Decimal.AllDigits(s) && i < |s|
    ensures 48 <= c <= 57
  {
    assert Decimal.IsDigit(s[i]);
    48 + Decimal.DigitOf(s[i])
  }

  function DigitCodes(s: string): (r: Text)
    requires Decimal.AllDigits(s)
    ensures |r| == |s| && forall i :: 0 <= i < |r| ==> IsNumberCode(r[i])
  {
    seq(|s|, i requires 0 <= i < |s| => DigitCode(s, i))
  }

  function IntText(n: int): (r: Text)
    ensures |r| >= 1 && forall i :: 0 <= i < |r| ==> IsNumberCode(r[i])
  {
    Decimal.TextFacts(Magnitude(n));
    (if n < 0 then [45] else []) + DigitCodes(Decimal.Text(Magnitude(n)))
  }

  /** No spaces: `null`, `true`, `false`, numbers, strings, `[..]`, `{..}`. */
  function Compact(t: Tree): Text {
    match t
    case Null => [110, 117, 108, 108]
    case Bool(b) => if b then [116, 114, 117, 101] else [102, 97, 108, 115, 101]
    case Int(n) => IntText(n)
    case Float(text, _) => text
    case Str(s) => Quoted(s)
    case Arr(items) => [91] + CompactItems(items) + [93]
    case Obj(members) => [123] + CompactMembers(members) + [125]
  }

  function Comma(more: bool): Text {
    if more then [44] else []
  }

  function CompactItems(items: seq<Tree>): Text {
    if items == [] then []
    else Compact(items[0]) + (Comma(|items| > 1) + CompactItems(items[1..]))
  }

  function CompactMembers(members: seq<Member>): Text {
    if members == [] then []
    else
      var rest := Comma(|members| > 1) + CompactMembers(members[1..]);
      Quoted(members[0].key) + ([58] + (Compact(members[0].value) + rest))
  }

  function EncodedSize(t: Tree): nat {
    |Encode(Compact(t))|
  }

  // ----- the lower bound -----

  /** `_validate_unicode_scalar_string`: the quotes and the characters' own UTF-8. */
  function StringBound(s: Text): (n: nat)
    ensures n >= 2
  {
    2 + CharBounds(s)
  }

  function CharBounds(s: Text): nat {
    if s == [] then 0 else CharLength(s[0]) + CharBounds(s[1..])
  }

  function Bound(t: Tree): (n: nat)
    ensures n >= 1
  {
    match t
    case Str(s) => StringBound(s)
    case Arr(items) => 1 + BoundOfItems(items)
    case Obj(members) => 1 + BoundOfMembers(members)
    case _ => 1
  }

  function BoundOfItems(items: seq<Tree>): nat {
    if items == [] then 0 else Bound(items[0]) + BoundOfItems(items[1..])
  }

  /** Each key counts its own bound and the colon. */
  function BoundOfMembers(members: seq<Member>): nat {
    if members == [] then 0
    else StringBound(members[0].key) + 1 + Bound(members[0].value) + BoundOfMembers(members[1..])
  }

  lemma SizeOfTwo(a: Text, b: Text)
    ensures |Encode(a + b)| == |Encode(a)| + |Encode(b)|
  {
    EncodeAppend(a, b);
  }

  lemma SizeAtLeastLength(a: Text)
    ensures |Encode(a)| >= |a|
  {
  }

  lemma EscapedCharSize(c: CodePoint)
    ensures |Encode(EscapeChar(c))| >= CharLength(c)
  {
    if EscapeChar(c) == [c] {
      assert Encode([c]) == EncodeChar(c) + Encode([][..]) == EncodeChar(c);
    } else {
      SizeAtLeastLength(EscapeChar(c));
    }
  }

  lemma {:induction false} EscapedSize(s: Text)
    ensures |Encode(EscapeText(s))| >= CharBounds(s)
  {
    hide EscapeChar, CharLength, Encode;
    if s == [] {
    } else {
      EscapedCharSize(s[0]);
      EscapedSize(s[1..]);
      SizeOfTwo(EscapeChar(s[0]), EscapeText(s[1..]));
    }
  }

  lemma QuotedSize(s: Text)
    ensures |Encode(Quoted(s))| >= StringBound(s)
  {
    hide EscapeText, Encode;
    EscapedSize(s);
    SizeOfTwo([34], EscapeText(s));
    SizeOfTwo([34] + EscapeText(s), [34]);
    SizeAtLeastLength([34]);
  }

  /** The bound never exceeds the true encoded size. */
  lemma {:induction false} BoundBelowSize(t: Tree)
    ensures Bound(t) <= EncodedSize(t)
  {
    hide Encode, EscapeText, Decimal.Text;
    match t
    case Arr(items) =>
      ItemsBelowSize(items);
      SizeOfTwo([91], CompactItems(items));
      SizeOfTwo([91] + CompactItems(items), [93]);
      SizeAtLeastLength([91]);
    case Obj(members) =>
      MembersBelowSize(members);
      SizeOfTwo([123], CompactMembers(members));
      SizeOfTwo([123] + CompactMembers(members), [125]);
      SizeAtLeastLength([123]);
    case Str(s) => QuotedSize(s);
    case _ => SizeAtLeastLength(Compact(t));
  }

  lemma {:induction false} ItemsBelowSize(items: seq<Tree>)
    ensures BoundOfItems(items) <= |Encode(CompactItems(items))|
  {
    hide Encode;
    if items == [] {
    } else {
      BoundBelowSize(items[0]);
      ItemsBelowSize(items[1..]);
      SizeOfTwo(Compact(items[0]), Comma(|items| > 1) + CompactItems(items[1..]));
      SizeOfTwo(Comma(|items| > 1), CompactItems(items[1..]));
    }
  }

  lemma {:induction false} MembersBelowSize(members: seq<Member>)
    ensures BoundOfMembers(members) <= |Encode(CompactMembers(members))|
  {
    hide Encode;
    if members == [] {
    } else {
      var rest := Comma(|members| > 1) + CompactMembers(members[1..]);
      QuotedSize(members[0].key);
      BoundBelowSize(members[0].value);
      MembersBelowSize(members[1..]);
      SizeOfTwo(Quoted(members[0].key), [58] + (Compact(members[0].value) + rest));
      SizeOfTwo([58], Compact(members[0].value) + rest);
      SizeOfTwo(Compact(members[0].value), rest);
      SizeOfTwo(Comma(|members| > 1), CompactMembers(members[1..]));
      SizeAtLeastLength([58]);
    }
  }
}
