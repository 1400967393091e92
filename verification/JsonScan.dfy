/** The decode-side guard on text: a depth scanner with constant state, and the
    joining of surrogate pairs in decoded strings. */
module JsonScan {
  import opened Wrappers
  import opened Utf8
  import opened JsonTree
  import opened JsonPreflight
  import opened JsonAcceptance

  const QUOTE: CodePoint := 34
  const BACKSLASH: CodePoint := 92

  predicate Opens(c: CodePoint) { c == 91 || c == 123 }
  predicate Closes(c: CodePoint) { c == 93 || c == 125 }

  datatype State = State(inString: bool, escaped: bool, depth: nat)

  /** One character; `None` is the nesting-limit error. */
  function Next(s: State, c: CodePoint, limit: nat): Option<State> {
    if s.inString then
      if s.escaped then Some(s.(escaped := false))
      else if c == BACKSLASH then Some(s.(escaped := true))
      else if c == QUOTE then Some(s.(inString := false))
      else Some(s)
    else if c == QUOTE then Some(s.(inString := true))
    else if Opens(c) then (if s.depth + 1 > limit then None else Some(s.(depth := s.depth + 1)))
    else if Closes(c) && s.depth > 0 then Some(s.(depth := s.depth - 1))
    else Some(s)
  }

  function Scan(s: State, text: Text, limit: nat): Option<State>
    decreases |text|
  {
    if text == [] then Some(s)
    else
      var next := Next(s, text[0], limit);
      if next.None? then None else Scan(next.value, text[1..], limit)
  }

  const Start := State(false, false, 0)

  method PreflightText(text: Text, limit: nat) returns (accepted: bool)
    ensures accepted <==> Scan(Start, text, limit).Some?
  {
    var inString, escaped := false, false;
    var depth: nat := 0;
    for i := 0 to |text|
      invariant Scan(Start, text, limit) == Scan(State(inString, escaped, depth), text[i..], limit)
    {
      var c := text[i];
      assert text[i..][1..] == text[i + 1..];
      if inString {
        if escaped {
          escaped := false;
        } else if c == BACKSLASH {
          escaped := true;
        } else if c == QUOTE {
          inString := false;
        }
      } else if c == QUOTE {
        inString := true;
      } else if Opens(c) {
        depth := depth + 1;
        if depth > limit { return false; }
      } else if Closes(c) && depth > 0 {
        depth := depth - 1;
      }
    }
    accepted := true;
  }

  // ----- scanning the compact text of a value -----

  function Outside(depth: nat): State {
    State(false, false, depth)
  }

  function Inside(depth: nat): State {
    State(true, false, depth)
  }

  lemma {:induction false} ScanAppend(s: State, a: Text, b: Text, limit: nat)
    ensures Scan(s, a + b, limit) ==
      if Scan(s, a, limit).None? then None else Scan(Scan(s, a, limit).value, b, limit)
    decreases |a|
  {
    hide Next;
    if a == [] {
      assert a + b == b;
    } else {
      assert (a + b)[1..] == a[1..] + b;
      var next := Next(s, a[0], limit);
      if next.Some? { ScanAppend(next.value, a[1..], b, limit); }
    }
  }

  lemma ScanOne(s: State, c: CodePoint, limit: nat)
    ensures Scan(s, [c], limit) == Next(s, c, limit)
  {
    assert [c][1..] == [];
  }

  lemma ScanEscaped(c: CodePoint, depth: nat, limit: nat)
    ensures Scan(Inside(depth), EscapeChar(c), limit) == Some(Inside(depth))
  {
    var e := EscapeChar(c);
    if |e| == 1 {
      ScanOne(Inside(depth), c, limit);
    } else {
      var s := State(true, true, depth);
      assert e == [BACKSLASH] + e[1..] && e[1..] == [e[1]] + e[2..];
      ScanAppend(Inside(depth), [BACKSLASH], e[1..], limit);
      ScanOne(Inside(depth), BACKSLASH, limit);
      ScanAppend(s, [e[1]], e[2..], limit);
      ScanOne(s, e[1], limit);
      PlainInside(e[2..], depth, limit);
    }
  }

  lemma {:induction false} PlainInside(text: Text, depth: nat, limit: nat)
    requires forall i :: 0 <= i < |text| ==> text[i] != QUOTE && text[i] != BACKSLASH
    ensures Scan(Inside(depth), text, limit) == Some(Inside(depth))
  {
    if text != [] { PlainInside(text[1..], depth, limit); }
  }

  /** Whatever a string contains, the scanner is outside again after it. */
  lemma {:induction false} ScanEscapedText(s: Text, depth: nat, limit: nat)
    ensures Scan(Inside(depth), EscapeText(s), limit) == Some(Inside(depth))
  {
    hide EscapeChar, Scan;
    if s == [] {
      assert EscapeText(s) == [];
      PlainInside([], depth, limit);
    } else {
      ScanEscaped(s[0], depth, limit);
      ScanEscapedText(s[1..], depth, limit);
      ScanAppend(Inside(depth), EscapeChar(s[0]), EscapeText(s[1..]), limit);
    }
  }

  lemma ScanQuoted(s: Text, depth: nat, limit: nat)
    ensures Scan(Outside(depth), Quoted(s), limit) == Some(Outside(depth))
  {
    hide EscapeText, Scan;
    assert Quoted(s) == [QUOTE] + (EscapeText(s) + [QUOTE]);
    ScanAppend(Outside(depth), [QUOTE], EscapeText(s) + [QUOTE], limit);
    ScanOne(Outside(depth), QUOTE, limit);
    ScanAppend(Inside(depth), EscapeText(s), [QUOTE], limit);
    ScanEscapedText(s, depth, limit);
    ScanOne(Inside(depth), QUOTE, limit);
  }

  lemma {:induction false} PlainOutside(text: Text, depth: nat, limit: nat)
    requires forall i :: 0 <= i < |text| ==> text[i] != QUOTE && !Opens(text[i]) && !Closes(text[i])
    ensures Scan(Outside(depth), text, limit) == Some(Outside(depth))
  {
    if text != [] { PlainOutside(text[1..], depth, limit); }
  }

  /** Whether the scan passes: outside a string, back at its depth, and only if the
      value's own depth fits above it. */
  function Passes(depth: nat, deep: nat, limit: nat): Option<State> {
    if deep == 0 || depth + deep <= limit then Some(Outside(depth)) else None
  }

  /** On the compact text of any value the scanner ends outside a string at the depth
      it began with, and its peak is the value's container depth. */
  lemma {:induction false} ScanValue(t: Tree, depth: nat, limit: nat)
    ensures Scan(Outside(depth), Compact(t), limit) == Passes(depth, Depth(t), limit)
  {
    hide Scan, EscapeText;
    match t
    case Arr(items) =>
      if depth + 1 <= limit { ScanItems(items, depth + 1, limit); }
      ScanBracketed(91, CompactItems(items), 93, DepthOfItems(items), depth, limit);
    case Obj(members) =>
      if depth + 1 <= limit { ScanMembers(members, depth + 1, limit); }
      ScanBracketed(123, CompactMembers(members), 125, DepthOfMembers(members), depth, limit);
    case Str(s) => ScanQuoted(s, depth, limit);
    case Int(n) => PlainNumber(IntText(n), depth, limit);
    case Float(text, _) => PlainNumber(text, depth, limit);
    case _ => PlainOutside(Compact(t), depth, limit);
  }

  lemma PlainNumber(text: Text, depth: nat, limit: nat)
    requires forall i :: 0 <= i < |text| ==> IsNumberCode(text[i])
    ensures Scan(Outside(depth), text, limit) == Some(Outside(depth))
  {
    PlainOutside(text, depth, limit);
  }

  lemma ScanBracketed(open: CodePoint, inner: Text, close: CodePoint, deep: nat, depth: nat, limit: nat)
    requires Opens(open) && Closes(close)
    requires depth + 1 <= limit ==> Scan(Outside(depth + 1), inner, limit) == Passes(depth + 1, deep, limit)
    ensures Scan(Outside(depth), [open] + inner + [close], limit) == Passes(depth, 1 + deep, limit)
  {
    hide Scan;
    assert [open] + inner + [close] == [open] + (inner + [close]);
    ScanAppend(Outside(depth), [open], inner + [close], limit);
    ScanOne(Outside(depth), open, limit);
    if depth + 1 <= limit {
      ScanAppend(Outside(depth + 1), inner, [close], limit);
      ScanOne(Outside(depth + 1), close, limit);
    }
  }

  lemma {:induction false} ScanItems(items: seq<Tree>, depth: nat, limit: nat)
    requires depth <= limit
    ensures Scan(Outside(depth), CompactItems(items), limit) == Passes(depth, DepthOfItems(items), limit)
  {
    hide Scan, Compact, Depth;
    if items == [] {
      PlainOutside([], depth, limit);
    } else {
      var rest := Comma(|items| > 1) + CompactItems(items[1..]);
      ScanValue(items[0], depth, limit);
      ScanItems(items[1..], depth, limit);
      ScanAppend(Outside(depth), Compact(items[0]), rest, limit);
      ScanAppend(Outside(depth), Comma(|items| > 1), CompactItems(items[1..]), limit);
      PlainOutside(Comma(|items| > 1), depth, limit);
    }
  }

  lemma {:induction false} ScanMembers(members: seq<Member>, depth: nat, limit: nat)
    requires depth <= limit
    ensures Scan(Outside(depth), CompactMembers(members), limit) == Passes(depth, DepthOfMembers(members), limit)
  {
    hide Scan, Compact, Depth, Quoted;
    if members == [] {
      PlainOutside([], depth, limit);
    } else {
      var rest := Comma(|members| > 1) + CompactMembers(members[1..]);
      var value := Compact(members[0].value) + rest;
      ScanQuoted(members[0].key, depth, limit);
      ScanValue(members[0].value, depth, limit);
      ScanMembers(members[1..], depth, limit);
      ScanAppend(Outside(depth), Quoted(members[0].key), [58] + value, limit);
      ScanAppend(Outside(depth), [58], value, limit);
      PlainOutside([58], depth, limit);
      ScanAppend(Outside(depth), Compact(members[0].value), rest, limit);
      ScanAppend(Outside(depth), Comma(|members| > 1), CompactMembers(members[1..]), limit);
      PlainOutside(Comma(|members| > 1), depth, limit);
    }
  }

  /** Text of a value the encode side accepts at a depth limit passes the decode
      side's scan at that limit. */
  lemma AcceptedTextPasses(h: Graph, value: Object, t: Tree, maxDepth: nat, maxSize: nat)
    requires Closed(h) && KnownObject(h, value) && Unfolds(h, value, t)
    requires Visit(h, value, 0, [], 0, maxDepth, maxSize).Within?
    ensures Scan(Start, Compact(t), maxDepth) == Some(Start)
  {
    hide Visit, Unfolds, Scan, Compact, Depth;
    AcceptsIff(h, value, maxDepth, maxSize);
    var u :| Acceptable(h, value, u, maxDepth, maxSize);
    UnfoldsOnce(h, value, t, u);
    ScanValue(t, 0, maxDepth);
  }

  // ----- surrogate pairs -----

  predicate IsHigh(c: CodePoint) { 0xD800 <= c <= 0xDBFF }
  predicate IsLow(c: CodePoint) { 0xDC00 <= c <= 0xDFFF }

  /** UTF-16 code units, with lone surrogates as themselves. */
  function Units(c: CodePoint): seq<CodePoint> {
    if c < 0x10000 then [c] else [0xD800 + (c - 0x10000) / 0x400, 0xDC00 + (c - 0x10000) % 0x400]
  }

  function Utf16(t: Text): seq<CodePoint> {
    if t == [] then [] else Units(t[0]) + Utf16(t[1..])
  }

  function Join(high: CodePoint, low: CodePoint): CodePoint
    requires IsHigh(high) && IsLow(low)
  {
    0x10000 + (high - 0xD800) * 0x400 + (low - 0xDC00)
  }

  /** `None` is the unpaired-surrogate error. */
  function Normalized(t: Text): Option<Text> {
    if t == [] then Some([])
    else if IsHigh(t[0]) then
      if |t| < 2 || !IsLow(t[1]) then None
      else
        var rest := Normalized(t[2..]);
        if rest.None? then None else Some([Join(t[0], t[1])] + rest.value)
    else if IsLow(t[0]) then None
    else
      var rest := Normalized(t[1..]);
      if rest.None? then None else Some([t[0]] + rest.value)
  }

  method Normalize(value: Text) returns (r: Option<Text>)
    ensures r == Normalized(value)
  {
    var built: Option<Text> := None;
    var index := 0;
    assert value[0..] == value;
    assert forall rest: Text :: value[..0] + rest == rest;
    while index < |value|
      invariant 0 <= index <= |value|
      invariant Normalized(value) ==
        var rest := Normalized(value[index..]);
        if rest.None? then None else Some((if built.None? then value[..index] else built.value) + rest.value)
    {
      var c := value[index];
      var suffix := value[index..];
      ghost var was := if built.None? then value[..index] else built.value;
      if IsHigh(c) {
        if index + 1 >= |value| { return None; }
        var low := value[index + 1];
        assert suffix[1] == low && suffix[2..] == value[index + 2..];
        if !IsLow(low) { return None; }
        if built.None? { built := Some(value[..index]); }
        built := Some(built.value + [Join(c, low)]);
        assert forall rest: Text :: was + ([Join(c, low)] + rest) == built.value + rest;
        index := index + 2;
      } else {
        assert suffix[1..] == value[index + 1..];
        if IsLow(c) { return None; }
        if built.Some? { built := Some(built.value + [c]); }
        assert value[..index + 1] == value[..index] + [c];
        assert forall rest: Text :: was + ([c] + rest) == (was + [c]) + rest;
        index := index + 1;
      }
    }
    assert value[..index] == value && value[index..] == [];
    assert forall was: Text :: was + [] == was;
    r := Some(if built.None? then value else built.value);
  }

  /** A string is normalized to the one text without surrogates that has the same
      UTF-16 form, and refused exactly when there is none. */
  lemma {:induction false} NormalizedIff(t: Text, n: Text)
    ensures Normalized(t) == Some(n) <==> IsScalarText(n) && Utf16(n) == Utf16(t)
    decreases |t|, |n|
  {
    if Normalized(t) == Some(n) {
      NormalizedSound(t);
    }
    if IsScalarText(n) && Utf16(n) == Utf16(t) {
      NormalizedComplete(t, n);
    }
  }

  lemma JoinUnits(high: CodePoint, low: CodePoint)
    requires IsHigh(high) && IsLow(low)
    ensures Units(Join(high, low)) == [high, low] && !IsSurrogate(Join(high, low)) && Join(high, low) >= 0x10000
  {
  }

  lemma {:induction false} NormalizedSound(t: Text)
    ensures Normalized(t).Some? ==> IsScalarText(Normalized(t).value) && Utf16(Normalized(t).value) == Utf16(t)
    decreases |t|
  {
    hide Units, Join;
    if t != [] && Normalized(t).Some? {
      var n := Normalized(t).value;
      if IsHigh(t[0]) {
        NormalizedSound(t[2..]);
        JoinUnits(t[0], t[1]);
        SmallUnits(t[0]);
        SmallUnits(t[1]);
        assert t[1..][1..] == t[2..];
        assert n[1..] == Normalized(t[2..]).value;
        assert Utf16(t) == [t[0]] + ([t[1]] + Utf16(t[2..]));
      } else {
        NormalizedSound(t[1..]);
        assert n[1..] == Normalized(t[1..]).value;
      }
    }
  }

  lemma SmallUnits(c: CodePoint)
    ensures c < 0x10000 ==> Units(c) == [c]
    ensures c >= 0x10000 ==>
        |Units(c)| == 2 && IsHigh(Units(c)[0]) && IsLow(Units(c)[1]) && Join(Units(c)[0], Units(c)[1]) == c
  {
  }

  lemma {:induction false} NormalizedComplete(t: Text, n: Text)
    requires IsScalarText(n) && Utf16(n) == Utf16(t)
    ensures Normalized(t) == Some(n)
    decreases |t|
  {
    hide Units, Join;
    if t == [] {
      if n != [] { SmallUnits(n[0]); }
    } else {
      SmallUnits(t[0]);
      assert Utf16(t) == Units(t[0]) + Utf16(t[1..]);
      assert n != [];
      SmallUnits(n[0]);
      assert Utf16(n) == Units(n[0]) + Utf16(n[1..]);
      assert n == [n[0]] + n[1..];
      if n[0] < 0x10000 {
        assert Utf16(n)[0] == n[0] && Utf16(t)[0] == Units(t[0])[0];
        assert t[0] == n[0];
        assert Utf16(n)[1..] == Utf16(n[1..]) && Utf16(t)[1..] == Utf16(t[1..]);
        NormalizedComplete(t[1..], n[1..]);
      } else if t[0] >= 0x10000 {
        assert Utf16(n)[0] == Units(n[0])[0] && Utf16(t)[0] == Units(t[0])[0];
        assert Utf16(n)[1] == Units(n[0])[1] && Utf16(t)[1] == Units(t[0])[1];
        assert t[0] == n[0];
        assert Utf16(n)[2..] == Utf16(n[1..]) && Utf16(t)[2..] == Utf16(t[1..]);
        NormalizedComplete(t[1..], n[1..]);
      } else {
        PairComplete(t, n);
        NormalizedComplete(t[2..], n[1..]);
      }
    }
  }

  /** A joined character stands for a high and a low surrogate in a row. */
  lemma PairComplete(t: Text, n: Text)
    requires t != [] && n != [] && Utf16(n) == Utf16(t) && t[0] < 0x10000 <= n[0] && IsScalarText(n)
    ensures |t| >= 2 && IsHigh(t[0]) && IsLow(t[1]) && Join(t[0], t[1]) == n[0] && Utf16(n[1..]) == Utf16(t[2..])
  {
    hide Units, Join;
    SmallUnits(t[0]);
    SmallUnits(n[0]);
    assert Utf16(t)[0] == t[0] && Utf16(n)[0] == Units(n[0])[0] && Utf16(n)[1] == Units(n[0])[1];
    assert Utf16(t)[1..] == Utf16(t[1..]);
    assert |Utf16(t[1..])| >= 1 && Utf16(t[1..])[0] == Units(n[0])[1];
    SmallUnits(t[1]);
    assert Utf16(t[1..]) == Units(t[1]) + Utf16(t[1..][1..]);
    assert t[1..][1..] == t[2..];
    assert Utf16(n)[2..] == Utf16(n[1..]);
    assert Utf16(t)[2..] == Utf16(t[2..]);
  }
}
