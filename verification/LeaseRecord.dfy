/** The text of a lease record, `v1:<owner>:<fence>`, and its two readers: the
    client's `split(":")` and the scripts' Lua pattern. */
module LeaseRecord {
  import opened Wrappers
  import opened Decimal

  datatype Record = Record(owner: string, fence: nat)

  const OWNER_LENGTH := 32

  predicate IsOwnerChar(c: char) {
    'A' <= c <= 'Z' || 'a' <= c <= 'z' || '0' <= c <= '9' || c == '-' || c == '_'
  }

  predicate OwnerChars(s: string) {
    forall c | c in s :: IsOwnerChar(c)
  }

  predicate IsOwnerToken(s: string) {
    |s| == OWNER_LENGTH && OwnerChars(s)
  }

  predicate ValidRecord(r: Record) {
    IsOwnerToken(r.owner) && 1 <= r.fence <= MAX_FENCE
  }

  /** `to_bytes`, and the record text the acquire script builds. */
  function ToText(r: Record): string {
    "v1:" + r.owner + ":" + Text(r.fence)
  }

  // ----- the client's reader -----

  function Split(s: string): seq<string> {
    if s == "" then [""]
    else
      var rest := Split(s[1..]);
      if s[0] == ':' || rest == [] then [""] + rest else [[s[0]] + rest[0]] + rest[1..]
  }

  function Parse(s: string): Option<Record> {
    var parts := Split(s);
    if |parts| == 3 && parts[0] == "v1" && IsOwnerToken(parts[1]) && ValidFence(parts[2])
    then Some(Record(parts[1], Value(parts[2])))
    else None
  }

  // ----- the scripts' reader -----

  /** The longest prefix of owner characters, as `[%w_-]+` matches it; a shorter
      match could only be followed by an owner character, never by `:`. */
  function OwnerRun(s: string): nat
    ensures OwnerRun(s) <= |s|
  {
    if s != "" && IsOwnerChar(s[0]) then 1 + OwnerRun(s[1..]) else 0
  }

  /** `^v1:([%w_-]+):([1-9][0-9]*)$`, then the length and fence tests. */
  function LuaParse(s: string): Option<Record> {
    if |s| < 3 || s[..3] != "v1:" then None
    else
      var rest := s[3..];
      var n := OwnerRun(rest);
      if n == 0 || n == |rest| || rest[n] != ':' || !Canonical(rest[n + 1..]) then None
      else if n != OWNER_LENGTH || !ValidFence(rest[n + 1..]) then None
      else Some(Record(rest[..n], Value(rest[n + 1..])))
  }

  // ----- both read back exactly the texts of valid records -----

  lemma SplitPlain(s: string)
    requires ':' !in s
    ensures Split(s) == [s]
  {
    if s != "" {
      SplitPlain(s[1..]);
      assert [s[0]] + s[1..] == s;
    }
  }

  lemma SplitAt(a: string, b: string)
    requires ':' !in a
    ensures Split(a + ":" + b) == [a] + Split(b)
  {
    var s := a + ":" + b;
    if a == "" {
      assert s[1..] == b;
      SplitNonEmpty(b);
    } else {
      assert s[1..] == a[1..] + ":" + b;
      SplitAt(a[1..], b);
      assert [s[0]] + a[1..] == a;
    }
  }

  lemma SplitNonEmpty(s: string)
    ensures Split(s) != []
  {
  }

  function Joined(parts: seq<string>): string {
    if parts == [] then "" else if |parts| == 1 then parts[0] else parts[0] + ":" + Joined(parts[1..])
  }

  lemma JoinSplit(s: string)
    ensures Split(s) != [] && Joined(Split(s)) == s
  {
    if s != "" {
      JoinSplit(s[1..]);
      var rest := Split(s[1..]);
      if s[0] == ':' {
        assert ([""] + rest)[1..] == rest;
        assert "" + ":" + s[1..] == s;
      } else {
        var parts := [[s[0]] + rest[0]] + rest[1..];
        assert parts[1..] == rest[1..];
        assert Joined(parts) == [s[0]] + Joined(rest);
        assert [s[0]] + s[1..] == s;
      }
    }
  }

  lemma ParseText(r: Record)
    requires ValidRecord(r)
    ensures Parse(ToText(r)) == Some(r)
  {
    TextFacts(r.fence);
    ValidFenceIffInRange(Text(r.fence));
    assert ':' !in Text(r.fence);
    SplitPlain(Text(r.fence));
    SplitAt(r.owner, Text(r.fence));
    SplitAt("v1", r.owner + ":" + Text(r.fence));
    assert ToText(r) == "v1" + ":" + (r.owner + ":" + Text(r.fence));
  }

  /** The client's reader inverts its writer, and accepts nothing else. */
  lemma ParseIff(s: string, r: Record)
    ensures Parse(s) == Some(r) <==> ValidRecord(r) && s == ToText(r)
  {
    hide Split, Text, Value, LexLe;
    if Parse(s) == Some(r) {
      var parts := Split(s);
      JoinSplit(s);
      ValidFenceIffInRange(parts[2]);
      TextOfValue(parts[2]);
      assert parts == [parts[0], parts[1], parts[2]];
      assert Joined(parts[1..]) == parts[1] + ":" + Joined(parts[1..][1..]);
      assert s == "v1" + ":" + (parts[1] + ":" + parts[2]);
      assert s == ToText(r);
    }
    if ValidRecord(r) && s == ToText(r) { ParseText(r); }
  }

  lemma OwnerRunExact(a: string, b: string)
    requires OwnerChars(a) && (b == "" || !IsOwnerChar(b[0]))
    ensures OwnerRun(a + b) == |a|
  {
    if a != "" {
      assert (a + b)[1..] == a[1..] + b;
      OwnerRunExact(a[1..], b);
    } else {
      assert a + b == b;
    }
  }

  lemma OwnerRunChars(s: string)
    ensures OwnerChars(s[..OwnerRun(s)])
  {
    if s != "" && IsOwnerChar(s[0]) {
      OwnerRunChars(s[1..]);
      assert s[..OwnerRun(s)] == [s[0]] + s[1..][..OwnerRun(s[1..])];
    }
  }

  /** The scripts' reader accepts exactly the same texts with the same meaning. */
  lemma LuaParseIff(s: string, r: Record)
    ensures LuaParse(s) == Some(r) <==> ValidRecord(r) && s == ToText(r)
  {
    hide Text, Value, LexLe, OwnerRun;
    if LuaParse(s) == Some(r) {
      var rest := s[3..];
      var n := OwnerRun(rest);
      OwnerRunChars(rest);
      ValidFenceIffInRange(rest[n + 1..]);
      TextOfValue(rest[n + 1..]);
      assert rest == rest[..n] + ":" + rest[n + 1..];
      assert s == s[..3] + rest;
      assert s == ToText(r);
    }
    if ValidRecord(r) && s == ToText(r) {
      TextFacts(r.fence);
      ValidFenceIffInRange(Text(r.fence));
      var rest := r.owner + (":" + Text(r.fence));
      assert s[3..] == rest;
      OwnerRunExact(r.owner, ":" + Text(r.fence));
      assert rest[32 + 1..] == Text(r.fence) && rest[..32] == r.owner;
    }
  }

  /** Client and scripts read every text alike. */
  lemma ReadersAgree(s: string)
    ensures LuaParse(s) == Parse(s)
  {
    hide Parse, LuaParse;
    if Parse(s).Some? { ParseIff(s, Parse(s).value); LuaParseIff(s, Parse(s).value); }
    if LuaParse(s).Some? { ParseIff(s, LuaParse(s).value); LuaParseIff(s, LuaParse(s).value); }
  }

  /** Different records have different texts, so comparing texts compares records. */
  lemma TextInjective(a: Record, b: Record)
    requires ValidRecord(a) && ValidRecord(b)
    ensures ToText(a) == ToText(b) <==> a == b
  {
    ParseIff(ToText(a), a);
    ParseIff(ToText(b), b);
  }
}
