/** The five Lua scripts over the lock's three Redis keys.  Each method follows its
    script's tests and writes in order; what it does is stated through `AbsOf`,
    the abstract server that well-formed keys stand for. */
module LeaderScripts {
  import opened Wrappers
  import opened Decimal
  import opened LeaseRecord
  import opened LeaderServer

  /** A key's content; the deadline is absent for a persistent key. */
  datatype Value = NoKey | Str(text: string, deadline: Option<int>) | OtherType(deadline: Option<int>)

  /** The key as commands see it at `now`: gone once its deadline is reached. */
  function At(v: Value, now: int): Value {
    match v
    case NoKey => NoKey
    case Str(_, d) => if d.Some? && now >= d.value then NoKey else v
    case OtherType(d) => if d.Some? && now >= d.value then NoKey else v
  }

  function Pttl(v: Value, now: int): int {
    match At(v, now)
    case NoKey => -2
    case Str(_, d) => if d.Some? then d.value - now else -1
    case OtherType(d) => if d.Some? then d.value - now else -1
  }

  datatype Keys = Keys(lease: Value, fence: Value, history: Value)

  /** The lease key alone: absent, a well-formed expiring record, or neither. */
  datatype LeaseShape = NoLease | Leased(lease: Lease) | Malformed

  function ShapeOf(v: Value, now: int): LeaseShape {
    match At(v, now)
    case NoKey => NoLease
    case OtherType(_) => Malformed
    case Str(text, d) =>
      if LuaParse(text).Some? && d.Some? then Leased(Lease(LuaParse(text).value, d.value)) else Malformed
  }

  function AbsOf(k: Keys, now: int): Option<Server> {
    var history, fence := At(k.history, now), At(k.fence, now);
    var shape := ShapeOf(k.lease, now);
    if history.NoKey? then
      if fence.NoKey? && shape.NoLease? then Some(Server(0, None)) else None
    else if history != Str("v1", None) || !fence.Str? || fence.deadline.Some? || !ValidFence(fence.text) then None
    else
      match shape
      case NoLease => Some(Server(Decimal.Value(fence.text), None))
      case Leased(lease) =>
        if Text(lease.record.fence) == fence.text then Some(Server(Decimal.Value(fence.text), Some(lease))) else None
      case Malformed => None
  }

  lemma ShapeFacts(v: Value, now: int)
    ensures ShapeOf(v, now).Leased? ==>
      var l := ShapeOf(v, now).lease;
      ValidRecord(l.record) && now < l.deadline && At(v, now) == v == Str(ToText(l.record), Some(l.deadline))
  {
    if ShapeOf(v, now).Leased? { LuaParseIff(v.text, LuaParse(v.text).value); }
  }

  lemma ShapeOfRecord(r: Record, deadline: int, now: int)
    requires ValidRecord(r) && now < deadline
    ensures ShapeOf(Str(ToText(r), Some(deadline)), now) == Leased(Lease(r, deadline))
  {
    LuaParseIff(ToText(r), r);
  }

  /** Well-formed keys have a history exactly when they have a fence, and stand for
      a server whose lease is live and carries that fence. */
  lemma AbsFacts(k: Keys, now: int)
    ensures AbsOf(k, now).Some? ==>
      var s := AbsOf(k, now).value;
      && Inv(s) && Current(s, now) == s
      && (At(k.history, now).NoKey? <==> At(k.fence, now).NoKey?)
      && (s.counter == 0 <==> At(k.fence, now).NoKey?)
      && (s.counter > 0 ==> At(k.fence, now) == Str(Text(s.counter), None))
  {
    ShapeFacts(k.lease, now);
    if AbsOf(k, now).Some? && !At(k.history, now).NoKey? {
      ValidFenceIffInRange(At(k.fence, now).text);
      TextOfValue(At(k.fence, now).text);
      if ShapeOf(k.lease, now).Leased? { TextFacts(ShapeOf(k.lease, now).lease.record.fence); }
    }
  }

  /** Keys stand for a server exactly if they are what that server is written as: no
      key at all before the first fence, then the history mark, the counter's text and,
      while there is a live lease, its record's text with its deadline. */
  lemma AbsIff(k: Keys, now: int, s: Server)
    ensures AbsOf(k, now) == Some(s) <==>
      && Inv(s) && (s.lease.Some? ==> ValidRecord(s.lease.value.record) && now < s.lease.value.deadline)
      && At(k.history, now) == (if s.counter == 0 then NoKey else Str("v1", None))
      && At(k.fence, now) == (if s.counter == 0 then NoKey else Str(Text(s.counter), None))
      && At(k.lease, now) ==
           (if s.lease.None? then NoKey else Str(ToText(s.lease.value.record), Some(s.lease.value.deadline)))
  {
    hide Text, Decimal.Value, LuaParse, IsOwnerToken, ValidFence, ToText;
    ShapeFacts(k.lease, now);
    AbsFacts(k, now);
    if s.counter > 0 && s.counter <= MAX_FENCE {
      TextFacts(s.counter);
      ValidFenceIffInRange(Text(s.counter));
    }
    if s.lease.Some? && ValidRecord(s.lease.value.record) && now < s.lease.value.deadline {
      ShapeOfRecord(s.lease.value.record, s.lease.value.deadline, now);
    }
  }

  /** Letting time pass only makes a reached lease vanish. */
  lemma AbsLater(k: Keys, now: int, later: int)
    requires now <= later && AbsOf(k, now).Some?
    ensures AbsOf(k, later) == Some(Current(AbsOf(k, now).value, later))
  {
    ShapeFacts(k.lease, now);
  }

  class RedisKeys {
    var lease: Value
    var fence: Value
    var history: Value

    function View(): Keys reads this {
      Keys(lease, fence, history)
    }

    constructor ()
      ensures View() == Keys(NoKey, NoKey, NoKey) && AbsOf(View(), 0) == Some(Server(0, None))
    {
      lease, fence, history := NoKey, NoKey, NoKey;
    }

    /** On well-formed keys, the abstract acquire; on any others, `Corrupt` and no
        change. */
    method AcquireScript(owner: string, ttl: nat, now: int) returns (reply: Reply)
      requires IsOwnerToken(owner) && ttl >= 1
      modifies this
      ensures match AbsOf(old(View()), now)
        case Some(s) =>
          var (t, r) := Execute(s, Acquire(owner, ttl), now);
          AbsOf(View(), now) == Some(t) && reply == r
        case None => reply == Corrupt && View() == old(View())
      ensures !At(old(lease), now).NoKey? ==> View() == old(View()) && (reply == Contended || reply == Corrupt)
      ensures reply == Contended <==> !At(old(lease), now).NoKey? && AbsOf(old(View()), now).Some?
    {
      hide Text, Decimal.Value, ValidFence, LuaParse, IsOwnerToken, ToText, Inv;
      AbsFacts(View(), now);
      ShapeFacts(lease, now);
      var historyKey := At(history, now);
      if !historyKey.NoKey? {
        if !historyKey.Str? { return Corrupt; }
        if Pttl(history, now) != -1 { return Corrupt; }
        if historyKey.text != "v1" { return Corrupt; }
      }
      var fenceKey := At(fence, now);
      var previous := "";
      if fenceKey.NoKey? {
        if !historyKey.NoKey? { return Corrupt; }
      } else {
        if historyKey.NoKey? { return Corrupt; }
        if !fenceKey.Str? { return Corrupt; }
        if Pttl(fence, now) != -1 { return Corrupt; }
        previous := fenceKey.text;
        if !ValidFence(previous) { return Corrupt; }
      }
      var leaseKey := At(lease, now);
      if !leaseKey.NoKey? {
        if historyKey.NoKey? { return Corrupt; }
        if !leaseKey.Str? { return Corrupt; }
        var parsed := LuaParse(leaseKey.text);
        if parsed.None? { return Corrupt; }
        if Text(parsed.value.fence) != previous { return Corrupt; }
        if Pttl(lease, now) <= 0 { return Corrupt; }
        return Contended;
      }
      TextOfCounter(previous);
      AfterAcquire(View(), owner, ttl, now);
      if previous == MAX_FENCE_TEXT { return Corrupt; }
      if historyKey.NoKey? { history := Str("v1", None); }
      var next := if previous == "" then 1 else Decimal.Value(previous) + 1;
      fence := Str(Text(next), None);
      lease := Str("v1:" + owner + ":" + Text(next), Some(now + ttl));
      reply := Acquired(next);
    }

    /** Never writes unless the live lease's text is exactly the record's. */
    method RenewScript(record: Record, ttl: nat, now: int) returns (reply: Reply)
      requires ValidRecord(record) && ttl >= 1
      modifies this`lease
      ensures ShapeOf(old(lease), now) != Malformed ==>
          RefinesOnLease(old(View()), View(), Renew(record, ttl), reply, now)
      ensures ShapeOf(old(lease), now) == Malformed ==> reply == Corrupt
      ensures lease != old(lease) ==> At(old(lease), now).Str? && At(old(lease), now).text == ToText(record)
    {
      ShapeFacts(lease, now);
      var leaseKey := At(lease, now);
      if leaseKey.NoKey? { return NotHeld; }
      if !leaseKey.Str? { return Corrupt; }
      if LuaParse(leaseKey.text).None? { return Corrupt; }
      var remaining := Pttl(lease, now);
      if remaining == -1 { return Corrupt; }
      if remaining <= 0 { return NotHeld; }
      TextInjective(LuaParse(leaseKey.text).value, record);
      if leaseKey.text != ToText(record) { return NotHeld; }
      lease := Str(leaseKey.text, Some(now + ttl));
      ShapeOfRecord(record, now + ttl, now);
      reply := Renewed;
    }

    method ProbeScript(record: Record, now: int) returns (reply: Reply)
      requires ValidRecord(record)
      ensures ShapeOf(lease, now) != Malformed ==> RefinesOnLease(View(), View(), Probe(record), reply, now)
      ensures ShapeOf(lease, now) == Malformed ==> reply == Corrupt
    {
      ShapeFacts(lease, now);
      var leaseKey := At(lease, now);
      if leaseKey.NoKey? { return NotHeld; }
      if !leaseKey.Str? { return Corrupt; }
      if LuaParse(leaseKey.text).None? { return Corrupt; }
      var remaining := Pttl(lease, now);
      if remaining == -1 { return Corrupt; }
      if remaining <= 0 { return NotHeld; }
      TextInjective(LuaParse(leaseKey.text).value, record);
      if leaseKey.text != ToText(record) { return NotHeld; }
      reply := Held;
    }

    method ReconcileScript(now: int) returns (reply: Reply)
      ensures ShapeOf(lease, now) != Malformed ==> RefinesOnLease(View(), View(), Reconcile, reply, now)
      ensures ShapeOf(lease, now) == Malformed ==> reply == Corrupt
    {
      ShapeFacts(lease, now);
      var leaseKey := At(lease, now);
      if leaseKey.NoKey? { return Missing; }
      if !leaseKey.Str? { return Corrupt; }
      if LuaParse(leaseKey.text).None? { return Corrupt; }
      var remaining := Pttl(lease, now);
      if remaining == -1 { return Corrupt; }
      if remaining <= 0 { return Missing; }
      ReadersAgree(leaseKey.text);
      reply := Present(Parse(leaseKey.text).value);
    }

    /** `minimum` is 0 to delete the lease, else the time it must still stay. */
    method ReleaseScript(record: Record, minimum: nat, now: int) returns (reply: Reply)
      requires ValidRecord(record)
      modifies this`lease
      ensures ShapeOf(old(lease), now) != Malformed ==>
          RefinesOnLease(old(View()), View(), Release(record, minimum), reply, now)
      ensures ShapeOf(old(lease), now) == Malformed ==> reply == Corrupt
      ensures lease != old(lease) ==> At(old(lease), now).Str? && At(old(lease), now).text == ToText(record)
    {
      ShapeFacts(lease, now);
      var leaseKey := At(lease, now);
      if leaseKey.NoKey? { return NotHeld; }
      if !leaseKey.Str? { return Corrupt; }
      if LuaParse(leaseKey.text).None? { return Corrupt; }
      var remaining := Pttl(lease, now);
      if remaining == -1 { return Corrupt; }
      if remaining <= 0 { return NotHeld; }
      TextInjective(LuaParse(leaseKey.text).value, record);
      if leaseKey.text != ToText(record) { return NotHeld; }
      if minimum == 0 {
        lease := NoKey;
        return Deleted;
      }
      lease := Str(leaseKey.text, Some(now + minimum));
      ShapeOfRecord(record, now + minimum, now);
      reply := MinimumApplied;
    }
  }

  /** A script that touches only the lease key does what `Execute` does to the
      server made of that lease, whatever the counter. */
  predicate RefinesOnLease(before: Keys, after: Keys, c: Command, reply: Reply, now: int) {
    && before.fence == after.fence && before.history == after.history
    && ShapeOf(before.lease, now) != Malformed && ShapeOf(after.lease, now) != Malformed
    && var counter := 1;
       (ServerOf(ShapeOf(after.lease, now), counter), reply) ==
           Execute(ServerOf(ShapeOf(before.lease, now), counter), c, now)
  }

  function ServerOf(shape: LeaseShape, counter: nat): Server {
    Server(counter, if shape.Leased? then Some(shape.lease) else None)
  }

  /** On well-formed keys that is the abstract script on the whole server. */
  lemma RefinesWhole(before: Keys, after: Keys, c: Command, reply: Reply, now: int)
    requires RefinesOnLease(before, after, c, reply, now) && !c.Acquire? && AbsOf(before, now).Some?
    ensures var (t, r) := Execute(AbsOf(before, now).value, c, now);
      AbsOf(after, now) == Some(t) && reply == r
  {
    AbsFacts(before, now);
    ShapeFacts(before.lease, now);
    ShapeFacts(after.lease, now);
  }

  lemma MaxFenceText()
    ensures Text(MAX_FENCE) == MAX_FENCE_TEXT
  {
    hide Text, Decimal.Value;
    MaxFenceValue();
    TextOfValue(MAX_FENCE_TEXT);
  }

  /** A stored fence is the text of the counter, and only the greatest fence has
      the greatest fence's text. */
  lemma TextOfCounter(previous: string)
    ensures ValidFence(previous) ==>
      && previous != "" && AllDigits(previous)
      && 1 <= Decimal.Value(previous) <= MAX_FENCE && Text(Decimal.Value(previous)) == previous
      && (previous == MAX_FENCE_TEXT <==> Decimal.Value(previous) == MAX_FENCE)
  {
    hide Text, Decimal.Value, LexLe;
    MaxFenceText();
    MaxFenceValue();
    if ValidFence(previous) {
      ValidFenceIffInRange(previous);
      TextOfValue(previous);
    }
  }

  /** The keys an acquire leaves stand for the next counter and its lease. */
  lemma AfterAcquire(k: Keys, owner: string, ttl: nat, now: int)
    requires IsOwnerToken(owner) && ttl >= 1
    ensures AbsOf(k, now).Some? && AbsOf(k, now).value.counter < MAX_FENCE ==>
      var next := AbsOf(k, now).value.counter + 1;
      AbsOf(Keys(Str("v1:" + owner + ":" + Text(next), Some(now + ttl)), Str(Text(next), None), Str("v1", None)), now)
        == Some(Server(next, Some(Lease(Record(owner, next), now + ttl))))
  {
    hide Text, Decimal.Value, LuaParse;
    if AbsOf(k, now).Some? && AbsOf(k, now).value.counter < MAX_FENCE {
      var next := AbsOf(k, now).value.counter + 1;
      TextFacts(next);
      ValidFenceIffInRange(Text(next));
      ShapeOfRecord(Record(owner, next), now + ttl, now);
    }
  }
}
