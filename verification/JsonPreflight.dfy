/** The encode-side guard: an explicit-stack walk over an object graph that may share
    or repeat containers, with a running lower bound of the output size. */
module JsonPreflight {
  import opened Utf8
  import opened JsonTree
  import Decimal

  /** A value as the walk meets it: containers by identity. */
  datatype Object =
    | NullObject
    | BoolObject(b: bool)
    | IntObject(n: int)
    | FloatObject(text: FloatText, finite: bool)
    | StrObject(s: Text)
    | Ref(id: nat)
    | Unsupported

  datatype Key = StrKey(s: Text) | OtherKey

  /** An element of a list, or a member of a dictionary. */
  datatype Entry = Element(item: Object) | KeyedBy(key: Key, item: Object)

  datatype Container = ListOf(entries: seq<Entry>) | DictOf(entries: seq<Entry>)

  type Graph = map<nat, Container>

  /** Identities in use denote containers; entries are of their container's kind. */
  predicate Closed(h: Graph) {
    forall id :: id in h ==> forall i :: 0 <= i < |h[id].entries| ==>
      && KnownObject(h, h[id].entries[i].item)
      && (h[id].entries[i].Element? <==> h[id].ListOf?)
  }

  predicate KnownObject(h: Graph, o: Object) {
    o.Ref? ==> o.id in h
  }

  datatype Error =
    | IntegerDigitLimit
    | NonFinite
    | NestingLimit
    | CircularReference
    | UnsupportedValue
    | OutputLimit

  datatype Outcome = Within(bound: nat) | Refused(error: Error)

  // ----- one value, one entry -----

  /** The checks on a value before its bound is added. */
  function Check(o: Object, path: seq<nat>, maxDepth: nat): Outcome {
    match o
    case NullObject => Within(1)
    case BoolObject(_) => Within(1)
    case IntObject(n) =>
      if Magnitude(n) >= Decimal.Pow10(MAX_INTEGER_DIGITS) then Refused(IntegerDigitLimit) else Within(1)
    case StrObject(s) => if IsScalarText(s) then Within(StringBound(s)) else Refused(UnsupportedValue)
    case FloatObject(_, finite) => if finite then Within(1) else Refused(NonFinite)
    case Ref(id) =>
      if |path| + 1 > maxDepth then Refused(NestingLimit)
      else if id in path then Refused(CircularReference)
      else Within(1)
    case Unsupported => Refused(UnsupportedValue)
  }

  /** What an entry adds before its value: a key's bound and the colon. */
  function Pending(e: Entry): Outcome {
    match e
    case Element(_) => Within(0)
    case KeyedBy(key, _) =>
      if key.OtherKey? || !IsScalarText(key.s) then Refused(UnsupportedValue) else Within(StringBound(key.s) + 1)
  }

  // ----- the walk as a recursion -----

  /** Visits `o` below the containers on `path`, `bound` so far. */
  function Visit(h: Graph, o: Object, pending: nat, path: seq<nat>, bound: nat, maxDepth: nat,
    maxSize: nat): (r: Outcome)
    requires Closed(h) && KnownObject(h, o) && bound <= maxSize
    ensures r.Within? ==> bound < r.bound <= maxSize
    decreases maxSize - bound, 0, 0
  {
    match Check(o, path, maxDepth)
    case Refused(error) => Refused(error)
    case Within(own) =>
      var next := bound + pending + own;
      if next > maxSize then Refused(OutputLimit)
      else if o.Ref? then assert own == 1; Entries(h, h[o.id].entries, 0, path + [o.id], next, maxDepth, maxSize)
      else assert own >= 1; Within(next)
  }

  function Entries(h: Graph, entries: seq<Entry>, i: nat, path: seq<nat>, bound: nat, maxDepth: nat,
    maxSize: nat): (r: Outcome)
    requires Closed(h) && bound <= maxSize && i <= |entries|
    requires forall k :: 0 <= k < |entries| ==> KnownObject(h, entries[k].item)
    ensures r.Within? ==> bound <= r.bound <= maxSize
    decreases maxSize - bound, 1, |entries| - i
  {
    if i == |entries| then Within(bound)
    else
      match Pending(entries[i])
      case Refused(error) => Refused(error)
      case Within(pending) =>
        match Visit(h, entries[i].item, pending, path, bound, maxDepth, maxSize)
        case Refused(error) => Refused(error)
        case Within(b) => Entries(h, entries, i + 1, path, b, maxDepth, maxSize)
  }

  // ----- what the size limit does -----

  /** How a walk without a size limit ends, and the bound it has reached by then. */
  datatype Ending = Ending(outcome: Outcome, reached: nat)

  function VisitAll(h: Graph, o: Object, pending: nat, path: seq<nat>, bound: nat, maxDepth: nat): (r: Ending)
    requires Closed(h) && KnownObject(h, o)
    ensures r.reached >= bound && (r.outcome.Within? ==> r.outcome.bound == r.reached)
    decreases if maxDepth >= |path| then maxDepth - |path| else 0, 1, 0
  {
    match Check(o, path, maxDepth)
    case Refused(error) => Ending(Refused(error), bound)
    case Within(own) =>
      var next := bound + pending + own;
      if o.Ref? then EntriesAll(h, h[o.id].entries, 0, path + [o.id], next, maxDepth) else Ending(Within(next), next)
  }

  function EntriesAll(h: Graph, entries: seq<Entry>, i: nat, path: seq<nat>, bound: nat, maxDepth: nat): (r: Ending)
    requires Closed(h) && i <= |entries| && forall k :: 0 <= k < |entries| ==> KnownObject(h, entries[k].item)
    requires |path| <= maxDepth
    ensures r.reached >= bound && (r.outcome.Within? ==> r.outcome.bound == r.reached)
    decreases maxDepth - |path|, 2, |entries| - i
  {
    if i == |entries| then Ending(Within(bound), bound)
    else
      match Pending(entries[i])
      case Refused(error) => Ending(Refused(error), bound)
      case Within(pending) =>
        var first := VisitAll(h, entries[i].item, pending, path, bound, maxDepth);
        if first.outcome.Refused? then first else EntriesAll(h, entries, i + 1, path, first.reached, maxDepth)
  }

  /** The limit does one thing: a walk that would go beyond it, before it ends or is
      refused for another reason, is refused for its size; every other walk ends as it
      would without a limit. */
  lemma {:induction false} LimitOnly(
    h: Graph, o: Object, pending: nat, path: seq<nat>, bound: nat, maxDepth: nat, maxSize: nat)
    requires Closed(h) && KnownObject(h, o) && bound <= maxSize
    ensures var all := VisitAll(h, o, pending, path, bound, maxDepth);
      Visit(h, o, pending, path, bound, maxDepth, maxSize) ==
        if all.reached > maxSize then Refused(OutputLimit) else all.outcome
    decreases if maxDepth >= |path| then maxDepth - |path| else 0, 1, 0
  {
    match Check(o, path, maxDepth)
    case Refused(error) =>
    case Within(own) =>
      var next := bound + pending + own;
      if o.Ref? && next <= maxSize {
        LimitOnlyEntries(h, h[o.id].entries, 0, path + [o.id], next, maxDepth, maxSize);
      }
  }

  lemma {:induction false} LimitOnlyEntries(
    h: Graph, entries: seq<Entry>, i: nat, path: seq<nat>, bound: nat, maxDepth: nat, maxSize: nat)
    requires Closed(h) && i <= |entries| && forall k :: 0 <= k < |entries| ==> KnownObject(h, entries[k].item)
    requires |path| <= maxDepth && bound <= maxSize
    ensures var all := EntriesAll(h, entries, i, path, bound, maxDepth);
      Entries(h, entries, i, path, bound, maxDepth, maxSize) ==
        if all.reached > maxSize then Refused(OutputLimit) else all.outcome
    decreases maxDepth - |path|, 2, |entries| - i
  {
    if i < |entries| && Pending(entries[i]).Within? {
      var pending := Pending(entries[i]).bound;
      LimitOnly(h, entries[i].item, pending, path, bound, maxDepth, maxSize);
      var first := VisitAll(h, entries[i].item, pending, path, bound, maxDepth);
      if first.outcome.Within? && first.reached <= maxSize {
        LimitOnlyEntries(h, entries, i + 1, path, first.reached, maxDepth, maxSize);
      }
    }
  }

  // ----- the walk with its stack -----

  datatype Frame = Frame(id: nat, entries: seq<Entry>, next: nat)

  function PathOf(stack: seq<Frame>): (r: seq<nat>)
    ensures |r| == |stack| && forall i :: 0 <= i < |r| ==> r[i] == stack[i].id
  {
    seq(|stack|, i requires 0 <= i < |stack| => stack[i].id)
  }

  predicate FramesOk(h: Graph, stack: seq<Frame>) {
    forall i :: 0 <= i < |stack| ==>
      && stack[i].id in h && stack[i].entries == h[stack[i].id].entries && stack[i].next <= |stack[i].entries|
  }

  /** What is left to do with this stack. */
  function Resume(h: Graph, stack: seq<Frame>, bound: nat, maxDepth: nat, maxSize: nat): Outcome
    requires Closed(h) && FramesOk(h, stack) && bound <= maxSize
    decreases |stack|
  {
    if stack == [] then Within(bound)
    else
      var top := stack[|stack| - 1];
      match Entries(h, top.entries, top.next, PathOf(stack), bound, maxDepth, maxSize)
      case Refused(error) => Refused(error)
      case Within(b) => Resume(h, stack[..|stack| - 1], b, maxDepth, maxSize)
  }

  function Then(h: Graph, r: Outcome, stack: seq<Frame>, maxDepth: nat, maxSize: nat): Outcome
    requires Closed(h) && FramesOk(h, stack) && (r.Within? ==> r.bound <= maxSize)
  {
    if r.Refused? then r else Resume(h, stack, r.bound, maxDepth, maxSize)
  }

  lemma ResumeNext(h: Graph, stack: seq<Frame>, bound: nat, maxDepth: nat, maxSize: nat)
    requires Closed(h) && FramesOk(h, stack) && bound <= maxSize && stack != []
    requires stack[|stack| - 1].next < |stack[|stack| - 1].entries|
    ensures var top := stack[|stack| - 1];
      var entry := top.entries[top.next];
      var advanced := stack[|stack| - 1 := top.(next := top.next + 1)];
      && FramesOk(h, advanced) && PathOf(advanced) == PathOf(stack)
      && Resume(h, stack, bound, maxDepth, maxSize) ==
         match Pending(entry)
         case Refused(error) => Refused(error)
         case Within(pending) =>
           Then(h, Visit(h, entry.item, pending, PathOf(stack), bound, maxDepth, maxSize), advanced, maxDepth, maxSize)
  {
    var top := stack[|stack| - 1];
    var advanced := stack[|stack| - 1 := top.(next := top.next + 1)];
    assert PathOf(advanced) == PathOf(stack);
    assert advanced[..|stack| - 1] == stack[..|stack| - 1];
  }

  lemma PushFrame(h: Graph, stack: seq<Frame>, id: nat)
    requires FramesOk(h, stack) && id in h
    ensures var pushed := stack + [Frame(id, h[id].entries, 0)];
      FramesOk(h, pushed) && PathOf(pushed) == PathOf(stack) + [id] && pushed[..|stack|] == stack
  {
  }

  function IdsOf(path: seq<nat>): set<nat> {
    set i | 0 <= i < |path| :: path[i]
  }

  predicate Distinct(path: seq<nat>) {
    forall i, j :: 0 <= i < j < |path| ==> path[i] != path[j]
  }

  lemma PopIds(path: seq<nat>)
    requires path != [] && Distinct(path)
    ensures IdsOf(path[..|path| - 1]) == IdsOf(path) - {path[|path| - 1]} && Distinct(path[..|path| - 1])
  {
    var init := path[..|path| - 1];
    assert path == init + [path[|path| - 1]];
    assert forall i :: 0 <= i < |init| ==> init[i] == path[i];
    forall x | x in IdsOf(path) - {path[|path| - 1]} ensures x in IdsOf(init) {
      var i :| 0 <= i < |path| && path[i] == x;
      assert init[i] == x;
    }
    forall x | x in IdsOf(init) ensures x in IdsOf(path) - {path[|path| - 1]} {
      var i :| 0 <= i < |init| && init[i] == x;
      assert path[i] == x;
    }
  }

  lemma PushIds(path: seq<nat>, id: nat)
    requires Distinct(path) && id !in path
    ensures IdsOf(path + [id]) == IdsOf(path) + {id} && Distinct(path + [id])
  {
    var pushed := path + [id];
    forall x | x in IdsOf(path) + {id} ensures x in IdsOf(pushed) {
      if x == id { assert pushed[|path|] == id; } else {
        var i :| 0 <= i < |path| && path[i] == x;
        assert pushed[i] == x;
      }
    }
  }

  lemma IdsMembers(path: seq<nat>, id: nat)
    ensures id in IdsOf(path) <==> id in path
  {
  }

  /** The loop with its stack and active set does exactly what the recursion does,
      errors included, in at most `maxSize + 1` visits. */
  method Preflight(h: Graph, value: Object, maxDepth: nat, maxSize: nat) returns (r: Outcome, visits: nat)
    requires Closed(h) && KnownObject(h, value)
    ensures r == Visit(h, value, 0, [], 0, maxDepth, maxSize)
    ensures visits <= maxSize + 1
  {
    hide Visit, Entries, Check, Pending, IdsOf, Distinct, Resume;
    var active: set<nat> := {};
    var stack: seq<Frame> := [];
    var bound := 0;
    var current, pending: nat := value, 0;
    visits := 0;
    ghost var goal := Visit(h, value, 0, [], 0, maxDepth, maxSize);
    assert PathOf(stack) == [];
    assert active == IdsOf([]) && Distinct([]) by { EmptyPath(); }
    ghost var visit := Visit(h, current, pending, PathOf(stack), bound, maxDepth, maxSize);
    assert goal == Then(h, visit, stack, maxDepth, maxSize) by { ResumeNothing(h, goal, maxDepth, maxSize); }
    while true
      invariant FramesOk(h, stack) && KnownObject(h, current) && bound <= maxSize && visits <= bound
      invariant active == IdsOf(PathOf(stack)) && Distinct(PathOf(stack))
      invariant goal ==
          Then(h, Visit(h, current, pending, PathOf(stack), bound, maxDepth, maxSize), stack, maxDepth, maxSize)
      decreases maxSize - bound
    {
      visits := visits + 1;
      VisitStep(h, current, pending, PathOf(stack), bound, maxDepth, maxSize);
      var own := 1;
      match current {
        case NullObject =>
        case BoolObject(_) =>
        case IntObject(n) =>
          if Magnitude(n) >= Decimal.Pow10(MAX_INTEGER_DIGITS) { return Refused(IntegerDigitLimit), visits; }
        case StrObject(s) =>
          if !IsScalarText(s) { return Refused(UnsupportedValue), visits; }
          own := StringBound(s);
        case FloatObject(_, finite) =>
          if !finite { return Refused(NonFinite), visits; }
        case Ref(id) =>
          if |stack| + 1 > maxDepth { return Refused(NestingLimit), visits; }
          IdsMembers(PathOf(stack), id);
          if id in active { return Refused(CircularReference), visits; }
        case Unsupported => return Refused(UnsupportedValue), visits;
      }
      bound := bound + pending + own;
      if bound > maxSize { return Refused(OutputLimit), visits; }
      if current.Ref? {
        PushIds(PathOf(stack), current.id);
        PushFrame(h, stack, current.id);
        ResumePushed(h, stack, current.id, bound, maxDepth, maxSize);
        active := active + {current.id};
        stack := stack + [Frame(current.id, h[current.id].entries, 0)];
      }
      assert goal == Resume(h, stack, bound, maxDepth, maxSize);
      var searching := true;
      while searching && stack != []
        invariant FramesOk(h, stack) && KnownObject(h, current)
        invariant active == IdsOf(PathOf(stack)) && Distinct(PathOf(stack))
        invariant searching ==> goal == Resume(h, stack, bound, maxDepth, maxSize)
        invariant !searching ==>
            goal == Then(h, Visit(h, current, pending, PathOf(stack), bound, maxDepth, maxSize), stack, maxDepth,
              maxSize)
        decreases |stack|, searching
      {
        var top := stack[|stack| - 1];
        if top.next == |top.entries| {
          ResumePopped(h, stack, bound, maxDepth, maxSize);
          PopIds(PathOf(stack));
          assert PathOf(stack[..|stack| - 1]) == PathOf(stack)[..|stack| - 1];
          stack := stack[..|stack| - 1];
          active := active - {top.id};
        } else {
          ResumeNext(h, stack, bound, maxDepth, maxSize);
          PendingStep(top.entries[top.next]);
          match top.entries[top.next] {
            case Element(item) => current, pending := item, 0;
            case KeyedBy(key, item) =>
              if key.OtherKey? || !IsScalarText(key.s) { return Refused(UnsupportedValue), visits; }
              current, pending := item, StringBound(key.s) + 1;
          }
          stack := stack[|stack| - 1 := top.(next := top.next + 1)];
          searching := false;
        }
      }
      if searching {
        assert goal == Within(bound) by { ResumeNothing(h, Within(bound), maxDepth, maxSize); }
        return Within(bound), visits;
      }
    }
  }

  lemma EmptyPath()
    ensures IdsOf([]) == {} && Distinct([])
  {
  }

  lemma ResumeNothing(h: Graph, r: Outcome, maxDepth: nat, maxSize: nat)
    requires Closed(h) && (r.Within? ==> r.bound <= maxSize)
    ensures Then(h, r, [], maxDepth, maxSize) == r
  {
  }

  lemma ResumePopped(h: Graph, stack: seq<Frame>, bound: nat, maxDepth: nat, maxSize: nat)
    requires Closed(h) && FramesOk(h, stack) && bound <= maxSize && stack != []
    requires stack[|stack| - 1].next == |stack[|stack| - 1].entries|
    ensures Resume(h, stack, bound, maxDepth, maxSize) == Resume(h, stack[..|stack| - 1], bound, maxDepth, maxSize)
  {
  }

  lemma ResumePushed(h: Graph, stack: seq<Frame>, id: nat, bound: nat, maxDepth: nat, maxSize: nat)
    requires Closed(h) && FramesOk(h, stack) && bound <= maxSize && id in h
    ensures var pushed := stack + [Frame(id, h[id].entries, 0)];
      && FramesOk(h, pushed)
      && Resume(h, pushed, bound, maxDepth, maxSize) ==
         Then(h, Entries(h, h[id].entries, 0, PathOf(stack) + [id], bound, maxDepth, maxSize), stack, maxDepth, maxSize)
  {
    PushFrame(h, stack, id);
  }

  lemma VisitStep(h: Graph, o: Object, pending: nat, path: seq<nat>, bound: nat, maxDepth: nat, maxSize: nat)
    requires Closed(h) && KnownObject(h, o) && bound <= maxSize
    ensures Visit(h, o, pending, path, bound, maxDepth, maxSize) ==
      (match o
       case IntObject(n) =>
         if Magnitude(n) >= Decimal.Pow10(MAX_INTEGER_DIGITS) then Refused(IntegerDigitLimit)
         else Added(bound + pending + 1, maxSize)
       case StrObject(s) =>
         if IsScalarText(s) then Added(bound + pending + StringBound(s), maxSize) else Refused(UnsupportedValue)
       case FloatObject(_, finite) => if finite then Added(bound + pending + 1, maxSize) else Refused(NonFinite)
       case Ref(id) =>
         if |path| + 1 > maxDepth then Refused(NestingLimit)
         else if id in path then Refused(CircularReference)
         else if bound + pending + 1 > maxSize then Refused(OutputLimit)
         else Entries(h, h[id].entries, 0, path + [id], bound + pending + 1, maxDepth, maxSize)
       case Unsupported => Refused(UnsupportedValue)
       case _ => Added(bound + pending + 1, maxSize))
  {
  }

  function Added(bound: nat, maxSize: nat): Outcome {
    if bound > maxSize then Refused(OutputLimit) else Within(bound)
  }

  lemma PendingStep(e: Entry)
    ensures e.Element? ==> Pending(e) == Within(0)
    ensures e.KeyedBy? && (e.key.OtherKey? || !IsScalarText(e.key.s)) ==> Pending(e) == Refused(UnsupportedValue)
    ensures e.KeyedBy? && e.key.StrKey? && IsScalarText(e.key.s) ==> Pending(e) == Within(StringBound(e.key.s) + 1)
  {
  }
}
