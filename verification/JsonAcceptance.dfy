/** What the encode-side guard accepts: exactly the graphs that unfold to a valid
    finite tree within the depth and size limits. */
module JsonAcceptance {
  import opened Utf8
  import opened JsonTree
  import opened JsonPreflight
  import Decimal

  /** The graph below `o`, followed without regard to sharing, is the tree `t`. */
  predicate Unfolds(h: Graph, o: Object, t: Tree)
    decreases t
  {
    match t
    case Null => o.NullObject?
    case Bool(b) => o == BoolObject(b)
    case Int(n) => o == IntObject(n)
    case Float(text, finite) => o == FloatObject(text, finite)
    case Str(s) => o == StrObject(s)
    case Arr(items) =>
      && o.Ref? && o.id in h && h[o.id].ListOf? && |h[o.id].entries| == |items|
      && forall i :: 0 <= i < |items| ==> Unfolds(h, h[o.id].entries[i].item, items[i])
    case Obj(members) =>
      && o.Ref? && o.id in h && h[o.id].DictOf? && |h[o.id].entries| == |members|
      && forall i :: 0 <= i < |members| ==>
           && h[o.id].entries[i].KeyedBy? && h[o.id].entries[i].key == StrKey(members[i].key)
           && Unfolds(h, h[o.id].entries[i].item, members[i].value)
  }

  /** A graph unfolds to one tree at most. */
  lemma {:induction false} UnfoldsOnce(h: Graph, o: Object, t: Tree, u: Tree)
    requires Unfolds(h, o, t) && Unfolds(h, o, u)
    ensures t == u
    decreases t
  {
    match t
    case Arr(items) =>
      forall i | 0 <= i < |items| ensures items[i] == u.items[i] {
        UnfoldsOnce(h, h[o.id].entries[i].item, items[i], u.items[i]);
      }
    case Obj(members) =>
      forall i | 0 <= i < |members| ensures members[i] == u.members[i] {
        UnfoldsOnce(h, h[o.id].entries[i].item, members[i].value, u.members[i].value);
      }
    case _ =>
  }

  /** The parts of a container's tree that stand for entries `i` on. */
  predicate UnfoldEntries(h: Graph, entries: seq<Entry>, i: nat, parts: seq<Member>) {
    && i + |parts| == |entries|
    && forall k :: 0 <= k < |parts| ==>
         && Unfolds(h, entries[i + k].item, parts[k].value)
         && KeyMatches(entries[i + k], parts[k].key)
  }

  predicate KeyMatches(e: Entry, key: Text) {
    if e.Element? then key == [] else e.key == StrKey(key)
  }

  function PartBound(e: Entry, part: Member): nat {
    Bound(part.value) + if e.Element? then 0 else StringBound(part.key) + 1
  }

  function PartsBound(entries: seq<Entry>, i: nat, parts: seq<Member>): nat
    requires i + |parts| == |entries|
    decreases |parts|
  {
    if parts == [] then 0 else PartBound(entries[i], parts[0]) + PartsBound(entries, i + 1, parts[1..])
  }

  predicate PartsFit(entries: seq<Entry>, i: nat, parts: seq<Member>, depth: nat) {
    && i + |parts| == |entries|
    && forall k :: 0 <= k < |parts| ==>
         && Valid(parts[k].value) && Depth(parts[k].value) <= depth
         && (entries[i + k].KeyedBy? ==> IsScalarText(parts[k].key))
  }

  // ----- a container's tree and its parts -----

  function PartsOf(t: Tree): seq<Member>
    requires t.Arr? || t.Obj?
  {
    match t
    case Arr(items) => seq(|items|, i requires 0 <= i < |items| => Member([], items[i]))
    case Obj(members) => members
  }

  function TreeOf(c: Container, parts: seq<Member>): Tree {
    match c
    case ListOf(_) => Arr(seq(|parts|, i requires 0 <= i < |parts| => parts[i].value))
    case DictOf(_) => Obj(parts)
  }

  lemma ContainerUnfolds(h: Graph, id: nat, parts: seq<Member>)
    requires Closed(h) && id in h && UnfoldEntries(h, h[id].entries, 0, parts)
    ensures Unfolds(h, Ref(id), TreeOf(h[id], parts)) && PartsOf(TreeOf(h[id], parts)) == parts
  {
  }

  lemma ContainerParts(h: Graph, id: nat, t: Tree)
    requires Closed(h) && id in h && Unfolds(h, Ref(id), t)
    ensures (t.Arr? || t.Obj?) && UnfoldEntries(h, h[id].entries, 0, PartsOf(t))
  {
  }

  predicate Shallow(parts: seq<Member>, depth: nat) {
    forall k :: 0 <= k < |parts| ==> Depth(parts[k].value) <= depth
  }

  lemma ShallowNext(parts: seq<Member>, depth: nat)
    requires parts != []
    ensures Shallow(parts, depth) <==> Depth(parts[0].value) <= depth && Shallow(parts[1..], depth)
  {
    hide Depth;
    if Depth(parts[0].value) <= depth && Shallow(parts[1..], depth) {
      forall k | 0 <= k < |parts| ensures Depth(parts[k].value) <= depth {
        if k > 0 { assert parts[k] == parts[1..][k - 1]; }
      }
    }
  }

  lemma {:induction false} ItemsMeasure(items: seq<Tree>, parts: seq<Member>, entries: seq<Entry>, i: nat, depth: nat)
    requires |items| == |parts| && i + |parts| == |entries|
    requires forall k :: 0 <= k < |items| ==> items[k] == parts[k].value
    requires forall k :: 0 <= k < |entries| ==> entries[k].Element?
    ensures PartsBound(entries, i, parts) == BoundOfItems(items)
    ensures DepthOfItems(items) <= depth <==> Shallow(parts, depth)
    decreases |items|
  {
    hide Shallow;
    if items == [] {
      assert Shallow(parts, depth) by { ShallowNone(parts, depth); }
    } else {
      ItemsMeasure(items[1..], parts[1..], entries, i + 1, depth);
      ShallowNext(parts, depth);
    }
  }

  lemma {:induction false} MembersMeasure(members: seq<Member>, entries: seq<Entry>, i: nat, depth: nat)
    requires i + |members| == |entries|
    requires forall k :: 0 <= k < |entries| ==> entries[k].KeyedBy?
    ensures PartsBound(entries, i, members) == BoundOfMembers(members)
    ensures DepthOfMembers(members) <= depth <==> Shallow(members, depth)
    decreases |members|
  {
    hide Shallow;
    if members == [] {
      assert Shallow(members, depth) by { ShallowNone(members, depth); }
    } else {
      MembersMeasure(members[1..], entries, i + 1, depth);
      ShallowNext(members, depth);
    }
  }

  lemma ShallowNone(parts: seq<Member>, depth: nat)
    requires parts == []
    ensures Shallow(parts, depth)
  {
  }

  /** A container's validity, depth and bound, by its parts. */
  lemma ContainerMeasure(h: Graph, id: nat, t: Tree, depth: nat)
    requires Closed(h) && id in h && Unfolds(h, Ref(id), t)
    ensures t.Arr? || t.Obj?
    ensures |PartsOf(t)| == |h[id].entries|
    ensures Bound(t) == 1 + PartsBound(h[id].entries, 0, PartsOf(t))
    ensures Valid(t) && Depth(t) <= depth + 1 <==> PartsFit(h[id].entries, 0, PartsOf(t), depth)
  {
    match t
    case Arr(items) => ItemsMeasure(items, PartsOf(t), h[id].entries, 0, depth);
    case Obj(members) => MembersMeasure(members, h[id].entries, 0, depth);
  }

  // ----- soundness -----

  /** An accepted visit has a tree within the remaining depth, and the bound grew by
      exactly the tree's. */
  lemma {:induction false} VisitSound(h: Graph, o: Object, pending: nat, path: seq<nat>, bound: nat, maxDepth: nat,
    maxSize: nat) returns (t: Tree)
    requires Closed(h) && KnownObject(h, o) && bound <= maxSize
    requires Visit(h, o, pending, path, bound, maxDepth, maxSize).Within?
    ensures Unfolds(h, o, t) && Valid(t) && (Depth(t) == 0 || |path| + Depth(t) <= maxDepth)
    ensures Visit(h, o, pending, path, bound, maxDepth, maxSize).bound == bound + pending + Bound(t)
    decreases maxSize - bound, 0, 0
  {
    hide Entries, IsScalarText, StringBound, PartsBound, Decimal.Pow10;
    match o
    case NullObject => t := Null;
    case BoolObject(b) => t := Bool(b);
    case IntObject(n) => t := Int(n);
    case FloatObject(text, finite) => t := Float(text, finite);
    case StrObject(s) => t := Str(s);
    case Ref(id) =>
      var parts := EntriesSound(h, h[id].entries, 0, path + [id], bound + pending + 1, maxDepth, maxSize);
      ContainerUnfolds(h, id, parts);
      t := TreeOf(h[id], parts);
      ContainerMeasure(h, id, t, maxDepth - |path| - 1);
  }

  lemma {:induction false} EntriesSound(h: Graph, entries: seq<Entry>, i: nat, path: seq<nat>, bound: nat,
    maxDepth: nat, maxSize: nat) returns (parts: seq<Member>)
    requires Closed(h) && bound <= maxSize && i <= |entries| && |path| <= maxDepth
    requires forall k :: 0 <= k < |entries| ==> KnownObject(h, entries[k].item)
    requires Entries(h, entries, i, path, bound, maxDepth, maxSize).Within?
    ensures UnfoldEntries(h, entries, i, parts) && PartsFit(entries, i, parts, maxDepth - |path|)
    ensures Entries(h, entries, i, path, bound, maxDepth, maxSize).bound == bound + PartsBound(entries, i, parts)
    decreases maxSize - bound, 1, |entries| - i
  {
    hide Visit, IsScalarText, StringBound, Bound, Depth, Valid, Unfolds;
    if i == |entries| {
      parts := [];
    } else {
      var pending := Pending(entries[i]).bound;
      var t := VisitSound(h, entries[i].item, pending, path, bound, maxDepth, maxSize);
      var b := Visit(h, entries[i].item, pending, path, bound, maxDepth, maxSize).bound;
      var rest := EntriesSound(h, entries, i + 1, path, b, maxDepth, maxSize);
      var key := if entries[i].Element? then [] else entries[i].key.s;
      parts := [Member(key, t)] + rest;
      assert parts[1..] == rest;
      forall k | 0 <= k < |parts|
        ensures Unfolds(h, entries[i + k].item, parts[k].value) && KeyMatches(entries[i + k], parts[k].key)
        ensures Valid(parts[k].value) && Depth(parts[k].value) <= maxDepth - |path|
        ensures entries[i + k].KeyedBy? ==> IsScalarText(parts[k].key)
      {
        if k > 0 {
          assert parts[k] == rest[k - 1] && entries[i + k] == entries[i + 1 + (k - 1)];
        }
      }
    }
  }

  // ----- completeness -----

  function TreeSize(t: Tree): (n: nat)
    ensures n >= 1
  {
    match t
    case Arr(items) => 1 + SumItems(items)
    case Obj(members) => 1 + SumMembers(members)
    case _ => 1
  }

  function SumItems(items: seq<Tree>): nat {
    if items == [] then 0 else TreeSize(items[0]) + SumItems(items[1..])
  }

  function SumMembers(members: seq<Member>): nat {
    if members == [] then 0 else TreeSize(members[0].value) + SumMembers(members[1..])
  }

  lemma {:induction false} ItemSmaller(items: seq<Tree>, k: nat)
    requires k < |items|
    ensures TreeSize(items[k]) <= SumItems(items)
    decreases |items|
  {
    if k > 0 { ItemSmaller(items[1..], k - 1); }
  }

  lemma {:induction false} MemberSmaller(members: seq<Member>, k: nat)
    requires k < |members|
    ensures TreeSize(members[k].value) <= SumMembers(members)
    decreases |members|
  {
    if k > 0 { MemberSmaller(members[1..], k - 1); }
  }

  lemma PartSmaller(t: Tree, k: nat)
    requires (t.Arr? || t.Obj?) && k < |PartsOf(t)|
    ensures TreeSize(PartsOf(t)[k].value) < TreeSize(t)
  {
    match t
    case Arr(items) => ItemSmaller(items, k);
    case Obj(members) => MemberSmaller(members, k);
  }

  /** Every container on the path unfolds to a tree larger than `size`, so an object
      with a smaller tree is none of them. */
  ghost predicate Above(h: Graph, path: seq<nat>, size: nat) {
    forall i :: 0 <= i < |path| ==> HasLargerTree(h, path[i], size)
  }

  ghost predicate HasLargerTree(h: Graph, id: nat, size: nat) {
    exists u :: LargerTree(h, id, u, size)
  }

  predicate LargerTree(h: Graph, id: nat, u: Tree, size: nat) {
    Unfolds(h, Ref(id), u) && TreeSize(u) > size
  }

  lemma NotOnPath(h: Graph, path: seq<nat>, id: nat, t: Tree)
    requires Unfolds(h, Ref(id), t) && Above(h, path, TreeSize(t))
    ensures id !in path
  {
    hide Unfolds, TreeSize;
    if id in path {
      var i :| 0 <= i < |path| && path[i] == id;
      assert HasLargerTree(h, path[i], TreeSize(t));
      var u :| LargerTree(h, path[i], u, TreeSize(t));
      UnfoldsOnce(h, Ref(id), t, u);
    }
  }

  lemma AboveParts(h: Graph, path: seq<nat>, id: nat, t: Tree, size: nat)
    requires Unfolds(h, Ref(id), t) && Above(h, path, TreeSize(t)) && size < TreeSize(t)
    ensures Above(h, path + [id], size)
  {
    hide Unfolds;
    var longer := path + [id];
    forall i | 0 <= i < |longer| ensures HasLargerTree(h, longer[i], size) {
      if i < |path| {
        assert HasLargerTree(h, path[i], TreeSize(t));
        var u :| LargerTree(h, path[i], u, TreeSize(t));
        assert LargerTree(h, longer[i], u, size);
      } else {
        assert LargerTree(h, longer[i], t, size);
      }
    }
  }

  lemma {:induction false} VisitComplete(h: Graph, o: Object, t: Tree, pending: nat, path: seq<nat>, bound: nat,
    maxDepth: nat, maxSize: nat)
    requires Closed(h) && KnownObject(h, o) && bound + pending + Bound(t) <= maxSize
    requires Unfolds(h, o, t) && Valid(t) && (Depth(t) == 0 || |path| + Depth(t) <= maxDepth)
    requires Above(h, path, TreeSize(t))
    ensures Visit(h, o, pending, path, bound, maxDepth, maxSize) == Within(bound + pending + Bound(t))
    decreases maxSize - bound, 0, 0
  {
    hide Entries, IsScalarText, StringBound, PartsBound, Decimal.Pow10, TreeSize, Above;
    if o.Ref? {
      ContainerParts(h, o.id, t);
      NotOnPath(h, path, o.id, t);
      ContainerMeasure(h, o.id, t, maxDepth - |path| - 1);
      forall k | 0 <= k < |PartsOf(t)| ensures Above(h, path + [o.id], TreeSize(PartsOf(t)[k].value)) {
        PartSmaller(t, k);
        AboveParts(h, path, o.id, t, TreeSize(PartsOf(t)[k].value));
      }
      EntriesComplete(h, h[o.id].entries, 0, PartsOf(t), path + [o.id], bound + pending + 1, maxDepth, maxSize);
    }
  }

  lemma {:induction false} EntriesComplete(h: Graph, entries: seq<Entry>, i: nat, parts: seq<Member>, path: seq<nat>,
    bound: nat, maxDepth: nat, maxSize: nat)
    requires Closed(h) && i <= |entries| && |path| <= maxDepth
    requires forall k :: 0 <= k < |entries| ==> KnownObject(h, entries[k].item)
    requires UnfoldEntries(h, entries, i, parts) && PartsFit(entries, i, parts, maxDepth - |path|)
    requires bound + PartsBound(entries, i, parts) <= maxSize
    requires forall k :: 0 <= k < |parts| ==> Above(h, path, TreeSize(parts[k].value))
    ensures Entries(h, entries, i, path, bound, maxDepth, maxSize) == Within(bound + PartsBound(entries, i, parts))
    decreases maxSize - bound, 1, |entries| - i
  {
    hide Visit, IsScalarText, StringBound, Bound, Depth, Valid, Unfolds, TreeSize, Above;
    if i < |entries| {
      var pending := Pending(entries[i]).bound;
      assert Unfolds(h, entries[i + 0].item, parts[0].value) && KeyMatches(entries[i + 0], parts[0].key);
      VisitComplete(h, entries[i].item, parts[0].value, pending, path, bound, maxDepth, maxSize);
      var rest := parts[1..];
      forall k | 0 <= k < |rest|
        ensures Unfolds(h, entries[i + 1 + k].item, rest[k].value) && KeyMatches(entries[i + 1 + k], rest[k].key)
        ensures Valid(rest[k].value) && Depth(rest[k].value) <= maxDepth - |path|
        ensures entries[i + 1 + k].KeyedBy? ==> IsScalarText(rest[k].key)
        ensures Above(h, path, TreeSize(rest[k].value))
      {
        assert rest[k] == parts[k + 1] && entries[i + 1 + k] == entries[i + (k + 1)];
      }
      EntriesComplete(h, entries, i + 1, rest, path, bound + pending + Bound(parts[0].value), maxDepth, maxSize);
    }
  }

  // ----- the guard as a whole -----

  ghost predicate Acceptable(h: Graph, value: Object, t: Tree, maxDepth: nat, maxSize: nat) {
    Unfolds(h, value, t) && Valid(t) && Depth(t) <= maxDepth && Bound(t) <= maxSize
  }

  /** Whatever is shared or cyclic in the graph, the guard accepts exactly the finite
      valid trees within the limits. */
  lemma AcceptsIff(h: Graph, value: Object, maxDepth: nat, maxSize: nat)
    requires Closed(h) && KnownObject(h, value)
    ensures Visit(h, value, 0, [], 0, maxDepth, maxSize).Within? <==>
        exists t :: Acceptable(h, value, t, maxDepth, maxSize)
  {
    hide Visit, Unfolds, Valid, Depth, Bound, TreeSize;
    if Visit(h, value, 0, [], 0, maxDepth, maxSize).Within? {
      var t := VisitSound(h, value, 0, [], 0, maxDepth, maxSize);
      assert Acceptable(h, value, t, maxDepth, maxSize);
    }
    if t :| Acceptable(h, value, t, maxDepth, maxSize) {
      VisitComplete(h, value, t, 0, [], 0, maxDepth, maxSize);
    }
  }

  /** Every valid value within the depth limit whose compact UTF-8 form fits is let
      through to the encoder. */
  lemma FittingIsAccepted(h: Graph, value: Object, t: Tree, maxDepth: nat, maxSize: nat)
    requires Closed(h) && KnownObject(h, value)
    requires Unfolds(h, value, t) && Valid(t) && Depth(t) <= maxDepth && EncodedSize(t) <= maxSize
    ensures Visit(h, value, 0, [], 0, maxDepth, maxSize).Within?
  {
    hide Visit, Unfolds, Valid, Depth, Bound, EncodedSize;
    BoundBelowSize(t);
    assert Acceptable(h, value, t, maxDepth, maxSize);
    AcceptsIff(h, value, maxDepth, maxSize);
  }

  // ----- why a value is refused -----

  /** A container that holds this entry. */
  predicate Holds(h: Graph, id: nat, e: Entry) {
    id in h && e in h[id].entries
  }

  /** `path` leads from `value` through containers, each an item of the one before, to
      the container that holds `o`; without a path `o` is the value itself. */
  ghost predicate Reaches(h: Graph, value: Object, path: seq<nat>, o: Object)
    decreases |path|
  {
    if path == [] then o == value
    else
      var last := path[|path| - 1];
      && Reaches(h, value, path[..|path| - 1], Ref(last))
      && exists e :: Holds(h, last, e) && e.item == o
  }

  /** The entry is met below `path`. */
  predicate Meets(h: Graph, path: seq<nat>, e: Entry) {
    path != [] && Holds(h, path[|path| - 1], e)
  }

  /** What the error says of a value met below `path`. */
  predicate Faulty(o: Object, path: seq<nat>, maxDepth: nat, error: Error) {
    match error
    case IntegerDigitLimit => o.IntObject? && Magnitude(o.n) >= Decimal.Pow10(MAX_INTEGER_DIGITS)
    case NonFinite => o.FloatObject? && !o.finite
    case NestingLimit => o.Ref? && |path| >= maxDepth
    case CircularReference => o.Ref? && o.id in path && |path| < maxDepth
    case UnsupportedValue => o.Unsupported? || (o.StrObject? && !IsScalarText(o.s))
    case OutputLimit => false
  }

  predicate BadKey(e: Entry) {
    e.KeyedBy? && (e.key.OtherKey? || !IsScalarText(e.key.s))
  }

  /** The value holds something the error truly says of it. */
  ghost predicate Blames(h: Graph, value: Object, maxDepth: nat, error: Error) {
    || (exists path, o :: Reaches(h, value, path, o) && Faulty(o, path, maxDepth, error))
    || (error == UnsupportedValue && exists path, o, e :: MetKey(h, value, path, o, e))
  }

  ghost predicate MetKey(h: Graph, value: Object, path: seq<nat>, o: Object, e: Entry) {
    Reaches(h, value, path, o) && Meets(h, path, e) && o == e.item && BadKey(e)
  }

  lemma {:induction false} VisitBlames(
    h: Graph, value: Object, o: Object, pending: nat, path: seq<nat>, bound: nat, maxDepth: nat, maxSize: nat)
    requires Closed(h) && KnownObject(h, o) && bound <= maxSize && Reaches(h, value, path, o)
    requires Visit(h, o, pending, path, bound, maxDepth, maxSize).Refused?
    requires Visit(h, o, pending, path, bound, maxDepth, maxSize).error != OutputLimit
    ensures Blames(h, value, maxDepth, Visit(h, o, pending, path, bound, maxDepth, maxSize).error)
    decreases maxSize - bound, 0, 0
  {
    hide Reaches, Entries;
    var error := Visit(h, o, pending, path, bound, maxDepth, maxSize).error;
    if Check(o, path, maxDepth).Refused? {
      assert Faulty(o, path, maxDepth, error);
    } else {
      var inner := path + [o.id];
      assert inner[..|path|] == path && inner[|inner| - 1] == o.id;
      EntriesBlame(h, value, o.id, 0, inner, bound + pending + 1, maxDepth, maxSize);
    }
  }

  lemma {:induction false} EntriesBlame(
    h: Graph, value: Object, id: nat, i: nat, path: seq<nat>, bound: nat, maxDepth: nat, maxSize: nat)
    requires Closed(h) && bound <= maxSize && id in h && i <= |h[id].entries|
    requires path != [] && path[|path| - 1] == id && Reaches(h, value, path[..|path| - 1], Ref(id))
    requires Entries(h, h[id].entries, i, path, bound, maxDepth, maxSize).Refused?
    requires Entries(h, h[id].entries, i, path, bound, maxDepth, maxSize).error != OutputLimit
    ensures Blames(h, value, maxDepth, Entries(h, h[id].entries, i, path, bound, maxDepth, maxSize).error)
    decreases maxSize - bound, 1, |h[id].entries| - i
  {
    hide Visit, Blames;
    var e := h[id].entries[i];
    assert Holds(h, id, e);
    assert Reaches(h, value, path, e.item);
    if Pending(e).Refused? {
      KeyBlamed(h, value, path, e, maxDepth);
    } else if Visit(h, e.item, Pending(e).bound, path, bound, maxDepth, maxSize).Refused? {
      VisitBlames(h, value, e.item, Pending(e).bound, path, bound, maxDepth, maxSize);
    } else {
      EntriesBlame(h, value, id, i + 1, path, Visit(h, e.item, Pending(e).bound, path, bound, maxDepth, maxSize).bound,
        maxDepth, maxSize);
    }
  }

  lemma KeyBlamed(h: Graph, value: Object, path: seq<nat>, e: Entry, maxDepth: nat)
    requires Reaches(h, value, path, e.item) && Meets(h, path, e) && BadKey(e)
    ensures Blames(h, value, maxDepth, UnsupportedValue)
  {
    assert MetKey(h, value, path, e.item, e);
  }

  /** A refusal is true: the value does hold, within reach, what its error names, and
      the output limit is the reason only if no tree within the limits is there. */
  lemma RefusalIsTrue(h: Graph, value: Object, maxDepth: nat, maxSize: nat)
    requires Closed(h) && KnownObject(h, value)
    requires Visit(h, value, 0, [], 0, maxDepth, maxSize).Refused?
    ensures var error := Visit(h, value, 0, [], 0, maxDepth, maxSize).error;
      error != OutputLimit ==> Blames(h, value, maxDepth, error)
    ensures forall t :: !Acceptable(h, value, t, maxDepth, maxSize)
  {
    hide Visit, Blames, Acceptable;
    AcceptsIff(h, value, maxDepth, maxSize);
    assert Reaches(h, value, [], value);
    if Visit(h, value, 0, [], 0, maxDepth, maxSize).error != OutputLimit {
      VisitBlames(h, value, value, 0, [], 0, maxDepth, maxSize);
    }
  }
}
