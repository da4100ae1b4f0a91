/** Structural interning: equal ids stand for equal trees once metadata is left out. */
module Fingerprints {
  import opened JsonTree
  import opened Ordering

  /** Which metadata an index ignores, and where. */
  datatype Policy = Policy(stripSourceLength: bool, preserveKeyValues: bool) {
    predicate Keeps(key: string, strip: bool) {
      !strip || (key != "pos" && (!stripSourceLength || key != "srcByteLength"))
    }

    function Below(key: string, strip: bool): bool {
      strip && !(preserveKeyValues && key == "keyValues")
    }
  }

  /** The policy of merging and patching. */
  const EXCHANGE := Policy(true, true)

  /** What an id stands for. Only the exchange policy compares numbers by value; the other compares spellings. */
  function Meaning(v: Json, strip: bool, p: Policy): Json
    decreases v
  {
    match v
    case Num(number) => Num(if p.stripSourceLength then number.Plain() else number)
    case Arr(items) => Arr(seq(|items|, i requires 0 <= i < |items| => Meaning(items[i], strip, p)))
    case Obj(fields) => Obj(map k | k in fields && p.Keeps(k, strip) :: Meaning(fields[k], p.Below(k, strip), p))
    case _ => v
  }

  lemma {:induction false} MeaningIsCleanForm(v: Json, strip: bool)
    ensures Meaning(v, strip, EXCHANGE) == Canon(Clean(v, strip))
    decreases v
  {
    match v
    case Arr(items) =>
      forall i | 0 <= i < |items| ensures Meaning(items[i], strip, EXCHANGE) == Canon(Clean(items[i], strip)) {
        MeaningIsCleanForm(items[i], strip);
      }
      assert Meaning(v, strip, EXCHANGE).items == Canon(Clean(v, strip)).items;
    case Obj(fields) =>
      forall k | k in fields
        ensures Meaning(fields[k], StripBelow(k, strip), EXCHANGE) == Canon(Clean(fields[k], StripBelow(k, strip)))
      {
        MeaningIsCleanForm(fields[k], StripBelow(k, strip));
      }
      assert Meaning(v, strip, EXCHANGE).fields == Canon(Clean(v, strip)).fields;
    case _ =>
  }

  // ----- Borrowed values: a root and the way down from it play the role of a pointer

  datatype Step = Item(i: nat) | Field(key: string)

  datatype Address = Root(root: nat) | At(parent: Address, step: Step)

  predicate HasChild(v: Json, step: Step) {
    match step
    case Item(i) => v.Arr? && i < |v.items|
    case Field(k) => v.Obj? && k in v.fields
  }

  function Child(v: Json, step: Step): (c: Json)
    requires HasChild(v, step)
    ensures c < v
  {
    match step
    case Item(i) => v.items[i]
    case Field(k) => v.fields[k]
  }

  /** The address leads to a value of one of the roots. */
  predicate Known(roots: seq<Json>, a: Address)
    decreases a, 0
  {
    match a
    case Root(r) => r < |roots|
    case At(parent, step) => Known(roots, parent) && HasChild(ValueAt(roots, parent), step)
  }

  function ValueAt(roots: seq<Json>, a: Address): Json
    requires Known(roots, a)
    decreases a, 1
  {
    match a
    case Root(r) => roots[r]
    case At(parent, step) => Child(ValueAt(roots, parent), step)
  }

  // ----- The children an id depends on, in iteration order

  datatype Kid = Kid(step: Step, strip: bool)

  predicate AreKids(v: Json, kids: seq<Kid>) { forall i :: 0 <= i < |kids| ==> HasChild(v, kids[i].step) }

  function Kids(v: Json, strip: bool, p: Policy): (r: seq<Kid>)
    ensures AreKids(v, r)
  {
    match v
    case Arr(items) => seq(|items|, i requires 0 <= i < |items| => Kid(Item(i), strip))
    case Obj(fields) =>
      var keys := SortedKeys(set k | k in fields && p.Keeps(k, strip));
      assert forall i :: 0 <= i < |keys| ==> keys[i] in keys;
      seq(|keys|, i requires 0 <= i < |keys| => Kid(Field(keys[i]), p.Below(keys[i], strip)))
    case _ => []
  }

  datatype Key =
    | NullKey
    | BoolKey(b: bool)
    | NumberKey(number: Number)
    | SpelledKey(spelling: Number)
    | StringKey(s: string)
    | ArrayKey(ids: seq<nat>)
    | ObjectKey(entries: seq<(string, nat)>)

  /** The key built for a value from the ids of its children. */
  function KeyOf(v: Json, kids: seq<Kid>, childIds: seq<nat>, p: Policy): Key
    requires |kids| == |childIds|
    requires v.Obj? ==> AreKids(v, kids)
  {
    match v
    case Null => NullKey
    case Bool(b) => BoolKey(b)
    case Num(number) => if p.stripSourceLength then NumberKey(number.Plain()) else SpelledKey(number)
    case Str(s) => StringKey(s)
    case Arr(_) => ArrayKey(childIds)
    case Obj(_) => ObjectKey(seq(|kids|, i requires 0 <= i < |kids| => (kids[i].step.key, childIds[i])))
  }

  function Names(entries: seq<(string, nat)>): seq<string> {
    seq(|entries|, i requires 0 <= i < |entries| => entries[i].0)
  }

  /** `key` describes `tree`, its child ids being indexes into `trees`. */
  ghost predicate Describes(key: Key, tree: Json, trees: seq<Json>, p: Policy) {
    match key
    case NullKey => tree == Null
    case BoolKey(b) => tree == Bool(b)
    case NumberKey(number) => p.stripSourceLength && tree == Num(number)
    case SpelledKey(number) => !p.stripSourceLength && tree == Num(number)
    case StringKey(s) => tree == Str(s)
    case ArrayKey(ids) =>
      tree.Arr? && |tree.items| == |ids| &&
        forall i :: 0 <= i < |ids| ==> ids[i] < |trees| && trees[ids[i]] == tree.items[i]
    case ObjectKey(entries) =>
      tree.Obj? && Names(entries) == SortedKeys(tree.fields.Keys) &&
      forall i :: 0 <= i < |entries| ==>
        && entries[i].0 in tree.fields && entries[i].1 < |trees|
        && trees[entries[i].1] == tree.fields[entries[i].0]
  }

  ghost predicate Distinct<T>(s: seq<T>) { forall i, j :: 0 <= i < j < |s| ==> s[i] != s[j] }

  lemma {:induction false} KeyOfTreeIsUnique(k: Key, l: Key, tree: Json, trees: seq<Json>, p: Policy)
    requires Distinct(trees) && Describes(k, tree, trees, p) && Describes(l, tree, trees, p)
    ensures k == l
  {
    match k
    case ArrayKey(ids) => assert ids == l.ids;
    case ObjectKey(entries) =>
      forall i | 0 <= i < |entries| ensures entries[i] == l.entries[i] {
        assert Names(entries)[i] == Names(l.entries)[i];
      }
    case _ =>
  }

  lemma {:induction false} TreeOfKeyIsUnique(k: Key, t: Json, u: Json, trees: seq<Json>, p: Policy)
    requires Describes(k, t, trees, p) && Describes(k, u, trees, p)
    ensures t == u
  {
    match k
    case ArrayKey(ids) => assert t.items == u.items;
    case ObjectKey(entries) => ObjectOfKeyIsUnique(entries, t, u, trees, p);
    case _ =>
  }

  lemma {:induction false} SortedKeysInjective(a: set<string>, b: set<string>)
    requires SortedKeys(a) == SortedKeys(b)
    ensures a == b
  {
    forall x ensures x in a <==> x in b { assert x in SortedKeys(a) <==> x in a; }
  }

  lemma {:induction false} ObjectOfKeyIsUnique(entries: seq<(string, nat)>, t: Json, u: Json, trees: seq<Json>,
      p: Policy)
    requires Describes(ObjectKey(entries), t, trees, p) && Describes(ObjectKey(entries), u, trees, p)
    ensures t == u
  {
    SortedKeysInjective(t.fields.Keys, u.fields.Keys);
    forall x | x in t.fields ensures t.fields[x] == u.fields[x] {
      var i := EntryOf(entries, t.fields.Keys, x);
    }
    assert t.fields == u.fields;
  }

  lemma {:induction false} EntryOf(entries: seq<(string, nat)>, keys: set<string>, x: string) returns (i: nat)
    requires Names(entries) == SortedKeys(keys) && x in keys
    ensures i < |entries| && entries[i].0 == x
  {
    assert x in SortedKeys(keys);
    i :| 0 <= i < |Names(entries)| && Names(entries)[i] == x;
  }

  lemma {:induction false} DescribesInLonger(k: Key, t: Json, trees: seq<Json>, more: seq<Json>, p: Policy)
    requires Describes(k, t, trees, p)
    ensures Describes(k, t, trees + more, p)
  {
    var all := trees + more;
    forall i | 0 <= i < |trees| ensures all[i] == trees[i] {}
    match k
    case ArrayKey(ids) =>
    case ObjectKey(entries) =>
    case _ =>
  }

  /** `id` is that of the tree of the `i`-th child. */
  ghost predicate ChildMeans(trees: seq<Json>, id: nat, v: Json, strip: bool, p: Policy, i: nat)
    requires i < |Kids(v, strip, p)|
  {
    var kid := Kids(v, strip, p)[i];
    id < |trees| && trees[id] == Meaning(Child(v, kid.step), kid.strip, p)
  }

  lemma {:induction false} KeyOfDescribes(v: Json, strip: bool, ids: seq<nat>, trees: seq<Json>, p: Policy)
    requires |ids| == |Kids(v, strip, p)|
    requires forall i :: 0 <= i < |ids| ==> ChildMeans(trees, ids[i], v, strip, p, i)
    ensures Describes(KeyOf(v, Kids(v, strip, p), ids, p), Meaning(v, strip, p), trees, p)
  {
    match v
    case Arr(items) =>
      forall i | 0 <= i < |ids| ensures trees[ids[i]] == Meaning(items[i], strip, p) {
        assert ChildMeans(trees, ids[i], v, strip, p, i);
        assert Kids(v, strip, p)[i] == Kid(Item(i), strip);
      }
    case Obj(fields) => ObjectKeyDescribes(v, strip, ids, trees, p);
    case _ =>
  }

  lemma {:induction false} ObjectKeyDescribes(v: Json, strip: bool, ids: seq<nat>, trees: seq<Json>, p: Policy)
    requires v.Obj? && |ids| == |Kids(v, strip, p)|
    requires forall i :: 0 <= i < |ids| ==> ChildMeans(trees, ids[i], v, strip, p, i)
    ensures Describes(KeyOf(v, Kids(v, strip, p), ids, p), Meaning(v, strip, p), trees, p)
  {
    var kids := Kids(v, strip, p);
    var kept := set k | k in v.fields && p.Keeps(k, strip);
    var keys := SortedKeys(kept);
    var tree := Meaning(v, strip, p);
    assert tree.fields.Keys == kept;
    var entries := KeyOf(v, kids, ids, p).entries;
    forall i | 0 <= i < |keys|
      ensures entries[i] == (keys[i], ids[i]) && trees[ids[i]] == tree.fields[keys[i]]
    {
      assert keys[i] in keys && ChildMeans(trees, ids[i], v, strip, p, i);
      assert kids[i] == Kid(Field(keys[i]), p.Below(keys[i], strip));
    }
    assert Names(entries) == keys;
  }

  // ----- Termination of the walk: every visit replaces a subtree by its children and one revisit

  ghost function Weight(v: Json, strip: bool, p: Policy): nat
    decreases v, 1, 0
  {
    2 + KidsWeight(v, Kids(v, strip, p), p)
  }

  ghost function KidsWeight(v: Json, kids: seq<Kid>, p: Policy): nat
    requires AreKids(v, kids)
    decreases v, 0, |kids|
  {
    if kids == [] then 0
    else
      var last := kids[|kids| - 1];
      KidsWeight(v, kids[..|kids| - 1], p) + Weight(Child(v, last.step), last.strip, p)
  }

  /** A value to intern, visited for the first or the second time. */
  datatype Visit = Visit(address: Address, strip: bool, entered: bool)

  /** The walk's stack of visits still to make. */
  datatype Stack = Empty | Push(top: Visit, rest: Stack)

  /** The children go on the stack in order, so the last one ends on top. */
  function PushKids(a: Address, kids: seq<Kid>, stack: Stack): Stack {
    if kids == [] then stack
    else
      var last := kids[|kids| - 1];
      Push(Visit(At(a, last.step), last.strip, false), PushKids(a, kids[..|kids| - 1], stack))
  }

  ghost function KidSet(a: Address, kids: seq<Kid>): set<(Address, bool)> {
    set k | 0 <= k < |kids| :: (At(a, kids[k].step), kids[k].strip)
  }

  ghost predicate AllKnown(roots: seq<Json>, stack: Stack) {
    stack.Push? ==> Known(roots, stack.top.address) && AllKnown(roots, stack.rest)
  }

  ghost function StackWeight(roots: seq<Json>, stack: Stack, p: Policy): nat
    requires AllKnown(roots, stack)
  {
    match stack
    case Empty => 0
    case Push(e, rest) =>
      StackWeight(roots, rest, p) + if e.entered then 1 else Weight(ValueAt(roots, e.address), e.strip, p)
  }

  /** Every child of an entered value is ready (interned, or on the stack above it). */
  ghost predicate Supported(roots: seq<Json>, ready: set<(Address, bool)>, p: Policy, stack: Stack)
    requires AllKnown(roots, stack)
    decreases stack
  {
    match stack
    case Empty => true
    case Push(e, rest) =>
      && (e.entered ==> KidSet(e.address, Kids(ValueAt(roots, e.address), e.strip, p)) <= ready)
      && Supported(roots, ready + {(e.address, e.strip)}, p, rest)
  }

  lemma {:induction false} SupportedByMore(roots: seq<Json>, ready: set<(Address, bool)>, more: set<(Address, bool)>,
      p: Policy, stack: Stack)
    requires AllKnown(roots, stack) && Supported(roots, ready, p, stack) && ready <= more
    ensures Supported(roots, more, p, stack)
    decreases stack
  {
    if stack.Push? {
      var x := (stack.top.address, stack.top.strip);
      SupportedByMore(roots, ready + {x}, more + {x}, p, stack.rest);
    }
  }

  lemma {:induction false} PushedKids(roots: seq<Json>, ready: set<(Address, bool)>, p: Policy, a: Address,
      kids: seq<Kid>, stack: Stack)
    requires AllKnown(roots, stack) && Known(roots, a) && AreKids(ValueAt(roots, a), kids)
    requires Supported(roots, ready + KidSet(a, kids), p, stack)
    ensures AllKnown(roots, PushKids(a, kids, stack))
    ensures Supported(roots, ready, p, PushKids(a, kids, stack))
    ensures StackWeight(roots, PushKids(a, kids, stack), p) ==
            StackWeight(roots, stack, p) + KidsWeight(ValueAt(roots, a), kids, p)
    decreases |kids|
  {
    if kids == [] {
      assert ready + KidSet(a, kids) == ready;
    } else {
      var init, last := kids[..|kids| - 1], kids[|kids| - 1];
      var x := (At(a, last.step), last.strip);
      forall y | y in KidSet(a, kids) ensures y in KidSet(a, init) + {x} {
        var k :| 0 <= k < |kids| && y == (At(a, kids[k].step), kids[k].strip);
        assert k < |init| ==> init[k] == kids[k];
      }
      SupportedByMore(roots, ready + KidSet(a, kids), ready + {x} + KidSet(a, init), p, stack);
      PushedKids(roots, ready + {x}, p, a, init, stack);
    }
  }

  /** Ids number the distinct keys, and each key describes the tree of its id. */
  ghost predicate TableDescribes(keys: map<Key, nat>, table: seq<Key>, trees: seq<Json>, p: Policy) {
    && |table| == |trees| == |keys|
    && Distinct(trees)
    && (forall i ::
      0 <= i < |table| ==> table[i] in keys && keys[table[i]] == i && Describes(table[i], trees[i], trees, p))
    && (forall k :: k in keys ==> keys[k] < |table| && table[keys[k]] == k)
  }

  ghost predicate IdMeans(roots: seq<Json>, ids: map<(Address, bool), nat>, trees: seq<Json>, p: Policy,
      x: (Address, bool)) {
    x in ids && Known(roots, x.0) && ids[x] < |trees| && trees[ids[x]] == Meaning(ValueAt(roots, x.0), x.1, p)
  }

  /** Each interned value has the id of its tree. */
  ghost predicate IdsMean(roots: seq<Json>, ids: map<(Address, bool), nat>, trees: seq<Json>, p: Policy) {
    forall x {:trigger IdMeans(roots, ids, trees, p, x)} :: x in ids ==> IdMeans(roots, ids, trees, p, x)
  }

  ghost predicate KidsReady(roots: seq<Json>, done: set<(Address, bool)>, p: Policy, x: (Address, bool)) {
    Known(roots, x.0) && KidSet(x.0, Kids(ValueAt(roots, x.0), x.1, p)) <= done
  }

  /** Everything an interned value depends on is interned. */
  ghost predicate Closed(roots: seq<Json>, done: set<(Address, bool)>, p: Policy) {
    forall x {:trigger KidsReady(roots, done, p, x)} :: x in done ==> KidsReady(roots, done, p, x)
  }

  lemma {:induction false} OneMoreId(roots: seq<Json>, ids: map<(Address, bool), nat>, trees: seq<Json>,
      more: seq<Json>, p: Policy, a: Address, strip: bool, id: nat)
    requires IdsMean(roots, ids, trees, p) && Closed(roots, ids.Keys, p) && trees <= more
    requires Known(roots, a) && KidSet(a, Kids(ValueAt(roots, a), strip, p)) <= ids.Keys
    requires id < |more| && more[id] == Meaning(ValueAt(roots, a), strip, p)
    ensures IdsMean(roots, ids[(a, strip) := id], more, p) && Closed(roots, ids[(a, strip) := id].Keys, p)
  {
    var next := ids[(a, strip) := id];
    forall x | x in next ensures IdMeans(roots, next, more, p, x) && KidsReady(roots, next.Keys, p, x) {
      assert x in ids ==> IdMeans(roots, ids, trees, p, x) && KidsReady(roots, ids.Keys, p, x);
    }
  }

  /** The first visit that was put on the stack is of the root at this address. */
  ghost predicate Bottom(stack: Stack, a: Address) {
    stack.Push? && if stack.rest.Empty? then stack.top.address == a && stack.top.strip else Bottom(stack.rest, a)
  }

  lemma {:induction false} PushedBottom(a: Address, kids: seq<Kid>, stack: Stack, root: Address)
    requires Bottom(stack, root)
    ensures Bottom(PushKids(a, kids, stack), root)
    decreases |kids|
  {
    if kids != [] { PushedBottom(a, kids[..|kids| - 1], stack, root); }
  }

  /** The stack that replaces one whose top is visited for the first time. */
  function Entered(roots: seq<Json>, p: Policy, pending: Stack): Stack
    requires pending.Push? && Known(roots, pending.top.address)
  {
    var top := pending.top;
    PushKids(top.address, Kids(ValueAt(roots, top.address), top.strip, p), Push(top.(entered := true), pending.rest))
  }

  /** The walk will intern the root, and never interns a value before its children. */
  ghost predicate Walk(roots: seq<Json>, done: set<(Address, bool)>, p: Policy, pending: Stack, root: Address) {
    && AllKnown(roots, pending) && Supported(roots, done, p, pending)
    && ((root, true) in done || Bottom(pending, root))
  }

  // Each of the three things the walk does with the top of its stack keeps it going and makes it shorter.

  lemma {:induction false} DropTop(roots: seq<Json>, done: set<(Address, bool)>, p: Policy, pending: Stack,
      root: Address)
    requires pending.Push? && Walk(roots, done, p, pending, root)
    requires (pending.top.address, pending.top.strip) in done
    ensures Walk(roots, done, p, pending.rest, root)
    ensures StackWeight(roots, pending.rest, p) < StackWeight(roots, pending, p)
  {
    SupportedByMore(roots, done + {(pending.top.address, pending.top.strip)}, done, p, pending.rest);
  }

  lemma {:induction false} EnterTop(roots: seq<Json>, done: set<(Address, bool)>, p: Policy, pending: Stack,
      root: Address)
    requires pending.Push? && Walk(roots, done, p, pending, root) && !pending.top.entered
    ensures Walk(roots, done, p, Entered(roots, p, pending), root)
    ensures StackWeight(roots, Entered(roots, p, pending), p) < StackWeight(roots, pending, p)
  {
    var top, rest := pending.top, pending.rest;
    var kids := Kids(ValueAt(roots, top.address), top.strip, p);
    var x := (top.address, top.strip);
    SupportedByMore(roots, done + {x}, done + KidSet(top.address, kids) + {x}, p, rest);
    PushedKids(roots, done, p, top.address, kids, Push(top.(entered := true), rest));
    if (root, true) !in done { PushedBottom(top.address, kids, Push(top.(entered := true), rest), root); }
  }

  lemma {:induction false} LeaveTop(roots: seq<Json>, done: set<(Address, bool)>, more: set<(Address, bool)>, p: Policy,
      pending: Stack, root: Address)
    requires pending.Push? && Walk(roots, done, p, pending, root)
    requires more == done + {(pending.top.address, pending.top.strip)}
    ensures Walk(roots, more, p, pending.rest, root)
    ensures StackWeight(roots, pending.rest, p) < StackWeight(roots, pending, p)
  {
  }

  ghost predicate Extends(ids: map<(Address, bool), nat>, more: map<(Address, bool), nat>) {
    forall x :: x in ids ==> x in more && more[x] == ids[x]
  }

  ghost predicate RootsIn(roots: seq<Json>, done: set<(Address, bool)>) {
    forall r :: 0 <= r < |roots| ==> (Root(r), true) in done
  }

  lemma {:induction false} OneMoreRoot(roots: seq<Json>, root: Json, ids: map<(Address, bool), nat>,
      more: map<(Address, bool), nat>)
    requires RootsIn(roots, ids.Keys) && Extends(ids, more) && (Root(|roots|), true) in more
    ensures RootsIn(roots + [root], more.Keys)
  {
    forall r | 0 <= r < |roots| ensures (Root(r), true) in more {
      assert (Root(r), true) in ids;
    }
  }

  lemma {:induction false} KnownWithMoreRoots(roots: seq<Json>, root: Json, a: Address)
    requires Known(roots, a)
    ensures Known(roots + [root], a) && ValueAt(roots + [root], a) == ValueAt(roots, a)
  {
    if a.At? { KnownWithMoreRoots(roots, root, a.parent); }
  }

  /** A new root leaves what is interned in place. */
  lemma {:induction false} MoreRoots(roots: seq<Json>, root: Json, ids: map<(Address, bool), nat>, trees: seq<Json>,
      p: Policy)
    requires IdsMean(roots, ids, trees, p) && Closed(roots, ids.Keys, p)
    ensures IdsMean(roots + [root], ids, trees, p) && Closed(roots + [root], ids.Keys, p)
  {
    forall x | x in ids ensures IdMeans(roots + [root], ids, trees, p, x) && KidsReady(roots + [root], ids.Keys, p, x) {
      assert IdMeans(roots, ids, trees, p, x) && KidsReady(roots, ids.Keys, p, x);
      KnownWithMoreRoots(roots, root, x.0);
    }
  }

  /** What a value is made of has the ids of its trees. */
  lemma {:induction false} KidMeans(roots: seq<Json>, ids: map<(Address, bool), nat>, trees: seq<Json>, p: Policy,
      address: Address, strip: bool, i: nat)
    requires IdsMean(roots, ids, trees, p) && Known(roots, address)
    requires var kids := Kids(ValueAt(roots, address), strip, p); KidSet(address, kids) <= ids.Keys && i < |kids|
    ensures var value := ValueAt(roots, address);
      var kid := Kids(value, strip, p)[i];
      var x := (At(address, kid.step), kid.strip);
      x in ids && ChildMeans(trees, ids[x], value, strip, p, i)
  {
    var kid := Kids(ValueAt(roots, address), strip, p)[i];
    assert (At(address, kid.step), kid.strip) in KidSet(address, Kids(ValueAt(roots, address), strip, p));
    assert IdMeans(roots, ids, trees, p, (At(address, kid.step), kid.strip));
  }

  /** An index that merging and patching read but do not change. */
  datatype Index = Index(roots: seq<Json>, ids: map<(Address, bool), nat>) {
    /** Equal ids are equal clean forms. */
    ghost predicate Tells(x: (Address, bool), y: (Address, bool))
      requires x in ids && y in ids
    {
      && Known(roots, x.0) && Known(roots, y.0)
      && (ids[x] == ids[y] <==> JsonEqual(Clean(ValueAt(roots, x.0), x.1), Clean(ValueAt(roots, y.0), y.1)))
    }

    ghost predicate IdsTell() { forall x, y {:trigger Tells(x, y)} :: x in ids && y in ids ==> Tells(x, y) }

    /** What an indexed value is made of is indexed too. */
    ghost predicate Sound() { IdsTell() && Closed(roots, ids.Keys, EXCHANGE) }

    predicate Has(a: Address, strip: bool) { Known(roots, a) && (a, strip) in ids }

    function At(a: Address): Json
      requires Known(roots, a)
    {
      ValueAt(roots, a)
    }

    /** The `same` of two present values. */
    predicate Same(a: Address, b: Address, strip: bool)
      requires Has(a, strip) && Has(b, strip)
    {
      ids[(a, strip)] == ids[(b, strip)]
    }

    lemma {:induction false} SameMeansSameCleanForm(a: Address, b: Address, strip: bool)
      requires Sound() && Has(a, strip) && Has(b, strip)
      ensures Same(a, b, strip) <==> JsonEqual(Clean(At(a), strip), Clean(At(b), strip))
    {
      assert Tells((a, strip), (b, strip));
    }

    lemma {:induction false} HasItem(a: Address, strip: bool, i: nat)
      requires Sound() && Has(a, strip) && At(a).Arr? && i < |At(a).items|
      ensures Has(Address.At(a, Item(i)), strip) && At(Address.At(a, Item(i))) == At(a).items[i]
    {
      var kids := Kids(At(a), strip, EXCHANGE);
      assert kids[i] == Kid(Item(i), strip);
      assert (Address.At(a, kids[i].step), kids[i].strip) in KidSet(a, kids);
      assert KidsReady(roots, ids.Keys, EXCHANGE, (a, strip));
    }

    lemma {:induction false} HasField(a: Address, strip: bool, key: string)
      requires Sound() && Has(a, strip) && At(a).Obj? && key in At(a).fields && Kept(key, strip)
      ensures Has(Address.At(a, Field(key)), StripBelow(key, strip)) &&
        At(Address.At(a, Field(key))) == At(a).fields[key]
    {
      var v := At(a);
      var keys := SortedKeys(set k | k in v.fields && EXCHANGE.Keeps(k, strip));
      assert key in keys;
      var i :| 0 <= i < |keys| && keys[i] == key;
      var kids := Kids(v, strip, EXCHANGE);
      assert kids[i] == Kid(Field(key), StripBelow(key, strip));
      assert (Address.At(a, kids[i].step), kids[i].strip) in KidSet(a, kids);
      assert KidsReady(roots, ids.Keys, EXCHANGE, (a, strip));
    }
  }

  class Fingerprints {
    const policy: Policy
    var roots: seq<Json>
    var keys: map<Key, nat>
    var ids: map<(Address, bool), nat>
    /** The key that got each id, and the tree the id stands for. */
    ghost var table: seq<Key>
    ghost var trees: seq<Json>

    constructor (stripSourceLength: bool, preserveKeyValues: bool)
      ensures Valid() && roots == [] && ids == map[] && policy == Policy(stripSourceLength, preserveKeyValues)
    {
      policy := Policy(stripSourceLength, preserveKeyValues);
      roots, keys, ids, table, trees := [], map[], map[], [], [];
    }

    ghost predicate Consistent()
      reads this
    {
      TableDescribes(keys, table, trees, policy) && IdsMean(roots, ids, trees, policy) &&
        Closed(roots, ids.Keys, policy)
    }

    ghost predicate Valid()
      reads this
    {
      Consistent() && RootsIn(roots, ids.Keys)
    }

    function Id(a: Address, strip: bool): nat
      requires (a, strip) in ids
      reads this
    {
      ids[(a, strip)]
    }

    /** Ids agree exactly when the values agree under the policy. */
    lemma {:induction false} SameIdIffSameMeaning(a: Address, s: bool, b: Address, t: bool)
      requires Valid() && (a, s) in ids && (b, t) in ids
      ensures Known(roots, a) && Known(roots, b)
      ensures Id(a, s) == Id(b, t) <==> Meaning(ValueAt(roots, a), s, policy) == Meaning(ValueAt(roots, b), t, policy)
    {
      assert IdMeans(roots, ids, trees, policy, (a, s)) && IdMeans(roots, ids, trees, policy, (b, t));
    }

    /** What merging and patching rely on: equal ids are equal clean forms. */
    lemma {:induction false} SameIdIffSameCleanForm(a: Address, s: bool, b: Address, t: bool)
      requires Valid() && policy == EXCHANGE && (a, s) in ids && (b, t) in ids
      ensures Known(roots, a) && Known(roots, b)
      ensures Id(a, s) == Id(b, t) <==> JsonEqual(Clean(ValueAt(roots, a), s), Clean(ValueAt(roots, b), t))
    {
      SameIdIffSameMeaning(a, s, b, t);
      MeaningIsCleanForm(ValueAt(roots, a), s);
      MeaningIsCleanForm(ValueAt(roots, b), t);
    }

    /** What a shared borrow of the index can see. */
    function Shared(): Index
      reads this
    {
      Index(roots, ids)
    }

    lemma {:induction false} SharedIsSound()
      requires Valid() && policy == EXCHANGE
      ensures Shared().Sound()
    {
      forall x, y | x in ids && y in ids
        ensures Known(roots, x.0) && Known(roots, y.0)
        ensures ids[x] == ids[y] <==> JsonEqual(Clean(ValueAt(roots, x.0), x.1), Clean(ValueAt(roots, y.0), y.1))
      {
        SameIdIffSameCleanForm(x.0, x.1, y.0, y.1);
      }
    }

    /** Takes the id of a key, or the next free one. */
    method Intern(key: Key, ghost tree: Json) returns (id: nat)
      requires TableDescribes(keys, table, trees, policy) && Describes(key, tree, trees, policy)
      modifies this`keys, this`table, this`trees
      ensures TableDescribes(keys, table, trees, policy) && id < |trees| && trees[id] == tree
      ensures old(trees) <= trees
    {
      if key in keys {
        id := keys[key];
        TreeOfKeyIsUnique(key, tree, trees[id], trees, policy);
      } else {
        id := |keys|;
        forall i | 0 <= i < |trees| ensures trees[i] != tree {
          if trees[i] == tree { KeyOfTreeIsUnique(key, table[i], tree, trees, policy); }
        }
        forall i | 0 <= i < |table| ensures Describes(table[i], trees[i], trees + [tree], policy) {
          DescribesInLonger(table[i], trees[i], trees, [tree], policy);
        }
        DescribesInLonger(key, tree, trees, [tree], policy);
        keys := keys[key := id];
        table, trees := table + [key], trees + [tree];
      }
    }

    /** Gives a value its id once all of its children have theirs. */
    method InternAt(address: Address, strip: bool)
      requires Consistent()
      requires Known(roots, address) && (address, strip) !in ids &&
        KidSet(address, Kids(ValueAt(roots, address), strip, policy)) <= ids.Keys
      modifies this`keys, this`table, this`trees, this`ids
      ensures Consistent()
      ensures ids.Keys == old(ids.Keys) + {(address, strip)} && Extends(old(ids), ids)
    {
      var value := ValueAt(roots, address);
      var childIds := ChildIds(address, strip);
      KeyOfDescribes(value, strip, childIds, trees, policy);
      var id := Intern(KeyOf(value, Kids(value, strip, policy), childIds, policy), Meaning(value, strip, policy));
      OneMoreId(roots, ids, old(trees), trees, policy, address, strip, id);
      ids := ids[(address, strip) := id];
    }

    method ChildIds(address: Address, strip: bool) returns (childIds: seq<nat>)
      requires IdsMean(roots, ids, trees, policy) && Known(roots, address) &&
        KidSet(address, Kids(ValueAt(roots, address), strip, policy)) <= ids.Keys
      ensures var value := ValueAt(roots, address);
        var kids := Kids(value, strip, policy);
        |childIds| == |kids| &&
        forall k :: 0 <= k < |kids| ==> ChildMeans(trees, childIds[k], value, strip, policy, k)
    {
      var value := ValueAt(roots, address);
      var kids := Kids(value, strip, policy);
      childIds := [];
      for i := 0 to |kids|
        invariant |childIds| == i
        invariant forall k :: 0 <= k < i ==> ChildMeans(trees, childIds[k], value, strip, policy, k)
      {
        var x := (At(address, kids[i].step), kids[i].strip);
        KidMeans(roots, ids, trees, policy, address, strip, i);
        childIds := childIds + [ids[x]];
      }
    }

    /** Handles the top of the stack: drops it, enters it, or gives it its id. */
    method VisitTop(pending: Stack, ghost root: Address) returns (next: Stack)
      requires Consistent() && pending.Push? && Walk(roots, ids.Keys, policy, pending, root)
      modifies this`keys, this`table, this`trees, this`ids
      ensures Consistent() && Walk(roots, ids.Keys, policy, next, root) && Extends(old(ids), ids)
      ensures StackWeight(roots, next, policy) < StackWeight(roots, pending, policy)
    {
      var top := pending.top;
      if (top.address, top.strip) in ids {
        DropTop(roots, ids.Keys, policy, pending, root);
        next := pending.rest;
      } else if !top.entered {
        EnterTop(roots, ids.Keys, policy, pending, root);
        next := Entered(roots, policy, pending);
      } else {
        InternAt(top.address, top.strip);
        LeaveTop(roots, old(ids.Keys), ids.Keys, policy, pending, root);
        next := pending.rest;
      }
    }

    /** Interns a whole tree, children before parents, without recursion. */
    method Add(root: Json)
      requires Valid()
      modifies this
      ensures Valid()
      ensures roots == old(roots) + [root]
      ensures Extends(old(ids), ids)
    {
      MoreRoots(roots, root, ids, trees, policy);
      var rootAddress := Root(|roots|);
      roots := roots + [root];
      var pending := Push(Visit(rootAddress, true, false), Empty);
      while pending.Push?
        invariant roots == old(roots) + [root] && Consistent() && Extends(old(ids), ids)
        invariant Walk(roots, ids.Keys, policy, pending, rootAddress)
        decreases StackWeight(roots, pending, policy)
      {
        pending := VisitTop(pending, rootAddress);
      }
      OneMoreRoot(old(roots), root, old(ids), ids);
    }
  }
}
