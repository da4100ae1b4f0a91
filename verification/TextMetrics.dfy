/** The stretch of a document's text that each of its nodes covers. */
module TextMetrics {
  import opened JsonTree
  import opened Fingerprints

  const TEXT_FIELDS: seq<string> := [
    "target", "title", "children", "items", "rows", "cells", "blocks", "inline", "content", "prefix",
    "locator", "suffix", "old", "new", "pairs", "base", "annotation", "caption", "shortCaption", "fallback"]

  const TEXT_KEYS: seq<string> := ["value", "content", "text", "alt"]

  predicate Typed(v: Json) { v.Obj? && "type" in v.fields && v.fields["type"].Str? }

  /** The first of the text fields that holds a string. */
  function OwnText(fields: map<string, Json>, keys: seq<string>): nat
    decreases fields, keys
  {
    if keys == [] then 0
    else if keys[0] in fields && fields[keys[0]].Str? then |fields[keys[0]].s|
    else OwnText(fields, keys[1..])
  }

  /** The text a node has of its own, before that of its children. */
  function Own(v: Json): nat {
    if !Typed(v) then 0
    else
      var kind := v.fields["type"].s;
      if kind == "soft_break" || kind == "cell_wrap" || kind == "hard_break" || kind == "non_breaking_space" then 1
      else OwnText(v.fields, TEXT_KEYS)
  }

  predicate IsContainer(v: Json) { v.Obj? || v.Arr? }

  /** The steps to the children that hold text, in document order. */
  function Steps(v: Json): (r: seq<Step>)
    ensures forall i :: 0 <= i < |r| ==> HasChild(v, r[i])
  {
    match v
    case Obj(fields) => FieldSteps(fields, TEXT_FIELDS)
    case Arr(items) => seq(|items|, i requires 0 <= i < |items| => Item(i))
    case _ => []
  }

  function FieldSteps(fields: map<string, Json>, keys: seq<string>): (r: seq<Step>)
    ensures forall i ::
      0 <= i < |r| ==> r[i].Field? && r[i].key in keys && r[i].key in fields && IsContainer(fields[r[i].key])
    decreases fields, keys
  {
    if keys == [] then []
    else
      var first := if keys[0] in fields && IsContainer(fields[keys[0]]) then [Field(keys[0])] else [];
      first + FieldSteps(fields, keys[1..])
  }

  /** A value as far as its text goes: whether it is a node, its own text, and what it contains. */
  datatype Node = Node(typed: bool, own: nat, kids: seq<Part>)

  datatype Part = Part(step: Step, node: Node)

  function View(v: Json): Node
    decreases v
  {
    Node(Typed(v), Own(v),
      seq(|Steps(v)|, i requires 0 <= i < |Steps(v)| => Part(Steps(v)[i], View(Child(v, Steps(v)[i])))))
  }

  // ----- The recursive measure

  /** All text of a node. */
  function Length(n: Node): nat
    decreases n, 1, 0
  {
    Offset(n, |n.kids|)
  }

  /** The text of a node before its child number `i`. */
  function Offset(n: Node, i: nat): nat
    requires i <= |n.kids|
    decreases n, 0, i
  {
    if i == 0 then n.own else Offset(n, i - 1) + Length(n.kids[i - 1].node)
  }

  type Metrics = map<Address, (nat, nat)>

  /** What the walk records below `a`, children first. */
  ghost function Measure(m: Metrics, n: Node, a: Address, start: nat): Metrics
    decreases n, 1, 0
  {
    var inner := MeasureKids(m, n, a, start, |n.kids|);
    if n.typed then inner[a := (start, Length(n))] else inner
  }

  ghost function MeasureKids(m: Metrics, n: Node, a: Address, start: nat, k: nat): Metrics
    requires k <= |n.kids|
    decreases n, 0, k
  {
    if k == 0 then m
    else Measure(MeasureKids(m, n, a, start, k - 1), n.kids[k - 1].node, At(a, n.kids[k - 1].step),
      start + Offset(n, k - 1))
  }

  // ----- The walk

  /** A node still to visit, or one whose text ends where the walk now is. */
  datatype Visit = Enter(address: Address, node: Node) | Leave(address: Address, start: nat)

  datatype Agenda = Done | Next(top: Visit, rest: Agenda)

  /** The children from `i` on, on top of the stack. */
  function PushKids(n: Node, a: Address, i: nat, stack: Agenda): Agenda
    requires i <= |n.kids|
    decreases |n.kids| - i
  {
    if i == |n.kids| then stack else Next(Enter(At(a, n.kids[i].step), n.kids[i].node), PushKids(n, a, i + 1, stack))
  }

  /** What is left to record. */
  ghost function Finish(m: Metrics, stack: Agenda, cursor: nat): Metrics
    decreases stack
  {
    match stack
    case Done => m
    case Next(Leave(a, start), rest) =>
      Finish(m[a := (start, if cursor >= start then cursor - start else 0)], rest, cursor)
    case Next(Enter(a, n), rest) => Finish(Measure(m, n, a, cursor), rest, cursor + Length(n))
  }

  /** Visiting the children one by one. */
  lemma {:induction false} FinishKids(m: Metrics, n: Node, a: Address, start: nat, i: nat, stack: Agenda)
    requires i <= |n.kids|
    ensures Finish(MeasureKids(m, n, a, start, i), PushKids(n, a, i, stack), start + Offset(n, i)) ==
      Finish(MeasureKids(m, n, a, start, |n.kids|), stack, start + Length(n))
    decreases |n.kids| - i
  {
    if i < |n.kids| { FinishKids(m, n, a, start, i + 1, stack); }
  }

  ghost function Size(n: Node): nat
    decreases n, 1, 0
  {
    2 + SizeKids(n, |n.kids|)
  }

  ghost function SizeKids(n: Node, k: nat): nat
    requires k <= |n.kids|
    decreases n, 0, k
  {
    if k == 0 then 0 else SizeKids(n, k - 1) + Size(n.kids[k - 1].node)
  }

  ghost function Work(stack: Agenda): nat {
    match stack
    case Done => 0
    case Next(Leave(_, _), rest) => 1 + Work(rest)
    case Next(Enter(_, n), rest) => Size(n) + Work(rest)
  }

  lemma {:induction false} WorkOfKids(n: Node, a: Address, i: nat, stack: Agenda)
    requires i <= |n.kids|
    ensures Work(PushKids(n, a, i, stack)) == SizeKids(n, |n.kids|) - SizeKids(n, i) + Work(stack)
    decreases |n.kids| - i
  {
    if i < |n.kids| { WorkOfKids(n, a, i + 1, stack); }
  }

  /** A node's text began no later than where the walk is. */
  ghost predicate Begun(stack: Agenda, cursor: nat) {
    stack.Next? ==> (stack.top.Leave? ==> stack.top.start <= cursor) && Begun(stack.rest, cursor)
  }

  lemma {:induction false} BegunEarlier(stack: Agenda, cursor: nat, later: nat)
    requires Begun(stack, cursor) && cursor <= later
    ensures Begun(stack, later)
  {
    if stack.Next? { BegunEarlier(stack.rest, cursor, later); }
  }

  lemma {:induction false} BegunKids(n: Node, a: Address, i: nat, stack: Agenda, cursor: nat)
    requires i <= |n.kids| && Begun(stack, cursor)
    ensures Begun(PushKids(n, a, i, stack), cursor)
    decreases |n.kids| - i
  {
    if i < |n.kids| { BegunKids(n, a, i + 1, stack, cursor); }
  }

  /** The stack after entering a node: its children, and below them its end. */
  function Entered(a: Address, n: Node, cursor: nat, rest: Agenda): Agenda {
    PushKids(n, a, 0, if n.typed then Next(Leave(a, cursor), rest) else rest)
  }

  lemma {:induction false} EnterStep(m: Metrics, a: Address, n: Node, cursor: nat, rest: Agenda)
    requires Begun(rest, cursor)
    ensures var next := Entered(a, n, cursor, rest);
      && Finish(m, next, cursor + n.own) == Finish(Measure(m, n, a, cursor), rest, cursor + Length(n))
      && Begun(next, cursor + n.own) && Work(next) < Size(n) + Work(rest)
  {
    var stack := if n.typed then Next(Leave(a, cursor), rest) else rest;
    FinishKids(m, n, a, cursor, 0, stack);
    BegunEarlier(rest, cursor, cursor + n.own);
    BegunKids(n, a, 0, stack, cursor + n.own);
    WorkOfKids(n, a, 0, stack);
  }

  /** The walk records exactly what the recursive measure does. */
  method Walk(tree: Node) returns (metrics: Metrics)
    ensures metrics == Measure(map[], tree, Root(0), 0)
  {
    metrics := map[];
    var cursor: nat := 0;
    var pending := Next(Enter(Root(0), tree), Done);
    while pending.Next?
      invariant Finish(metrics, pending, cursor) == Measure(map[], tree, Root(0), 0) && Begun(pending, cursor)
      decreases Work(pending)
    {
      match pending.top {
        case Leave(path, start) =>
          metrics := metrics[path := (start, cursor - start)];
          pending := pending.rest;
        case Enter(path, node) =>
          EnterStep(metrics, path, node, cursor, pending.rest);
          pending := Entered(path, node, cursor, pending.rest);
          cursor := cursor + node.own;
      }
    }
  }

  // ----- The record of one node is not overwritten by another

  predicate Under(x: Address, a: Address) { x == a || (x.At? && Under(x.parent, a)) }

  ghost predicate DistinctSteps(n: Node)
    decreases n
  {
    && (forall i, j :: 0 <= i < j < |n.kids| ==> n.kids[i].step != n.kids[j].step)
    && forall i :: 0 <= i < |n.kids| ==> DistinctSteps(n.kids[i].node)
  }

  function Height(x: Address): nat { if x.At? then 1 + Height(x.parent) else 0 }

  lemma {:induction false} UnderIsHigher(x: Address, a: Address)
    requires Under(x, a)
    ensures Height(x) >= Height(a)
  {
    if x != a { UnderIsHigher(x.parent, a); }
  }

  lemma {:induction false} UnderChild(x: Address, a: Address, step: Step)
    requires Under(x, At(a, step))
    ensures Under(x, a) && x != a
  {
    UnderIsHigher(x, At(a, step));
    if x != At(a, step) { UnderChild(x.parent, a, step); }
  }

  lemma {:induction false} ChildrenApart(x: Address, a: Address, s: Step, t: Step)
    requires s != t && Under(x, At(a, s))
    ensures !Under(x, At(a, t))
  {
    if x == At(a, s) {
      if Under(x, At(a, t)) {
        UnderIsHigher(x.parent, At(a, t));
      }
    } else {
      ChildrenApart(x.parent, a, s, t);
      UnderIsHigher(x.parent, At(a, s));
    }
  }

  ghost predicate Agree(m: Metrics, l: Metrics, x: Address) { (x in m <==> x in l) && (x in m ==> m[x] == l[x]) }

  lemma {:induction false} MeasureElsewhere(m: Metrics, n: Node, a: Address, start: nat, x: Address)
    requires !Under(x, a)
    ensures Agree(Measure(m, n, a, start), m, x)
    decreases n, 1, 0
  {
    forall i | 0 <= i < |n.kids| ensures !Under(x, At(a, n.kids[i].step)) {
      if Under(x, At(a, n.kids[i].step)) { UnderChild(x, a, n.kids[i].step); }
    }
    MeasureKidsElsewhere(m, n, a, start, |n.kids|, x);
  }

  lemma {:induction false} MeasureKidsElsewhere(m: Metrics, n: Node, a: Address, start: nat, k: nat, x: Address)
    requires k <= |n.kids| && forall i :: 0 <= i < k ==> !Under(x, At(a, n.kids[i].step))
    ensures Agree(MeasureKids(m, n, a, start, k), m, x)
    decreases n, 0, k
  {
    if k > 0 {
      MeasureKidsElsewhere(m, n, a, start, k - 1, x);
      MeasureElsewhere(MeasureKids(m, n, a, start, k - 1), n.kids[k - 1].node, At(a, n.kids[k - 1].step),
        start + Offset(n, k - 1), x);
    }
  }

  // ----- Where a path leads, and what was recorded there

  ghost predicate IsPath(n: Node, path: seq<nat>)
    decreases |path|
  {
    path == [] || (path[0] < |n.kids| && IsPath(n.kids[path[0]].node, path[1..]))
  }

  ghost function NodeAt(n: Node, path: seq<nat>): Node
    requires IsPath(n, path)
    decreases |path|
  {
    if path == [] then n else NodeAt(n.kids[path[0]].node, path[1..])
  }

  ghost function AddressAt(n: Node, a: Address, path: seq<nat>): Address
    requires IsPath(n, path)
    decreases |path|
  {
    if path == [] then a else AddressAt(n.kids[path[0]].node, At(a, n.kids[path[0]].step), path[1..])
  }

  /** The text before the node that a path leads to. */
  ghost function StartAt(n: Node, start: nat, path: seq<nat>): nat
    requires IsPath(n, path)
    decreases |path|
  {
    if path == [] then start else StartAt(n.kids[path[0]].node, start + Offset(n, path[0]), path[1..])
  }

  lemma {:induction false} AddressIsUnder(n: Node, a: Address, path: seq<nat>)
    requires IsPath(n, path)
    ensures Under(AddressAt(n, a, path), a)
    decreases |path|
  {
    if path != [] {
      AddressIsUnder(n.kids[path[0]].node, At(a, n.kids[path[0]].step), path[1..]);
      UnderChild(AddressAt(n, a, path), a, n.kids[path[0]].step);
    }
  }

  /** Every typed node has the interval of the recursive preorder measure. */
  lemma {:induction false} MeasureRecords(m: Metrics, n: Node, a: Address, start: nat, path: seq<nat>)
    requires IsPath(n, path) && NodeAt(n, path).typed && DistinctSteps(n)
    ensures var x := AddressAt(n, a, path);
      x in Measure(m, n, a, start) && Measure(m, n, a, start)[x] == (StartAt(n, start, path), Length(NodeAt(n, path)))
    decreases |path|, 1, 0
  {
    if path != [] {
      var step := n.kids[path[0]].step;
      var x := AddressAt(n, a, path);
      AddressIsUnder(n.kids[path[0]].node, At(a, step), path[1..]);
      UnderChild(x, a, step);
      MeasureKidsRecords(m, n, a, start, |n.kids|, path);
    }
  }

  lemma {:induction false} MeasureKidsRecords(m: Metrics, n: Node, a: Address, start: nat, k: nat, path: seq<nat>)
    requires path != [] && path[0] < k <= |n.kids| && IsPath(n, path) && NodeAt(n, path).typed && DistinctSteps(n)
    ensures var x := AddressAt(n, a, path);
      x in MeasureKids(m, n, a, start, k) &&
        MeasureKids(m, n, a, start, k)[x] == (StartAt(n, start, path), Length(NodeAt(n, path)))
    decreases |path|, 0, k
  {
    var kid := n.kids[k - 1];
    var inner := MeasureKids(m, n, a, start, k - 1);
    if path[0] == k - 1 {
      MeasureRecords(inner, kid.node, At(a, kid.step), start + Offset(n, k - 1), path[1..]);
    } else {
      MeasureKidsRecords(m, n, a, start, k - 1, path);
      var x := AddressAt(n, a, path);
      AddressIsUnder(n.kids[path[0]].node, At(a, n.kids[path[0]].step), path[1..]);
      ChildrenApart(x, a, n.kids[path[0]].step, kid.step);
      MeasureElsewhere(inner, kid.node, At(a, kid.step), start + Offset(n, k - 1), x);
    }
  }

  // ----- Intervals nest, and siblings come one after the other

  lemma {:induction false} OffsetsGrow(n: Node, i: nat, j: nat)
    requires i < j <= |n.kids|
    ensures Offset(n, i) + Length(n.kids[i].node) <= Offset(n, j)
    decreases j
  {
    if i < j - 1 { OffsetsGrow(n, i, j - 1); }
  }

  /** The text of a node below another lies within the text of that other. */
  lemma {:induction false} IntervalsNest(n: Node, start: nat, path: seq<nat>)
    requires IsPath(n, path)
    ensures start <= StartAt(n, start, path) && StartAt(n, start, path) + Length(NodeAt(n, path)) <= start + Length(n)
    decreases |path|
  {
    if path != [] {
      IntervalsNest(n.kids[path[0]].node, start + Offset(n, path[0]), path[1..]);
      OffsetsGrow(n, path[0], |n.kids|);
    }
  }

  /** What lies below an earlier child ends before anything below a later one begins. */
  lemma {:induction false} SiblingsFollow(n: Node, start: nat, path: seq<nat>, later: seq<nat>)
    requires IsPath(n, path) && IsPath(n, later) && path != [] && later != [] && path[0] < later[0]
    ensures StartAt(n, start, path) + Length(NodeAt(n, path)) <= StartAt(n, start, later)
  {
    IntervalsNest(n.kids[path[0]].node, start + Offset(n, path[0]), path[1..]);
    IntervalsNest(n.kids[later[0]].node, start + Offset(n, later[0]), later[1..]);
    OffsetsGrow(n, path[0], later[0]);
  }

  // ----- Trees read from JSON have no two children at one step

  lemma {:induction false} FieldStepsDistinct(fields: map<string, Json>, keys: seq<string>)
    requires forall i, j :: 0 <= i < j < |keys| ==> keys[i] != keys[j]
    ensures forall i, j ::
      0 <= i < j < |FieldSteps(fields, keys)| ==> FieldSteps(fields, keys)[i] != FieldSteps(fields, keys)[j]
  {
    if keys != [] {
      FieldStepsDistinct(fields, keys[1..]);
      var rest := FieldSteps(fields, keys[1..]);
      forall j | 0 <= j < |rest| ensures rest[j] != Field(keys[0]) { assert rest[j].key in keys[1..]; }
    }
  }

  lemma {:induction false} ViewIsDistinct(v: Json)
    ensures DistinctSteps(View(v))
    decreases v
  {
    if v.Obj? { FieldStepsDistinct(v.fields, TEXT_FIELDS); }
    forall i | 0 <= i < |Steps(v)| ensures DistinctSteps(View(v).kids[i].node) {
      ViewIsDistinct(Child(v, Steps(v)[i]));
    }
  }

  /** Of a JSON tree, each typed node reached over text fields has the interval of the recursive measure. */
  method MeasureText(ast: Json) returns (metrics: Metrics)
    ensures metrics == Measure(map[], View(ast), Root(0), 0)
    ensures forall path {:trigger IsPath(View(ast), path)} ::
      IsPath(View(ast), path) && NodeAt(View(ast), path).typed ==>
      && AddressAt(View(ast), Root(0), path) in metrics
      && metrics[AddressAt(View(ast), Root(0), path)] == (StartAt(View(ast), 0, path), Length(NodeAt(View(ast), path)))
  {
    metrics := Walk(View(ast));
    ViewIsDistinct(ast);
    forall path | IsPath(View(ast), path) && NodeAt(View(ast), path).typed
      ensures AddressAt(View(ast), Root(0), path) in metrics
      ensures metrics[AddressAt(View(ast), Root(0), path)] ==
        (StartAt(View(ast), 0, path), Length(NodeAt(View(ast), path)))
    {
      MeasureRecords(map[], View(ast), Root(0), 0, path);
    }
  }
}
