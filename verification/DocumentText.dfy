/** The text of a document, and where in it the text of each node stands. */
module DocumentText {
  import opened Fingerprints
  import opened JsonTree
  import opened TextMetrics

  // ----- The text of a tree

  /** The first member that holds a string. */
  function FirstString(fields: map<string, Json>, keys: seq<string>): string {
    if keys == [] then ""
    else if keys[0] in fields && fields[keys[0]].Str? then fields[keys[0]].s
    else FirstString(fields, keys[1..])
  }

  /** A break counts as one character; any other node has its value, content, text or alternative, whichever comes
   * first. */
  function OwnString(v: Json): string {
    if !v.Obj? || "type" !in v.fields || !v.fields["type"].Str? then ""
    else if v.fields["type"].s in {"soft_break", "cell_wrap", "hard_break", "non_breaking_space"} then " "
    else FirstString(v.fields, ["value", "content", "text", "alt"])
  }

  /** All text of a tree: its own, then that of its text fields in their order, then that of its items in theirs. */
  ghost function Text(v: Json): string
    decreases v, 1, 0
  {
    match v
    case Obj(_) => OwnString(v) + FieldsText(v, |TEXT_FIELDS|)
    case Arr(items) => ItemsText(v, |items|)
    case _ => ""
  }

  /** The text of the first `n` text fields. */
  ghost function FieldsText(v: Json, n: nat): string
    requires v.Obj? && n <= |TEXT_FIELDS|
    decreases v, 0, n
  {
    if n == 0 then ""
    else
      FieldsText(v, n - 1) + if TEXT_FIELDS[n - 1] in v.fields then Text(v.fields[TEXT_FIELDS[n - 1]]) else ""
  }

  /** The text of the first `n` items. */
  ghost function ItemsText(v: Json, n: nat): string
    requires v.Arr? && n <= |v.items|
    decreases v, 0, n
  {
    if n == 0 then "" else ItemsText(v, n - 1) + Text(v.items[n - 1])
  }

  // ----- The text before a place

  /** A child that is a text field or an item. */
  ghost predicate IsTextStep(v: Json, step: Step) { HasChild(v, step) && (step.Field? ==> step.key in TEXT_FIELDS) }

  /** The text of a value before that of one of its children. */
  ghost function BeforeStep(v: Json, step: Step): string
    requires IsTextStep(v, step)
  {
    match step
    case Item(i) => ItemsText(v, i)
    case Field(key) => OwnString(v) + FieldsText(v, FieldPlace(key))
  }

  ghost function FieldPlace(key: string): (n: nat)
    requires key in TEXT_FIELDS
    ensures n < |TEXT_FIELDS| && TEXT_FIELDS[n] == key
  {
    var n: nat :| n < |TEXT_FIELDS| && TEXT_FIELDS[n] == key;
    n
  }

  /** A place that is reached from the root over text fields and items. */
  ghost predicate Reached(ast: Json, a: Address)
    decreases a, 0
  {
    match a
    case Root(r) => r == 0
    case At(parent, step) => Reached(ast, parent) && IsTextStep(There(ast, parent), step)
  }

  /** The value at such a place. */
  ghost function There(ast: Json, a: Address): Json
    requires Reached(ast, a)
    decreases a, 1
  {
    match a
    case Root(_) => ast
    case At(parent, step) => Child(There(ast, parent), step)
  }

  /** All text before a place. */
  ghost function TextBefore(ast: Json, a: Address): string
    requires Reached(ast, a)
  {
    match a
    case Root(_) => ""
    case At(parent, step) => TextBefore(ast, parent) + BeforeStep(There(ast, parent), step)
  }

  // ----- What the walk measures

  lemma {:induction false} OwnTextIs(fields: map<string, Json>, keys: seq<string>)
    ensures OwnText(fields, keys) == |FirstString(fields, keys)|
  {
    if keys != [] { OwnTextIs(fields, keys[1..]); }
  }

  lemma {:induction false} OwnIs(v: Json)
    ensures Own(v) == |OwnString(v)|
  {
    if v.Obj? { OwnTextIs(v.fields, TEXT_KEYS); }
  }

  /** The steps of the first `n` fields come before those of the others. */
  lemma {:induction false} FieldStepsSplit(fields: map<string, Json>, keys: seq<string>, n: nat)
    requires n <= |keys|
    ensures FieldSteps(fields, keys) == FieldSteps(fields, keys[..n]) + FieldSteps(fields, keys[n..])
  {
    if n == 0 {
      assert keys[..0] == [] && keys[0..] == keys;
    } else {
      assert keys[..n][0] == keys[0] && keys[..n][1..] == keys[1..][..n - 1] && keys[n..] == keys[1..][n - 1..];
      FieldStepsSplit(fields, keys[1..], n - 1);
    }
  }

  lemma {:induction false} FieldStepsOf(fields: map<string, Json>, keys: seq<string>, n: nat)
    requires n < |keys|
    ensures FieldSteps(fields, keys[..n + 1]) == FieldSteps(fields, keys[..n]) +
      if keys[n] in fields && IsContainer(fields[keys[n]]) then [Field(keys[n])] else []
    ensures |FieldSteps(fields, keys[..n + 1])| <= |FieldSteps(fields, keys)|
    ensures forall k :: 0 <= k < |FieldSteps(fields, keys[..n + 1])| ==>
      FieldSteps(fields, keys[..n + 1])[k] == FieldSteps(fields, keys)[k]
  {
    var some := keys[..n + 1];
    FieldStepsSplit(fields, keys, n + 1);
    FieldStepsSplit(fields, some, n);
    assert some[..n] == keys[..n] && some[n..] == [keys[n]];
    assert [keys[n]][1..] == [];
    assert FieldSteps(fields, [keys[n]][1..]) == [];
  }

  // ----- Lengths are sizes of texts

  lemma {:induction false} KidsAre(v: Json)
    ensures |View(v).kids| == |Steps(v)| && View(v).own == Own(v)
    ensures forall i :: 0 <= i < |Steps(v)| ==> View(v).kids[i] == Part(Steps(v)[i], View(Child(v, Steps(v)[i])))
  {
  }

  lemma {:induction false} OneMoreKid(n: Node, i: nat, kid: Node)
    requires i < |n.kids| && n.kids[i].node == kid
    ensures Offset(n, i + 1) == Offset(n, i) + Length(kid) && Offset(n, 0) == n.own
  {
  }

  /** The node holds the items, each with its text. */
  ghost predicate ItemHolds(v: Json, node: Node, i: nat)
    requires v.Arr? && i < |v.items|
  {
    i < |node.kids| && Length(node.kids[i].node) == |Text(v.items[i])|
  }

  lemma {:induction false} ItemsOffset(v: Json, node: Node, n: nat)
    requires v.Arr? && n <= |v.items| && node.own == 0
    requires forall i {:trigger ItemHolds(v, node, i)} :: 0 <= i < n ==> ItemHolds(v, node, i)
    ensures n <= |node.kids| && Offset(node, n) == |ItemsText(v, n)|
  {
    if n > 0 {
      ItemsOffset(v, node, n - 1);
      assert ItemHolds(v, node, n - 1);
      OneMoreKid(node, n - 1, node.kids[n - 1].node);
    }
  }

  /** The number of children that the first `n` text fields hold. */
  ghost function FieldKids(fields: map<string, Json>, n: nat): nat
    requires n <= |TEXT_FIELDS|
  {
    |FieldSteps(fields, TEXT_FIELDS[..n])|
  }

  /** The node holds the field, if it is a container, with its text. */
  ghost predicate FieldHolds(v: Json, node: Node, n: nat)
    requires v.Obj? && n < |TEXT_FIELDS|
  {
    var k, key := FieldKids(v.fields, n), TEXT_FIELDS[n];
    if key in v.fields && IsContainer(v.fields[key]) then
      && FieldKids(v.fields, n + 1) == k + 1 && k < |node.kids|
      && Length(node.kids[k].node) == |Text(v.fields[key])|
    else FieldKids(v.fields, n + 1) == k
  }

  lemma {:induction false} ScalarText(v: Json)
    requires !IsContainer(v)
    ensures Text(v) == ""
  {
  }

  lemma {:induction false} FieldsTextLonger(v: Json, n: nat)
    requires v.Obj? && n < |TEXT_FIELDS|
    ensures |FieldsText(v, n + 1)| == |FieldsText(v, n)| +
      if TEXT_FIELDS[n] in v.fields then |Text(v.fields[TEXT_FIELDS[n]])| else 0
  {
  }

  lemma {:induction false} OneMoreField(v: Json, node: Node, n: nat)
    requires v.Obj? && n < |TEXT_FIELDS| && FieldHolds(v, node, n) && FieldKids(v.fields, n) <= |node.kids|
    ensures FieldKids(v.fields, n + 1) <= |node.kids|
    ensures Offset(node, FieldKids(v.fields, n + 1)) - Offset(node, FieldKids(v.fields, n)) ==
      |FieldsText(v, n + 1)| - |FieldsText(v, n)|
  {
    var k, key := FieldKids(v.fields, n), TEXT_FIELDS[n];
    FieldsTextLonger(v, n);
    if key in v.fields {
      if IsContainer(v.fields[key]) {
        OneMoreKid(node, k, node.kids[k].node);
      } else {
        ScalarText(v.fields[key]);
      }
    }
  }

  lemma {:induction false} FieldsOffset(v: Json, node: Node, n: nat)
    requires v.Obj? && n <= |TEXT_FIELDS| && node.own == |OwnString(v)|
    requires forall i {:trigger FieldHolds(v, node, i)} :: 0 <= i < n ==> FieldHolds(v, node, i)
    ensures FieldKids(v.fields, n) <= |node.kids|
    ensures Offset(node, FieldKids(v.fields, n)) == |OwnString(v)| + |FieldsText(v, n)|
  {
    if n == 0 {
      assert TEXT_FIELDS[..0] == [];
    } else {
      var m: nat := n - 1;
      FieldsOffset(v, node, m);
      assert FieldHolds(v, node, m);
      OneMoreField(v, node, m);
    }
  }

  lemma {:induction false} ItemInView(v: Json, i: nat)
    requires v.Arr? && i < |v.items| && Length(View(v.items[i])) == |Text(v.items[i])|
    ensures ItemHolds(v, View(v), i) && View(v).kids[i].step == Item(i) && View(v).kids[i].node == View(v.items[i])
  {
    KidsAre(v);
    assert Steps(v)[i] == Item(i);
  }

  lemma {:induction false} FieldInView(v: Json, n: nat)
    requires v.Obj? && n < |TEXT_FIELDS|
    requires var key := TEXT_FIELDS[n];
      key in v.fields && IsContainer(v.fields[key]) ==> Length(View(v.fields[key])) == |Text(v.fields[key])|
    ensures FieldHolds(v, View(v), n)
    ensures var k, key := FieldKids(v.fields, n), TEXT_FIELDS[n];
      key in v.fields && IsContainer(v.fields[key]) ==>
        View(v).kids[k].step == Field(key) && View(v).kids[k].node == View(v.fields[key])
  {
    FieldStepsOf(v.fields, TEXT_FIELDS, n);
    KidsAre(v);
    var k, key := FieldKids(v.fields, n), TEXT_FIELDS[n];
    if key in v.fields && IsContainer(v.fields[key]) {
      assert FieldSteps(v.fields, TEXT_FIELDS[..n + 1])[k] == Field(key) == Steps(v)[k];
    }
  }

  lemma {:induction false} AllFieldKids(v: Json)
    requires v.Obj?
    ensures FieldKids(v.fields, |TEXT_FIELDS|) == |View(v).kids|
  {
    KidsAre(v);
    assert TEXT_FIELDS[..|TEXT_FIELDS|] == TEXT_FIELDS;
  }

  lemma {:induction false} ViewOwn(v: Json)
    ensures View(v).own == |OwnString(v)| && (v.Arr? ==> |View(v).kids| == |v.items|) &&
      (!IsContainer(v) ==> View(v).kids == [])
  {
    OwnIs(v);
    KidsAre(v);
  }

  /** The length that is measured is the size of the text. */
  lemma {:induction false} LengthIs(v: Json)
    ensures Length(View(v)) == |Text(v)|
    decreases v
  {
    ViewOwn(v);
    match v
    case Obj(fields) =>
      forall n {:trigger FieldHolds(v, View(v), n)} | 0 <= n < |TEXT_FIELDS| ensures FieldHolds(v, View(v), n) {
        if TEXT_FIELDS[n] in fields { LengthIs(fields[TEXT_FIELDS[n]]); }
        FieldInView(v, n);
      }
      FieldsOffset(v, View(v), |TEXT_FIELDS|);
      AllFieldKids(v);
    case Arr(items) =>
      forall i {:trigger ItemHolds(v, View(v), i)} | 0 <= i < |items| ensures ItemHolds(v, View(v), i) {
        LengthIs(items[i]);
        ItemInView(v, i);
      }
      ItemsOffset(v, View(v), |items|);
    case _ =>
  }

  // ----- Places are paths, and starts are sizes of the text before them

  lemma {:induction false} PathOneMore(n: Node, a: Address, start: nat, path: seq<nat>, k: nat)
    requires IsPath(n, path) && k < |NodeAt(n, path).kids|
    ensures IsPath(n, path + [k]) && NodeAt(n, path + [k]) == NodeAt(n, path).kids[k].node
    ensures AddressAt(n, a, path + [k]) == At(AddressAt(n, a, path), NodeAt(n, path).kids[k].step)
    ensures StartAt(n, start, path + [k]) == StartAt(n, start, path) + Offset(NodeAt(n, path), k)
    decreases |path|
  {
    var more := path + [k];
    if path == [] {
      assert more == [k] && more[1..] == [];
    } else {
      assert more[0] == path[0] && more[1..] == path[1..] + [k];
      var kid := n.kids[path[0]];
      PathOneMore(kid.node, At(a, kid.step), start + Offset(n, path[0]), path[1..], k);
    }
  }

  lemma {:induction false} StepInView(v: Json, step: Step) returns (k: nat)
    requires IsTextStep(v, step) && IsContainer(Child(v, step))
    ensures k < |View(v).kids| && View(v).kids[k].step == step && View(v).kids[k].node == View(Child(v, step))
    ensures Offset(View(v), k) == |BeforeStep(v, step)|
  {
    ViewOwn(v);
    match step
    case Item(i) =>
      k := i;
      forall j {:trigger ItemHolds(v, View(v), j)} | 0 <= j <= i ensures ItemHolds(v, View(v), j) {
        LengthIs(v.items[j]);
        ItemInView(v, j);
      }
      LengthIs(v.items[i]);
      ItemInView(v, i);
      ItemsOffset(v, View(v), i);
    case Field(key) =>
      var place := FieldPlace(key);
      k := FieldKids(v.fields, place);
      forall n {:trigger FieldHolds(v, View(v), n)} | 0 <= n < place ensures FieldHolds(v, View(v), n) {
        if TEXT_FIELDS[n] in v.fields { LengthIs(v.fields[TEXT_FIELDS[n]]); }
        FieldInView(v, n);
      }
      LengthIs(v.fields[key]);
      FieldInView(v, place);
      FieldsOffset(v, View(v), place);
  }

  lemma {:induction false} PathTo(ast: Json, a: Address) returns (path: seq<nat>)
    requires Reached(ast, a) && IsContainer(There(ast, a))
    ensures IsPath(View(ast), path) && AddressAt(View(ast), Root(0), path) == a
    ensures NodeAt(View(ast), path) == View(There(ast, a)) && StartAt(View(ast), 0, path) == |TextBefore(ast, a)|
  {
    match a
    case Root(_) => path := [];
    case At(parent, step) =>
      var above := PathTo(ast, parent);
      var k := StepInView(There(ast, parent), step);
      PathOneMore(View(ast), Root(0), 0, above, k);
      path := above + [k];
  }

  // ----- Nothing else is measured

  lemma {:induction false} MeasuredBelow(m: Metrics, n: Node, a: Address, start: nat, x: Address)
      returns (path: seq<nat>)
    requires x in Measure(m, n, a, start) && x !in m
    ensures IsPath(n, path) && AddressAt(n, a, path) == x && NodeAt(n, path).typed
    decreases n, 1, 0
  {
    if x in MeasureKids(m, n, a, start, |n.kids|) {
      path := MeasuredInKids(m, n, a, start, |n.kids|, x);
    } else {
      path := [];
    }
  }

  lemma {:induction false} MeasuredInKids(m: Metrics, n: Node, a: Address, start: nat, k: nat, x: Address)
      returns (path: seq<nat>)
    requires k <= |n.kids| && x in MeasureKids(m, n, a, start, k) && x !in m
    ensures IsPath(n, path) && AddressAt(n, a, path) == x && NodeAt(n, path).typed
    decreases n, 0, k
  {
    var inner := MeasureKids(m, n, a, start, k - 1);
    if x in inner {
      path := MeasuredInKids(m, n, a, start, k - 1, x);
    } else {
      var kid := n.kids[k - 1];
      var rest := MeasuredBelow(inner, kid.node, At(a, kid.step), start + Offset(n, k - 1), x);
      path := [k - 1] + rest;
      assert path[0] == k - 1 && path[1..] == rest;
    }
  }

  lemma {:induction false} StepsAreText(v: Json, i: nat)
    requires i < |Steps(v)|
    ensures IsTextStep(v, Steps(v)[i])
  {
  }

  lemma {:induction false} PathIsReached(ast: Json, a: Address, path: seq<nat>)
    requires Reached(ast, a) && IsPath(View(There(ast, a)), path)
    ensures var x := AddressAt(View(There(ast, a)), a, path);
      Reached(ast, x) && NodeAt(View(There(ast, a)), path) == View(There(ast, x))
    decreases |path|
  {
    if path != [] {
      var v := There(ast, a);
      KidsAre(v);
      StepsAreText(v, path[0]);
      PathIsReached(ast, At(a, Steps(v)[path[0]]), path[1..]);
    }
  }

  lemma {:induction false} OnlyReached(ast: Json, x: Address)
    requires x in Measure(map[], View(ast), Root(0), 0)
    ensures Reached(ast, x) && Typed(There(ast, x))
  {
    var path := MeasuredBelow(map[], View(ast), Root(0), 0, x);
    PathIsReached(ast, Root(0), path);
  }

  /** A place is measured exactly if it is reached over text fields and holds a node; then its start is the size of the
   * text before it, and its length that of its own text. */
  ghost predicate MeasuredAt(ast: Json, metrics: Metrics, a: Address) {
    && (a in metrics <==> Reached(ast, a) && Typed(There(ast, a)))
    && (a in metrics ==> metrics[a] == (|TextBefore(ast, a)|, |Text(There(ast, a))|))
  }

  lemma {:induction false} NodeIsMeasured(ast: Json, a: Address)
    requires Reached(ast, a) && Typed(There(ast, a))
    ensures var metrics := Measure(map[], View(ast), Root(0), 0);
      a in metrics && metrics[a] == (|TextBefore(ast, a)|, |Text(There(ast, a))|)
  {
    var path := PathTo(ast, a);
    ViewIsDistinct(ast);
    LengthIs(There(ast, a));
    MeasureRecords(map[], View(ast), Root(0), 0, path);
  }

  method MeasureDocument(ast: Json) returns (metrics: Metrics)
    ensures forall a {:trigger MeasuredAt(ast, metrics, a)} :: MeasuredAt(ast, metrics, a)
  {
    metrics := MeasureText(ast);
    forall a {:trigger MeasuredAt(ast, metrics, a)} ensures MeasuredAt(ast, metrics, a) {
      if a in metrics { OnlyReached(ast, a); }
      if Reached(ast, a) && Typed(There(ast, a)) { NodeIsMeasured(ast, a); }
    }
  }

  // ----- Where the text of a node stands

  lemma {:induction false} StillBegins(part: string, whole: string, more: string)
    requires part <= whole
    ensures part <= whole + more
  {
  }

  lemma {:induction false} BeginsBehind(before: string, part: string, whole: string)
    requires part <= whole
    ensures before + part <= before + whole
  {
  }

  lemma {:induction false} BeginsWithin(before: string, part: string, whole: string, first: string, inner: string)
    requires before + part <= whole && first + inner <= part
    ensures (before + first) + inner <= whole
  {
    BeginsBehind(before, first + inner, part);
    assert before + (first + inner) == (before + first) + inner;
  }

  lemma {:induction false} ItemStands(v: Json, i: nat, n: nat)
    requires v.Arr? && i < n <= |v.items|
    ensures ItemsText(v, i) + Text(v.items[i]) <= ItemsText(v, n)
  {
    if i < n - 1 {
      ItemStands(v, i, n - 1);
      StillBegins(ItemsText(v, i) + Text(v.items[i]), ItemsText(v, n - 1), Text(v.items[n - 1]));
    }
  }

  lemma {:induction false} FieldsGoOn(v: Json, part: string, n: nat)
    requires v.Obj? && n < |TEXT_FIELDS| && part <= FieldsText(v, n)
    ensures part <= FieldsText(v, n + 1)
  {
    StillBegins(part, FieldsText(v, n), if TEXT_FIELDS[n] in v.fields then Text(v.fields[TEXT_FIELDS[n]]) else "");
  }

  lemma {:induction false} FieldStands(v: Json, i: nat, n: nat)
    requires v.Obj? && i < n <= |TEXT_FIELDS| && TEXT_FIELDS[i] in v.fields
    ensures FieldsText(v, i) + Text(v.fields[TEXT_FIELDS[i]]) <= FieldsText(v, n)
  {
    if i < n - 1 {
      FieldStands(v, i, n - 1);
      FieldsGoOn(v, FieldsText(v, i) + Text(v.fields[TEXT_FIELDS[i]]), n - 1);
    }
  }

  lemma {:induction false} ChildStands(v: Json, step: Step)
    requires IsTextStep(v, step)
    ensures BeforeStep(v, step) + Text(Child(v, step)) <= Text(v)
  {
    match step
    case Item(i) => ItemStands(v, i, |v.items|);
    case Field(key) =>
      var place := FieldPlace(key);
      FieldStands(v, place, |TEXT_FIELDS|);
      OwnFirst(v, FieldsText(v, place), Text(v.fields[key]));
  }

  lemma {:induction false} OwnFirst(v: Json, before: string, part: string)
    requires v.Obj? && before + part <= FieldsText(v, |TEXT_FIELDS|)
    ensures (OwnString(v) + before) + part <= Text(v)
  {
    BeginsWithin(OwnString(v), FieldsText(v, |TEXT_FIELDS|), Text(v), before, part);
  }

  /** In the text of the document the text of a node stands right behind all that is before it. */
  lemma {:induction false} TextStands(ast: Json, a: Address)
    requires Reached(ast, a)
    ensures TextBefore(ast, a) + Text(There(ast, a)) <= Text(ast)
  {
    match a
    case Root(_) => assert "" + Text(ast) == Text(ast);
    case At(parent, step) =>
      TextStands(ast, parent);
      ChildStands(There(ast, parent), step);
      BeginsWithin(TextBefore(ast, parent), Text(There(ast, parent)), Text(ast), BeforeStep(There(ast, parent), step),
        Text(There(ast, a)));
  }

  /** What lies within a place lies within its text. */
  lemma {:induction false} WithinText(ast: Json, a: Address, x: Address)
    requires Reached(ast, x) && Under(x, a)
    ensures Reached(ast, a) && |TextBefore(ast, a)| <= |TextBefore(ast, x)|
    ensures |TextBefore(ast, x)| + |Text(There(ast, x))| <= |TextBefore(ast, a)| + |Text(There(ast, a))|
  {
    if x != a {
      WithinText(ast, a, x.parent);
      ChildStands(There(ast, x.parent), x.step);
    }
  }

  /** Of two items of one array all text of the earlier ends before any of the later begins. */
  lemma {:induction false} ItemsInOrder(ast: Json, a: Address, i: nat, j: nat, x: Address, y: Address)
    requires Reached(ast, x) && Under(x, At(a, Item(i))) && Reached(ast, y) && Under(y, At(a, Item(j))) && i < j
    ensures |TextBefore(ast, x)| + |Text(There(ast, x))| <= |TextBefore(ast, y)|
  {
    WithinText(ast, At(a, Item(i)), x);
    WithinText(ast, At(a, Item(j)), y);
    ItemStands(There(ast, a), i, j);
  }
}
