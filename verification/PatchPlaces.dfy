/** What one operation of a patch does to a tree, place by place, whoever wrote the patch. */
module PatchPlaces {
  import opened AstPatch
  import opened JsonTree
  import opened Places
  import opened Pointers
  import opened Wrappers
  import Decimal

  /** An index is read exactly if it is a number in decimal, and in range. */
  lemma {:induction false} IndexIs(key: string, length: nat, allowEnd: bool)
    ensures Index(key, length, allowEnd).Ok? <==> exists i: nat :: Numbers(key, i, length, allowEnd)
    ensures Index(key, length, allowEnd).Ok? ==> key == Decimal.Print(Index(key, length, allowEnd).value)
  {
    if Index(key, length, allowEnd).Ok? {
      Decimal.PrintOfValue(key);
      assert Numbers(key, Index(key, length, allowEnd).value, length, allowEnd);
    }
    forall i: nat | Numbers(key, i, length, allowEnd) ensures Index(key, length, allowEnd) == Ok(i) {
      Decimal.ValueOfPrint(i);
    }
  }

  // ----- One change

  /** The change can be made there: an item that is there is named, or for an addition a place behind it; a member that
   * is there, or for an addition any. */
  ghost predicate Fits(v: Option<Json>, key: string, change: Change) {
    v.Some? &&
    match v.value
    case Arr(items) => exists i: nat :: Numbers(key, i, |items|, change.Add?)
    case Obj(fields) => change.Add? || key in fields
    case _ => false
  }

  /** Item `i` was put in, exchanged or taken out; what stood before it stays and what stood behind it moves up. */
  ghost predicate ItemChanged(items: seq<Json>, after: seq<Json>, i: nat, change: Change, strip: bool) {
    match change
    case Add(value) =>
      && i <= |items| && |after| == |items| + 1 && after[i] == Clean(value, strip)
      && (forall j :: 0 <= j < i ==> after[j] == items[j]) && forall j :: i <= j < |items| ==> after[j + 1] == items[j]
    case Replace(value) =>
      && i < |items| == |after| && after[i] == Clean(value, strip)
      && forall j :: 0 <= j < |items| && j != i ==> after[j] == items[j]
    case Remove =>
      && i < |items| == |after| + 1
      && (forall j :: 0 <= j < i ==> after[j] == items[j]) && forall j :: i < j < |items| ==> after[j - 1] == items[j]
  }

  /** The member has the new value, or is gone, and every other stays. */
  ghost predicate MemberChanged(fields: map<string, Json>, after: map<string, Json>, key: string, change: Change,
      strip: bool) {
    && Member(after, key) == (if change.Remove? then None else Some(Clean(change.value, strip)))
    && forall k :: k != key ==> Member(after, k) == Member(fields, k)
  }

  ghost predicate Changed(v: Json, w: Json, key: string, change: Change, strip: bool) {
    match v
    case Arr(items) =>
      w.Arr? && exists i: nat :: key == Decimal.Print(i) && ItemChanged(items, w.items, i, change, strip)
    case Obj(fields) => w.Obj? && MemberChanged(fields, w.fields, key, change, strip)
    case _ => false
  }

  /** The same members, or as many items. */
  ghost predicate SameShape(v: Json, w: Json) {
    || (v.Arr? && w.Arr? && |v.items| == |w.items|)
    || (v.Obj? && w.Obj? && v.fields.Keys == w.fields.Keys)
  }

  /** Two paths that part. */
  predicate Part(p: seq<string>, q: seq<string>) { !(p <= q) && !(q <= p) }

  /** Above the changed container only the values on the way to it are others, and nothing beside the way is. */
  ghost predicate OnlyBelow(v: Json, w: Json, path: seq<string>) {
    && (forall q: seq<string> {:trigger Lookup(w, q)} :: Part(q, path) ==> Lookup(w, q) == Lookup(v, q))
    && (forall q: seq<string> {:trigger Lookup(w, q)} :: q < path ==>
          Lookup(v, q).Some? && Lookup(w, q).Some? && SameShape(Lookup(v, q).value, Lookup(w, q).value))
  }

  // ----- A change deep inside a tree

  /** One child is another now, and nothing else is. */
  ghost predicate ChildReplaced(v: Json, w: Json, key: string, child: Json) {
    && SameShape(v, w) && ChildAt(v, key).Some? && ChildAt(w, key) == Some(child)
    && forall k: string {:trigger ChildAt(w, k)} :: k != key ==> ChildAt(w, k) == ChildAt(v, k)
  }

  lemma {:induction false} ChildAtIndex(items: seq<Json>, key: string)
    ensures ChildAt(Arr(items), key) ==
      match Index(key, |items|, false) { case Ok(i) => Some(items[i]) case Err(_) => None }
  {
    IndexIs(key, |items|, false);
    if Index(key, |items|, false).Ok? { ChildAtItem(items, Index(key, |items|, false).value); }
  }

  lemma {:induction false} ItemReplaced(items: seq<Json>, i: nat, child: Json)
    requires i < |items|
    ensures ChildReplaced(Arr(items), Arr(items[i := child]), Decimal.Print(i), child)
  {
    var after := items[i := child];
    ChildAtItem(items, i);
    ChildAtItem(after, i);
    forall k: string | k != Decimal.Print(i) ensures ChildAt(Arr(after), k) == ChildAt(Arr(items), k) {
      ChildAtIndex(items, k);
      ChildAtIndex(after, k);
      IndexIs(k, |items|, false);
    }
  }

  lemma {:induction false} OnlyBelowChild(v: Json, w: Json, key: string, a: Json, c: Json, rest: seq<string>)
    requires ChildAt(v, key) == Some(a) && ChildReplaced(v, w, key, c) && OnlyBelow(a, c, rest)
    ensures OnlyBelow(v, w, [key] + rest)
  {
    var path := [key] + rest;
    forall q: seq<string> | Part(q, path) ensures Lookup(w, q) == Lookup(v, q) {
      if q != [] && q[0] == key {
        assert q == [key] + q[1..];
        assert Part(q[1..], rest);
      }
    }
    forall q: seq<string> | q < path
      ensures Lookup(v, q).Some? && Lookup(w, q).Some? && SameShape(Lookup(v, q).value, Lookup(w, q).value) {
      if q != [] {
        assert q == path[..|q|] && path[1..] == rest;
        assert q[0] == key && q[1..] == rest[..|q| - 1];
        assert Lookup(c, q[1..]).Some? && Lookup(a, q[1..]).Some?;
      }
    }
  }

  /** What a change at the end of a path does, and when it can be made. */
  ghost predicate ChangedAt(v: Json, w: Json, path: seq<string>, key: string, change: Change, strip: bool) {
    && Lookup(v, path).Some? && Lookup(w, path).Some?
    && Changed(Lookup(v, path).value, Lookup(w, path).value, key, change, strip) && OnlyBelow(v, w, path)
  }

  lemma {:induction false} ApplyToItemIs(items: seq<Json>, key: string, change: Change, strip: bool)
    ensures ApplyToItem(items, key, change, strip).Ok? <==> Fits(Some(Arr(items)), key, change)
    ensures ApplyToItem(items, key, change, strip).Ok? ==>
      Changed(Arr(items), ApplyToItem(items, key, change, strip).value, key, change, strip)
  {
    IndexIs(key, |items|, change.Add?);
    if Index(key, |items|, change.Add?).Ok? {
      ChangeOfItem(items, Index(key, |items|, change.Add?).value, change, strip);
    }
  }

  lemma {:induction false} ChangeOfItem(items: seq<Json>, i: nat, change: Change, strip: bool)
    requires i < if change.Add? then |items| + 1 else |items|
    ensures change.Add? ==>
      ItemChanged(items, items[..i] + [Clean(change.value, strip)] + items[i..], i, change, strip)
    ensures change.Replace? ==> ItemChanged(items, items[i := Clean(change.value, strip)], i, change, strip)
    ensures change.Remove? ==> ItemChanged(items, items[..i] + items[i + 1..], i, change, strip)
  {
  }

  lemma {:induction false} ApplyToMemberIs(fields: map<string, Json>, key: string, change: Change, strip: bool)
    ensures ApplyToMember(fields, key, change, strip).Ok? <==> Fits(Some(Obj(fields)), key, change)
    ensures ApplyToMember(fields, key, change, strip).Ok? ==>
      Changed(Obj(fields), ApplyToMember(fields, key, change, strip).value, key, change, strip)
  {
  }

  lemma {:induction false} AllBelowHere(v: Json, w: Json)
    ensures OnlyBelow(v, w, [])
  {
  }

  lemma {:induction false} ApplyHere(v: Json, key: string, change: Change, strip: bool)
    ensures ApplyAt(v, [key], change, strip).Ok? <==> Fits(Some(v), key, change)
    ensures ApplyAt(v, [key], change, strip).Ok? ==>
      ChangedAt(v, ApplyAt(v, [key], change, strip).value, [], key, change, strip)
  {
    if ApplyAt(v, [key], change, strip).Ok? { AllBelowHere(v, ApplyAt(v, [key], change, strip).value); }
    match v
    case Arr(items) => ApplyToItemIs(items, key, change, strip);
    case Obj(fields) => ApplyToMemberIs(fields, key, change, strip);
    case _ =>
  }

  lemma {:induction false} ApplyAtIs(v: Json, path: seq<string>, key: string, change: Change, strip: bool)
    ensures var r := ApplyAt(v, path + [key], change, strip);
      && (r.Ok? <==> Fits(Lookup(v, path), key, change))
      && (r.Ok? ==> ChangedAt(v, r.value, path, key, change, strip))
    decreases |path|
  {
    if path == [] {
      assert path + [key] == [key];
      ApplyHere(v, key, change, strip);
    } else {
      var parts := path + [key];
      assert parts[0] == path[0] && parts[1..] == path[1..] + [key] && path == [path[0]] + path[1..];
      if v.Arr? { ChildAtIndex(v.items, path[0]); IndexIs(path[0], |v.items|, false); }
      if ChildAt(v, path[0]).Some? {
        var a := ChildAt(v, path[0]).value;
        ApplyAtIs(a, path[1..], key, change, strip);
        var inner := ApplyAt(a, path[1..] + [key], change, strip);
        if inner.Ok? {
          if v.Arr? { ItemReplaced(v.items, Index(path[0], |v.items|, false).value, inner.value); }
          OnlyBelowChild(v, ApplyAt(v, parts, change, strip).value, path[0], a, inner.value, path[1..]);
        }
      }
    }
  }

  /** What was put in or exchanged is what the path now leads to; a member taken out is gone. */
  lemma {:induction false} PathLeadsTo(v: Json, w: Json, path: seq<string>, key: string, change: Change, strip: bool)
    requires ChangedAt(v, w, path, key, change, strip)
    ensures !change.Remove? ==> Lookup(w, path + [key]) == Some(Clean(change.value, strip))
    ensures change.Remove? && Lookup(v, path).value.Obj? ==> Lookup(w, path + [key]).None?
  {
    LookupOneMore(w, path, key);
    var parent := Lookup(w, path).value;
    if parent.Arr? && !change.Remove? {
      var i: nat :| key == Decimal.Print(i) &&
        ItemChanged(Lookup(v, path).value.items, parent.items, i, change, strip);
      ChildAtItem(parent.items, i);
    }
  }

  // ----- One operation

  predicate Escapes(c: char) { c == '~' || c == '/' }

  ghost predicate HasEscapes(s: string) { exists i :: 0 <= i < |s| && Escapes(s[i]) }

  lemma {:induction false} EscapesAfter(x: char, s: string)
    ensures HasEscapes([x] + s) <==> Escapes(x) || HasEscapes(s)
  {
    if Escapes(x) { assert Escapes(([x] + s)[0]); }
    if HasEscapes(s) {
      var i :| 0 <= i < |s| && Escapes(s[i]);
      assert ([x] + s)[i + 1] == s[i];
    }
  }

  /** Reading an escape leaves a tilde or a slash. */
  lemma {:induction false} EscapesStay(s: string, d: char, to: char)
    requires Escapes(to)
    ensures HasEscapes(ReplacePair(s, '~', d, to)) <==> HasEscapes(s)
    ensures !HasEscapes(s) ==> ReplacePair(s, '~', d, to) == s
    decreases |s|
  {
    if s != [] {
      assert s == [s[0]] + s[1..];
      EscapesAfter(s[0], s[1..]);
      if |s| >= 2 && s[0] == '~' && s[1] == d {
        EscapesAfter(to, ReplacePair(s[2..], '~', d, to));
      } else {
        EscapesStay(s[1..], d, to);
        EscapesAfter(s[0], ReplacePair(s[1..], '~', d, to));
      }
    }
  }

  lemma {:induction false} UnescapedPlain(part: string, plain: string)
    requires !HasEscapes(plain)
    ensures Unescape(part) == plain <==> part == plain
  {
    EscapesStay(part, '1', '/');
    EscapesStay(ReplacePair(part, '~', '1', '/'), '0', '~');
  }

  /** The flag read off an encoded path tells whether a component it stands for is `keyValues`. */
  lemma {:induction false} StripsMetadataOfParts(path: string)
    requires Decode(path).Ok?
    ensures StripsMetadata(path) <==> "keyValues" !in Decode(path).value
  {
    if path != "" {
      var rest := path[1..];
      SplitAfter('/', rest);
      assert path == ['/'] + rest;
      forall i | 0 <= i < |Split(rest)|
        ensures Unescape(Split(rest)[i]) == KEY_VALUES <==> Split(rest)[i] == KEY_VALUES {
        UnescapedPlain(Split(rest)[i], KEY_VALUES);
      }
      if KEY_VALUES in Split(rest) {
        var i :| 0 <= i < |Split(rest)| && Split(rest)[i] == KEY_VALUES;
        assert Decode(path).value[i] == KEY_VALUES;
      }
    }
  }

  /** Any operation: when it fails, what it changes, and that it changes nothing else. */
  lemma {:induction false} ApplyOperationIs(v: Json, operation: Operation, path: seq<string>, key: string)
    requires Decode(operation.path) == Ok(path + [key])
    ensures var r, strip := ApplyOperation(v, operation), "keyValues" !in path + [key];
      && (r.Ok? <==> Fits(Lookup(v, path), key, operation.change))
      && (r.Ok? ==> ChangedAt(v, r.value, path, key, operation.change, strip))
      && (r.Ok? && !operation.change.Remove? ==>
            Lookup(r.value, path + [key]) == Some(Clean(operation.change.value, strip)))
  {
    var strip := StripsMetadata(operation.path);
    StripsMetadataOfParts(operation.path);
    ApplyAtIs(v, path, key, operation.change, strip);
    var r := ApplyOperation(v, operation);
    if r.Ok? { PathLeadsTo(v, r.value, path, key, operation.change, strip); }
  }

  /** At the empty path the whole tree is exchanged, and never taken out. A path with anything before its first slash is
   * none. */
  lemma {:induction false} ApplyAtRoot(v: Json, operation: Operation)
    ensures Decode(operation.path).Ok? <==> operation.path == "" || operation.path[0] == '/'
    ensures Decode(operation.path).Err? ==> ApplyOperation(v, operation).Err?
    ensures Decode(operation.path) == Ok([]) <==> operation.path == ""
    ensures operation.path == "" ==>
      match ApplyOperation(v, operation)
      case Ok(w) => !operation.change.Remove? && w == Clean(operation.change.value, true)
      case Err(_) => operation.change.Remove?
  {
  }

  // ----- A whole patch

  /** The trees from one operation to the next. */
  ghost predicate IsReplay(trees: seq<Json>, operations: seq<Operation>) {
    |trees| == |operations| + 1 &&
    forall i :: 0 <= i < |operations| ==> ApplyOperation(trees[i], operations[i]) == Ok(trees[i + 1])
  }

  lemma {:induction false} ReplayOf(root: Json, operations: seq<Operation>) returns (trees: seq<Json>)
    requires ApplyAll(root, operations).Ok?
    ensures IsReplay(trees, operations) && trees[0] == root
    ensures trees[|operations|] == ApplyAll(root, operations).value
    decreases |operations|
  {
    if operations == [] {
      trees := [root];
    } else {
      var rest := ReplayOf(ApplyOperation(root, operations[0]).value, operations[1..]);
      trees := [root] + rest;
      forall i | 0 <= i < |operations| ensures ApplyOperation(trees[i], operations[i]) == Ok(trees[i + 1]) {
        if i > 0 { assert operations[i] == operations[1..][i - 1] && trees[i] == rest[i - 1]; }
      }
    }
  }

  lemma {:induction false} ReplayIsOne(trees: seq<Json>, operations: seq<Operation>)
    requires IsReplay(trees, operations)
    ensures ApplyAll(trees[0], operations) == Ok(trees[|operations|])
    decreases |operations|
  {
    if operations != [] {
      var rest := trees[1..];
      forall i | 0 <= i < |operations[1..]| ensures ApplyOperation(rest[i], operations[1..][i]) == Ok(rest[i + 1]) {
        assert ApplyOperation(trees[i + 1], operations[i + 1]) == Ok(trees[i + 2]);
      }
      ReplayIsOne(rest, operations[1..]);
    }
  }

  ghost predicate IsRoot(v: Json) {
    && v.Obj? && Lookup(v, ["type"]) == Some(Str("document"))
    && Lookup(v, ["children"]).Some? && Lookup(v, ["children"]).value.Arr?
  }

  /** From the document without metadata, tree by tree, to a document root. */
  ghost predicate Reaches(trees: seq<Json>, document: Json, operations: seq<Operation>) {
    IsReplay(trees, operations) && trees[0] == Clean(document, true) && IsRoot(trees[|operations|])
  }

  /** A patch is accepted exactly if every operation can be made in turn and a document root is left; its length is
   * reset. */
  lemma {:induction false} ReplayedIs(document: Json, operations: seq<Operation>)
    ensures Replayed(document, operations).Ok? <==> exists trees :: Reaches(trees, document, operations)
    ensures forall trees: seq<Json> :: Reaches(trees, document, operations) ==>
      Replayed(document, operations) == Ok(Obj(trees[|operations|].fields["srcByteLength" := Num(Int(0))]))
  {
    if Replayed(document, operations).Ok? {
      var trees := ReplayOf(Clean(document, true), operations);
      RootIs(trees[|operations|]);
      assert Reaches(trees, document, operations);
    }
    forall trees: seq<Json> | Reaches(trees, document, operations)
      ensures Replayed(document, operations) == Ok(Obj(trees[|operations|].fields["srcByteLength" := Num(Int(0))])) {
      ReplayIsOne(trees, operations);
      RootIs(trees[|operations|]);
    }
  }

  lemma {:induction false} RootIs(v: Json)
    ensures IsDocumentRoot(v) <==> IsRoot(v)
  {
    assert ["type"][1..] == [] && ["children"][1..] == [];
    if v.Obj? {
      assert Lookup(v, ["type"]) == Member(v.fields, "type");
      assert Lookup(v, ["children"]) == Member(v.fields, "children");
    }
  }
}
