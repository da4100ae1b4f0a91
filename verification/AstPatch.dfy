/** Patches between exchange trees: building them and replaying them. */
module AstPatch {
  import opened JsonTree
  import opened Ordering
  import opened Pointers
  import opened Fingerprints
  import Decimal
  import opened Wrappers

  datatype Change = Add(value: Json) | Replace(value: Json) | Remove

  /** A change at a JSON Pointer. */
  datatype Operation = Operation(path: string, change: Change)

  // ----- Building

  function Member(fields: map<string, Json>, key: string): Option<Json> {
    if key in fields then Some(fields[key]) else None
  }

  /** A change at the end of a list of path segments. */
  datatype Edit = Edit(segments: seq<string>, change: Change)

  function Below(key: string, edits: seq<Edit>): (r: seq<Edit>)
    ensures |r| == |edits|
    ensures forall i :: 0 <= i < |r| ==> r[i] == Edit([key] + edits[i].segments, edits[i].change)
  {
    seq(|edits|, i requires 0 <= i < |edits| => Edit([key] + edits[i].segments, edits[i].change))
  }

  /** The edits between two trees; trees with equal clean forms need none. */
  function Edits(before: Json, after: Json, strip: bool): seq<Edit>
    decreases before, 1, 0
  {
    if JsonEqual(Clean(before, strip), Clean(after, strip)) then []
    else if before.Arr? && after.Arr? && |before.items| == |after.items| then
      ItemEdits(before, after, strip, |before.items|)
    else if before.Obj? && after.Obj? then
      MembersEdits(before, after, strip, SharedKeys(before, after, strip), |SharedKeys(before, after, strip)|)
    else [Edit([], Replace(Clean(after, strip)))]
  }

  /** The edits inside the first `n` items. */
  function ItemEdits(before: Json, after: Json, strip: bool, n: nat): seq<Edit>
    requires before.Arr? && after.Arr? && n <= |before.items| == |after.items|
    decreases before, 0, n + 1
  {
    if n == 0 then []
    else ItemEdits(before, after, strip, n - 1) + ItemEdit(before, after, strip, n - 1)
  }

  function ItemEdit(before: Json, after: Json, strip: bool, i: nat): seq<Edit>
    requires before.Arr? && after.Arr? && i < |before.items| == |after.items|
    decreases before, 0, 0
  {
    Below(Decimal.Print(i), Edits(before.items[i], after.items[i], strip))
  }

  /** The members either side has, metadata left out, in iteration order. */
  function SharedKeys(before: Json, after: Json, strip: bool): seq<string>
    requires before.Obj? && after.Obj?
  {
    SortedKeys(set k | k in before.fields.Keys + after.fields.Keys && Kept(k, strip))
  }

  lemma {:induction false} SharedKeysAre(before: Json, after: Json, strip: bool)
    requires before.Obj? && after.Obj?
    ensures forall k ::
      k in SharedKeys(before, after, strip) <==> (k in before.fields || k in after.fields) && Kept(k, strip)
    ensures forall i, j :: 0 <= i < j < |SharedKeys(before, after, strip)| ==>
      SharedKeys(before, after, strip)[i] != SharedKeys(before, after, strip)[j]
  {
  }

  lemma {:induction false} SharedKeyIsKept(before: Json, after: Json, strip: bool, i: nat)
    requires before.Obj? && after.Obj? && i < |SharedKeys(before, after, strip)|
    ensures Kept(SharedKeys(before, after, strip)[i], strip)
  {
    assert SharedKeys(before, after, strip)[i] in SharedKeys(before, after, strip);
  }

  /** The edits of the first `n` of the members in `keys`. */
  function MembersEdits(before: Json, after: Json, strip: bool, keys: seq<string>, n: nat): seq<Edit>
    requires before.Obj? && after.Obj? && n <= |keys|
    decreases before, 0, n + 1
  {
    if n == 0 then []
    else MembersEdits(before, after, strip, keys, n - 1) + MemberEdits(before, after, strip, keys[n - 1])
  }

  function MemberEdits(before: Json, after: Json, strip: bool, key: string): seq<Edit>
    requires before.Obj? && after.Obj?
    decreases before, 0, 0
  {
    var inner := StripBelow(key, strip);
    if key in before.fields then
      if key in after.fields then Below(key, Edits(before.fields[key], after.fields[key], inner))
      else [Edit([key], Remove)]
    else if key in after.fields then [Edit([key], Add(Clean(after.fields[key], inner)))]
    else []
  }

  function Encode(edits: seq<Edit>, path: seq<string>): seq<Operation> {
    seq(|edits|, i requires 0 <= i < |edits| => Operation(Pointer(path + edits[i].segments), edits[i].change))
  }

  lemma {:induction false} EncodeBelow(edits: seq<Edit>, path: seq<string>, key: string)
    ensures Encode(Below(key, edits), path) == Encode(edits, path + [key])
  {
    forall i | 0 <= i < |edits| ensures path + ([key] + edits[i].segments) == path + [key] + edits[i].segments {}
  }

  lemma {:induction false} EncodeOne(segments: seq<string>, change: Change, path: seq<string>)
    ensures Encode([Edit(segments, change)], path) == [Operation(Pointer(path + segments), change)]
  {
  }

  lemma {:induction false} PushPop(segments: seq<string>, key: string)
    ensures |segments + [key]| > 0 && (segments + [key])[..|segments + [key]| - 1] == segments
  {
  }

  lemma {:induction false} EncodeAppend(edits: seq<Edit>, more: seq<Edit>, path: seq<string>)
    ensures Encode(edits + more, path) == Encode(edits, path) + Encode(more, path)
  {
  }

  lemma {:induction false} EncodeMore(found: seq<Operation>, edits: seq<Edit>, more: seq<Edit>, path: seq<string>)
    ensures found + Encode(edits, path) + Encode(more, path) == found + Encode(edits + more, path)
  {
    EncodeAppend(edits, more, path);
  }

  /** The walk over both trees: the path it is at, and the operations found so far. */
  class PatchBuilder {
    var segments: seq<string>
    var stripMetadata: bool
    var out: seq<Operation>

    constructor ()
      ensures segments == [] && stripMetadata && out == []
    {
      segments, stripMetadata, out := [], true, [];
    }

    method Build(before: Address, after: Address, fingerprints: Index)
      requires fingerprints.Sound() && fingerprints.Has(before, stripMetadata) && fingerprints.Has(after, stripMetadata)
      modifies this
      ensures segments == old(segments) && stripMetadata == old(stripMetadata)
      ensures out == old(out) + Encode(Edits(fingerprints.At(before), fingerprints.At(after), stripMetadata), segments)
      decreases fingerprints.At(before), 2
    {
      var strip := stripMetadata;
      var b, a := fingerprints.At(before), fingerprints.At(after);
      fingerprints.SameMeansSameCleanForm(before, after, strip);
      if fingerprints.Same(before, after, strip) {
        return;
      }
      if b.Arr? && a.Arr? && |b.items| == |a.items| {
        BuildItems(before, after, fingerprints);
      } else if b.Obj? && a.Obj? {
        BuildMembers(before, after, fingerprints);
      } else {
        assert segments + [] == segments;
        EncodeOne([], Replace(Clean(a, strip)), segments);
        var path := WritePointer(segments);
        out := out + [Operation(path, Replace(Clean(a, strip)))];
      }
    }

    method BuildItems(before: Address, after: Address, fingerprints: Index)
      requires fingerprints.Sound() && fingerprints.Has(before, stripMetadata) && fingerprints.Has(after, stripMetadata)
      requires var b, a := fingerprints.At(before), fingerprints.At(after); b.Arr? && a.Arr? && |b.items| == |a.items|
      modifies this
      ensures segments == old(segments) && stripMetadata == old(stripMetadata)
      ensures var b, a := fingerprints.At(before), fingerprints.At(after);
        out == old(out) + Encode(ItemEdits(b, a, stripMetadata, |b.items|), segments)
      decreases fingerprints.At(before), 1
    {
      var b, a := fingerprints.At(before), fingerprints.At(after);
      ghost var edits: seq<Edit> := [];
      for i := 0 to |b.items|
        invariant segments == old(segments) && stripMetadata == old(stripMetadata)
        invariant edits == ItemEdits(b, a, stripMetadata, i) && out == old(out) + Encode(edits, segments)
      {
        BuildItem(before, after, i, fingerprints);
        ghost var more := ItemEdit(b, a, stripMetadata, i);
        EncodeMore(old(out), edits, more, segments);
        edits := edits + more;
      }
    }

    method BuildMembers(before: Address, after: Address, fingerprints: Index)
      requires fingerprints.Sound() && fingerprints.Has(before, stripMetadata) && fingerprints.Has(after, stripMetadata)
      requires fingerprints.At(before).Obj? && fingerprints.At(after).Obj?
      modifies this
      ensures segments == old(segments) && stripMetadata == old(stripMetadata)
      ensures var b, a := fingerprints.At(before), fingerprints.At(after);
        out == old(out) +
          Encode(MembersEdits(b, a, stripMetadata, SharedKeys(b, a, stripMetadata), |SharedKeys(b, a, stripMetadata)|),
          segments)
      decreases fingerprints.At(before), 1
    {
      var b, a := fingerprints.At(before), fingerprints.At(after);
      var keys, strip := SharedKeys(b, a, stripMetadata), stripMetadata;
      ghost var edits: seq<Edit> := [];
      for i := 0 to |keys|
        invariant segments == old(segments) && stripMetadata == strip
        invariant edits == MembersEdits(b, a, strip, keys, i)
        invariant out == old(out) + Encode(edits, segments)
      {
        ghost var more := MemberEdits(b, a, strip, keys[i]);
        assert MembersEdits(b, a, strip, keys, i + 1) == edits + more;
        SharedKeyIsKept(b, a, strip, i);
        EncodeMore(old(out), edits, more, segments);
        BuildMember(before, after, keys[i], fingerprints);
        edits := edits + more;
      }
    }

    method BuildItem(before: Address, after: Address, i: nat, fingerprints: Index)
      requires fingerprints.Sound() && fingerprints.Has(before, stripMetadata) && fingerprints.Has(after, stripMetadata)
      requires var b, a := fingerprints.At(before), fingerprints.At(after);
        b.Arr? && a.Arr? && i < |b.items| == |a.items|
      modifies this
      ensures segments == old(segments) && stripMetadata == old(stripMetadata)
      ensures out == old(out) +
        Encode(ItemEdit(fingerprints.At(before), fingerprints.At(after), stripMetadata, i), segments)
      decreases fingerprints.At(before), 0
    {
      var b, a := fingerprints.At(before), fingerprints.At(after);
      fingerprints.HasItem(before, stripMetadata, i);
      fingerprints.HasItem(after, stripMetadata, i);
      EncodeBelow(Edits(b.items[i], a.items[i], stripMetadata), segments, Decimal.Print(i));
      PushPop(segments, Decimal.Print(i));
      segments := segments + [Decimal.Print(i)];
      Build(At(before, Item(i)), At(after, Item(i)), fingerprints);
      segments := segments[..|segments| - 1];
    }

    method BuildMember(before: Address, after: Address, key: string, fingerprints: Index)
      requires fingerprints.Sound() && fingerprints.Has(before, stripMetadata) && fingerprints.Has(after, stripMetadata)
      requires fingerprints.At(before).Obj? && fingerprints.At(after).Obj? && Kept(key, stripMetadata)
      modifies this
      ensures segments == old(segments) && stripMetadata == old(stripMetadata)
      ensures out == old(out) +
        Encode(MemberEdits(fingerprints.At(before), fingerprints.At(after), stripMetadata, key), segments)
      decreases fingerprints.At(before), 0
    {
      var strip := stripMetadata;
      var b, a := fingerprints.At(before), fingerprints.At(after);
      PushPop(segments, key);
      segments := segments + [key];
      stripMetadata := StripBelow(key, strip);
      if key in b.fields && key in a.fields {
        fingerprints.HasField(before, strip, key);
        fingerprints.HasField(after, strip, key);
        EncodeBelow(Edits(b.fields[key], a.fields[key], stripMetadata), old(segments), key);
        Build(At(before, Field(key)), At(after, Field(key)), fingerprints);
      } else {
        BuildOneSided(old(segments), key, Member(b.fields, key), Member(a.fields, key));
      }
      stripMetadata := strip;
      segments := segments[..|segments| - 1];
    }

    /** At a member that only one side has. */
    method BuildOneSided(ghost path: seq<string>, ghost key: string, before: Option<Json>, after: Option<Json>)
      requires segments == path + [key] && (before.None? || after.None?)
      modifies this`out
      ensures out == old(out) + Encode(
        if before.Some? then [Edit([key], Remove)]
        else if after.Some? then [Edit([key], Add(Clean(after.value, stripMetadata)))]
        else [], path)
    {
      if before.Some? {
        var pointer := WritePointer(segments);
        EncodeOne([key], Remove, path);
        out := out + [Operation(pointer, Remove)];
      } else if after.Some? {
        var pointer := WritePointer(segments);
        EncodeOne([key], Add(Clean(after.value, stripMetadata)), path);
        out := out + [Operation(pointer, Add(Clean(after.value, stripMetadata)))];
      }
    }
  }

  function Patch(before: Json, after: Json): seq<Operation> { Encode(Edits(before, after, true), []) }

  method CreateAstPatch(before: Json, after: Json) returns (operations: seq<Operation>)
    ensures operations == Patch(before, after)
  {
    var fingerprints := new Fingerprints(true, true);
    fingerprints.Add(before);
    fingerprints.Add(after);
    var builder := new PatchBuilder();
    fingerprints.SharedIsSound();
    assert RootsIn(fingerprints.roots, fingerprints.ids.Keys);
    builder.Build(Root(0), Root(1), fingerprints.Shared());
    operations := builder.out;
  }

  // ----- Replaying

  function Index(value: string, length: nat, allowEnd: bool): (r: Result<nat>)
    ensures r.Ok? ==> if allowEnd then r.value <= length else r.value < length
  {
    if value == "" || (|value| > 1 && value[0] == '0') || !Decimal.AllDigits(value) then
      Err("array component is not an index")
    else
      var i := Decimal.Value(value);
      if (if allowEnd then i <= length else i < length) then Ok(i) else Err("array index is out of range")
  }

  function ApplyAt(root: Json, parts: seq<string>, change: Change, strip: bool): Result<Json>
    decreases |parts|
  {
    if parts == [] then Err("patch path cannot be empty here")
    else if |parts| > 1 then
      match root
      case Arr(items) =>
        (match Index(parts[0], |items|, false)
         case Err(e) => Err(e)
         case Ok(i) =>
           match ApplyAt(items[i], parts[1..], change, strip)
           case Err(e) => Err(e)
           case Ok(item) => Ok(Arr(items[i := item])))
      case Obj(fields) =>
        if parts[0] !in fields then Err("path component does not exist")
        else (
          match ApplyAt(fields[parts[0]], parts[1..], change, strip)
          case Err(e) => Err(e)
          case Ok(field) => Ok(Obj(fields[parts[0] := field])))
      case _ => Err("path component does not exist")
    else
      match root
      case Arr(items) => ApplyToItem(items, parts[0], change, strip)
      case Obj(fields) => ApplyToMember(fields, parts[0], change, strip)
      case _ => Err("patch path parent is not a container")
  }

  function ApplyToItem(items: seq<Json>, key: string, change: Change, strip: bool): Result<Json> {
    match Index(key, |items|, change.Add?)
    case Err(e) => Err(e)
    case Ok(i) =>
      match change
      case Add(value) => Ok(Arr(items[..i] + [Clean(value, strip)] + items[i..]))
      case Replace(value) => Ok(Arr(items[i := Clean(value, strip)]))
      case Remove => Ok(Arr(items[..i] + items[i + 1..]))
  }

  function ApplyToMember(fields: map<string, Json>, key: string, change: Change, strip: bool): Result<Json> {
    match change
    case Add(value) => Ok(Obj(fields[key := Clean(value, strip)]))
    case Replace(value) =>
      if key in fields then Ok(Obj(fields[key := Clean(value, strip)])) else Err("path component does not exist")
    case Remove =>
      if key in fields then Ok(Obj(fields - {key})) else Err("path component does not exist")
  }

  function ApplyOperation(root: Json, operation: Operation): Result<Json> {
    match Decode(operation.path)
    case Err(e) => Err(e)
    case Ok(parts) =>
      if parts == [] then
        if operation.change.Remove? then Err("the document root cannot be removed")
        else Ok(Clean(operation.change.value, true))
      else ApplyAt(root, parts, operation.change, StripsMetadata(operation.path))
  }

  function ApplyAll(root: Json, operations: seq<Operation>): Result<Json>
    decreases |operations|
  {
    if operations == [] then Ok(root)
    else
      match ApplyOperation(root, operations[0])
      case Err(e) => Err(e)
      case Ok(next) => ApplyAll(next, operations[1..])
  }

  predicate IsDocumentRoot(v: Json) {
    && v.Obj?
    && "type" in v.fields && v.fields["type"] == Str("document")
    && "children" in v.fields && v.fields["children"].Arr?
  }

  /** What replaying a patch on a document gives, decoding into node types left aside. */
  function Replayed(document: Json, operations: seq<Operation>): Result<Json> {
    match ApplyAll(Clean(document, true), operations)
    case Err(e) => Err(e)
    case Ok(root) =>
      if IsDocumentRoot(root) then Ok(Obj(root.fields["srcByteLength" := Num(Int(0))]))
      else Err("patch result is not a PART 12 document root")
  }

  method ApplyAstPatch(document: Json, operations: seq<Operation>) returns (result: Result<Json>)
    ensures result == Replayed(document, operations)
  {
    var root := Clean(document, true);
    for i := 0 to |operations|
      invariant ApplyAll(root, operations[i..]) == ApplyAll(Clean(document, true), operations)
    {
      assert operations[i..][1..] == operations[i + 1..];
      var next := ApplyOperation(root, operations[i]);
      if next.Err? { return Err(next.error); }
      root := next.value;
    }
    if !IsDocumentRoot(root) { return Err("patch result is not a PART 12 document root"); }
    return Ok(Obj(root.fields["srcByteLength" := Num(Int(0))]));
  }
}
