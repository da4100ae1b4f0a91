/** Which operations a patch has, told from the places of the two trees. */
module PatchEdits {
  import opened AstPatch
  import opened Fingerprints
  import opened JsonTree
  import opened Metadata
  import opened Places
  import opened Pointers
  import opened Wrappers
  import Decimal

  /** Objects both, or arrays of one length: what a patch goes into. */
  predicate OneShape(v: Option<Json>, w: Option<Json>) {
    v.Some? && w.Some? &&
    ((v.value.Obj? && w.value.Obj?) || (v.value.Arr? && w.value.Arr? && |v.value.items| == |w.value.items|))
  }

  /** What must change where these two stand: one is missing, or they differ and there is no going into them. */
  predicate Needs(v: Option<Json>, w: Option<Json>, strip: bool, change: Change) {
    match change
    case Add(value) => v.None? && w.Some? && value == Clean(w.value, strip)
    case Remove => v.Some? && w.None?
    case Replace(value) =>
      && v.Some? && w.Some? && !OneShape(v, w) && value == Clean(w.value, strip)
      && !JsonEqual(Clean(v.value, strip), Clean(w.value, strip))
  }

  ghost predicate ShapeAt(before: Json, after: Json, path: seq<string>, n: nat)
    requires n <= |path|
  {
    OneShape(Lookup(before, path[..n]), Lookup(after, path[..n]))
  }

  ghost predicate Shaped(before: Json, after: Json, path: seq<string>) {
    forall n: nat {:trigger ShapeAt(before, after, path, n)} :: n < |path| ==> ShapeAt(before, after, path, n)
  }

  /** All the way down the trees are of one shape, and at the end of the path they need the change. */
  ghost predicate Differ(before: Json, after: Json, strip: bool, path: seq<string>, change: Change) {
    && Shaped(before, after, path) && (strip ==> !Passes(path, EXCHANGE))
    && Needs(Lookup(before, path), Lookup(after, path), strip && "keyValues" !in path, change)
  }

  function StripIn(v: Json, key: string, strip: bool): bool { if v.Obj? then StripBelow(key, strip) else strip }

  /** The same of the trees right below. */
  ghost predicate DifferBelow(before: Json, after: Json, strip: bool, key: string, rest: seq<string>, change: Change) {
    var v, w := ChildAt(before, key), ChildAt(after, key);
    && OneShape(Some(before), Some(after)) && (before.Obj? ==> Kept(key, strip))
    && if rest == [] then Needs(v, w, StripIn(before, key, strip), change)
       else v.Some? && w.Some? && Differ(v.value, w.value, StripIn(before, key, strip), rest, change)
  }

  lemma {:induction false} LookupBelow(v: Json, key: string, rest: seq<string>)
    ensures Lookup(v, [key] + rest) == match ChildAt(v, key) { case Some(w) => Lookup(w, rest) case None => None }
  {
    assert ([key] + rest)[1..] == rest;
  }

  lemma {:induction false} ShapeBelow(before: Json, after: Json, key: string, rest: seq<string>, n: nat)
    requires n <= |rest|
    ensures var v, w := ChildAt(before, key), ChildAt(after, key);
      ShapeAt(before, after, [key] + rest, n + 1) <==> v.Some? && w.Some? && ShapeAt(v.value, w.value, rest, n)
  {
    assert ([key] + rest)[..n + 1] == [key] + rest[..n];
    LookupBelow(before, key, rest[..n]);
    LookupBelow(after, key, rest[..n]);
  }

  lemma {:induction false} ShapesBelow(before: Json, after: Json, key: string, rest: seq<string>)
    ensures var v, w := ChildAt(before, key), ChildAt(after, key);
      Shaped(before, after, [key] + rest) <==>
        OneShape(Some(before), Some(after)) &&
        (rest == [] || (v.Some? && w.Some? && Shaped(v.value, w.value, rest)))
  {
    var path := [key] + rest;
    var v, w := ChildAt(before, key), ChildAt(after, key);
    assert path[..0] == [] && (ShapeAt(before, after, path, 0) <==> OneShape(Some(before), Some(after)));
    if Shaped(before, after, path) && rest != [] {
      ShapeBelow(before, after, key, rest, 0);
      assert ShapeAt(before, after, path, 1);
      forall n: nat {:trigger ShapeAt(v.value, w.value, rest, n)} | n < |rest|
        ensures ShapeAt(v.value, w.value, rest, n) {
        ShapeBelow(before, after, key, rest, n);
        assert ShapeAt(before, after, path, n + 1);
      }
    }
    if OneShape(Some(before), Some(after)) &&
      (rest == [] || (v.Some? && w.Some? && Shaped(v.value, w.value, rest))) {
      forall n: nat {:trigger ShapeAt(before, after, path, n)} | n < |path| ensures ShapeAt(before, after, path, n) {
        if n > 0 {
          ShapeBelow(before, after, key, rest, n - 1);
          assert ShapeAt(v.value, w.value, rest, n - 1);
        }
      }
    }
  }

  lemma {:induction false} DifferStep(before: Json, after: Json, strip: bool, key: string, rest: seq<string>,
      change: Change)
    ensures Differ(before, after, strip, [key] + rest, change) <==>
      DifferBelow(before, after, strip, key, rest, change)
  {
    var path := [key] + rest;
    LookupBelow(before, key, rest);
    LookupBelow(after, key, rest);
    ShapesBelow(before, after, key, rest);
    PassesAfter(path, EXCHANGE);
    assert path[0] == key && path[1..] == rest;
    if before.Arr? && (key == "pos" || key == "srcByteLength" || key == "keyValues") { NoNumber(before.items, key); }
  }

  // ----- Nothing needs a change in equal trees

  lemma {:induction false} EqualBelow(before: Json, after: Json, strip: bool, key: string)
    requires JsonEqual(Clean(before, strip), Clean(after, strip)) && (before.Obj? ==> Kept(key, strip))
    ensures OneShape(Some(before), Some(after)) || ChildAt(before, key) == ChildAt(after, key) == None
    ensures var v, w, inner := ChildAt(before, key), ChildAt(after, key), StripIn(before, key, strip);
      (v.Some? <==> w.Some?) && (v.Some? ==> JsonEqual(Clean(v.value, inner), Clean(w.value, inner)))
  {
    var b, a := Clean(before, strip), Clean(after, strip);
    assert Canon(b) == Canon(a);
    if before.Obj? {
      assert key in Canon(b).fields <==> key in before.fields;
      assert key in Canon(a).fields <==> key in after.fields;
      if key in before.fields { assert Canon(b).fields[key] == Canon(a).fields[key]; }
    } else if before.Arr? {
      assert |before.items| == |Canon(b).items| == |Canon(a).items| == |after.items|;
      if exists i: nat :: Numbers(key, i, |before.items|, false) {
        var i: nat :| Numbers(key, i, |before.items|, false);
        ChildAtItem(before.items, i);
        ChildAtItem(after.items, i);
        assert Canon(b).items[i] == Canon(a).items[i];
      }
    }
  }

  lemma {:induction false} EqualNeedNothing(before: Json, after: Json, strip: bool, path: seq<string>, change: Change)
    requires JsonEqual(Clean(before, strip), Clean(after, strip))
    ensures !Differ(before, after, strip, path, change)
    decreases |path|
  {
    if path != [] {
      var key, rest := path[0], path[1..];
      assert path == [key] + rest;
      DifferStep(before, after, strip, key, rest, change);
      if before.Obj? ==> Kept(key, strip) {
        EqualBelow(before, after, strip, key);
        var v, w := ChildAt(before, key), ChildAt(after, key);
        if v.Some? && rest != [] { EqualNeedNothing(v.value, w.value, StripIn(before, key, strip), rest, change); }
      }
    }
  }

  // ----- The edits

  lemma {:induction false} InBelow(key: string, edits: seq<Edit>, path: seq<string>, change: Change)
    ensures Edit(path, change) in Below(key, edits) <==>
      path != [] && path[0] == key && Edit(path[1..], change) in edits
  {
    var below := Below(key, edits);
    if Edit(path, change) in below {
      var i :| 0 <= i < |below| && below[i] == Edit(path, change);
      assert path == [key] + edits[i].segments;
      assert edits[i] == Edit(path[1..], change);
    }
    if path != [] && path[0] == key && Edit(path[1..], change) in edits {
      var i :| 0 <= i < |edits| && edits[i] == Edit(path[1..], change);
      assert [key] + path[1..] == path && below[i] == Edit(path, change);
    }
  }

  lemma {:induction false} InItems(before: Json, after: Json, strip: bool, n: nat, path: seq<string>, change: Change)
    requires before.Arr? && after.Arr? && n <= |before.items| == |after.items|
    ensures Edit(path, change) in ItemEdits(before, after, strip, n) <==>
      path != [] && exists i: nat ::
      Numbers(path[0], i, n, false) && Edit(path[1..], change) in Edits(before.items[i], after.items[i], strip)
  {
    if n > 0 {
      InItems(before, after, strip, n - 1, path, change);
      InBelow(Decimal.Print(n - 1), Edits(before.items[n - 1], after.items[n - 1], strip), path, change);
      if path != [] {
        forall i: nat ensures Numbers(path[0], i, n, false) <==>
          Numbers(path[0], i, n - 1, false) || (i == n - 1 && path[0] == Decimal.Print(n - 1)) {}
      }
    }
  }

  lemma {:induction false} InMember(before: Json, after: Json, strip: bool, key: string, path: seq<string>,
      change: Change)
    requires before.Obj? && after.Obj?
    ensures Edit(path, change) in MemberEdits(before, after, strip, key) <==>
      path != [] && path[0] == key &&
      if key in before.fields && key in after.fields
        then Edit(path[1..], change) in Edits(before.fields[key], after.fields[key], StripBelow(key, strip))
      else path == [key] && Needs(Member(before.fields, key), Member(after.fields, key), StripBelow(key, strip), change)
  {
    if key in before.fields && key in after.fields {
      InBelow(key, Edits(before.fields[key], after.fields[key], StripBelow(key, strip)), path, change);
    }
  }

  lemma {:induction false} InMembers(before: Json, after: Json, strip: bool, keys: seq<string>, n: nat,
      path: seq<string>, change: Change)
    requires before.Obj? && after.Obj? && n <= |keys|
    ensures Edit(path, change) in MembersEdits(before, after, strip, keys, n) <==>
      path != [] && path[0] in keys[..n] && Edit(path, change) in MemberEdits(before, after, strip, path[0])
  {
    if n > 0 {
      InMembers(before, after, strip, keys, n - 1, path, change);
      InMember(before, after, strip, keys[n - 1], path, change);
      assert keys[..n] == keys[..n - 1] + [keys[n - 1]];
    }
  }

  /** The edits below a key are those of the trees there, or the one that a missing tree needs. */
  ghost predicate EditBelow(before: Json, after: Json, strip: bool, key: string, rest: seq<string>, change: Change) {
    var v, w := ChildAt(before, key), ChildAt(after, key);
    && (before.Obj? ==> Kept(key, strip))
    && if v.Some? && w.Some? then Edit(rest, change) in Edits(v.value, w.value, StripIn(before, key, strip))
       else rest == [] && Needs(v, w, StripIn(before, key, strip), change)
  }

  lemma {:induction false} ItemEditBelow(before: Json, after: Json, strip: bool, key: string, rest: seq<string>,
      change: Change)
    requires before.Arr? && after.Arr? && |before.items| == |after.items|
    requires !JsonEqual(Clean(before, strip), Clean(after, strip))
    ensures Edit([key] + rest, change) in Edits(before, after, strip) <==>
      EditBelow(before, after, strip, key, rest, change)
  {
    InItems(before, after, strip, |before.items|, [key] + rest, change);
    assert ([key] + rest)[0] == key && ([key] + rest)[1..] == rest;
    if exists i: nat :: Numbers(key, i, |before.items|, false) {
      var i: nat :| Numbers(key, i, |before.items|, false);
      ChildAtItem(before.items, i);
      ChildAtItem(after.items, i);
      forall j: nat | Numbers(key, j, |before.items|, false) ensures j == i { Decimal.PrintInjective(i, j); }
    }
  }

  lemma {:induction false} InSharedKeys(before: Json, after: Json, strip: bool, path: seq<string>, change: Change)
    requires before.Obj? && after.Obj? && !JsonEqual(Clean(before, strip), Clean(after, strip)) && path != []
    ensures Edit(path, change) in Edits(before, after, strip) <==>
      && (path[0] in before.fields || path[0] in after.fields) && Kept(path[0], strip)
      && Edit(path, change) in MemberEdits(before, after, strip, path[0])
  {
    var keys := SharedKeys(before, after, strip);
    assert keys[..|keys|] == keys;
    SharedKeysAre(before, after, strip);
    InMembers(before, after, strip, keys, |keys|, path, change);
  }

  lemma {:induction false} MemberEditBelow(before: Json, after: Json, strip: bool, key: string, rest: seq<string>,
      change: Change)
    requires before.Obj? && after.Obj? && !JsonEqual(Clean(before, strip), Clean(after, strip))
    ensures Edit([key] + rest, change) in Edits(before, after, strip) <==>
      EditBelow(before, after, strip, key, rest, change)
  {
    var path := [key] + rest;
    assert path[0] == key && path[1..] == rest;
    InSharedKeys(before, after, strip, path, change);
    InMember(before, after, strip, key, path, change);
  }

  lemma {:induction false} EditAtRoot(before: Json, after: Json, strip: bool, change: Change)
    requires !JsonEqual(Clean(before, strip), Clean(after, strip))
    ensures Edit([], change) in Edits(before, after, strip) <==> Differ(before, after, strip, [], change)
  {
    if before.Arr? && after.Arr? && |before.items| == |after.items| {
      InItems(before, after, strip, |before.items|, [], change);
    } else if before.Obj? && after.Obj? {
      var keys := SharedKeys(before, after, strip);
      InMembers(before, after, strip, keys, |keys|, [], change);
    }
  }

  lemma {:induction false} DifferIfBelow(before: Json, after: Json, strip: bool, key: string, rest: seq<string>,
      change: Change)
    ensures var v, w := ChildAt(before, key), ChildAt(after, key);
      DifferBelow(before, after, strip, key, rest, change) <==>
        OneShape(Some(before), Some(after)) && (before.Obj? ==> Kept(key, strip)) &&
        if v.Some? && w.Some? then Differ(v.value, w.value, StripIn(before, key, strip), rest, change)
          else rest == [] && Needs(v, w, StripIn(before, key, strip), change)
  {
  }

  /** A patch has a change at a path exactly if the trees need it there, and can be gone into above. */
  lemma {:induction false} EditIff(before: Json, after: Json, strip: bool, path: seq<string>, change: Change)
    ensures Edit(path, change) in Edits(before, after, strip) <==> Differ(before, after, strip, path, change)
    decreases |path|
  {
    if JsonEqual(Clean(before, strip), Clean(after, strip)) {
      EqualNeedNothing(before, after, strip, path, change);
    } else if path == [] {
      EditAtRoot(before, after, strip, change);
    } else {
      var key, rest := path[0], path[1..];
      assert path == [key] + rest;
      DifferStep(before, after, strip, key, rest, change);
      DifferIfBelow(before, after, strip, key, rest, change);
      var v, w := ChildAt(before, key), ChildAt(after, key);
      if before.Arr? && after.Arr? && |before.items| == |after.items| {
        ItemEditBelow(before, after, strip, key, rest, change);
      } else if before.Obj? && after.Obj? {
        MemberEditBelow(before, after, strip, key, rest, change);
      }
      if v.Some? && w.Some? { EditIff(v.value, w.value, StripIn(before, key, strip), rest, change); }
    }
  }

  lemma {:induction false} Encoded(edits: seq<Edit>, path: seq<string>, change: Change)
    ensures Operation(Pointer(path), change) in Encode(edits, []) <==> Edit(path, change) in edits
  {
    var encoded := Encode(edits, []);
    if Operation(Pointer(path), change) in encoded {
      var i :| 0 <= i < |encoded| && encoded[i] == Operation(Pointer(path), change);
      assert [] + edits[i].segments == edits[i].segments;
      DecodePointer(path);
      DecodePointer(edits[i].segments);
      assert edits[i] == Edit(path, change);
    }
    if Edit(path, change) in edits {
      var i :| 0 <= i < |edits| && edits[i] == Edit(path, change);
      assert [] + path == path && encoded[i] == Operation(Pointer(path), change);
    }
  }

  /** The operations of a patch are exactly those. */
  lemma {:induction false} OperationIff(before: Json, after: Json, path: seq<string>, change: Change)
    ensures Operation(Pointer(path), change) in Patch(before, after) <==> Differ(before, after, true, path, change)
  {
    Encoded(Edits(before, after, true), path, change);
    EditIff(before, after, true, path, change);
  }
}
