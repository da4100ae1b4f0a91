/** The laws of generated patches: independence of their operations, round trips, and what undo needs. */
module AstPatchLaws {
  import opened JsonTree
  import opened Pointers
  import opened AstPatch
  import opened AstPatchReplay
  import Decimal
  import opened Wrappers

  // ----- No operation lies inside another

  ghost predicate Independent(p: seq<string>, q: seq<string>) { !(p <= q) && !(q <= p) }

  ghost predicate AllIndependent(edits: seq<Edit>) {
    forall i, j :: 0 <= i < j < |edits| ==> Independent(edits[i].segments, edits[j].segments)
  }

  ghost predicate HeadsIn(edits: seq<Edit>, heads: set<string>) {
    forall i :: 0 <= i < |edits| ==> edits[i].segments != [] && edits[i].segments[0] in heads
  }

  lemma {:induction false} PrefixBelow(key: string, p: seq<string>, q: seq<string>)
    ensures [key] + p <= [key] + q <==> p <= q
  {
    if |p| <= |q| {
      assert ([key] + q)[..|p| + 1] == [key] + q[..|p|];
      assert ([key] + p)[1..] == p && ([key] + q[..|p|])[1..] == q[..|p|];
    }
  }

  lemma {:induction false} IndependentBelow(key: string, edits: seq<Edit>)
    requires AllIndependent(edits)
    ensures AllIndependent(Below(key, edits)) && HeadsIn(Below(key, edits), {key})
  {
    var below := Below(key, edits);
    forall i, j | 0 <= i < j < |below| ensures Independent(below[i].segments, below[j].segments) {
      assert Independent(edits[i].segments, edits[j].segments);
      PrefixBelow(key, edits[i].segments, edits[j].segments);
      PrefixBelow(key, edits[j].segments, edits[i].segments);
    }
  }

  lemma {:induction false} IndependentAppend(xs: seq<Edit>, ys: seq<Edit>, heads: set<string>, key: string)
    requires AllIndependent(xs) && HeadsIn(xs, heads)
    requires AllIndependent(ys) && HeadsIn(ys, {key}) && key !in heads
    ensures AllIndependent(xs + ys) && HeadsIn(xs + ys, heads + {key})
  {
    var all := xs + ys;
    forall i, j | 0 <= i < j < |all| ensures Independent(all[i].segments, all[j].segments) {
      if i < |xs| && |xs| <= j {
        assert all[i] == xs[i] && all[j] == ys[j - |xs|];
        assert all[i].segments[0] != all[j].segments[0];
      } else if j < |xs| {
        assert Independent(xs[i].segments, xs[j].segments);
      } else {
        assert Independent(ys[i - |xs|].segments, ys[j - |xs|].segments);
      }
    }
  }

  /** No path of a generated patch is a prefix of another. */
  lemma {:induction false} EditsAreIndependent(before: Json, after: Json, strip: bool)
    ensures AllIndependent(Edits(before, after, strip))
    decreases before, 1, 0
  {
    if JsonEqual(Clean(before, strip), Clean(after, strip)) {
    } else if before.Arr? && after.Arr? && |before.items| == |after.items| {
      var _ := ItemsAreIndependent(before, after, strip, |before.items|);
    } else if before.Obj? && after.Obj? {
      var keys := SharedKeys(before, after, strip);
      MembersAreIndependent(before, after, strip, keys, |keys|);
    }
  }

  lemma {:induction false} ItemsAreIndependent(before: Json, after: Json, strip: bool, n: nat)
      returns (heads: set<string>)
    requires before.Arr? && after.Arr? && n <= |before.items| == |after.items|
    ensures AllIndependent(ItemEdits(before, after, strip, n)) && HeadsIn(ItemEdits(before, after, strip, n), heads)
    ensures forall i: nat :: Decimal.Print(i) in heads ==> i < n
    decreases before, 0, n
  {
    heads := {};
    if n > 0 {
      var key := Decimal.Print(n - 1);
      var below := ItemsAreIndependent(before, after, strip, n - 1);
      EditsAreIndependent(before.items[n - 1], after.items[n - 1], strip);
      IndependentBelow(key, Edits(before.items[n - 1], after.items[n - 1], strip));
      IndependentAppend(ItemEdits(before, after, strip, n - 1), ItemEdit(before, after, strip, n - 1), below, key);
      heads := below + {key};
      forall i: nat | Decimal.Print(i) in heads ensures i < n {
        if Decimal.Print(i) == key { Decimal.PrintInjective(i, n - 1); }
      }
    }
  }

  lemma {:induction false} MembersAreIndependent(before: Json, after: Json, strip: bool, keys: seq<string>, n: nat)
    requires before.Obj? && after.Obj? && n <= |keys|
    requires forall i, j :: 0 <= i < j < |keys| ==> keys[i] != keys[j]
    ensures AllIndependent(MembersEdits(before, after, strip, keys, n))
    ensures HeadsIn(MembersEdits(before, after, strip, keys, n), set i | 0 <= i < n :: keys[i])
    decreases before, 0, n
  {
    if n > 0 {
      var key := keys[n - 1];
      var heads := set i | 0 <= i < n - 1 :: keys[i];
      MembersAreIndependent(before, after, strip, keys, n - 1);
      if key in before.fields && key in after.fields {
        var inner := StripBelow(key, strip);
        EditsAreIndependent(before.fields[key], after.fields[key], inner);
        IndependentBelow(key, Edits(before.fields[key], after.fields[key], inner));
      }
      IndependentAppend(MembersEdits(before, after, strip, keys, n - 1), MemberEdits(before, after, strip, key), heads,
        key);
      assert heads + {key} == set i | 0 <= i < n :: keys[i];
    }
  }

  // ----- Independent changes commute

  lemma {:induction false} SameIndexSameKey(s: string, t: string, length: nat)
    requires Index(s, length, false).Ok? && Index(s, length, false) == Index(t, length, false)
    ensures s == t
  {
    Decimal.PrintOfValue(s);
    Decimal.PrintOfValue(t);
  }

  lemma {:induction false} IndependentTails(p: seq<string>, q: seq<string>)
    requires Independent(p, q) && p[0] == q[0]
    ensures Independent(p[1..], q[1..])
  {
    assert p == [p[0]] + p[1..] && q == [q[0]] + q[1..];
  }

  lemma {:induction false} UpdatesCommute(v: Json, p: seq<string>, c: Change, q: seq<string>, d: Change, strip: bool)
    requires Independent(p, q)
    requires Update(v, p, c, strip).Some? && Update(Update(v, p, c, strip).value, q, d, strip).Some?
    ensures Update(v, q, d, strip).Some?
    ensures Update(Update(v, q, d, strip).value, p, c, strip) == Update(Update(v, p, c, strip).value, q, d, strip)
    decreases |p|
  {
    if p[0] != q[0] {
      if v.Arr? { ItemUpdatesCommute(v, p, c, q, d, strip); } else { MemberUpdatesCommute(v, p, c, q, d, strip); }
    } else {
      var inner := StripBelow(p[0], strip);
      IndependentTails(p, q);
      match v
      case Arr(items) =>
        var i: nat := Index(p[0], |items|, false).value;
        UpdatesCommute(items[i], p[1..], c, q[1..], d, inner);
        var x: Json := Update(items[i], p[1..], c, inner).value;
        var y: Json := Update(items[i], q[1..], d, inner).value;
        var z: Json := Update(x, q[1..], d, inner).value;
        assert items[i := x][i := z] == items[i := y][i := z];
      case Obj(fields) =>
        assert p[1..] != [] && q[1..] != [];
        UpdateInMember(fields, p, c, strip);
        UpdateInMember(fields[p[0] := Update(fields[p[0]], p[1..], c, inner).value], q, d, strip);
        UpdatesCommute(fields[p[0]], p[1..], c, q[1..], d, inner);
        SameMemberUpdatesCommute(fields, p, c, q, d, strip);
    }
  }

  lemma {:induction false} UpdateInMember(fields: map<string, Json>, p: seq<string>, c: Change, strip: bool)
    requires |p| > 1 && p[0] in fields
    ensures Update(Obj(fields), p, c, strip) ==
      match Update(fields[p[0]], p[1..], c, StripBelow(p[0], strip))
      case None => None
      case Some(w) => Some(Obj(fields[p[0] := w]))
  {
    assert p[1..] != [];
  }

  lemma {:induction false} SameMemberUpdatesCommute(fields: map<string, Json>, p: seq<string>, c: Change,
      q: seq<string>, d: Change, strip: bool)
    requires |p| > 1 && |q| > 1 && p[0] == q[0] && p[0] in fields
    requires var inner := StripBelow(p[0], strip);
      && Update(fields[p[0]], p[1..], c, inner).Some?
      && Update(Update(fields[p[0]], p[1..], c, inner).value, q[1..], d, inner).Some?
      && Update(fields[p[0]], q[1..], d, inner).Some?
      && Update(Update(fields[p[0]], q[1..], d, inner).value, p[1..], c, inner) ==
         Update(Update(fields[p[0]], p[1..], c, inner).value, q[1..], d, inner)
    ensures Update(Obj(fields), q, d, strip).Some? && Update(Obj(fields), p, c, strip).Some?
    ensures Update(Update(Obj(fields), q, d, strip).value, p, c, strip) ==
      Update(Update(Obj(fields), p, c, strip).value, q, d, strip)
  {
    var inner, k := StripBelow(p[0], strip), p[0];
    var x: Json := Update(fields[k], p[1..], c, inner).value;
    var y: Json := Update(fields[k], q[1..], d, inner).value;
    var z: Json := Update(x, q[1..], d, inner).value;
    UpdateInMember(fields, p, c, strip);
    UpdateInMember(fields, q, d, strip);
    UpdateInMember(fields[k := x], q, d, strip);
    UpdateInMember(fields[k := y], p, c, strip);
    assert fields[k := x][k := z] == fields[k := y][k := z];
  }

  lemma {:induction false} ItemUpdatesCommute(v: Json, p: seq<string>, c: Change, q: seq<string>, d: Change,
      strip: bool)
    requires v.Arr? && p != [] && q != [] && p[0] != q[0]
    requires Update(v, p, c, strip).Some? && Update(Update(v, p, c, strip).value, q, d, strip).Some?
    ensures Update(v, q, d, strip).Some?
    ensures Update(Update(v, q, d, strip).value, p, c, strip) == Update(Update(v, p, c, strip).value, q, d, strip)
  {
    var items: seq<Json> := v.items;
    var i: nat := Index(p[0], |items|, false).value;
    var j: nat := Index(q[0], |items|, false).value;
    if i == j { SameIndexSameKey(p[0], q[0], |items|); }
    var x: Json := Update(items[i], p[1..], c, StripBelow(p[0], strip)).value;
    var y: Json := Update(items[j], q[1..], d, StripBelow(q[0], strip)).value;
    assert items[i := x][j := y] == items[j := y][i := x];
  }

  /** What an update does to the members, when the value has any. */
  lemma {:induction false} UpdateOfMember(v: Json, p: seq<string>, c: Change, strip: bool)
    requires !v.Arr? && p != [] && Update(v, p, c, strip).Some?
    ensures v.Obj? && var m := UpdateMember(Member(v.fields, p[0]), p[1..], c, StripBelow(p[0], strip));
      m.Some? && Update(v, p, c, strip).value == Obj(WithMember(v.fields, p[0], m.value))
  {
  }

  lemma {:induction false} MemberIsUpdated(fields: map<string, Json>, p: seq<string>, c: Change, strip: bool,
      m: Option<Json>)
    requires p != [] && UpdateMember(Member(fields, p[0]), p[1..], c, StripBelow(p[0], strip)) == Some(m)
    ensures Update(Obj(fields), p, c, strip) == Some(Obj(WithMember(fields, p[0], m)))
  {
  }

  lemma {:induction false} OtherMember(fields: map<string, Json>, k: string, x: Option<Json>, l: string,
      y: Option<Json>)
    requires k != l
    ensures Member(WithMember(fields, k, x), l) == Member(fields, l)
    ensures WithMember(WithMember(fields, k, x), l, y) == WithMember(WithMember(fields, l, y), k, x)
  {
  }

  lemma {:induction false} MemberUpdatesCommute(v: Json, p: seq<string>, c: Change, q: seq<string>, d: Change,
      strip: bool)
    requires !v.Arr? && p != [] && q != [] && p[0] != q[0]
    requires Update(v, p, c, strip).Some? && Update(Update(v, p, c, strip).value, q, d, strip).Some?
    ensures Update(v, q, d, strip).Some?
    ensures Update(Update(v, q, d, strip).value, p, c, strip) == Update(Update(v, p, c, strip).value, q, d, strip)
  {
    UpdateOfMember(v, p, c, strip);
    var fields, k, l := v.fields, p[0], q[0];
    var x := UpdateMember(Member(fields, k), p[1..], c, StripBelow(k, strip)).value;
    UpdateOfMember(Obj(WithMember(fields, k, x)), q, d, strip);
    OtherMember(fields, k, x, l, None);
    var y := UpdateMember(Member(fields, l), q[1..], d, StripBelow(l, strip)).value;
    OtherMember(fields, k, x, l, y);
    OtherMember(fields, l, y, k, x);
    MemberIsUpdated(fields, q, d, strip, y);
    MemberIsUpdated(WithMember(fields, l, y), p, c, strip, x);
  }

  /** An edit can be moved to the front of edits it is independent of. */
  lemma {:induction false} MoveToFront(v: Json, xs: seq<Edit>, e: Edit, ys: seq<Edit>, strip: bool)
    requires forall i :: 0 <= i < |xs| ==> Independent(xs[i].segments, e.segments)
    requires UpdateAll(v, xs + [e] + ys, strip).Some?
    ensures UpdateAll(v, [e] + (xs + ys), strip) == UpdateAll(v, xs + [e] + ys, strip)
    decreases |xs|
  {
    if xs == [] {
      assert xs + [e] + ys == [e] + (xs + ys);
    } else {
      var x, rest := xs[0], xs[1..];
      assert (xs + [e] + ys)[1..] == rest + [e] + ys;
      MoveToFront(Update(v, x.segments, x.change, strip).value, rest, e, ys, strip);
      assert xs + ys == [x] + (rest + ys);
      SwapFirst(v, x, e, rest + ys, strip);
    }
  }

  lemma {:induction false} SwapFirst(v: Json, x: Edit, e: Edit, rest: seq<Edit>, strip: bool)
    requires Independent(x.segments, e.segments) && Update(v, x.segments, x.change, strip).Some?
    requires UpdateAll(Update(v, x.segments, x.change, strip).value, [e] + rest, strip).Some?
    ensures UpdateAll(v, [e] + ([x] + rest), strip) ==
      UpdateAll(Update(v, x.segments, x.change, strip).value, [e] + rest, strip)
  {
    assert ([e] + rest)[1..] == rest;
    UpdatesCommute(v, x.segments, x.change, e.segments, e.change, strip);
    assert ([e] + ([x] + rest))[1..] == [x] + rest && ([x] + rest)[1..] == rest;
  }

  function Without<T>(s: seq<T>, i: nat): (r: seq<T>)
    requires i < |s|
    ensures |r| == |s| - 1
    ensures forall j :: 0 <= j < |r| ==> r[j] == s[if j < i then j else j + 1]
  {
    s[..i] + s[i + 1..]
  }

  lemma {:induction false} MultisetWithout<T>(s: seq<T>, i: nat, t: seq<T>)
    requires i < |s| && t != [] && s[i] == t[0] && multiset(s) == multiset(t)
    ensures multiset(Without(s, i)) == multiset(t[1..])
  {
    var x := multiset{s[i]};
    assert s == s[..i] + [s[i]] + s[i + 1..];
    assert Without(s, i) == s[..i] + s[i + 1..];
    assert multiset(s) == multiset(Without(s, i)) + x;
    assert t == [t[0]] + t[1..];
    assert multiset(t) == x + multiset(t[1..]);
    assert multiset(Without(s, i)) == multiset(s) - x;
  }

  lemma {:induction false} IndependentWithout(edits: seq<Edit>, i: nat)
    requires i < |edits| && AllIndependent(edits)
    ensures AllIndependent(Without(edits, i))
  {
    var rest := Without(edits, i);
    forall j, k | 0 <= j < k < |rest| ensures Independent(rest[j].segments, rest[k].segments) {
      assert Independent(edits[if j < i then j else j + 1].segments, edits[if k < i then k else k + 1].segments);
    }
  }

  /** Making one of the edits first changes nothing. */
  lemma {:induction false} FirstOfAll(v: Json, edits: seq<Edit>, i: nat)
    requires i < |edits| && AllIndependent(edits) && UpdateAll(v, edits, true).Some?
    ensures Update(v, edits[i].segments, edits[i].change, true).Some?
    ensures UpdateAll(Update(v, edits[i].segments, edits[i].change, true).value, Without(edits, i), true) ==
      UpdateAll(v, edits, true)
  {
    var xs, e, ys := edits[..i], edits[i], edits[i + 1..];
    assert edits == xs + [e] + ys;
    MoveToFront(v, xs, e, ys, true);
    assert ([e] + (xs + ys))[1..] == xs + ys;
  }

  /** Operations that encode independent edits give the same tree in any order. */
  lemma {:induction false} AnyOrder(v: Json, edits: seq<Edit>, operations: seq<Operation>)
    requires AllIndependent(edits) && UpdateAll(v, edits, true).Some?
    requires multiset(operations) == multiset(Encode(edits, []))
    ensures ApplyAll(v, operations) == Ok(UpdateAll(v, edits, true).value)
    decreases |operations|
  {
    assert |operations| == |multiset(operations)| == |Encode(edits, [])|;
    if operations != [] {
      var i := FirstOperation(edits, operations);
      var e := edits[i];
      FirstOfAll(v, edits, i);
      UpdateIsApplyOperation(v, e.segments, e.change);
      IndependentWithout(edits, i);
      AnyOrder(Update(v, e.segments, e.change, true).value, Without(edits, i), operations[1..]);
    }
  }

  lemma {:induction false} FirstOperation(edits: seq<Edit>, operations: seq<Operation>) returns (i: nat)
    requires operations != [] && multiset(operations) == multiset(Encode(edits, []))
    ensures i < |edits| && operations[0] == Operation(Pointer(edits[i].segments), edits[i].change)
    ensures multiset(operations[1..]) == multiset(Encode(Without(edits, i), []))
  {
    var encoded := Encode(edits, []);
    assert operations[0] in multiset(encoded);
    i :| 0 <= i < |encoded| && encoded[i] == operations[0];
    assert [] + edits[i].segments == edits[i].segments;
    MultisetWithout(encoded, i, operations);
    assert Without(encoded, i) == Encode(Without(edits, i), []);
  }

  // ----- Laws of patches

  /** A patch is empty exactly when the cleaned trees are equal. */
  lemma {:induction false} EmptyPatchMeansEqual(before: Json, after: Json, strip: bool)
    ensures Edits(before, after, strip) == [] <==> JsonEqual(Clean(before, strip), Clean(after, strip))
    decreases before, 1, 0
  {
    if JsonEqual(Clean(before, strip), Clean(after, strip)) {
    } else if before.Arr? && after.Arr? && |before.items| == |after.items| {
      if Edits(before, after, strip) == [] {
        EmptyItems(before, after, strip, |before.items|);
        EqualItems(before, after, strip);
      }
    } else if before.Obj? && after.Obj? {
      var keys := SharedKeys(before, after, strip);
      if Edits(before, after, strip) == [] {
        SharedKeysAre(before, after, strip);
        forall i | 0 <= i < |keys| ensures keys[i] in before.fields || keys[i] in after.fields {
          assert keys[i] in keys;
        }
        EmptyMembers(before, after, strip, keys, |keys|);
        EqualMembers(before, after, strip);
      }
    }
  }

  lemma {:induction false} SameFields(fs: map<string, Json>, gs: map<string, Json>)
    requires fs.Keys == gs.Keys && forall k :: k in fs ==> Canon(fs[k]) == Canon(gs[k])
    ensures Canon(Obj(fs)) == Canon(Obj(gs))
  {
    assert Canon(Obj(fs)).fields == Canon(Obj(gs)).fields;
  }

  lemma {:induction false} EqualItems(before: Json, after: Json, strip: bool)
    requires before.Arr? && after.Arr? && |before.items| == |after.items|
    requires forall i ::
      0 <= i < |before.items| ==> JsonEqual(Clean(before.items[i], strip), Clean(after.items[i], strip))
    ensures JsonEqual(Clean(before, strip), Clean(after, strip))
  {
    assert Canon(Clean(before, strip)).items == Canon(Clean(after, strip)).items;
  }

  /** Both sides have the member, and it cleans to the same. */
  ghost predicate SameMember(before: Json, after: Json, strip: bool, key: string)
    requires before.Obj? && after.Obj?
  {
    && key in before.fields && key in after.fields
    && JsonEqual(Clean(before.fields[key], StripBelow(key, strip)), Clean(after.fields[key], StripBelow(key, strip)))
  }

  lemma {:induction false} EqualMembers(before: Json, after: Json, strip: bool)
    requires before.Obj? && after.Obj?
    requires forall k :: k in SharedKeys(before, after, strip) ==> SameMember(before, after, strip, k)
    ensures JsonEqual(Clean(before, strip), Clean(after, strip))
  {
    var b, a := Clean(before, strip), Clean(after, strip);
    forall k | k in b.fields || k in a.fields
      ensures k in b.fields && k in a.fields && Canon(b.fields[k]) == Canon(a.fields[k])
    {
      assert k in SharedKeys(before, after, strip);
      assert SameMember(before, after, strip, k);
      assert b.fields[k] == Clean(before.fields[k], StripBelow(k, strip)) &&
        a.fields[k] == Clean(after.fields[k], StripBelow(k, strip));
    }
    SameFields(b.fields, a.fields);
  }

  lemma {:induction false} EmptyItems(before: Json, after: Json, strip: bool, n: nat)
    requires before.Arr? && after.Arr? && n <= |before.items| == |after.items| &&
      ItemEdits(before, after, strip, n) == []
    ensures forall i :: 0 <= i < n ==> JsonEqual(Clean(before.items[i], strip), Clean(after.items[i], strip))
    decreases before, 0, n
  {
    if n > 0 {
      EmptyItems(before, after, strip, n - 1);
      assert |ItemEdit(before, after, strip, n - 1)| == 0;
      EmptyPatchMeansEqual(before.items[n - 1], after.items[n - 1], strip);
    }
  }

  lemma {:induction false} EmptyMembers(before: Json, after: Json, strip: bool, keys: seq<string>, n: nat)
    requires before.Obj? && after.Obj? && n <= |keys| && MembersEdits(before, after, strip, keys, n) == []
    requires forall i :: 0 <= i < |keys| ==> keys[i] in before.fields || keys[i] in after.fields
    ensures forall i :: 0 <= i < n ==> SameMember(before, after, strip, keys[i])
    decreases before, 0, n
  {
    if n > 0 {
      var key := keys[n - 1];
      EmptyMembers(before, after, strip, keys, n - 1);
      assert |MemberEdits(before, after, strip, key)| == 0;
      assert key in before.fields && key in after.fields;
      EmptyPatchMeansEqual(before.fields[key], after.fields[key], StripBelow(key, strip));
    }
  }

  /**
   * The operations of a patch, in any order, never fail on a tree that cleans like `before`, and turn it into one
   * that cleans like `after`; started from the clean form itself, down to the sign of zeros.
   */
  lemma {:induction false} ReplayInAnyOrder(before: Json, after: Json, v: Json, operations: seq<Operation>)
    requires JsonEqual(v, Clean(before, true)) && multiset(operations) == multiset(Patch(before, after))
    ensures ApplyAll(v, operations).Ok? && Reaches(before, after, v, ApplyAll(v, operations).value, true)
    ensures ApplyAll(v, operations) == ApplyAll(v, Patch(before, after))
  {
    var w := ReplayEdits(before, after, v, true);
    EditsAreIndependent(before, after, true);
    AnyOrder(v, Edits(before, after, true), operations);
    AnyOrder(v, Edits(before, after, true), Patch(before, after));
  }

  lemma {:induction false} RootIsDocument(v: Json, w: Json)
    requires JsonEqual(v, w)
    ensures IsDocumentRoot(v) <==> IsDocumentRoot(w)
  {
    if v.Obj? && w.Obj? {
      assert Canon(v).fields.Keys == v.fields.Keys && Canon(w).fields.Keys == w.fields.Keys;
      forall k | k in v.fields ensures Canon(v.fields[k]) == Canon(w.fields[k]) {
        assert Canon(v).fields[k] == Canon(w).fields[k];
      }
    }
  }

  lemma {:induction false} LengthIsMetadata(root: Json)
    requires root.Obj?
    ensures Clean(Obj(root.fields["srcByteLength" := Num(Int(0))]), true) == Clean(root, true)
  {
  }

  /** A replayed patch gives the target document whatever the order of its operations. */
  lemma {:induction false} PatchThenReplay(before: Json, after: Json, document: Json, operations: seq<Operation>)
    requires JsonEqual(Clean(document, true), Clean(before, true)) &&
      multiset(operations) == multiset(Patch(before, after))
    ensures Replayed(document, operations).Ok? <==> IsDocumentRoot(Clean(after, true))
    ensures Replayed(document, operations).Ok? ==>
      var result := Replayed(document, operations).value;
      && JsonEqual(Clean(result, true), Clean(after, true))
      && (Clean(document, true) == Clean(before, true) ==>
            (Clean(result, true) == Clean(after, true) <==> ZerosAgree(before, after, true)))
  {
    ReplayInAnyOrder(before, after, Clean(document, true), operations);
    var w := ApplyAll(Clean(document, true), operations).value;
    RootIsDocument(w, Clean(after, true));
    if IsDocumentRoot(w) {
      LengthIsMetadata(w);
      CleanIsStable(w, after);
    }
  }

  /** A tree that is equal to a clean form, seen as JSON, has no metadata left to strip. */
  lemma {:induction false} CleanIsStable(w: Json, after: Json)
    requires JsonEqual(w, Clean(after, true))
    ensures Clean(w, true) == w
  {
    CleanOfCanon(w, true);
    CleanOfCanon(Clean(after, true), true);
    CleanTwice(after, true);
    CanonFixedByClean(w, true);
  }

  lemma {:induction false} CanonFixedByClean(w: Json, strip: bool)
    requires Clean(Canon(w), strip) == Canon(w)
    ensures Clean(w, strip) == w
    decreases w
  {
    match w
    case Arr(items) =>
      forall i | 0 <= i < |items| ensures Clean(items[i], strip) == items[i] {
        assert Clean(Canon(w), strip).items[i] == Canon(w).items[i];
        CanonFixedByClean(items[i], strip);
      }
      assert Clean(w, strip).items == items;
    case Obj(fields) =>
      assert Clean(Canon(w), strip).fields.Keys == Canon(w).fields.Keys == fields.Keys;
      forall k | k in fields ensures Kept(k, strip) && Clean(fields[k], StripBelow(k, strip)) == fields[k] {
        assert k in Clean(Canon(w), strip).fields;
        assert Clean(Canon(w), strip).fields[k] == Canon(w).fields[k];
        CanonFixedByClean(fields[k], StripBelow(k, strip));
      }
      assert Clean(w, strip).fields == fields;
    case _ =>
  }

  // ----- A zero whose sign alone changed

  /** Without metadata equal as JSON, but not as written. */
  ghost predicate OnlyEqual(v: Json, w: Json)
  {
    JsonEqual(Clean(v, true), Clean(w, true)) && Clean(v, true) != Clean(w, true)
  }

  lemma {:induction false} OnlyEqualMember(fields: map<string, Json>, key: string, v: Json, w: Json)
    requires Kept(key, true) && StripBelow(key, true) && OnlyEqual(v, w)
    ensures OnlyEqual(Obj(fields[key := v]), Obj(fields[key := w]))
  {
    var x, y := Clean(Obj(fields[key := v]), true), Clean(Obj(fields[key := w]), true);
    assert x.fields[key] == Clean(v, true) && y.fields[key] == Clean(w, true);
    forall k | k in x.fields ensures Canon(x.fields[k]) == Canon(y.fields[k]) {
      if k != key { assert x.fields[k] == y.fields[k]; }
    }
    SameFields(x.fields, y.fields);
  }

  lemma {:induction false} OnlyEqualItem(v: Json, w: Json)
    requires OnlyEqual(v, w)
    ensures OnlyEqual(Arr([v]), Arr([w]))
  {
    var x, y := Clean(Arr([v]), true), Clean(Arr([w]), true);
    assert x.items[0] == Clean(v, true) && y.items[0] == Clean(w, true);
    assert Canon(x).items == Canon(y).items;
  }

  function Payload(value: Json): Json { Obj(map["format" := Str("json")]["value" := value]) }

  function Extension(value: Json): Json {
    var fallback := Obj(map["type" := Str("paragraph"), "children" := Arr([])]);
    Obj(map["type" := Str("block_extension"), "name" := Str("chart"), "fallback" := fallback]["payload" :=
      Payload(value)])
  }

  /** A document whose only block carries a payload, which is kept as it was written. */
  function DocumentWith(value: Json): Json {
    Obj(map["type" := Str("document"), "srcByteLength" := Num(Int(0))]["children" := Arr([Extension(value)])])
  }

  lemma {:induction false} DocumentsOnlyEqual(v: Json, w: Json)
    requires OnlyEqual(v, w)
    ensures OnlyEqual(DocumentWith(v), DocumentWith(w))
  {
    var fallback := Obj(map["type" := Str("paragraph"), "children" := Arr([])]);
    OnlyEqualMember(map["format" := Str("json")], "value", v, w);
    OnlyEqualMember(map["type" := Str("block_extension"), "name" := Str("chart"), "fallback" := fallback], "payload",
      Payload(v), Payload(w));
    OnlyEqualItem(Extension(v), Extension(w));
    OnlyEqualMember(map["type" := Str("document"), "srcByteLength" := Num(Int(0))], "children", Arr([Extension(v)]),
      Arr([Extension(w)]));
  }

  /** Two documents that differ in the sign of a zero: the patch is empty, so the result is not the target down to
   * spelling. */
  lemma {:induction false} ZeroSignIsNotPatched()
    ensures var before, after := DocumentWith(Num(Float(0.0))), DocumentWith(Num(MinusZero));
      && IsDocumentRoot(before) && IsDocumentRoot(after) && Patch(before, after) == []
      && Clean(before, true) != Clean(after, true) && !ZerosAgree(before, after, true)
  {
    var plus, minus := Num(Float(0.0)), Num(MinusZero);
    assert OnlyEqual(plus, minus);
    DocumentsOnlyEqual(plus, minus);
    EmptyPatchMeansEqual(DocumentWith(plus), DocumentWith(minus), true);
    EqualUpToZeros(DocumentWith(plus), DocumentWith(minus), true);
  }

  // ----- The reversible pair

  /** A fingerprint of a clean tree. */
  type Fingerprint = Json -> string

  datatype ReversiblePatch = ReversiblePatch(forward: seq<Operation>, inverse: seq<Operation>, beforeMark: string,
    afterMark: string)

  function Reversible(before: Json, after: Json, mark: Fingerprint): ReversiblePatch {
    ReversiblePatch(Patch(before, after), Patch(after, before), mark(Clean(before, true)), mark(Clean(after, true)))
  }

  method CreateReversibleAstPatch(before: Json, after: Json, mark: Fingerprint) returns (r: ReversiblePatch)
    ensures r == Reversible(before, after, mark)
  {
    var forward := CreateAstPatch(before, after);
    var inverse := CreateAstPatch(after, before);
    r := ReversiblePatch(forward, inverse, mark(Clean(before, true)), mark(Clean(after, true)));
  }

  /** The patch in one direction, refused unless the document has the fingerprint it was made for. */
  function Applied(document: Json, patch: ReversiblePatch, inverse: bool, mark: Fingerprint): Result<Json> {
    if mark(Clean(document, true)) != (if inverse then patch.afterMark else patch.beforeMark)
    then Err("patch precondition does not match the document")
    else Replayed(document, if inverse then patch.inverse else patch.forward)
  }

  method ApplyReversibleAstPatch(document: Json, patch: ReversiblePatch, inverse: bool, mark: Fingerprint)
      returns (result: Result<Json>)
    ensures result == Applied(document, patch, inverse, mark)
  {
    var expected := if inverse then patch.afterMark else patch.beforeMark;
    if mark(Clean(document, true)) != expected { return Err("patch precondition does not match the document"); }
    result := ApplyAstPatch(document, if inverse then patch.inverse else patch.forward);
  }

  lemma {:induction false} ZerosAgreeBothWays(before: Json, after: Json, strip: bool)
    ensures ZerosAgree(before, after, strip) <==> ZerosAgree(after, before, strip)
    decreases before
  {
    match (before, after)
    case (Arr(xs), Arr(ys)) =>
      if |xs| == |ys| {
        forall i | 0 <= i < |xs| ensures ZerosAgree(xs[i], ys[i], strip) <==> ZerosAgree(ys[i], xs[i], strip) {
          ZerosAgreeBothWays(xs[i], ys[i], strip);
        }
      }
    case (Obj(fs), Obj(gs)) =>
      forall k | k in fs && k in gs ensures ZerosAgree(fs[k], gs[k], StripBelow(k, strip)) <==>
        ZerosAgree(gs[k], fs[k], StripBelow(k, strip)) {
        ZerosAgreeBothWays(fs[k], gs[k], StripBelow(k, strip));
      }
    case _ =>
  }

  /**
   * Undo, for any fingerprint. The forward patch is accepted and gives the target, exactly if the two documents spell
   * the zeros they share alike. The inverse is accepted on what it gave if and only if that has the fingerprint of the
   * target, and restores the document if and only if the zeros agree.
   */
  lemma {:induction false} ForwardThenInverse(before: Json, after: Json, mark: Fingerprint)
    requires IsDocumentRoot(Clean(before, true)) && IsDocumentRoot(Clean(after, true))
    ensures var patch := Reversible(before, after, mark);
      var there := Applied(before, patch, false, mark);
      && there.Ok? && JsonEqual(Clean(there.value, true), Clean(after, true))
      && (Clean(there.value, true) == Clean(after, true) <==> ZerosAgree(before, after, true))
      && var undone := Applied(there.value, patch, true, mark);
         && (undone.Ok? <==> mark(Clean(there.value, true)) == mark(Clean(after, true)))
         && (undone.Ok? ==> JsonEqual(Clean(undone.value, true), Clean(before, true)))
         && (ZerosAgree(before, after, true) ==> undone.Ok? && Clean(undone.value, true) == Clean(before, true))
  {
    PatchThenReplay(before, after, before, Patch(before, after));
    var there := Replayed(before, Patch(before, after)).value;
    PatchThenReplay(after, before, there, Patch(after, before));
    ZerosAgreeBothWays(before, after, true);
  }

  /** Where the patch is empty though the fingerprints differ, what the forward patch gives back is not the document the
   * inverse was made for. */
  lemma {:induction false} UndoIsRefused(before: Json, after: Json, mark: Fingerprint)
    requires IsDocumentRoot(Clean(before, true)) && Patch(before, after) == []
    requires mark(Clean(before, true)) != mark(Clean(after, true))
    ensures var patch := Reversible(before, after, mark);
      && Applied(before, patch, false, mark).Ok?
      && Applied(Applied(before, patch, false, mark).value, patch, true, mark).Err?
  {
    LengthIsMetadata(Clean(before, true));
    CleanTwice(before, true);
  }

  /** Undo is refused between two documents that differ in the sign of a zero, by any fingerprint that sees it. */
  lemma {:induction false} ZeroSignIsNotUndone(mark: Fingerprint)
    requires mark(Clean(DocumentWith(Num(Float(0.0))), true)) != mark(Clean(DocumentWith(Num(MinusZero)), true))
    ensures var before, after := DocumentWith(Num(Float(0.0))), DocumentWith(Num(MinusZero));
      var patch := Reversible(before, after, mark);
      && Applied(before, patch, false, mark).Ok?
      && Applied(Applied(before, patch, false, mark).value, patch, true, mark).Err?
  {
    ZeroSignIsNotPatched();
    UndoIsRefused(DocumentWith(Num(Float(0.0))), DocumentWith(Num(MinusZero)), mark);
  }
}
