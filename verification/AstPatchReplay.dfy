/** What a generated patch does when it is replayed. */
module AstPatchReplay {
  import opened JsonTree
  import opened Pointers
  import opened AstPatch
  import Decimal
  import opened Wrappers

  // ----- A reference semantics: one change deep inside a tree that inserts into and removes from objects only

  function WithMember(fields: map<string, Json>, key: string, m: Option<Json>): map<string, Json> {
    match m
    case Some(v) => fields[key := v]
    case None => fields - {key}
  }

  function Update(v: Json, segments: seq<string>, change: Change, strip: bool): Option<Json>
    decreases |segments|, 0
  {
    if segments == [] then
      if change.Replace? then Some(Clean(change.value, strip)) else None
    else
      match v
      case Arr(items) =>
        (match Index(segments[0], |items|, false)
         case Err(_) => None
         case Ok(i) =>
           match Update(items[i], segments[1..], change, StripBelow(segments[0], strip))
           case None => None
           case Some(item) => Some(Arr(items[i := item])))
      case Obj(fields) =>
        (match UpdateMember(Member(fields, segments[0]), segments[1..], change, StripBelow(segments[0], strip))
         case None => None
         case Some(m) => Some(Obj(WithMember(fields, segments[0], m))))
      case _ => None
  }

  /** The member that takes the place of `m`, which may be absent before or after. */
  function UpdateMember(m: Option<Json>, rest: seq<string>, change: Change, strip: bool): Option<Option<Json>>
    decreases |rest|, 1
  {
    if rest == [] && change.Add? then Some(Some(Clean(change.value, strip)))
    else if m.None? then None
    else if rest == [] && change.Remove? then Some(None)
    else
      match Update(m.value, rest, change, strip)
      case None => None
      case Some(w) => Some(Some(w))
  }

  function UpdateAll(v: Json, edits: seq<Edit>, strip: bool): Option<Json>
    decreases |edits|
  {
    if edits == [] then Some(v)
    else
      match Update(v, edits[0].segments, edits[0].change, strip)
      case None => None
      case Some(w) => UpdateAll(w, edits[1..], strip)
  }

  lemma {:induction false} UpdateAllAppend(v: Json, xs: seq<Edit>, ys: seq<Edit>, strip: bool)
    requires UpdateAll(v, xs, strip).Some?
    ensures UpdateAll(v, xs + ys, strip) == UpdateAll(UpdateAll(v, xs, strip).value, ys, strip)
    decreases |xs|
  {
    if xs == [] {
      assert xs + ys == ys;
    } else {
      assert (xs + ys)[1..] == xs[1..] + ys;
      UpdateAllAppend(Update(v, xs[0].segments, xs[0].change, strip).value, xs[1..], ys, strip);
    }
  }

  lemma {:induction false} UpdateOnce(v: Json, segments: seq<string>, change: Change, strip: bool)
    ensures UpdateAll(v, [Edit(segments, change)], strip) == Update(v, segments, change, strip)
  {
    assert [Edit(segments, change)][1..] == [];
  }

  // ----- Replaying operations follows the reference semantics

  lemma {:induction false} UpdateIsApplyAt(v: Json, segments: seq<string>, change: Change, strip: bool)
    requires segments != [] && Update(v, segments, change, strip).Some?
    ensures ApplyAt(v, segments, change, strip && KEY_VALUES !in segments) ==
      Ok(Update(v, segments, change, strip).value)
    decreases |segments|
  {
    assert segments == [segments[0]] + segments[1..];
    assert KEY_VALUES in segments <==> segments[0] == KEY_VALUES || KEY_VALUES in segments[1..];
    if |segments| == 1 {
      var below := StripBelow(segments[0], strip);
      assert segments[1..] == [] && below == (strip && KEY_VALUES !in segments);
      match v
      case Arr(items) => assert Update(items[Index(segments[0], |items|, false).value], [], change, below).Some?;
      case Obj(fields) => assert UpdateMember(Member(fields, segments[0]), [], change, below).Some?;
    } else {
      match v
      case Arr(items) =>
        var i := Index(segments[0], |items|, false).value;
        UpdateIsApplyAt(items[i], segments[1..], change, StripBelow(segments[0], strip));
      case Obj(fields) =>
        UpdateIsApplyAt(fields[segments[0]], segments[1..], change, StripBelow(segments[0], strip));
    }
  }

  lemma {:induction false} UpdateIsApplyOperation(v: Json, segments: seq<string>, change: Change)
    requires Update(v, segments, change, true).Some?
    ensures ApplyOperation(v, Operation(Pointer(segments), change)) == Ok(Update(v, segments, change, true).value)
  {
    DecodePointer(segments);
    StripsMetadataOfPointer(segments);
    if segments != [] { UpdateIsApplyAt(v, segments, change, true); }
  }

  // ----- A generated patch turns one tree into the other

  /** Both trees spell each zero they share with the same sign. */
  ghost predicate ZerosAgree(before: Json, after: Json, strip: bool)
    decreases before
  {
    match (before, after)
    case (Num(m), Num(n)) => m.Plain() == n.Plain() ==> m == n
    case (Arr(xs), Arr(ys)) => |xs| == |ys| ==> forall i :: 0 <= i < |xs| ==> ZerosAgree(xs[i], ys[i], strip)
    case (Obj(fs), Obj(gs)) =>
      forall k :: k in fs && k in gs && Kept(k, strip) ==> ZerosAgree(fs[k], gs[k], StripBelow(k, strip))
    case _ => true
  }

  lemma {:induction false} EqualUpToZeros(before: Json, after: Json, strip: bool)
    requires JsonEqual(Clean(before, strip), Clean(after, strip))
    ensures Clean(before, strip) == Clean(after, strip) <==> ZerosAgree(before, after, strip)
    decreases before, 1
  {
    match (before, after)
    case (Arr(xs), Arr(ys)) => EqualItemsUpToZeros(before, after, strip);
    case (Obj(fs), Obj(gs)) => EqualMembersUpToZeros(before, after, strip);
    case _ =>
  }

  lemma {:induction false} EqualItemsUpToZeros(before: Json, after: Json, strip: bool)
    requires before.Arr? && after.Arr? && JsonEqual(Clean(before, strip), Clean(after, strip))
    ensures Clean(before, strip) == Clean(after, strip) <==> ZerosAgree(before, after, strip)
    decreases before, 0
  {
    var xs, ys := before.items, after.items;
    var b, a := Clean(before, strip), Clean(after, strip);
    assert |Canon(b).items| == |xs| && |Canon(a).items| == |ys|;
    forall i | 0 <= i < |xs| ensures b.items[i] == a.items[i] <==> ZerosAgree(xs[i], ys[i], strip) {
      assert Canon(b).items[i] == Canon(a).items[i];
      EqualUpToZeros(xs[i], ys[i], strip);
    }
    if ZerosAgree(before, after, strip) { assert b.items == a.items; }
  }

  lemma {:induction false} EqualMembersUpToZeros(before: Json, after: Json, strip: bool)
    requires before.Obj? && after.Obj? && JsonEqual(Clean(before, strip), Clean(after, strip))
    ensures Clean(before, strip) == Clean(after, strip) <==> ZerosAgree(before, after, strip)
    decreases before, 0
  {
    var fs, gs := before.fields, after.fields;
    var b, a := Clean(before, strip), Clean(after, strip);
    assert Canon(b).fields.Keys == b.fields.Keys && Canon(a).fields.Keys == a.fields.Keys;
    forall k | k in b.fields
      ensures k in fs && k in gs && (b.fields[k] == a.fields[k] <==> ZerosAgree(fs[k], gs[k], StripBelow(k, strip)))
    {
      assert Canon(b).fields[k] == Canon(a).fields[k];
      EqualUpToZeros(fs[k], gs[k], StripBelow(k, strip));
    }
    if ZerosAgree(before, after, strip) { assert b.fields == a.fields; }
    if b == a {
      forall k | k in fs && k in gs && Kept(k, strip) ensures ZerosAgree(fs[k], gs[k], StripBelow(k, strip)) {
        assert k in b.fields;
      }
    }
  }

  lemma {:induction false} UpdateBelowItem(items: seq<Json>, i: nat, edits: seq<Edit>, strip: bool)
    requires i < |items| && UpdateAll(items[i], edits, strip).Some?
    ensures UpdateAll(Arr(items), Below(Decimal.Print(i), edits), strip) ==
      Some(Arr(items[i := UpdateAll(items[i], edits, strip).value]))
    decreases |edits|
  {
    var key := Decimal.Print(i);
    var below := Below(key, edits);
    if edits != [] {
      Decimal.ValueOfPrint(i);
      assert Decimal.IsDigit(key[0]);
      assert below[0].segments[1..] == edits[0].segments && below[1..] == Below(key, edits[1..]);
      var item := Update(items[i], edits[0].segments, edits[0].change, strip).value;
      assert Update(Arr(items), below[0].segments, below[0].change, strip) == Some(Arr(items[i := item]));
      UpdateBelowItem(items[i := item], i, edits[1..], strip);
      assert items[i := item][i := UpdateAll(item, edits[1..], strip).value] ==
        items[i := UpdateAll(item, edits[1..], strip).value];
    } else {
      assert items[i := items[i]] == items;
    }
  }

  lemma {:induction false} UpdateBelowMember(fields: map<string, Json>, key: string, edits: seq<Edit>, strip: bool)
    requires key in fields && UpdateAll(fields[key], edits, StripBelow(key, strip)).Some?
    ensures UpdateAll(Obj(fields), Below(key, edits), strip) ==
            Some(Obj(fields[key := UpdateAll(fields[key], edits, StripBelow(key, strip)).value]))
    decreases |edits|
  {
    var below := Below(key, edits);
    var inner := StripBelow(key, strip);
    if edits != [] {
      assert below[0].segments[1..] == edits[0].segments && below[1..] == Below(key, edits[1..]);
      var w := Update(fields[key], edits[0].segments, edits[0].change, inner).value;
      assert Update(Obj(fields), below[0].segments, below[0].change, strip) == Some(Obj(fields[key := w]));
      UpdateBelowMember(fields[key := w], key, edits[1..], strip);
      assert fields[key := w][key := UpdateAll(w, edits[1..], inner).value] ==
        fields[key := UpdateAll(w, edits[1..], inner).value];
    } else {
      assert fields[key := fields[key]] == fields;
    }
  }

  /** `w` is what `after` cleans to; if it started from exactly what `before` cleans to, then down to the sign of
   * zeros. */
  ghost predicate Reaches(before: Json, after: Json, v: Json, w: Json, strip: bool) {
    && JsonEqual(w, Clean(after, strip))
    && (v == Clean(before, strip) ==> (w == Clean(after, strip) <==> ZerosAgree(before, after, strip)))
  }

  lemma {:induction false} ReplayEdits(before: Json, after: Json, v: Json, strip: bool) returns (w: Json)
    requires JsonEqual(v, Clean(before, strip))
    ensures UpdateAll(v, Edits(before, after, strip), strip) == Some(w) && Reaches(before, after, v, w, strip)
    decreases before, 2
  {
    if JsonEqual(Clean(before, strip), Clean(after, strip)) {
      EqualUpToZeros(before, after, strip);
      w := v;
    } else if before.Arr? && after.Arr? && |before.items| == |after.items| {
      SameItems(before, v, strip);
      w := ReplayItems(before, after, v, strip, |before.items|);
      AllItemsReached(before, after, v, w, strip);
    } else if before.Obj? && after.Obj? {
      w := ReplayObject(before, after, v, strip);
    } else {
      w := Clean(Clean(after, strip), strip);
      CleanTwice(after, strip);
      assert Edits(before, after, strip)[1..] == [];
    }
  }

  lemma {:induction false} SameItems(before: Json, v: Json, strip: bool)
    requires before.Arr? && JsonEqual(v, Clean(before, strip))
    ensures v.Arr? && |v.items| == |before.items|
    ensures forall j :: 0 <= j < |v.items| ==> JsonEqual(v.items[j], Clean(before.items[j], strip))
  {
    assert |Canon(v).items| == |before.items|;
    forall j | 0 <= j < |v.items| ensures JsonEqual(v.items[j], Clean(before.items[j], strip)) {
      assert Canon(v).items[j] == Canon(Clean(before, strip)).items[j];
    }
  }

  lemma {:induction false} ReplayObject(before: Json, after: Json, v: Json, strip: bool) returns (w: Json)
    requires before.Obj? && after.Obj? && JsonEqual(v, Clean(before, strip))
    ensures UpdateAll(v,
      MembersEdits(before, after, strip, SharedKeys(before, after, strip), |SharedKeys(before, after, strip)|),
      strip) == Some(w)
    ensures Reaches(before, after, v, w, strip)
    decreases before, 1
  {
    var keys := SharedKeys(before, after, strip);
    SharedKeysAre(before, after, strip);
    forall i | 0 <= i < |keys| ensures Kept(keys[i], strip) { SharedKeyIsKept(before, after, strip, i); }
    SameMembers(before, v, strip);
    w := ReplayMembers(before, after, v, strip, keys, |keys|);
    AllMembersReached(before, after, v, w, strip);
  }

  lemma {:induction false} ReplayItems(before: Json, after: Json, v: Json, strip: bool, n: nat) returns (w: Json)
    requires before.Arr? && after.Arr? && v.Arr? && n <= |before.items| == |after.items| == |v.items|
    requires forall j :: 0 <= j < |v.items| ==> JsonEqual(v.items[j], Clean(before.items[j], strip))
    ensures UpdateAll(v, ItemEdits(before, after, strip, n), strip) == Some(w)
    ensures w.Arr? && |w.items| == |v.items|
    ensures forall j :: 0 <= j < n ==> Reaches(before.items[j], after.items[j], v.items[j], w.items[j], strip)
    ensures forall j :: n <= j < |v.items| ==> w.items[j] == v.items[j]
    decreases before, 0, n
  {
    if n == 0 {
      w := v;
    } else {
      var i := n - 1;
      var u := ReplayItems(before, after, v, strip, i);
      var item := ReplayEdits(before.items[i], after.items[i], u.items[i], strip);
      UpdateBelowItem(u.items, i, Edits(before.items[i], after.items[i], strip), strip);
      UpdateAllAppend(v, ItemEdits(before, after, strip, i), ItemEdit(before, after, strip, i), strip);
      w := Arr(u.items[i := item]);
    }
  }

  lemma {:induction false} AllItemsReached(before: Json, after: Json, v: Json, w: Json, strip: bool)
    requires before.Arr? && after.Arr? && v.Arr? && w.Arr? && |before.items| == |after.items| == |v.items| == |w.items|
    requires forall j :: 0 <= j < |v.items| ==> Reaches(before.items[j], after.items[j], v.items[j], w.items[j], strip)
    ensures Reaches(before, after, v, w, strip)
  {
    var a := Clean(after, strip);
    assert forall j :: 0 <= j < |w.items| ==> Canon(w).items[j] == Canon(a).items[j];
    assert Canon(w).items == Canon(a).items;
    if v == Clean(before, strip) {
      assert forall j :: 0 <= j < |v.items| ==> v.items[j] == Clean(before.items[j], strip);
      assert (forall j :: 0 <= j < |w.items| ==> w.items[j] == a.items[j]) ==> w.items == a.items;
    }
  }

  lemma {:induction false} SameMembers(before: Json, v: Json, strip: bool)
    requires before.Obj? && JsonEqual(v, Clean(before, strip))
    ensures v.Obj?
    ensures forall k :: k in v.fields <==> k in before.fields && Kept(k, strip)
    ensures forall k :: k in v.fields ==> JsonEqual(v.fields[k], Clean(before.fields[k], StripBelow(k, strip)))
  {
    var b := Clean(before, strip);
    assert Canon(v).fields.Keys == v.fields.Keys && Canon(b).fields.Keys == b.fields.Keys;
    forall k | k in v.fields
      ensures k in before.fields && JsonEqual(v.fields[k], Clean(before.fields[k], StripBelow(k, strip))) {
      assert Canon(v).fields[k] == Canon(b).fields[k];
    }
  }

  /** The member `key` of `w` is what it should be after replaying from `v`. */
  ghost predicate MemberReached(before: Json, after: Json, v: Json, w: Json, strip: bool, key: string)
    requires before.Obj? && after.Obj? && v.Obj? && w.Obj?
  {
    var inner := StripBelow(key, strip);
    && (key in w.fields <==> key in after.fields)
    && (key in w.fields && key !in before.fields ==> w.fields[key] == Clean(after.fields[key], inner))
    && (key in w.fields && key in before.fields ==>
          key in v.fields && Reaches(before.fields[key], after.fields[key], v.fields[key], w.fields[key], inner))
  }

  ghost predicate MembersReached(before: Json, after: Json, v: Json, w: Json, strip: bool, keys: seq<string>, n: nat)
    requires before.Obj? && after.Obj? && v.Obj? && w.Obj? && n <= |keys|
  {
    forall i {:trigger MemberReached(before, after, v, w, strip, keys[i])} :: 0 <= i < n ==>
      MemberReached(before, after, v, w, strip, keys[i])
  }

  lemma {:induction false} ReplayMembers(before: Json, after: Json, v: Json, strip: bool, keys: seq<string>, n: nat)
      returns (w: Json)
    requires before.Obj? && after.Obj? && v.Obj? && n <= |keys|
    requires forall k :: k in v.fields <==> k in before.fields && Kept(k, strip)
    requires forall k :: k in v.fields ==> JsonEqual(v.fields[k], Clean(before.fields[k], StripBelow(k, strip)))
    requires forall i :: 0 <= i < |keys| ==> Kept(keys[i], strip)
    requires forall i, j :: 0 <= i < j < |keys| ==> keys[i] != keys[j]
    ensures UpdateAll(v, MembersEdits(before, after, strip, keys, n), strip) == Some(w) && w.Obj?
    ensures MembersReached(before, after, v, w, strip, keys, n)
    ensures forall k :: k !in keys[..n] ==> Member(w.fields, k) == Member(v.fields, k)
    decreases before, 0, n
  {
    if n == 0 {
      w := v;
    } else {
      var key := keys[n - 1];
      var u := ReplayMembers(before, after, v, strip, keys, n - 1);
      assert key !in keys[..n - 1];
      assert Member(u.fields, key) == Member(v.fields, key);
      w := ReplayMember(before, after, u, strip, key);
      UpdateAllAppend(v, MembersEdits(before, after, strip, keys, n - 1), MemberEdits(before, after, strip, key),
        strip);
      StillReached(before, after, v, u, w, strip, keys, n - 1);
      OthersStay(v, u, w, keys, n - 1);
    }
  }

  lemma {:induction false} OthersStay(v: Json, u: Json, w: Json, keys: seq<string>, n: nat)
    requires v.Obj? && u.Obj? && w.Obj? && n < |keys|
    requires forall k :: k !in keys[..n] ==> Member(u.fields, k) == Member(v.fields, k)
    requires forall k :: k != keys[n] ==> Member(w.fields, k) == Member(u.fields, k)
    ensures forall k :: k !in keys[..n + 1] ==> Member(w.fields, k) == Member(v.fields, k)
  {
    assert keys[..n + 1] == keys[..n] + [keys[n]];
  }

  lemma {:induction false} StillReached(before: Json, after: Json, v: Json, u: Json, w: Json, strip: bool,
      keys: seq<string>, n: nat)
    requires before.Obj? && after.Obj? && v.Obj? && u.Obj? && w.Obj? && n < |keys|
    requires forall i, j :: 0 <= i < j < |keys| ==> keys[i] != keys[j]
    requires MembersReached(before, after, v, u, strip, keys, n)
    requires forall k :: k != keys[n] ==> Member(w.fields, k) == Member(u.fields, k)
    requires MemberReached(before, after, v, w, strip, keys[n])
    ensures MembersReached(before, after, v, w, strip, keys, n + 1)
  {
    forall i {:trigger MemberReached(before, after, v, w, strip, keys[i])} | 0 <= i < n
      ensures MemberReached(before, after, v, w, strip, keys[i]) {
      assert MemberReached(before, after, v, u, strip, keys[i]);
      assert Member(w.fields, keys[i]) == Member(u.fields, keys[i]);
    }
  }

  lemma {:induction false} ReplayMember(before: Json, after: Json, u: Json, strip: bool, key: string) returns (w: Json)
    requires before.Obj? && after.Obj? && u.Obj?
    requires key in u.fields <==> key in before.fields
    requires key in u.fields ==> JsonEqual(u.fields[key], Clean(before.fields[key], StripBelow(key, strip)))
    ensures UpdateAll(u, MemberEdits(before, after, strip, key), strip) == Some(w) && w.Obj?
    ensures MemberReached(before, after, u, w, strip, key)
    ensures forall k :: k != key ==> Member(w.fields, k) == Member(u.fields, k)
    decreases before, 0, 0
  {
    var inner := StripBelow(key, strip);
    assert [key][1..] == [];
    if key in before.fields && key in after.fields {
      var field := ReplayEdits(before.fields[key], after.fields[key], u.fields[key], inner);
      UpdateBelowMember(u.fields, key, Edits(before.fields[key], after.fields[key], inner), strip);
      w := Obj(u.fields[key := field]);
    } else if key in before.fields {
      w := Obj(u.fields - {key});
      UpdateOnce(u, [key], Remove, strip);
    } else if key in after.fields {
      CleanTwice(after.fields[key], inner);
      w := Obj(u.fields[key := Clean(after.fields[key], inner)]);
      UpdateOnce(u, [key], Add(Clean(after.fields[key], inner)), strip);
    } else {
      w := u;
    }
  }

  lemma {:induction false} AllMembersReached(before: Json, after: Json, v: Json, w: Json, strip: bool)
    requires before.Obj? && after.Obj? && v.Obj? && w.Obj?
    requires forall k :: k in v.fields ==> k in before.fields && Kept(k, strip)
    requires var keys := SharedKeys(before, after, strip);
      && MembersReached(before, after, v, w, strip, keys, |keys|)
      && (forall k :: k !in keys[..|keys|] ==> Member(w.fields, k) == Member(v.fields, k))
    ensures Reaches(before, after, v, w, strip)
  {
    var keys := SharedKeys(before, after, strip);
    var a := Clean(after, strip);
    assert keys[..|keys|] == keys;
    forall k ensures k in w.fields <==> k in a.fields {
      if k in keys {
        var i :| 0 <= i < |keys| && keys[i] == k;
        assert MemberReached(before, after, v, w, strip, keys[i]);
      } else {
        assert Member(w.fields, k) == Member(v.fields, k);
      }
    }
    forall k | k in w.fields
      ensures MemberReached(before, after, v, w, strip, k)
    {
      assert k in keys;
      var i :| 0 <= i < |keys| && keys[i] == k;
      assert MemberReached(before, after, v, w, strip, keys[i]);
    }
    SameMembersAsAfter(before, after, v, w, strip);
    if v == Clean(before, strip) { SameZerosAsAfter(before, after, v, w, strip); }
  }

  lemma {:induction false} SameMembersAsAfter(before: Json, after: Json, v: Json, w: Json, strip: bool)
    requires before.Obj? && after.Obj? && v.Obj? && w.Obj?
    requires w.fields.Keys == Clean(after, strip).fields.Keys
    requires forall k :: k in w.fields ==> MemberReached(before, after, v, w, strip, k)
    ensures JsonEqual(w, Clean(after, strip))
  {
    var a := Clean(after, strip);
    forall k | k in w.fields ensures Canon(w.fields[k]) == Canon(a.fields[k]) {
      assert MemberReached(before, after, v, w, strip, k);
    }
    assert Canon(w).fields == Canon(a).fields;
  }

  lemma {:induction false} SameZerosAsAfter(before: Json, after: Json, v: Json, w: Json, strip: bool)
    requires before.Obj? && after.Obj? && v == Clean(before, strip) && w.Obj?
    requires w.fields.Keys == Clean(after, strip).fields.Keys
    requires forall k :: k in w.fields ==> MemberReached(before, after, v, w, strip, k)
    ensures w == Clean(after, strip) <==> ZerosAgree(before, after, strip)
  {
    var a := Clean(after, strip);
    forall k | k in w.fields
      ensures w.fields[k] == a.fields[k] <==>
        (k in before.fields ==> ZerosAgree(before.fields[k], after.fields[k], StripBelow(k, strip)))
    {
      assert MemberReached(before, after, v, w, strip, k);
    }
    if ZerosAgree(before, after, strip) {
      assert w.fields == a.fields;
    }
    if w == a {
      forall k | k in before.fields && k in after.fields && Kept(k, strip)
        ensures ZerosAgree(before.fields[k], after.fields[k], StripBelow(k, strip))
      {
        assert k in w.fields;
      }
    }
  }
}
