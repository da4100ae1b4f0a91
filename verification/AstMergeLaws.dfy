/** What a merge without conflicts keeps of each side's edits. */
module AstMergeLaws {
  import opened JsonTree
  import MergeOrder
  import opened MergeSpec
  import opened SequencePlan
  import opened TextRuns
  import opened Wrappers

  // ----- Equality of clean forms is an equivalence that members inherit

  lemma {:induction false} SameIsEquivalence(a: Option<Json>, b: Option<Json>, c: Option<Json>, strip: bool)
    ensures Same(a, a, strip) && (Same(a, b, strip) <==> Same(b, a, strip))
    ensures Same(a, b, strip) && Same(b, c, strip) ==> Same(a, c, strip)
  {
  }

  function Member(v: Option<Json>, key: string): Option<Json> {
    if IsObj(v) then MemberOf(v.value, key) else None
  }

  lemma {:induction false} SameMember(a: Option<Json>, b: Option<Json>, key: string, strip: bool)
    requires Same(a, b, strip) && Kept(key, strip)
    ensures Same(Member(a, key), Member(b, key), StripBelow(key, strip))
  {
    if IsObj(a) && IsObj(b) {
      var x, y := Clean(a.value, strip), Clean(b.value, strip);
      assert key in x.fields <==> key in a.value.fields;
      assert key in y.fields <==> key in b.value.fields;
      assert Canon(x).fields.Keys == x.fields.Keys && Canon(y).fields.Keys == y.fields.Keys;
      if key in x.fields { assert Canon(x).fields[key] == Canon(y).fields[key]; }
    }
  }

  // ----- One value

  lemma {:induction false} SameTexts(a: Option<Json>, b: Option<Json>, c: Option<Json>)
    requires IsArr(a) && IsArr(b) && IsArr(c) && Same(a, b, true)
    ensures SameText(a.value.items, b.value.items) && (Joins(a.value.items) <==> Joins(b.value.items))
    ensures SameText(a.value.items, c.value.items) <==> SameText(b.value.items, c.value.items)
  {
    AlikeMeansSameText(a.value.items, b.value.items);
  }

  /** What only ours changed is ours, and so is what both changed alike. */
  lemma {:induction false} OursWhereTheirsIsUnchanged(b: Option<Json>, o: Option<Json>, t: Option<Json>,
      r: Option<Json>, strip: bool)
    requires Merges(b, o, t, r, strip) && (Same(t, b, strip) || Same(o, t, strip))
    ensures Same(r, o, strip) && (Same(o, t, strip) || !Same(o, b, strip) ==> r == o)
  {
    if ComparedAsText(b, o, t, strip) {
      if Same(t, b, strip) { SameTexts(t, b, o); } else { SameTexts(o, t, b); }
    }
  }

  /** What only theirs changed is theirs, unless joining the lines of a paragraph undoes all of the change. */
  lemma {:induction false} TheirsWhereOursIsUnchanged(b: Option<Json>, o: Option<Json>, t: Option<Json>,
      r: Option<Json>, strip: bool)
    requires Merges(b, o, t, r, strip) && Same(o, b, strip)
    ensures r == if (ComparedAsText(b, o, t, strip) && SameText(o.value.items, t.value.items)) || Same(o, t, strip)
      then o else t
  {
    if ComparedAsText(b, o, t, strip) {
      SameTexts(o, b, t);
      if Same(o, t, strip) { SameTexts(o, t, b); }
    }
  }

  lemma {:induction false} MemberIsMerged(b: Option<Json>, o: Option<Json>, t: Option<Json>, r: Option<Json>,
      key: string, strip: bool)
    requires Merges(b, o, t, r, strip) && IsObj(b) && IsObj(o) && IsObj(t) && AllDiffer(b, o, t, strip) &&
      Kept(key, strip)
    ensures Merges(Member(b, key), Member(o, key), Member(t, key), Member(r, key), StripBelow(key, strip))
  {
    if InAny(b.value, o.value, t.value, key) {
      assert MemberMerges(b.value, o.value, t.value, r.value, strip, key);
    }
  }

  // ----- Sequences

  /** A merged sequence is put together from a plan that fits. */
  lemma {:induction false} PlanIsWellPlaced(b: Json, o: Json, t: Json, p: Plan, strip: bool)
    requires b.Arr? && o.Arr? && t.Arr? && PlanMerges(b, o, t, p, strip)
    ensures WellPlaced(p) && Ordered(p)
  {
    MatchedFits(b.items, o.items, t.items, p.sides, strip);
    forall i {:trigger Base(i)} | 0 <= i < |b.items| && Base(i) !in p.omitted ensures i in p.sides.om.baseToSide {
      assert Survivor(p.values, i).Some?;
      assert ItemMerges(b, o, t, p.sides, i, Survivor(p.values, i), strip);
    }
  }

  /** Of each thing a merged sequence holds one: nothing is lost, and nothing is there twice. */
  lemma {:induction false} SequenceCollectsAll(b: Json, o: Json, t: Json, p: Plan, strip: bool)
    requires b.Arr? && o.Arr? && t.Arr? && PlanMerges(b, o, t, p, strip)
    ensures var items := Collect(p.order, p.values);
      MergeOrder.Distinct(p.order) && |items| == |p.order| &&
      forall k :: 0 <= k < |items| ==> p.order[k] in p.values && items[k] == p.values[p.order[k]]
  {
    PlanIsWellPlaced(b, o, t, p, strip);
    AllValued(o.items, t.items, p);
    CollectsAll(p.order, p.values);
    OrderListsBoth(p);
  }

  /**
   * What a merged sequence holds: the merge of every base item both sides still have, every addition of ours, and every
   * addition of theirs that equals none of ours in the same place.
   */
  lemma {:induction false} SequenceHolds(b: Json, o: Json, t: Json, p: Plan, strip: bool, i: nat)
    requires b.Arr? && o.Arr? && t.Arr? && PlanMerges(b, o, t, p, strip)
    ensures Base(i) in p.order <==> i < |b.items| && Paired(o, p.sides.om, i).Some? && Paired(t, p.sides.tm, i).Some?
    ensures Ours(i) in p.order <==> i < |o.items| && i !in p.sides.om.sideToBase
    ensures Theirs(i) in p.order <==> OnlyTheirs(p.sides.tm, p.shared, i)
  {
    MatchedFits(b.items, o.items, t.items, p.sides, strip);
    PlanIsWellPlaced(b, o, t, p, strip);
    PlanListsEachOnce(p, i);
    if i < |b.items| {
      assert ItemMerges(b, o, t, p.sides, i, Survivor(p.values, i), strip);
      assert Base(i) in p.omitted <==> Base(i) !in p.values;
    }
  }
}
