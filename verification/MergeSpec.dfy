/** What a three-way merge of exchange trees must give when it meets no conflict. */
module MergeSpec {
  import opened JsonTree
  import opened MatchSides
  import opened SequencePlan
  import opened TextRuns
  import opened Wrappers

  predicate IsArr(v: Option<Json>) { v.Some? && v.value.Arr? }

  predicate IsObj(v: Option<Json>) { v.Some? && v.value.Obj? }

  function MemberOf(v: Json, key: string): Option<Json>
    requires v.Obj?
  {
    if key in v.fields then Some(v.fields[key]) else None
  }

  /** Three paragraphs' contents, compared by their joined text. */
  ghost predicate ComparedAsText(b: Option<Json>, o: Option<Json>, t: Option<Json>, strip: bool) {
    strip && IsArr(b) && IsArr(o) && IsArr(t) && Joins(b.value.items) && Joins(o.value.items) && Joins(t.value.items)
  }

  /** All three differ. */
  ghost predicate AllDiffer(b: Option<Json>, o: Option<Json>, t: Option<Json>, strip: bool) {
    !Same(o, t, strip) && !Same(o, b, strip) && !Same(t, b, strip)
  }

  /** What `r` must be when the merge of `o` and `t` against `b` meets no conflict. */
  ghost predicate Merges(b: Option<Json>, o: Option<Json>, t: Option<Json>, r: Option<Json>, strip: bool)
    decreases b.Some?, if b.Some? then b.value else Null, 2
  {
    if ComparedAsText(b, o, t, strip) && SameText(o.value.items, t.value.items) then r == o
    else if ComparedAsText(b, o, t, strip) && SameText(o.value.items, b.value.items) then r == t
    else if ComparedAsText(b, o, t, strip) && SameText(t.value.items, b.value.items) then r == o
    else if Same(o, t, strip) then r == o
    else if Same(o, b, strip) then r == t
    else if Same(t, b, strip) then r == o
    else if IsArr(b) && IsArr(o) && IsArr(t) then IsArr(r) && SequenceMerges(b.value, o.value, t.value, r.value, strip)
    else if IsObj(b) && IsObj(o) && IsObj(t) then IsObj(r) && MembersMerge(b.value, o.value, t.value, r.value, strip)
    else false
  }

  predicate InAny(b: Json, o: Json, t: Json, key: string)
    requires b.Obj? && o.Obj? && t.Obj?
  {
    key in b.fields || key in o.fields || key in t.fields
  }

  ghost predicate MembersMerge(b: Json, o: Json, t: Json, r: Json, strip: bool)
    requires b.Obj? && o.Obj? && t.Obj? && r.Obj?
    decreases true, b, 1
  {
    && (forall k :: k in r.fields ==> Kept(k, strip) && InAny(b, o, t, k))
    && (forall k {:trigger MemberMerges(b, o, t, r, strip, k)} ::
      Kept(k, strip) && InAny(b, o, t, k) ==> MemberMerges(b, o, t, r, strip, k))
  }

  ghost predicate MemberMerges(b: Json, o: Json, t: Json, r: Json, strip: bool, key: string)
    requires b.Obj? && o.Obj? && t.Obj? && r.Obj?
    decreases true, b, 0
  {
    Merges(MemberOf(b, key), MemberOf(o, key), MemberOf(t, key), MemberOf(r, key), StripBelow(key, strip))
  }

  ghost predicate SequenceMerges(b: Json, o: Json, t: Json, r: Json, strip: bool)
    requires b.Arr? && o.Arr? && t.Arr? && r.Arr?
    decreases true, b, 1
  {
    exists p :: PlanMerges(b, o, t, p, strip) && r.items == Collect(p.order, p.values)
  }

  ghost predicate PlanMerges(b: Json, o: Json, t: Json, p: Plan, strip: bool)
    requires b.Arr? && o.Arr? && t.Arr?
    decreases true, b, 0, 2
  {
    && Matched(b.items, o.items, t.items, p.sides, strip) && Added(o.items, t.items, p.values, p) && Ordered(p)
    && ItemsMerge(b, o, t, p.sides, p.values, strip, |b.items|)
  }

  /** The value an item of the base ends with, if it survives. */
  function Survivor(values: map<Token, Json>, i: nat): Option<Json> {
    if Base(i) in values then Some(values[Base(i)]) else None
  }

  ghost predicate ItemsMerge(b: Json, o: Json, t: Json, sides: Pairing, values: map<Token, Json>, strip: bool, n: nat)
    requires b.Arr? && o.Arr? && t.Arr? && n <= |b.items|
    decreases true, b, 0, 1
  {
    forall i: nat {:trigger Survivor(values, i)} :: i < n ==> ItemMerges(b, o, t, sides, i, Survivor(values, i), strip)
  }

  /** An item both sides still have is merged; one that a side dropped is gone, and the other side had left it alone. */
  ghost predicate ItemMerges(b: Json, o: Json, t: Json, sides: Pairing, i: nat, r: Option<Json>, strip: bool)
    requires b.Arr? && o.Arr? && t.Arr? && i < |b.items|
    decreases true, b, 0, 0
  {
    var ours, theirs := Paired(o, sides.om, i), Paired(t, sides.tm, i);
    if ours.Some? && theirs.Some? then r.Some? && Merges(Some(b.items[i]), ours, theirs, r, strip)
    else
      && r.None?
      && (ours.Some? ==> Same(Some(b.items[i]), ours, strip))
      && (theirs.Some? ==> Same(Some(b.items[i]), theirs, strip))
  }

  /** What a side has made of a base item. */
  function Paired(side: Json, m: SideMatch, i: nat): Option<Json>
    requires side.Arr?
  {
    if i in m.baseToSide && m.baseToSide[i] < |side.items| then Some(side.items[m.baseToSide[i]]) else None
  }

  lemma {:induction false} MergesIsPresent(b: Option<Json>, o: Option<Json>, t: Option<Json>, r: Option<Json>,
      strip: bool)
    requires Merges(b, o, t, r, strip) && o.Some? && t.Some?
    ensures r.Some?
  {
  }
}
