/** When there is a merge, and that there is only one. */
module MergeExact {
  import opened JsonTree
  import opened MergeConflicts
  import opened MergeOutcomes
  import opened MergeSpec
  import opened PlanDecided
  import opened SequencePlan
  import opened AstMergeLaws
  import Decimal
  import opened Wrappers

  // ----- What is merged is not given up

  lemma {:induction false} MergesIsNotGivenUp(b: Option<Json>, o: Option<Json>, t: Option<Json>, r: Option<Json>,
      strip: bool)
    requires Merges(b, o, t, r, strip)
    ensures !GivenUp(b, o, t, strip)
    decreases b.Some?, if b.Some? then b.value else Null, 2
  {
    if Settled(b, o, t, strip) {
      SettledIsNotGivenUp(Versions(b, o, t), strip);
    } else if IsObj(b) && IsObj(o) && IsObj(t) {
      ObjectsAreNotGivenUp(b.value, o.value, t.value, strip);
    } else {
      var p :| PlanMerges(b.value, o.value, t.value, p, strip) && r.value.items == Collect(p.order, p.values);
      forall q: Plan ensures !Blocked(b.value, o.value, t.value, q, strip) {
        MergedIsNotBlocked(b.value, o.value, t.value, p, q, strip);
      }
      ArraysAreNotGivenUp(b.value, o.value, t.value, strip);
    }
  }

  lemma {:induction false} MergedIsNotBlocked(b: Json, o: Json, t: Json, p: Plan, q: Plan, strip: bool)
    requires b.Arr? && o.Arr? && t.Arr? && PlanMerges(b, o, t, p, strip)
    ensures !Blocked(b, o, t, q, strip)
    decreases true, b, 1
  {
    MergedDrops(b, o, t, p, strip);
    PlanIsWellPlaced(b, o, t, p, strip);
    NotBlocked(b, o, t, p.values, p, q, strip);
  }

  /** A plan that merged leaves out what a side dropped, and nothing else. */
  lemma {:induction false} MergedDrops(b: Json, o: Json, t: Json, p: Plan, strip: bool)
    requires b.Arr? && o.Arr? && t.Arr? && PlanMerges(b, o, t, p, strip)
    ensures Drops(b, o, t, p, strip)
    decreases true, b, 0
  {
    MatchedFits(b.items, o.items, t.items, p.sides, strip);
    forall i: nat {:trigger Base(i)} | i < |b.items|
      ensures DropsItem(b, o, t, p.sides, i, Base(i) in p.omitted, strip) {
      var ours, theirs := Paired(o, p.sides.om, i), Paired(t, p.sides.tm, i);
      assert ItemMerges(b, o, t, p.sides, i, Survivor(p.values, i), strip);
      if ours.Some? && theirs.Some? {
        MergesIsNotGivenUp(Some(b.items[i]), ours, theirs, Survivor(p.values, i), strip);
      }
    }
  }

  // ----- Along a way down

  /** A value one version of which will do, or that was merged. */
  ghost predicate Fine(v: Versions, strip: bool) {
    Settled(v.base, v.ours, v.theirs, strip) || exists r :: Merges(v.base, v.ours, v.theirs, r, strip)
  }

  lemma {:induction false} FineMember(v: Versions, key: string, w: Versions, r: Option<Json>, strip: bool)
    requires !Settled(v.base, v.ours, v.theirs, strip) && Merges(v.base, v.ours, v.theirs, r, strip)
    requires IntoMember(v, key, w, strip)
    ensures Fine(w, StripBelow(key, strip))
  {
    MemberIsMerged(v.base, v.ours, v.theirs, r, key, strip);
    assert Merges(w.base, w.ours, w.theirs, Member(r, key), StripBelow(key, strip));
  }

  lemma {:induction false} FineItem(v: Versions, i: nat, w: Versions, sides: Pairing, r: Option<Json>, strip: bool)
    requires !Settled(v.base, v.ours, v.theirs, strip) && Merges(v.base, v.ours, v.theirs, r, strip)
    requires IntoItem(v, i, w, sides, strip)
    ensures Fine(w, strip)
  {
    var b, o, t := v.base.value, v.ours.value, v.theirs.value;
    var p :| PlanMerges(b, o, t, p, strip) && r.value.items == Collect(p.order, p.values);
    FineItemOfPlan(b, o, t, p, i, sides, strip);
  }

  lemma {:induction false} FineItemOfPlan(b: Json, o: Json, t: Json, p: Plan, i: nat, sides: Pairing, strip: bool)
    requires b.Arr? && o.Arr? && t.Arr? && i < |b.items| && PlanMerges(b, o, t, p, strip)
    requires Matched(b.items, o.items, t.items, sides, strip)
    ensures Fine(ItemVersions(b, o, t, sides, i), strip)
  {
    MatchedIsDecided(b.items, o.items, t.items, p.sides, sides, strip);
    var w, r := ItemVersions(b, o, t, p.sides, i), Survivor(p.values, i);
    assert w == ItemVersions(b, o, t, sides, i);
    assert ItemMerges(b, o, t, p.sides, i, r, strip);
    if w.ours.Some? && w.theirs.Some? {
      assert Merges(w.base, w.ours, w.theirs, r, strip);
    } else {
      LeftAloneIsSettled(w, strip);
    }
  }

  lemma {:induction false} FineBelow(v: Versions, segment: string, w: Versions, strip: bool)
    requires Fine(v, strip) && Into(v, segment, w, strip)
    ensures Fine(w, StripBelow(segment, strip))
  {
    var r :| Merges(v.base, v.ours, v.theirs, r, strip);
    if IntoMember(v, segment, w, strip) {
      FineMember(v, segment, w, r, strip);
    } else {
      var i: nat, sides: Pairing :| segment == Decimal.Print(i) && IntoItem(v, i, w, sides, strip);
      PrintIsNoName(i);
      FineItem(v, i, w, sides, r, strip);
    }
  }

  /** From three documents that were merged, every way down leads to values that are fine. */
  lemma {:induction false} FineAlong(trail: Trail)
    requires Leads(trail) && Fine(trail.Root(), true)
    ensures Fine(trail.Here(), trail.Strips())
  {
    if trail.Down? {
      FineAlong(trail.above);
      FineBelow(trail.above.Here(), trail.segment, trail.at, trail.above.Strips());
    }
  }

  lemma {:induction false} FineIsNotGivenUp(v: Versions, strip: bool)
    requires Fine(v, strip)
    ensures !GivenUp(v.base, v.ours, v.theirs, strip)
  {
    if Settled(v.base, v.ours, v.theirs, strip) {
      SettledIsNotGivenUp(v, strip);
    } else {
      var r :| Merges(v.base, v.ours, v.theirs, r, strip);
      MergesIsNotGivenUp(v.base, v.ours, v.theirs, r, strip);
    }
  }

  /** Three documents of which there is a merge are given up nowhere. */
  lemma {:induction false} MergedGivesUpNowhere(root: Versions, r: Option<Json>)
    requires Merges(root.base, root.ours, root.theirs, r, true)
    ensures !GivesUpSomewhere(root)
  {
    forall trail: Trail | Leads(trail) && trail.Root() == root
      ensures !GivenUp(trail.Here().base, trail.Here().ours, trail.Here().theirs, trail.Strips()) {
      FineAlong(trail);
      FineIsNotGivenUp(trail.Here(), trail.Strips());
    }
  }
}
