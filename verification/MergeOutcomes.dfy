/** What the steps of a merge come to, with or without conflicts. */
module MergeOutcomes {
  import opened JsonTree
  import MergeOrder
  import opened MergeConflicts
  import opened MergeSpec
  import opened PlanDecided
  import opened SequencePlan
  import opened Wrappers

  // ----- One value

  /** A quiet merge is as specified. Of two versions that are both there nothing comes exactly where the merge gives
   * up. */
  ghost predicate Outcome(v: Versions, r: Option<Json>, quiet: bool, strip: bool) {
    && (quiet ==> Merges(v.base, v.ours, v.theirs, r, strip))
    && (v.ours.Some? && v.theirs.Some? ==> (r.None? <==> GivenUp(v.base, v.ours, v.theirs, strip)))
  }

  lemma {:induction false} SettledOutcome(v: Versions, r: Option<Json>, strip: bool)
    requires Merges(v.base, v.ours, v.theirs, r, strip) && Settled(v.base, v.ours, v.theirs, strip)
    ensures Outcome(v, r, true, strip)
  {
    SettledIsNotGivenUp(v, strip);
    if v.ours.Some? && v.theirs.Some? { MergesIsPresent(v.base, v.ours, v.theirs, r, strip); }
  }

  lemma {:induction false} GivenUpOutcome(reason: Reason, v: Versions, strip: bool)
    requires GivesUp(reason, v.base, v.ours, v.theirs, strip)
    ensures Outcome(v, None, false, strip)
  {
  }

  lemma {:induction false} ObjectOutcome(b: Json, o: Json, t: Json, r: Json, quiet: bool, strip: bool)
    requires b.Obj? && o.Obj? && t.Obj? && r.Obj? && !Settled(Some(b), Some(o), Some(t), strip)
    requires quiet ==> MembersMerge(b, o, t, r, strip)
    ensures Outcome(Versions(Some(b), Some(o), Some(t)), Some(r), quiet, strip)
  {
    ObjectsAreNotGivenUp(b, o, t, strip);
  }

  lemma {:induction false} SequenceOutcome(b: Json, o: Json, t: Json, r: Json, quiet: bool, strip: bool)
    requires b.Arr? && o.Arr? && t.Arr? && r.Arr? && !Settled(Some(b), Some(o), Some(t), strip)
    requires quiet ==> SequenceMerges(b, o, t, r, strip)
    requires forall q: Plan :: !Blocked(b, o, t, q, strip)
    ensures Outcome(Versions(Some(b), Some(o), Some(t)), Some(r), quiet, strip)
  {
    ArraysAreNotGivenUp(b, o, t, strip);
    if quiet { SequenceIsMerge(b, o, t, r, strip); }
  }

  lemma {:induction false} SequenceIsMerge(b: Json, o: Json, t: Json, r: Json, strip: bool)
    requires b.Arr? && o.Arr? && t.Arr? && r.Arr? && !Settled(Some(b), Some(o), Some(t), strip)
    requires SequenceMerges(b, o, t, r, strip)
    ensures Merges(Some(b), Some(o), Some(t), Some(r), strip)
  {
  }

  // ----- The members of an object

  /** The members of `out` are what they must be, as far as the first `n` keys go. */
  ghost predicate MembersMergedUpTo(b: Json, o: Json, t: Json, out: map<string, Json>, strip: bool, keys: seq<string>,
      n: nat)
    requires b.Obj? && o.Obj? && t.Obj? && n <= |keys|
  {
    && (forall k :: k in out ==> Kept(k, strip) && k in keys[..n])
    && (forall i {:trigger MemberMerges(b, o, t, Obj(out), strip, keys[i])} :: 0 <= i < n && Kept(keys[i], strip) ==>
          MemberMerges(b, o, t, Obj(out), strip, keys[i]))
  }

  /** So far, if it was quiet so far. */
  ghost predicate MembersOutcome(b: Json, o: Json, t: Json, out: map<string, Json>, quiet: bool, strip: bool,
      keys: seq<string>, n: nat) {
    b.Obj? && o.Obj? && t.Obj? && n <= |keys| && (quiet ==> MembersMergedUpTo(b, o, t, out, strip, keys, n))
  }

  /** The three versions of a member. */
  function MemberVersions(b: Json, o: Json, t: Json, key: string): Versions
    requires b.Obj? && o.Obj? && t.Obj?
  {
    Versions(MemberOf(b, key), MemberOf(o, key), MemberOf(t, key))
  }

  lemma {:induction false} OneMoreMember(b: Json, o: Json, t: Json, before: map<string, Json>, out: map<string, Json>,
      strip: bool, keys: seq<string>, n: nat, merged: Option<Json>)
    requires b.Obj? && o.Obj? && t.Obj? && n < |keys|
    requires forall i, j :: 0 <= i < j < |keys| ==> keys[i] != keys[j]
    requires MembersMergedUpTo(b, o, t, before, strip, keys, n)
    requires if Kept(keys[n], strip)
      then Merges(MemberOf(b, keys[n]), MemberOf(o, keys[n]), MemberOf(t, keys[n]), merged, StripBelow(keys[n], strip))
      else merged.None?
    requires out == if merged.Some? then before[keys[n] := merged.value] else before
    ensures MembersMergedUpTo(b, o, t, out, strip, keys, n + 1)
  {
    assert keys[..n + 1] == keys[..n] + [keys[n]];
    assert keys[n] !in before;
    assert MemberOf(Obj(out), keys[n]) == merged;
    forall i {:trigger MemberMerges(b, o, t, Obj(out), strip, keys[i])} | 0 <= i < n + 1 && Kept(keys[i], strip)
      ensures MemberMerges(b, o, t, Obj(out), strip, keys[i])
    {
      if i < n {
        assert MemberMerges(b, o, t, Obj(before), strip, keys[i]);
        assert MemberOf(Obj(out), keys[i]) == MemberOf(Obj(before), keys[i]);
      }
    }
  }

  lemma {:induction false} MembersGoOn(b: Json, o: Json, t: Json, before: map<string, Json>, out: map<string, Json>,
      wasQuiet: bool, quiet: bool, strip: bool, keys: seq<string>, n: nat, merged: Option<Json>)
    requires n < |keys| && forall i, j :: 0 <= i < j < |keys| ==> keys[i] != keys[j]
    requires MembersOutcome(b, o, t, before, wasQuiet, strip, keys, n)
    requires if Kept(keys[n], strip)
      then Outcome(MemberVersions(b, o, t, keys[n]), merged, quiet, StripBelow(keys[n], strip)) else merged.None?
    requires out == if merged.Some? then before[keys[n] := merged.value] else before
    ensures MembersOutcome(b, o, t, out, wasQuiet && quiet, strip, keys, n + 1)
  {
    if wasQuiet && quiet {
      OneMoreMember(b, o, t, before, out, strip, keys, n, merged);
    }
  }

  lemma {:induction false} AllMembersMerged(b: Json, o: Json, t: Json, out: map<string, Json>, strip: bool,
      keys: seq<string>)
    requires b.Obj? && o.Obj? && t.Obj? && MembersMergedUpTo(b, o, t, out, strip, keys, |keys|)
    requires forall k :: k in keys <==> k in b.fields.Keys + o.fields.Keys + t.fields.Keys
    ensures MembersMerge(b, o, t, Obj(out), strip)
  {
    assert keys[..|keys|] == keys;
    forall k | Kept(k, strip) && InAny(b, o, t, k) ensures MemberMerges(b, o, t, Obj(out), strip, k) {
      assert k in keys;
      var i :| 0 <= i < |keys| && keys[i] == k;
      assert MemberMerges(b, o, t, Obj(out), strip, keys[i]);
    }
  }

  // ----- The items of a sequence

  function ItemVersions(b: Json, o: Json, t: Json, sides: Pairing, i: nat): Versions
    requires b.Arr? && o.Arr? && t.Arr? && i < |b.items|
  {
    Versions(Some(b.items[i]), Paired(o, sides.om, i), Paired(t, sides.tm, i))
  }

  /** What comes of a base item. */
  ghost predicate ItemOutcome(b: Json, o: Json, t: Json, sides: Pairing, i: nat, r: Option<Json>, quiet: bool,
      strip: bool)
    requires b.Arr? && o.Arr? && t.Arr? && i < |b.items|
  {
    && (quiet ==> ItemMerges(b, o, t, sides, i, r, strip))
    && (r.Some? ==> Paired(o, sides.om, i).Some? && Paired(t, sides.tm, i).Some?)
    && DropsItem(b, o, t, sides, i, r.None?, strip)
  }

  lemma {:induction false} MergedItem(b: Json, o: Json, t: Json, sides: Pairing, i: nat, r: Option<Json>, quiet: bool,
      strip: bool)
    requires b.Arr? && o.Arr? && t.Arr? && i < |b.items| && Paired(o, sides.om, i).Some? && Paired(t, sides.tm, i).Some?
    requires Outcome(ItemVersions(b, o, t, sides, i), r, quiet, strip)
    ensures ItemOutcome(b, o, t, sides, i, r, quiet, strip)
  {
    var v := ItemVersions(b, o, t, sides, i);
    if quiet { MergesIsPresent(v.base, v.ours, v.theirs, r, strip); }
  }

  /** The other side left a dropped item alone. */
  ghost predicate LeftAlone(v: Versions, strip: bool) {
    (v.ours.Some? ==> Same(v.base, v.ours, strip)) && (v.theirs.Some? ==> Same(v.base, v.theirs, strip))
  }

  lemma {:induction false} LeftAloneIsSettled(v: Versions, strip: bool)
    requires v.base.Some? && (v.ours.None? || v.theirs.None?) && LeftAlone(v, strip)
    ensures Settled(v.base, v.ours, v.theirs, strip)
  {
  }

  lemma {:induction false} DroppedItem(b: Json, o: Json, t: Json, sides: Pairing, i: nat, quiet: bool, strip: bool)
    requires b.Arr? && o.Arr? && t.Arr? && i < |b.items| &&
      !(Paired(o, sides.om, i).Some? && Paired(t, sides.tm, i).Some?)
    requires quiet ==> LeftAlone(ItemVersions(b, o, t, sides, i), strip)
    ensures ItemOutcome(b, o, t, sides, i, None, quiet, strip)
  {
  }

  /** Of the first `n` base items each has a value or is omitted, and what has a value is paired on both sides. */
  ghost predicate Decided(sides: Pairing, values: map<Token, Json>, omitted: set<Token>, n: nat) {
    && (forall i {:trigger Base(i)} :: 0 <= i < n ==> (Base(i) in omitted <==> Base(i) !in values))
    && (forall token :: token in omitted || token in values ==> MergeOrder.IsBase(token) && token.index < n)
    && SurvivorsPaired(n, sides.om, omitted) && SurvivorsPaired(n, sides.tm, omitted)
  }

  ghost predicate DropsUpTo(b: Json, o: Json, t: Json, sides: Pairing, omitted: set<Token>, strip: bool, n: nat)
    requires b.Arr? && o.Arr? && t.Arr? && n <= |b.items|
  {
    forall i: nat {:trigger Base(i)} :: i < n ==> DropsItem(b, o, t, sides, i, Base(i) in omitted, strip)
  }

  /** What comes of the first `n` base items. */
  ghost predicate ItemsOutcome(b: Json, o: Json, t: Json, sides: Pairing, values: map<Token, Json>, omitted: set<Token>,
      quiet: bool, strip: bool, n: nat) {
    && b.Arr? && o.Arr? && t.Arr? && n <= |b.items| && Decided(sides, values, omitted, n)
    && (quiet ==> ItemsMerge(b, o, t, sides, values, strip, n)) && DropsUpTo(b, o, t, sides, omitted, strip, n)
  }

  lemma {:induction false} NoItems(b: Json, o: Json, t: Json, sides: Pairing, quiet: bool, strip: bool)
    requires b.Arr? && o.Arr? && t.Arr?
    ensures ItemsOutcome(b, o, t, sides, map[], {}, quiet, strip, 0)
  {
  }

  lemma {:induction false} OneMoreDecided(sides: Pairing, values: map<Token, Json>, omitted: set<Token>, n: nat,
      merged: Option<Json>)
    requires Decided(sides, values, omitted, n) &&
      (merged.Some? ==> n in sides.om.baseToSide && n in sides.tm.baseToSide)
    ensures merged.Some? ==> Decided(sides, values[Base(n) := merged.value], omitted, n + 1)
    ensures merged.None? ==> Decided(sides, values, omitted + {Base(n)}, n + 1)
  {
  }

  lemma {:induction false} OneMoreItem(b: Json, o: Json, t: Json, sides: Pairing, values: map<Token, Json>, strip: bool,
      n: nat, merged: Option<Json>)
    requires b.Arr? && o.Arr? && t.Arr? && n < |b.items| && ItemsMerge(b, o, t, sides, values, strip, n)
    requires Base(n) !in values && ItemMerges(b, o, t, sides, n, merged, strip)
    ensures ItemsMerge(b, o, t, sides, if merged.Some? then values[Base(n) := merged.value] else values, strip, n + 1)
  {
    var more := if merged.Some? then values[Base(n) := merged.value] else values;
    forall i: nat {:trigger Survivor(more, i)} | i < n + 1
      ensures ItemMerges(b, o, t, sides, i, Survivor(more, i), strip) {
      assert i < n ==> Survivor(more, i) == Survivor(values, i);
      assert Survivor(more, n) == merged;
    }
  }

  lemma {:induction false} OneMoreDropped(b: Json, o: Json, t: Json, sides: Pairing, omitted: set<Token>,
      more: set<Token>, strip: bool, n: nat, dropped: bool)
    requires b.Arr? && o.Arr? && t.Arr? && n < |b.items| && DropsUpTo(b, o, t, sides, omitted, strip, n)
    requires Base(n) !in omitted && DropsItem(b, o, t, sides, n, dropped, strip) && more == if dropped
      then omitted + {Base(n)} else omitted
    ensures DropsUpTo(b, o, t, sides, more, strip, n + 1)
  {
    forall i: nat {:trigger Base(i)} | i < n + 1 ensures DropsItem(b, o, t, sides, i, Base(i) in more, strip) {
      assert i < n ==> (Base(i) in more <==> Base(i) in omitted);
      assert Base(n) in more <==> dropped;
    }
  }

  function WithValue(values: map<Token, Json>, i: nat, merged: Option<Json>): map<Token, Json> {
    if merged.Some? then values[Base(i) := merged.value] else values
  }

  function WithOmitted(omitted: set<Token>, i: nat, merged: Option<Json>): set<Token> {
    if merged.Some? then omitted else omitted + {Base(i)}
  }

  lemma {:induction false} ItemsGoOn(b: Json, o: Json, t: Json, sides: Pairing, values: map<Token, Json>,
      omitted: set<Token>, wasQuiet: bool, quiet: bool, strip: bool, n: nat, merged: Option<Json>)
    requires ItemsOutcome(b, o, t, sides, values, omitted, wasQuiet, strip, n) && n < |b.items|
    requires ItemOutcome(b, o, t, sides, n, merged, quiet, strip)
    ensures ItemsOutcome(b, o, t, sides, WithValue(values, n, merged), WithOmitted(omitted, n, merged), wasQuiet &&
      quiet, strip, n + 1)
  {
    OneMoreDecided(sides, values, omitted, n, merged);
    OneMoreDropped(b, o, t, sides, omitted, WithOmitted(omitted, n, merged), strip, n, merged.None?);
    if wasQuiet && quiet { OneMoreItem(b, o, t, sides, values, strip, n, merged); }
  }

  // ----- The whole sequence

  /** What stands after the last base item is what `PutTogether` needs. */
  lemma {:induction false} ItemsAreDecided(b: Json, o: Json, t: Json, sides: Pairing, values: map<Token, Json>,
      omitted: set<Token>, quiet: bool, strip: bool)
    requires b.Arr? && ItemsOutcome(b, o, t, sides, values, omitted, quiet, strip, |b.items|) &&
      Matched(b.items, o.items, t.items, sides, strip)
    ensures Sided(o.items, t.items, sides, omitted, values)
  {
    MatchedFits(b.items, o.items, t.items, sides, strip);
  }

  lemma {:induction false} SequenceDone(b: Json, o: Json, t: Json, values: map<Token, Json>, p: Plan, strip: bool)
    requires b.Arr? && o.Arr? && t.Arr? && Matched(b.items, o.items, t.items, p.sides, strip)
    requires ItemsMerge(b, o, t, p.sides, values, strip, |b.items|)
    requires Added(o.items, t.items, values, p) && Ordered(p)
    ensures SequenceMerges(b, o, t, Arr(Collect(p.order, p.values)), strip)
  {
    forall i: nat {:trigger Survivor(p.values, i)} | i < |b.items|
      ensures ItemMerges(b, o, t, p.sides, i, Survivor(p.values, i), strip) {
      assert Survivor(p.values, i) == Survivor(values, i);
    }
    assert PlanMerges(b, o, t, p, strip);
  }

  /** Plans of the same versions leave out the same items. */
  lemma {:induction false} OmittedAreDecided(b: Json, o: Json, t: Json, p: Plan, q: Plan, strip: bool)
    requires b.Arr? && o.Arr? && t.Arr? && Matched(b.items, o.items, t.items, p.sides, strip) &&
      Matched(b.items, o.items, t.items, q.sides, strip)
    requires Drops(b, o, t, p, strip) && Drops(b, o, t, q, strip)
    ensures p.omitted == q.omitted
  {
    MatchedIsDecided(b.items, o.items, t.items, p.sides, q.sides, strip);
    forall token ensures token in p.omitted <==> token in q.omitted {
      if MergeOrder.IsBase(token) && token.index < |b.items| {
        var i := token.index;
        assert token == Base(i);
        assert DropsItem(b, o, t, p.sides, i, Base(i) in p.omitted, strip);
        assert DropsItem(b, o, t, q.sides, i, Base(i) in q.omitted, strip);
      }
    }
  }

  /** Where a plan that leaves out the right items can be completed, none is blocked. */
  lemma {:induction false} NotBlocked(b: Json, o: Json, t: Json, values: map<Token, Json>, p: Plan, q: Plan,
      strip: bool)
    requires b.Arr? && o.Arr? && t.Arr? && Matched(b.items, o.items, t.items, p.sides, strip) &&
      Drops(b, o, t, p, strip)
    requires Fitting(o.items, t.items, p.sides, p.omitted, values, p)
    ensures !Blocked(b, o, t, q, strip)
  {
    if Blocked(b, o, t, q, strip) {
      MatchedIsDecided(b.items, o.items, t.items, p.sides, q.sides, strip);
      if Clashing(o.items, t.items, q.sides) {
        ClashIsDecided(o.items, t.items, q.sides, p.sides, strip);
      } else {
        OmittedAreDecided(b, o, t, p, q, strip);
        FittingIsAcyclic(o.items, t.items, values, p);
        CyclesAreDecided(b.items, o.items, t.items, p, q, strip);
      }
    }
  }

  lemma {:induction false} FittingIsAcyclic(o: seq<Json>, t: seq<Json>, values: map<Token, Json>, p: Plan)
    requires Fitting(o, t, p.sides, p.omitted, values, p)
    ensures WellPlaced(p) && Shares(p) && Constrained(p) && MergeOrder.Acyclic(p.edges)
  {
    SurvivorsAreTokens(|p.sides.baseIds|, p.sides.om, |o|, p.oursAdd, p.omitted);
    MergeOrder.SuitsIsTopological(p.Surviving(), p.OurTokens(), p.TheirTokens(), p.edges, p.order);
    MergeOrder.OnlyIfAcyclic(p.Surviving(), p.OurTokens(), p.TheirTokens(), p.edges, p.order);
  }

  /** A sequence put together is the merge, if its items were merged quietly. */
  lemma {:induction false} PutTogetherOutcome(b: Json, o: Json, t: Json, values: map<Token, Json>, omitted: set<Token>,
      p: Plan, quiet: bool, strip: bool)
    requires b.Arr? && ItemsOutcome(b, o, t, p.sides, values, omitted, quiet, strip, |b.items|) &&
      Matched(b.items, o.items, t.items, p.sides, strip)
    requires Fitting(o.items, t.items, p.sides, omitted, values, p) && !Settled(Some(b), Some(o), Some(t), strip)
    ensures Outcome(Versions(Some(b), Some(o), Some(t)), Some(Arr(Collect(p.order, p.values))), quiet, strip)
  {
    if quiet { SequenceDone(b, o, t, values, p, strip); }
    forall q: Plan ensures !Blocked(b, o, t, q, strip) { NotBlocked(b, o, t, values, p, q, strip); }
    SequenceOutcome(b, o, t, Arr(Collect(p.order, p.values)), quiet, strip);
  }

  /** A sequence that cannot be put together is given up. */
  lemma {:induction false} BlockedGivesUp(b: Json, o: Json, t: Json, values: map<Token, Json>, omitted: set<Token>,
      p: Plan, quiet: bool, strip: bool)
    requires b.Arr? && ItemsOutcome(b, o, t, p.sides, values, omitted, quiet, strip, |b.items|) &&
      Matched(b.items, o.items, t.items, p.sides, strip)
    requires !Settled(Some(b), Some(o), Some(t), strip) && Sided(o.items, t.items, p.sides, omitted, values)
    requires Clash(o.items, t.items, p.sides) ||
      (p.omitted == omitted && WellPlaced(p) && Shares(p) && Constrained(p) && !MergeOrder.Acyclic(p.edges))
    ensures GivesUp(ConcurrentSequenceEdit, Some(b), Some(o), Some(t), strip)
  {
    if Clash(o.items, t.items, p.sides) {
      assert Clashing(o.items, t.items, p.sides) by { SidedAreWithin(o.items, t.items, p.sides, omitted, values); }
    }
    assert Blocked(b, o, t, p, strip);
  }

  lemma {:induction false} SidedAreWithin(o: seq<Json>, t: seq<Json>, sides: Pairing, omitted: set<Token>,
      values: map<Token, Json>)
    requires Sided(o, t, sides, omitted, values)
    ensures |o| == |sides.oursIds| && |t| == |sides.theirsIds| && Within(sides.om, |o|) && Within(sides.tm, |t|)
  {
  }
}
