/** The three versions of a sequence decide how it is paired and planned; the numbers the ids happen to be do not
 * matter. */
module PlanDecided {
  import opened JsonTree
  import opened MatchSides
  import MergeOrder
  import opened SequencePlan
  import opened Wrappers

  // ----- Keys that tell the same apart

  /** Between the two lists, the one numbering of keys tells the same items apart as the other. */
  ghost predicate AlikeAcross(base: seq<Key>, side: seq<Key>, base': seq<Key>, side': seq<Key>) {
    && |base| == |base'| && |side| == |side'|
    && forall i, j :: 0 <= i < |base| && 0 <= j < |side| ==> (base[i] == side[j] <==> base'[i] == side'[j])
  }

  lemma {:induction false} SameOccurrences(keys: seq<Key>, key: Key, keys': seq<Key>, key': Key, n: nat)
    requires n <= |keys| && n <= |keys'| && forall k :: 0 <= k < n ==> (keys[k] == key <==> keys'[k] == key')
    ensures Occurrences(keys, key, n) == Occurrences(keys', key', n)
  {
    if n > 0 { SameOccurrences(keys, key, keys', key', n - 1); }
  }

  lemma {:induction false} NoOccurrences(keys: seq<Key>, key: Key, n: nat)
    requires n <= |keys| && forall k :: 0 <= k < n ==> keys[k] != key
    ensures Occurrences(keys, key, n) == []
  {
    if n > 0 { NoOccurrences(keys, key, n - 1); }
  }

  lemma {:induction false} SameExactAt(m: SideMatch, base: seq<Key>, side: seq<Key>, base': seq<Key>, side': seq<Key>,
      bi: nat)
    requires AlikeAcross(base, side, base', side') && bi < |base| && ExactAt(m, base, side, bi)
    ensures ExactAt(m, base', side', bi)
  {
    SameOccurrences(side, base[bi], side', base'[bi], |side|);
    if j :| 0 <= j < |side| && side[j] == base[bi] {
      forall k | 0 <= k < bi ensures base[k] == base[bi] <==> base'[k] == base'[bi] {
        assert base[k] == side[j] <==> base'[k] == side'[j];
        assert base[bi] == side[j] <==> base'[bi] == side'[j];
      }
      SameOccurrences(base, base[bi], base', base'[bi], bi);
    } else {
      NoOccurrences(side, base[bi], |side|);
    }
  }

  lemma {:induction false} SameExact(m: SideMatch, base: seq<Key>, side: seq<Key>, base': seq<Key>, side': seq<Key>)
    requires AlikeAcross(base, side, base', side') && ExactUpTo(m, base, side, |base|)
    ensures ExactUpTo(m, base', side', |base'|)
  {
    forall bi {:trigger ExactAt(m, base', side', bi)} | 0 <= bi < |base'| ensures ExactAt(m, base', side', bi) {
      assert ExactAt(m, base, side, bi);
      SameExactAt(m, base, side, base', side', bi);
    }
  }

  // ----- The passes

  predicate SameMaps(m: SideMatch, n: SideMatch) { m.baseToSide == n.baseToSide && m.sideToBase == n.sideToBase }

  lemma {:induction false} PairsDecideMaps(m: SideMatch, n: SideMatch, bases: nat, sides: nat)
    requires Bijection(m, bases, sides) && Bijection(n, bases, sides)
    requires forall bi: nat, si: nat {:trigger m.Pairs(bi, si)} :: m.Pairs(bi, si) <==> n.Pairs(bi, si)
    ensures SameMaps(m, n)
  {
    forall bi | bi in m.baseToSide ensures bi in n.baseToSide && n.baseToSide[bi] == m.baseToSide[bi] {
      assert m.Pairs(bi, m.baseToSide[bi]);
    }
    forall bi | bi in n.baseToSide ensures bi in m.baseToSide { assert m.Pairs(bi, n.baseToSide[bi]); }
    forall si | si in m.sideToBase ensures si in n.sideToBase && n.sideToBase[si] == m.sideToBase[si] {
      assert m.Pairs(m.sideToBase[si], si);
    }
    forall si | si in n.sideToBase ensures si in m.sideToBase { assert m.Pairs(n.sideToBase[si], si); }
  }

  lemma {:induction false} SolePairsDecided(next: SideMatch, m: SideMatch, next': SideMatch, m': SideMatch,
      base: seq<Key>, side: seq<Key>)
    requires SameMaps(m, m') && AddsSolePairs(next, m, base, side) && AddsSolePairs(next', m', base, side)
    requires Bijection(next, |base|, |side|) && Bijection(next', |base|, |side|)
    ensures SameMaps(next, next')
  {
    forall bi: nat, si: nat {:trigger next.Pairs(bi, si)} ensures next.Pairs(bi, si) <==> next'.Pairs(bi, si) {
      assert m.Pairs(bi, si) <==> m'.Pairs(bi, si);
    }
    PairsDecideMaps(next, next', |base|, |side|);
  }

  lemma {:induction false} RestDecided(next: SideMatch, m: SideMatch, next': SideMatch, m': SideMatch, base: seq<Json>,
      side: seq<Json>)
    requires SameMaps(m, m') && AddsRest(next, m, base, side) && AddsRest(next', m', base, side)
    requires Bijection(next, |base|, |side|) && Bijection(next', |base|, |side|)
    ensures SameMaps(next, next')
  {
    forall bi: nat, si: nat {:trigger next.Pairs(bi, si)} ensures next.Pairs(bi, si) <==> next'.Pairs(bi, si) {
      assert m.Pairs(bi, si) <==> m'.Pairs(bi, si);
    }
    PairsDecideMaps(next, next', |base|, |side|);
  }

  /** Whatever the ids, as long as they tell the same apart: one pairing. */
  lemma {:induction false} PairingIsDecided(base: seq<Json>, side: seq<Json>, baseIds: seq<nat>, sideIds: seq<nat>,
      found: SideMatch, passes: Passes, baseIds': seq<nat>, sideIds': seq<nat>, found': SideMatch, passes': Passes)
    requires |baseIds| == |base| == |baseIds'| && |sideIds| == |side| == |sideIds'|
    requires AlikeAcross(IdKeys(baseIds), IdKeys(sideIds), IdKeys(baseIds'), IdKeys(sideIds'))
    requires PairedBy(base, side, baseIds, sideIds, found, passes)
    requires PairedBy(base, side, baseIds', sideIds', found', passes')
    ensures found == found'
  {
    SameExact(passes.exact, IdKeys(baseIds), IdKeys(sideIds), IdKeys(baseIds'), IdKeys(sideIds'));
    SharingIsDecided(passes.exact, passes'.exact, IdKeys(baseIds'), IdKeys(sideIds'), |side|);
    SolePairsDecided(passes.hinted, passes.exact, passes'.hinted, passes'.exact, HintKeys(base), HintKeys(side));
    SolePairsDecided(passes.kinded, passes.hinted, passes'.kinded, passes'.hinted, KindKeys(base), KindKeys(side));
    RestDecided(found, passes.kinded, found', passes'.kinded, base, side);
  }

  lemma {:induction false} IdsAlike(xs: seq<Json>, ys: seq<Json>, xIds: seq<nat>, yIds: seq<nat>, xIds': seq<nat>,
      yIds': seq<nat>, strip: bool)
    requires TellApart(xs, xIds, ys, yIds, strip) && TellApart(xs, xIds', ys, yIds', strip)
    ensures AlikeAcross(IdKeys(xIds), IdKeys(yIds), IdKeys(xIds'), IdKeys(yIds'))
  {
    forall i, j | 0 <= i < |xs| && 0 <= j < |ys| ensures xIds[i] == yIds[j] <==> xIds'[i] == yIds'[j] {
      assert xIds[i] == yIds[j] <==> Same(Some(xs[i]), Some(ys[j]), strip);
    }
  }

  /** One pairing of both sides. */
  lemma {:induction false} MatchedIsDecided(b: seq<Json>, o: seq<Json>, t: seq<Json>, p: Pairing, q: Pairing,
      strip: bool)
    requires Matched(b, o, t, p, strip) && Matched(b, o, t, q, strip)
    ensures p.om == q.om && p.tm == q.tm
  {
    assert MatchedOn(OurSide, b, o, t, p, strip) && MatchedOn(TheirSide, b, o, t, p, strip);
    assert MatchedOn(OurSide, b, o, t, q, strip) && MatchedOn(TheirSide, b, o, t, q, strip);
    IdsAlike(b, o, p.baseIds, p.oursIds, q.baseIds, q.oursIds, strip);
    IdsAlike(b, t, p.baseIds, p.theirsIds, q.baseIds, q.theirsIds, strip);
    PairingIsDecided(b, o, p.baseIds, p.oursIds, p.om, p.oursPasses, q.baseIds, q.oursIds, q.om, q.oursPasses);
    PairingIsDecided(b, t, p.baseIds, p.theirsIds, p.tm, p.theirsPasses, q.baseIds, q.theirsIds, q.tm,
      q.theirsPasses);
  }

  // ----- Additions

  lemma {:induction false} PlacedAlike(o: seq<Json>, t: seq<Json>, om: SideMatch, tm: SideMatch, oursIds: seq<nat>,
      theirsIds: seq<nat>, oursIds': seq<nat>, theirsIds': seq<nat>, strip: bool)
    requires TellApart(o, oursIds, t, theirsIds, strip) && TellApart(o, oursIds', t, theirsIds', strip)
    requires Within(om, |o|) && Within(tm, |t|)
    ensures AlikeAcross(PlacedKeys(om, oursIds), PlacedKeys(tm, theirsIds), PlacedKeys(om, oursIds'),
      PlacedKeys(tm, theirsIds'))
  {
    forall j, k | 0 <= j < |om.additions| && 0 <= k < |tm.additions|
      ensures PlacedKeys(om, oursIds)[j] == PlacedKeys(tm, theirsIds)[k] <==>
        PlacedKeys(om, oursIds')[j] == PlacedKeys(tm, theirsIds')[k] {
      assert oursIds[om.additions[j]] == theirsIds[tm.additions[k]] <==>
        Same(Some(o[om.additions[j]]), Some(t[tm.additions[k]]), strip);
    }
  }

  lemma {:induction false} ClashIsDecided(o: seq<Json>, t: seq<Json>, p: Pairing, q: Pairing, strip: bool)
    requires TellApart(o, p.oursIds, t, p.theirsIds, strip) && TellApart(o, q.oursIds, t, q.theirsIds, strip)
    requires p.om == q.om && p.tm == q.tm && Within(p.om, |o|) && Within(p.tm, |t|) && Clash(o, t, p)
    ensures Clash(o, t, q)
  {
    var k :| 0 <= k < |p.om.additions| && Clashes(o, t, p.om, p.tm, p.oursIds, p.theirsIds, k);
    var i := p.om.additions[k];
    var hint := HintOf(o, p.om, i).value;
    var j :| 0 <= j < |p.tm.additions| && HintOf(t, p.tm, p.tm.additions[j]) == Some(hint) &&
      p.theirsIds[p.tm.additions[j]] != p.oursIds[i];
    assert q.oursIds[i] == q.theirsIds[p.tm.additions[j]] <==> Same(Some(o[i]), Some(t[p.tm.additions[j]]), strip);
    assert Differs(t, q.tm, q.theirsIds, |q.tm.additions|, hint, q.oursIds[i]);
    assert Clashes(o, t, q.om, q.tm, q.oursIds, q.theirsIds, k);
  }

  // ----- Plans

  /** What two plans of the same versions have in common, if they leave out the same base items. */
  lemma {:induction false} PlanIsDecided(b: seq<Json>, o: seq<Json>, t: seq<Json>, p: Plan, q: Plan, strip: bool)
    requires Matched(b, o, t, p.sides, strip) && Matched(b, o, t, q.sides, strip) && p.omitted == q.omitted
    requires WellPlaced(p) && Shares(p) && WellPlaced(q) && Shares(q)
    ensures p.OurTokens() == q.OurTokens() && p.TheirTokens() == q.TheirTokens() && p.Surviving() == q.Surviving()
    ensures p.oursAdd == q.oursAdd && p.theirsAdd == q.theirsAdd
  {
    MatchedIsDecided(b, o, t, p.sides, q.sides, strip);
    MatchedFits(b, o, t, p.sides, strip);
    MatchedFits(b, o, t, q.sides, strip);
    PlacedAlike(o, t, p.sides.om, p.sides.tm, q.sides.oursIds, q.sides.theirsIds, p.sides.oursIds, p.sides.theirsIds,
      strip);
    SameExact(q.shared, PlacedKeys(p.sides.om, q.sides.oursIds), PlacedKeys(p.sides.tm, q.sides.theirsIds),
      PlacedKeys(p.sides.om, p.sides.oursIds), PlacedKeys(p.sides.tm, p.sides.theirsIds));
    TokensAreDecided(p, q.(sides := p.sides));
  }

  /** And either both constrain the order in a circle, or none does. */
  lemma {:induction false} CyclesAreDecided(b: seq<Json>, o: seq<Json>, t: seq<Json>, p: Plan, q: Plan, strip: bool)
    requires Matched(b, o, t, p.sides, strip) && Matched(b, o, t, q.sides, strip) && p.omitted == q.omitted
    requires WellPlaced(p) && Shares(p) && WellPlaced(q) && Shares(q) && Constrained(p) && Constrained(q)
    requires MergeOrder.Acyclic(p.edges)
    ensures MergeOrder.Acyclic(q.edges)
  {
    PlanIsDecided(b, o, t, p, q, strip);
    forall s, u ensures MergeOrder.Edge(p.edges, s, u) <==> MergeOrder.Edge(q.edges, s, u) {
      assert MergeOrder.Edge(p.edges, s, u) <==>
        MergeOrder.Constraint(p.Surviving(), p.OurTokens(), p.TheirTokens(), s, u);
    }
    MergeOrder.SameEdgesSameCycles(p.edges, q.edges);
  }
}
