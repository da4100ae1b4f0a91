/** Where additions sit between the items that are paired, and which of them share a token or clash for that. */
module AdditionPlaces {
  import opened AstMergeLaws
  import opened ExactPairs
  import opened JsonTree
  import opened MatchSides
  import MergeOrder
  import opened MergeSpec
  import opened SequencePlan
  import opened Wrappers

  // ----- Places

  /** The base partner of the nearest paired item before `i`, or -1 exactly if there is none. */
  ghost predicate PartnerBefore(m: SideMatch, i: nat, partner: int) {
    || (partner == -1 && forall k: nat :: k < i ==> k !in m.sideToBase)
    || exists j: nat :: j < i && j in m.sideToBase && partner == m.sideToBase[j] &&
         forall k: nat :: j < k < i ==> k !in m.sideToBase
  }

  /** The same of the nearest paired item behind `i`. */
  ghost predicate PartnerBehind(m: SideMatch, sides: nat, i: nat, partner: int) {
    || (partner == -1 && forall k: nat :: i < k < sides ==> k !in m.sideToBase)
    || exists j: nat :: i < j < sides && j in m.sideToBase && partner == m.sideToBase[j] &&
         forall k: nat :: i < k < j ==> k !in m.sideToBase
  }

  /** The nearest paired items around `i` on one side and around `j` on the other have the same partners. */
  ghost predicate SamePlace(om: SideMatch, ours: nat, i: nat, tm: SideMatch, theirs: nat, j: nat) {
    exists before: int, behind: int
      {:trigger PartnerBefore(om, i, before), PartnerBehind(om, ours, i, behind)} ::
      && PartnerBefore(om, i, before) && PartnerBefore(tm, j, before)
      && PartnerBehind(om, ours, i, behind) && PartnerBehind(tm, theirs, j, behind)
  }

  lemma {:induction false} BeforeIs(m: SideMatch, i: nat, partner: int)
    ensures PartnerBefore(m, i, partner) <==> partner == PairedBefore(i, m)
  {
    if i > 0 {
      if i - 1 in m.sideToBase {
        assert PartnerBefore(m, i, m.sideToBase[i - 1]);
      } else {
        BeforeIs(m, i - 1, partner);
      }
    }
  }

  lemma {:induction false} BehindIs(m: SideMatch, sides: nat, i: nat, partner: int)
    ensures PartnerBehind(m, sides, i, partner) <==> partner == PairedAfter(i + 1, m, sides)
    decreases if i < sides then sides - i else 0
  {
    if i + 1 < sides {
      if i + 1 in m.sideToBase {
        assert PartnerBehind(m, sides, i, m.sideToBase[i + 1]);
      } else {
        BehindIs(m, sides, i + 1, partner);
      }
    }
  }

  lemma {:induction false} SamePlaceIs(om: SideMatch, ours: nat, i: nat, tm: SideMatch, theirs: nat, j: nat)
    ensures SamePlace(om, ours, i, tm, theirs, j) <==> Anchor(i, om, ours) == Anchor(j, tm, theirs)
  {
    var (before, behind) := Anchor(i, om, ours);
    BeforeIs(om, i, before);
    BehindIs(om, ours, i, behind);
    BeforeIs(tm, j, before);
    BehindIs(tm, theirs, j, behind);
    forall at: int, to: int | PartnerBefore(om, i, at) && PartnerBehind(om, ours, i, to)
      ensures at == before && to == behind {
      BeforeIs(om, i, at);
      BehindIs(om, ours, i, to);
    }
  }

  // ----- Which additions share a token

  /** An addition of ours and one of theirs that are equal and sit in one place. */
  ghost predicate Together(o: seq<Json>, t: seq<Json>, sides: Pairing, i: nat, j: nat, strip: bool) {
    && i in sides.om.additions && i < |o| && j in sides.tm.additions && j < |t|
    && SamePlace(sides.om, |o|, i, sides.tm, |t|, j) && Same(Some(o[i]), Some(t[j]), strip)
  }

  ghost predicate ShareToken(p: Plan, i: nat, j: nat) {
    i in p.oursAdd && j in p.theirsAdd && p.oursAdd[i] == p.theirsAdd[j]
  }

  /** The plan of a sequence: its sides are paired with the base, and its additions have their tokens. */
  ghost predicate HasTokens(b: seq<Json>, o: seq<Json>, t: seq<Json>, p: Plan, strip: bool) {
    && Matched(b, o, t, p.sides, strip) && Within(p.sides.om, |o|) && Within(p.sides.tm, |t|)
    && Bijection(p.shared, |p.sides.om.additions|, |p.sides.tm.additions|) && Shares(p)
    && OursAdded(p.sides.om, p.oursAdd, |p.sides.om.additions|) &&
      TheirsAdded(p.sides.om, p.sides.tm, p.shared, p.theirsAdd, |p.sides.tm.additions|)
  }

  lemma {:induction false} KeysAgree(b: seq<Json>, o: seq<Json>, t: seq<Json>, p: Plan, strip: bool, k: nat, l: nat)
    requires HasTokens(b, o, t, p, strip) && k < |p.sides.om.additions| && l < |p.sides.tm.additions|
    ensures |o| == |p.sides.oursIds| && |t| == |p.sides.theirsIds|
    ensures PlacedKeys(p.sides.om, p.sides.oursIds)[k] == PlacedKeys(p.sides.tm, p.sides.theirsIds)[l] <==>
      Together(o, t, p.sides, p.sides.om.additions[k], p.sides.tm.additions[l], strip)
  {
    var i, j := p.sides.om.additions[k], p.sides.tm.additions[l];
    SamePlaceIs(p.sides.om, |o|, i, p.sides.tm, |t|, j);
  }

  lemma {:induction false} InOrder(b: seq<Json>, o: seq<Json>, t: seq<Json>, p: Plan, strip: bool)
    requires HasTokens(b, o, t, p, strip)
    ensures Ascend(p.sides.om.additions) && Ascend(p.sides.tm.additions)
  {
    MatchedFits(b, o, t, p.sides, strip);
  }

  lemma {:induction false} OurToken(p: Plan, k: nat)
    requires OursAdded(p.sides.om, p.oursAdd, |p.sides.om.additions|) && k < |p.sides.om.additions|
    ensures var i := p.sides.om.additions[k]; i in p.oursAdd && p.oursAdd[i] == Ours(i)
  {
    assert p.sides.om.additions[..|p.sides.om.additions|] == p.sides.om.additions;
  }

  lemma {:induction false} TokensAgree(om: SideMatch, tm: SideMatch, shared: SideMatch, k: nat, l: nat)
    requires Bijection(shared, |om.additions|, |tm.additions|) && Ascend(om.additions)
    requires k < |om.additions| && l < |tm.additions|
    ensures TheirToken(om, tm, shared, l) == Ours(om.additions[k]) <==> shared.Pairs(k, l)
  {
    if l in shared.sideToBase {
      var m := shared.sideToBase[l];
      assert om.additions[m] == om.additions[k] ==> m == k;
    }
  }

  lemma {:induction false} SharesIs(b: seq<Json>, o: seq<Json>, t: seq<Json>, p: Plan, strip: bool, k: nat, l: nat)
    requires HasTokens(b, o, t, p, strip) && k < |p.sides.om.additions| && l < |p.sides.tm.additions|
    ensures ShareToken(p, p.sides.om.additions[k], p.sides.tm.additions[l]) <==> p.shared.Pairs(k, l)
  {
    InOrder(b, o, t, p, strip);
    OurToken(p, k);
    TokensAgree(p.sides.om, p.sides.tm, p.shared, k, l);
  }

  /** Additions that share a token are equal and sit in one place. */
  lemma {:induction false} SharedAreTogether(b: seq<Json>, o: seq<Json>, t: seq<Json>, p: Plan, strip: bool, i: nat,
      j: nat)
    requires HasTokens(b, o, t, p, strip) && ShareToken(p, i, j)
    ensures Together(o, t, p.sides, i, j, strip)
  {
    var k, l := IndexesOf(p, i, j);
    SharesIs(b, o, t, p, strip, k, l);
    ExactPairsAgree(p.shared, PlacedKeys(p.sides.om, p.sides.oursIds), PlacedKeys(p.sides.tm, p.sides.theirsIds), k);
    KeysAgree(b, o, t, p, strip, k, l);
  }

  lemma {:induction false} IndexesOf(p: Plan, i: nat, j: nat) returns (k: nat, l: nat)
    requires Bijection(p.shared, |p.sides.om.additions|, |p.sides.tm.additions|)
    requires OursAdded(p.sides.om, p.oursAdd, |p.sides.om.additions|) &&
      TheirsAdded(p.sides.om, p.sides.tm, p.shared, p.theirsAdd, |p.sides.tm.additions|)
    requires (i in p.oursAdd || i in p.sides.om.additions) && (j in p.theirsAdd || j in p.sides.tm.additions)
    ensures k < |p.sides.om.additions| && p.sides.om.additions[k] == i
    ensures l < |p.sides.tm.additions| && p.sides.tm.additions[l] == j
  {
    var ours, theirs := p.sides.om.additions, p.sides.tm.additions;
    assert ours[..|ours|] == ours && theirs[..|theirs|] == theirs;
    k :| 0 <= k < |ours| && ours[k] == i;
    l :| 0 <= l < |theirs| && theirs[l] == j;
  }

  /** Of two that are equal and sit in one place, one at least shares a token with some other. */
  lemma {:induction false} NoneIsLeftOut(b: seq<Json>, o: seq<Json>, t: seq<Json>, p: Plan, strip: bool, i: nat, j: nat)
    requires HasTokens(b, o, t, p, strip) && Together(o, t, p.sides, i, j, strip)
    ensures exists x: nat :: ShareToken(p, i, x) || ShareToken(p, x, j)
  {
    var k, l := IndexesOf(p, i, j);
    KeysAgree(b, o, t, p, strip, k, l);
    NoneLeftOver(p.shared, PlacedKeys(p.sides.om, p.sides.oursIds), PlacedKeys(p.sides.tm, p.sides.theirsIds), k, l);
    if k in p.shared.baseToSide {
      SharesIs(b, o, t, p, strip, k, p.shared.baseToSide[k]);
    } else {
      SharesIs(b, o, t, p, strip, p.shared.sideToBase[l], l);
    }
  }

  lemma {:induction false} PairsInOrder(m: SideMatch, base: seq<Key>, side: seq<Key>, k: nat, later: nat, l: nat)
    requires Bijection(m, |base|, |side|) && ExactUpTo(m, base, side, |base|)
    requires k < |base| && l < |side| && base[k] == side[l]
    ensures k < later && m.Pairs(later, l) ==> exists x: nat :: x < l && m.Pairs(k, x)
    ensures l < later && m.Pairs(k, later) ==> exists x: nat :: x < k && m.Pairs(x, l)
  {
    if k < later && m.Pairs(later, l) {
      ExactPairsAgree(m, base, side, later);
      FirstWithFirst(m, base, side, k, later);
      assert m.Pairs(k, m.baseToSide[k]);
    }
    if l < later && m.Pairs(k, later) {
      ExactPairsAgree(m, base, side, k);
      EarlierIsTaken(m, base, side, l, later);
      var x := m.sideToBase[l];
      ExactPairsAgree(m, base, side, x);
      if k < x { FirstWithFirst(m, base, side, k, x); }
      assert m.Pairs(x, l);
    }
  }

  lemma {:induction false} Later(b: seq<Json>, o: seq<Json>, t: seq<Json>, p: Plan, strip: bool, added: seq<nat>,
      k: nat, l: nat)
    requires HasTokens(b, o, t, p, strip) && (added == p.sides.om.additions || added == p.sides.tm.additions)
    requires k < |added| && l < |added|
    ensures added[k] < added[l] <==> k < l
  {
    InOrder(b, o, t, p, strip);
  }

  /** The same of additions: `k` and `l` are numbers among those of ours and of theirs. */
  lemma {:induction false} SharedInOrder(b: seq<Json>, o: seq<Json>, t: seq<Json>, p: Plan, strip: bool, k: nat,
      l: nat, later: nat)
    requires HasTokens(b, o, t, p, strip) && k < |p.sides.om.additions| && l < |p.sides.tm.additions|
    requires Together(o, t, p.sides, p.sides.om.additions[k], p.sides.tm.additions[l], strip)
    ensures k < later && p.shared.Pairs(later, l) ==> exists x: nat :: x < l && p.shared.Pairs(k, x)
    ensures l < later && p.shared.Pairs(k, later) ==> exists x: nat :: x < k && p.shared.Pairs(x, l)
  {
    KeysAgree(b, o, t, p, strip, k, l);
    PairsInOrder(p.shared, PlacedKeys(p.sides.om, p.sides.oursIds), PlacedKeys(p.sides.tm, p.sides.theirsIds), k, later,
      l);
  }

  /** An addition of ours before one that shares a token, and like it, shares one with an earlier addition of theirs. */
  lemma {:induction false} EarlierOfOurs(b: seq<Json>, o: seq<Json>, t: seq<Json>, p: Plan, strip: bool, i: nat,
      later: nat, j: nat)
    requires HasTokens(b, o, t, p, strip) && ShareToken(p, later, j) && i < later
    requires Together(o, t, p.sides, i, j, strip)
    ensures exists x: nat :: x < j && ShareToken(p, i, x)
  {
    var k, _ := IndexesOf(p, i, j);
    var m, l := SharedIndexes(b, o, t, p, strip, later, j);
    Later(b, o, t, p, strip, p.sides.om.additions, k, m);
    SharedInOrder(b, o, t, p, strip, k, l, m);
    var x: nat :| x < l && p.shared.Pairs(k, x);
    SharesIs(b, o, t, p, strip, k, x);
    Later(b, o, t, p, strip, p.sides.tm.additions, x, l);
  }

  /** And the other way round. */
  lemma {:induction false} EarlierOfTheirs(b: seq<Json>, o: seq<Json>, t: seq<Json>, p: Plan, strip: bool, i: nat,
      j: nat, later: nat)
    requires HasTokens(b, o, t, p, strip) && ShareToken(p, i, later) && j < later
    requires Together(o, t, p.sides, i, j, strip)
    ensures exists x: nat :: x < i && ShareToken(p, x, j)
  {
    var _, l := IndexesOf(p, i, j);
    var k, m := SharedIndexes(b, o, t, p, strip, i, later);
    Later(b, o, t, p, strip, p.sides.tm.additions, l, m);
    SharedInOrder(b, o, t, p, strip, k, l, m);
    var x: nat :| x < k && p.shared.Pairs(x, l);
    SharesIs(b, o, t, p, strip, x, l);
    Later(b, o, t, p, strip, p.sides.om.additions, x, k);
  }

  /** No addition shares tokens with two. */
  lemma {:induction false} SharedOnce(b: seq<Json>, o: seq<Json>, t: seq<Json>, p: Plan, strip: bool, i: nat, j: nat,
      x: nat, y: nat)
    requires HasTokens(b, o, t, p, strip) && ShareToken(p, i, j) && ShareToken(p, x, y)
    ensures i == x <==> j == y
  {
    var k, l := SharedIndexes(b, o, t, p, strip, i, j);
    var m, n := SharedIndexes(b, o, t, p, strip, x, y);
    InOrder(b, o, t, p, strip);
  }

  lemma {:induction false} SharedIndexes(b: seq<Json>, o: seq<Json>, t: seq<Json>, p: Plan, strip: bool, i: nat,
      j: nat) returns (k: nat, l: nat)
    requires HasTokens(b, o, t, p, strip) && ShareToken(p, i, j)
    ensures k < |p.sides.om.additions| && p.sides.om.additions[k] == i
    ensures l < |p.sides.tm.additions| && p.sides.tm.additions[l] == j
    ensures p.shared.Pairs(k, l) && l in p.shared.sideToBase && p.shared.sideToBase[l] == k
  {
    k, l := IndexesOf(p, i, j);
    SharesIs(b, o, t, p, strip, k, l);
  }

  // ----- Which additions clash

  /** An addition of ours and one of theirs that sit in one place under one hint, and differ. */
  ghost predicate AtOdds(o: seq<Json>, t: seq<Json>, sides: Pairing, i: nat, j: nat, strip: bool) {
    && i in sides.om.additions && i < |o| && j in sides.tm.additions && j < |t|
    && SamePlace(sides.om, |o|, i, sides.tm, |t|, j)
    && IdentityHint(o[i]).Some? && IdentityHint(o[i]) == IdentityHint(t[j]) && !Same(Some(o[i]), Some(t[j]), strip)
  }

  lemma {:induction false} AtOddsIs(b: seq<Json>, o: seq<Json>, t: seq<Json>, sides: Pairing, strip: bool, i: nat,
      j: nat)
    requires Matched(b, o, t, sides, strip) && Within(sides.om, |o|) && Within(sides.tm, |t|)
    requires i in sides.om.additions && j in sides.tm.additions
    ensures i < |o| == |sides.oursIds| && j < |t| == |sides.theirsIds|
    ensures AtOdds(o, t, sides, i, j, strip) <==>
      HintOf(o, sides.om, i).Some? && HintOf(t, sides.tm, j) == HintOf(o, sides.om, i) &&
      sides.theirsIds[j] != sides.oursIds[i]
  {
    SamePlaceIs(sides.om, |o|, i, sides.tm, |t|, j);
  }

  lemma {:induction false} ClashHasTwo(b: seq<Json>, o: seq<Json>, t: seq<Json>, sides: Pairing, strip: bool)
      returns (i: nat, j: nat)
    requires Matched(b, o, t, sides, strip) && Within(sides.om, |o|) && Within(sides.tm, |t|)
    requires |o| == |sides.oursIds| && |t| == |sides.theirsIds| && Clash(o, t, sides)
    ensures AtOdds(o, t, sides, i, j, strip)
  {
    var k :| 0 <= k < |sides.om.additions| && Clashes(o, t, sides.om, sides.tm, sides.oursIds, sides.theirsIds, k);
    i := sides.om.additions[k];
    var l :| 0 <= l < |sides.tm.additions| &&
      HintOf(t, sides.tm, sides.tm.additions[l]) == Some(HintOf(o, sides.om, i).value) &&
      sides.theirsIds[sides.tm.additions[l]] != sides.oursIds[i];
    j := sides.tm.additions[l];
    AtOddsIs(b, o, t, sides, strip, i, j);
  }

  lemma {:induction false} TwoMakeClash(b: seq<Json>, o: seq<Json>, t: seq<Json>, sides: Pairing, strip: bool, i: nat,
      j: nat)
    requires Matched(b, o, t, sides, strip) && Within(sides.om, |o|) && Within(sides.tm, |t|)
    requires |o| == |sides.oursIds| && |t| == |sides.theirsIds| && AtOdds(o, t, sides, i, j, strip)
    ensures Clash(o, t, sides)
  {
    AtOddsIs(b, o, t, sides, strip, i, j);
    var k :| 0 <= k < |sides.om.additions| && sides.om.additions[k] == i;
    var l :| 0 <= l < |sides.tm.additions| && sides.tm.additions[l] == j;
    assert Clashes(o, t, sides.om, sides.tm, sides.oursIds, sides.theirsIds, k);
  }

  /** The additions collide exactly if there are two at odds. */
  lemma {:induction false} ClashIff(b: seq<Json>, o: seq<Json>, t: seq<Json>, sides: Pairing, strip: bool)
    requires Matched(b, o, t, sides, strip) && Within(sides.om, |o|) && Within(sides.tm, |t|)
    ensures |o| == |sides.oursIds| && |t| == |sides.theirsIds|
    ensures Clash(o, t, sides) <==> exists i: nat, j: nat :: AtOdds(o, t, sides, i, j, strip)
  {
    if Clash(o, t, sides) { var i, j := ClashHasTwo(b, o, t, sides, strip); }
    if i: nat, j: nat :| AtOdds(o, t, sides, i, j, strip) { TwoMakeClash(b, o, t, sides, strip, i, j); }
  }

  // ----- What that makes of the merged sequence

  lemma {:induction false} PlanHasTokens(b: Json, o: Json, t: Json, p: Plan, strip: bool)
    requires b.Arr? && o.Arr? && t.Arr? && PlanMerges(b, o, t, p, strip)
    ensures HasTokens(b.items, o.items, t.items, p, strip)
  {
    MatchedFits(b.items, o.items, t.items, p.sides, strip);
  }

  /** An addition of theirs has its own token, or that of an equal one of ours. */
  lemma {:induction false} TheirTokenIs(b: seq<Json>, o: seq<Json>, t: seq<Json>, p: Plan, strip: bool, j: nat)
    requires HasTokens(b, o, t, p, strip) && j in p.sides.tm.additions
    ensures j in p.theirsAdd
    ensures if OnlyTheirs(p.sides.tm, p.shared, j) then p.theirsAdd[j] == Theirs(j)
      else exists i: nat ::
        p.theirsAdd[j] == Ours(i) && i in p.sides.om.additions && Together(o, t, p.sides, i, j, strip)
  {
    InOrder(b, o, t, p, strip);
    var theirs := p.sides.tm.additions;
    var l :| 0 <= l < |theirs| && theirs[l] == j;
    if l in p.shared.sideToBase {
      var k := p.shared.sideToBase[l];
      OurToken(p, k);
      SharesIs(b, o, t, p, strip, k, l);
      SharedAreTogether(b, o, t, p, strip, p.sides.om.additions[k], j);
    }
  }

  /** What stands for an addition of theirs. */
  lemma {:induction false} TheirsStand(b: Json, o: Json, t: Json, p: Plan, strip: bool, j: nat) returns (y: nat)
    requires b.Arr? && o.Arr? && t.Arr? && PlanMerges(b, o, t, p, strip) && j in p.sides.tm.additions
    ensures j in p.theirsAdd && y < |p.order| && p.order[y] == p.theirsAdd[j] && y < |Collect(p.order, p.values)|
    ensures Same(Some(Collect(p.order, p.values)[y]), Some(t.items[j]), strip)
  {
    PlanHasTokens(b, o, t, p, strip);
    TheirTokenIs(b.items, o.items, t.items, p, strip, j);
    if OnlyTheirs(p.sides.tm, p.shared, j) {
      PlanIsWellPlaced(b, o, t, p, strip);
      PlanListsEachOnce(p, j);
      AdditionsHaveValues(b, o, t, p, strip);
      y := PlaceInOrder(b, o, t, p, strip, Theirs(j));
    } else {
      var i: nat :| p.theirsAdd[j] == Ours(i) && i in p.sides.om.additions &&
        Together(o.items, t.items, p.sides, i, j, strip);
      y := OursStand(b, o, t, p, strip, i);
    }
  }

  lemma {:induction false} AdditionsHaveValues(b: Json, o: Json, t: Json, p: Plan, strip: bool)
    requires b.Arr? && o.Arr? && t.Arr? && PlanMerges(b, o, t, p, strip)
    ensures Valued(o.items, t.items, p.values, p.values, p.oursAdd, p.theirsAdd)
  {
  }

  /** An addition of ours stands in the order, under its own token. */
  lemma {:induction false} OursInOrder(p: Plan, i: nat)
    requires WellPlaced(p) && Ordered(p) && i in p.sides.om.additions
    ensures Ours(i) in p.order && i in p.oursAdd
  {
    PlanListsEachOnce(p, i);
    assert p.sides.om.additions[..|p.sides.om.additions|] == p.sides.om.additions;
  }

  lemma {:induction false} OursStand(b: Json, o: Json, t: Json, p: Plan, strip: bool, i: nat) returns (x: nat)
    requires b.Arr? && o.Arr? && t.Arr? && PlanMerges(b, o, t, p, strip) && i in p.sides.om.additions
    ensures x < |p.order| && p.order[x] == Ours(i) && i < |o.items|
    ensures x < |Collect(p.order, p.values)| && Collect(p.order, p.values)[x] == o.items[i]
  {
    PlanIsWellPlaced(b, o, t, p, strip);
    OursInOrder(p, i);
    AdditionsHaveValues(b, o, t, p, strip);
    x := PlaceInOrder(b, o, t, p, strip, Ours(i));
  }

  lemma {:induction false} PlaceInOrder(b: Json, o: Json, t: Json, p: Plan, strip: bool, token: Token)
      returns (x: nat)
    requires b.Arr? && o.Arr? && t.Arr? && PlanMerges(b, o, t, p, strip) && token in p.order
    ensures x < |p.order| && p.order[x] == token && x < |Collect(p.order, p.values)|
    ensures token in p.values && Collect(p.order, p.values)[x] == p.values[token]
  {
    SequenceCollectsAll(b, o, t, p, strip);
    x :| 0 <= x < |p.order| && p.order[x] == token;
  }

  /** Two that share no token both stand in the merged sequence, equal or not. */
  lemma {:induction false} BothStand(b: Json, o: Json, t: Json, p: Plan, strip: bool, i: nat, j: nat)
      returns (x: nat, y: nat)
    requires b.Arr? && o.Arr? && t.Arr? && PlanMerges(b, o, t, p, strip)
    requires i in p.sides.om.additions && j in p.sides.tm.additions && !ShareToken(p, i, j)
    ensures var items := Collect(p.order, p.values);
      x != y && x < |items| && y < |items| && items[x] == o.items[i] && Same(Some(items[y]), Some(t.items[j]), strip)
  {
    x := OursStand(b, o, t, p, strip, i);
    y := TheirsStand(b, o, t, p, strip, j);
    var ours := p.sides.om.additions;
    var k :| 0 <= k < |ours| && ours[k] == i;
    PlanHasTokens(b, o, t, p, strip);
    OurToken(p, k);
  }

  /** So do equal additions that sit between different base items. */
  lemma {:induction false} ApartBothStand(b: Json, o: Json, t: Json, p: Plan, strip: bool, i: nat, j: nat)
      returns (x: nat, y: nat)
    requires b.Arr? && o.Arr? && t.Arr? && PlanMerges(b, o, t, p, strip)
    requires i in p.sides.om.additions && j in p.sides.tm.additions
    requires !SamePlace(p.sides.om, |o.items|, i, p.sides.tm, |t.items|, j)
    ensures var items := Collect(p.order, p.values);
      x != y && x < |items| && y < |items| && items[x] == o.items[i] && Same(Some(items[y]), Some(t.items[j]), strip)
  {
    PlanHasTokens(b, o, t, p, strip);
    if ShareToken(p, i, j) { SharedAreTogether(b.items, o.items, t.items, p, strip, i, j); }
    x, y := BothStand(b, o, t, p, strip, i, j);
  }
}
