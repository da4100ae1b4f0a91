/** Sequences that no side reordered: where nothing is shared between the additions, the constraints always allow an
 * order. */
module MergeUnmoved {
  import opened JsonTree
  import opened MatchSides
  import opened MergeOrder
  import opened MergeConflicts
  import SequencePlan

  // ----- A height that every edge climbs

  /** First by the base items before a token, then by its place on its side. */
  datatype Height = Height(level: int, place: int) {
    predicate Below(other: Height) { level < other.level || (level == other.level && place < other.place) }
  }

  function IndexOf(tokens: seq<Token>, t: Token): (k: nat)
    ensures k <= |tokens| && (k < |tokens| ==> tokens[k] == t) && (t in tokens ==> k < |tokens|)
  {
    if tokens == [] || tokens[0] == t then 0 else 1 + IndexOf(tokens[1..], t)
  }

  /** How many base items come before a place. */
  function BasesBefore(tokens: seq<Token>, k: nat): nat
    requires k <= |tokens|
  {
    |BasePart(tokens[..k])|
  }

  ghost function HeightIn(side: seq<Token>, k: nat): Height
    requires k < |side|
  {
    if IsBase(side[k]) then Height(2 * BasesBefore(side, k) + 1, 0) else Height(2 * BasesBefore(side, k), k)
  }

  ghost function HeightOf(surviving: seq<Token>, ours: seq<Token>, theirs: seq<Token>, t: Token): Height {
    if IsBase(t) then Height(2 * IndexOf(surviving, t) + 1, 0)
    else if t in ours then HeightIn(ours, IndexOf(ours, t))
    else if t in theirs then HeightIn(theirs, IndexOf(theirs, t))
    else Height(0, 0)
  }

  lemma {:induction false} BasePartOfPrefix(tokens: seq<Token>, k: nat)
    requires k <= |tokens|
    ensures BasePart(tokens[..k]) <= BasePart(tokens)
    decreases |tokens|
  {
    if k < |tokens| {
      var init := tokens[..|tokens| - 1];
      assert init[..k] == tokens[..k];
      BasePartOfPrefix(init, k);
    } else {
      assert tokens[..k] == tokens;
    }
  }

  lemma {:induction false} OneMoreBase(tokens: seq<Token>, k: nat)
    requires k < |tokens|
    ensures BasePart(tokens[..k + 1]) == BasePart(tokens[..k]) + if IsBase(tokens[k]) then [tokens[k]] else []
  {
    assert tokens[..k + 1][..k] == tokens[..k];
  }

  lemma {:induction false} IndexIs(tokens: seq<Token>, k: nat)
    requires Distinct(tokens) && k < |tokens|
    ensures IndexOf(tokens, tokens[k]) == k
  {
    assert tokens[IndexOf(tokens, tokens[k])] == tokens[k];
  }

  /** The height of a token does not depend on the side it is looked at. */
  lemma {:induction false} HeightsAgree(surviving: seq<Token>, ours: seq<Token>, theirs: seq<Token>, side: seq<Token>,
      k: nat)
    requires Distinct(surviving) && Distinct(side) && BasePart(side) == surviving && k < |side| &&
      (side == ours || side == theirs)
    requires side == theirs && side[k] in ours ==> IsBase(side[k])
    ensures HeightOf(surviving, ours, theirs, side[k]) == HeightIn(side, k)
  {
    if IsBase(side[k]) {
      OneMoreBase(side, k);
      BasePartOfPrefix(side, k + 1);
      assert surviving[BasesBefore(side, k)] == side[k];
      IndexIs(surviving, BasesBefore(side, k));
    } else {
      IndexIs(side, k);
    }
  }

  lemma {:induction false} NeighboursClimb(side: seq<Token>, k: nat)
    requires k + 1 < |side| && !(IsBase(side[k]) && IsBase(side[k + 1]))
    ensures HeightIn(side, k).Below(HeightIn(side, k + 1))
  {
    OneMoreBase(side, k);
  }

  ghost predicate Unmoved(surviving: seq<Token>, ours: seq<Token>, theirs: seq<Token>) {
    && BasePart(ours) == surviving == BasePart(theirs) && Distinct(surviving) && Distinct(ours) && Distinct(theirs)
    && forall t :: t in ours && t in theirs ==> IsBase(t)
  }

  lemma {:induction false} SideClimbs(surviving: seq<Token>, ours: seq<Token>, theirs: seq<Token>, side: seq<Token>,
      s: Token, t: Token)
    requires Unmoved(surviving, ours, theirs) && (side == ours || side == theirs) && Linked(side, false, s, t)
    ensures HeightOf(surviving, ours, theirs, s).Below(HeightOf(surviving, ours, theirs, t))
  {
    var k :| 0 <= k < |side| - 1 && LinkedAt(side, false, s, t, k);
    HeightsAgree(surviving, ours, theirs, side, k);
    HeightsAgree(surviving, ours, theirs, side, k + 1);
    NeighboursClimb(side, k);
  }

  lemma {:induction false} EdgesClimb(surviving: seq<Token>, ours: seq<Token>, theirs: seq<Token>, s: Token, t: Token)
    requires Unmoved(surviving, ours, theirs) && Constraint(surviving, ours, theirs, s, t)
    ensures HeightOf(surviving, ours, theirs, s).Below(HeightOf(surviving, ours, theirs, t))
  {
    if Linked(ours, false, s, t) {
      SideClimbs(surviving, ours, theirs, ours, s, t);
    } else if Linked(theirs, false, s, t) {
      SideClimbs(surviving, ours, theirs, theirs, s, t);
    } else {
      var k :| 0 <= k < |surviving| - 1 && LinkedAt(surviving, true, s, t, k);
      AllBase(ours);
      IndexIs(surviving, k);
      IndexIs(surviving, k + 1);
      assert surviving[k] in surviving && surviving[k + 1] in surviving;
    }
  }

  lemma {:induction false} AllBase(tokens: seq<Token>)
    ensures forall t :: t in BasePart(tokens) ==> IsBase(t)
  {
    if tokens != [] { AllBase(tokens[..|tokens| - 1]); }
  }

  lemma {:induction false} PathClimbs(edges: Edges, height: Token -> Height, p: seq<Token>, k: nat)
    requires IsPath(edges, p) && 0 < k < |p| && forall s, t :: Edge(edges, s, t) ==> height(s).Below(height(t))
    ensures height(p[0]).Below(height(p[k]))
  {
    assert StepAt(edges, p, k - 1);
    if k > 1 { PathClimbs(edges, height, p, k - 1); }
  }

  /** Neither side moved base items, and no addition is on both sides: there is no cycle. */
  lemma {:induction false} UnmovedIsAcyclic(surviving: seq<Token>, ours: seq<Token>, theirs: seq<Token>, edges: Edges)
    requires Unmoved(surviving, ours, theirs) &&
      forall s, t :: Edge(edges, s, t) <==> Constraint(surviving, ours, theirs, s, t)
    ensures Acyclic(edges)
  {
    var height: Token -> Height := t => HeightOf(surviving, ours, theirs, t);
    forall s, t | Edge(edges, s, t) ensures height(s).Below(height(t)) { EdgesClimb(surviving, ours, theirs, s, t); }
    forall p ensures !IsCycle(edges, p) {
      if IsCycle(edges, p) { PathClimbs(edges, height, p, |p| - 1); }
    }
  }

  // ----- Plans

  /** Neither side moved a surviving base item. */
  ghost predicate KeptInPlace(p: SequencePlan.Plan)
  {
    BasePart(p.OurTokens()) == p.Surviving() == BasePart(p.TheirTokens())
  }

  lemma {:induction false} SurvivorsAreDistinct(n: nat, omitted: set<Token>)
    ensures Distinct(SequencePlan.Survivors(n, omitted))
  {
    if n > 0 {
      SurvivorsAreDistinct(n - 1, omitted);
      SequencePlan.SurvivorsAre(n - 1, omitted, SequencePlan.Base(n - 1));
    }
  }

  lemma {:induction false} TokensOfSide(n: nat, m: SideMatch, added: map<nat, Token>, omitted: set<Token>, t: Token)
    requires t in SequencePlan.TokensFor(n, m, added, omitted)
    ensures IsBase(t) || SequencePlan.HasToken(added, t)
  {
    var i := SequencePlan.ListedToken(n, m, added, omitted, t);
    assert SequencePlan.TokenAt(i, m, added, omitted)[0] == t;
  }

  /** Without shared additions the two sides have only base items in common. */
  lemma {:induction false} OnlyBaseInCommon(p: SequencePlan.Plan, t: Token)
    requires SequencePlan.WellPlaced(p) && p.shared.sideToBase == map[] && t in p.OurTokens() && t in p.TheirTokens()
    ensures IsBase(t)
  {
    TokensOfSide(|p.sides.oursIds|, p.sides.om, p.oursAdd, p.omitted, t);
    TokensOfSide(|p.sides.theirsIds|, p.sides.tm, p.theirsAdd, p.omitted, t);
    SequencePlan.TheirsAddedAre(p.sides.om, p.sides.tm, p.shared, p.theirsAdd, t);
  }

  lemma {:induction false} PlanIsDistinct(p: SequencePlan.Plan)
    requires SequencePlan.WellPlaced(p)
    ensures Distinct(p.Surviving()) && Distinct(p.OurTokens()) && Distinct(p.TheirTokens())
  {
    SequencePlan.TokensOfAdditions(p.sides.om, p.sides.tm, p.shared, p.oursAdd, p.theirsAdd);
    SequencePlan.OneToOneTellsApart(|p.sides.baseIds|, |p.sides.oursIds|, p.sides.om, p.oursAdd, p.omitted);
    SequencePlan.TokensAreDistinct(|p.sides.oursIds|, p.sides.om, p.oursAdd, p.omitted);
    SequencePlan.OneToOneTellsApart(|p.sides.baseIds|, |p.sides.theirsIds|, p.sides.tm, p.theirsAdd, p.omitted);
    SequencePlan.TokensAreDistinct(|p.sides.theirsIds|, p.sides.tm, p.theirsAdd, p.omitted);
    SurvivorsAreDistinct(|p.sides.baseIds|, p.omitted);
  }

  lemma {:induction false} UnmovedPlanIsAcyclic(p: SequencePlan.Plan)
    requires SequencePlan.WellPlaced(p) && SequencePlan.Constrained(p) && KeptInPlace(p) && p.shared.sideToBase == map[]
    ensures Acyclic(p.edges)
  {
    PlanIsDistinct(p);
    forall t | t in p.OurTokens() && t in p.TheirTokens() ensures IsBase(t) { OnlyBaseInCommon(p, t); }
    UnmovedIsAcyclic(p.Surviving(), p.OurTokens(), p.TheirTokens(), p.edges);
  }

  /** A sequence is given up only over a name given twice, over base items a side moved, or over additions both sides
   * made. */
  lemma {:induction false} BlockedOnlyBy(b: Json, o: Json, t: Json, p: SequencePlan.Plan, strip: bool)
    requires b.Arr? && o.Arr? && t.Arr? && Blocked(b, o, t, p, strip)
    ensures Clashing(o.items, t.items, p.sides) || !KeptInPlace(p) || p.shared.sideToBase != map[]
  {
    if !Clashing(o.items, t.items, p.sides) && KeptInPlace(p) && p.shared.sideToBase == map[] {
      UnmovedPlanIsAcyclic(p);
    }
  }
}
