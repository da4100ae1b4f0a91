/** Sequences that a side reordered: exactly when the constraints of both sides allow an order, where no addition is on
 * both. */
module MergeMoves {
  import opened JsonTree
  import opened MatchSides
  import opened MergeConflicts
  import opened MergeOrder
  import opened MergeUnmoved
  import SequencePlan

  /** Both sides list the surviving base items, each once, and have nothing else in common. */
  ghost predicate OnlyBaseShared(surviving: seq<Token>, ours: seq<Token>, theirs: seq<Token>) {
    && Distinct(surviving) && Distinct(ours) && Distinct(theirs)
    && (forall t :: t in surviving ==> IsBase(t)) && (forall t :: t in ours && t in theirs ==> IsBase(t))
    && (forall t :: IsBase(t) ==> (t in ours <==> t in surviving) && (t in theirs <==> t in surviving))
  }

  ghost predicate Precedes(tokens: seq<Token>, s: Token, t: Token) {
    exists i, j :: 0 <= i < j < |tokens| && tokens[i] == s && tokens[j] == t
  }

  /** `still` has additions, and nothing else, between two base items that `moved` has the other way round. */
  ghost predicate Caught(still: seq<Token>, moved: seq<Token>, i: nat, j: nat) {
    && i + 1 < j < |still| && IsBase(still[i]) && IsBase(still[j]) && (forall k :: i < k < j ==> !IsBase(still[k]))
    && Precedes(moved, still[j], still[i])
  }

  /** One side moves base items and the other has no additions caught between them, or both move them alike. */
  ghost predicate Reconcilable(surviving: seq<Token>, ours: seq<Token>, theirs: seq<Token>) {
    var oursMoved, theirsMoved := BasePart(ours) != surviving, BasePart(theirs) != surviving;
    && (oursMoved && theirsMoved ==> BasePart(ours) == BasePart(theirs))
    && (oursMoved && !theirsMoved ==> forall i: nat, j: nat :: !Caught(theirs, ours, i, j))
    && (theirsMoved && !oursMoved ==> forall i: nat, j: nat :: !Caught(ours, theirs, i, j))
  }

  // ----- Base items of a side

  lemma {:induction false} InBasePart(tokens: seq<Token>, t: Token)
    ensures t in BasePart(tokens) <==> t in tokens && IsBase(t)
  {
    if tokens != [] {
      var n := |tokens| - 1;
      InBasePart(tokens[..n], t);
      assert tokens == tokens[..n] + [tokens[n]];
    }
  }

  lemma {:induction false} BasePartIsDistinct(tokens: seq<Token>)
    requires Distinct(tokens)
    ensures Distinct(BasePart(tokens))
  {
    if tokens != [] {
      var init, last := tokens[..|tokens| - 1], tokens[|tokens| - 1];
      BasePartIsDistinct(init);
      InBasePart(init, last);
    }
  }

  lemma {:induction false} PlaceIn(tokens: seq<Token>, k: nat) returns (i: nat)
    requires k < |BasePart(tokens)|
    ensures i < |tokens| && tokens[i] == BasePart(tokens)[k] && BasesBefore(tokens, i) == k
  {
    var n := |tokens| - 1;
    var init := tokens[..n];
    if k < |BasePart(init)| {
      i := PlaceIn(init, k);
      assert init[..i] == tokens[..i];
    } else {
      i := n;
    }
  }

  lemma {:induction false} BasesGrow(tokens: seq<Token>, i: nat, j: nat)
    requires i < |tokens| && j < |tokens|
    ensures i <= j ==> BasesBefore(tokens, i) <= BasesBefore(tokens, j)
  {
    if i <= j {
      BasePartOfPrefix(tokens[..j], i);
      assert tokens[..j][..i] == tokens[..i];
    }
  }

  lemma {:induction false} PrecedesIn(tokens: seq<Token>, x: nat, y: nat)
    requires x < y < |BasePart(tokens)|
    ensures Precedes(tokens, BasePart(tokens)[x], BasePart(tokens)[y])
  {
    var i := PlaceIn(tokens, x);
    var j := PlaceIn(tokens, y);
    BasesGrow(tokens, j, i);
  }

  lemma {:induction false} AgreeBefore(a: seq<Token>, b: seq<Token>, n: nat, k: nat)
    requires n <= |a| && n <= |b| && a[..n] == b[..n]
    ensures k < n ==> a[k] == b[k]
  {
    if k < n { assert a[..n][k] == b[..n][k]; }
  }

  /** Lists of the same base items in different orders have two of them the other way round. */
  lemma {:induction false} TwoTurned(a: seq<Token>, b: seq<Token>) returns (s: Token, t: Token)
    requires Distinct(a) && Distinct(b) && Elements(a) == Elements(b) && a != b
    ensures exists i, j :: 0 <= i < j < |a| && a[i] == s && a[j] == t
    ensures exists i, j :: 0 <= i < j < |b| && b[i] == t && b[j] == s
  {
    DistinctSize(a);
    DistinctSize(b);
    var n := FirstDifference(a, b);
    s, t := a[n], b[n];
    assert s in Elements(b) && t in Elements(a);
    var x :| 0 <= x < |b| && b[x] == s;
    var y :| 0 <= y < |a| && a[y] == t;
    AgreeBefore(a, b, n, x);
    AgreeBefore(a, b, n, y);
  }

  // ----- Cycles

  lemma {:induction false} ChainIsPath(edges: Edges, tokens: seq<Token>, withBase: bool, i: nat, j: nat)
    requires i <= j < |tokens| && Distinct(tokens)
    requires forall k :: i <= k < j ==> withBase || !IsBase(tokens[k]) || !IsBase(tokens[k + 1])
    requires forall s, t :: Linked(tokens, withBase, s, t) ==> Edge(edges, s, t)
    ensures IsPath(edges, tokens[i..j + 1])
  {
    var p := tokens[i..j + 1];
    forall k {:trigger StepAt(edges, p, k)} | 0 <= k < |p| - 1 ensures StepAt(edges, p, k) {
      assert LinkedAt(tokens, withBase, p[k], p[k + 1], i + k);
    }
  }

  lemma {:induction false} ThereAndBack(edges: Edges, there: seq<Token>, back: seq<Token>)
    requires IsPath(edges, there) && IsPath(edges, back) && |there| > 1
    requires there[|there| - 1] == back[0] && back[|back| - 1] == there[0]
    ensures !Acyclic(edges)
  {
    var p := there + back[1..];
    forall k {:trigger StepAt(edges, p, k)} | 0 <= k < |p| - 1 ensures StepAt(edges, p, k) {
      if k < |there| - 1 {
        assert StepAt(edges, there, k);
      } else {
        assert StepAt(edges, back, k - (|there| - 1));
      }
    }
    assert IsCycle(edges, p);
  }

  // ----- One side moved base items

  ghost predicate OneMoved(edges: Edges, moved: seq<Token>, still: seq<Token>) {
    && Distinct(moved) && Distinct(still) && (forall t :: t in still ==> (t in moved <==> IsBase(t)))
    && forall s, t :: Edge(edges, s, t) <==> Linked(moved, true, s, t) || Linked(still, false, s, t)
  }

  lemma {:induction false} CaughtMakesCycle(edges: Edges, moved: seq<Token>, still: seq<Token>, i: nat, j: nat)
    requires OneMoved(edges, moved, still) && Caught(still, moved, i, j)
    ensures !Acyclic(edges)
  {
    var x, y :| 0 <= x < y < |moved| && moved[x] == still[j] && moved[y] == still[i];
    ChainIsPath(edges, moved, true, x, y);
    ChainIsPath(edges, still, false, i, j);
    ThereAndBack(edges, moved[x..y + 1], still[i..j + 1]);
  }

  /** The place of the last base item before a place, or -1. */
  function LastBase(tokens: seq<Token>, k: nat): (r: int)
    requires k <= |tokens|
    ensures -1 <= r < k && (r >= 0 ==> IsBase(tokens[r])) && forall m :: r < m < k ==> !IsBase(tokens[m])
  {
    if k == 0 then -1 else if IsBase(tokens[k - 1]) then k - 1 else LastBase(tokens, k - 1)
  }

  /** What the moved side has is as high as it stands there; an addition of the other is right above the base item
   * before it. */
  ghost function Rank(moved: seq<Token>, still: seq<Token>, t: Token): Height {
    if t in moved then Height(IndexOf(moved, t), 0)
    else if t in still then
      var k := IndexOf(still, t);
      var last := LastBase(still, k);
      Height(if last >= 0 then IndexOf(moved, still[last]) else -1, k + 1)
    else Height(0, 0)
  }

  lemma {:induction false} StillClimbs(edges: Edges, moved: seq<Token>, still: seq<Token>, k: nat)
    requires OneMoved(edges, moved, still) && forall i: nat, j: nat :: !Caught(still, moved, i, j)
    requires k + 1 < |still| && !(IsBase(still[k]) && IsBase(still[k + 1]))
    ensures Rank(moved, still, still[k]).Below(Rank(moved, still, still[k + 1]))
  {
    IndexIs(still, k);
    IndexIs(still, k + 1);
    var last := LastBase(still, k);
    if IsBase(still[k + 1]) && last >= 0 {
      assert !Caught(still, moved, last, k + 1);
      var x, y := IndexOf(moved, still[k + 1]), IndexOf(moved, still[last]);
      assert x < y ==> Precedes(moved, still[k + 1], still[last]);
    }
  }

  lemma {:induction false} OneMovedClimbs(edges: Edges, moved: seq<Token>, still: seq<Token>, s: Token, t: Token)
    requires OneMoved(edges, moved, still) && forall i: nat, j: nat :: !Caught(still, moved, i, j)
    requires Edge(edges, s, t)
    ensures Rank(moved, still, s).Below(Rank(moved, still, t))
  {
    if Linked(moved, true, s, t) {
      var k :| 0 <= k < |moved| - 1 && LinkedAt(moved, true, s, t, k);
      IndexIs(moved, k);
      IndexIs(moved, k + 1);
    } else {
      var k :| 0 <= k < |still| - 1 && LinkedAt(still, false, s, t, k);
      StillClimbs(edges, moved, still, k);
    }
  }

  lemma {:induction false} ClimbingIsAcyclic(edges: Edges, height: Token -> Height)
    requires forall s, t :: Edge(edges, s, t) ==> height(s).Below(height(t))
    ensures Acyclic(edges)
  {
    forall p ensures !IsCycle(edges, p) {
      if IsCycle(edges, p) { PathClimbs(edges, height, p, |p| - 1); }
    }
  }

  lemma {:induction false} OneMovedIff(edges: Edges, moved: seq<Token>, still: seq<Token>)
    requires OneMoved(edges, moved, still)
    ensures Acyclic(edges) <==> forall i: nat, j: nat :: !Caught(still, moved, i, j)
  {
    if i: nat, j: nat :| Caught(still, moved, i, j) {
      CaughtMakesCycle(edges, moved, still, i, j);
    } else {
      forall s, t | Edge(edges, s, t) ensures Rank(moved, still, s).Below(Rank(moved, still, t)) {
        OneMovedClimbs(edges, moved, still, s, t);
      }
      ClimbingIsAcyclic(edges, t => Rank(moved, still, t));
    }
  }

  // ----- Both sides moved base items

  ghost predicate BothMoved(edges: Edges, ours: seq<Token>, theirs: seq<Token>) {
    forall s, t :: Edge(edges, s, t) <==> Linked(ours, true, s, t) || Linked(theirs, true, s, t)
  }

  lemma {:induction false} TurnedMakesCycle(edges: Edges, ours: seq<Token>, theirs: seq<Token>, s: Token, t: Token)
    requires BothMoved(edges, ours, theirs) && Distinct(ours) && Distinct(theirs)
    requires Precedes(ours, s, t) && Precedes(theirs, t, s)
    ensures !Acyclic(edges)
  {
    var i, j :| 0 <= i < j < |ours| && ours[i] == s && ours[j] == t;
    var k, l :| 0 <= k < l < |theirs| && theirs[k] == t && theirs[l] == s;
    ChainIsPath(edges, ours, true, i, j);
    ChainIsPath(edges, theirs, true, k, l);
    ThereAndBack(edges, ours[i..j + 1], theirs[k..l + 1]);
  }

  lemma {:induction false} AsIfUnmoved(ours: seq<Token>, theirs: seq<Token>, side: seq<Token>, s: Token, t: Token)
    requires BasePart(ours) == BasePart(theirs) && (side == ours || side == theirs) && Linked(side, true, s, t)
    ensures Constraint(BasePart(ours), ours, theirs, s, t)
  {
    var k :| 0 <= k < |side| - 1 && LinkedAt(side, true, s, t, k);
    if IsBase(s) && IsBase(t) {
      BaseNeighbours(side, k);
    } else {
      assert LinkedAt(side, false, s, t, k);
    }
  }

  lemma {:induction false} BothMovedIff(surviving: seq<Token>, edges: Edges, ours: seq<Token>, theirs: seq<Token>)
    requires OnlyBaseShared(surviving, ours, theirs) && BothMoved(edges, ours, theirs)
    ensures Acyclic(edges) <==> BasePart(ours) == BasePart(theirs)
  {
    var b := BasePart(ours);
    BasePartIsDistinct(ours);
    BasePartIsDistinct(theirs);
    if b == BasePart(theirs) {
      forall s, t | Edge(edges, s, t) ensures HeightOf(b, ours, theirs, s).Below(HeightOf(b, ours, theirs, t)) {
        AsIfUnmoved(ours, theirs, if Linked(ours, true, s, t) then ours else theirs, s, t);
        EdgesClimb(b, ours, theirs, s, t);
      }
      ClimbingIsAcyclic(edges, t => HeightOf(b, ours, theirs, t));
    } else {
      forall t ensures t in b <==> t in BasePart(theirs) {
        InBasePart(ours, t);
        InBasePart(theirs, t);
      }
      var s, t := TwoTurned(b, BasePart(theirs));
      var i, j :| 0 <= i < j < |b| && b[i] == s && b[j] == t;
      var k, l :| 0 <= k < l < |BasePart(theirs)| && BasePart(theirs)[k] == t && BasePart(theirs)[l] == s;
      PrecedesIn(ours, i, j);
      PrecedesIn(theirs, k, l);
      TurnedMakesCycle(edges, ours, theirs, s, t);
    }
  }

  // ----- All cases

  /** The constraints of two sides that share no addition have no cycle exactly if their moves can be reconciled. */
  lemma {:induction false} AcyclicIff(surviving: seq<Token>, ours: seq<Token>, theirs: seq<Token>, edges: Edges)
    requires OnlyBaseShared(surviving, ours, theirs)
    requires forall s, t :: Edge(edges, s, t) <==> Constraint(surviving, ours, theirs, s, t)
    ensures Acyclic(edges) <==> Reconcilable(surviving, ours, theirs)
  {
    if BasePart(ours) != surviving {
      if BasePart(theirs) != surviving { BothMovedIff(surviving, edges, ours, theirs); }
      else { OneMovedIff(edges, ours, theirs); }
    } else if BasePart(theirs) != surviving {
      OneMovedIff(edges, theirs, ours);
    } else {
      UnmovedIsAcyclic(surviving, ours, theirs, edges);
    }
  }

  // ----- Plans

  lemma {:induction false} SideHasSurvivors(bases: nat, sides: nat, m: SideMatch, added: map<nat, Token>,
      omitted: set<Token>, t: Token)
    requires Bijection(m, bases, sides) && SequencePlan.OneToOne(added) && IsBase(t)
    requires SequencePlan.SurvivorsPaired(bases, m, omitted)
    requires forall x :: SequencePlan.HasToken(added, x) ==> !IsBase(x)
    ensures t in SequencePlan.TokensFor(sides, m, added, omitted) <==> t in SequencePlan.Survivors(bases, omitted)
  {
    SequencePlan.BaseListed(bases, sides, m, added, omitted, t.index);
    SequencePlan.SurvivorsAre(bases, omitted, t);
    assert t == SequencePlan.Base(t.index);
  }

  lemma {:induction false} PlanSides(p: SequencePlan.Plan)
    requires SequencePlan.WellPlaced(p) && SequencePlan.SurvivorsPaired(|p.sides.baseIds|, p.sides.tm, p.omitted)
    requires p.shared.sideToBase == map[]
    ensures OnlyBaseShared(p.Surviving(), p.OurTokens(), p.TheirTokens())
  {
    PlanIsDistinct(p);
    forall t | t in p.OurTokens() && t in p.TheirTokens() ensures IsBase(t) { OnlyBaseInCommon(p, t); }
    forall t ensures IsBase(t) ==>
      (t in p.OurTokens() <==> t in p.Surviving()) && (t in p.TheirTokens() <==> t in p.Surviving()) {
      if IsBase(t) { PlanHasSurvivors(p, t); }
    }
    forall t | t in p.Surviving() ensures IsBase(t) {
      SequencePlan.SurvivorsAre(|p.sides.baseIds|, p.omitted, t);
    }
  }

  lemma {:induction false} PlanHasSurvivors(p: SequencePlan.Plan, t: Token)
    requires SequencePlan.WellPlaced(p) && SequencePlan.SurvivorsPaired(|p.sides.baseIds|, p.sides.tm, p.omitted)
    requires IsBase(t)
    ensures t in p.OurTokens() <==> t in p.Surviving()
    ensures t in p.TheirTokens() <==> t in p.Surviving()
  {
    SequencePlan.TokensOfAdditions(p.sides.om, p.sides.tm, p.shared, p.oursAdd, p.theirsAdd);
    SideHasSurvivors(|p.sides.baseIds|, |p.sides.oursIds|, p.sides.om, p.oursAdd, p.omitted, t);
    SideHasSurvivors(|p.sides.baseIds|, |p.sides.theirsIds|, p.sides.tm, p.theirsAdd, p.omitted, t);
  }

  lemma {:induction false} AllPaired(b: Json, o: Json, t: Json, p: SequencePlan.Plan, strip: bool)
    requires b.Arr? && o.Arr? && t.Arr? && Drops(b, o, t, p, strip)
    ensures SequencePlan.SurvivorsPaired(|b.items|, p.sides.tm, p.omitted)
  {
    forall i {:trigger SequencePlan.Base(i)} | 0 <= i < |b.items| && SequencePlan.Base(i) !in p.omitted
      ensures i in p.sides.tm.baseToSide {
      assert DropsItem(b, o, t, p.sides, i, SequencePlan.Base(i) in p.omitted, strip);
    }
  }

  /** A sequence without shared additions is given up exactly if two additions collide or the moves of its sides cannot
   * be reconciled. */
  lemma {:induction false} BlockedIff(b: Json, o: Json, t: Json, p: SequencePlan.Plan, strip: bool)
    requires b.Arr? && o.Arr? && t.Arr? && SequencePlan.Matched(b.items, o.items, t.items, p.sides, strip)
    requires Drops(b, o, t, p, strip) && SequencePlan.WellPlaced(p) && SequencePlan.Shares(p) &&
      SequencePlan.Constrained(p)
    requires p.shared.sideToBase == map[]
    ensures Blocked(b, o, t, p, strip) <==>
      Clashing(o.items, t.items, p.sides) || !Reconcilable(p.Surviving(), p.OurTokens(), p.TheirTokens())
  {
    SequencePlan.MatchedFits(b.items, o.items, t.items, p.sides, strip);
    AllPaired(b, o, t, p, strip);
    PlanSides(p);
    AcyclicIff(p.Surviving(), p.OurTokens(), p.TheirTokens(), p.edges);
  }
}
