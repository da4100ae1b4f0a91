/** Which items of a side are paired with which of the base, told from the items and the pairs alone. */
module PairingLaws {
  import opened ExactPairs
  import opened JsonTree
  import opened MatchSides
  import opened SequencePlan
  import opened Wrappers

  /** The items of the base and of a side, and how they are paired. */
  datatype Match = Match(base: seq<Json>, side: seq<Json>, found: SideMatch, strip: bool) {
    ghost predicate Alike(i: nat, j: nat) {
      i < |base| && j < |side| && Same(Some(base[i]), Some(side[j]), strip)
    }

    /** Equal items that are paired. */
    ghost predicate ByContent(i: nat, j: nat) { found.Pairs(i, j) && Alike(i, j) }

    ghost predicate BaseEqual(i: nat) { exists j: nat :: ByContent(i, j) }

    ghost predicate SideEqual(j: nat) { exists i: nat :: ByContent(i, j) }

    /** Of the items without an equal partner, these alone have their hint. */
    ghost predicate ByName(i: nat, j: nat) {
      && i < |base| && j < |side| && !BaseEqual(i) && !SideEqual(j)
      && IdentityHint(base[i]).Some? && IdentityHint(base[i]) == IdentityHint(side[j])
      && (forall k: nat :: k < |base| && k != i && IdentityHint(base[k]) == IdentityHint(base[i]) ==> BaseEqual(k))
      && (forall k: nat :: k < |side| && k != j && IdentityHint(side[k]) == IdentityHint(side[j]) ==> SideEqual(k))
    }

    ghost predicate BaseNamed(i: nat) { BaseEqual(i) || exists j: nat :: ByName(i, j) }

    ghost predicate SideNamed(j: nat) { SideEqual(j) || exists i: nat :: ByName(i, j) }

    /** Of the items left by then, these alone are of their kind. */
    ghost predicate ByKind(i: nat, j: nat) {
      && i < |base| && j < |side| && !BaseNamed(i) && !SideNamed(j) && Kind(base[i]) == Kind(side[j])
      && (forall k: nat :: k < |base| && k != i && Kind(base[k]) == Kind(base[i]) ==> BaseNamed(k))
      && (forall k: nat :: k < |side| && k != j && Kind(side[k]) == Kind(side[j]) ==> SideNamed(k))
    }

    /** Paired in none of these ways. */
    ghost predicate InTurn(i: nat, j: nat) {
      found.Pairs(i, j) && !ByContent(i, j) && !ByName(i, j) && !ByKind(i, j)
    }

    /** What matching by ids that tell items apart gives. */
    ghost predicate Made(baseIds: seq<nat>, sideIds: seq<nat>, passes: Passes) {
      TellApart(base, baseIds, side, sideIds, strip) && PairedBy(base, side, baseIds, sideIds, found, passes)
    }
  }

  lemma {:induction false} PassesGrow(m: Match, baseIds: seq<nat>, sideIds: seq<nat>, passes: Passes, i: nat, j: nat)
    requires m.Made(baseIds, sideIds, passes)
    ensures passes.exact.Pairs(i, j) ==> passes.hinted.Pairs(i, j)
    ensures passes.hinted.Pairs(i, j) ==> passes.kinded.Pairs(i, j)
    ensures passes.kinded.Pairs(i, j) ==> m.found.Pairs(i, j)
  {
  }

  /** The first pass pairs exactly the pairs of equal items. */
  lemma {:induction false} EqualFirst(m: Match, baseIds: seq<nat>, sideIds: seq<nat>, passes: Passes, i: nat, j: nat)
    requires m.Made(baseIds, sideIds, passes)
    ensures passes.exact.Pairs(i, j) <==> m.ByContent(i, j)
  {
    PassesGrow(m, baseIds, sideIds, passes, i, j);
    if passes.exact.Pairs(i, j) {
      ExactPairsAgree(passes.exact, IdKeys(baseIds), IdKeys(sideIds), i);
    } else if m.ByContent(i, j) {
      NoneLeftOver(passes.exact, IdKeys(baseIds), IdKeys(sideIds), i, j);
      if i in passes.exact.baseToSide {
        PassesGrow(m, baseIds, sideIds, passes, i, passes.exact.baseToSide[i]);
      } else {
        PassesGrow(m, baseIds, sideIds, passes, passes.exact.sideToBase[j], j);
      }
    }
  }

  lemma {:induction false} EqualTaken(m: Match, baseIds: seq<nat>, sideIds: seq<nat>, passes: Passes, k: nat)
    requires m.Made(baseIds, sideIds, passes)
    ensures k in passes.exact.baseToSide <==> m.BaseEqual(k)
    ensures k in passes.exact.sideToBase <==> m.SideEqual(k)
  {
    forall i: nat, j: nat ensures passes.exact.Pairs(i, j) <==> m.ByContent(i, j) {
      EqualFirst(m, baseIds, sideIds, passes, i, j);
    }
    if k in passes.exact.baseToSide { assert passes.exact.Pairs(k, passes.exact.baseToSide[k]); }
    if k in passes.exact.sideToBase { assert passes.exact.Pairs(passes.exact.sideToBase[k], k); }
  }

  /** Of two equal items, one on each side, one is paired with an equal one. */
  lemma {:induction false} NoEqualIsLeft(m: Match, baseIds: seq<nat>, sideIds: seq<nat>, passes: Passes, i: nat,
      j: nat)
    requires m.Made(baseIds, sideIds, passes) && m.Alike(i, j)
    ensures m.BaseEqual(i) || m.SideEqual(j)
  {
    NoneLeftOver(passes.exact, IdKeys(baseIds), IdKeys(sideIds), i, j);
    EqualTaken(m, baseIds, sideIds, passes, i);
    EqualTaken(m, baseIds, sideIds, passes, j);
  }

  lemma {:induction false} SortedTogether(m: SideMatch, base: seq<Key>, side: seq<Key>, i: nat, k: nat)
    requires ExactUpTo(m, base, side, |base|) && i < |base| && k < |base| && base[i] == base[k]
    requires i in m.baseToSide && k in m.baseToSide
    ensures i < k <==> m.baseToSide[i] < m.baseToSide[k]
  {
    if i < k {
      FirstWithFirst(m, base, side, i, k);
    } else if k < i {
      FirstWithFirst(m, base, side, k, i);
    }
  }

  /** Equal items are paired in their order: first with first. */
  lemma {:induction false} EqualInOrder(m: Match, baseIds: seq<nat>, sideIds: seq<nat>, passes: Passes, i: nat, j: nat,
      k: nat, l: nat)
    requires m.Made(baseIds, sideIds, passes) && m.ByContent(i, j) && m.ByContent(k, l) && m.Alike(i, l)
    ensures i < k <==> j < l
  {
    EqualFirst(m, baseIds, sideIds, passes, i, j);
    EqualFirst(m, baseIds, sideIds, passes, k, l);
    SortedTogether(passes.exact, IdKeys(baseIds), IdKeys(sideIds), i, k);
  }

  /** An item of the base before one that is paired with an equal one, and equal to it, is paired too. */
  lemma {:induction false} EarlierIsEqual(m: Match, baseIds: seq<nat>, sideIds: seq<nat>, passes: Passes, i: nat,
      k: nat, l: nat)
    requires m.Made(baseIds, sideIds, passes) && m.ByContent(k, l)
    ensures i < k && m.Alike(i, l) ==> m.BaseEqual(i)
    ensures i < l && m.Alike(k, i) ==> m.SideEqual(i)
  {
    EqualFirst(m, baseIds, sideIds, passes, k, l);
    EqualTaken(m, baseIds, sideIds, passes, i);
    var baseKeys, sideKeys := IdKeys(baseIds), IdKeys(sideIds);
    if i < k && m.Alike(i, l) { FirstWithFirst(passes.exact, baseKeys, sideKeys, i, k); }
    if i < l && m.Alike(k, i) { EarlierIsTaken(passes.exact, baseKeys, sideKeys, i, l); }
  }

  // ----- Unique hints, then unique kinds

  /** The second pass adds exactly the pairs of items whose hint is unique among those left. */
  lemma {:induction false} NamedNext(m: Match, baseIds: seq<nat>, sideIds: seq<nat>, passes: Passes, i: nat, j: nat)
    requires m.Made(baseIds, sideIds, passes)
    ensures passes.hinted.Pairs(i, j) <==> m.ByContent(i, j) || m.ByName(i, j)
  {
    EqualFirst(m, baseIds, sideIds, passes, i, j);
    forall k: nat
      ensures k in passes.exact.baseToSide <==> m.BaseEqual(k)
      ensures k in passes.exact.sideToBase <==> m.SideEqual(k) {
      EqualTaken(m, baseIds, sideIds, passes, k);
    }
    SoleName(m, passes.exact, i, j);
  }

  lemma {:induction false} StaysAlone(keys: seq<Key>, i: nat, k: nat)
    requires Sole(keys, i) && k < |keys| && k != i
    ensures keys[k] != keys[i]
  {
  }

  lemma {:induction false} SoleName(m: Match, before: SideMatch, i: nat, j: nat)
    requires forall k: nat :: k in before.baseToSide <==> m.BaseEqual(k)
    requires forall k: nat :: k in before.sideToBase <==> m.SideEqual(k)
    ensures SolePair(Untaken(HintKeys(m.base), before.baseToSide), Untaken(HintKeys(m.side), before.sideToBase), i, j)
      <==> m.ByName(i, j)
  {
    var b, s := Untaken(HintKeys(m.base), before.baseToSide), Untaken(HintKeys(m.side), before.sideToBase);
    if m.ByName(i, j) {
      assert b[i] == s[j] == Name(IdentityHint(m.base[i]).value);
      assert Sole(b, i) && Sole(s, j);
    }
    if SolePair(b, s, i, j) {
      forall k: nat | k < |m.base| && k != i && IdentityHint(m.base[k]) == IdentityHint(m.base[i])
        ensures m.BaseEqual(k) { StaysAlone(b, i, k); }
      forall k: nat | k < |m.side| && k != j && IdentityHint(m.side[k]) == IdentityHint(m.side[j])
        ensures m.SideEqual(k) { StaysAlone(s, j, k); }
    }
  }

  lemma {:induction false} BaseTaken(m: Match, baseIds: seq<nat>, sideIds: seq<nat>, passes: Passes, k: nat)
    requires m.Made(baseIds, sideIds, passes)
    ensures k in passes.hinted.baseToSide <==> m.BaseNamed(k)
  {
    if k in passes.hinted.baseToSide { NamedNext(m, baseIds, sideIds, passes, k, passes.hinted.baseToSide[k]); }
    if m.BaseNamed(k) {
      var j: nat :| m.ByContent(k, j) || m.ByName(k, j);
      NamedNext(m, baseIds, sideIds, passes, k, j);
    }
  }

  lemma {:induction false} SideTaken(m: Match, baseIds: seq<nat>, sideIds: seq<nat>, passes: Passes, k: nat)
    requires m.Made(baseIds, sideIds, passes)
    ensures k in passes.hinted.sideToBase <==> m.SideNamed(k)
  {
    if k in passes.hinted.sideToBase { NamedNext(m, baseIds, sideIds, passes, passes.hinted.sideToBase[k], k); }
    if m.SideNamed(k) {
      var i: nat :| m.ByContent(i, k) || m.ByName(i, k);
      NamedNext(m, baseIds, sideIds, passes, i, k);
    }
  }

  /** The third adds exactly the pairs of items whose kind is unique among those left then. */
  lemma {:induction false} KindNext(m: Match, baseIds: seq<nat>, sideIds: seq<nat>, passes: Passes, i: nat, j: nat)
    requires m.Made(baseIds, sideIds, passes)
    ensures passes.kinded.Pairs(i, j) <==> m.ByContent(i, j) || m.ByName(i, j) || m.ByKind(i, j)
  {
    NamedNext(m, baseIds, sideIds, passes, i, j);
    forall k: nat
      ensures k in passes.hinted.baseToSide <==> m.BaseNamed(k)
      ensures k in passes.hinted.sideToBase <==> m.SideNamed(k) {
      BaseTaken(m, baseIds, sideIds, passes, k);
      SideTaken(m, baseIds, sideIds, passes, k);
    }
    SoleKind(m, passes.hinted, i, j);
  }

  lemma {:induction false} SoleKind(m: Match, before: SideMatch, i: nat, j: nat)
    requires forall k: nat :: k in before.baseToSide <==> m.BaseNamed(k)
    requires forall k: nat :: k in before.sideToBase <==> m.SideNamed(k)
    ensures SolePair(Untaken(KindKeys(m.base), before.baseToSide), Untaken(KindKeys(m.side), before.sideToBase), i, j)
      <==> m.ByKind(i, j)
  {
    var b, s := Untaken(KindKeys(m.base), before.baseToSide), Untaken(KindKeys(m.side), before.sideToBase);
    if m.ByKind(i, j) {
      assert b[i] == s[j] == Name(Kind(m.base[i]));
      assert Sole(b, i) && Sole(s, j);
    }
    if SolePair(b, s, i, j) {
      forall k: nat | k < |m.base| && k != i && Kind(m.base[k]) == Kind(m.base[i])
        ensures m.BaseNamed(k) { StaysAlone(b, i, k); }
      forall k: nat | k < |m.side| && k != j && Kind(m.side[k]) == Kind(m.side[j])
        ensures m.SideNamed(k) { StaysAlone(s, j, k); }
    }
  }

  // ----- The pairs of all passes

  /** Items whose hint or kind is unique at its turn are paired. */
  lemma {:induction false} UniqueArePaired(m: Match, baseIds: seq<nat>, sideIds: seq<nat>, passes: Passes, i: nat,
      j: nat)
    requires m.Made(baseIds, sideIds, passes) && (m.ByName(i, j) || m.ByKind(i, j))
    ensures m.found.Pairs(i, j)
  {
    KindNext(m, baseIds, sideIds, passes, i, j);
    PassesGrow(m, baseIds, sideIds, passes, i, j);
  }

  lemma {:induction false} RestOf(m: Match, baseIds: seq<nat>, sideIds: seq<nat>, passes: Passes, i: nat, j: nat)
      returns (k: nat, l: nat, x: nat)
    requires m.Made(baseIds, sideIds, passes) && m.InTurn(i, j)
    ensures var bs, ss := Remaining(|m.base|, passes.kinded.baseToSide), Remaining(|m.side|, passes.kinded.sideToBase);
      var pairs := RestPairs(KindsAt(m.base, bs), KindsAt(m.side, ss));
      x < |pairs| && pairs[x] == (k, l) && k < |bs| && l < |ss| && bs[k] == i && ss[l] == j
  {
    KindNext(m, baseIds, sideIds, passes, i, j);
    var bs, ss := Remaining(|m.base|, passes.kinded.baseToSide), Remaining(|m.side|, passes.kinded.sideToBase);
    var pairs := RestPairs(KindsAt(m.base, bs), KindsAt(m.side, ss));
    var y :| 0 <= y < |pairs| && RestPairAt(bs, ss, pairs, y, i, j);
    x := y;
    k, l := pairs[x].0, pairs[x].1;
  }

  /** Any other two that are paired are of one kind. */
  lemma {:induction false} RestIsOfOneKind(m: Match, baseIds: seq<nat>, sideIds: seq<nat>, passes: Passes, i: nat,
      j: nat)
    requires m.Made(baseIds, sideIds, passes) && m.InTurn(i, j)
    ensures i < |m.base| && j < |m.side| && Kind(m.base[i]) == Kind(m.side[j])
  {
    var k, l, x := RestOf(m, baseIds, sideIds, passes, i, j);
  }

  lemma {:induction false} NoneCross(bs: seq<nat>, ss: seq<nat>, a: seq<string>, b: seq<string>,
      pairs: seq<(nat, nat)>, x: nat, y: nat)
    requires Ascend(bs) && Ascend(ss) && |a| == |bs| && |b| == |ss| && IsCommon(a, b, pairs, 0, 0)
    requires x < |pairs| && y < |pairs|
    ensures bs[pairs[x].0] < bs[pairs[y].0] <==> ss[pairs[x].1] < ss[pairs[y].1]
  {
  }

  /** And such pairs do not cross. */
  lemma {:induction false} RestIsInOrder(m: Match, baseIds: seq<nat>, sideIds: seq<nat>, passes: Passes, i: nat, j: nat,
      k: nat, l: nat)
    requires m.Made(baseIds, sideIds, passes) && m.InTurn(i, j) && m.InTurn(k, l)
    ensures i < k <==> j < l
  {
    var a, b, x := RestOf(m, baseIds, sideIds, passes, i, j);
    var c, d, y := RestOf(m, baseIds, sideIds, passes, k, l);
    var bs, ss := Remaining(|m.base|, passes.kinded.baseToSide), Remaining(|m.side|, passes.kinded.sideToBase);
    var baseKinds, sideKinds := KindsAt(m.base, bs), KindsAt(m.side, ss);
    NoneCross(bs, ss, baseKinds, sideKinds, RestPairs(baseKinds, sideKinds), x, y);
  }
}
