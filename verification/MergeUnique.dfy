/** Three versions have at most one merge. */
module MergeUnique {
  import opened JsonTree
  import opened MatchSides
  import MergeOrder
  import opened MergeConflicts
  import opened MergeExact
  import opened MergeOutcomes
  import opened MergeSpec
  import opened PlanDecided
  import opened SequencePlan
  import opened AstMergeLaws
  import opened Wrappers

  // ----- One order

  lemma {:induction false} AgreeBefore(a: seq<Token>, b: seq<Token>, n: nat)
    requires n <= |a| && n <= |b| && a[..n] == b[..n]
    ensures forall m :: 0 <= m < n ==> a[m] == b[m]
  {
    forall m | 0 <= m < n ensures a[m] == b[m] { assert a[..n][m] == b[..n][m]; }
  }

  lemma {:induction false} EarlierOneWay(a: seq<Token>, b: seq<Token>)
    requires MergeOrder.Earlier(a, b)
    ensures !MergeOrder.Earlier(b, a)
  {
    var m: nat :| m < |a| && m < |b| && a[..m] == b[..m] && MergeOrder.Before(a[m], b[m]);
    AgreeBefore(a, b, m);
    forall n: nat | n < |b| && n < |a| && b[..n] == a[..n] ensures !MergeOrder.Before(b[n], a[n]) {
      AgreeBefore(b, a, n);
    }
  }

  lemma {:induction false} OrderIsDecided(p: Plan, q: Plan)
    requires p.OurTokens() == q.OurTokens() && p.TheirTokens() == q.TheirTokens() && p.Surviving() == q.Surviving()
    requires Ordered(p) && Ordered(q)
    requires MergeOrder.Elements(p.Surviving()) <=
      MergeOrder.Elements(p.OurTokens()) + MergeOrder.Elements(p.TheirTokens())
    ensures p.order == q.order
  {
    var surviving, ours, theirs := p.Surviving(), p.OurTokens(), p.TheirTokens();
    var all := MergeOrder.Elements(ours) + MergeOrder.Elements(theirs);
    MergeOrder.SuitsIsTopological(surviving, ours, theirs, p.edges, p.order);
    MergeOrder.SuitsIsTopological(surviving, ours, theirs, q.edges, q.order);
    MergeOrder.SuitsIsTopological(surviving, ours, theirs, p.edges, q.order);
    MergeOrder.SuitsIsTopological(surviving, ours, theirs, q.edges, p.order);
    MergeOrder.ConstraintsWithin(surviving, ours, theirs, p.edges, all);
    MergeOrder.ConstraintsWithin(surviving, ours, theirs, q.edges, all);
    if p.order != q.order {
      MergeOrder.LeastOfAll(p.order, q.order, all, p.edges);
      EarlierOneWay(p.order, q.order);
      MergeOrder.LeastOfAll(q.order, p.order, all, q.edges);
    }
  }

  // ----- One value for each token

  lemma {:induction false} SameCollect(order: seq<Token>, values: map<Token, Json>, others: map<Token, Json>)
    requires forall token :: token in order ==> token in values && token in others && values[token] == others[token]
    ensures Collect(order, values) == Collect(order, others)
  {
    if order != [] { SameCollect(order[..|order| - 1], values, others); }
  }

  /** An addition has in both plans the value it was added with. */
  lemma {:induction false} AdditionsDecided(o: seq<Json>, t: seq<Json>, p: Plan, q: Plan, i: nat)
    requires Valued(o, t, p.values, p.values, p.oursAdd, p.theirsAdd)
    requires Valued(o, t, q.values, q.values, q.oursAdd, q.theirsAdd)
    requires p.oursAdd == q.oursAdd && p.theirsAdd == q.theirsAdd
    ensures i in p.oursAdd ==> Ours(i) in p.values && Ours(i) in q.values && p.values[Ours(i)] == q.values[Ours(i)]
    ensures i in p.theirsAdd && p.theirsAdd[i] == Theirs(i) ==>
      Theirs(i) in p.values && Theirs(i) in q.values && p.values[Theirs(i)] == q.values[Theirs(i)]
  {
  }

  lemma {:induction false} TokenOfOurs(om: SideMatch, oursAdd: map<nat, Token>, token: Token)
    requires OursAdded(om, oursAdd, |om.additions|) && HasToken(oursAdd, token)
    ensures token == Ours(token.index) && token.index in oursAdd
  {
    var i :| i in oursAdd && oursAdd[i] == token;
    assert i in om.additions;
  }

  lemma {:induction false} TokenOfTheirs(om: SideMatch, tm: SideMatch, shared: SideMatch, oursAdd: map<nat, Token>,
      theirsAdd: map<nat, Token>, token: Token)
    requires Bijection(shared, |om.additions|, |tm.additions|) && HasToken(theirsAdd, token)
    requires OursAdded(om, oursAdd, |om.additions|) && TheirsAdded(om, tm, shared, theirsAdd, |tm.additions|)
    ensures (token == Ours(token.index) && token.index in oursAdd) ||
      (token == Theirs(token.index) && token.index in theirsAdd && theirsAdd[token.index] == token)
  {
    TheirsAddedAre(om, tm, shared, theirsAdd, token);
    var k :| 0 <= k < |tm.additions| && TheirToken(om, tm, shared, k) == token;
    if k in shared.sideToBase {
      assert om.additions[shared.sideToBase[k]] in om.additions[..|om.additions|];
    }
  }

  /** A token of the order that is no base item is one of ours, or one that only theirs added. */
  lemma {:induction false} AddedTokens(p: Plan, token: Token)
    requires WellPlaced(p) && Ordered(p) && token in p.order && !MergeOrder.IsBase(token)
    ensures (token == Ours(token.index) && token.index in p.oursAdd) ||
      (token == Theirs(token.index) && token.index in p.theirsAdd && p.theirsAdd[token.index] == token)
  {
    OrderListsBoth(p);
    assert HasToken(p.oursAdd, token) || HasToken(p.theirsAdd, token) by {
      TokensOfAdditions(p.sides.om, p.sides.tm, p.shared, p.oursAdd, p.theirsAdd);
      AdditionInOrder(p, token);
    }
    if HasToken(p.oursAdd, token) {
      TokenOfOurs(p.sides.om, p.oursAdd, token);
    } else {
      TokenOfTheirs(p.sides.om, p.sides.tm, p.shared, p.oursAdd, p.theirsAdd, token);
    }
  }

  // ----- One merge

  lemma {:induction false} MergesIsOne(b: Option<Json>, o: Option<Json>, t: Option<Json>, r: Option<Json>,
      s: Option<Json>, strip: bool)
    requires Merges(b, o, t, r, strip) && Merges(b, o, t, s, strip)
    ensures r == s
    decreases b.Some?, if b.Some? then b.value else Null, 2
  {
    if !Settled(b, o, t, strip) {
      if IsObj(b) && IsObj(o) && IsObj(t) {
        MembersAreOne(b.value, o.value, t.value, r.value, s.value, strip);
      } else {
        SequenceIsOne(b.value, o.value, t.value, r.value, s.value, strip);
      }
    }
  }

  lemma {:induction false} MembersAreOne(b: Json, o: Json, t: Json, r: Json, s: Json, strip: bool)
    requires b.Obj? && o.Obj? && t.Obj? && r.Obj? && s.Obj?
    requires MembersMerge(b, o, t, r, strip) && MembersMerge(b, o, t, s, strip)
    ensures r == s
    decreases true, b, 1
  {
    forall k ensures MemberOf(r, k) == MemberOf(s, k) {
      if Kept(k, strip) && InAny(b, o, t, k) { MemberIsOne(b, o, t, r, s, strip, k); }
    }
    forall k ensures k in r.fields <==> k in s.fields { assert MemberOf(r, k) == MemberOf(s, k); }
    forall k | k in r.fields ensures r.fields[k] == s.fields[k] { assert MemberOf(r, k) == MemberOf(s, k); }
    assert r.fields == s.fields;
  }

  lemma {:induction false} MemberIsOne(b: Json, o: Json, t: Json, r: Json, s: Json, strip: bool, key: string)
    requires b.Obj? && o.Obj? && t.Obj? && r.Obj? && s.Obj? && Kept(key, strip) && InAny(b, o, t, key)
    requires MembersMerge(b, o, t, r, strip) && MembersMerge(b, o, t, s, strip)
    ensures MemberOf(r, key) == MemberOf(s, key)
    decreases true, b, 0
  {
    assert MemberMerges(b, o, t, r, strip, key) && MemberMerges(b, o, t, s, strip, key);
    MergesIsOne(MemberOf(b, key), MemberOf(o, key), MemberOf(t, key), MemberOf(r, key), MemberOf(s, key),
      StripBelow(key, strip));
  }

  lemma {:induction false} SequenceIsOne(b: Json, o: Json, t: Json, r: Json, s: Json, strip: bool)
    requires b.Arr? && o.Arr? && t.Arr? && r.Arr? && s.Arr?
    requires SequenceMerges(b, o, t, r, strip) && SequenceMerges(b, o, t, s, strip)
    ensures r == s
    decreases true, b, 1
  {
    var p :| PlanMerges(b, o, t, p, strip) && r.items == Collect(p.order, p.values);
    var q :| PlanMerges(b, o, t, q, strip) && s.items == Collect(q.order, q.values);
    PlansAgree(b, o, t, p, q, strip);
    forall token | token in p.order ensures OneValue(p, q, token) {
      ValueIsOne(b, o, t, p, q, strip, token);
    }
    SameCollect(p.order, p.values, q.values);
  }

  lemma {:induction false} PlansAgree(b: Json, o: Json, t: Json, p: Plan, q: Plan, strip: bool)
    requires b.Arr? && o.Arr? && t.Arr? && PlanMerges(b, o, t, p, strip) && PlanMerges(b, o, t, q, strip)
    ensures p.order == q.order && p.sides.om == q.sides.om && p.sides.tm == q.sides.tm
    ensures p.oursAdd == q.oursAdd && p.theirsAdd == q.theirsAdd
  {
    PlanIsWellPlaced(b, o, t, p, strip);
    PlanIsWellPlaced(b, o, t, q, strip);
    MergedDrops(b, o, t, p, strip);
    MergedDrops(b, o, t, q, strip);
    OmittedAreDecided(b, o, t, p, q, strip);
    MatchedIsDecided(b.items, o.items, t.items, p.sides, q.sides, strip);
    MatchedFits(b.items, o.items, t.items, p.sides, strip);
    PlanIsDecided(b.items, o.items, t.items, p, q, strip);
    SurvivorsAreTokens(|p.sides.baseIds|, p.sides.om, |o.items|, p.oursAdd, p.omitted);
    OrderIsDecided(p, q);
  }

  ghost predicate OneValue(p: Plan, q: Plan, token: Token) {
    token in p.values && token in q.values && p.values[token] == q.values[token]
  }

  lemma {:induction false} ValueIsOne(b: Json, o: Json, t: Json, p: Plan, q: Plan, strip: bool, token: Token)
    requires b.Arr? && o.Arr? && t.Arr? && PlanMerges(b, o, t, p, strip) && PlanMerges(b, o, t, q, strip)
    requires token in p.order && p.sides.om == q.sides.om && p.sides.tm == q.sides.tm
    requires p.oursAdd == q.oursAdd && p.theirsAdd == q.theirsAdd
    ensures OneValue(p, q, token)
    decreases true, b, 0, 1
  {
    if MergeOrder.IsBase(token) {
      assert token == Base(token.index);
      BaseValueIsOne(b, o, t, p, q, strip, token.index);
    } else {
      PlanIsWellPlaced(b, o, t, p, strip);
      AddedTokens(p, token);
      AdditionsDecided(o.items, t.items, p, q, token.index);
    }
  }

  lemma {:induction false} BaseValueIsOne(b: Json, o: Json, t: Json, p: Plan, q: Plan, strip: bool, i: nat)
    requires b.Arr? && o.Arr? && t.Arr? && PlanMerges(b, o, t, p, strip) && PlanMerges(b, o, t, q, strip)
    requires Base(i) in p.order && p.sides.om == q.sides.om && p.sides.tm == q.sides.tm
    ensures OneValue(p, q, Base(i))
    decreases true, b, 0, 0
  {
    SequenceHolds(b, o, t, p, strip, i);
    var x, y := Survivor(p.values, i), Survivor(q.values, i);
    assert ItemMerges(b, o, t, p.sides, i, x, strip) && ItemMerges(b, o, t, q.sides, i, y, strip);
    MergesIsOne(Some(b.items[i]), Paired(o, p.sides.om, i), Paired(t, p.sides.tm, i), x, y, strip);
  }
}
