/** How a merged sequence is put together: tokens for what survives and what is added, and their order. */
module SequencePlan {
  import opened JsonTree
  import opened MatchSides
  import MergeOrder
  import opened Wrappers

  type Token = MergeOrder.Token

  function Base(i: nat): Token { MergeOrder.Token('b', i) }
  function Ours(i: nat): Token { MergeOrder.Token('o', i) }
  function Theirs(i: nat): Token { MergeOrder.Token('t', i) }

  /** Two values, either of which may be missing, with the same clean form. */
  ghost predicate Same(a: Option<Json>, b: Option<Json>, strip: bool) {
    match (a, b)
    case (Some(v), Some(w)) => JsonEqual(Clean(v, strip), Clean(w, strip))
    case (None, None) => true
    case _ => false
  }

  // ----- Where an addition sits

  /** The nearest paired places around an index, as base indexes. */
  function Anchor(index: nat, m: SideMatch, sides: nat): (int, int) {
    (PairedBefore(index, m), PairedAfter(index + 1, m, sides))
  }

  function PairedBefore(i: nat, m: SideMatch): int {
    if i == 0 then -1
    else if i - 1 in m.sideToBase then m.sideToBase[i - 1]
    else PairedBefore(i - 1, m)
  }

  function PairedAfter(i: nat, m: SideMatch, sides: nat): int
    decreases if i < sides then sides - i else 0
  {
    if i >= sides then -1
    else if i in m.sideToBase then m.sideToBase[i]
    else PairedAfter(i + 1, m, sides)
  }

  predicate Within(m: SideMatch, sides: nat) { forall k :: 0 <= k < |m.additions| ==> m.additions[k] < sides }

  /** Additions match when they sit in the same place and have the same content. */
  function PlacedKeys(m: SideMatch, ids: seq<nat>): (r: seq<Key>)
    requires Within(m, |ids|)
    ensures |r| == |m.additions| && AllKeyed(r)
  {
    seq(|m.additions|, k requires 0 <= k < |m.additions| =>
      Placed(Anchor(m.additions[k], m, |ids|), ids[m.additions[k]]))
  }

  // ----- Additions that clash

  type HintTable = map<((int, int), string), (nat, bool)>

  /** The place and identity of an addition. */
  function HintOf(items: seq<Json>, m: SideMatch, i: nat): Option<((int, int), string)>
    requires i < |items|
  {
    match IdentityHint(items[i])
    case None => None
    case Some(hint) => Some((Anchor(i, m, |items|), hint))
  }

  /** Among the first `n` additions, one with this hint and other content than `id`. */
  ghost predicate Differs(t: seq<Json>, tm: SideMatch, ids: seq<nat>, n: nat, hint: ((int, int), string), id: nat)
    requires |ids| == |t| && Within(tm, |t|) && n <= |tm.additions|
  {
    exists k {:trigger tm.additions[k]} ::
      0 <= k < n && HintOf(t, tm, tm.additions[k]) == Some(hint) && ids[tm.additions[k]] != id
  }

  ghost predicate TableTells(table: HintTable, t: seq<Json>, tm: SideMatch, ids: seq<nat>, n: nat,
      hint: ((int, int), string))
    requires |ids| == |t| && Within(tm, |t|) && n <= |tm.additions|
  {
    forall id: nat :: Differs(t, tm, ids, n, hint, id) <==> hint in table && (table[hint].1 || table[hint].0 != id)
  }

  /** The table with one more addition noted. */
  function Noted(table: HintTable, hint: Option<((int, int), string)>, id: nat): HintTable {
    if hint.None? then table
    else
      var entry := if hint.value in table then table[hint.value] else (id, false);
      table[hint.value := (entry.0, entry.1 || entry.0 != id)]
  }

  method TableOfHints(t: seq<Json>, tm: SideMatch, ids: seq<nat>) returns (table: HintTable)
    requires |ids| == |t| && Within(tm, |t|)
    ensures forall hint {:trigger TableTells(table, t, tm, ids, |tm.additions|, hint)} ::
      TableTells(table, t, tm, ids, |tm.additions|, hint)
  {
    table := map[];
    for k := 0 to |tm.additions|
      invariant forall hint {:trigger TableTells(table, t, tm, ids, k, hint)} :: TableTells(table, t, tm, ids, k, hint)
    {
      ghost var before := table;
      table := Noted(table, HintOf(t, tm, tm.additions[k]), ids[tm.additions[k]]);
      forall hint {:trigger TableTells(table, t, tm, ids, k + 1, hint)}
        ensures TableTells(table, t, tm, ids, k + 1, hint) {
        assert TableTells(before, t, tm, ids, k, hint);
        TellsOneMore(before, t, tm, ids, k, hint);
      }
    }
  }

  lemma {:induction false} TellsOneMore(table: HintTable, t: seq<Json>, tm: SideMatch, ids: seq<nat>, n: nat,
      hint: ((int, int), string))
    requires |ids| == |t| && Within(tm, |t|) && n < |tm.additions| && TableTells(table, t, tm, ids, n, hint)
    ensures TableTells(Noted(table, HintOf(t, tm, tm.additions[n]), ids[tm.additions[n]]), t, tm, ids, n + 1, hint)
  {
    var next := Noted(table, HintOf(t, tm, tm.additions[n]), ids[tm.additions[n]]);
    forall id: nat {:trigger Differs(t, tm, ids, n + 1, hint, id)}
      ensures Differs(t, tm, ids, n + 1, hint, id) <==> hint in next && (next[hint].1 || next[hint].0 != id)
    {
      DiffersByOneMore(t, tm, ids, n, hint, id);
      assert Differs(t, tm, ids, n, hint, id) <==> hint in table && (table[hint].1 || table[hint].0 != id);
    }
  }

  lemma {:induction false} DiffersByOneMore(t: seq<Json>, tm: SideMatch, ids: seq<nat>, n: nat,
      hint: ((int, int), string), id: nat)
    requires |ids| == |t| && Within(tm, |t|) && n < |tm.additions|
    ensures Differs(t, tm, ids, n + 1, hint, id) <==>
      Differs(t, tm, ids, n, hint, id) || (HintOf(t, tm, tm.additions[n]) == Some(hint) && ids[tm.additions[n]] != id)
  {
  }

  /** The other side added, in the same place and with the same identity, something else. */
  ghost predicate Clashes(o: seq<Json>, t: seq<Json>, om: SideMatch, tm: SideMatch, oursIds: seq<nat>,
      theirsIds: seq<nat>, k: nat)
    requires |oursIds| == |o| && Within(om, |o|) && |theirsIds| == |t| && Within(tm, |t|) && k < |om.additions|
  {
    var hint := HintOf(o, om, om.additions[k]);
    hint.Some? && Differs(t, tm, theirsIds, |tm.additions|, hint.value, oursIds[om.additions[k]])
  }

  method Collide(o: seq<Json>, t: seq<Json>, om: SideMatch, tm: SideMatch, oursIds: seq<nat>, theirsIds: seq<nat>)
      returns (found: bool)
    requires |oursIds| == |o| && Within(om, |o|) && |theirsIds| == |t| && Within(tm, |t|)
    ensures found <==> exists k :: 0 <= k < |om.additions| && Clashes(o, t, om, tm, oursIds, theirsIds, k)
  {
    var table := TableOfHints(t, tm, theirsIds);
    for k := 0 to |om.additions|
      invariant forall j :: 0 <= j < k ==> !Clashes(o, t, om, tm, oursIds, theirsIds, j)
    {
      var hint := HintOf(o, om, om.additions[k]);
      var content := oursIds[om.additions[k]];
      assert hint.Some? ==> TableTells(table, t, tm, theirsIds, |tm.additions|, hint.value);
      assert hint.Some? ==> (Differs(t, tm, theirsIds, |tm.additions|, hint.value, content) <==>
        (hint.value in table && (table[hint.value].1 || table[hint.value].0 != content)));
      if hint.Some? && hint.value in table && (table[hint.value].1 || table[hint.value].0 != content) {
        assert Clashes(o, t, om, tm, oursIds, theirsIds, k);
        return true;
      }
    }
    return false;
  }

  // ----- Tokens

  /** Their addition shares the token of the equal addition of ours that it was paired with. */
  function TheirToken(om: SideMatch, tm: SideMatch, shared: SideMatch, k: nat): Token
    requires k < |tm.additions|
    requires k in shared.sideToBase ==> shared.sideToBase[k] < |om.additions|
  {
    if k in shared.sideToBase then Ours(om.additions[shared.sideToBase[k]]) else Theirs(tm.additions[k])
  }

  ghost predicate OursAdded(om: SideMatch, added: map<nat, Token>, n: nat)
    requires n <= |om.additions|
  {
    && (forall i :: i in added <==> i in om.additions[..n])
    && (forall i :: i in added ==> added[i] == Ours(i))
  }

  ghost predicate TheirsAdded(om: SideMatch, tm: SideMatch, shared: SideMatch, added: map<nat, Token>, n: nat)
    requires Bijection(shared, |om.additions|, |tm.additions|) && n <= |tm.additions|
  {
    && (forall i :: i in added <==> i in tm.additions[..n])
    && (forall k :: 0 <= k < n ==> tm.additions[k] in added && added[tm.additions[k]] == TheirToken(om, tm, shared, k))
  }

  /** The base items' values are as before, and every token of an addition has the value added. */
  ghost predicate Valued(o: seq<Json>, t: seq<Json>, before: map<Token, Json>, values: map<Token, Json>,
      oursAdd: map<nat, Token>, theirsAdd: map<nat, Token>) {
    && (forall i ::
      (Base(i) in values <==> Base(i) in before) && (Base(i) in before ==> values[Base(i)] == before[Base(i)]))
    && (forall i :: i in oursAdd ==> i < |o| && Ours(i) in values && values[Ours(i)] == o[i])
    && (forall i ::
      i in theirsAdd && theirsAdd[i] == Theirs(i) ==> i < |t| && Theirs(i) in values && values[Theirs(i)] == t[i])
  }

  /** Pairs equal additions in the same place, first with first, and gives every addition its token and value. */
  method PlaceAdditions(o: seq<Json>, t: seq<Json>, om: SideMatch, tm: SideMatch, oursIds: seq<nat>,
      theirsIds: seq<nat>, before: map<Token, Json>)
    returns (oursAdd: map<nat, Token>, theirsAdd: map<nat, Token>, values: map<Token, Json>, shared: SideMatch)
    requires |oursIds| == |o| && Within(om, |o|) && |theirsIds| == |t| && Within(tm, |t|)
    requires forall j, k :: 0 <= j < k < |tm.additions| ==> tm.additions[j] != tm.additions[k]
    ensures Bijection(shared, |om.additions|, |tm.additions|)
    ensures ExactUpTo(shared, PlacedKeys(om, oursIds), PlacedKeys(tm, theirsIds), |om.additions|)
    ensures OursAdded(om, oursAdd, |om.additions|) && TheirsAdded(om, tm, shared, theirsAdd, |tm.additions|)
    ensures Valued(o, t, before, values, oursAdd, theirsAdd)
  {
    shared := ExactPass(PlacedKeys(om, oursIds), PlacedKeys(tm, theirsIds));
    oursAdd, theirsAdd, values := map[], map[], before;
    for k := 0 to |om.additions|
      invariant OursAdded(om, oursAdd, k) && Valued(o, t, before, values, oursAdd, theirsAdd)
    {
      var i := om.additions[k];
      OneMoreOurs(o, t, before, values, oursAdd, theirsAdd, i);
      oursAdd, values := oursAdd[i := Ours(i)], values[Ours(i) := o[i]];
    }
    for k := 0 to |tm.additions|
      invariant TheirsAdded(om, tm, shared, theirsAdd, k) && Valued(o, t, before, values, oursAdd, theirsAdd)
    {
      var i, token := tm.additions[k], TheirToken(om, tm, shared, k);
      OneMoreTheirs(o, t, before, values, oursAdd, theirsAdd, i, token);
      OneMoreAdded(om, tm, shared, theirsAdd, k);
      theirsAdd := theirsAdd[i := token];
      if k !in shared.sideToBase { values := values[token := t[i]]; }
    }
  }

  lemma {:induction false} OneMoreOurs(o: seq<Json>, t: seq<Json>, before: map<Token, Json>, values: map<Token, Json>,
      oursAdd: map<nat, Token>, theirsAdd: map<nat, Token>, i: nat)
    requires Valued(o, t, before, values, oursAdd, theirsAdd) && i < |o|
    ensures Valued(o, t, before, values[Ours(i) := o[i]], oursAdd[i := Ours(i)], theirsAdd)
  {
  }

  lemma {:induction false} OneMoreTheirs(o: seq<Json>, t: seq<Json>, before: map<Token, Json>, values: map<Token, Json>,
      oursAdd: map<nat, Token>, theirsAdd: map<nat, Token>, i: nat, token: Token)
    requires Valued(o, t, before, values, oursAdd, theirsAdd) && i < |t|
    ensures token == Theirs(i) ==> Valued(o, t, before, values[token := t[i]], oursAdd, theirsAdd[i := token])
    ensures token != Theirs(i) ==> Valued(o, t, before, values, oursAdd, theirsAdd[i := token])
  {
  }

  lemma {:induction false} OneMoreAdded(om: SideMatch, tm: SideMatch, shared: SideMatch, added: map<nat, Token>, n: nat)
    requires Bijection(shared, |om.additions|, |tm.additions|) && n < |tm.additions| &&
      TheirsAdded(om, tm, shared, added, n)
    requires forall j, k :: 0 <= j < k < |tm.additions| ==> tm.additions[j] != tm.additions[k]
    ensures TheirsAdded(om, tm, shared, added[tm.additions[n] := TheirToken(om, tm, shared, n)], n + 1)
  {
    assert tm.additions[..n + 1] == tm.additions[..n] + [tm.additions[n]];
  }

  /** The tokens of one side, in its order: paired base items that are not omitted, and additions. */
  function TokensFor(n: nat, m: SideMatch, additions: map<nat, Token>, omitted: set<Token>): seq<Token> {
    if n == 0 then [] else TokensFor(n - 1, m, additions, omitted) + TokenAt(n - 1, m, additions, omitted)
  }

  function TokenAt(i: nat, m: SideMatch, additions: map<nat, Token>, omitted: set<Token>): seq<Token> {
    if i in m.sideToBase then (if Base(m.sideToBase[i]) in omitted then [] else [Base(m.sideToBase[i])])
    else if i in additions && additions[i] !in omitted then [additions[i]]
    else []
  }

  function Survivors(n: nat, omitted: set<Token>): seq<Token> {
    if n == 0 then [] else Survivors(n - 1, omitted) + if Base(n - 1) in omitted then [] else [Base(n - 1)]
  }

  // ----- The plan

  /** How both sides are paired with the base. */
  datatype Pairing = Pairing(baseIds: seq<nat>, oursIds: seq<nat>, theirsIds: seq<nat>,
      om: SideMatch, tm: SideMatch, oursPasses: Passes, theirsPasses: Passes)

  /** Everything a sequence merge decides. */
  datatype Plan = Plan(sides: Pairing, omitted: set<Token>, shared: SideMatch, oursAdd: map<nat, Token>,
    theirsAdd: map<nat, Token>, values: map<Token, Json>, edges: MergeOrder.Edges, order: seq<Token>) {
    function OurTokens(): seq<Token> { TokensFor(|sides.oursIds|, sides.om, oursAdd, omitted) }

    function TheirTokens(): seq<Token> { TokensFor(|sides.theirsIds|, sides.tm, theirsAdd, omitted) }

    function Surviving(): seq<Token> { Survivors(|sides.baseIds|, omitted) }
  }

  /** Ids agree exactly where clean forms do. */
  ghost predicate TellApart(xs: seq<Json>, xIds: seq<nat>, ys: seq<Json>, yIds: seq<nat>, strip: bool) {
    && |xIds| == |xs| && |yIds| == |ys|
    && forall i, j :: 0 <= i < |xs| && 0 <= j < |ys| ==> (xIds[i] == yIds[j] <==> Same(Some(xs[i]), Some(ys[j]), strip))
  }

  datatype Side = OurSide | TheirSide

  ghost predicate MatchedOn(side: Side, b: seq<Json>, o: seq<Json>, t: seq<Json>, p: Pairing, strip: bool) {
    match side
    case OurSide =>
      TellApart(b, p.baseIds, o, p.oursIds, strip) && PairedBy(b, o, p.baseIds, p.oursIds, p.om, p.oursPasses)
    case TheirSide =>
      TellApart(b, p.baseIds, t, p.theirsIds, strip) && PairedBy(b, t, p.baseIds, p.theirsIds, p.tm, p.theirsPasses)
  }

  /** Both sides are paired with the base, and their items can be compared with each other. */
  ghost predicate Matched(b: seq<Json>, o: seq<Json>, t: seq<Json>, p: Pairing, strip: bool) {
    && TellApart(o, p.oursIds, t, p.theirsIds, strip)
    && forall side {:trigger MatchedOn(side, b, o, t, p, strip)} :: MatchedOn(side, b, o, t, p, strip)
  }

  lemma {:induction false} MatchedFits(b: seq<Json>, o: seq<Json>, t: seq<Json>, p: Pairing, strip: bool)
    requires Matched(b, o, t, p, strip)
    ensures |b| == |p.baseIds| && |o| == |p.oursIds| && |t| == |p.theirsIds|
    ensures Bijection(p.om, |b|, |o|) && p.om.additions == Remaining(|o|, p.om.sideToBase)
    ensures Bijection(p.tm, |b|, |t|) && p.tm.additions == Remaining(|t|, p.tm.sideToBase)
  {
    assert MatchedOn(OurSide, b, o, t, p, strip) && MatchedOn(TheirSide, b, o, t, p, strip);
  }

  ghost predicate Added(o: seq<Json>, t: seq<Json>, merged: map<Token, Json>, p: Plan) {
    && |o| == |p.sides.oursIds| && |t| == |p.sides.theirsIds| && Within(p.sides.om, |o|) && Within(p.sides.tm, |t|)
    && Bijection(p.shared, |p.sides.om.additions|, |p.sides.tm.additions|)
    && ExactUpTo(p.shared, PlacedKeys(p.sides.om, p.sides.oursIds), PlacedKeys(p.sides.tm, p.sides.theirsIds),
      |p.sides.om.additions|)
    && OursAdded(p.sides.om, p.oursAdd, |p.sides.om.additions|) &&
      TheirsAdded(p.sides.om, p.sides.tm, p.shared, p.theirsAdd, |p.sides.tm.additions|)
    && !Clash(o, t, p.sides)
    && Valued(o, t, merged, p.values, p.oursAdd, p.theirsAdd)
  }

  /** Additions share a token exactly when they are equal and in one place, first with first. */
  ghost predicate Shares(p: Plan) {
    && Within(p.sides.om, |p.sides.oursIds|) && Within(p.sides.tm, |p.sides.theirsIds|)
    && ExactUpTo(p.shared, PlacedKeys(p.sides.om, p.sides.oursIds), PlacedKeys(p.sides.tm, p.sides.theirsIds),
      |p.sides.om.additions|)
  }

  /** The edges are what the two sides' orders demand. */
  ghost predicate Constrained(p: Plan) {
    forall s, u ::
      MergeOrder.Edge(p.edges, s, u) <==> MergeOrder.Constraint(p.Surviving(), p.OurTokens(), p.TheirTokens(), s, u)
  }

  ghost predicate Ordered(p: Plan) {
    && (forall i {:trigger Base(i)} :: 0 <= i < |p.sides.baseIds| ==> (Base(i) in p.omitted <==> Base(i) !in p.values))
    && OnlyBase(p.omitted, |p.sides.baseIds|)
    && Constrained(p)
    && MergeOrder.IsTopological(p.order, MergeOrder.Elements(p.OurTokens()) + MergeOrder.Elements(p.TheirTokens()),
      p.edges)
    && MergeOrder.Greedy(p.order, MergeOrder.Elements(p.OurTokens()) + MergeOrder.Elements(p.TheirTokens()), p.edges)
  }

  function Collect(order: seq<Token>, values: map<Token, Json>): seq<Json> {
    if order == [] then []
    else Collect(order[..|order| - 1], values) + var last := order[|order| - 1];
      if last in values then [values[last]] else []
  }

  // ----- What a plan holds

  lemma {:induction false} TokenListed(n: nat, m: SideMatch, additions: map<nat, Token>, omitted: set<Token>, i: nat,
      token: Token)
    requires i < n && token in TokenAt(i, m, additions, omitted)
    ensures token in TokensFor(n, m, additions, omitted)
  {
    if i < n - 1 { TokenListed(n - 1, m, additions, omitted, i, token); }
  }

  lemma {:induction false} ListedToken(n: nat, m: SideMatch, additions: map<nat, Token>, omitted: set<Token>,
      token: Token) returns (i: nat)
    requires token in TokensFor(n, m, additions, omitted)
    ensures i < n && token in TokenAt(i, m, additions, omitted)
  {
    if token in TokenAt(n - 1, m, additions, omitted) { return n - 1; }
    i := ListedToken(n - 1, m, additions, omitted, token);
  }

  /** No two places of a side have the same token. */
  ghost predicate TokensTellApart(n: nat, m: SideMatch, additions: map<nat, Token>, omitted: set<Token>) {
    forall i, j, token
      {:trigger token in TokenAt(i, m, additions, omitted), token in TokenAt(j, m, additions, omitted)} ::
      0 <= i < n && 0 <= j < n &&
      token in TokenAt(i, m, additions, omitted) && token in TokenAt(j, m, additions, omitted) ==>
        i == j
  }

  lemma {:induction false} TokensAreDistinct(n: nat, m: SideMatch, additions: map<nat, Token>, omitted: set<Token>)
    requires TokensTellApart(n, m, additions, omitted)
    ensures MergeOrder.Distinct(TokensFor(n, m, additions, omitted))
  {
    if n > 0 {
      TokensAreDistinct(n - 1, m, additions, omitted);
      var init, last := TokensFor(n - 1, m, additions, omitted), TokenAt(n - 1, m, additions, omitted);
      assert last != [] ==> last[0] in last;
      forall token | token in init ensures token !in last {
        var i := ListedToken(n - 1, m, additions, omitted, token);
      }
    }
  }

  lemma {:induction false} SurvivorsAre(n: nat, omitted: set<Token>, token: Token)
    ensures token in Survivors(n, omitted) <==> MergeOrder.IsBase(token) && token.index < n && token !in omitted
  {
    if n > 0 { SurvivorsAre(n - 1, omitted, token); }
  }

  /** Every base item that survives is paired on this side. */
  ghost predicate SurvivorsPaired(n: nat, m: SideMatch, omitted: set<Token>) {
    forall i {:trigger Base(i)} :: 0 <= i < n && Base(i) !in omitted ==> i in m.baseToSide
  }

  lemma {:induction false} SurvivorsAreTokens(n: nat, m: SideMatch, sides: nat, additions: map<nat, Token>,
      omitted: set<Token>)
    requires Bijection(m, n, sides) && SurvivorsPaired(n, m, omitted)
    ensures MergeOrder.Elements(Survivors(n, omitted)) <= MergeOrder.Elements(TokensFor(sides, m, additions, omitted))
  {
    forall token | token in Survivors(n, omitted) ensures token in TokensFor(sides, m, additions, omitted) {
      SurvivorsAre(n, omitted, token);
      assert token == Base(token.index);
      TokenListed(sides, m, additions, omitted, m.baseToSide[token.index], token);
    }
  }

  /** Additions have different tokens, none of them a base token. */
  ghost predicate OneToOne(added: map<nat, Token>) {
    && (forall i :: i in added ==> !MergeOrder.IsBase(added[i]))
    && (forall i, j :: i in added && j in added && added[i] == added[j] ==> i == j)
  }

  lemma {:induction false} OneToOneTellsApart(bases: nat, sides: nat, m: SideMatch, added: map<nat, Token>,
      omitted: set<Token>)
    requires Bijection(m, bases, sides) && OneToOne(added)
    ensures TokensTellApart(sides, m, added, omitted)
  {
    forall i, j, token {:trigger token in TokenAt(i, m, added, omitted), token in TokenAt(j, m, added, omitted)}
      | 0 <= i < sides && 0 <= j < sides && token in TokenAt(i, m, added, omitted) &&
        token in TokenAt(j, m, added, omitted)
      ensures i == j
    {
      assert token == TokenAt(i, m, added, omitted)[0] == TokenAt(j, m, added, omitted)[0];
    }
  }

  lemma {:induction false} TheirTokenTells(om: SideMatch, tm: SideMatch, shared: SideMatch, k: nat, l: nat)
    requires forall x, y :: 0 <= x < y < |om.additions| ==> om.additions[x] < om.additions[y]
    requires forall x, y :: 0 <= x < y < |tm.additions| ==> tm.additions[x] < tm.additions[y]
    requires Bijection(shared, |om.additions|, |tm.additions|) && k < |tm.additions| && l < |tm.additions|
    requires TheirToken(om, tm, shared, k) == TheirToken(om, tm, shared, l)
    ensures k == l
  {
    assert k in shared.sideToBase <==> l in shared.sideToBase;
    if k in shared.sideToBase { assert shared.sideToBase[k] == shared.sideToBase[l]; }
  }

  lemma {:induction false} TheirsAreOneToOne(om: SideMatch, tm: SideMatch, shared: SideMatch, added: map<nat, Token>)
    requires forall x, y :: 0 <= x < y < |om.additions| ==> om.additions[x] < om.additions[y]
    requires forall x, y :: 0 <= x < y < |tm.additions| ==> tm.additions[x] < tm.additions[y]
    requires Bijection(shared, |om.additions|, |tm.additions|) && TheirsAdded(om, tm, shared, added, |tm.additions|)
    ensures OneToOne(added)
  {
    forall i, j | i in added && j in added && added[i] == added[j] ensures i == j {
      var k :| 0 <= k < |tm.additions| && tm.additions[k] == i;
      var l :| 0 <= l < |tm.additions| && tm.additions[l] == j;
      TheirTokenTells(om, tm, shared, k, l);
    }
  }

  // ----- Laws of plans

  lemma {:induction false} BaseListed(bases: nat, sides: nat, m: SideMatch, added: map<nat, Token>, omitted: set<Token>,
      i: nat)
    requires Bijection(m, bases, sides) && OneToOne(added)
    ensures Base(i) in TokensFor(sides, m, added, omitted) <==> i in m.baseToSide && Base(i) !in omitted
  {
    if i in m.baseToSide && Base(i) !in omitted { TokenListed(sides, m, added, omitted, m.baseToSide[i], Base(i)); }
    if Base(i) in TokensFor(sides, m, added, omitted) {
      var j := ListedToken(sides, m, added, omitted, Base(i));
      assert TokenAt(j, m, added, omitted)[0] == Base(i);
    }
  }

  ghost predicate HasToken(added: map<nat, Token>, token: Token) { exists i :: i in added && added[i] == token }

  lemma {:induction false} AdditionListed(sides: nat, m: SideMatch, added: map<nat, Token>, omitted: set<Token>,
      token: Token)
    requires !MergeOrder.IsBase(token) && forall u :: u in omitted ==> MergeOrder.IsBase(u)
    requires forall i :: i in added ==> i < sides && i !in m.sideToBase
    ensures token in TokensFor(sides, m, added, omitted) <==> HasToken(added, token)
  {
    if i :| i in added && added[i] == token { TokenListed(sides, m, added, omitted, i, token); }
    if token in TokensFor(sides, m, added, omitted) {
      var i := ListedToken(sides, m, added, omitted, token);
      assert TokenAt(i, m, added, omitted)[0] == token;
    }
  }

  lemma {:induction false} TheirsAddedAre(om: SideMatch, tm: SideMatch, shared: SideMatch, added: map<nat, Token>,
      token: Token)
    requires Bijection(shared, |om.additions|, |tm.additions|) && TheirsAdded(om, tm, shared, added, |tm.additions|)
    ensures HasToken(added, token) <==> exists k :: 0 <= k < |tm.additions| && TheirToken(om, tm, shared, k) == token
  {
    if i :| i in added && added[i] == token {
      assert i in tm.additions[..|tm.additions|];
      var k :| 0 <= k < |tm.additions| && tm.additions[k] == i;
    }
    if k :| 0 <= k < |tm.additions| && TheirToken(om, tm, shared, k) == token {
      assert tm.additions[k] in added;
    }
  }

  /** The order lists the tokens of both sides and nothing else. */
  ghost predicate ListsBoth(p: Plan) {
    forall token {:trigger token in p.order} :: token in p.order <==> token in p.OurTokens() || token in p.TheirTokens()
  }

  lemma {:induction false} OrderListsBoth(p: Plan)
    requires Ordered(p)
    ensures ListsBoth(p) && MergeOrder.Distinct(p.order)
  {
    forall token {:trigger token in p.order} ensures token in p.order <==>
      token in p.OurTokens() || token in p.TheirTokens() {
      assert token in MergeOrder.Elements(p.OurTokens()) <==> token in p.OurTokens();
      assert token in MergeOrder.Elements(p.TheirTokens()) <==> token in p.TheirTokens();
    }
  }

  ghost predicate OnlyBase(tokens: set<Token>, n: nat) {
    forall token :: token in tokens ==> MergeOrder.IsBase(token) && token.index < n
  }

  ghost predicate KeysAre(added: map<nat, Token>, additions: seq<nat>) { forall i :: i in added <==> i in additions }

  lemma {:induction false} AdditionInOrder(p: Plan, token: Token)
    requires ListsBoth(p) && !MergeOrder.IsBase(token) && OnlyBase(p.omitted, |p.sides.baseIds|)
    requires KeysAre(p.oursAdd, p.sides.om.additions) &&
      p.sides.om.additions == Remaining(|p.sides.oursIds|, p.sides.om.sideToBase)
    requires KeysAre(p.theirsAdd, p.sides.tm.additions) &&
      p.sides.tm.additions == Remaining(|p.sides.theirsIds|, p.sides.tm.sideToBase)
    ensures token in p.order <==> HasToken(p.oursAdd, token) || HasToken(p.theirsAdd, token)
  {
    AdditionListed(|p.sides.oursIds|, p.sides.om, p.oursAdd, p.omitted, token);
    AdditionListed(|p.sides.theirsIds|, p.sides.tm, p.theirsAdd, p.omitted, token);
  }

  lemma {:induction false} BaseInOrder(p: Plan, i: nat)
    requires ListsBoth(p) && OneToOne(p.oursAdd) && OneToOne(p.theirsAdd)
    requires Bijection(p.sides.om, |p.sides.baseIds|, |p.sides.oursIds|) &&
      Bijection(p.sides.tm, |p.sides.baseIds|, |p.sides.theirsIds|)
    requires SurvivorsPaired(|p.sides.baseIds|, p.sides.om, p.omitted)
    ensures Base(i) in p.order <==> i < |p.sides.baseIds| && Base(i) !in p.omitted
  {
    BaseListed(|p.sides.baseIds|, |p.sides.oursIds|, p.sides.om, p.oursAdd, p.omitted, i);
    BaseListed(|p.sides.baseIds|, |p.sides.theirsIds|, p.sides.tm, p.theirsAdd, p.omitted, i);
  }

  lemma {:induction false} TokensOfAdditions(om: SideMatch, tm: SideMatch, shared: SideMatch, oursAdd: map<nat, Token>,
      theirsAdd: map<nat, Token>)
    requires forall x, y :: 0 <= x < y < |om.additions| ==> om.additions[x] < om.additions[y]
    requires forall x, y :: 0 <= x < y < |tm.additions| ==> tm.additions[x] < tm.additions[y]
    requires Bijection(shared, |om.additions|, |tm.additions|)
    requires OursAdded(om, oursAdd, |om.additions|) && TheirsAdded(om, tm, shared, theirsAdd, |tm.additions|)
    ensures KeysAre(oursAdd, om.additions) && KeysAre(theirsAdd, tm.additions) && OneToOne(oursAdd) &&
      OneToOne(theirsAdd)
  {
    assert om.additions[..|om.additions|] == om.additions && tm.additions[..|tm.additions|] == tm.additions;
    TheirsAreOneToOne(om, tm, shared, theirsAdd);
  }

  /** Their addition at `i` equals none of ours in the same place. */
  ghost predicate OnlyTheirs(tm: SideMatch, shared: SideMatch, i: nat) {
    exists k :: 0 <= k < |tm.additions| && tm.additions[k] == i && k !in shared.sideToBase
  }

  lemma {:induction false} TokensOfOurs(om: SideMatch, tm: SideMatch, shared: SideMatch, oursAdd: map<nat, Token>,
      theirsAdd: map<nat, Token>, i: nat)
    requires Bijection(shared, |om.additions|, |tm.additions|)
    requires OursAdded(om, oursAdd, |om.additions|) && TheirsAdded(om, tm, shared, theirsAdd, |tm.additions|)
    ensures HasToken(oursAdd, Ours(i)) || HasToken(theirsAdd, Ours(i)) <==> i in om.additions
  {
    assert om.additions[..|om.additions|] == om.additions;
    TheirsAddedAre(om, tm, shared, theirsAdd, Ours(i));
    if i in om.additions { assert i in oursAdd; }
  }

  lemma {:induction false} TokensOfTheirs(om: SideMatch, tm: SideMatch, shared: SideMatch, oursAdd: map<nat, Token>,
      theirsAdd: map<nat, Token>, i: nat)
    requires Bijection(shared, |om.additions|, |tm.additions|)
    requires OursAdded(om, oursAdd, |om.additions|) && TheirsAdded(om, tm, shared, theirsAdd, |tm.additions|)
    ensures HasToken(oursAdd, Theirs(i)) || HasToken(theirsAdd, Theirs(i)) <==> OnlyTheirs(tm, shared, i)
  {
    TheirsAddedAre(om, tm, shared, theirsAdd, Theirs(i));
    if k :| 0 <= k < |tm.additions| && tm.additions[k] == i && k !in shared.sideToBase {
      assert TheirToken(om, tm, shared, k) == Theirs(i);
    }
  }

  lemma {:induction false} AdditionsListed(p: Plan, i: nat)
    requires ListsBoth(p) && OnlyBase(p.omitted, |p.sides.baseIds|)
    requires p.sides.om.additions == Remaining(|p.sides.oursIds|, p.sides.om.sideToBase) &&
      p.sides.tm.additions == Remaining(|p.sides.theirsIds|, p.sides.tm.sideToBase)
    requires Bijection(p.shared, |p.sides.om.additions|, |p.sides.tm.additions|)
    requires OursAdded(p.sides.om, p.oursAdd, |p.sides.om.additions|) &&
      TheirsAdded(p.sides.om, p.sides.tm, p.shared, p.theirsAdd, |p.sides.tm.additions|)
    ensures Ours(i) in p.order <==> i in p.sides.om.additions
    ensures Theirs(i) in p.order <==> OnlyTheirs(p.sides.tm, p.shared, i)
  {
    TokensOfAdditions(p.sides.om, p.sides.tm, p.shared, p.oursAdd, p.theirsAdd);
    AdditionInOrder(p, Ours(i));
    AdditionInOrder(p, Theirs(i));
    TokensOfOurs(p.sides.om, p.sides.tm, p.shared, p.oursAdd, p.theirsAdd, i);
    TokensOfTheirs(p.sides.om, p.sides.tm, p.shared, p.oursAdd, p.theirsAdd, i);
  }

  /** The pairings and additions of a plan fit together. */
  ghost predicate WellPlaced(p: Plan) {
    && Bijection(p.sides.om, |p.sides.baseIds|, |p.sides.oursIds|) &&
      p.sides.om.additions == Remaining(|p.sides.oursIds|, p.sides.om.sideToBase)
    && Bijection(p.sides.tm, |p.sides.baseIds|, |p.sides.theirsIds|) &&
      p.sides.tm.additions == Remaining(|p.sides.theirsIds|, p.sides.tm.sideToBase)
    && Bijection(p.shared, |p.sides.om.additions|, |p.sides.tm.additions|)
    && OursAdded(p.sides.om, p.oursAdd, |p.sides.om.additions|) &&
      TheirsAdded(p.sides.om, p.sides.tm, p.shared, p.theirsAdd, |p.sides.tm.additions|)
    && SurvivorsPaired(|p.sides.baseIds|, p.sides.om, p.omitted)
  }

  /** What a plan lists, each once: the survivors, our additions, and those of theirs that equal none of ours in the
   * same place. */
  lemma {:induction false} PlanListsEachOnce(p: Plan, i: nat)
    requires WellPlaced(p) && Ordered(p)
    ensures MergeOrder.Distinct(p.order)
    ensures Base(i) in p.order <==> i < |p.sides.baseIds| && Base(i) !in p.omitted
    ensures Ours(i) in p.order <==> i in p.sides.om.additions
    ensures Theirs(i) in p.order <==> OnlyTheirs(p.sides.tm, p.shared, i)
  {
    OrderListsBoth(p);
    AdditionsListed(p, i);
    TheirsAreOneToOne(p.sides.om, p.sides.tm, p.shared, p.theirsAdd);
    BaseInOrder(p, i);
  }

  lemma {:induction false} TokenValued(bases: nat, sides: nat, m: SideMatch, added: map<nat, Token>,
      omitted: set<Token>, values: map<Token, Json>, token: Token)
    requires Bijection(m, bases, sides) && token in TokensFor(sides, m, added, omitted)
    requires forall i {:trigger Base(i)} :: 0 <= i < bases && Base(i) !in omitted ==> Base(i) in values
    requires forall i :: i in added ==> added[i] in values
    ensures token in values
  {
    var i := ListedToken(sides, m, added, omitted, token);
    assert token == TokenAt(i, m, added, omitted)[0];
  }

  lemma {:induction false} AdditionsValued(o: seq<Json>, t: seq<Json>, p: Plan, i: nat)
    requires Bijection(p.shared, |p.sides.om.additions|, |p.sides.tm.additions|) &&
      Valued(o, t, p.values, p.values, p.oursAdd, p.theirsAdd)
    requires OursAdded(p.sides.om, p.oursAdd, |p.sides.om.additions|)
    requires TheirsAdded(p.sides.om, p.sides.tm, p.shared, p.theirsAdd, |p.sides.tm.additions|)
    ensures i in p.oursAdd ==> p.oursAdd[i] in p.values
    ensures i in p.theirsAdd ==> p.theirsAdd[i] in p.values
  {
    if i in p.theirsAdd {
      assert i in p.sides.tm.additions[..|p.sides.tm.additions|];
      var k :| 0 <= k < |p.sides.tm.additions| && p.sides.tm.additions[k] == i;
      if k in p.shared.sideToBase {
        var j := p.sides.om.additions[p.shared.sideToBase[k]];
        assert j in p.sides.om.additions[..|p.sides.om.additions|];
        assert j in p.oursAdd;
      }
    }
  }

  /** Every token in the order has a value. */
  lemma {:induction false} AllValued(o: seq<Json>, t: seq<Json>, p: Plan)
    requires WellPlaced(p) && Ordered(p) && Valued(o, t, p.values, p.values, p.oursAdd, p.theirsAdd)
    ensures forall token :: token in p.order ==> token in p.values
  {
    OrderListsBoth(p);
    forall i | i in p.oursAdd ensures p.oursAdd[i] in p.values { AdditionsValued(o, t, p, i); }
    forall i | i in p.theirsAdd ensures p.theirsAdd[i] in p.values { AdditionsValued(o, t, p, i); }
    forall token | token in p.order ensures token in p.values {
      if token in p.OurTokens() {
        TokenValued(|p.sides.baseIds|, |p.sides.oursIds|, p.sides.om, p.oursAdd, p.omitted, p.values, token);
      } else {
        TokenValued(|p.sides.baseIds|, |p.sides.theirsIds|, p.sides.tm, p.theirsAdd, p.omitted, p.values, token);
      }
    }
  }

  lemma {:induction false} CollectsAll(order: seq<Token>, values: map<Token, Json>)
    requires forall token :: token in order ==> token in values
    ensures |Collect(order, values)| == |order|
    ensures forall k :: 0 <= k < |order| ==> order[k] in values && Collect(order, values)[k] == values[order[k]]
  {
    if order != [] { CollectsAll(order[..|order| - 1], values); }
  }

  /** Neither side's order is lost: a side that moved base items keeps all of it, and both do if neither moved any. */
  lemma {:induction false} PlanKeepsOrders(p: Plan)
    requires WellPlaced(p) && Ordered(p)
    ensures MergeOrder.BasePart(p.OurTokens()) != p.Surviving() ==> MergeOrder.KeepsOrder(p.order, p.OurTokens())
    ensures MergeOrder.BasePart(p.TheirTokens()) != p.Surviving() ==> MergeOrder.KeepsOrder(p.order, p.TheirTokens())
    ensures MergeOrder.BasePart(p.OurTokens()) == p.Surviving() == MergeOrder.BasePart(p.TheirTokens()) ==>
      MergeOrder.KeepsOrder(p.order, p.OurTokens()) && MergeOrder.KeepsOrder(p.order, p.TheirTokens())
  {
    var bases, ours, theirs := |p.sides.baseIds|, |p.sides.oursIds|, |p.sides.theirsIds|;
    SurvivorsAreTokens(bases, p.sides.om, ours, p.oursAdd, p.omitted);
    OneToOneTellsApart(bases, ours, p.sides.om, p.oursAdd, p.omitted);
    TokensAreDistinct(ours, p.sides.om, p.oursAdd, p.omitted);
    TheirsAreOneToOne(p.sides.om, p.sides.tm, p.shared, p.theirsAdd);
    OneToOneTellsApart(bases, theirs, p.sides.tm, p.theirsAdd, p.omitted);
    TokensAreDistinct(theirs, p.sides.tm, p.theirsAdd, p.omitted);
    MergeOrder.MergeKeepsOrders(p.Surviving(), p.OurTokens(), p.TheirTokens(), p.order, p.edges);
  }

  // ----- Putting the sequence together

  ghost predicate Clash(o: seq<Json>, t: seq<Json>, p: Pairing)
    requires |o| == |p.oursIds| && |t| == |p.theirsIds| && Within(p.om, |o|) && Within(p.tm, |t|)
  {
    exists k :: 0 <= k < |p.om.additions| && Clashes(o, t, p.om, p.tm, p.oursIds, p.theirsIds, k)
  }

  /** What both sides' pairings have to be for the rest to fit together. */
  ghost predicate Sided(o: seq<Json>, t: seq<Json>, sides: Pairing, omitted: set<Token>, merged: map<Token, Json>) {
    && |o| == |sides.oursIds| && |t| == |sides.theirsIds|
    && Bijection(sides.om, |sides.baseIds|, |o|) && sides.om.additions == Remaining(|o|, sides.om.sideToBase)
    && Bijection(sides.tm, |sides.baseIds|, |t|) && sides.tm.additions == Remaining(|t|, sides.tm.sideToBase)
    && SurvivorsPaired(|sides.baseIds|, sides.om, omitted) && OnlyBase(omitted, |sides.baseIds|)
    && forall i {:trigger Base(i)} :: 0 <= i < |sides.baseIds| ==> (Base(i) in omitted <==> Base(i) !in merged)
  }

  /** Gives the additions their tokens. */
  method AddBoth(o: seq<Json>, t: seq<Json>, sides: Pairing, omitted: set<Token>, merged: map<Token, Json>)
      returns (p: Plan)
    requires Sided(o, t, sides, omitted, merged) && !Clash(o, t, sides)
    ensures p.sides == sides && p.omitted == omitted && Added(o, t, merged, p) && WellPlaced(p)
    ensures MergeOrder.Elements(p.Surviving()) <= MergeOrder.Elements(p.OurTokens()) +
      MergeOrder.Elements(p.TheirTokens())
  {
    var oursAdd, theirsAdd, values, shared :=
      PlaceAdditions(o, t, sides.om, sides.tm, sides.oursIds, sides.theirsIds, merged);
    p := Plan(sides, omitted, shared, oursAdd, theirsAdd, values, map[], []);
    SurvivorsAreTokens(|sides.baseIds|, sides.om, |o|, oursAdd, omitted);
  }

  // ----- What the inputs decide

  /** A plan that fits the pairings, the items that survive and their values. */
  ghost predicate Fitting(o: seq<Json>, t: seq<Json>, sides: Pairing, omitted: set<Token>, merged: map<Token, Json>,
      p: Plan)
  {
    p.sides == sides && p.omitted == omitted && Added(o, t, merged, p) && WellPlaced(p) && Ordered(p)
  }

  /** The sharing of additions follows from their keys. */
  lemma {:induction false} SharingIsDecided(m: SideMatch, other: SideMatch, base: seq<Key>, side: seq<Key>, sides: nat)
    requires ExactUpTo(m, base, side, |base|) && ExactUpTo(other, base, side, |base|)
    requires Bijection(m, |base|, sides) && Bijection(other, |base|, sides)
    ensures m.baseToSide == other.baseToSide && m.sideToBase == other.sideToBase
  {
    forall bi: nat ensures bi in m.baseToSide <==> bi in other.baseToSide {
      if bi < |base| { assert ExactAt(m, base, side, bi) && ExactAt(other, base, side, bi); }
    }
    forall bi | bi in m.baseToSide ensures m.baseToSide[bi] == other.baseToSide[bi] {
      assert ExactAt(m, base, side, bi) && ExactAt(other, base, side, bi);
    }
    assert m.baseToSide == other.baseToSide;
    forall si: nat ensures si in m.sideToBase <==> si in other.sideToBase {
      if si in m.sideToBase { assert m.sideToBase[si] in other.baseToSide; }
      if si in other.sideToBase { assert other.sideToBase[si] in m.baseToSide; }
    }
    forall si | si in m.sideToBase ensures m.sideToBase[si] == other.sideToBase[si] {
      assert m.sideToBase[si] in other.baseToSide;
    }
  }

  /** And with it the tokens of both sides. */
  lemma {:induction false} TokensAreDecided(p: Plan, q: Plan)
    requires p.sides == q.sides && p.omitted == q.omitted && WellPlaced(p) && Shares(p) && WellPlaced(q) && Shares(q)
    ensures p.OurTokens() == q.OurTokens() && p.TheirTokens() == q.TheirTokens() && p.Surviving() == q.Surviving()
    ensures p.oursAdd == q.oursAdd && p.theirsAdd == q.theirsAdd
  {
    var om, tm := p.sides.om, p.sides.tm;
    SharingIsDecided(p.shared, q.shared, PlacedKeys(om, p.sides.oursIds), PlacedKeys(tm, p.sides.theirsIds),
      |tm.additions|);
    SameTokensOfOurs(om, p.oursAdd, q.oursAdd);
    SameTokensOfTheirs(om, tm, p.shared, q.shared, p.theirsAdd, q.theirsAdd);
  }

  lemma {:induction false} SameTokensOfOurs(om: SideMatch, added: map<nat, Token>, more: map<nat, Token>)
    requires OursAdded(om, added, |om.additions|) && OursAdded(om, more, |om.additions|)
    ensures added == more
  {
  }

  lemma {:induction false} SameTokensOfTheirs(om: SideMatch, tm: SideMatch, shared: SideMatch, other: SideMatch,
      added: map<nat, Token>, more: map<nat, Token>)
    requires Bijection(shared, |om.additions|, |tm.additions|) && Bijection(other, |om.additions|, |tm.additions|)
    requires shared.sideToBase == other.sideToBase
    requires TheirsAdded(om, tm, shared, added, |tm.additions|) && TheirsAdded(om, tm, other, more, |tm.additions|)
    ensures added == more
  {
    forall i | i in added ensures added[i] == more[i] {
      var k :| 0 <= k < |tm.additions| && tm.additions[k] == i;
      assert TheirToken(om, tm, shared, k) == TheirToken(om, tm, other, k);
    }
  }

  /** Where one plan of the inputs has a cycle, no plan fits them. */
  lemma {:induction false} NoneFits(o: seq<Json>, t: seq<Json>, merged: map<Token, Json>, p: Plan, q: Plan)
    requires WellPlaced(p) && Shares(p) && Constrained(p) && Fitting(o, t, p.sides, p.omitted, merged, q)
    requires MergeOrder.Elements(p.Surviving()) <=
      MergeOrder.Elements(p.OurTokens()) + MergeOrder.Elements(p.TheirTokens())
    ensures MergeOrder.Acyclic(p.edges)
  {
    TokensAreDecided(p, q);
    MergeOrder.SuitsIsTopological(q.Surviving(), q.OurTokens(), q.TheirTokens(), q.edges, q.order);
    MergeOrder.OnlyIfAcyclic(p.Surviving(), p.OurTokens(), p.TheirTokens(), p.edges, q.order);
  }

  lemma {:induction false} NoneFitsUnless(o: seq<Json>, t: seq<Json>, sides: Pairing, omitted: set<Token>,
      merged: map<Token, Json>, p: Plan)
    requires WellPlaced(p) && Shares(p) && Constrained(p) && p.sides == sides && p.omitted == omitted
    requires MergeOrder.Elements(p.Surviving()) <=
      MergeOrder.Elements(p.OurTokens()) + MergeOrder.Elements(p.TheirTokens())
    ensures (exists q: Plan :: Fitting(o, t, sides, omitted, merged, q)) ==> MergeOrder.Acyclic(p.edges)
  {
    if q: Plan :| Fitting(o, t, sides, omitted, merged, q) { NoneFits(o, t, merged, p, q); }
  }

  /** Gives the additions their tokens and orders all tokens; fails exactly on a cycle of constraints. */
  method Arrange(o: seq<Json>, t: seq<Json>, sides: Pairing, omitted: set<Token>, merged: map<Token, Json>)
      returns (items: Option<seq<Json>>, ghost p: Plan)
    requires Sided(o, t, sides, omitted, merged) && !Clash(o, t, sides)
    ensures p.sides == sides && p.omitted == omitted && WellPlaced(p) && Shares(p) && Constrained(p)
    ensures items.Some? <==> MergeOrder.Acyclic(p.edges)
    ensures items.Some? ==> Fitting(o, t, sides, omitted, merged, p) && items.value == Collect(p.order, p.values)
    ensures items.Some? <==> exists q: Plan :: Fitting(o, t, sides, omitted, merged, q)
  {
    var placed := AddBoth(o, t, sides, omitted, merged);
    ghost var edges;
    var order;
    order, edges := MergeOrder.OrderTokens(placed.Surviving(), placed.OurTokens(), placed.TheirTokens());
    p := placed.(edges := edges, order := if order.Some? then order.value else []);
    items := if order.Some? then Some(Collect(order.value, placed.values)) else None;
    NoneFitsUnless(o, t, sides, omitted, merged, p);
    assert order.Some? ==> Fitting(o, t, sides, omitted, merged, p);
  }

  /** The merged sequence, unless additions clash or the constraints have a cycle. */
  method PutTogether(o: seq<Json>, t: seq<Json>, sides: Pairing, omitted: set<Token>, merged: map<Token, Json>)
      returns (items: Option<seq<Json>>, ghost p: Plan)
    requires Sided(o, t, sides, omitted, merged)
    ensures p.sides == sides && (items.Some? <==> !Clash(o, t, sides) && MergeOrder.Acyclic(p.edges))
    ensures !Clash(o, t, sides) ==> p.omitted == omitted && WellPlaced(p) && Shares(p) && Constrained(p)
    ensures items.Some? ==> Fitting(o, t, sides, omitted, merged, p) && items.value == Collect(p.order, p.values)
    ensures items.Some? <==> !Clash(o, t, sides) && exists q: Plan :: Fitting(o, t, sides, omitted, merged, q)
  {
    var clash := Collide(o, t, sides.om, sides.tm, sides.oursIds, sides.theirsIds);
    if clash {
      items, p := None, Plan(sides, omitted, sides.om, map[], map[], map[], map[], []);
    } else {
      items, p := Arrange(o, t, sides, omitted, merged);
    }
  }
}
