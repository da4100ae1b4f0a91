/** A rewrap that a merge loses: three documents of one paragraph, renamed by ours and rewrapped by theirs. */
module LostRewrap {
  import AstMerge
  import opened JsonTree
  import MergeOrder
  import opened MatchSides
  import opened MergeConflicts
  import opened MergeSpec
  import opened MergeUnmoved
  import opened MergeWays
  import opened SequencePlan
  import opened TextRuns
  import opened AstMergeLaws
  import opened Pointers
  import Decimal
  import opened Wrappers

  function Text(s: string): Json { Obj(map["type" := Str("text"), "value" := Str(s)]) }

  const BREAK := Obj(map["type" := Str("soft_break")])

  function Attrs(id: string): Json { Obj(map["id" := Str(id)]) }

  function Paragraph(id: string, children: seq<Json>): Json {
    Obj(map["type" := Str("paragraph"), "children" := Arr(children), "attrs" := Attrs(id)])
  }

  function Document(id: string, children: seq<Json>): Json {
    Obj(map["type" := Str("document"), "children" := Arr([Paragraph(id, children)]), "srcByteLength" := Num(Int(0))])
  }

  /** Two ways of writing the same text that differ as trees. */
  ghost predicate Rewrapped(one: seq<Json>, two: seq<Json>) {
    Joins(one) && Joins(two) && SameText(one, two) && !Same(Some(Arr(one)), Some(Arr(two)), true)
  }

  lemma {:induction false} JoinOfTwoLines()
    ensures Join([Text("a"), BREAK, Text("b")], NoRun) == [Text("a b")]
  {
    var two := [Text("a"), BREAK, Text("b")];
    var first := Text("a").fields;
    assert Extend(NoRun, Text("a")) == Run(first, "a") by { assert "" + "a" == "a"; }
    assert Extend(Run(first, "a"), BREAK) == Run(first, "a ") by { assert "a" + " " == "a "; }
    assert Extend(Run(first, "a "), Text("b")) == Run(first, "a b") by { assert "a " + "b" == "a b"; }
    assert two[1..] == [BREAK, Text("b")] && [BREAK, Text("b")][1..] == [Text("b")] && [Text("b")][1..] == [];
    assert Join([Text("b")], Run(first, "a ")) == Flush(Run(first, "a b"));
    assert Join([BREAK, Text("b")], Run(first, "a")) == Flush(Run(first, "a b"));
    assert first["value" := Str("a b")] == Text("a b").fields;
  }

  lemma {:induction false} JoinOfOneLine()
    ensures Join([Text("a b")], NoRun) == [Text("a b")]
  {
    var fields := Text("a b").fields;
    assert [Text("a b")][1..] == [];
    assert Extend(NoRun, Text("a b")) == Run(fields, "a b") by { assert "" + "a b" == "a b"; }
    assert fields["value" := Str("a b")] == fields;
  }

  const ONE_LINE := [Text("a b")]

  const TWO_LINES := [Text("a"), BREAK, Text("b")]

  lemma {:induction false} RewrapsExist()
    ensures Rewrapped(ONE_LINE, TWO_LINES)
  {
    JoinOfOneLine();
    JoinOfTwoLines();
    var one, two := ONE_LINE, TWO_LINES;
    assert NodeType(one[0]) == Some("text") && NodeType(two[0]) == Some("text");
    ArraysAlike(one, two);
  }

  // ----- How the three documents differ

  lemma {:induction false} DifferAt(a: Option<Json>, b: Option<Json>, key: string)
    requires !Same(Member(a, key), Member(b, key), true) && Kept(key, true) && StripBelow(key, true)
    ensures !Same(a, b, true)
  {
    if Same(a, b, true) { SameMember(a, b, key, true); }
  }

  lemma {:induction false} MembersOfParagraph(id: string, children: seq<Json>)
    ensures var p := Some(Paragraph(id, children));
      && Member(p, "type") == Some(Str("paragraph")) && Member(p, "attrs") == Some(Attrs(id)) &&
        Member(p, "children") == Some(Arr(children))
      && forall key :: key in p.value.fields <==> key == "type" || key == "attrs" || key == "children"
  {
  }

  lemma {:induction false} MembersOfDocument(id: string, children: seq<Json>)
    ensures var d := Some(Document(id, children));
      && Member(d, "type") == Some(Str("document")) && Member(d, "children") == Some(Arr([Paragraph(id, children)]))
      && forall key :: key in d.value.fields <==> key == "type" || key == "children" || key == "srcByteLength"
  {
  }

  lemma {:induction false} AttrsDiffer(x: string, y: string)
    requires x != y
    ensures !Same(Some(Attrs(x)), Some(Attrs(y)), true)
  {
    assert Member(Some(Attrs(x)), "id") == Some(Str(x)) && Member(Some(Attrs(y)), "id") == Some(Str(y));
    DifferAt(Some(Attrs(x)), Some(Attrs(y)), "id");
  }

  /** The versions of the paragraph, of the list it is alone in, and of the document. */
  function Paragraphs(x: string, y: string, one: seq<Json>, two: seq<Json>): Versions {
    Versions(Some(Paragraph(x, one)), Some(Paragraph(y, one)), Some(Paragraph(x, two)))
  }

  function Lists(v: Versions): Versions
    requires v.base.Some? && v.ours.Some? && v.theirs.Some?
  {
    Versions(Some(Arr([v.base.value])), Some(Arr([v.ours.value])), Some(Arr([v.theirs.value])))
  }

  function Documents(x: string, y: string, one: seq<Json>, two: seq<Json>): Versions {
    Versions(Some(Document(x, one)), Some(Document(y, one)), Some(Document(x, two)))
  }

  ghost predicate Apart(v: Versions) { AllDiffer(v.base, v.ours, v.theirs, true) }

  lemma {:induction false} ParagraphsDiffer(x: string, y: string, one: seq<Json>, two: seq<Json>)
    requires x != y && Rewrapped(one, two)
    ensures Apart(Paragraphs(x, y, one, two))
  {
    var v := Paragraphs(x, y, one, two);
    MembersOfParagraph(x, one);
    MembersOfParagraph(y, one);
    MembersOfParagraph(x, two);
    AttrsDiffer(x, y);
    AttrsDiffer(y, x);
    DifferAt(v.ours, v.theirs, "attrs");
    DifferAt(v.ours, v.base, "attrs");
    SameIsEquivalence(Some(Arr(one)), Some(Arr(two)), None, true);
    DifferAt(v.theirs, v.base, "children");
  }

  lemma {:induction false} AloneDiffer(v: Json, w: Json)
    requires !Same(Some(v), Some(w), true)
    ensures !Same(Some(Arr([v])), Some(Arr([w])), true)
  {
    ArraysAlike([v], [w]);
    assert !Alike([v][0], [w][0]);
  }

  lemma {:induction false} ListsDiffer(v: Versions)
    requires v.base.Some? && v.ours.Some? && v.theirs.Some? && Apart(v)
    ensures Apart(Lists(v))
  {
    AloneDiffer(v.ours.value, v.theirs.value);
    AloneDiffer(v.ours.value, v.base.value);
    AloneDiffer(v.theirs.value, v.base.value);
  }

  lemma {:induction false} DocumentsDiffer(x: string, y: string, one: seq<Json>, two: seq<Json>)
    requires x != y && Rewrapped(one, two)
    ensures Apart(Documents(x, y, one, two)) && Apart(Lists(Paragraphs(x, y, one, two)))
  {
    ParagraphsDiffer(x, y, one, two);
    ListsDiffer(Paragraphs(x, y, one, two));
    MembersOfDocument(x, one);
    MembersOfDocument(y, one);
    MembersOfDocument(x, two);
    var v := Documents(x, y, one, two);
    DifferAt(v.ours, v.theirs, "children");
    DifferAt(v.ours, v.base, "children");
    DifferAt(v.theirs, v.base, "children");
  }

  // ----- The only items of two lists are paired

  lemma {:induction false} AloneIsPaired(base: Json, side: Json, baseIds: seq<nat>, sideIds: seq<nat>, found: SideMatch,
      passes: Passes)
    requires |baseIds| == 1 == |sideIds| && PairedBy([base], [side], baseIds, sideIds, found, passes) &&
      Kind(base) == Kind(side)
    ensures found.Pairs(0, 0) && found.additions == []
  {
    AloneIsKinded(base, side, passes.hinted, passes.kinded);
    assert found.Pairs(0, 0);
    NothingRemains(found);
  }

  lemma {:induction false} NothingRemains(m: SideMatch)
    requires Bijection(m, 1, 1) && m.Pairs(0, 0)
    ensures Remaining(1, m.sideToBase) == []
  {
    assert Remaining(0, m.sideToBase) == [];
  }

  lemma {:induction false} AloneIsKinded(base: Json, side: Json, hinted: SideMatch, kinded: SideMatch)
    requires Kind(base) == Kind(side) && Bijection(hinted, 1, 1) &&
      AddsSolePairs(kinded, hinted, KindKeys([base]), KindKeys([side]))
    ensures kinded.Pairs(0, 0)
  {
    if !hinted.Pairs(0, 0) {
      assert 0 !in hinted.baseToSide && 0 !in hinted.sideToBase;
      SoleKinds(base, side, hinted);
    }
    assert kinded.Pairs(0, 0);
  }

  lemma {:induction false} SoleKinds(base: Json, side: Json, m: SideMatch)
    requires Kind(base) == Kind(side) && 0 !in m.baseToSide && 0 !in m.sideToBase
    ensures SolePair(Untaken(KindKeys([base]), m.baseToSide), Untaken(KindKeys([side]), m.sideToBase), 0, 0)
  {
  }

  /** Three lists of one item of one kind: whatever the ids, the items are paired and nothing is added. */
  lemma {:induction false} AloneMatched(v: Versions, sides: Pairing)
    requires v.base.Some? && v.ours.Some? && v.theirs.Some? &&
      Kind(v.base.value) == Kind(v.ours.value) == Kind(v.theirs.value)
    requires Matched([v.base.value], [v.ours.value], [v.theirs.value], sides, true)
    ensures sides.om.Pairs(0, 0) && sides.tm.Pairs(0, 0) && sides.om.additions == [] && sides.tm.additions == []
  {
    var b, o, t := [v.base.value], [v.ours.value], [v.theirs.value];
    assert MatchedOn(OurSide, b, o, t, sides, true) && MatchedOn(TheirSide, b, o, t, sides, true);
    AloneIsPaired(v.base.value, v.ours.value, sides.baseIds, sides.oursIds, sides.om, sides.oursPasses);
    AloneIsPaired(v.base.value, v.theirs.value, sides.baseIds, sides.theirsIds, sides.tm, sides.theirsPasses);
  }

  // ----- Nowhere does the merge give up

  lemma {:induction false} AloneIsNotBlocked(v: Versions, p: Plan)
    requires v.base.Some? && v.ours.Some? && v.theirs.Some? &&
      Kind(v.base.value) == Kind(v.ours.value) == Kind(v.theirs.value)
    ensures !Blocked(Arr([v.base.value]), Arr([v.ours.value]), Arr([v.theirs.value]), p, true)
  {
    var b, o, t := Arr([v.base.value]), Arr([v.ours.value]), Arr([v.theirs.value]);
    if Blocked(b, o, t, p, true) {
      AloneMatched(v, p.sides);
      MatchedFits(b.items, o.items, t.items, p.sides, true);
      BlockedOnlyBy(b, o, t, p, true);
      assert p.shared.sideToBase == map[];
      AloneIsKept(p);
    }
  }

  lemma {:induction false} AloneIsKept(p: Plan)
    requires |p.sides.baseIds| == 1 == |p.sides.oursIds| == |p.sides.theirsIds| && p.sides.om.Pairs(0, 0) &&
      p.sides.tm.Pairs(0, 0)
    requires Bijection(p.sides.om, 1, 1) && Bijection(p.sides.tm, 1, 1)
    ensures KeptInPlace(p)
  {
    var only := if Base(0) in p.omitted then [] else [Base(0)];
    assert TokensFor(0, p.sides.om, p.oursAdd, p.omitted) == [] == TokensFor(0, p.sides.tm, p.theirsAdd, p.omitted);
    assert p.OurTokens() == only == p.TheirTokens();
    assert Survivors(0, p.omitted) == [];
    assert p.Surviving() == only;
    if only != [] { assert MergeOrder.BasePart(only[..0]) == []; }
  }

  /** Where a way down from the three documents can be: at the document, its list, the paragraph, or a value that is
   * settled. */
  ghost predicate OnTheWay(v: Versions, x: string, y: string, one: seq<Json>, two: seq<Json>, strip: bool) {
    || Settled(v.base, v.ours, v.theirs, strip)
    || (strip && (v == Documents(x, y, one, two) || v == Lists(Paragraphs(x, y, one, two)) ||
      v == Paragraphs(x, y, one, two)))
  }

  lemma {:induction false} ListsAreNotGivenUp(v: Versions)
    requires v.base.Some? && v.ours.Some? && v.theirs.Some? &&
      Kind(v.base.value) == Kind(v.ours.value) == Kind(v.theirs.value)
    ensures !GivenUp(Lists(v).base, Lists(v).ours, Lists(v).theirs, true)
  {
    var b, o, t := Arr([v.base.value]), Arr([v.ours.value]), Arr([v.theirs.value]);
    forall p: Plan ensures !Blocked(b, o, t, p, true) { AloneIsNotBlocked(v, p); }
    assert !GivesUp(ConcurrentSequenceEdit, Some(b), Some(o), Some(t), true);
  }

  lemma {:induction false} ParagraphListsAreNotGivenUp(x: string, y: string, one: seq<Json>, two: seq<Json>)
    ensures var lists := Lists(Paragraphs(x, y, one, two)); !GivenUp(lists.base, lists.ours, lists.theirs, true)
  {
    MembersOfParagraph(x, one);
    MembersOfParagraph(y, one);
    MembersOfParagraph(x, two);
    ListsAreNotGivenUp(Paragraphs(x, y, one, two));
  }

  lemma {:induction false} NotGivenUp(v: Versions, x: string, y: string, one: seq<Json>, two: seq<Json>, strip: bool)
    requires OnTheWay(v, x, y, one, two, strip)
    ensures !GivenUp(v.base, v.ours, v.theirs, strip)
  {
    if Settled(v.base, v.ours, v.theirs, strip) {
      SettledIsNotGivenUp(v, strip);
    } else if v == Lists(Paragraphs(x, y, one, two)) {
      ParagraphListsAreNotGivenUp(x, y, one, two);
    } else if v == Paragraphs(x, y, one, two) {
      ObjectsAreNotGivenUp(Paragraph(x, one), Paragraph(y, one), Paragraph(x, two), strip);
    } else {
      ObjectsAreNotGivenUp(Document(x, one), Document(y, one), Document(x, two), strip);
    }
  }

  /** The members of a document: its list, or a value that is settled. */
  lemma {:induction false} IntoDocument(w: Versions, key: string, x: string, y: string, one: seq<Json>, two: seq<Json>)
    requires IntoMember(Documents(x, y, one, two), key, w, true)
    ensures StripBelow(key, true) ==> OnTheWay(w, x, y, one, two, true)
    ensures !StripBelow(key, true) ==> Settled(w.base, w.ours, w.theirs, false)
  {
    MembersOfDocument(x, one);
    MembersOfDocument(y, one);
    MembersOfDocument(x, two);
  }

  /** The members of the paragraph are all settled: ours changed only the name, theirs only the lines. */
  lemma {:induction false} IntoParagraph(w: Versions, key: string, x: string, y: string, one: seq<Json>, two: seq<Json>)
    requires IntoMember(Paragraphs(x, y, one, two), key, w, true)
    ensures Settled(w.base, w.ours, w.theirs, StripBelow(key, true))
  {
    MembersOfParagraph(x, one);
    MembersOfParagraph(y, one);
    MembersOfParagraph(x, two);
  }

  lemma {:induction false} IntoList(w: Versions, i: nat, sides: Pairing, x: string, y: string, one: seq<Json>,
      two: seq<Json>)
    requires IntoItem(Lists(Paragraphs(x, y, one, two)), i, w, sides, true)
    ensures w == Paragraphs(x, y, one, two)
  {
    AloneMatched(Paragraphs(x, y, one, two), sides);
  }

  lemma {:induction false} OneDownTheWay(v: Versions, segment: string, w: Versions, x: string, y: string,
      one: seq<Json>, two: seq<Json>, strip: bool)
    requires OnTheWay(v, x, y, one, two, strip) && Into(v, segment, w, strip)
    ensures OnTheWay(w, x, y, one, two, strip && segment != KEY_VALUES)
  {
    if IntoMember(v, segment, w, strip) {
      if v == Documents(x, y, one, two) {
        IntoDocument(w, segment, x, y, one, two);
      } else if v == Paragraphs(x, y, one, two) {
        IntoParagraph(w, segment, x, y, one, two);
      }
    } else {
      var i: nat, sides: Pairing :| segment == Decimal.Print(i) && IntoItem(v, i, w, sides, strip);
      assert Decimal.IsDigit(segment[0]) && KEY_VALUES[0] == 'k';
      IntoList(w, i, sides, x, y, one, two);
    }
  }

  lemma {:induction false} AllOnTheWay(trail: Trail, x: string, y: string, one: seq<Json>, two: seq<Json>)
    requires Leads(trail) && trail.Root() == Documents(x, y, one, two)
    ensures OnTheWay(trail.Here(), x, y, one, two, trail.Strips())
    decreases trail
  {
    if trail.Down? {
      AllOnTheWay(trail.above, x, y, one, two);
      OneDownTheWay(trail.above.Here(), trail.segment, trail.at, x, y, one, two, trail.above.Strips());
    }
  }

  lemma {:induction false} NowhereGivenUp(x: string, y: string, one: seq<Json>, two: seq<Json>)
    ensures !GivesUpSomewhere(Documents(x, y, one, two))
  {
    forall trail: Trail | Leads(trail) && trail.Root() == Documents(x, y, one, two)
      ensures !GivenUp(trail.Here().base, trail.Here().ours, trail.Here().theirs, trail.Strips())
    {
      AllOnTheWay(trail, x, y, one, two);
      NotGivenUp(trail.Here(), x, y, one, two, trail.Strips());
    }
  }

  // ----- The rewrap is gone

  function With(v: Versions, merged: Option<Json>): Four { Four(v.base, v.ours, v.theirs, merged) }

  /** The way from the document to the lines of its paragraph. */
  function WayToLines(p: Plan): seq<Turn> { [ToMember("children"), ToItem(0, p), ToMember("children")] }

  ghost predicate AreParagraphs(v: Versions) {
    && v.base.Some? && v.ours.Some? && v.theirs.Some? &&
      Kind(v.base.value) == Kind(v.ours.value) == Kind(v.theirs.value)
    && NodeType(v.base.value) == Some("paragraph")
  }

  lemma {:induction false} ListIsPlanned(v: Versions, list: Option<Json>) returns (p: Plan)
    requires AreParagraphs(v) && Apart(Lists(v)) && Merged(With(Lists(v), list), true)
    ensures IsArr(list) && PlanMerges(Arr([v.base.value]), Arr([v.ours.value]), Arr([v.theirs.value]), p, true)
    ensures list.value.items == Collect(p.order, p.values)
  {
    var b, o, t := Arr([v.base.value]), Arr([v.ours.value]), Arr([v.theirs.value]);
    NotJoined(v.base.value);
    assert IsArr(list) && SequenceMerges(b, o, t, list.value, true);
    p :| PlanMerges(b, o, t, p, true) && list.value.items == Collect(p.order, p.values);
  }

  lemma {:induction false} NotJoined(v: Json)
    requires NodeType(v) == Some("paragraph")
    ensures !Joins([v])
  {
    assert forall i :: 0 <= i < |[v]| ==> NodeType([v][i]) == Some("paragraph");
  }

  lemma {:induction false} PlannedTurn(v: Versions, list: Option<Json>, p: Plan)
    requires AreParagraphs(v) && Apart(Lists(v)) && IsArr(list) && list.value.items == Collect(p.order, p.values)
    requires PlanMerges(Arr([v.base.value]), Arr([v.ours.value]), Arr([v.theirs.value]), p, true)
    ensures CanTurn(With(Lists(v), list), ToItem(0, p), true)
    ensures var w := Follow(With(Lists(v), list), ToItem(0, p)); w == With(v, w.merged)
  {
    NotJoined(v.base.value);
    AloneMatched(v, p.sides);
  }

  /** A way, without author-written key-value pairs, through values all versions of which differ, to a rewrap that the
   * merge loses. */
  ghost predicate LostWay(v: Four, way: seq<Turn>, end: Four)
    decreases |way|
  {
    if way == [] then v == end && Loses(v, true)
    else
      && CanTurn(v, way[0], true) && StripsAfter(way[0], true) && AllDiffer(v.base, v.ours, v.theirs, true)
      && LostWay(Follow(v, way[0]), way[1..], end)
  }

  lemma {:induction false} LostWayIs(v: Four, way: seq<Turn>, end: Four)
    requires LostWay(v, way, end)
    ensures IsWay(v, way, true) && End(v, way) == end && RewrapLost(v, way, true) && StripsAtEnd(way, true)
    decreases |way|
  {
    if way != [] { LostWayIs(Follow(v, way[0]), way[1..], end); }
  }

  /** One turn more at the beginning of such a way. */
  lemma {:induction false} TurnFirst(v: Four, turn: Turn, w: Four, rest: seq<Turn>, end: Four)
    requires CanTurn(v, turn, true) && StripsAfter(turn, true) && Follow(v, turn) == w &&
      AllDiffer(v.base, v.ours, v.theirs, true)
    requires LostWay(w, rest, end)
    ensures LostWay(v, [turn] + rest, end)
  {
    assert ([turn] + rest)[1..] == rest;
  }

  /** The three versions of something that are all there, all of one kind and all different, and what each has as
   * children. */
  ghost predicate Parents(v: Versions, children: Versions) {
    && IsObj(v.base) && IsObj(v.ours) && IsObj(v.theirs) &&
      Kind(v.base.value) == Kind(v.ours.value) == Kind(v.theirs.value) && Apart(v)
    && Member(v.base, "children") == children.base && Member(v.ours, "children") == children.ours &&
      Member(v.theirs, "children") == children.theirs
  }

  function Lines(one: seq<Json>, two: seq<Json>): Versions { Versions(Some(Arr(one)), Some(Arr(one)), Some(Arr(two))) }

  lemma {:induction false} ParagraphsAreParents(x: string, y: string, one: seq<Json>, two: seq<Json>)
    requires Apart(Paragraphs(x, y, one, two))
    ensures Parents(Paragraphs(x, y, one, two), Lines(one, two)) && AreParagraphs(Paragraphs(x, y, one, two))
  {
    MembersOfParagraph(x, one);
    MembersOfParagraph(y, one);
    MembersOfParagraph(x, two);
  }

  lemma {:induction false} DocumentsAreParents(x: string, y: string, one: seq<Json>, two: seq<Json>)
    requires Apart(Documents(x, y, one, two))
    ensures Parents(Documents(x, y, one, two), Lists(Paragraphs(x, y, one, two)))
  {
    MembersOfDocument(x, one);
    MembersOfDocument(y, one);
    MembersOfDocument(x, two);
  }

  lemma {:induction false} BreakLoses(one: seq<Json>, two: seq<Json>, merged: Option<Json>)
    requires Rewrapped(one, two)
    ensures Loses(With(Lines(one, two), merged), true)
  {
  }

  /** From the paragraph to its lines. */
  lemma {:induction false} LastTurn(v: Versions, one: seq<Json>, two: seq<Json>, merged: Option<Json>)
      returns (lines: Four)
    requires Parents(v, Lines(one, two)) && Rewrapped(one, two)
    ensures LostWay(With(v, merged), [ToMember("children")], lines) && lines == With(Lines(one, two), lines.merged)
  {
    var item := With(v, merged);
    lines := Follow(item, ToMember("children"));
    BreakLoses(one, two, lines.merged);
    assert LostWay(lines, [], lines);
    TurnFirst(item, ToMember("children"), lines, [], lines);
    assert [ToMember("children")] + [] == [ToMember("children")];
  }

  lemma {:induction false} WaysGoOn(p: Plan)
    ensures [ToItem(0, p)] + [ToMember("children")] == [ToItem(0, p), ToMember("children")]
    ensures [ToMember("children")] + [ToItem(0, p), ToMember("children")] == WayToLines(p)
  {
  }

  /** From the list, by the plan of its merge. */
  lemma {:induction false} ListWay(v: Versions, one: seq<Json>, two: seq<Json>, list: Option<Json>)
      returns (p: Plan, lines: Four)
    requires Parents(v, Lines(one, two)) && Rewrapped(one, two) && AreParagraphs(v)
    requires Apart(Lists(v)) && Merged(With(Lists(v), list), true)
    ensures LostWay(With(Lists(v), list), [ToItem(0, p), ToMember("children")], lines) &&
      lines == With(Lines(one, two), lines.merged)
  {
    var lists := With(Lists(v), list);
    p := ListIsPlanned(v, list);
    PlannedTurn(v, list, p);
    var item := Follow(lists, ToItem(0, p));
    lines := LastTurn(v, one, two, item.merged);
    TurnFirst(lists, ToItem(0, p), item, [ToMember("children")], lines);
    WaysGoOn(p);
  }

  lemma {:induction false} RootTurn(root: Versions, lists: Versions, r: Json)
    requires Parents(root, lists) && Merged(With(root, Some(r)), true)
    ensures var top := With(root, Some(r));
      CanTurn(top, ToMember("children"), true) &&
        Follow(top, ToMember("children")) == With(lists, Member(Some(r), "children")) &&
      Merged(With(lists, Member(Some(r), "children")), true)
  {
    TurnIsMerged(With(root, Some(r)), ToMember("children"), true);
  }

  lemma {:induction false} RootWay(root: Versions, v: Versions, one: seq<Json>, two: seq<Json>, r: Json)
      returns (p: Plan, lines: Four)
    requires Parents(v, Lines(one, two)) && Rewrapped(one, two) && AreParagraphs(v)
    requires Parents(root, Lists(v)) && Apart(Lists(v)) && Merged(With(root, Some(r)), true)
    ensures LostWay(With(root, Some(r)), WayToLines(p), lines) && lines == With(Lines(one, two), lines.merged)
  {
    var list := Member(Some(r), "children");
    RootTurn(root, Lists(v), r);
    p, lines := ListWay(v, one, two, list);
    TurnFirst(With(root, Some(r)), ToMember("children"), With(Lists(v), list), [ToItem(0, p), ToMember("children")],
      lines);
    WaysGoOn(p);
  }

  lemma {:induction false} WayIsLost(x: string, y: string, one: seq<Json>, two: seq<Json>, r: Json) returns (p: Plan)
    requires x != y && Rewrapped(one, two) && Merged(With(Documents(x, y, one, two), Some(r)), true)
    ensures LinesLost(With(Documents(x, y, one, two), Some(r)), WayToLines(p))
  {
    ParagraphsDiffer(x, y, one, two);
    DocumentsDiffer(x, y, one, two);
    ParagraphsAreParents(x, y, one, two);
    DocumentsAreParents(x, y, one, two);
    var root, v := Documents(x, y, one, two), Paragraphs(x, y, one, two);
    var lines;
    p, lines := RootWay(root, v, one, two, r);
    OnlyTheirs(Arr(one), Arr(two), With(root, Some(r)), WayToLines(p), lines);
  }

  lemma {:induction false} OnlyTheirs(one: Json, two: Json, v: Four, way: seq<Turn>, lines: Four)
    requires !Same(Some(one), Some(two), true) && Merged(v, true) && LostWay(v, way, lines)
    requires lines == Four(Some(one), Some(one), Some(two), lines.merged)
    ensures LinesLost(v, way)
  {
    LostWayIs(v, way, lines);
    SameIsEquivalence(Some(one), Some(two), None, true);
    LinesAreLost(v, way);
  }

  /** At the end of a way only theirs changed the value, and the merge has it as it was. */
  ghost predicate LinesLost(v: Four, way: seq<Turn>) {
    && IsWay(v, way, true)
    && var w := End(v, way);
      Same(w.ours, w.base, true) && !Same(w.theirs, w.base, true) && Same(w.merged, w.base, true) &&
        !Same(w.merged, w.theirs, true)
  }

  lemma {:induction false} LinesAreLost(v: Four, way: seq<Turn>)
    requires IsWay(v, way, true) && Merged(v, true) && RewrapLost(v, way, true) && StripsAtEnd(way, true)
    requires Same(End(v, way).ours, End(v, way).base, true) && !Same(End(v, way).theirs, End(v, way).base, true)
    ensures LinesLost(v, way)
  {
    TheirEditSurvivesIff(v, way, true);
    LostRewrapIsOurs(v, way, true);
  }

  /**
   * Ours renames the paragraph and theirs rewraps it. The three documents merge without any conflict, and wherever the
   * plan of the merge puts the paragraph, its lines are those of the base and not those of theirs.
   */
  lemma {:induction false} RewrapIsLost(x: string, y: string, one: seq<Json>, two: seq<Json>)
    requires x != y && Rewrapped(one, two)
    ensures !GivesUpSomewhere(Documents(x, y, one, two))
    ensures forall r: Json :: Merged(With(Documents(x, y, one, two), Some(r)), true) ==>
      exists p: Plan :: LinesLost(With(Documents(x, y, one, two), Some(r)), WayToLines(p))
  {
    NowhereGivenUp(x, y, one, two);
    forall r: Json | Merged(With(Documents(x, y, one, two), Some(r)), true)
      ensures exists p: Plan :: LinesLost(With(Documents(x, y, one, two), Some(r)), WayToLines(p))
    {
      var p := WayIsLost(x, y, one, two, r);
    }
  }

  /** So it is with a paragraph of one line that ours gave another id and theirs broke into two lines. */
  lemma {:induction false} BreakIsLost()
    ensures var v := Documents("old", "new", ONE_LINE, TWO_LINES);
      && !GivesUpSomewhere(v)
      && forall r: Json :: Merged(With(v, Some(r)), true) ==>
           exists p: Plan :: LinesLost(With(v, Some(r)), WayToLines(p))
  {
    RewrapsExist();
    assert "old"[0] != "new"[0];
    RewrapIsLost("old", "new", ONE_LINE, TWO_LINES);
  }

  /** What the merge gives for such documents: a document, from a merge that lost the lines. */
  method MergeRewrapped(x: string, y: string, one: seq<Json>, two: seq<Json>) returns (result: AstMerge.MergeResult)
    requires x != y && Rewrapped(one, two)
    ensures result.Merged?
    ensures exists r: Json, p: Plan ::
      result.document == AstMerge.Stamp(r) && LinesLost(With(Documents(x, y, one, two), Some(r)), WayToLines(p))
  {
    RewrapIsLost(x, y, one, two);
    result := AstMerge.MergeAst(Document(x, one), Document(y, one), Document(x, two));
    ghost var v := Documents(x, y, one, two);
    ghost var r :| Merges(v.base, v.ours, v.theirs, Some(r), true) && result.document == AstMerge.Stamp(r);
    assert Merged(With(v, Some(r)), true);
  }
}
