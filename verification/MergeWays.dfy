/** What a merge without conflicts keeps of each side's edits, anywhere in the three documents. */
module MergeWays {
  import opened JsonTree
  import opened MatchSides
  import opened MergeConflicts
  import opened MergeSpec
  import opened SequencePlan
  import opened TextRuns
  import opened AstMergeLaws
  import opened Wrappers

  // ----- The way down through the three versions and the merge

  /** A value in the three versions and in their merge. */
  datatype Four = Four(base: Option<Json>, ours: Option<Json>, theirs: Option<Json>, merged: Option<Json>)

  /** One step down: to a member, or to a base item and what a plan has made of it. */
  datatype Turn = ToMember(key: string) | ToItem(i: nat, plan: Plan)

  /** The place of a token in an order, or its length. */
  function PlaceOf(order: seq<Token>, token: Token): (k: nat)
    ensures k <= |order| && (k < |order| ==> order[k] == token) && (token in order ==> k < |order|)
  {
    if order == [] || order[0] == token then 0 else 1 + PlaceOf(order[1..], token)
  }

  function ItemAt(v: Option<Json>, i: nat): Option<Json> {
    if IsArr(v) && i < |v.value.items| then Some(v.value.items[i]) else None
  }

  function PairedIn(v: Option<Json>, m: SideMatch, i: nat): Option<Json> {
    if IsArr(v) then Paired(v.value, m, i) else None
  }

  function Follow(v: Four, turn: Turn): Four {
    match turn
    case ToMember(key) => Four(Member(v.base, key), Member(v.ours, key), Member(v.theirs, key), Member(v.merged, key))
    case ToItem(i, p) =>
      Four(ItemAt(v.base, i), PairedIn(v.ours, p.sides.om, i), PairedIn(v.theirs, p.sides.tm, i),
        ItemAt(v.merged, PlaceOf(p.order, Base(i))))
  }

  function StripsAfter(turn: Turn, strip: bool): bool { if turn.ToMember? then StripBelow(turn.key, strip) else strip }

  ghost predicate Merged(v: Four, strip: bool) { Merges(v.base, v.ours, v.theirs, v.merged, strip) }

  /** An array is only gone into where the merge does, with the plan it was put together by. */
  ghost predicate CanTurn(v: Four, turn: Turn, strip: bool) {
    match turn
    case ToMember(key) => Kept(key, strip)
    case ToItem(i, p) =>
      && IsArr(v.base) && IsArr(v.ours) && IsArr(v.theirs) && IsArr(v.merged) && i < |v.base.value.items|
      && !Settled(v.base, v.ours, v.theirs, strip)
      && PlanMerges(v.base.value, v.ours.value, v.theirs.value, p, strip)
      && v.merged.value.items == Collect(p.order, p.values)
  }

  ghost predicate IsWay(v: Four, turns: seq<Turn>, strip: bool)
    decreases |turns|
  {
    turns == [] || (CanTurn(v, turns[0], strip) && IsWay(Follow(v, turns[0]), turns[1..], StripsAfter(turns[0], strip)))
  }

  function End(v: Four, turns: seq<Turn>): Four
    decreases |turns|
  {
    if turns == [] then v else End(Follow(v, turns[0]), turns[1..])
  }

  function StripsAtEnd(turns: seq<Turn>, strip: bool): bool {
    if turns == [] then strip else StripsAtEnd(turns[1..], StripsAfter(turns[0], strip))
  }

  // ----- The merge is a merge all the way down

  /** A base item both sides have is merged on its own; one that a side dropped is gone, and the other side left it
   * alone. */
  lemma {:induction false} ItemIsMerged(v: Four, turn: Turn, strip: bool)
    requires turn.ToItem? && CanTurn(v, turn, strip)
    ensures var w := Follow(v, turn);
      if w.ours.Some? && w.theirs.Some? then Merged(w, strip)
      else
        && w.base.Some? && w.merged.None?
        && (w.ours.Some? ==> Same(w.base, w.ours, strip))
        && (w.theirs.Some? ==> Same(w.base, w.theirs, strip))
  {
    var b, o, t, i, p := v.base.value, v.ours.value, v.theirs.value, turn.i, turn.plan;
    FateOfItem(b, o, t, p, strip, i);
    SequenceCollectsAll(b, o, t, p, strip);
  }

  /** The merge of an item is the survivor, at its place in the order. */
  lemma {:induction false} FateOfItem(b: Json, o: Json, t: Json, p: Plan, strip: bool, i: nat)
    requires b.Arr? && o.Arr? && t.Arr? && PlanMerges(b, o, t, p, strip) && i < |b.items|
    ensures ItemMerges(b, o, t, p.sides, i, ItemAt(Some(Arr(Collect(p.order, p.values))), PlaceOf(p.order, Base(i))),
      strip)
  {
    SequenceHolds(b, o, t, p, strip, i);
    SequenceCollectsAll(b, o, t, p, strip);
    var r := Survivor(p.values, i);
    assert ItemMerges(b, o, t, p.sides, i, r, strip);
    assert r == ItemAt(Some(Arr(Collect(p.order, p.values))), PlaceOf(p.order, Base(i)));
  }

  lemma {:induction false} TurnIsMerged(v: Four, turn: Turn, strip: bool)
    requires Merged(v, strip) && CanTurn(v, turn, strip) && AllDiffer(v.base, v.ours, v.theirs, strip)
    requires if turn.ToMember?
      then IsObj(v.base) && IsObj(v.ours) && IsObj(v.theirs)
      else Follow(v, turn).ours.Some? && Follow(v, turn).theirs.Some?
    ensures Merged(Follow(v, turn), StripsAfter(turn, strip))
  {
    if turn.ToMember? {
      MemberIsMerged(v.base, v.ours, v.theirs, v.merged, turn.key, strip);
    } else {
      ItemIsMerged(v, turn, strip);
    }
  }

  // ----- Below a value of which one version was taken

  datatype Version = OfBase | OfOurs | OfTheirs | OfMerge

  function Take(v: Four, version: Version): Option<Json> {
    match version case OfBase => v.base case OfOurs => v.ours case OfTheirs => v.theirs case OfMerge => v.merged
  }

  /** Two versions that agree as a whole agree below, and no array is gone into there. */
  lemma {:induction false} AgreeBelow(v: Four, turns: seq<Turn>, strip: bool, x: Version, y: Version)
    requires IsWay(v, turns, strip) && Same(Take(v, x), Take(v, y), strip) && x != OfMerge && y != OfMerge && x != y
    ensures Same(Take(End(v, turns), x), Take(End(v, turns), y), StripsAtEnd(turns, strip))
    decreases |turns|
  {
    if turns != [] {
      SameIsEquivalence(Take(v, x), Take(v, y), None, strip);
      SameMember(Take(v, x), Take(v, y), turns[0].key, strip);
      AgreeBelow(Follow(v, turns[0]), turns[1..], StripsAfter(turns[0], strip), x, y);
    }
  }

  /** What the merge took as a whole it has below. */
  lemma {:induction false} TakenBelow(v: Four, turns: seq<Turn>, strip: bool, x: Version)
    requires IsWay(v, turns, strip) && v.merged == Take(v, x) && x != OfMerge &&
      (forall k :: 0 <= k < |turns| ==> turns[k].ToMember?)
    ensures End(v, turns).merged == Take(End(v, turns), x)
    decreases |turns|
  {
    if turns != [] { TakenBelow(Follow(v, turns[0]), turns[1..], StripsAfter(turns[0], strip), x); }
  }

  /** Below versions of which two agree, or of which one is missing, the way goes through members only. */
  lemma {:induction false} MembersBelow(v: Four, turns: seq<Turn>, strip: bool, x: Version, y: Version)
    requires IsWay(v, turns, strip) && x != OfMerge && y != OfMerge && x != y && Same(Take(v, x), Take(v, y), strip)
    ensures forall k :: 0 <= k < |turns| ==> turns[k].ToMember?
    decreases |turns|
  {
    if turns != [] {
      SameIsEquivalence(Take(v, x), Take(v, y), None, strip);
      SameMember(Take(v, x), Take(v, y), turns[0].key, strip);
      MembersBelow(Follow(v, turns[0]), turns[1..], StripsAfter(turns[0], strip), x, y);
      assert forall k :: 0 < k < |turns| ==> turns[k] == turns[1..][k - 1];
    }
  }

  /** What is missing stays missing below. */
  lemma {:induction false} NothingBelow(v: Four, turns: seq<Turn>, strip: bool, x: Version)
    requires IsWay(v, turns, strip) && (Take(v, x).Some? ==> turns != [] && turns[0].ToMember? && !IsObj(Take(v, x)))
    ensures Take(End(v, turns), x) == None
    decreases |turns|
  {
    if turns != [] {
      NothingBelow(Follow(v, turns[0]), turns[1..], StripsAfter(turns[0], strip), x);
    }
  }

  // ----- Whose edits survive

  /** After an item that a side dropped: nothing is left of the merge or of that side. */
  ghost predicate Gone(v: Four, strip: bool) {
    v.merged.None? &&
      ((v.ours.None? && (v.theirs.Some? ==> Same(v.base, v.theirs, strip))) ||
      (v.theirs.None? && (v.ours.Some? ==> Same(v.base, v.ours, strip))))
  }

  /** A value merged as a whole: one version was taken, of two that agree or of three none of which can be gone into. */
  lemma {:induction false} StuckBelow(v: Four, turns: seq<Turn>, strip: bool)
    requires Merged(v, strip) && AllDiffer(v.base, v.ours, v.theirs, strip) && IsWay(v, turns, strip)
    requires turns != [] && turns[0].ToMember? && !(IsObj(v.base) && IsObj(v.ours) && IsObj(v.theirs))
    ensures End(v, turns) == Four(None, None, None, None)
  {
    NothingBelow(v, turns, strip, OfBase);
    NothingBelow(v, turns, strip, OfOurs);
    NothingBelow(v, turns, strip, OfTheirs);
    NothingBelow(v, turns, strip, OfMerge);
  }

  lemma {:induction false} GoneBelow(v: Four, turns: seq<Turn>, strip: bool)
    requires Gone(v, strip) && IsWay(v, turns, strip)
    ensures var w, s := End(v, turns), StripsAtEnd(turns, strip);
      && w.merged.None? && (w.ours.None? || w.theirs.None?)
      && (Same(w.theirs, w.base, s) ==> w.ours.None?) && (Same(w.ours, w.base, s) ==> w.theirs.None?)
  {
    NothingBelow(v, turns, strip, OfMerge);
    if v.ours.None? { NothingBelow(v, turns, strip, OfOurs); }
    if v.theirs.None? { NothingBelow(v, turns, strip, OfTheirs); }
    if v.ours.Some? { AgreeBelow(v, turns, strip, OfBase, OfOurs); }
    if v.theirs.Some? { AgreeBelow(v, turns, strip, OfBase, OfTheirs); }
  }

  /** Where two versions agree as a whole, the merge below is that of the version taken. */
  lemma {:induction false} OneTakenBelow(v: Four, turns: seq<Turn>, strip: bool)
    requires Merged(v, strip) && IsWay(v, turns, strip) && !AllDiffer(v.base, v.ours, v.theirs, strip)
    ensures var w, s := End(v, turns), StripsAtEnd(turns, strip);
      if Same(v.ours, v.theirs, strip) then w.merged == w.ours && Same(w.ours, w.theirs, s)
      else if Same(v.theirs, v.base, strip) then w.merged == w.ours && Same(w.theirs, w.base, s)
      else Same(w.ours, w.base, s) && w.merged == if Loses(v, strip) then w.ours else w.theirs
  {
    if Same(v.ours, v.theirs, strip) {
      OursWhereTheirsIsUnchanged(v.base, v.ours, v.theirs, v.merged, strip);
      MembersBelow(v, turns, strip, OfOurs, OfTheirs);
      TakenBelow(v, turns, strip, OfOurs);
      AgreeBelow(v, turns, strip, OfOurs, OfTheirs);
    } else if Same(v.theirs, v.base, strip) {
      SameIsEquivalence(v.ours, v.base, v.theirs, strip);
      SameIsEquivalence(v.theirs, v.base, None, strip);
      OursWhereTheirsIsUnchanged(v.base, v.ours, v.theirs, v.merged, strip);
      MembersBelow(v, turns, strip, OfTheirs, OfBase);
      TakenBelow(v, turns, strip, OfOurs);
      AgreeBelow(v, turns, strip, OfTheirs, OfBase);
    } else {
      TheirsWhereOursIsUnchanged(v.base, v.ours, v.theirs, v.merged, strip);
      MembersBelow(v, turns, strip, OfOurs, OfBase);
      TakenBelow(v, turns, strip, if Loses(v, strip) then OfOurs else OfTheirs);
      AgreeBelow(v, turns, strip, OfOurs, OfBase);
    }
  }

  /** The joined lines of ours and theirs agree, and hide that the two differ. */
  ghost predicate Loses(v: Four, strip: bool) {
    ComparedAsText(v.base, v.ours, v.theirs, strip) && SameText(v.ours.value.items, v.theirs.value.items) &&
      !Same(v.ours, v.theirs, strip)
  }

  /** Our edits survive wherever theirs left the base alone. */
  lemma {:induction false} OurEditSurvives(v: Four, turns: seq<Turn>, strip: bool)
    requires Merged(v, strip) && IsWay(v, turns, strip)
    requires Same(End(v, turns).theirs, End(v, turns).base, StripsAtEnd(turns, strip))
    ensures Same(End(v, turns).merged, End(v, turns).ours, StripsAtEnd(turns, strip))
    decreases |turns|
  {
    var w, s := End(v, turns), StripsAtEnd(turns, strip);
    if turns == [] {
      OursWhereTheirsIsUnchanged(v.base, v.ours, v.theirs, v.merged, strip);
    } else if !AllDiffer(v.base, v.ours, v.theirs, strip) {
      OneTakenBelow(v, turns, strip);
      SameIsEquivalence(w.theirs, w.base, w.ours, s);
      SameIsEquivalence(w.base, w.ours, None, s);
      SameIsEquivalence(w.ours, w.ours, None, s);
    } else if turns[0].ToMember? && !(IsObj(v.base) && IsObj(v.ours) && IsObj(v.theirs)) {
      StuckBelow(v, turns, strip);
    } else {
      OneDown(v, turns[0], strip);
      if Merged(Follow(v, turns[0]), StripsAfter(turns[0], strip)) {
        OurEditSurvives(Follow(v, turns[0]), turns[1..], StripsAfter(turns[0], strip));
      } else {
        GoneBelow(Follow(v, turns[0]), turns[1..], StripsAfter(turns[0], strip));
      }
    }
  }

  lemma {:induction false} OneDown(v: Four, turn: Turn, strip: bool)
    requires Merged(v, strip) && CanTurn(v, turn, strip) && AllDiffer(v.base, v.ours, v.theirs, strip)
    requires turn.ToMember? ==> IsObj(v.base) && IsObj(v.ours) && IsObj(v.theirs)
    ensures Merged(Follow(v, turn), StripsAfter(turn, strip)) || Gone(Follow(v, turn), StripsAfter(turn, strip))
  {
    if turn.ToItem? { ItemIsMerged(v, turn, strip); } else { TurnIsMerged(v, turn, strip); }
  }

  /** Their change of a paragraph is only a rewrap, and every value above it was changed by both sides, differently. */
  ghost predicate RewrapLost(v: Four, turns: seq<Turn>, strip: bool)
    decreases |turns|
  {
    if turns == [] then Loses(v, strip)
    else
      && AllDiffer(v.base, v.ours, v.theirs, strip)
      && RewrapLost(Follow(v, turns[0]), turns[1..], StripsAfter(turns[0], strip))
  }

  lemma {:induction false} LostAtEnd(v: Four, turns: seq<Turn>, strip: bool)
    requires RewrapLost(v, turns, strip)
    ensures Loses(End(v, turns), StripsAtEnd(turns, strip))
    decreases |turns|
  {
    if turns != [] { LostAtEnd(Follow(v, turns[0]), turns[1..], StripsAfter(turns[0], strip)); }
  }

  lemma {:induction false} TheirsBelowTaken(v: Four, turns: seq<Turn>, strip: bool)
    requires Merged(v, strip) && IsWay(v, turns, strip) && turns != [] && !AllDiffer(v.base, v.ours, v.theirs, strip)
    requires Same(End(v, turns).ours, End(v, turns).base, StripsAtEnd(turns, strip))
    ensures Same(End(v, turns).merged, End(v, turns).theirs, StripsAtEnd(turns, strip))
  {
    var w, s := End(v, turns), StripsAtEnd(turns, strip);
    OneTakenBelow(v, turns, strip);
    SameIsEquivalence(w.ours, w.base, w.theirs, s);
    SameIsEquivalence(w.base, w.theirs, None, s);
    SameIsEquivalence(w.theirs, w.theirs, None, s);
    if Loses(v, strip) {
      MembersBelow(v, turns, strip, if Same(v.ours, v.base, strip) then OfOurs else OfTheirs, OfBase);
      NothingBelowArrays(v, turns, strip);
    }
  }

  lemma {:induction false} NothingBelowArrays(v: Four, turns: seq<Turn>, strip: bool)
    requires IsWay(v, turns, strip) && IsArr(v.ours) && IsArr(v.theirs) && turns != [] && turns[0].ToMember?
    ensures End(v, turns).ours.None? && End(v, turns).theirs.None?
  {
    NothingBelow(v, turns, strip, OfTheirs);
    NothingBelow(v, turns, strip, OfOurs);
  }

  /** Where ours left the base alone, their edit survives exactly when it is no such rewrap. */
  lemma {:induction false} TheirEditSurvivesIff(v: Four, turns: seq<Turn>, strip: bool)
    requires Merged(v, strip) && IsWay(v, turns, strip)
    requires Same(End(v, turns).ours, End(v, turns).base, StripsAtEnd(turns, strip))
    ensures Same(End(v, turns).merged, End(v, turns).theirs, StripsAtEnd(turns, strip)) <==>
      !RewrapLost(v, turns, strip)
    decreases |turns|
  {
    if turns == [] {
      TheirsWhereOursIsUnchanged(v.base, v.ours, v.theirs, v.merged, strip);
      SameIsEquivalence(v.theirs, v.ours, None, strip);
    } else if !AllDiffer(v.base, v.ours, v.theirs, strip) {
      TheirsBelowTaken(v, turns, strip);
    } else if turns[0].ToMember? && !(IsObj(v.base) && IsObj(v.ours) && IsObj(v.theirs)) {
      StuckBelow(v, turns, strip);
      if RewrapLost(v, turns, strip) { LostAtEnd(v, turns, strip); }
    } else {
      OneDown(v, turns[0], strip);
      if Merged(Follow(v, turns[0]), StripsAfter(turns[0], strip)) {
        TheirEditSurvivesIff(Follow(v, turns[0]), turns[1..], StripsAfter(turns[0], strip));
      } else {
        GoneBelow(Follow(v, turns[0]), turns[1..], StripsAfter(turns[0], strip));
        if RewrapLost(v, turns, strip) { LostAtEnd(v, turns, strip); }
      }
    }
  }

  /** What is there instead of a lost rewrap is ours. */
  lemma {:induction false} LostRewrapIsOurs(v: Four, turns: seq<Turn>, strip: bool)
    requires Merged(v, strip) && IsWay(v, turns, strip) && RewrapLost(v, turns, strip)
    ensures End(v, turns).merged == End(v, turns).ours
    decreases |turns|
  {
    if turns != [] {
      LostAtEnd(v, turns, strip);
      if turns[0].ToMember? && !(IsObj(v.base) && IsObj(v.ours) && IsObj(v.theirs)) {
        StuckBelow(v, turns, strip);
      } else {
        OneDown(v, turns[0], strip);
        if Merged(Follow(v, turns[0]), StripsAfter(turns[0], strip)) {
          LostRewrapIsOurs(Follow(v, turns[0]), turns[1..], StripsAfter(turns[0], strip));
        } else {
          GoneBelow(Follow(v, turns[0]), turns[1..], StripsAfter(turns[0], strip));
        }
      }
    }
  }
}
