/** What a conflict of a three-way merge is about, and where in the three documents it lies. */
module MergeConflicts {
  import opened JsonTree
  import MergeOrder
  import opened MergeSpec
  import opened SequencePlan
  import opened TextRuns
  import opened Pointers
  import Decimal
  import opened Wrappers

  datatype Reason = BothChanged | DeleteEdit | ConcurrentSequenceEdit

  datatype Conflict = Conflict(path: string, reason: Reason, base: Option<Json>, ours: Option<Json>,
    theirs: Option<Json>)

  // ----- What it is about

  /** One version is as good as another: two agree, as trees or as the text of a paragraph. */
  ghost predicate Settled(b: Option<Json>, o: Option<Json>, t: Option<Json>, strip: bool) {
    !AllDiffer(b, o, t, strip) ||
      (ComparedAsText(b, o, t, strip) && TextSettles(b.value.items, o.value.items, t.value.items))
  }

  ghost predicate TextSettles(b: seq<Json>, o: seq<Json>, t: seq<Json>)
  {
    SameText(o, t) || SameText(o, b) || SameText(t, b)
  }

  /** Why the merge gives up: one side is gone, the kinds of value do not allow going deeper, or the sequences cannot
   * be put together. */
  ghost predicate GivesUp(reason: Reason, b: Option<Json>, o: Option<Json>, t: Option<Json>, strip: bool)
    decreases b.Some?, if b.Some? then b.value else Null, 3
  {
    !Settled(b, o, t, strip) &&
    match reason
    case DeleteEdit => o.None? || t.None?
    case BothChanged => o.Some? && t.Some? && !(IsArr(b) && IsArr(o) && IsArr(t)) && !(IsObj(b) && IsObj(o) && IsObj(t))
    case ConcurrentSequenceEdit =>
      IsArr(b) && IsArr(o) && IsArr(t) && exists p: Plan :: Blocked(b.value, o.value, t.value, p, strip)
  }

  ghost predicate GivenUp(b: Option<Json>, o: Option<Json>, t: Option<Json>, strip: bool)
    decreases b.Some?, if b.Some? then b.value else Null, 4
  {
    exists reason: Reason :: GivesUp(reason, b, o, t, strip)
  }

  /** A plan that cannot be completed: both sides added different things under one name, or no order suits both. */
  ghost predicate Blocked(b: Json, o: Json, t: Json, p: Plan, strip: bool)
    requires b.Arr? && o.Arr? && t.Arr?
    decreases true, b, 2
  {
    && Matched(b.items, o.items, t.items, p.sides, strip)
    && (Clashing(o.items, t.items, p.sides) ||
      (Drops(b, o, t, p, strip) && WellPlaced(p) && Shares(p) && Constrained(p) && !MergeOrder.Acyclic(p.edges)))
  }

  ghost predicate Clashing(o: seq<Json>, t: seq<Json>, sides: Pairing) {
    |o| == |sides.oursIds| && |t| == |sides.theirsIds| && Within(sides.om, |o|) && Within(sides.tm, |t|) &&
      Clash(o, t, sides)
  }

  /** The plan leaves out base items only: those that a side dropped, and of the others those given up on their own. */
  ghost predicate Drops(b: Json, o: Json, t: Json, p: Plan, strip: bool)
    requires b.Arr? && o.Arr? && t.Arr?
    decreases true, b, 1
  {
    && OnlyBase(p.omitted, |b.items|)
    && forall i: nat {:trigger Base(i)} :: i < |b.items| ==> DropsItem(b, o, t, p.sides, i, Base(i) in p.omitted, strip)
  }

  ghost predicate DropsItem(b: Json, o: Json, t: Json, sides: Pairing, i: nat, dropped: bool, strip: bool)
    requires b.Arr? && o.Arr? && t.Arr? && i < |b.items|
    decreases true, b, 0
  {
    var ours, theirs := Paired(o, sides.om, i), Paired(t, sides.tm, i);
    if ours.None? || theirs.None? then dropped else dropped <==> GivenUp(Some(b.items[i]), ours, theirs, strip)
  }

  // ----- Where it lies

  datatype Versions = Versions(base: Option<Json>, ours: Option<Json>, theirs: Option<Json>)

  // ----- Where it does not give up

  lemma {:induction false} SettledIsNotGivenUp(v: Versions, strip: bool)
    requires Settled(v.base, v.ours, v.theirs, strip)
    ensures !GivenUp(v.base, v.ours, v.theirs, strip)
  {
  }

  lemma {:induction false} ObjectsAreNotGivenUp(b: Json, o: Json, t: Json, strip: bool)
    requires b.Obj? && o.Obj? && t.Obj?
    ensures !GivenUp(Some(b), Some(o), Some(t), strip)
  {
  }

  lemma {:induction false} ArraysAreNotGivenUp(b: Json, o: Json, t: Json, strip: bool)
    requires b.Arr? && o.Arr? && t.Arr? && forall p: Plan :: !Blocked(b, o, t, p, strip)
    ensures !GivenUp(Some(b), Some(o), Some(t), strip)
  {
    assert !GivesUp(ConcurrentSequenceEdit, Some(b), Some(o), Some(t), strip);
  }

  // ----- Ways down

  /** The way down from the three documents, with the three versions of the value at each step. */
  datatype Trail = Start(root: Versions) | Down(above: Trail, segment: string, at: Versions) {
    function Here(): Versions { if Start? then root else at }

    function Root(): Versions { if Start? then root else above.Root() }

    function Path(): seq<string> { if Start? then [] else above.Path() + [segment] }

    predicate Strips() { KEY_VALUES !in Path() }
  }

  lemma {:induction false} PrintIsNoName(i: nat)
    ensures Decimal.Print(i) != KEY_VALUES
  {
    assert Decimal.IsDigit(Decimal.Print(i)[0]);
    assert KEY_VALUES[0] == 'k';
  }

  /** Into the same member of three objects. */
  ghost predicate IntoMember(v: Versions, key: string, w: Versions, strip: bool) {
    IsObj(v.base) && IsObj(v.ours) && IsObj(v.theirs) && Kept(key, strip) &&
    w == Versions(MemberOf(v.base.value, key), MemberOf(v.ours.value, key), MemberOf(v.theirs.value, key))
  }

  /** Into an item of the base array and what the two sides are paired to have made of it. */
  ghost predicate IntoItem(v: Versions, i: nat, w: Versions, sides: Pairing, strip: bool) {
    IsArr(v.base) && IsArr(v.ours) && IsArr(v.theirs) && i < |v.base.value.items| &&
    Matched(v.base.value.items, v.ours.value.items, v.theirs.value.items, sides, strip) &&
    w == Versions(Some(v.base.value.items[i]), Paired(v.ours.value, sides.om, i), Paired(v.theirs.value, sides.tm, i))
  }

  /** Into a member or an item. */
  ghost predicate Deeper(v: Versions, segment: string, w: Versions, strip: bool) {
    IntoMember(v, segment, w, strip) ||
    exists i: nat, sides: Pairing :: segment == Decimal.Print(i) && IntoItem(v, i, w, sides, strip)
  }

  /** A step down is taken where the versions are not settled as a whole. */
  ghost predicate Into(v: Versions, segment: string, w: Versions, strip: bool) {
    !Settled(v.base, v.ours, v.theirs, strip) && Deeper(v, segment, w, strip)
  }

  ghost predicate Leads(trail: Trail) {
    trail.Down? ==> Leads(trail.above) && Into(trail.above.Here(), trail.segment, trail.at, trail.above.Strips())
  }

  /** A conflict is recorded at the end of a way down from the three documents, and for a reason. */
  ghost predicate RecordedAt(c: Conflict, root: Versions, trail: Trail) {
    && Leads(trail) && trail.Root() == root
    && c.path == Pointer(trail.Path()) && trail.Here() == Versions(c.base, c.ours, c.theirs)
    && GivesUp(c.reason, c.base, c.ours, c.theirs, trail.Strips())
  }

  ghost predicate Recorded(c: Conflict, root: Versions) { exists trail: Trail :: RecordedAt(c, root, trail) }

  /** Somewhere on a way down from the three documents the merge has to give up. */
  ghost predicate GivesUpSomewhere(root: Versions) {
    exists trail: Trail ::
      Leads(trail) && trail.Root() == root &&
      GivenUp(trail.Here().base, trail.Here().ours, trail.Here().theirs, trail.Strips())
  }

  lemma {:induction false} RecordedSomewhere(c: Conflict, root: Versions)
    requires Recorded(c, root)
    ensures GivesUpSomewhere(root)
  {
    var trail: Trail :| RecordedAt(c, root, trail);
  }

  /** Conflicts are only ever added. */
  ghost predicate Grown(before: seq<Conflict>, now: seq<Conflict>, root: Versions) {
    before <= now && forall i :: |before| <= i < |now| ==> Recorded(now[i], root)
  }

  lemma {:induction false} OneRecorded(before: seq<Conflict>, c: Conflict, root: Versions, trail: Trail)
    requires RecordedAt(c, root, trail)
    ensures Grown(before, before + [c], root)
  {
  }

  /** A value that one side dropped and the other changed. */
  lemma {:induction false} DroppedAndChanged(b: Option<Json>, o: Option<Json>, t: Option<Json>, strip: bool)
    requires b.Some? && (o.None? || t.None?) && ((o.Some? && !Same(b, o, strip)) || (t.Some? && !Same(b, t, strip)))
    ensures GivesUp(DeleteEdit, b, o, t, strip)
  {
  }
}
