/** The three-way merge of exchange trees, without a conflict resolver. */
module AstMerge {
  import opened JsonTree
  import opened Fingerprints
  import opened MatchSides
  import opened MergeConflicts
  import opened MergeFindings
  import opened MergeExact
  import opened MergeOutcomes
  import opened MergeSpec
  import opened MergeUnique
  import opened SequencePlan
  import opened TextRuns
  import opened Ordering
  import opened Pointers
  import Decimal
  import opened Wrappers

  function ValueOf(fingerprints: Index, a: Option<Address>): Option<Json>
    requires a.Some? ==> Known(fingerprints.roots, a.value)
  {
    match a
    case None => None
    case Some(at) => Some(fingerprints.At(at))
  }

  /** The three versions of a value. */
  function VersionsOf(fingerprints: Index, base: Option<Address>, ours: Option<Address>,
      theirs: Option<Address>): Versions
    requires base.Some? ==> Known(fingerprints.roots, base.value)
    requires ours.Some? ==> Known(fingerprints.roots, ours.value)
    requires theirs.Some? ==> Known(fingerprints.roots, theirs.value)
  {
    Versions(ValueOf(fingerprints, base), ValueOf(fingerprints, ours), ValueOf(fingerprints, theirs))
  }

  ghost predicate HasAll(fingerprints: Index, base: Option<Address>, ours: Option<Address>, theirs: Option<Address>,
      strip: bool) {
    && fingerprints.Sound()
    && (base.Some? ==> fingerprints.Has(base.value, strip))
    && (ours.Some? ==> fingerprints.Has(ours.value, strip))
    && (theirs.Some? ==> fingerprints.Has(theirs.value, strip))
  }

  predicate SameAt(fingerprints: Index, a: Option<Address>, b: Option<Address>, strip: bool)
    requires a.Some? ==> fingerprints.Has(a.value, strip)
    requires b.Some? ==> fingerprints.Has(b.value, strip)
  {
    match (a, b)
    case (Some(x), Some(y)) => fingerprints.Same(x, y, strip)
    case (None, None) => true
    case _ => false
  }

  lemma {:induction false} SameAtIsSame(fingerprints: Index, a: Option<Address>, b: Option<Address>, strip: bool)
    requires fingerprints.Sound()
    requires a.Some? ==> fingerprints.Has(a.value, strip)
    requires b.Some? ==> fingerprints.Has(b.value, strip)
    ensures SameAt(fingerprints, a, b, strip) <==> Same(ValueOf(fingerprints, a), ValueOf(fingerprints, b), strip)
  {
    if a.Some? && b.Some? { fingerprints.SameMeansSameCleanForm(a.value, b.value, strip); }
  }

  lemma {:induction false} OneDown(path: seq<string>, segment: string)
    ensures (path + [segment])[..|path|] == path
    ensures KEY_VALUES in path + [segment] <==> KEY_VALUES in path || segment == KEY_VALUES
  {
  }

  /** The path the merge is at and the conflicts it has met. */
  class Merger {
    var segments: seq<string>
    var stripMetadata: bool
    var conflicts: seq<Conflict>
    ghost var trail: Trail

    ghost predicate Valid()
      reads this
    {
      segments == trail.Path() && Leads(trail) && (stripMetadata <==> trail.Strips())
    }

    /** The versions of the value the merge is at. */
    ghost predicate At(b: Option<Json>, o: Option<Json>, t: Option<Json>)
      reads this
    {
      Valid() && trail.Here() == Versions(b, o, t)
    }

    /** Neither version of the value will do. */
    ghost predicate AtUnsettled(b: Json, o: Json, t: Json)
      reads this
    {
      At(Some(b), Some(o), Some(t)) && !Settled(Some(b), Some(o), Some(t), stripMetadata)
    }

    constructor (ghost root: Versions)
      ensures At(root.base, root.ours, root.theirs) && stripMetadata && conflicts == [] && trail == Start(root)
    {
      segments, stripMetadata, conflicts := [], true, [];
      trail := Start(root);
    }

    method RecordConflict(reason: Reason, base: Option<Json>, ours: Option<Json>, theirs: Option<Json>)
        returns (r: Option<Json>)
      requires At(base, ours, theirs) && GivesUp(reason, base, ours, theirs, stripMetadata)
      modifies this`conflicts
      ensures r == None && conflicts == old(conflicts) + [Conflict(Pointer(segments), reason, base, ours, theirs)]
      ensures Grown(old(conflicts), conflicts, trail.Root())
      ensures forall c: Conflict {:trigger RecordedAt(c, trail.Root(), trail)} ::
        RecordedAt(c, trail.Root(), trail) ==> c in conflicts
      ensures reason != ConcurrentSequenceEdit ==> AllFound(trail, conflicts)
    {
      var path := WritePointer(segments);
      ghost var c := Conflict(path, reason, base, ours, theirs);
      OneFound(trail, conflicts, c);
      conflicts := conflicts + [Conflict(path, reason, base, ours, theirs)];
      r := None;
    }

    /** A paragraph that one side at most rewrote beyond wrapping its lines. */
    method MergeText(base: seq<Json>, ours: seq<Json>, theirs: seq<Json>) returns (r: Option<Json>)
      ensures var all := Joins(base) && Joins(ours) && Joins(theirs);
        r == if all && SameText(ours, theirs) then Some(Arr(ours))
             else if all && SameText(ours, base) then Some(Arr(theirs))
             else if all && SameText(theirs, base) then Some(Arr(ours))
             else None
    {
      var baseRun := MergedTextRun(base);
      var oursRun := MergedTextRun(ours);
      var theirsRun := MergedTextRun(theirs);
      if baseRun.None? || oursRun.None? || theirsRun.None? { return None; }
      var b, o, t := Clean(baseRun.value, true), Clean(oursRun.value, true), Clean(theirsRun.value, true);
      if JsonEqual(o, t) { return Some(Arr(ours)); }
      if JsonEqual(o, b) { return Some(Arr(theirs)); }
      if JsonEqual(t, b) { return Some(Arr(ours)); }
      return None;
    }

    /** The merge of a value, by cases on its three versions. */
    method MergeValue(base: Option<Address>, ours: Option<Address>, theirs: Option<Address>, fingerprints: Index)
        returns (r: Option<Json>)
      requires HasAll(fingerprints, base, ours, theirs, stripMetadata)
      requires Valid() && trail.Here() == VersionsOf(fingerprints, base, ours, theirs)
      modifies this
      ensures segments == old(segments) && stripMetadata == old(stripMetadata) && trail == old(trail)
      ensures Grown(old(conflicts), conflicts, trail.Root())
      ensures Outcome(trail.Here(), r, |conflicts| == |old(conflicts)|, stripMetadata)
      ensures AllFound(trail, conflicts)
      ensures Settled(trail.Here().base, trail.Here().ours, trail.Here().theirs, stripMetadata) ==>
        |conflicts| == |old(conflicts)|
      decreases base.Some?, if base.Some? then fingerprints.At(base.value) else Null, 5
    {
      var found := MergeSettled(base, ours, theirs, fingerprints);
      if found.Some? {
        NoneAtSettled(trail, conflicts);
        return found.value;
      }
      var b, o, t := ValueOf(fingerprints, base), ValueOf(fingerprints, ours), ValueOf(fingerprints, theirs);
      if o.None? || t.None? {
        GivenUpOutcome(DeleteEdit, trail.Here(), stripMetadata);
        r := RecordConflict(DeleteEdit, b, o, t);
      } else if IsArr(b) && IsArr(o) && IsArr(t) {
        r := MergeSequence(base.value, ours.value, theirs.value, fingerprints);
      } else if IsObj(b) && IsObj(o) && IsObj(t) {
        r := MergeObject(base.value, ours.value, theirs.value, fingerprints);
      } else {
        GivenUpOutcome(BothChanged, trail.Here(), stripMetadata);
        r := RecordConflict(BothChanged, b, o, t);
      }
    }

    /** The version to take where two of the three agree. */
    method MergeSettled(base: Option<Address>, ours: Option<Address>, theirs: Option<Address>, fingerprints: Index)
        returns (r: Option<Option<Json>>)
      requires HasAll(fingerprints, base, ours, theirs, stripMetadata)
      ensures var v := VersionsOf(fingerprints, base, ours, theirs);
        && (r.Some? <==> Settled(v.base, v.ours, v.theirs, stripMetadata))
        && (r.Some? ==> Outcome(v, r.value, true, stripMetadata))
    {
      var b, o, t := ValueOf(fingerprints, base), ValueOf(fingerprints, ours), ValueOf(fingerprints, theirs);
      SameAtIsSame(fingerprints, ours, theirs, stripMetadata);
      SameAtIsSame(fingerprints, ours, base, stripMetadata);
      SameAtIsSame(fingerprints, theirs, base, stripMetadata);
      r := TakeSettled(b, o, t, SameAt(fingerprints, ours, theirs, stripMetadata),
        SameAt(fingerprints, ours, base, stripMetadata), SameAt(fingerprints, theirs, base, stripMetadata));
    }

    /** The same, given which of the three agree. */
    method TakeSettled(b: Option<Json>, o: Option<Json>, t: Option<Json>, bothAlike: bool, oursUnchanged: bool,
        theirsUnchanged: bool)
      returns (r: Option<Option<Json>>)
      requires bothAlike == Same(o, t, stripMetadata) && oursUnchanged == Same(o, b, stripMetadata) &&
        theirsUnchanged == Same(t, b, stripMetadata)
      ensures r.Some? <==> Settled(b, o, t, stripMetadata)
      ensures r.Some? ==> Outcome(Versions(b, o, t), r.value, true, stripMetadata)
    {
      r := None;
      if stripMetadata && IsArr(b) && IsArr(o) && IsArr(t) {
        var joined := MergeText(b.value.items, o.value.items, t.value.items);
        if joined.Some? { r := Some(joined); }
      }
      if r.None? {
        if bothAlike {
          r := Some(o);
        } else if oursUnchanged {
          r := Some(t);
        } else if theirsUnchanged {
          r := Some(o);
        }
      }
      if r.Some? { SettledOutcome(Versions(b, o, t), r.value, stripMetadata); }
    }

    method MergeObject(base: Address, ours: Address, theirs: Address, fingerprints: Index) returns (r: Option<Json>)
      requires HasAll(fingerprints, Some(base), Some(ours), Some(theirs), stripMetadata)
      requires AtUnsettled(fingerprints.At(base), fingerprints.At(ours), fingerprints.At(theirs))
      requires fingerprints.At(base).Obj? && fingerprints.At(ours).Obj? && fingerprints.At(theirs).Obj?
      modifies this
      ensures segments == old(segments) && stripMetadata == old(stripMetadata) && trail == old(trail)
      ensures Grown(old(conflicts), conflicts, trail.Root())
      ensures Outcome(trail.Here(), r, |conflicts| == |old(conflicts)|, stripMetadata)
      ensures AllFound(trail, conflicts)
      decreases true, fingerprints.At(base), 4
    {
      ghost var b, o, t := fingerprints.At(base), fingerprints.At(ours), fingerprints.At(theirs);
      var keys := SortedKeys(fingerprints.At(base).fields.Keys + fingerprints.At(ours).fields.Keys +
        fingerprints.At(theirs).fields.Keys);
      var out: map<string, Json> := map[];
      for i := 0 to |keys|
        invariant segments == old(segments) && stripMetadata == old(stripMetadata) && trail == old(trail)
        invariant Grown(old(conflicts), conflicts, trail.Root())
        invariant MembersOutcome(b, o, t, out, |conflicts| == |old(conflicts)|, stripMetadata, keys, i)
        invariant MembersFound(trail, b, o, t, keys, i, conflicts)
      {
        ghost var quiet, before := |conflicts| == |old(conflicts)|, conflicts;
        var more, still := MergeMemberInto(base, ours, theirs, fingerprints, keys, i, out, quiet);
        OneMoreMemberFound(trail, b, o, t, keys, i, before, conflicts);
        out := more;
      }
      ObjectFound(trail, b, o, t, keys, conflicts);
      if |conflicts| == |old(conflicts)| { AllMembersMerged(b, o, t, out, stripMetadata, keys); }
      ObjectOutcome(b, o, t, Obj(out), |conflicts| == |old(conflicts)|, stripMetadata);
      return Some(Obj(out));
    }

    /** Merges one member and puts what it gives, if anything, into the result. */
    method MergeMemberInto(base: Address, ours: Address, theirs: Address, fingerprints: Index, keys: seq<string>,
        i: nat, out: map<string, Json>, ghost wasQuiet: bool)
      returns (more: map<string, Json>, ghost quiet: bool)
      requires HasAll(fingerprints, Some(base), Some(ours), Some(theirs), stripMetadata)
      requires AtUnsettled(fingerprints.At(base), fingerprints.At(ours), fingerprints.At(theirs))
      requires i < |keys| && forall j, k :: 0 <= j < k < |keys| ==> keys[j] != keys[k]
      requires MembersOutcome(fingerprints.At(base), fingerprints.At(ours), fingerprints.At(theirs), out, wasQuiet,
        stripMetadata, keys, i)
      modifies this
      ensures segments == old(segments) && stripMetadata == old(stripMetadata) && trail == old(trail)
      ensures Grown(old(conflicts), conflicts, trail.Root()) && quiet == (wasQuiet && |conflicts| == |old(conflicts)|)
      ensures MembersOutcome(fingerprints.At(base), fingerprints.At(ours), fingerprints.At(theirs), more, quiet,
        stripMetadata, keys, i + 1)
      ensures MemberFound(trail, fingerprints.At(base), fingerprints.At(ours), fingerprints.At(theirs), keys[i],
        conflicts)
      decreases true, fingerprints.At(base), 3
    {
      var merged := None;
      if Kept(keys[i], stripMetadata) { merged := MergeMember(base, ours, theirs, keys[i], fingerprints); }
      more := if merged.Some? then out[keys[i] := merged.value] else out;
      quiet := wasQuiet && |conflicts| == |old(conflicts)|;
      MembersGoOn(fingerprints.At(base), fingerprints.At(ours), fingerprints.At(theirs), out, more, wasQuiet,
        |conflicts| == |old(conflicts)|, stripMetadata, keys, i, merged);
    }

    method MergeMember(base: Address, ours: Address, theirs: Address, key: string, fingerprints: Index)
        returns (merged: Option<Json>)
      requires HasAll(fingerprints, Some(base), Some(ours), Some(theirs), stripMetadata)
      requires AtUnsettled(fingerprints.At(base), fingerprints.At(ours), fingerprints.At(theirs))
      requires fingerprints.At(base).Obj? && fingerprints.At(ours).Obj? && fingerprints.At(theirs).Obj? &&
        Kept(key, stripMetadata)
      modifies this
      ensures segments == old(segments) && stripMetadata == old(stripMetadata) && trail == old(trail)
      ensures Grown(old(conflicts), conflicts, trail.Root())
      ensures Outcome(MemberVersions(fingerprints.At(base), fingerprints.At(ours), fingerprints.At(theirs), key),
        merged, |conflicts| == |old(conflicts)|, StripBelow(key, stripMetadata))
      ensures MemberFound(trail, fingerprints.At(base), fingerprints.At(ours), fingerprints.At(theirs), key, conflicts)
      decreases true, fingerprints.At(base), 2
    {
      var strip := stripMetadata;
      ghost var w := MemberVersions(fingerprints.At(base), fingerprints.At(ours), fingerprints.At(theirs), key);
      assert IntoMember(trail.Here(), key, w, strip);
      merged := MergeBelow(MemberAddress(base, key, fingerprints, strip), MemberAddress(ours, key, fingerprints, strip),
        MemberAddress(theirs, key, fingerprints, strip), key, fingerprints, w);
    }

    /** Merges one level down the path. */
    method MergeBelow(base: Option<Address>, ours: Option<Address>, theirs: Option<Address>, segment: string,
        fingerprints: Index, ghost w: Versions)
      returns (merged: Option<Json>)
      requires Valid() && HasAll(fingerprints, base, ours, theirs, StripBelow(segment, stripMetadata)) &&
        w == VersionsOf(fingerprints, base, ours, theirs)
      requires Into(trail.Here(), segment, w, stripMetadata)
      modifies this
      ensures segments == old(segments) && stripMetadata == old(stripMetadata) && trail == old(trail)
      ensures Grown(old(conflicts), conflicts, trail.Root())
      ensures Outcome(w, merged, |conflicts| == |old(conflicts)|, StripBelow(segment, stripMetadata))
      ensures AllFound(Down(trail, segment, w), conflicts)
      decreases base.Some?, if base.Some? then fingerprints.At(base.value) else Null, 6
    {
      var strip, path := stripMetadata, segments;
      ghost var above := trail;
      segments, stripMetadata := segments + [segment], StripBelow(segment, strip);
      trail := Down(above, segment, w);
      assert KEY_VALUES in segments <==> KEY_VALUES in path || segment == KEY_VALUES;
      merged := MergeValue(base, ours, theirs, fingerprints);
      stripMetadata, segments := strip, segments[..|segments| - 1];
      trail := above;
      assert segments == path;
    }

    /** A conflict one level down the path. */
    method RecordBelow(segment: string, reason: Reason, base: Option<Json>, ours: Option<Json>, theirs: Option<Json>)
      requires Valid() && segment != KEY_VALUES && GivesUp(reason, base, ours, theirs, stripMetadata)
      requires Into(trail.Here(), segment, Versions(base, ours, theirs), stripMetadata)
      modifies this
      ensures segments == old(segments) && stripMetadata == old(stripMetadata) && trail == old(trail)
      ensures Grown(old(conflicts), conflicts, trail.Root()) && |conflicts| == |old(conflicts)| + 1
      ensures reason != ConcurrentSequenceEdit ==>
        AllFound(Down(trail, segment, Versions(base, ours, theirs)), conflicts)
    {
      var path := segments;
      ghost var above := trail;
      OneDown(path, segment);
      segments := segments + [segment];
      trail := Down(above, segment, Versions(base, ours, theirs));
      var _ := RecordConflict(reason, base, ours, theirs);
      segments := segments[..|segments| - 1];
      trail := above;
    }

    /** What a base item ends with, if it survives. */
    method MergeBaseItem(base: Address, ours: Address, theirs: Address, sides: Pairing, i: nat, fingerprints: Index,
        ghost b: Json, ghost o: Json, ghost t: Json) returns (r: Option<Json>)
      requires HasAll(fingerprints, Some(base), Some(ours), Some(theirs), stripMetadata)
      requires b == fingerprints.At(base) && o == fingerprints.At(ours) && t == fingerprints.At(theirs)
      requires AtUnsettled(b, o, t) && b.Arr? && o.Arr? && t.Arr? && i < |b.items| &&
        Matched(b.items, o.items, t.items, sides, stripMetadata)
      modifies this
      ensures segments == old(segments) && stripMetadata == old(stripMetadata) && trail == old(trail)
      ensures Grown(old(conflicts), conflicts, trail.Root())
      ensures ItemOutcome(b, o, t, sides, i, r, |conflicts| == |old(conflicts)|, stripMetadata)
      ensures ItemFound(trail, b, o, t, sides, i, conflicts)
      decreases true, b, 0
    {
      var strip := stripMetadata;
      PrintIsNoName(i);
      var item := ItemAddress(base, i, fingerprints, strip);
      var our := PairedAddress(ours, sides.om, i, fingerprints, strip);
      var their := PairedAddress(theirs, sides.tm, i, fingerprints, strip);
      ghost var v := ItemVersions(b, o, t, sides, i);
      assert IntoItem(trail.Here(), i, v, sides, strip);
      if our.Some? && their.Some? {
        r := MergeBelow(item, our, their, Decimal.Print(i), fingerprints, v);
        MergedItem(b, o, t, sides, i, r, |conflicts| == |old(conflicts)|, strip);
      } else {
        r := None;
        DropItem(item, our, their, i, fingerprints, v);
        DroppedItem(b, o, t, sides, i, |conflicts| == |old(conflicts)|, strip);
      }
    }

    /** A base item that a side dropped is dropped; it is a conflict exactly if the other side changed it. */
    method DropItem(base: Option<Address>, ours: Option<Address>, theirs: Option<Address>, i: nat, fingerprints: Index,
        ghost v: Versions)
      requires Valid() && HasAll(fingerprints, base, ours, theirs, stripMetadata) &&
        v == VersionsOf(fingerprints, base, ours, theirs)
      requires base.Some? && (ours.None? || theirs.None?) && Into(trail.Here(), Decimal.Print(i), v, stripMetadata)
      modifies this
      ensures segments == old(segments) && stripMetadata == old(stripMetadata) && trail == old(trail)
      ensures Grown(old(conflicts), conflicts, trail.Root())
      ensures |conflicts| == |old(conflicts)| + if LeftAlone(v, stripMetadata) then 0 else 1
      ensures AllFound(Down(trail, Decimal.Print(i), v), conflicts)
    {
      var b, o, t := ValueOf(fingerprints, base), ValueOf(fingerprints, ours), ValueOf(fingerprints, theirs);
      SameAtIsSame(fingerprints, base, ours, stripMetadata);
      SameAtIsSame(fingerprints, base, theirs, stripMetadata);
      PrintIsNoName(i);
      if (ours.Some? && !SameAt(fingerprints, base, ours, stripMetadata)) ||
        (theirs.Some? && !SameAt(fingerprints, base, theirs, stripMetadata)) {
        DroppedAndChanged(b, o, t, stripMetadata);
        RecordBelow(Decimal.Print(i), DeleteEdit, b, o, t);
      } else {
        LeftAloneIsSettled(v, stripMetadata);
        NoneAtSettled(Down(trail, Decimal.Print(i), v), conflicts);
      }
    }

    /** The values of the base items that survive, and the tokens of the others. */
    method MergeBaseItems(base: Address, ours: Address, theirs: Address, sides: Pairing, fingerprints: Index,
        ghost b: Json, ghost o: Json, ghost t: Json)
      returns (values: map<Token, Json>, omitted: set<Token>)
      requires HasAll(fingerprints, Some(base), Some(ours), Some(theirs), stripMetadata)
      requires b == fingerprints.At(base) && o == fingerprints.At(ours) && t == fingerprints.At(theirs)
      requires AtUnsettled(b, o, t) && b.Arr? && o.Arr? && t.Arr? &&
        Matched(b.items, o.items, t.items, sides, stripMetadata)
      modifies this
      ensures segments == old(segments) && stripMetadata == old(stripMetadata) && trail == old(trail)
      ensures Grown(old(conflicts), conflicts, trail.Root())
      ensures ItemsOutcome(b, o, t, sides, values, omitted, |conflicts| == |old(conflicts)|, stripMetadata, |b.items|)
      ensures ItemsFound(trail, b, o, t, sides, |b.items|, conflicts)
      decreases true, b, 1
    {
      values, omitted := map[], {};
      NoItems(b, o, t, sides, true, stripMetadata);
      for i := 0 to |fingerprints.At(base).items|
        invariant segments == old(segments) && stripMetadata == old(stripMetadata) && trail == old(trail)
        invariant Grown(old(conflicts), conflicts, trail.Root())
        invariant ItemsOutcome(b, o, t, sides, values, omitted, |conflicts| == |old(conflicts)|, stripMetadata, i)
        invariant ItemsFound(trail, b, o, t, sides, i, conflicts)
      {
        ghost var before := conflicts;
        var merged := MergeBaseItem(base, ours, theirs, sides, i, fingerprints, b, o, t);
        ItemsGoOn(b, o, t, sides, values, omitted, |before| == |old(conflicts)|, |conflicts| == |before|, stripMetadata,
          i, merged);
        OneMoreItemFound(trail, b, o, t, sides, i, before, conflicts);
        values, omitted := WithValue(values, i, merged), WithOmitted(omitted, i, merged);
      }
    }

    method MergeSequence(base: Address, ours: Address, theirs: Address, fingerprints: Index) returns (r: Option<Json>)
      requires HasAll(fingerprints, Some(base), Some(ours), Some(theirs), stripMetadata)
      requires AtUnsettled(fingerprints.At(base), fingerprints.At(ours), fingerprints.At(theirs))
      requires fingerprints.At(base).Arr? && fingerprints.At(ours).Arr? && fingerprints.At(theirs).Arr?
      modifies this
      ensures segments == old(segments) && stripMetadata == old(stripMetadata) && trail == old(trail)
      ensures Grown(old(conflicts), conflicts, trail.Root())
      ensures Outcome(trail.Here(), r, |conflicts| == |old(conflicts)|, stripMetadata)
      ensures AllFound(trail, conflicts)
      decreases true, fingerprints.At(base), 2
    {
      var b, o, t := fingerprints.At(base), fingerprints.At(ours), fingerprints.At(theirs);
      var sides := PairSides(base, ours, theirs, fingerprints, stripMetadata);
      var values, omitted := MergeBaseItems(base, ours, theirs, sides, fingerprints, b, o, t);
      ghost var quiet := |conflicts| == |old(conflicts)|;
      r := FinishSequence(b, o, t, sides, values, omitted, quiet);
    }

    /** Puts the items in order, or reports that the two sides' changes of the sequence cannot be reconciled. */
    method FinishSequence(b: Json, o: Json, t: Json, sides: Pairing, values: map<Token, Json>, omitted: set<Token>,
        ghost quiet: bool) returns (r: Option<Json>)
      requires AtUnsettled(b, o, t) && b.Arr? && o.Arr? && t.Arr? &&
        Matched(b.items, o.items, t.items, sides, stripMetadata)
      requires ItemsOutcome(b, o, t, sides, values, omitted, quiet, stripMetadata, |b.items|)
      requires ItemsFound(trail, b, o, t, sides, |b.items|, conflicts)
      modifies this`conflicts
      ensures Grown(old(conflicts), conflicts, trail.Root()) && AllFound(trail, conflicts)
      ensures Outcome(trail.Here(), r, quiet && |conflicts| == |old(conflicts)|, stripMetadata)
    {
      var items := JoinItems(b, o, t, sides, values, omitted, quiet, stripMetadata);
      if items.None? {
        GivenUpOutcome(ConcurrentSequenceEdit, trail.Here(), stripMetadata);
        ghost var before := conflicts;
        r := RecordConflict(ConcurrentSequenceEdit, Some(b), Some(o), Some(t));
        ItemsStillFound(trail, b, o, t, sides, |b.items|, before, conflicts);
      } else {
        r := Some(Arr(items.value));
        NoneOfItsOwn(trail);
      }
      SequenceFound(trail, b, o, t, sides, conflicts);
    }
  }

  /** The ids of an array's items. */
  function ItemIds(a: Address, fingerprints: Index, strip: bool): (r: seq<nat>)
    requires fingerprints.Sound() && fingerprints.Has(a, strip) && fingerprints.At(a).Arr?
    ensures |r| == |fingerprints.At(a).items|
  {
    seq(|fingerprints.At(a).items|, i requires 0 <= i < |fingerprints.At(a).items| =>
      fingerprints.HasItem(a, strip, i); fingerprints.ids[(Address.At(a, Item(i)), strip)])
  }

  lemma {:induction false} IdsTellApart(a: Address, c: Address, fingerprints: Index, strip: bool)
    requires fingerprints.Sound() && fingerprints.Has(a, strip) && fingerprints.At(a).Arr? &&
      fingerprints.Has(c, strip) && fingerprints.At(c).Arr?
    ensures TellApart(fingerprints.At(a).items, ItemIds(a, fingerprints, strip), fingerprints.At(c).items,
      ItemIds(c, fingerprints, strip), strip)
  {
    var xs, ys := fingerprints.At(a).items, fingerprints.At(c).items;
    var xIds, yIds := ItemIds(a, fingerprints, strip), ItemIds(c, fingerprints, strip);
    forall i, j | 0 <= i < |xs| && 0 <= j < |ys| ensures xIds[i] == yIds[j] <==> Same(Some(xs[i]), Some(ys[j]), strip) {
      fingerprints.HasItem(a, strip, i);
      fingerprints.HasItem(c, strip, j);
      fingerprints.SameMeansSameCleanForm(Address.At(a, Item(i)), Address.At(c, Item(j)), strip);
    }
  }

  method PairSides(base: Address, ours: Address, theirs: Address, fingerprints: Index, strip: bool)
      returns (sides: Pairing)
    requires HasAll(fingerprints, Some(base), Some(ours), Some(theirs), strip)
    requires fingerprints.At(base).Arr? && fingerprints.At(ours).Arr? && fingerprints.At(theirs).Arr?
    ensures Matched(fingerprints.At(base).items, fingerprints.At(ours).items, fingerprints.At(theirs).items, sides,
      strip)
  {
    var baseIds, oursIds, theirsIds := ItemIds(base, fingerprints, strip), ItemIds(ours, fingerprints, strip),
      ItemIds(theirs, fingerprints, strip);
    IdsTellApart(base, ours, fingerprints, strip);
    IdsTellApart(base, theirs, fingerprints, strip);
    IdsTellApart(ours, theirs, fingerprints, strip);
    var om, oursPasses := MatchSide(fingerprints.At(base).items, fingerprints.At(ours).items, baseIds, oursIds);
    var tm, theirsPasses := MatchSide(fingerprints.At(base).items, fingerprints.At(theirs).items, baseIds, theirsIds);
    sides := Pairing(baseIds, oursIds, theirsIds, om, tm, oursPasses, theirsPasses);
    ghost var b, o, t := fingerprints.At(base).items, fingerprints.At(ours).items, fingerprints.At(theirs).items;
    assert MatchedOn(OurSide, b, o, t, sides, strip) && MatchedOn(TheirSide, b, o, t, sides, strip);
  }

  /** The items in order, unless additions clash or the constraints have a cycle. */
  method JoinItems(b: Json, o: Json, t: Json, sides: Pairing, values: map<Token, Json>, omitted: set<Token>,
      ghost quiet: bool, ghost strip: bool)
    returns (items: Option<seq<Json>>)
    requires b.Arr? && o.Arr? && t.Arr? && Matched(b.items, o.items, t.items, sides, strip) &&
      !Settled(Some(b), Some(o), Some(t), strip)
    requires ItemsOutcome(b, o, t, sides, values, omitted, quiet, strip, |b.items|)
    ensures items.Some? ==> Outcome(Versions(Some(b), Some(o), Some(t)), Some(Arr(items.value)), quiet, strip)
    ensures items.None? ==> GivesUp(ConcurrentSequenceEdit, Some(b), Some(o), Some(t), strip)
  {
    ghost var p;
    ItemsAreDecided(b, o, t, sides, values, omitted, quiet, strip);
    items, p := PutTogether(o.items, t.items, sides, omitted, values);
    assert items.Some? ==> Outcome(Versions(Some(b), Some(o), Some(t)), Some(Arr(items.value)), quiet, strip) by {
      if items.Some? { PutTogetherOutcome(b, o, t, values, omitted, p, quiet, strip); }
    }
    if items.None? { BlockedGivesUp(b, o, t, values, omitted, p, quiet, strip); }
  }

  function ItemAddress(a: Address, i: nat, fingerprints: Index, strip: bool): (r: Option<Address>)
    requires fingerprints.Sound() && fingerprints.Has(a, strip) && fingerprints.At(a).Arr?
    ensures r.Some? <==> i < |fingerprints.At(a).items|
    ensures r.Some? ==> fingerprints.Has(r.value, strip) && fingerprints.At(r.value) == fingerprints.At(a).items[i]
  {
    if i < |fingerprints.At(a).items| then
      fingerprints.HasItem(a, strip, i);
      Some(Address.At(a, Item(i)))
    else None
  }

  /** The address of what a side has made of a base item. */
  function PairedAddress(a: Address, m: SideMatch, i: nat, fingerprints: Index, strip: bool): (r: Option<Address>)
    requires fingerprints.Sound() && fingerprints.Has(a, strip) && fingerprints.At(a).Arr?
    ensures r.Some? ==> fingerprints.Has(r.value, strip)
    ensures ValueOf(fingerprints, r) == Paired(fingerprints.At(a), m, i)
  {
    if i in m.baseToSide then ItemAddress(a, m.baseToSide[i], fingerprints, strip) else None
  }

  /** The address of a member, if there is one. */
  function MemberAddress(a: Address, key: string, fingerprints: Index, strip: bool): (r: Option<Address>)
    requires fingerprints.Sound() && fingerprints.Has(a, strip) && fingerprints.At(a).Obj? && Kept(key, strip)
    ensures r.Some? ==> fingerprints.Has(r.value, StripBelow(key, strip))
    ensures ValueOf(fingerprints, r) == MemberOf(fingerprints.At(a), key)
  {
    if key in fingerprints.At(a).fields then
      fingerprints.HasField(a, strip, key);
      Some(Address.At(a, Field(key)))
    else None
  }

  // ----- Documents

  datatype MergeResult = Merged(document: Json) | Conflicts(conflicts: seq<Conflict>)

  /** A merged document carries no source positions. */
  function Stamp(v: Json): Json {
    match Clean(v, true)
    case Obj(fields) => Obj(fields["srcByteLength" := Num(Int(0))])
    case other => other
  }

  ghost predicate MergedFrom(base: Json, ours: Json, theirs: Json, document: Json) {
    exists r :: Merges(Some(base), Some(ours), Some(theirs), Some(r), true) && document == Stamp(r)
  }

  method IndexAll(base: Json, ours: Json, theirs: Json) returns (fingerprints: Index)
    ensures fingerprints.roots == [base, ours, theirs]
    ensures HasAll(fingerprints, Some(Root(0)), Some(Root(1)), Some(Root(2)), true)
  {
    var table := new Fingerprints(true, true);
    table.Add(base);
    table.Add(ours);
    table.Add(theirs);
    table.SharedIsSound();
    fingerprints := table.Shared();
    assert forall r :: 0 <= r < 3 ==> (Root(r), true) in table.ids;
  }

  /**
   * There is a merge if and only if nowhere on a way down from the three documents the merge has to give up, and then
   * it is the only one as specified. Otherwise the conflicts are exactly the places where it has to.
   */
  method MergeAst(base: Json, ours: Json, theirs: Json) returns (result: MergeResult)
    ensures result.Merged? ==> MergedFrom(base, ours, theirs, result.document)
    ensures result.Merged? ==>
      forall document :: MergedFrom(base, ours, theirs, document) ==> document == result.document
    ensures var root := Versions(Some(base), Some(ours), Some(theirs));
      result.Conflicts? ==>
        result.conflicts != [] && forall c: Conflict :: c in result.conflicts <==> Recorded(c, root)
    ensures result.Merged? <==> !GivesUpSomewhere(Versions(Some(base), Some(ours), Some(theirs)))
    ensures Settled(Some(base), Some(ours), Some(theirs), true) ==> result.Merged?
  {
    ghost var root := Versions(Some(base), Some(ours), Some(theirs));
    var fingerprints := IndexAll(base, ours, theirs);
    var merger := new Merger(root);
    var merged := merger.MergeValue(Some(Root(0)), Some(Root(1)), Some(Root(2)), fingerprints);
    if merger.conflicts == [] {
      MergesIsPresent(Some(base), Some(ours), Some(theirs), merged, true);
      MergedGivesUpNowhere(root, merged);
      forall r: Json | Merges(Some(base), Some(ours), Some(theirs), Some(r), true) ensures Some(r) == merged {
        MergesIsOne(Some(base), Some(ours), Some(theirs), Some(r), merged, true);
      }
      result := Merged(Stamp(merged.value));
    } else {
      result := Conflicts(merger.conflicts);
      RecordedSomewhere(result.conflicts[0], root);
      RecordedAreFound(root, merger.conflicts);
    }
  }
}
