/** That the merge finds every conflict there is, on every way down from the three documents. */
module MergeFindings {
  import opened JsonTree
  import opened MergeConflicts
  import opened MergeOutcomes
  import opened PlanDecided
  import opened SequencePlan
  import opened Pointers
  import Decimal
  import opened Wrappers

  /** A way that goes on from `trail`, or stays there. */
  ghost predicate Under(x: Trail, trail: Trail) { x == trail || (x.Down? && Under(x.above, trail)) }

  /** Every conflict there is at `trail` or on a way down from it has been found. */
  ghost predicate AllFound(trail: Trail, found: seq<Conflict>) {
    forall x: Trail, c: Conflict {:trigger Under(x, trail), RecordedAt(c, trail.Root(), x)} ::
      Under(x, trail) && RecordedAt(c, trail.Root(), x) ==> c in found
  }

  lemma {:induction false} StillFound(trail: Trail, found: seq<Conflict>, more: seq<Conflict>)
    requires AllFound(trail, found) && found <= more
    ensures AllFound(trail, more)
  {
    forall c | c in found ensures c in more {
      var i :| 0 <= i < |found| && found[i] == c;
      assert more[i] == c;
    }
  }

  lemma {:induction false} AboveLeads(x: Trail, trail: Trail)
    requires Leads(x) && Under(x, trail)
    ensures Leads(trail) && trail.Root() == x.Root()
  {
    if x != trail { AboveLeads(x.above, trail); }
  }

  /** A way that goes on takes a step. */
  lemma {:induction false} FirstStep(x: Trail, trail: Trail) returns (segment: string, w: Versions)
    requires Leads(x) && Under(x, trail) && x != trail
    ensures Under(x, Down(trail, segment, w)) && Into(trail.Here(), segment, w, trail.Strips())
  {
    if x.above == trail {
      segment, w := x.segment, x.at;
    } else {
      segment, w := FirstStep(x.above, trail);
    }
  }

  /** What was found at a place and behind every step from it is all. */
  ghost predicate StepFound(trail: Trail, found: seq<Conflict>, segment: string, w: Versions) {
    Into(trail.Here(), segment, w, trail.Strips()) ==> AllFound(Down(trail, segment, w), found)
  }

  lemma {:induction false} FoundByStep(trail: Trail, found: seq<Conflict>)
    requires forall c: Conflict {:trigger RecordedAt(c, trail.Root(), trail)} ::
      RecordedAt(c, trail.Root(), trail) ==> c in found
    requires forall segment: string, w: Versions {:trigger StepFound(trail, found, segment, w)} ::
      StepFound(trail, found, segment, w)
    ensures AllFound(trail, found)
  {
    forall x: Trail, c: Conflict | Under(x, trail) && RecordedAt(c, trail.Root(), x) ensures c in found {
      if x != trail {
        var segment, w := FirstStep(x, trail);
        assert StepFound(trail, found, segment, w);
        assert Down(trail, segment, w).Root() == trail.Root();
      }
    }
  }

  /** All that was found from the start is all there is. */
  lemma {:induction false} RecordedAreFound(root: Versions, found: seq<Conflict>)
    requires AllFound(Start(root), found) && forall i :: 0 <= i < |found| ==> Recorded(found[i], root)
    ensures forall c: Conflict :: c in found <==> Recorded(c, root)
  {
    forall c: Conflict | Recorded(c, root) ensures c in found {
      var x: Trail :| RecordedAt(c, root, x);
      FromTheStart(x);
      assert RecordedAt(c, Start(root).Root(), x);
    }
  }

  lemma {:induction false} FromTheStart(x: Trail)
    ensures Under(x, Start(x.Root()))
  {
    if x.Down? { FromTheStart(x.above); }
  }

  // ----- Where nothing goes deeper

  lemma {:induction false} CauseThere(c: Conflict, trail: Trail)
    requires RecordedAt(c, trail.Root(), trail)
    ensures GivesUp(c.reason, trail.Here().base, trail.Here().ours, trail.Here().theirs, trail.Strips())
    ensures trail.Here() == Versions(c.base, c.ours, c.theirs) && c.path == Pointer(trail.Path())
  {
  }

  /** Where the merge does not give up there is no conflict. */
  lemma {:induction false} NoneOfItsOwn(trail: Trail)
    requires !GivenUp(trail.Here().base, trail.Here().ours, trail.Here().theirs, trail.Strips())
    ensures forall c: Conflict {:trigger RecordedAt(c, trail.Root(), trail)} :: !RecordedAt(c, trail.Root(), trail)
  {
    forall c: Conflict ensures !RecordedAt(c, trail.Root(), trail) {
      if RecordedAt(c, trail.Root(), trail) { CauseThere(c, trail); }
    }
  }

  lemma {:induction false} NoneAtSettled(trail: Trail, found: seq<Conflict>)
    requires Settled(trail.Here().base, trail.Here().ours, trail.Here().theirs, trail.Strips())
    ensures AllFound(trail, found)
  {
    SettledIsNotGivenUp(trail.Here(), trail.Strips());
    NoneOfItsOwn(trail);
    forall segment: string, w: Versions ensures StepFound(trail, found, segment, w) {
      assert !Into(trail.Here(), segment, w, trail.Strips());
    }
    FoundByStep(trail, found);
  }

  lemma {:induction false} OneReason(a: Reason, c: Reason, v: Versions, strip: bool)
    requires GivesUp(a, v.base, v.ours, v.theirs, strip) && GivesUp(c, v.base, v.ours, v.theirs, strip)
    ensures a == c
  {
  }

  /** The conflict recorded at a place is the only one there. */
  lemma {:induction false} OnlyConflict(trail: Trail, found: seq<Conflict>, c: Conflict)
    requires c in found && RecordedAt(c, trail.Root(), trail)
    ensures forall d: Conflict {:trigger RecordedAt(d, trail.Root(), trail)} ::
      RecordedAt(d, trail.Root(), trail) ==> d in found
  {
    CauseThere(c, trail);
    forall d: Conflict | RecordedAt(d, trail.Root(), trail) ensures d == c {
      CauseThere(d, trail);
      OneReason(c.reason, d.reason, trail.Here(), trail.Strips());
    }
  }

  lemma {:induction false} NoStepFrom(reason: Reason, v: Versions, segment: string, w: Versions, strip: bool)
    requires GivesUp(reason, v.base, v.ours, v.theirs, strip) && reason != ConcurrentSequenceEdit
    ensures !Into(v, segment, w, strip)
  {
    assert !Deeper(v, segment, w, strip);
  }

  /** Nor is there one below, unless the versions are three objects or three arrays. */
  lemma {:induction false} FoundAtLeaf(trail: Trail, found: seq<Conflict>, c: Conflict)
    requires c in found && RecordedAt(c, trail.Root(), trail) && c.reason != ConcurrentSequenceEdit
    ensures AllFound(trail, found)
  {
    OnlyConflict(trail, found, c);
    CauseThere(c, trail);
    forall segment: string, w: Versions ensures StepFound(trail, found, segment, w) {
      NoStepFrom(c.reason, trail.Here(), segment, w, trail.Strips());
    }
    FoundByStep(trail, found);
  }

  lemma {:induction false} RecordedHere(trail: Trail, c: Conflict)
    requires Leads(trail) && c.path == Pointer(trail.Path()) && trail.Here() == Versions(c.base, c.ours, c.theirs)
    requires GivesUp(c.reason, c.base, c.ours, c.theirs, trail.Strips())
    ensures RecordedAt(c, trail.Root(), trail)
  {
  }

  /** One conflict more, at the place where the merge is. */
  lemma {:induction false} OneFound(trail: Trail, before: seq<Conflict>, c: Conflict)
    requires Leads(trail) && c.path == Pointer(trail.Path()) && trail.Here() == Versions(c.base, c.ours, c.theirs)
    requires GivesUp(c.reason, c.base, c.ours, c.theirs, trail.Strips())
    ensures Grown(before, before + [c], trail.Root())
    ensures forall d: Conflict {:trigger RecordedAt(d, trail.Root(), trail)} ::
      RecordedAt(d, trail.Root(), trail) ==> d in before + [c]
    ensures c.reason != ConcurrentSequenceEdit ==> AllFound(trail, before + [c])
  {
    RecordedHere(trail, c);
    OneRecorded(before, c, trail.Root(), trail);
    OnlyConflict(trail, before + [c], c);
    if c.reason != ConcurrentSequenceEdit { FoundAtLeaf(trail, before + [c], c); }
  }

  // ----- Objects

  ghost predicate MemberFound(trail: Trail, b: Json, o: Json, t: Json, key: string, found: seq<Conflict>)
    requires b.Obj? && o.Obj? && t.Obj?
  {
    Kept(key, trail.Strips()) ==> AllFound(Down(trail, key, MemberVersions(b, o, t, key)), found)
  }

  ghost predicate MembersFound(trail: Trail, b: Json, o: Json, t: Json, keys: seq<string>, n: nat,
      found: seq<Conflict>)
    requires b.Obj? && o.Obj? && t.Obj? && n <= |keys|
  {
    forall i {:trigger MemberFound(trail, b, o, t, keys[i], found)} :: 0 <= i < n ==>
      MemberFound(trail, b, o, t, keys[i], found)
  }

  lemma {:induction false} OneMoreMemberFound(trail: Trail, b: Json, o: Json, t: Json, keys: seq<string>, n: nat,
      found: seq<Conflict>, more: seq<Conflict>)
    requires b.Obj? && o.Obj? && t.Obj? && n < |keys| && found <= more
    requires MembersFound(trail, b, o, t, keys, n, found) && MemberFound(trail, b, o, t, keys[n], more)
    ensures MembersFound(trail, b, o, t, keys, n + 1, more)
  {
    MembersStillFound(trail, b, o, t, keys, n, found, more);
  }

  lemma {:induction false} MembersStillFound(trail: Trail, b: Json, o: Json, t: Json, keys: seq<string>, n: nat,
      found: seq<Conflict>, more: seq<Conflict>)
    requires b.Obj? && o.Obj? && t.Obj? && n <= |keys| && found <= more
    requires MembersFound(trail, b, o, t, keys, n, found)
    ensures MembersFound(trail, b, o, t, keys, n, more)
  {
    forall i {:trigger MemberFound(trail, b, o, t, keys[i], more)} | 0 <= i < n
      ensures MemberFound(trail, b, o, t, keys[i], more) {
      assert MemberFound(trail, b, o, t, keys[i], found);
      MemberStillFound(trail, b, o, t, keys[i], found, more);
    }
  }

  lemma {:induction false} MemberStillFound(trail: Trail, b: Json, o: Json, t: Json, key: string,
      found: seq<Conflict>, more: seq<Conflict>)
    requires b.Obj? && o.Obj? && t.Obj? && found <= more && MemberFound(trail, b, o, t, key, found)
    ensures MemberFound(trail, b, o, t, key, more)
  {
    if Kept(key, trail.Strips()) { StillFound(Down(trail, key, MemberVersions(b, o, t, key)), found, more); }
  }

  lemma {:induction false} ObjectFound(trail: Trail, b: Json, o: Json, t: Json, keys: seq<string>,
      found: seq<Conflict>)
    requires b.Obj? && o.Obj? && t.Obj? && trail.Here() == Versions(Some(b), Some(o), Some(t))
    requires forall k :: k in keys <==> k in b.fields.Keys + o.fields.Keys + t.fields.Keys
    requires MembersFound(trail, b, o, t, keys, |keys|, found)
    ensures AllFound(trail, found)
  {
    ObjectsAreNotGivenUp(b, o, t, trail.Strips());
    NoneOfItsOwn(trail);
    forall segment: string, w: Versions ensures StepFound(trail, found, segment, w) {
      if Into(trail.Here(), segment, w, trail.Strips()) {
        MemberStepFound(trail, b, o, t, keys, segment, w, found);
      }
    }
    FoundByStep(trail, found);
  }

  lemma {:induction false} MemberStepFound(trail: Trail, b: Json, o: Json, t: Json, keys: seq<string>, key: string,
      w: Versions, found: seq<Conflict>)
    requires b.Obj? && o.Obj? && t.Obj? && w == MemberVersions(b, o, t, key) && Kept(key, trail.Strips())
    requires forall k :: k in keys <==> k in b.fields.Keys + o.fields.Keys + t.fields.Keys
    requires MembersFound(trail, b, o, t, keys, |keys|, found)
    ensures AllFound(Down(trail, key, w), found)
  {
    if key in keys {
      var i :| 0 <= i < |keys| && keys[i] == key;
      assert MemberFound(trail, b, o, t, keys[i], found);
    } else {
      NoneAtSettled(Down(trail, key, w), found);
    }
  }

  // ----- Sequences

  ghost predicate ItemFound(trail: Trail, b: Json, o: Json, t: Json, sides: Pairing, i: nat, found: seq<Conflict>)
    requires b.Arr? && o.Arr? && t.Arr? && i < |b.items|
  {
    AllFound(Down(trail, Decimal.Print(i), ItemVersions(b, o, t, sides, i)), found)
  }

  ghost predicate ItemsFound(trail: Trail, b: Json, o: Json, t: Json, sides: Pairing, n: nat, found: seq<Conflict>)
    requires b.Arr? && o.Arr? && t.Arr? && n <= |b.items|
  {
    forall i {:trigger ItemFound(trail, b, o, t, sides, i, found)} :: 0 <= i < n ==>
      ItemFound(trail, b, o, t, sides, i, found)
  }

  lemma {:induction false} OneMoreItemFound(trail: Trail, b: Json, o: Json, t: Json, sides: Pairing, n: nat,
      found: seq<Conflict>, more: seq<Conflict>)
    requires b.Arr? && o.Arr? && t.Arr? && n < |b.items| && found <= more
    requires ItemsFound(trail, b, o, t, sides, n, found) && ItemFound(trail, b, o, t, sides, n, more)
    ensures ItemsFound(trail, b, o, t, sides, n + 1, more)
  {
    ItemsStillFound(trail, b, o, t, sides, n, found, more);
  }

  lemma {:induction false} ItemsStillFound(trail: Trail, b: Json, o: Json, t: Json, sides: Pairing, n: nat,
      found: seq<Conflict>, more: seq<Conflict>)
    requires b.Arr? && o.Arr? && t.Arr? && n <= |b.items| && found <= more
    requires ItemsFound(trail, b, o, t, sides, n, found)
    ensures ItemsFound(trail, b, o, t, sides, n, more)
  {
    forall i {:trigger ItemFound(trail, b, o, t, sides, i, more)} | 0 <= i < n
      ensures ItemFound(trail, b, o, t, sides, i, more) {
      assert ItemFound(trail, b, o, t, sides, i, found);
      StillFound(Down(trail, Decimal.Print(i), ItemVersions(b, o, t, sides, i)), found, more);
    }
  }

  lemma {:induction false} SequenceFound(trail: Trail, b: Json, o: Json, t: Json, sides: Pairing,
      found: seq<Conflict>)
    requires b.Arr? && o.Arr? && t.Arr? && trail.Here() == Versions(Some(b), Some(o), Some(t))
    requires Matched(b.items, o.items, t.items, sides, trail.Strips())
    requires ItemsFound(trail, b, o, t, sides, |b.items|, found)
    requires forall c: Conflict {:trigger RecordedAt(c, trail.Root(), trail)} ::
      RecordedAt(c, trail.Root(), trail) ==> c in found
    ensures AllFound(trail, found)
  {
    forall segment: string, w: Versions ensures StepFound(trail, found, segment, w) {
      if Into(trail.Here(), segment, w, trail.Strips()) {
        var i: nat, others: Pairing :| segment == Decimal.Print(i) &&
          IntoItem(trail.Here(), i, w, others, trail.Strips());
        MatchedIsDecided(b.items, o.items, t.items, sides, others, trail.Strips());
        assert ItemFound(trail, b, o, t, sides, i, found);
      }
    }
    FoundByStep(trail, found);
  }
}
