/** Moving the spans of untouched nodes through edits of their source. */
module SpanShift {
  import opened Wrappers

  newtype Byte = b: int | 0 <= b < 256

  /** UTF-8, as far as it matters here: which bytes go on with a character that began before them. */
  type Source = seq<Byte>

  predicate Continues(b: Byte) { 0x80 <= b < 0xC0 }

  /** A place between characters (section 3 of RFC 3629). */
  predicate Boundary(source: Source, at: nat) {
    at == 0 || at == |source| || (at < |source| && !Continues(source[at]))
  }

  /** A text of its own does not begin in the middle of a character. */
  predicate StartsWhole(text: Source) { text == [] || !Continues(text[0]) }

  /** Bytes `start` up to `end` of the old source become `replacement`. */
  datatype Change = Change(start: nat, end: nat, replacement: Source)

  ghost predicate InBounds(change: Change, source: Source) { change.start <= change.end <= |source| }

  ghost predicate Whole(change: Change, source: Source)
  {
    Boundary(source, change.start) && Boundary(source, change.end)
  }

  /** A change inside the source, not into a character, and behind the one before. */
  ghost predicate Fits(changes: seq<Change>, source: Source, k: nat)
    requires k < |changes|
  {
    InBounds(changes[k], source) && Whole(changes[k], source) && (k > 0 ==> changes[k - 1].end <= changes[k].start)
  }

  /** Changes in source order, none reaching into the next, out of the source or into a character. */
  ghost predicate Ordered(changes: seq<Change>, source: Source) {
    forall k {:trigger Fits(changes, source, k)} :: 0 <= k < |changes| ==> Fits(changes, source, k)
  }

  datatype Verdict = Fine | Overlap | OutOfBounds | SplitsCharacter

  /** All changes from `n` on are fine on their own. */
  ghost predicate FineFrom(changes: seq<Change>, source: Source, n: nat) {
    forall i :: n <= i < |changes| ==> InBounds(changes[i], source) && Whole(changes[i], source)
  }

  ghost predicate NeighboursApart(changes: seq<Change>, n: nat) {
    forall i :: 0 < i < n <= |changes| ==> changes[i - 1].end <= changes[i].start
  }

  lemma {:induction false} FarApart(changes: seq<Change>, source: Source, i: nat, j: nat)
    requires Ordered(changes, source) && i < j < |changes|
    ensures changes[i].end <= changes[j].start
  {
    assert Fits(changes, source, j);
    if i < j - 1 {
      assert Fits(changes, source, j - 1);
      FarApart(changes, source, i, j - 1);
    }
  }

  /** Looks at neighbours first and then, from the last, at each change on its own; what it refuses is the first
   * fault it meets. */
  method Validate(changes: seq<Change>, source: Source) returns (verdict: Verdict)
    ensures verdict.Fine? <==> Ordered(changes, source)
    ensures verdict.Overlap? <==> !NeighboursApart(changes, |changes|)
    ensures verdict.OutOfBounds? ==>
      exists i :: 0 <= i < |changes| && !InBounds(changes[i], source) && FineFrom(changes, source, i + 1)
    ensures verdict.SplitsCharacter? ==>
      exists i :: 0 <= i < |changes| && InBounds(changes[i], source) && !Whole(changes[i], source) &&
        FineFrom(changes, source, i + 1)
  {
    for i := 0 to |changes|
      invariant NeighboursApart(changes, i)
    {
      if i > 0 && changes[i - 1].end > changes[i].start {
        assert !Fits(changes, source, i);
        return Overlap;
      }
    }
    for i := |changes| downto 0
      invariant FineFrom(changes, source, i)
    {
      if changes[i].start > changes[i].end || changes[i].end > |source| {
        assert !Fits(changes, source, i);
        return OutOfBounds;
      }
      if !Boundary(source, changes[i].start) || !Boundary(source, changes[i].end) {
        assert !Fits(changes, source, i);
        return SplitsCharacter;
      }
    }
    return Fine;
  }

  // ----- The new source

  /** How far of the old source the first `k` changes account for. */
  function Cursor(changes: seq<Change>, k: nat): nat
    requires k <= |changes|
  {
    if k == 0 then 0 else changes[k - 1].end
  }

  /** The old source up to the next change, or to its end. */
  function Gap(source: Source, changes: seq<Change>, k: nat): nat
    requires k <= |changes|
  {
    if k < |changes| then changes[k].start else |source|
  }

  lemma {:induction false} GapIs(source: Source, changes: seq<Change>, k: nat)
    requires k <= |changes| && Ordered(changes, source)
    ensures Cursor(changes, k) <= Gap(source, changes, k) <= |source|
    ensures Boundary(source, Cursor(changes, k)) && Boundary(source, Gap(source, changes, k))
    ensures k < |changes| ==> changes[k].start <= changes[k].end <= |source|
  {
    if k > 0 { assert Fits(changes, source, k - 1); }
    if k < |changes| { assert Fits(changes, source, k); }
  }

  /** What lies before change `k`, from the end of the one before. */
  function Kept(source: Source, changes: seq<Change>, k: nat): (r: Source)
    requires k <= |changes| && Ordered(changes, source)
    ensures |r| == Gap(source, changes, k) - Cursor(changes, k)
  {
    GapIs(source, changes, k);
    source[Cursor(changes, k)..Gap(source, changes, k)]
  }

  /** The new source up to the end of change `k`. */
  function Built(source: Source, changes: seq<Change>, k: nat): Source
    requires k <= |changes| && Ordered(changes, source)
  {
    if k == 0 then [] else Built(source, changes, k - 1) + Kept(source, changes, k - 1) + changes[k - 1].replacement
  }

  function NewSource(source: Source, changes: seq<Change>): Source
    requires Ordered(changes, source)
  {
    Built(source, changes, |changes|) + Kept(source, changes, |changes|)
  }

  method Rewrite(source: Source, changes: seq<Change>) returns (out: Source)
    requires Ordered(changes, source)
    ensures out == NewSource(source, changes)
  {
    out := [];
    var cursor := 0;
    for i := 0 to |changes|
      invariant cursor == Cursor(changes, i) && out == Built(source, changes, i)
    {
      GapIs(source, changes, i);
      out := out + source[cursor..changes[i].start] + changes[i].replacement;
      cursor := changes[i].end;
    }
    GapIs(source, changes, |changes|);
    out := out + source[cursor..];
  }

  // ----- Adjustments

  function Adjustment(changes: seq<Change>, k: nat): int
    requires k <= |changes|
  {
    if k == 0 then 0
    else Adjustment(changes, k - 1) + |changes[k - 1].replacement| - (changes[k - 1].end - changes[k - 1].start)
  }

  method Adjustments(changes: seq<Change>) returns (adjustments: seq<int>)
    ensures |adjustments| == |changes| + 1 &&
      forall k :: 0 <= k <= |changes| ==> adjustments[k] == Adjustment(changes, k)
  {
    adjustments := [0];
    for i := 0 to |changes|
      invariant |adjustments| == i + 1 && forall k :: 0 <= k <= i ==> adjustments[k] == Adjustment(changes, k)
    {
      adjustments := adjustments + [adjustments[i] + |changes[i].replacement| - (changes[i].end - changes[i].start)];
    }
  }

  lemma {:induction false} BuiltLength(source: Source, changes: seq<Change>, k: nat)
    requires k <= |changes| && Ordered(changes, source)
    ensures |Built(source, changes, k)| == Cursor(changes, k) + Adjustment(changes, k)
  {
    if k > 0 { BuiltLength(source, changes, k - 1); }
  }

  lemma {:induction false} BuiltGoesOn(source: Source, changes: seq<Change>, j: nat, k: nat)
    requires j <= k <= |changes| && Ordered(changes, source)
    ensures Built(source, changes, j) <= Built(source, changes, k)
    decreases k - j
  {
    if j < k { BuiltGoesOn(source, changes, j, k - 1); }
  }

  /** What lies between two changes stands unchanged in the new source. */
  lemma {:induction false} GapIsKept(source: Source, changes: seq<Change>, k: nat)
    requires k <= |changes| && Ordered(changes, source)
    ensures Built(source, changes, k) + Kept(source, changes, k) <= NewSource(source, changes)
  {
    if k < |changes| { BuiltGoesOn(source, changes, k + 1, |changes|); }
  }

  /** Byte by byte. */
  lemma {:induction false} ByteIsKept(source: Source, changes: seq<Change>, k: nat, i: nat)
    requires k <= |changes| && Ordered(changes, source) && Cursor(changes, k) <= i < Gap(source, changes, k) <= |source|
    ensures 0 <= i + Adjustment(changes, k) < |NewSource(source, changes)|
    ensures NewSource(source, changes)[i + Adjustment(changes, k)] == source[i]
  {
    BuiltLength(source, changes, k);
    GapIsKept(source, changes, k);
    var part := Built(source, changes, k) + Kept(source, changes, k);
    assert part[i + Adjustment(changes, k)] == Kept(source, changes, k)[i - Cursor(changes, k)];
    PrefixAt(part, NewSource(source, changes), i + Adjustment(changes, k));
  }

  lemma {:induction false} PrefixAt(part: Source, whole: Source, at: nat)
    requires part <= whole && at < |part|
    ensures at < |whole| && whole[at] == part[at]
  {
  }

  /** A stretch of a gap, shifted by the adjustment so far. */
  lemma {:induction false} StretchIsKept(source: Source, changes: seq<Change>, k: nat, start: nat, end: nat)
    requires k <= |changes| && Ordered(changes, source)
    requires Cursor(changes, k) <= start <= end <= Gap(source, changes, k) <= |source|
    ensures var shift := Adjustment(changes, k);
      && 0 <= start + shift && end + shift <= |NewSource(source, changes)|
      && NewSource(source, changes)[start + shift..end + shift] == source[start..end]
  {
    var shift, changed := Adjustment(changes, k), NewSource(source, changes);
    assert 0 <= start + shift && end + shift <= |changed| by {
      BuiltLength(source, changes, k);
      GapIsKept(source, changes, k);
    }
    forall i | start <= i < end ensures changed[i + shift] == source[i] { ByteIsKept(source, changes, k, i); }
    assert changed[start + shift..end + shift] == source[start..end];
  }

  // ----- Characters

  ghost predicate AllStartWhole(changes: seq<Change>)
  {
    forall i :: 0 <= i < |changes| ==> StartsWhole(changes[i].replacement)
  }

  /** What stands behind the gap before change `k` does not begin in the middle of a character. */
  lemma {:induction false} RestStartsWhole(source: Source, changes: seq<Change>, k: nat)
    requires k <= |changes| && Ordered(changes, source) && StartsWhole(source) && AllStartWhole(changes)
    ensures Boundary(NewSource(source, changes), |Built(source, changes, k)| + |Kept(source, changes, k)|)
    decreases |changes| - k, 0
  {
    if k < |changes| {
      if changes[k].replacement != [] {
        ReplacementStartsWhole(source, changes, k);
      } else {
        BuiltStartsWhole(source, changes, k + 1);
        NothingPutIn(source, changes, k);
      }
    }
  }

  /** Nor does that gap itself, or what stands behind it if it is empty. */
  lemma {:induction false} BuiltStartsWhole(source: Source, changes: seq<Change>, k: nat)
    requires k <= |changes| && Ordered(changes, source) && StartsWhole(source) && AllStartWhole(changes)
    ensures Boundary(NewSource(source, changes), |Built(source, changes, k)|)
    decreases |changes| - k, 1
  {
    GapIs(source, changes, k);
    if Cursor(changes, k) < Gap(source, changes, k) {
      GapStartsWhole(source, changes, k);
    } else {
      RestStartsWhole(source, changes, k);
    }
  }

  lemma {:induction false} ReplacementStartsWhole(source: Source, changes: seq<Change>, k: nat)
    requires k < |changes| && Ordered(changes, source) && changes[k].replacement != [] &&
      StartsWhole(changes[k].replacement)
    ensures Boundary(NewSource(source, changes), |Built(source, changes, k)| + |Kept(source, changes, k)|)
  {
    var before, more := Built(source, changes, k) + Kept(source, changes, k), changes[k].replacement;
    var at := |before|;
    assert Built(source, changes, k + 1) == before + more && (before + more)[at] == more[0];
    BuiltGoesOn(source, changes, k + 1, |changes|);
    PrefixAt(before + more, NewSource(source, changes), at);
  }

  lemma {:induction false} NothingPutIn(source: Source, changes: seq<Change>, k: nat)
    requires k < |changes| && Ordered(changes, source) && changes[k].replacement == []
    requires Boundary(NewSource(source, changes), |Built(source, changes, k + 1)|)
    ensures Boundary(NewSource(source, changes), |Built(source, changes, k)| + |Kept(source, changes, k)|)
  {
  }

  lemma {:induction false} GapStartsWhole(source: Source, changes: seq<Change>, k: nat)
    requires k <= |changes| && Ordered(changes, source) && StartsWhole(source) &&
      Cursor(changes, k) < Gap(source, changes, k)
    ensures Boundary(NewSource(source, changes), |Built(source, changes, k)|)
  {
    GapIs(source, changes, k);
    BuiltLength(source, changes, k);
    ByteIsKept(source, changes, k, Cursor(changes, k));
  }

  /** Within a gap, and at both its ends, characters begin where they did. */
  lemma {:induction false} BoundaryIsKept(source: Source, changes: seq<Change>, k: nat, at: nat)
    requires k <= |changes| && Ordered(changes, source) &&
      Cursor(changes, k) <= at <= Gap(source, changes, k) <= |source|
    requires StartsWhole(source) && AllStartWhole(changes)
    ensures 0 <= at + Adjustment(changes, k) &&
      (Boundary(NewSource(source, changes), at + Adjustment(changes, k)) <==> Boundary(source, at))
  {
    GapIs(source, changes, k);
    BuiltLength(source, changes, k);
    if at < Gap(source, changes, k) {
      ByteIsKept(source, changes, k, at);
      SameBoundary(source, Cursor(changes, k), at, NewSource(source, changes), at + Adjustment(changes, k));
    } else {
      RestStartsWhole(source, changes, k);
    }
  }

  lemma {:induction false} SameBoundary(source: Source, cursor: nat, at: nat, changed: Source, place: nat)
    requires cursor <= at < |source| && place < |changed| && changed[place] == source[at]
    requires StartsWhole(source) && Boundary(source, cursor) && at - cursor <= place
    ensures Boundary(changed, place) <==> Boundary(source, at)
  {
  }

  // ----- Spans

  /** No change removes or inserts anything inside the span. */
  ghost predicate Untouched(changes: seq<Change>, start: nat, end: nat) {
    forall i :: 0 <= i < |changes| ==> changes[i].end <= start || end <= changes[i].start
  }

  /** How many changes end at or before a position. */
  function EndedBy(changes: seq<Change>, position: nat): (k: nat)
    ensures k <= |changes| && (forall i :: 0 <= i < k ==> changes[i].end <= position) &&
      (k < |changes| ==> changes[k].end > position)
  {
    if changes == [] || changes[0].end > position then 0
    else
      var k := EndedBy(changes[1..], position);
      assert forall i :: 0 < i < k + 1 ==> changes[i] == changes[1..][i - 1];
      k + 1
  }

  /** The single test: of all changes only the first that ends behind the start is looked at. */
  predicate Overlaps(change: Change, start: nat, end: nat) {
    || (change.start < end && change.end > start)
    || (change.start == change.end && change.start > start && change.start < end)
  }

  /** The one test finds out about all changes; what passes it lies in the gap before the change looked at. */
  lemma {:induction false} UntouchedIs(changes: seq<Change>, source: Source, start: nat, end: nat, before: nat)
    requires Ordered(changes, source) && start <= end <= |source| && before == EndedBy(changes, start)
    ensures Untouched(changes, start, end) <==> !(before < |changes| && Overlaps(changes[before], start, end))
    ensures Untouched(changes, start, end) ==>
      Cursor(changes, before) <= start <= end <= Gap(source, changes, before) <= |source|
  {
    GapIs(source, changes, before);
    if before < |changes| {
      forall i | before < i < |changes| ensures changes[before].end <= changes[i].start {
        FarApart(changes, source, before, i);
      }
    }
  }

  lemma {:induction false} EndsAreKept(source: Source, changes: seq<Change>, k: nat, start: nat, end: nat)
    requires k <= |changes| && Ordered(changes, source) && StartsWhole(source) && AllStartWhole(changes)
    requires Cursor(changes, k) <= start <= end <= Gap(source, changes, k) <= |source|
    ensures 0 <= start + Adjustment(changes, k)
    ensures Boundary(NewSource(source, changes), start + Adjustment(changes, k)) <==> Boundary(source, start)
    ensures Boundary(NewSource(source, changes), end + Adjustment(changes, k)) <==> Boundary(source, end)
  {
    BoundaryIsKept(source, changes, k, start);
    BoundaryIsKept(source, changes, k, end);
  }

  method Shift(changes: seq<Change>, adjustments: seq<int>, start: nat, end: nat, ghost source: Source)
      returns (r: Option<(nat, nat)>)
    requires Ordered(changes, source) && start <= end <= |source|
    requires |adjustments| == |changes| + 1 &&
      forall k :: 0 <= k <= |changes| ==> adjustments[k] == Adjustment(changes, k)
    ensures r.Some? <==> Untouched(changes, start, end)
    ensures r.Some? ==> r.value.1 - r.value.0 == end - start && r.value.0 <= r.value.1 <= |NewSource(source, changes)|
    ensures r.Some? ==> NewSource(source, changes)[r.value.0..r.value.1] == source[start..end]
    ensures r.Some? && StartsWhole(source) && AllStartWhole(changes) ==>
      && (Boundary(NewSource(source, changes), r.value.0) <==> Boundary(source, start))
      && (Boundary(NewSource(source, changes), r.value.1) <==> Boundary(source, end))
  {
    var before := EndedBy(changes, start);
    UntouchedIs(changes, source, start, end, before);
    if before < |changes| && Overlaps(changes[before], start, end) { return None; }
    StretchIsKept(source, changes, before, start, end);
    if StartsWhole(source) && AllStartWhole(changes) { EndsAreKept(source, changes, before, start, end); }
    var from, till := start + adjustments[before], end + adjustments[before];
    if from < 0 || till < 0 { return None; }
    return Some((from, till));
  }
}
