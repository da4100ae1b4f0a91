/** The divs open after some lines, told from the lines alone. */
module DivHistory {
  import opened DivStack
  import opened Wrappers

  // ----- What a line does to the divs that earlier lines opened

  /** A line that can only go on with a paragraph, and so leaves nothing. */
  predicate GoesOn(line: Line) { !line.blank && !line.previousBlank && !line.startsItem && !line.blockStart }

  /** The line stands outside the quote that an earlier line's div is in, or, with text, left of the item. */
  predicate StandsOutside(line: Line, opener: Line) {
    && !GoesOn(line) && opener.fence.Some?
    && (|| line.depth < opener.fence.value.bodyDepth
        || (!line.blank && line.depth == opener.depth && opener.itemColumn.Some? &&
              line.indent < opener.itemColumn.value))
  }

  /** Of the lines whose divs are open, those whose div line `q` does not leave: it stands inside that or inside one
   * opened in it. */
  ghost predicate Stays(lines: seq<Line>, q: nat, open: set<nat>, p: nat)
    requires q < |lines| && forall r :: r in open ==> r < q
  {
    p in open && exists r :: r in open && p <= r && !StandsOutside(lines[q], lines[r])
  }

  predicate HasDepth(line: Line, depth: nat) { line.fence.Some? && line.fence.value.bodyDepth == depth }

  /** The fence is wide enough for the div, and from this inwards all divs have the depth of the fence. */
  ghost predicate Fits(lines: seq<Line>, fence: Fence, staying: set<nat>, c: nat)
    requires forall r :: r in staying ==> r < |lines|
  {
    && c in staying && lines[c].fence.Some? && lines[c].fence.value.width <= fence.width
    && forall r :: r in staying && c <= r ==> HasDepth(lines[r], fence.bodyDepth)
  }

  /** Line `q` is a bare fence that fits the div or one that the div lies in. */
  ghost predicate Closes(lines: seq<Line>, q: nat, staying: set<nat>, p: nat)
    requires q < |lines| && forall r :: r in staying ==> r < q
  {
    && p in staying && lines[q].fence.Some? && lines[q].fence.value.bare && lines[q].fence.value.visible
    && exists c: nat :: c <= p && Fits(lines, lines[q].fence.value, staying, c)
  }

  /** Line `q` is a visible fence that can open a div, and closes none. */
  ghost predicate Opens(lines: seq<Line>, q: nat, staying: set<nat>)
    requires q < |lines| && forall r :: r in staying ==> r < q
  {
    && lines[q].fence.Some? && lines[q].fence.value.visible && lines[q].fence.value.canOpen
    && forall p :: p in staying ==> !Closes(lines, q, staying, p)
  }

  /** The lines whose divs are open after the first `n`. */
  ghost function OpenAfter(lines: seq<Line>, n: nat): (r: set<nat>)
    requires n <= |lines|
    ensures forall p :: p in r ==> p < n
    decreases n, 0
  {
    if n == 0 then {}
    else
      var staying := StayingAt(lines, n - 1);
      (set p | p in staying && !Closes(lines, n - 1, staying, p)) + if Opens(lines, n - 1, staying) then {n - 1} else {}
  }

  /** The lines whose divs line `q` does not leave. */
  ghost function StayingAt(lines: seq<Line>, q: nat): (r: set<nat>)
    requires q < |lines|
    ensures forall p :: p in r ==> p < q
    decreases q, 1
  {
    var open := OpenAfter(lines, q);
    set p | p in open && Stays(lines, q, open, p)
  }

  ghost predicate OpenedBy(lines: seq<Line>, p: nat)
    requires p < |lines|
  {
    Opens(lines, p, StayingAt(lines, p))
  }

  ghost predicate ClosedBy(lines: seq<Line>, q: nat, p: nat)
    requires q < |lines|
  {
    Closes(lines, q, StayingAt(lines, q), p)
  }

  ghost predicate LeftOpenBy(lines: seq<Line>, q: nat, p: nat)
    requires q < |lines|
  {
    p in StayingAt(lines, q) && !ClosedBy(lines, q, p)
  }

  lemma {:induction false} OpenAfterOne(lines: seq<Line>, q: nat, p: nat)
    requires p <= q < |lines|
    ensures p in OpenAfter(lines, q + 1) <==> if p == q then OpenedBy(lines, q) else LeftOpenBy(lines, q, p)
    ensures p < q && LeftOpenBy(lines, q, p) ==> p in OpenAfter(lines, q)
  {
  }

  /** A div is open exactly if its line opened it and no later line left or closed it. */
  lemma {:induction false} OpenIff(lines: seq<Line>, n: nat, p: nat)
    requires p < n <= |lines|
    ensures p in OpenAfter(lines, n) <==>
      OpenedBy(lines, p) && forall q {:trigger LeftOpenBy(lines, q, p)} :: p < q < n ==> LeftOpenBy(lines, q, p)
  {
    OpenAfterOne(lines, n - 1, p);
    if p < n - 1 { OpenIff(lines, n - 1, p); }
  }

  // ----- The simple list holds these divs

  /** The div that a line's fence opens. */
  predicate IsDivOf(div: Div, line: Line) {
    && line.fence.Some? && div.width == line.fence.value.width && div.depth == line.fence.value.bodyDepth
    && div.start == line.offset && div.itemColumn == line.itemColumn && div.itemDepth == line.depth
  }

  /** The divs are those of the lines `at`, which are the ones in `open`, in order. */
  ghost predicate Holds(lines: seq<Line>, open: set<nat>, divs: seq<Div>, at: seq<nat>) {
    && |at| == |divs| && (forall k :: 0 <= k < |at| ==> at[k] < |lines| && IsDivOf(divs[k], lines[at[k]]))
    && (forall j, k :: 0 <= j < k < |at| ==> at[j] < at[k])
    && forall p :: p in open <==> p in at
  }

  lemma {:induction false} LeavesIs(line: Line, div: Div, opener: Line)
    requires IsDivOf(div, opener)
    ensures Leaves(line, div.depth, div.itemColumn, div.itemDepth) <==> StandsOutside(line, opener)
  {
  }

  /** The divs left are those up to the innermost that the line stands inside. */
  lemma {:induction false} RemainingIs(divs: seq<Div>, line: Line)
    ensures var m := |Remaining(divs, line)|;
      && (m > 0 ==> !Leaves(line, divs[m - 1].depth, divs[m - 1].itemColumn, divs[m - 1].itemDepth))
      && forall k :: m <= k < |divs| ==> Leaves(line, divs[k].depth, divs[k].itemColumn, divs[k].itemDepth)
  {
    if divs != [] {
      var top := divs[|divs| - 1];
      if Leaves(line, top.depth, top.itemColumn, top.itemDepth) { RemainingIs(divs[..|divs| - 1], line); }
    }
  }

  lemma {:induction false} StaysIs(lines: seq<Line>, q: nat, divs: seq<Div>, at: seq<nat>)
    requires q < |lines| && Holds(lines, OpenAfter(lines, q), divs, at)
    ensures Holds(lines, StayingAt(lines, q), Remaining(divs, lines[q]), at[..|Remaining(divs, lines[q])|])
  {
    var open := OpenAfter(lines, q);
    var m := |Remaining(divs, lines[q])|;
    RemainingIs(divs, lines[q]);
    forall k | 0 <= k < |at| ensures k >= m ==> StandsOutside(lines[q], lines[at[k]]) {
      LeavesIs(lines[q], divs[k], lines[at[k]]);
    }
    if m > 0 { LeavesIs(lines[q], divs[m - 1], lines[at[m - 1]]); }
    forall p | p in open ensures Stays(lines, q, open, p) <==> p in at[..m] {
      if p in at[..m] { assert at[m - 1] >= p && at[m - 1] in at; }
      if Stays(lines, q, open, p) {
        var r :| r in open && p <= r && !StandsOutside(lines[q], lines[r]);
        assert r in at && p in at;
        var j :| 0 <= j < |at| && at[j] == r;
        var k :| 0 <= k < |at| && at[k] == p;
        assert k <= j < m;
      }
    }
  }

  /** In the list: from there inwards all have the depth of the fence, and the first is no wider. */
  predicate FitsFrom(divs: seq<Div>, fence: Fence, i: nat)
    requires i < |divs|
  {
    divs[i].width <= fence.width && forall j :: i <= j < |divs| ==> divs[j].depth == fence.bodyDepth
  }

  /** The fence closes the outermost that fits. */
  lemma {:induction false} ClosedIs(divs: seq<Div>, fence: Fence)
    ensures Closed(divs, fence).Some? ==>
      fence.bare && fence.visible && Closed(divs, fence).value < |divs| &&
      FitsFrom(divs, fence, Closed(divs, fence).value)
    ensures forall i :: 0 <= i < |divs| && FitsFrom(divs, fence, i) && fence.bare && fence.visible ==>
      Closed(divs, fence).Some? && Closed(divs, fence).value <= i
  {
    forall i | 0 <= i < |divs| && FitsFrom(divs, fence, i) && fence.bare && fence.visible
      ensures Closed(divs, fence).Some? && Closed(divs, fence).value <= i {
      assert divs[|divs| - 1].depth == fence.bodyDepth;
      assert ScopeStart(divs) <= i;
    }
  }

  lemma {:induction false} FitsIs(lines: seq<Line>, fence: Fence, staying: set<nat>, divs: seq<Div>, at: seq<nat>,
      i: nat)
    requires Holds(lines, staying, divs, at) && (forall p :: p in staying ==> p < |lines|) && i < |at|
    ensures Fits(lines, fence, staying, at[i]) <==> FitsFrom(divs, fence, i)
  {
    assert at[i] in at;
    forall r | r in staying && at[i] <= r ensures exists j :: i <= j < |at| && at[j] == r {
      var j :| 0 <= j < |at| && at[j] == r;
      assert j >= i;
    }
  }

  lemma {:induction false} ClosesIs(lines: seq<Line>, q: nat, staying: set<nat>, divs: seq<Div>, at: seq<nat>, p: nat)
    requires q < |lines| && (forall r :: r in staying ==> r < q) && Holds(lines, staying, divs, at)
    ensures Closes(lines, q, staying, p) <==>
      lines[q].fence.Some? && Closed(divs, lines[q].fence.value).Some? &&
      p in at[Closed(divs, lines[q].fence.value).value..]
  {
    if lines[q].fence.Some? {
      ClosedIs(divs, lines[q].fence.value);
      if Closes(lines, q, staying, p) { ClosesOnly(lines, q, staying, divs, at, p); }
      var closed := Closed(divs, lines[q].fence.value);
      if closed.Some? && p in at[closed.value..] {
        FitsIs(lines, lines[q].fence.value, staying, divs, at, closed.value);
        var k :| 0 <= k < |at| - closed.value && at[closed.value..][k] == p;
        assert at[closed.value] <= at[closed.value + k] == p && p in at;
        assert Fits(lines, lines[q].fence.value, staying, at[closed.value]);
      }
    }
  }

  lemma {:induction false} ClosesOnly(lines: seq<Line>, q: nat, staying: set<nat>, divs: seq<Div>, at: seq<nat>, p: nat)
    requires q < |lines| && (forall r :: r in staying ==> r < q) && Holds(lines, staying, divs, at)
    requires Closes(lines, q, staying, p)
    ensures Closed(divs, lines[q].fence.value).Some? && p in at[Closed(divs, lines[q].fence.value).value..]
  {
    var fence := lines[q].fence.value;
    var k :| 0 <= k < |at| && at[k] == p;
    var c: nat :| c <= p && Fits(lines, fence, staying, c);
    var i := FitsSome(lines, fence, staying, divs, at, c);
    ClosedIs(divs, fence);
    InTail(at, Closed(divs, fence).value, k);
  }

  lemma {:induction false} InTail(at: seq<nat>, i: nat, k: nat)
    requires i <= k < |at|
    ensures at[k] in at[i..]
  {
    assert at[k] == at[i..][k - i];
  }

  lemma {:induction false} FitsSome(lines: seq<Line>, fence: Fence, staying: set<nat>, divs: seq<Div>, at: seq<nat>,
      c: nat) returns (i: nat)
    requires Holds(lines, staying, divs, at) && (forall p :: p in staying ==> p < |lines|) &&
      Fits(lines, fence, staying, c)
    ensures i < |at| && at[i] == c && FitsFrom(divs, fence, i)
  {
    assert c in at;
    i :| 0 <= i < |at| && at[i] == c;
    FitsIs(lines, fence, staying, divs, at, i);
  }

  /** The closers are the offsets of the lines `gone`, which are those whose divs line `q` closes, innermost first. */
  ghost predicate ClosersAre(lines: seq<Line>, q: nat, closers: seq<nat>, gone: seq<nat>)
    requires q < |lines|
  {
    && |gone| == |closers| && (forall k :: 0 <= k < |gone| ==> gone[k] < q && closers[k] == lines[gone[k]].offset)
    && (forall j, k :: 0 <= j < k < |gone| ==> gone[j] > gone[k])
    && Closing(lines, q, gone)
  }

  ghost predicate AreClosed(lines: seq<Line>, q: nat, closers: seq<nat>)
    requires q < |lines|
  {
    exists gone :: ClosersAre(lines, q, closers, gone)
  }

  /** One line more. */
  lemma {:induction false} StepIs(lines: seq<Line>, q: nat, divs: seq<Div>, at: seq<nat>)
      returns (next: seq<nat>, gone: seq<nat>)
    requires q < |lines| && Holds(lines, OpenAfter(lines, q), divs, at)
    ensures Holds(lines, OpenAfter(lines, q + 1), Step(divs, lines[q]).0, next)
    ensures ClosersAre(lines, q, Step(divs, lines[q]).1, gone)
  {
    var line, open := lines[q], Remaining(divs, lines[q]);
    StaysIs(lines, q, divs, at);
    next, gone := StayingStep(lines, q, open, at[..|open|]);
  }

  lemma {:induction false} StayingStep(lines: seq<Line>, q: nat, open: seq<Div>, at: seq<nat>)
      returns (next: seq<nat>, gone: seq<nat>)
    requires q < |lines| && Holds(lines, StayingAt(lines, q), open, at)
    ensures var line := lines[q];
      var closed := if line.fence.Some? then Closed(open, line.fence.value) else None;
      var opens := line.fence.Some? && line.fence.value.visible && line.fence.value.canOpen;
      && Holds(lines, OpenAfter(lines, q + 1), if closed.Some? then open[..closed.value] else
           if opens then open + [Opened(line.fence.value, line)] else open, next)
      && ClosersAre(lines, q, if closed.Some? then Starts(open, closed.value) else [], gone)
  {
    var closed := if lines[q].fence.Some? then Closed(open, lines[q].fence.value) else None;
    WhatCloses(lines, q, open, at);
    WhatIsOpen(lines, q, open, at);
    if closed.Some? {
      next, gone := at[..closed.value], Backwards(at, closed.value);
      StepClosing(lines, q, open, at, closed.value);
      StepCloses(lines, q, open, at, closed.value);
    } else {
      gone := [];
      next := StepOpening(lines, q, open, at);
    }
  }

  ghost predicate Closing(lines: seq<Line>, q: nat, gone: seq<nat>)
    requires q < |lines|
  {
    forall p: nat {:trigger ClosedBy(lines, q, p)} :: ClosedBy(lines, q, p) <==> p in gone
  }

  lemma {:induction false} WhatCloses(lines: seq<Line>, q: nat, open: seq<Div>, at: seq<nat>)
    requires q < |lines| && Holds(lines, StayingAt(lines, q), open, at)
    ensures var closed := if lines[q].fence.Some? then Closed(open, lines[q].fence.value) else None;
      Closing(lines, q, if closed.Some? then at[closed.value..] else [])
  {
    forall p: nat {:trigger ClosedBy(lines, q, p)} ensures ClosedBy(lines, q, p) <==>
      (lines[q].fence.Some? && Closed(open, lines[q].fence.value).Some? &&
        p in at[Closed(open, lines[q].fence.value).value..]) {
      ClosesIs(lines, q, StayingAt(lines, q), open, at, p);
    }
  }

  ghost predicate NextOpen(lines: seq<Line>, q: nat, at: seq<nat>)
    requires q < |lines|
  {
    forall p: nat {:trigger p in OpenAfter(lines, q + 1)} :: p in OpenAfter(lines, q + 1) <==>
      (p == q && OpenedBy(lines, q)) || (p < q && p in at && !ClosedBy(lines, q, p))
  }

  lemma {:induction false} WhatIsOpen(lines: seq<Line>, q: nat, open: seq<Div>, at: seq<nat>)
    requires q < |lines| && Holds(lines, StayingAt(lines, q), open, at)
    ensures NextOpen(lines, q, at)
  {
    forall p: nat {:trigger p in OpenAfter(lines, q + 1)} ensures p in OpenAfter(lines, q + 1) <==>
      (p == q && OpenedBy(lines, q)) || (p < q && p in at && !ClosedBy(lines, q, p)) {
      if p <= q { OpenAfterOne(lines, q, p); }
    }
  }

  lemma {:induction false} OpensUnlessClosing(lines: seq<Line>, q: nat)
    requires q < |lines| && Closing(lines, q, [])
    ensures var line := lines[q];
      OpenedBy(lines, q) <==> line.fence.Some? && line.fence.value.visible && line.fence.value.canOpen
  {
    assert forall p :: p in StayingAt(lines, q) ==> !ClosedBy(lines, q, p);
  }

  lemma {:induction false} StepOpening(lines: seq<Line>, q: nat, open: seq<Div>, at: seq<nat>) returns (next: seq<nat>)
    requires q < |lines| && Holds(lines, StayingAt(lines, q), open, at) && Closing(lines, q, []) &&
      NextOpen(lines, q, at)
    ensures var line := lines[q];
      var opens := line.fence.Some? && line.fence.value.visible && line.fence.value.canOpen;
      Holds(lines, OpenAfter(lines, q + 1), if opens then open + [Opened(line.fence.value, line)] else open, next)
  {
    var line := lines[q];
    OpensUnlessClosing(lines, q);
    forall p: nat | p in at ensures p < q { assert p in StayingAt(lines, q); }
    if OpenedBy(lines, q) {
      next := at + [q];
      OneMoreHeld(lines, open, at, q, StayingAt(lines, q), OpenAfter(lines, q + 1));
    } else {
      next := at;
    }
  }

  lemma {:induction false} OneMoreHeld(lines: seq<Line>, divs: seq<Div>, at: seq<nat>, q: nat, before: set<nat>,
      after: set<nat>)
    requires q < |lines| && lines[q].fence.Some? && Holds(lines, before, divs, at)
    requires forall p: nat :: p in at ==> p < q
    requires forall p: nat :: p in after <==> p == q || p in at
    ensures Holds(lines, after, divs + [Opened(lines[q].fence.value, lines[q])], at + [q])
  {
    forall k | 0 <= k < |at| ensures at[k] < q { assert at[k] in at; }
  }

  lemma {:induction false} StepClosing(lines: seq<Line>, q: nat, open: seq<Div>, at: seq<nat>, i: nat)
    requires q < |lines| && Holds(lines, StayingAt(lines, q), open, at) && i < |at| && Closing(lines, q, at[i..]) &&
      NextOpen(lines, q, at)
    ensures Holds(lines, OpenAfter(lines, q + 1), open[..i], at[..i])
  {
    assert at[i] in at[i..];
    assert !OpenedBy(lines, q) by { assert ClosedBy(lines, q, at[i]); }
    forall p: nat ensures p in at[..i] <==> p in at && p !in at[i..] { BehindOrBefore(at, i, p); }
    forall p: nat | p in at ensures p < q { assert p in StayingAt(lines, q); }
  }

  function Backwards(at: seq<nat>, i: nat): (r: seq<nat>)
    requires i <= |at|
    ensures |r| == |at| - i && forall k :: 0 <= k < |r| ==> r[k] == at[|at| - 1 - k]
  {
    seq(|at| - i, k requires 0 <= k < |at| - i => at[|at| - 1 - k])
  }

  lemma {:induction false} BackwardsHolds(at: seq<nat>, i: nat, p: nat)
    requires i <= |at|
    ensures p in Backwards(at, i) <==> p in at[i..]
  {
    var back, front := Backwards(at, i), at[i..];
    if p in back {
      var k :| 0 <= k < |back| && back[k] == p;
      assert front[|at| - 1 - k - i] == p;
    }
    if p in front {
      var k :| 0 <= k < |front| && front[k] == p;
      assert back[|at| - 1 - i - k] == p;
    }
  }

  lemma {:induction false} StepCloses(lines: seq<Line>, q: nat, open: seq<Div>, at: seq<nat>, i: nat)
    requires q < |lines| && Holds(lines, StayingAt(lines, q), open, at) && i < |at|
    requires Closing(lines, q, at[i..])
    ensures ClosersAre(lines, q, Starts(open, i), Backwards(at, i))
  {
    forall p: nat ensures p in Backwards(at, i) <==> ClosedBy(lines, q, p) { BackwardsHolds(at, i, p); }
    forall k | 0 <= k < |at| ensures at[k] < q { assert at[k] in at; }
  }

  lemma {:induction false} BehindOrBefore(at: seq<nat>, i: nat, p: nat)
    requires i <= |at| && forall j, k :: 0 <= j < k < |at| ==> at[j] < at[k]
    ensures p in at[..i] <==> p in at && p !in at[i..]
  {
    assert at == at[..i] + at[i..];
  }

  // ----- Over all lines

  /** The divs open after some lines are those told from the lines, and so are the divs that each line closed. */
  ghost predicate Tells(lines: seq<Line>, n: nat, divs: seq<Div>, closers: seq<seq<nat>>, at: seq<nat>)
    requires n <= |lines|
  {
    && Holds(lines, OpenAfter(lines, n), divs, at) && |closers| == n
    && forall q {:trigger AreClosed(lines, q, closers[q])} :: 0 <= q < n ==> AreClosed(lines, q, closers[q])
  }

  lemma {:induction false} OneMoreLine(lines: seq<Line>, n: nat, divs: seq<Div>, closers: seq<seq<nat>>, at: seq<nat>)
      returns (next: seq<nat>)
    requires n < |lines| && Tells(lines, n, divs, closers, at)
    ensures Tells(lines, n + 1, Step(divs, lines[n]).0, closers + [Step(divs, lines[n]).1], next)
  {
    var gone;
    next, gone := StepIs(lines, n, divs, at);
    var more := closers + [Step(divs, lines[n]).1];
    forall q {:trigger AreClosed(lines, q, more[q])} | 0 <= q <= n ensures AreClosed(lines, q, more[q]) {
      if q < n { assert AreClosed(lines, q, closers[q]); }
    }
  }

  lemma {:induction false} RunIs(lines: seq<Line>, n: nat) returns (at: seq<nat>)
    requires n <= |lines|
    ensures var (divs, closers) := Run([], lines[..n]); Tells(lines, n, divs, closers, at)
  {
    if n == 0 {
      at := [];
    } else {
      assert lines[..n][..n - 1] == lines[..n - 1];
      var before := RunIs(lines, n - 1);
      var (divs, closers) := Run([], lines[..n - 1]);
      at := OneMoreLine(lines, n - 1, divs, closers, before);
    }
  }

  /** A document from its first line: every line closes, innermost first, the divs it is to close, and those open in the
   * end are those that no line left or closed. */
  method ScanDocument(lines: seq<Line>) returns (divs: Divs, closers: seq<seq<nat>>, ghost at: seq<nat>)
    ensures fresh(divs) && divs.Valid() && Tells(lines, |lines|, divs.divs, closers, at)
  {
    divs := new Divs();
    closers := divs.ScanAll(lines);
    assert lines[..|lines|] == lines;
    at := RunIs(lines, |lines|);
  }
}
