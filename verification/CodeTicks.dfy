/** Code spans opened by backticks, and whether all that open in a stretch of text also close in it. */
module CodeTicks {
  import opened SkewJumps

  // ----- Runs of backticks

  predicate IsTick(text: string, i: int) { 0 <= i < |text| && text[i] == '`' }

  /** A run that cannot be extended on either side. */
  ghost predicate IsRun(text: string, at: nat, width: nat) {
    && width > 0 && at + width <= |text| && (forall i :: at <= i < at + width ==> IsTick(text, i))
    && !IsTick(text, at - 1) && !IsTick(text, at + width)
  }

  /** The number of backticks from a position on. */
  function TicksAt(text: string, at: nat): (n: nat)
    requires at <= |text|
    ensures at + n <= |text| && (forall i :: at <= i < at + n ==> IsTick(text, i)) && !IsTick(text, at + n)
    decreases |text| - at
  {
    if IsTick(text, at) then 1 + TicksAt(text, at + 1) else 0
  }

  predicate Ascending(s: seq<nat>) { forall i, j :: 0 <= i < j < |s| ==> s[i] < s[j] }

  function PlacesOf(runs: map<nat, seq<nat>>, width: nat): seq<nat> {
    if width in runs then runs[width] else []
  }

  /** The runs of this width that start below `n`. */
  ghost predicate RunsAre(runs: map<nat, seq<nat>>, text: string, n: nat, width: nat) {
    && Ascending(PlacesOf(runs, width))
    && forall at: nat {:trigger at in PlacesOf(runs, width)} ::
      at in PlacesOf(runs, width) <==> at < n && IsRun(text, at, width)
  }

  ghost predicate AllRuns(runs: map<nat, seq<nat>>, text: string, n: nat) {
    forall width {:trigger RunsAre(runs, text, n, width)} :: RunsAre(runs, text, n, width)
  }

  method FindRuns(text: string) returns (runs: map<nat, seq<nat>>)
    ensures AllRuns(runs, text, |text|)
  {
    runs := map[];
    var at := 0;
    forall width {:trigger RunsAre(runs, text, 0, width)} ensures RunsAre(runs, text, 0, width) {}
    while at < |text|
      invariant at <= |text| && AllRuns(runs, text, at)
      invariant !IsTick(text, at - 1) || !IsTick(text, at)
    {
      var width := TicksAt(text, at);
      ghost var before, from := runs, at;
      if width == 0 {
        at := at + 1;
        NoRunStarts(runs, text, from, at);
      } else {
        runs := runs[width := PlacesOf(runs, width) + [at]];
        at := at + width;
        OneMoreRun(before, text, from, width);
      }
    }
  }

  lemma {:induction false} NoRunStarts(runs: map<nat, seq<nat>>, text: string, from: nat, to: nat)
    requires AllRuns(runs, text, from) && from <= to
    requires forall at: nat, width: nat :: from <= at < to ==> !IsRun(text, at, width)
    ensures AllRuns(runs, text, to)
  {
    forall width {:trigger RunsAre(runs, text, to, width)} ensures RunsAre(runs, text, to, width) {
      assert RunsAre(runs, text, from, width);
    }
  }

  lemma {:induction false} OneMoreRun(runs: map<nat, seq<nat>>, text: string, from: nat, width: nat)
    requires AllRuns(runs, text, from) && width > 0 && from < |text| && width == TicksAt(text, from) &&
      !IsTick(text, from - 1)
    ensures AllRuns(runs[width := PlacesOf(runs, width) + [from]], text, from + width)
  {
    var more := runs[width := PlacesOf(runs, width) + [from]];
    forall w {:trigger RunsAre(more, text, from + width, w)} ensures RunsAre(more, text, from + width, w) {
      assert RunsAre(runs, text, from, w);
      forall i | 0 <= i < |PlacesOf(runs, w)| ensures PlacesOf(runs, w)[i] < from {
        assert PlacesOf(runs, w)[i] in PlacesOf(runs, w);
      }
      forall at: nat ensures at in PlacesOf(more, w) <==> at < from + width && IsRun(text, at, w) {
        RunsInRun(text, from, width, at, w);
      }
    }
  }

  /** Within a run only the run itself starts. */
  lemma {:induction false} RunsInRun(text: string, from: nat, width: nat, at: nat, w: nat)
    requires IsRun(text, from, width)
    ensures from <= at < from + width && IsRun(text, at, w) ==> at == from && w == width
  {
    if from <= at < from + width && IsRun(text, at, w) {
      assert IsTick(text, if at > from then at - 1 else from);
      assert IsTick(text, if w < width then at + w else from);
      assert !IsTick(text, from + width);
    }
  }

  // ----- Where spans open and close

  predicate IsPunctuation(c: char) { '!' <= c <= '/' || ':' <= c <= '@' || '[' <= c <= '`' || '{' <= c <= '~' }

  predicate EscapesAt(text: string, at: nat) { at + 1 < |text| && text[at] == '\\' && IsPunctuation(text[at + 1]) }

  /** The unescaped places below `stop` where backticks begin, from `at` on. */
  function Openers(text: string, at: nat, stop: nat): seq<nat>
    requires at <= |text| && stop <= |text|
    decreases |text| - at
  {
    if at >= stop then []
    else if EscapesAt(text, at) then Openers(text, at + 2, stop)
    else if !IsTick(text, at) then Openers(text, at + 1, stop)
    else [at] + Openers(text, at + TicksAt(text, at), stop)
  }

  ghost predicate Between(s: seq<nat>, from: nat, stop: nat) {
    Ascending(s) && forall k :: 0 <= k < |s| ==> from <= s[k] < stop
  }

  /** Openers come in order. */
  lemma {:induction false} OpenersAscend(text: string, at: nat, stop: nat)
    requires at <= |text| && stop <= |text|
    ensures Between(Openers(text, at, stop), at, stop)
    decreases |text| - at
  {
    if at < stop {
      if EscapesAt(text, at) {
        OpenersAscend(text, at + 2, stop);
      } else if !IsTick(text, at) {
        OpenersAscend(text, at + 1, stop);
      } else {
        OpenersAscend(text, at + TicksAt(text, at), stop);
        OneMoreBetween(Openers(text, at + TicksAt(text, at), stop), at, at + TicksAt(text, at), stop);
      }
    }
  }

  lemma {:induction false} OneMoreBetween(s: seq<nat>, at: nat, from: nat, stop: nat)
    requires Between(s, from, stop) && at < from && at < stop
    ensures Between([at] + s, at, stop)
  {
  }

  /** How many backslashes stand directly before a place. */
  function BackslashesBefore(text: string, at: nat): nat
    requires at <= |text|
  {
    if at > 0 && text[at - 1] == '\\' then 1 + BackslashesBefore(text, at - 1) else 0
  }

  predicate Escaped(text: string, at: nat)
    requires at <= |text|
  {
    BackslashesBefore(text, at) % 2 == 1
  }

  /** The first backtick of a run, or of what is left of one whose first backtick is escaped. */
  predicate Opens(text: string, at: nat) {
    && at < |text| && text[at] == '`' && !Escaped(text, at)
    && (at > 0 && text[at - 1] == '`' ==> Escaped(text, at - 1))
  }

  /** Where the scan can be: not behind the backslash of an escape, and not within a run. */
  ghost predicate Aligned(text: string, at: nat)
    requires at <= |text|
  {
    at == |text| ||
    (&& (Escaped(text, at) ==> text[at] != '\\' && text[at] != '`')
     && (IsTick(text, at) && at > 0 && IsTick(text, at - 1) ==> Escaped(text, at - 1)))
  }

  lemma {:induction false} PastEscape(text: string, at: nat)
    requires at < |text| && Aligned(text, at) && EscapesAt(text, at)
    ensures Aligned(text, at + 2) && !Opens(text, at) && !Opens(text, at + 1)
  {
  }

  lemma {:induction false} PastRun(text: string, at: nat)
    requires at < |text| && Aligned(text, at) && IsTick(text, at)
    ensures var end := at + TicksAt(text, at);
      Aligned(text, end) && Opens(text, at) && forall i :: at < i < end ==> !Opens(text, i)
  {
    forall i | at < i <= at + TicksAt(text, at) ensures text[i - 1] == '`' && BackslashesBefore(text, i) == 0 {
      assert IsTick(text, i - 1);
    }
  }

  /** The openers are exactly the backticks that open, from where the scan is. */
  lemma {:induction false} OpenersAre(text: string, at: nat, stop: nat, i: nat)
    requires at <= |text| && stop <= |text| && Aligned(text, at) && at <= i
    ensures i in Openers(text, at, stop) <==> i < stop && Opens(text, i)
    decreases |text| - at
  {
    if at < stop {
      var next := NextStep(text, at, stop);
      if next <= i { OpenersAre(text, next, stop, i); }
      OpenersAscend(text, next, stop);
    }
  }

  /** One step of the scan, over an escape, over a run that opens, or over anything else. */
  lemma {:induction false} NextStep(text: string, at: nat, stop: nat) returns (next: nat)
    requires at < stop <= |text| && Aligned(text, at)
    ensures at < next <= |text| && Aligned(text, next) && forall i :: at < i < next ==> !Opens(text, i)
    ensures Openers(text, at, stop) == (if Opens(text, at) then [at] else []) + Openers(text, next, stop)
  {
    if EscapesAt(text, at) {
      PastEscape(text, at);
      next := at + 2;
    } else if !IsTick(text, at) {
      next := at + 1;
    } else {
      PastRun(text, at);
      next := at + TicksAt(text, at);
    }
  }

  method ScanTicks(text: string, stop: nat) returns (starts: seq<nat>, widths: seq<nat>)
    requires stop <= |text|
    ensures starts == Openers(text, 0, stop) && |widths| == |starts|
    ensures forall k :: 0 <= k < |starts| ==> starts[k] < stop && widths[k] == TicksAt(text, starts[k]) > 0
  {
    starts, widths := [], [];
    var at := 0;
    while at < stop
      invariant at <= |text| && starts + Openers(text, at, stop) == Openers(text, 0, stop) && |widths| == |starts|
      invariant forall k :: 0 <= k < |starts| ==> starts[k] < stop && widths[k] == TicksAt(text, starts[k]) > 0
      decreases |text| - at
    {
      if EscapesAt(text, at) {
        at := at + 2;
      } else if !IsTick(text, at) {
        at := at + 1;
      } else {
        var width := TicksAt(text, at);
        assert starts + ([at] + Openers(text, at + width, stop)) == (starts + [at]) + Openers(text, at + width, stop);
        starts, widths := starts + [at], widths + [width];
        at := at + width;
      }
    }
  }

  /** How many of the ascending positions lie below `bound`. */
  function Index(positions: seq<nat>, bound: nat): (r: nat)
    ensures r <= |positions|
    ensures r < |positions| ==> positions[r] >= bound
    ensures Ascending(positions) ==> forall k :: 0 <= k < |positions| ==> (positions[k] < bound <==> k < r)
  {
    if positions == [] then 0
    else
      var init := positions[..|positions| - 1];
      var r := Index(init, bound);
      if r == |init| && positions[r] < bound then r + 1 else r
  }

  function CloseRun(runs: map<nat, seq<nat>>, length: nat, open: nat, width: nat): nat {
    var places := PlacesOf(runs, width);
    var i := Index(places, open + width);
    if i < |places| then places[i] else length
  }

  /** A span closes at the next run of its own width, and at the end of the text if there is none. */
  lemma {:induction false} CloseRunIsNext(runs: map<nat, seq<nat>>, text: string, open: nat, width: nat)
    requires AllRuns(runs, text, |text|)
    ensures var close := CloseRun(runs, |text|, open, width);
      && (forall at: nat :: open + width <= at < close ==> !IsRun(text, at, width))
      && ((IsRun(text, close, width) && open + width <= close) ||
        (close == |text| && forall at: nat :: open + width <= at ==> !IsRun(text, at, width)))
  {
    var places := PlacesOf(runs, width);
    assert RunsAre(runs, text, |text|, width);
    var i := Index(places, open + width);
    forall at: nat | open + width <= at && IsRun(text, at, width) ensures i < |places| && places[i] <= at {
      assert at in places;
      var k :| 0 <= k < |places| && places[k] == at;
      assert k == i || k > i;
    }
    if i < |places| { assert places[i] in places; }
  }

  // ----- The chain of spans

  /** Spans in order of their openers; each ends after it starts. */
  ghost predicate Spans(starts: seq<nat>, ends: seq<nat>) {
    |starts| == |ends| && Ascending(starts) && forall i :: 0 <= i < |starts| ==> starts[i] < ends[i]
  }

  /** Each span links to the first one that opens where it has ended. */
  ghost predicate Linked(starts: seq<nat>, ends: seq<nat>, next: seq<nat>) {
    Spans(starts, ends) && |next| == |starts| &&
      forall i {:trigger next[i]} :: 0 <= i < |next| ==> next[i] == Index(starts, ends[i])
  }

  lemma {:induction false} LinkedIsChain(starts: seq<nat>, ends: seq<nat>, next: seq<nat>)
    requires Linked(starts, ends, next)
    ensures Chain(next) && forall i :: 0 <= i < |next| && next[i] < |next| ==> ends[i] <= starts[next[i]]
  {
    forall i | 0 <= i < |next| ensures i < next[i] <= |next| && (next[i] < |next| ==> ends[i] <= starts[next[i]]) {
      assert next[i] == Index(starts, ends[i]);
    }
  }

  /** The slow form: from a position, look for the next span, and go on where it ends. */
  predicate Rescan(starts: seq<nat>, ends: seq<nat>, from: nat, end: nat)
    requires Spans(starts, ends)
    decreases |starts| - Index(starts, from)
  {
    var i := Index(starts, from);
    if i == |starts| || starts[i] >= end then true
    else if ends[i] > end then false
    else
      assert Index(starts, ends[i]) > i;
      Rescan(starts, ends, ends[i], end)
  }

  /** The spans as the walk sees them: ends, starts, and links. */
  ghost predicate Walkable(starts: seq<nat>, ends: seq<nat>, next: seq<nat>) {
    && |starts| == |ends| == |next| && Chain(next)
    && (forall i :: 0 <= i < |starts| ==> starts[i] < ends[i])
    && (forall i :: 0 <= i < |next| && next[i] < |next| ==> ends[i] <= starts[next[i]])
  }

  /** The walk, one span at a time. */
  ghost predicate Walk(starts: seq<nat>, ends: seq<nat>, next: seq<nat>, i: nat, end: nat)
    requires Walkable(starts, ends, next) && i <= |starts|
    decreases |starts| - i
  {
    i == |starts| || starts[i] >= end || (ends[i] <= end && Walk(starts, ends, next, next[i], end))
  }

  lemma {:induction false} RescanIsWalk(starts: seq<nat>, ends: seq<nat>, next: seq<nat>, from: nat, end: nat)
    requires Linked(starts, ends, next) && Walkable(starts, ends, next)
    ensures Rescan(starts, ends, from, end) <==> Walk(starts, ends, next, Index(starts, from), end)
    decreases |starts| - Index(starts, from)
  {
    var i := Index(starts, from);
    if i < |starts| && starts[i] < end && ends[i] <= end {
      assert next[i] == Index(starts, ends[i]) > i;
      RescanIsWalk(starts, ends, next, ends[i], end);
    }
  }

  /** Ends strictly increase up the chain. */
  lemma {:induction false} EndsGrow(starts: seq<nat>, ends: seq<nat>, next: seq<nat>, i: nat, k: nat)
    requires Walkable(starts, ends, next) && i <= |starts| && 0 < k < Depth(next, i)
    ensures var u := Up(next, i, k); u < |starts| && ends[i] <= starts[u] < ends[u]
    decreases k
  {
    if k > 1 { EndsGrow(starts, ends, next, next[i], k - 1); }
  }

  /** The span the walk stops at, because it opens too late or closes too late, or the end of the chain. */
  ghost function Stop(starts: seq<nat>, ends: seq<nat>, next: seq<nat>, i: nat, end: nat): (s: nat)
    requires Walkable(starts, ends, next) && i <= |starts|
    ensures i <= s <= |starts| && Depth(next, s) <= Depth(next, i)
    decreases |starts| - i
  {
    if i == |starts| || starts[i] >= end || ends[i] > end then i else Stop(starts, ends, next, next[i], end)
  }

  lemma {:induction false} WalkFromStop(starts: seq<nat>, ends: seq<nat>, next: seq<nat>, i: nat, end: nat)
    requires Walkable(starts, ends, next) && i <= |starts|
    ensures Walk(starts, ends, next, i, end) <==> Walk(starts, ends, next, Stop(starts, ends, next, i, end), end)
    decreases |starts| - i
  {
    if i < |starts| && starts[i] < end && ends[i] <= end { WalkFromStop(starts, ends, next, next[i], end); }
  }

  lemma {:induction false} BeyondStop(starts: seq<nat>, ends: seq<nat>, next: seq<nat>, i: nat, k: nat, end: nat)
    requires Walkable(starts, ends, next) && i < |starts| && 0 < k <= Depth(next, i) &&
      (starts[i] >= end || ends[i] > end)
    ensures var u := Up(next, i, k); u < |starts| ==> ends[u] > end
  {
    if k < Depth(next, i) { EndsGrow(starts, ends, next, i, k); }
  }

  /** A place up the chain is before the stop exactly when its span closes in time. */
  lemma {:induction false} BeforeStop(starts: seq<nat>, ends: seq<nat>, next: seq<nat>, i: nat, k: nat, end: nat)
    requires Walkable(starts, ends, next) && i <= |starts| && k <= Depth(next, i)
    ensures var u, s := Up(next, i, k), Stop(starts, ends, next, i, end);
      && (Depth(next, s) < Depth(next, u) <==> u < |starts| && ends[u] <= end)
      && (u < |starts| && ends[u] <= end ==> Stop(starts, ends, next, u, end) == s)
    decreases k
  {
    if k > 0 {
      if starts[i] < end && ends[i] <= end {
        BeforeStop(starts, ends, next, next[i], k - 1, end);
      } else {
        BeyondStop(starts, ends, next, i, k, end);
      }
    }
  }

  // ----- The index

  /** Where the search for closing spans may stop: behind the last bracket or parenthesis, if there is any link at
   * all. */
  function QueryEnd(text: string): (r: nat)
    ensures r <= |text|
  {
    if Occurs(text, '!', '[') || Occurs(text, '[', '^') || Occurs(text, ']', '(') then
      var bracket, parenthesis := LastOf(text, ']'), LastOf(text, ')');
      if bracket >= parenthesis then bracket else parenthesis
    else 0
  }

  predicate Occurs(text: string, c: char, d: char)
  {
    exists i :: 0 <= i < |text| - 1 && text[i] == c && text[i + 1] == d
  }

  function LastOf(text: string, c: char): (r: nat)
    ensures r <= |text|
  {
    if text == [] then 0 else if text[|text| - 1] == c then |text| - 1 else LastOf(text[..|text| - 1], c)
  }

  /** Where each span of backticks ends, closed or not. */
  function Ends(runs: map<nat, seq<nat>>, length: nat, starts: seq<nat>, widths: seq<nat>): (r: seq<nat>)
    requires |starts| == |widths|
    ensures |r| == |starts|
  {
    seq(|starts|, i requires 0 <= i < |starts| => CloseRun(runs, length, starts[i], widths[i]) + widths[i])
  }

  /** The steps from a depth to the depth of the stop. */
  ghost function Climb(d: nat, target: nat): nat {
    if d > target then 1 + Steps(d, target + 1) else 0
  }

  lemma {:induction false} ClimbIsLogarithmic(d: nat, target: nat, n: nat)
    requires d <= n
    ensures Climb(d, target) <= 3 * Digits(n) + 2
  {
    if d > target { StepsAreLogarithmic(d, target + 1); DigitsGrow(d, n); }
  }

  ghost predicate Waiting(starts: seq<nat>, ends: seq<nat>, next: seq<nat>, at: nat, end: nat, balanced: bool,
      target: nat)
    requires Walkable(starts, ends, next) && at <= |starts|
  {
    (Walk(starts, ends, next, at, end) <==> balanced) && Depth(next, Stop(starts, ends, next, at, end)) == target
  }

  /** A jump that ends in time passes only spans that do. */
  lemma {:induction false} JumpStep(starts: seq<nat>, ends: seq<nat>, next: seq<nat>, at: nat, jump: nat, end: nat,
      balanced: bool, target: nat)
    requires Walkable(starts, ends, next) && at < |starts| && JumpAt(next, at, jump) && jump < |starts| &&
      ends[jump] <= end
    requires Waiting(starts, ends, next, at, end, balanced, target)
    ensures at < jump && Waiting(starts, ends, next, jump, end, balanced, target)
    ensures Climb(Depth(next, at), target) == 1 + Climb(Depth(next, jump), target)
  {
    BeforeStop(starts, ends, next, at, Width(Depth(next, at)), end);
    WalkFromStop(starts, ends, next, at, end);
    WalkFromStop(starts, ends, next, jump, end);
  }

  /** Where the jump goes too far, one link is taken. */
  lemma {:induction false} LinkStep(starts: seq<nat>, ends: seq<nat>, next: seq<nat>, at: nat, jump: nat, end: nat,
      balanced: bool, target: nat)
    requires Walkable(starts, ends, next) && at < |starts| && JumpAt(next, at, jump) &&
      !(jump < |starts| && ends[jump] <= end)
    requires starts[at] < end && ends[at] <= end && Waiting(starts, ends, next, at, end, balanced, target)
    ensures Waiting(starts, ends, next, next[at], end, balanced, target)
    ensures Climb(Depth(next, at), target) == 1 + Climb(Depth(next, next[at]), target)
  {
    JumpTooFar(starts, ends, next, at, jump, end);
    LinkWaits(starts, ends, next, at, end, balanced, target);
    ClimbLink(Depth(next, at), target);
  }

  lemma {:induction false} LinkWaits(starts: seq<nat>, ends: seq<nat>, next: seq<nat>, at: nat, end: nat,
      balanced: bool, target: nat)
    requires Walkable(starts, ends, next) && at < |starts| && starts[at] < end && ends[at] <= end
    requires Waiting(starts, ends, next, at, end, balanced, target)
    ensures Waiting(starts, ends, next, next[at], end, balanced, target)
    ensures target < Depth(next, at) && Depth(next, at) - 1 == Depth(next, next[at])
  {
    assert Stop(starts, ends, next, at, end) == Stop(starts, ends, next, next[at], end);
  }

  lemma {:induction false} JumpTooFar(starts: seq<nat>, ends: seq<nat>, next: seq<nat>, at: nat, jump: nat, end: nat)
    requires Walkable(starts, ends, next) && at < |starts| && JumpAt(next, at, jump) &&
      !(jump < |starts| && ends[jump] <= end)
    ensures JumpTo(Depth(next, at)) <= Depth(next, Stop(starts, ends, next, at, end))
  {
    BeforeStop(starts, ends, next, at, Width(Depth(next, at)), end);
  }

  lemma {:induction false} ClimbLink(d: nat, target: nat)
    requires JumpTo(d) <= target < d
    ensures Climb(d, target) == 1 + Climb(d - 1, target)
  {
  }

  /** A span ends with the next run as wide as its opener, or behind the text if there is none. */
  ghost predicate SpanEnds(text: string, open: nat, end: nat) {
    open < |text| &&
    var width := TicksAt(text, open);
    && open + 2 * width <= end && (forall at: nat :: open + width <= at && at + width < end ==> !IsRun(text, at, width))
    && (IsRun(text, end - width, width) ||
      (end == |text| + width && forall at: nat :: open + width <= at ==> !IsRun(text, at, width)))
  }

  ghost predicate AllEnd(text: string, starts: seq<nat>, ends: seq<nat>)
    requires |starts| == |ends|
  {
    forall i {:trigger SpanEnds(text, starts[i], ends[i])} :: 0 <= i < |starts| ==> SpanEnds(text, starts[i], ends[i])
  }

  lemma {:induction false} SpanEndsThere(runs: map<nat, seq<nat>>, text: string, open: nat, width: nat, end: nat)
    requires AllRuns(runs, text, |text|) && open < |text| && width == TicksAt(text, open)
    requires end == CloseRun(runs, |text|, open, width) + width
    ensures SpanEnds(text, open, end)
  {
    CloseRunIsNext(runs, text, open, width);
  }

  function Links(starts: seq<nat>, ends: seq<nat>): (r: seq<nat>)
    ensures |r| == |ends| && forall i :: 0 <= i < |r| ==> r[i] == Index(starts, ends[i])
  {
    seq(|ends|, i requires 0 <= i < |ends| => Index(starts, ends[i]))
  }

  /** The jump pointer of a span, made from those of the span it links to. */
  function JumpOver(parent: nat, jumpOf: seq<nat>, depthOf: seq<nat>): nat
    requires |jumpOf| == |depthOf| && parent < |jumpOf| && jumpOf[parent] < |jumpOf| &&
      jumpOf[jumpOf[parent]] < |jumpOf|
    requires depthOf[parent] >= depthOf[jumpOf[parent]] >= depthOf[jumpOf[jumpOf[parent]]]
  {
    var jump := jumpOf[parent];
    var farther := jumpOf[jump];
    if depthOf[parent] - depthOf[jump] == depthOf[jump] - depthOf[farther] then farther else parent
  }

  ghost predicate JumpsFrom(next: seq<nat>, jumps: seq<nat>, from: nat)
    requires Chain(next)
  {
    |jumps| == |next| + 1 && forall i {:trigger jumps[i]} :: from <= i <= |next| ==> JumpAt(next, i, jumps[i])
  }

  ghost predicate DepthsFrom(next: seq<nat>, depths: seq<nat>, from: nat)
    requires Chain(next)
  {
    |depths| == |next| + 1 && forall i {:trigger depths[i]} :: from <= i <= |next| ==> depths[i] == Depth(next, i)
  }

  lemma {:induction false} CanJumpOver(next: seq<nat>, at: nat, jumpOf: seq<nat>, depthOf: seq<nat>)
    requires Chain(next) && at < |next| && JumpsFrom(next, jumpOf, at + 1) && DepthsFrom(next, depthOf, at + 1)
    ensures var parent := next[at];
      && parent < |jumpOf| && jumpOf[parent] < |jumpOf| && jumpOf[jumpOf[parent]] < |jumpOf|
      && depthOf[parent] >= depthOf[jumpOf[parent]] >= depthOf[jumpOf[jumpOf[parent]]]
      && JumpsFrom(next, jumpOf[at := JumpOver(parent, jumpOf, depthOf)], at) &&
        DepthsFrom(next, depthOf[at := depthOf[parent] + 1], at)
  {
    var parent := next[at];
    var jump := jumpOf[parent];
    assert JumpAt(next, parent, jump);
    var farther := jumpOf[jump];
    assert JumpAt(next, jump, farther);
    assert depthOf[parent] == Depth(next, parent) && depthOf[jump] == Depth(next, jump) &&
      depthOf[farther] == Depth(next, farther);
    JumpExtends(next, at, jump, farther);
  }

  ghost predicate LinksFrom(links: seq<nat>, next: seq<nat>, from: nat) {
    |next| == |links| + 1 && forall i :: from <= i < |links| ==> next[i] == links[i]
  }

  lemma {:induction false} OneMoreLink(links: seq<nat>, next: seq<nat>, at: nat)
    requires at < |links| && LinksFrom(links, next, at + 1)
    ensures LinksFrom(links, next[at := links[at]], at)
  {
  }

  function Filled(n: nat, v: nat): seq<nat> { seq(n, _ => v) }

  /** Fills the lists from the last span back to the first. */
  method Link(starts: seq<nat>, ends: seq<nat>) returns (next: seq<nat>, jumps: seq<nat>)
    requires Spans(starts, ends)
    ensures Linked(starts, ends, next) && Walkable(starts, ends, next) && JumpsFrom(next, jumps, 0)
  {
    var count := |starts|;
    var nextOf: seq<nat> := Filled(count + 1, count);
    var jumpOf: seq<nat> := Filled(count + 1, count);
    var depthOf: seq<nat> := Filled(count + 1, 0);
    ghost var links := Links(starts, ends);
    LinkedIsChain(starts, ends, links);
    for at := count downto 0
      invariant LinksFrom(links, nextOf, at) && JumpsFrom(links, jumpOf, at) && DepthsFrom(links, depthOf, at)
    {
      var parent := Index(starts, ends[at]);
      CanJumpOver(links, at, jumpOf, depthOf);
      OneMoreLink(links, nextOf, at);
      nextOf := nextOf[at := parent];
      jumpOf, depthOf := jumpOf[at := JumpOver(parent, jumpOf, depthOf)], depthOf[at := depthOf[parent] + 1];
    }
    assert nextOf[..count] == links;
    next, jumps := nextOf[..count], jumpOf;
  }

  // ----- The answer, said of the text alone

  /** The first run of a width from a position on, or the end of the text. */
  ghost function RunFrom(text: string, at: nat, width: nat): nat
    decreases if at < |text| then |text| - at else 0
  {
    if at >= |text| then |text| else if IsRun(text, at, width) then at else RunFrom(text, at + 1, width)
  }

  lemma {:induction false} RunFromIs(text: string, at: nat, width: nat)
    ensures var run := RunFrom(text, at, width);
      && run <= |text| && (forall i: nat :: at <= i < run ==> !IsRun(text, i, width))
      && (run < |text| ==> at <= run && IsRun(text, run, width))
    decreases if at < |text| then |text| - at else 0
  {
    if at < |text| && !IsRun(text, at, width) { RunFromIs(text, at + 1, width); }
  }

  /** Behind the next run as wide as the one that opens there. */
  ghost function SpanEnd(text: string, open: nat): (end: nat)
    requires Opens(text, open)
    ensures end > open
  {
    var width := TicksAt(text, open);
    RunFromIs(text, open + width, width);
    RunFrom(text, open + width, width) + width
  }

  lemma {:induction false} SpanEndIs(text: string, open: nat, end: nat)
    requires Opens(text, open) && SpanEnds(text, open, end)
    ensures SpanEnd(text, open) == end
  {
    var width := TicksAt(text, open);
    RunFromIs(text, open + width, width);
    var run := RunFrom(text, open + width, width);
    if run < |text| { assert IsRun(text, run, width); }
    if IsRun(text, end - width, width) { assert open + width <= end - width; }
  }

  /** From a position on, every span that opens before `end` also ends there; within a span none opens. */
  ghost predicate AllClose(text: string, from: nat, end: nat)
    decreases if from < end then end - from else 0
  {
    if from >= end then true
    else if !Opens(text, from) then AllClose(text, from + 1, end)
    else SpanEnd(text, from) <= end && AllClose(text, SpanEnd(text, from), end)
  }

  /** An image, a footnote or a link may begin somewhere. */
  predicate HasLink(text: string) { Contains(text, "![") || Contains(text, "[^") || Contains(text, "](") }

  predicate StandsAt(text: string, i: nat, s: string) { i + |s| <= |text| && text[i..i + |s|] == s }

  predicate Contains(text: string, s: string) { exists i: nat :: i < |text| && StandsAt(text, i, s) }

  lemma {:induction false} LastOfIsLast(text: string, c: char, i: nat)
    requires i < |text| && text[i] == c
    ensures i <= LastOf(text, c)
  {
    if text[|text| - 1] != c { LastOfIsLast(text[..|text| - 1], c, i); }
  }

  lemma {:induction false} PairOccurs(text: string, c: char, d: char)
    requires Contains(text, [c, d])
    ensures Occurs(text, c, d)
  {
    var i: nat :| i < |text| && StandsAt(text, i, [c, d]);
    assert text[i] == text[i..i + 2][0] && text[i + 1] == text[i..i + 2][1];
  }

  /** A bracket or parenthesis lies no farther than the openers reach. */
  lemma {:induction false} QueryEndReaches(text: string, end: nat)
    requires HasLink(text) && end < |text| && (text[end] == ']' || text[end] == ')')
    ensures end <= QueryEnd(text)
  {
    if Contains(text, "![") {
      PairOccurs(text, '!', '[');
    } else if Contains(text, "[^") {
      PairOccurs(text, '[', '^');
    } else {
      PairOccurs(text, ']', '(');
    }
    LastOfIsLast(text, text[end], end);
  }

  lemma {:induction false} SameRescan(starts: seq<nat>, ends: seq<nat>, from: nat, end: nat)
    requires Spans(starts, ends) && from !in starts
    ensures Rescan(starts, ends, from, end) == Rescan(starts, ends, from + 1, end)
  {
    var i := Index(starts, from);
    assert forall k :: 0 <= k < |starts| ==> (starts[k] < from <==> starts[k] < from + 1);
    assert Index(starts, from + 1) == i;
  }

  lemma {:induction false} SpanAt(text: string, starts: seq<nat>, ends: seq<nat>, k: nat, end: nat)
    requires Spans(starts, ends) && k < |starts| && SpanEnds(text, starts[k], ends[k]) && Opens(text, starts[k])
    ensures ends[k] == SpanEnd(text, starts[k])
    ensures starts[k] < end ==>
      (Rescan(starts, ends, starts[k], end) <==> ends[k] <= end && Rescan(starts, ends, ends[k], end))
  {
    assert Index(starts, starts[k]) == k;
    SpanEndIs(text, starts[k], ends[k]);
  }

  /** The rescan over the openers asks of the text just that. */
  lemma {:induction false} RescanIsAllClose(text: string, starts: seq<nat>, ends: seq<nat>, stop: nat, from: nat,
      end: nat)
    requires Spans(starts, ends) && stop <= |text| && starts == Openers(text, 0, stop) && end <= stop
    requires AllEnd(text, starts, ends)
    ensures Rescan(starts, ends, from, end) <==> AllClose(text, from, end)
    decreases if from < end then end - from else 0
  {
    if from < end {
      OpenersAre(text, 0, stop, from);
      if Opens(text, from) {
        var k :| 0 <= k < |starts| && starts[k] == from;
        assert SpanEnds(text, starts[k], ends[k]);
        SpanAt(text, starts, ends, k, end);
        if ends[k] <= end { RescanIsAllClose(text, starts, ends, stop, ends[k], end); }
      } else {
        SameRescan(starts, ends, from, end);
        RescanIsAllClose(text, starts, ends, stop, from + 1, end);
      }
    }
  }

  class CodeTicks {
    ghost const text: string
    const starts: seq<nat>
    const ends: seq<nat>
    const next: seq<nat>
    const jumps: seq<nat>

    ghost predicate Valid() {
      && Linked(starts, ends, next) && Walkable(starts, ends, next)
      && JumpsFrom(next, jumps, 0)
      && starts == Openers(text, 0, QueryEnd(text))
      && AllEnd(text, starts, ends)
    }

    constructor (text: string)
      ensures Valid() && this.text == text
    {
      var runs := FindRuns(text);
      var openers, widths := ScanTicks(text, QueryEnd(text));
      OpenersAscend(text, 0, QueryEnd(text));
      var finishes := Ends(runs, |text|, openers, widths);
      var links, pointers := Link(openers, finishes);
      forall i | 0 <= i < |openers| ensures SpanEnds(text, openers[i], finishes[i]) {
        SpanEndsThere(runs, text, openers[i], widths[i], finishes[i]);
      }
      this.text, starts, ends, next, jumps := text, openers, finishes, links, pointers;
    }

    lemma {:induction false} AnswerIsAllClose(from: nat, end: nat)
      requires Valid()
      ensures HasLink(text) && end < |text| && (text[end] == ']' || text[end] == ')') ==>
        (Rescan(starts, ends, from, end) <==> AllClose(text, from, end))
    {
      if HasLink(text) && end < |text| && (text[end] == ']' || text[end] == ')') {
        QueryEndReaches(text, end);
        RescanIsAllClose(text, starts, ends, QueryEnd(text), from, end);
      }
    }

    /** Whether every span that opens between two positions also ends there: jumps over spans that do, and needs few
     * steps. */
    method Balanced(from: nat, end: nat) returns (balanced: bool, ghost steps: nat)
      requires Valid()
      ensures balanced <==> Rescan(starts, ends, from, end)
      ensures HasLink(text) && end < |text| && (text[end] == ']' || text[end] == ')') ==>
        (balanced <==> AllClose(text, from, end))
      ensures steps <= 3 * Digits(|starts|) + 3
    {
      var at := Index(starts, from);
      ghost var answer := Rescan(starts, ends, from, end);
      ghost var target := Depth(next, Stop(starts, ends, next, at, end));
      ghost var total := Climb(Depth(next, at), target);
      ClimbIsLogarithmic(Depth(next, at), target, |starts|);
      RescanIsWalk(starts, ends, next, from, end);
      AnswerIsAllClose(from, end);
      steps := 0;
      while at < |starts| && starts[at] < end
        invariant at <= |starts| && Waiting(starts, ends, next, at, end, answer, target)
        invariant steps + Climb(Depth(next, at), target) == total
        decreases |starts| - at
      {
        var jump := jumps[at];
        steps := steps + 1;
        if jump < |starts| && ends[jump] <= end {
          JumpStep(starts, ends, next, at, jump, end, answer, target);
          at := jump;
        } else if ends[at] <= end {
          LinkStep(starts, ends, next, at, jump, end, answer, target);
          at := next[at];
        } else {
          return false, steps;
        }
      }
      return true, steps;
    }
  }
}
