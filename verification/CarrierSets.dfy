/** The markers around one container: which bare fences close, and whether every fence is closed. */
module CarrierSets {
  import opened Wrappers

  function Colons(s: string): (n: nat)
    ensures n <= |s| && (forall k :: 0 <= k < n ==> s[k] == ':') && (n < |s| ==> s[n] != ':')
  {
    if s != "" && s[0] == ':' then 1 + Colons(s[1..]) else 0
  }

  /** The width of the colon fence a payload begins with, or 0. */
  function FenceWidth(payload: string): nat { if Colons(payload) >= 3 then Colons(payload) else 0 }

  predicate BareFence(payload: string) { FenceWidth(payload) == |payload| }

  /** What a balanced set looks like: lines, and fences around what is inside them, every fence wider than the one
   * around it. */
  datatype Part = Line(text: string) | Fence(opener: string, parts: seq<Part>)

  predicate WellFormed(parts: seq<Part>, outer: nat)
    decreases parts
  {
    forall i :: 0 <= i < |parts| ==> PartWellFormed(parts[i], outer)
  }

  predicate PartWellFormed(part: Part, outer: nat)
    decreases part
  {
    match part
    case Line(text) => FenceWidth(text) == 0
    case Fence(opener, parts) => FenceWidth(opener) > outer && WellFormed(parts, FenceWidth(opener))
  }

  function Colon(n: nat): string { seq(n, _ => ':') }

  /** The payloads from opener to closer, and which of them close. */
  function Payloads(parts: seq<Part>): seq<string>
    decreases parts
  {
    if parts == [] then [] else PartPayloads(parts[0]) + Payloads(parts[1..])
  }

  function PartPayloads(part: Part): seq<string>
    decreases part
  {
    match part
    case Line(text) => [text]
    case Fence(opener, parts) => [opener] + Payloads(parts) + [Colon(FenceWidth(opener))]
  }

  function Closers(parts: seq<Part>): seq<bool>
    decreases parts
  {
    if parts == [] then [] else PartClosers(parts[0]) + Closers(parts[1..])
  }

  function PartClosers(part: Part): seq<bool>
    decreases part
  {
    match part
    case Line(_) => [false]
    case Fence(_, parts) => [false] + Closers(parts) + [true]
  }

  // ----- One payload at a time

  function Innermost(stack: seq<nat>): nat { if stack == [] then 0 else stack[|stack| - 1] }

  datatype Step = Closes | Opens | Passes | Fails

  function StepOf(stack: seq<nat>, payload: string): (step: Step)
    ensures step == Closes && 0 !in stack ==> stack != []
  {
    var width := FenceWidth(payload);
    if width == 0 then Passes
    else if BareFence(payload) && stack != [] && Innermost(stack) == width then Closes
    else if width <= Innermost(stack) then Fails
    else Opens
  }

  function Next(stack: seq<nat>, payload: string): seq<nat> {
    match StepOf(stack, payload)
    case Closes => if stack == [] then [] else stack[..|stack| - 1]
    case Opens => stack + [FenceWidth(payload)]
    case _ => stack
  }

  /** The closers among the payloads, with so many fences open; none if a fence is too narrow or left open. */
  function Run(stack: seq<nat>, payloads: seq<string>): Option<seq<bool>>
    decreases |payloads|
  {
    if payloads == [] then (if stack == [] then Some([]) else None)
    else if StepOf(stack, payloads[0]) == Fails then None
    else match Run(Next(stack, payloads[0]), payloads[1..])
      case None => None
      case Some(rest) => Some([StepOf(stack, payloads[0]) == Closes] + rest)
  }

  function Prepend(closers: seq<bool>, r: Option<seq<bool>>): Option<seq<bool>> {
    match r case None => None case Some(rest) => Some(closers + rest)
  }

  lemma {:induction false} RunStep(stack: seq<nat>, payload: string, rest: seq<string>)
    requires StepOf(stack, payload) != Fails
    ensures Run(stack, [payload] + rest) == Prepend([StepOf(stack, payload) == Closes], Run(Next(stack, payload), rest))
  {
    assert ([payload] + rest)[1..] == rest;
  }

  lemma {:induction false} PrependTwice(a: seq<bool>, b: seq<bool>, r: Option<seq<bool>>)
    ensures Prepend(a, Prepend(b, r)) == Prepend(a + b, r)
  {
    if r.Some? { assert a + (b + r.value) == (a + b) + r.value; }
  }

  lemma {:induction false} PrependNothing(r: Option<seq<bool>>)
    ensures Prepend([], r) == r
  {
    if r.Some? { assert [] + r.value == r.value; }
  }

  // ----- Balanced sets are the ones that pass

  lemma {:induction false} ColonsOfColon(n: nat)
    ensures Colons(Colon(n)) == n
  {
  }

  /** The opener's width closes the fence it opened. */
  lemma {:induction false} CloserCloses(stack: seq<nat>, width: nat)
    requires width >= 3
    ensures StepOf(stack + [width], Colon(width)) == Closes && Next(stack + [width], Colon(width)) == stack
  {
    ColonsOfColon(width);
  }

  /** An opener, what passes inside it, and its closer. */
  lemma {:induction false} FenceRuns(opener: string, inside: seq<string>, closers: seq<bool>, stack: seq<nat>,
      rest: seq<string>)
    requires FenceWidth(opener) > Innermost(stack)
    requires var closing := [Colon(FenceWidth(opener))] + rest; var inner := stack + [FenceWidth(opener)];
      Run(inner, inside + closing) == Prepend(closers, Run(inner, closing))
    ensures Run(stack, ([opener] + inside + [Colon(FenceWidth(opener))]) + rest) ==
      Prepend([false] + closers + [true], Run(stack, rest))
  {
    var width := FenceWidth(opener);
    var inner, closing := stack + [width], [Colon(width)] + rest;
    assert StepOf(stack, opener) == Opens;
    RunStep(stack, opener, inside + closing);
    CloserCloses(stack, width);
    RunStep(inner, Colon(width), rest);
    assert ([opener] + inside + [Colon(width)]) + rest == [opener] + (inside + closing);
    PrependTwice(closers, [true], Run(stack, rest));
    PrependTwice([false], closers + [true], Run(stack, rest));
    assert [false] + (closers + [true]) == [false] + closers + [true];
  }

  lemma {:induction false} PartRuns(part: Part, stack: seq<nat>, rest: seq<string>)
    requires PartWellFormed(part, Innermost(stack))
    ensures Run(stack, PartPayloads(part) + rest) == Prepend(PartClosers(part), Run(stack, rest))
    decreases part
  {
    match part {
      case Line(text) => RunStep(stack, text, rest);
      case Fence(opener, parts) =>
        PartsRun(parts, stack + [FenceWidth(opener)], [Colon(FenceWidth(opener))] + rest);
        FenceRuns(opener, Payloads(parts), Closers(parts), stack, rest);
    }
  }

  lemma {:induction false} PartsRun(parts: seq<Part>, stack: seq<nat>, rest: seq<string>)
    requires WellFormed(parts, Innermost(stack))
    ensures Run(stack, Payloads(parts) + rest) == Prepend(Closers(parts), Run(stack, rest))
    decreases parts
  {
    if parts == [] {
      assert [] + rest == rest;
      PrependNothing(Run(stack, rest));
    } else {
      PartRuns(parts[0], stack, Payloads(parts[1..]) + rest);
      PartsRun(parts[1..], stack, rest);
      TwoRun(stack, PartPayloads(parts[0]), Payloads(parts[1..]), rest, PartClosers(parts[0]), Closers(parts[1..]));
    }
  }

  /** Two stretches of payloads, one after the other. */
  lemma {:induction false} TwoRun(stack: seq<nat>, a: seq<string>, b: seq<string>, rest: seq<string>, first: seq<bool>,
      second: seq<bool>)
    requires Run(stack, a + (b + rest)) == Prepend(first, Run(stack, b + rest)) &&
      Run(stack, b + rest) == Prepend(second, Run(stack, rest))
    ensures Run(stack, (a + b) + rest) == Prepend(first + second, Run(stack, rest))
  {
    assert (a + b) + rest == a + (b + rest);
    PrependTwice(first, second, Run(stack, rest));
  }

  /** What is still to come: the parts inside the innermost open fence, its closer, and so on outward. */
  function ToCome(levels: seq<seq<Part>>, stack: seq<nat>): seq<string>
    requires |levels| == |stack| + 1
    decreases |stack|
  {
    if stack == [] then Payloads(levels[0])
    else Payloads(levels[|stack|]) + ([Colon(Innermost(stack))] + ToCome(levels[..|stack|], stack[..|stack| - 1]))
  }

  ghost predicate Fit(levels: seq<seq<Part>>, stack: seq<nat>)
  {
    |levels| == |stack| + 1 &&
      forall k {:trigger levels[k]} :: 0 <= k <= |stack| ==> WellFormed(levels[k], Innermost(stack[..k]))
  }

  /** One part more inside the innermost fence. */
  lemma {:induction false} AddPart(levels: seq<seq<Part>>, stack: seq<nat>, part: Part) returns (more: seq<seq<Part>>)
    requires Fit(levels, stack) && PartWellFormed(part, Innermost(stack))
    ensures Fit(more, stack) && ToCome(more, stack) == PartPayloads(part) + ToCome(levels, stack)
  {
    var top := levels[|stack|];
    assert stack[..|stack|] == stack;
    more := levels[|stack| := [part] + top];
    assert ([part] + top)[1..] == top;
    assert more[..|stack|] == levels[..|stack|];
    forall k {:trigger more[k]} | 0 <= k <= |stack| ensures WellFormed(more[k], Innermost(stack[..k])) {
      if k == |stack| {
        forall i | 0 <= i < |more[k]| ensures PartWellFormed(more[k][i], Innermost(stack)) {
          if i > 0 { assert more[k][i] == top[i - 1]; }
        }
      } else {
        assert more[k] == levels[k];
      }
    }
    assert Payloads([part] + top) == PartPayloads(part) + Payloads(top);
  }

  /** Right before a closer, nothing more comes inside its fence. */
  lemma {:induction false} CloserFirst(stack: seq<nat>, payload: string, later: seq<seq<Part>>, rest: seq<string>)
      returns (levels: seq<seq<Part>>)
    requires StepOf(stack, payload) == Closes && Fit(later, Next(stack, payload)) &&
      ToCome(later, Next(stack, payload)) == rest
    ensures Fit(levels, stack) && ToCome(levels, stack) == [payload] + rest
  {
    var next, width := Next(stack, payload), Innermost(stack);
    levels := later + [[]];
    assert payload == Colon(width);
    assert stack == next + [width];
    NothingOnTop(later, next, width);
    assert [] + ([payload] + rest) == [payload] + rest;
  }

  lemma {:induction false} NothingOnTop(levels: seq<seq<Part>>, stack: seq<nat>, width: nat)
    requires Fit(levels, stack)
    ensures Fit(levels + [[]], stack + [width])
    ensures ToCome(levels + [[]], stack + [width]) == [] + ([Colon(width)] + ToCome(levels, stack))
  {
    var more, wider := levels + [[]], stack + [width];
    assert more[..|wider|] == levels && wider[..|wider| - 1] == stack;
    forall k {:trigger more[k]} | 0 <= k <= |wider| ensures WellFormed(more[k], Innermost(wider[..k])) {
      if k < |wider| {
        assert more[k] == levels[k] && wider[..k] == stack[..k];
      } else {
        assert wider[..k] == wider;
      }
    }
  }

  /** A set that passes with so many fences open is made up of parts inside them and of their closers. */
  lemma {:induction false} PassingIsMadeUp(stack: seq<nat>, payloads: seq<string>) returns (levels: seq<seq<Part>>)
    requires 0 !in stack && Run(stack, payloads).Some?
    ensures Fit(levels, stack) && ToCome(levels, stack) == payloads
    decreases |payloads|
  {
    if payloads == [] {
      levels := [[]];
    } else {
      var payload, rest := payloads[0], payloads[1..];
      var next := Next(stack, payload);
      assert 0 !in next;
      var later := PassingIsMadeUp(next, rest);
      assert payloads == [payload] + rest;
      match StepOf(stack, payload) {
        case Passes =>
          levels := AddPart(later, stack, Line(payload));
        case Closes => levels := CloserFirst(stack, payload, later, rest);
        case Opens =>
          levels := CloseOff(stack, payload, later, rest);
      }
    }
  }

  /** What was inside the innermost fence becomes a part of the next one out. */
  lemma {:induction false} CloseOff(stack: seq<nat>, opener: string, later: seq<seq<Part>>, rest: seq<string>)
      returns (levels: seq<seq<Part>>)
    requires FenceWidth(opener) > Innermost(stack)
    requires Fit(later, stack + [FenceWidth(opener)]) && ToCome(later, stack + [FenceWidth(opener)]) == rest
    ensures Fit(levels, stack) && ToCome(levels, stack) == [opener] + rest
  {
    var width := FenceWidth(opener);
    var wider := stack + [width];
    var inside, outside := later[|wider|], later[..|wider|];
    assert wider[..|wider|] == wider && wider[..|wider| - 1] == stack;
    forall k {:trigger outside[k]} | 0 <= k <= |stack| ensures WellFormed(outside[k], Innermost(stack[..k])) {
      assert outside[k] == later[k] && wider[..k] == stack[..k];
    }
    levels := AddPart(outside, stack, Fence(opener, inside));
    assert ([opener] + Payloads(inside) + [Colon(width)]) + ToCome(outside, stack)
        == [opener] + (Payloads(inside) + ([Colon(width)] + ToCome(outside, stack)));
  }

  ghost predicate Balanced(payloads: seq<string>, parts: seq<Part>)
  {
    WellFormed(parts, 0) && Payloads(parts) == payloads
  }

  /** A set passes exactly when it is balanced, and then the closers are those of its fences. */
  lemma {:induction false} PassesIffBalanced(payloads: seq<string>)
    ensures Run([], payloads).Some? <==> exists parts: seq<Part> :: Balanced(payloads, parts)
    ensures forall parts: seq<Part> :: Balanced(payloads, parts) ==> Run([], payloads) == Some(Closers(parts))
  {
    forall parts: seq<Part> | Balanced(payloads, parts) ensures Run([], payloads) == Some(Closers(parts)) {
      PartsRun(parts, [], []);
      assert Payloads(parts) + [] == payloads && Closers(parts) + [] == Closers(parts);
    }
    if Run([], payloads).Some? {
      var none: seq<nat> := [];
      var levels := PassingIsMadeUp(none, payloads);
      assert none[..0] == [] && WellFormed(levels[0], 0);
      assert Balanced(payloads, levels[0]);
    }
  }

  // ----- Lines and the openers they stand against

  predicate IsLine(payload: string) { FenceWidth(payload) == 0 }

  /** The widths of the fences that are open before payload `i`. */
  function OpenAt(stack: seq<nat>, payloads: seq<string>, i: nat): seq<nat>
    requires i <= |payloads|
    decreases i
  {
    if i == 0 then stack else OpenAt(Next(stack, payloads[0]), payloads[1..], i - 1)
  }

  /** What payload `i` does to the fences that are open there. */
  function StepAt(payloads: seq<string>, i: nat): Step
    requires i < |payloads|
  {
    StepOf(OpenAt([], payloads, i), payloads[i])
  }

  /** The closers that come out are the payloads that close the innermost open fence. */
  lemma {:induction false} ClosersAre(stack: seq<nat>, payloads: seq<string>, i: nat)
    requires Run(stack, payloads).Some? && i < |payloads|
    ensures |Run(stack, payloads).value| == |payloads|
    ensures Run(stack, payloads).value[i] <==> StepOf(OpenAt(stack, payloads, i), payloads[i]).Closes?
    ensures !StepOf(OpenAt(stack, payloads, i), payloads[i]).Fails?
    decreases |payloads|
  {
    if i > 0 {
      ClosersAre(Next(stack, payloads[0]), payloads[1..], i - 1);
    } else if |payloads| > 1 {
      ClosersAre(Next(stack, payloads[0]), payloads[1..], 0);
    }
  }

  /** A line alone passes, though no opener follows it. */
  lemma {:induction false} LineAlonePasses(line: string)
    requires IsLine(line)
    ensures Run([], [line]) == Some([false])
  {
    RunStep([], line, []);
    assert [line] + [] == [line] && [false] + [] == [false];
  }

  /** Past other lines only, a payload follows that opens a fence. */
  predicate StandsAgainstOpener(payloads: seq<string>, i: nat) {
    exists j {:trigger StepAt(payloads, j)} ::
      i < j < |payloads| && StepAt(payloads, j).Opens? && forall k :: i < k < j ==> IsLine(payloads[k])
  }

  /** What comes next is there and does not close the innermost open fence. */
  predicate GoesOn(payloads: seq<string>, i: nat) {
    i + 1 < |payloads| && !StepAt(payloads, i + 1).Closes?
  }

  lemma {:induction false} OpenerAhead(payloads: seq<string>, i: nat)
    requires Run([], payloads).Some? && i < |payloads| && IsLine(payloads[i])
    requires forall k: nat {:trigger GoesOn(payloads, k)} ::
      k < |payloads| && IsLine(payloads[k]) ==> GoesOn(payloads, k)
    ensures StandsAgainstOpener(payloads, i)
    decreases |payloads| - i
  {
    assert GoesOn(payloads, i);
    ClosersAre([], payloads, i + 1);
    if IsLine(payloads[i + 1]) {
      OpenerAhead(payloads, i + 1);
      var j :| i + 1 < j < |payloads| && StepAt(payloads, j).Opens? &&
        forall k :: i + 1 < k < j ==> IsLine(payloads[k]);
      assert StepAt(payloads, j).Opens?;
    } else {
      assert StepAt(payloads, i + 1).Opens?;
    }
  }

  /** In a set that passes, every line stands against an opener exactly if no line directly precedes a closer or the
   * end. */
  lemma {:induction false} LinesStandAgainstOpenersIff(payloads: seq<string>)
    requires Run([], payloads).Some?
    ensures (forall i: nat :: i < |payloads| && IsLine(payloads[i]) ==> StandsAgainstOpener(payloads, i)) <==>
            (forall i: nat :: i < |payloads| && IsLine(payloads[i]) ==> GoesOn(payloads, i))
  {
    if forall i: nat :: i < |payloads| && IsLine(payloads[i]) ==> GoesOn(payloads, i) {
      forall i: nat | i < |payloads| && IsLine(payloads[i]) ensures StandsAgainstOpener(payloads, i) {
        OpenerAhead(payloads, i);
      }
    }
    forall i: nat | i < |payloads| && IsLine(payloads[i]) && StandsAgainstOpener(payloads, i)
      ensures GoesOn(payloads, i) {
      GoesOnToOpener(payloads, i);
    }
  }

  lemma {:induction false} GoesOnToOpener(payloads: seq<string>, i: nat)
    requires i < |payloads| && StandsAgainstOpener(payloads, i)
    ensures GoesOn(payloads, i)
  {
    var j :| i < j < |payloads| && StepAt(payloads, j).Opens? && forall k :: i < k < j ==> IsLine(payloads[k]);
    if i + 1 < j { LineDoesNotClose(payloads, i + 1); }
  }

  lemma {:induction false} LineDoesNotClose(payloads: seq<string>, i: nat)
    requires i < |payloads| && IsLine(payloads[i])
    ensures StepAt(payloads, i).Passes?
  {
  }

  /** Tells the bare fences that close from those that open. */
  method CarrierSetClosers(payloads: seq<string>) returns (r: Option<seq<bool>>)
    ensures r == Run([], payloads)
    ensures r.Some? <==> exists parts: seq<Part> :: Balanced(payloads, parts)
    ensures forall parts: seq<Part> :: Balanced(payloads, parts) ==> r == Some(Closers(parts))
  {
    PassesIffBalanced(payloads);
    var stack: seq<nat> := [];
    var closers: seq<bool> := [];
    var i := 0;
    assert payloads[0..] == payloads;
    PrependNothing(Run([], payloads));
    while i < |payloads|
      invariant 0 <= i <= |payloads| && 0 !in stack
      invariant Prepend(closers, Run(stack, payloads[i..])) == Run([], payloads)
    {
      var payload := payloads[i];
      var width := FenceWidth(payload);
      var closer := BareFence(payload) && stack != [] && stack[|stack| - 1] == width;
      assert payloads[i..] == [payload] + payloads[i + 1..];
      if StepOf(stack, payload) != Fails {
        RunStep(stack, payload, payloads[i + 1..]);
        PrependTwice(closers, [closer], Run(Next(stack, payload), payloads[i + 1..]));
      }
      closers, i := closers + [closer], i + 1;
      if width == 0 { continue; }
      if closer {
        stack := stack[..|stack| - 1];
        continue;
      }
      if stack != [] && width <= stack[|stack| - 1] { return None; }
      stack := stack + [width];
    }
    r := if stack == [] then Some(closers) else None;
    assert closers + [] == closers;
  }
}
