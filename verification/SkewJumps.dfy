/** Jump pointers up a chain: from each depth one jump, and any ancestor in logarithmically many steps. */
module SkewJumps {

  /** The depth a jump leads to: two equal jumps in a row make one longer one. */
  function JumpTo(d: nat): (r: nat)
    ensures d > 0 ==> r < d
    ensures d == 0 ==> r == 0
  {
    if d == 0 then 0
    else
      var jump := JumpTo(d - 1);
      if d - 1 - jump == jump - JumpTo(jump) then JumpTo(jump) else d - 1
  }

  /** How far a jump goes. */
  function Width(d: nat): nat { d - JumpTo(d) }

  /** The widths a jump can have: 0, 1, 3, 7 and so on. */
  function FullWidth(level: nat): nat {
    if level == 0 then 0 else 2 * FullWidth(level - 1) + 1
  }

  lemma {:induction false} FullWidthsGrow(j: nat, k: nat)
    requires j < k
    ensures 2 * FullWidth(j) + 1 <= FullWidth(k)
  {
    if j < k - 1 { FullWidthsGrow(j, k - 1); }
  }

  lemma {:induction false} FullWidthsTell(j: nat, k: nat)
    ensures FullWidth(j) < FullWidth(k) <==> j < k
    ensures FullWidth(j) == FullWidth(k) <==> j == k
  {
    if j < k { FullWidthsGrow(j, k); }
    if k < j { FullWidthsGrow(k, j); }
  }

  /** Either two equal jumps become one, or the jump is to the next depth. */
  lemma {:induction false} JumpOf(d: nat)
    requires d > 0
    ensures Width(d - 1) == Width(JumpTo(d - 1)) ==>
      JumpTo(d) == JumpTo(JumpTo(d - 1)) && Width(d) == 2 * Width(d - 1) + 1
    ensures Width(d - 1) != Width(JumpTo(d - 1)) ==> JumpTo(d) == d - 1 && Width(d) == 1
  {
  }

  function Level(d: nat): nat {
    if d == 0 then 0 else if Width(d - 1) == Width(JumpTo(d - 1)) then Level(d - 1) + 1 else 1
  }

  lemma {:induction false} WidthIsFull(d: nat)
    ensures Width(d) == FullWidth(Level(d))
  {
    if d > 0 {
      JumpOf(d);
      WidthIsFull(d - 1);
      assert FullWidth(1) == 1 by { assert FullWidth(0) == 0; }
    }
  }

  lemma {:induction false} SameWidthIffSameLevel(c: nat, d: nat)
    ensures Width(c) == Width(d) <==> Level(c) == Level(d)
  {
    WidthIsFull(c);
    WidthIsFull(d);
    FullWidthsTell(Level(c), Level(d));
  }

  /** Jumps get wider, all but the first of them strictly. */
  lemma {:induction false} JumpsWiden(d: nat)
    ensures JumpTo(d) > 0 ==> Level(d) <= Level(JumpTo(d))
    ensures JumpTo(JumpTo(d)) > 0 ==> Level(JumpTo(d)) < Level(JumpTo(JumpTo(d)))
    decreases d, 1
  {
    if d > 0 {
      JumpsWiden(d - 1);
      if Width(d - 1) == Width(JumpTo(d - 1)) { MergedJumpsWiden(d); } else { ShortJumpsWiden(d); }
    }
  }

  lemma {:induction false} ShortJumpsWiden(d: nat)
    requires d > 0 && Width(d - 1) != Width(JumpTo(d - 1))
    requires JumpTo(d - 1) > 0 ==> Level(d - 1) <= Level(JumpTo(d - 1))
    ensures JumpTo(d) > 0 ==> Level(d) <= Level(JumpTo(d))
    ensures JumpTo(JumpTo(d)) > 0 ==> Level(JumpTo(d)) < Level(JumpTo(JumpTo(d)))
  {
    var c: nat := d - 1;
    ShortJump(d, c);
    if c > 0 { LevelIsPositive(c); }
    StrictlyWider(c, JumpTo(c));
  }

  lemma {:induction false} ShortJump(d: nat, c: nat)
    requires d > 0 && c == d - 1 && Width(c) != Width(JumpTo(c))
    ensures JumpTo(d) == c && Level(d) == 1
  {
    JumpOf(d);
  }

  lemma {:induction false} StrictlyWider(c: nat, jump: nat)
    requires Width(c) != Width(jump) && (jump > 0 ==> Level(c) <= Level(jump))
    ensures jump > 0 ==> Level(c) < Level(jump)
  {
    SameWidthIffSameLevel(c, jump);
  }

  lemma {:induction false} LevelIsPositive(d: nat)
    requires d > 0
    ensures Level(d) >= 1
  {
  }

  lemma {:induction false} MergedJumpsWiden(d: nat)
    requires d > 0 && Width(d - 1) == Width(JumpTo(d - 1))
    requires JumpTo(JumpTo(d - 1)) > 0 ==> Level(JumpTo(d - 1)) < Level(JumpTo(JumpTo(d - 1)))
    ensures JumpTo(d) > 0 ==> Level(d) <= Level(JumpTo(d))
    ensures JumpTo(JumpTo(d)) > 0 ==> Level(JumpTo(d)) < Level(JumpTo(JumpTo(d)))
    decreases d, 0
  {
    JumpOf(d);
    SameWidthIffSameLevel(d - 1, JumpTo(d - 1));
    JumpsWiden(JumpTo(d - 1));
  }

  /** Steps up the chain from depth `d` to depth `target`: a jump when it does not go too far, else one span. */
  function Steps(d: nat, target: nat): nat {
    if d <= target then 0
    else if JumpTo(d) >= target then 1 + Steps(JumpTo(d), target)
    else 1 + Steps(d - 1, target)
  }

  /** Inside the stretch that one jump covers. */
  lemma {:induction false} StepsWithinJump(d: nat, target: nat)
    requires JumpTo(d) < target <= d
    ensures Steps(d, target) + 2 <= 2 * Level(d)
    decreases d
  {
    var jump := JumpTo(d - 1);
    if d > target {
      JumpOf(d);
      SameWidthIffSameLevel(d - 1, jump);
      if jump > target { StepsWithinJump(jump, target); }
      if jump < target { StepsWithinJump(d - 1, target); }
    }
  }

  /** The widths of two jumps in a row may only be equal at the start. */
  predicate Twin(d: nat) { JumpTo(d) > 0 && Level(d) == Level(JumpTo(d)) }

  lemma {:induction false} StepsAcrossJumps(d: nat, target: nat, top: nat)
    requires target <= d && forall c {:trigger Level(c)} :: 0 <= c <= d ==> Level(c) <= top
    ensures Steps(d, target) + Level(d) <= 3 * top + if Twin(d) then 1 else 0
    decreases d
  {
    if d > target {
      JumpsWiden(d);
      if JumpTo(d) >= target { StepsAcrossJumps(JumpTo(d), target, top); } else { StepsWithinJump(d, target); }
    }
  }

  function Digits(n: nat): nat { if n == 0 then 0 else 1 + Digits(n / 2) }

  lemma {:induction false} DigitsGrow(m: nat, n: nat)
    requires m <= n
    ensures Digits(m) <= Digits(n)
    decreases n
  {
    if m > 0 { DigitsGrow(m / 2, n / 2); }
  }

  lemma {:induction false} DigitsOfFullWidth(level: nat)
    ensures Digits(FullWidth(level)) == level
  {
    if level > 0 {
      DigitsOfFullWidth(level - 1);
      assert FullWidth(level) / 2 == FullWidth(level - 1);
    }
  }

  /** Any ancestor is reached in at most three steps per binary digit of the depth, and one more. */
  lemma {:induction false} StepsAreLogarithmic(d: nat, target: nat)
    requires target <= d
    ensures Steps(d, target) <= 3 * Digits(d) + 1
  {
    forall c {:trigger Level(c)} | 0 <= c <= d ensures Level(c) <= Digits(d) {
      WidthIsFull(c);
      DigitsOfFullWidth(Level(c));
      DigitsGrow(Width(c), d);
    }
    StepsAcrossJumps(d, target, Digits(d));
  }

  // ----- Chains: each place links to a later one, and the last to the place after all of them

  ghost predicate Chain(next: seq<nat>) { forall i :: 0 <= i < |next| ==> i < next[i] <= |next| }

  /** The number of links to the end. */
  ghost function Depth(next: seq<nat>, i: nat): (d: nat)
    requires Chain(next) && i <= |next|
    ensures d <= |next| - i && (d == 0 <==> i == |next|)
    decreases |next| - i
  {
    if i == |next| then 0 else 1 + Depth(next, next[i])
  }

  /** The place `k` links further on. */
  ghost function Up(next: seq<nat>, i: nat, k: nat): (u: nat)
    requires Chain(next) && i <= |next| && k <= Depth(next, i)
    ensures i <= u <= |next| && Depth(next, u) == Depth(next, i) - k
    decreases k
  {
    if k == 0 then i else Up(next, next[i], k - 1)
  }

  lemma {:induction false} UpUp(next: seq<nat>, i: nat, j: nat, k: nat)
    requires Chain(next) && i <= |next| && j + k <= Depth(next, i)
    ensures Up(next, Up(next, i, j), k) == Up(next, i, j + k)
    decreases j
  {
    if j > 0 { UpUp(next, next[i], j - 1, k); }
  }

  /** A jump pointer leads to the ancestor at the depth its own depth jumps to. */
  ghost predicate JumpAt(next: seq<nat>, i: nat, jump: nat)
    requires Chain(next) && i <= |next|
  {
    jump == Up(next, i, Width(Depth(next, i)))
  }

  /** Merging two equal jumps into one gives the next jump pointer. */
  lemma {:induction false} JumpExtends(next: seq<nat>, i: nat, jump: nat, farther: nat)
    requires Chain(next) && i < |next| && JumpAt(next, next[i], jump) && JumpAt(next, jump, farther)
    ensures JumpAt(next, i, if Depth(next, next[i]) - Depth(next, jump) == Depth(next, jump) - Depth(next, farther)
      then farther else next[i])
  {
    var d := Depth(next, i);
    var w: nat := Width(d - 1);
    var v: nat := Width(d - 1 - w);
    WidthOf(d, w, v);
    JumpsMeet(next, i, jump, farther, w, v, Width(d));
  }

  /** The width at one depth, from those of the two jumps before it. */
  lemma {:induction false} WidthOf(d: nat, w: nat, v: nat)
    requires d > 0 && w == Width(d - 1) && v == Width(d - 1 - w)
    ensures Width(d) == if w == v then 2 * w + 1 else 1
  {
    JumpOf(d);
  }

  lemma {:induction false} JumpsMeet(next: seq<nat>, i: nat, jump: nat, farther: nat, w: nat, v: nat, width: nat)
    requires Chain(next) && i < |next| && w <= Depth(next, next[i]) && jump == Up(next, next[i], w)
    requires v <= Depth(next, jump) && farther == Up(next, jump, v)
    requires width == if w == v then 2 * w + 1 else 1
    ensures width <= Depth(next, i)
    ensures Up(next, i, width) == if Depth(next, next[i]) - Depth(next, jump) ==
      Depth(next, jump) - Depth(next, farther) then farther else next[i]
  {
    if w == v { MergedJump(next, i, jump, farther, w); } else { OneLink(next, i); }
  }

  lemma {:induction false} OneLink(next: seq<nat>, i: nat)
    requires Chain(next) && i < |next|
    ensures next[i] == Up(next, i, 1)
  {
    assert Up(next, next[i], 0) == next[i];
  }

  lemma {:induction false} MergedJump(next: seq<nat>, i: nat, jump: nat, farther: nat, w: nat)
    requires Chain(next) && i < |next| && 2 * w + 1 <= Depth(next, i)
    requires jump == Up(next, next[i], w) && farther == Up(next, jump, w)
    ensures farther == Up(next, i, 2 * w + 1)
  {
    UpUp(next, next[i], w, w);
  }
}
