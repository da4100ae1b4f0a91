/** The last matching pass beyond the bound of its table: when it still finds a longest common subsequence. */
module GreedyPass {
  import opened MatchSides

  type Pairs = seq<(nat, nat)>

  function Longest(a: seq<string>, b: seq<string>): nat { Lcs(a, b, 0, 0) }

  // ----- Longest common subsequences

  lemma {:induction false} LcsIsReached(a: seq<string>, b: seq<string>, i: nat, j: nat) returns (pairs: Pairs)
    requires i <= |a| && j <= |b|
    ensures IsCommon(a, b, pairs, i, j) && |pairs| == Lcs(a, b, i, j)
  {
    WalkIsLongest(a, b, i, j);
    pairs := Walk(a, b, i, j);
  }

  lemma {:induction false} LcsIsBounded(a: seq<string>, b: seq<string>, i: nat, j: nat)
    requires i <= |a| && j <= |b|
    ensures Lcs(a, b, i, j) <= |a| - i && Lcs(a, b, i, j) <= |b| - j
    decreases |a| - i + |b| - j
  {
    if i < |a| && j < |b| {
      if a[i] == b[j] {
        LcsIsBounded(a, b, i + 1, j + 1);
      } else {
        LcsIsBounded(a, b, i + 1, j);
        LcsIsBounded(a, b, i, j + 1);
      }
    }
  }

  /** How many of the pairs lie among the first `m` places of `a`. */
  function CountBelow(pairs: Pairs, m: nat): (k: nat)
    ensures k <= |pairs|
    ensures (forall l :: 0 <= l < k ==> pairs[l].0 < m) && (k < |pairs| ==> pairs[k].0 >= m)
  {
    if pairs == [] || pairs[0].0 >= m then 0
    else
      var k := CountBelow(pairs[1..], m);
      assert forall l :: 0 < l < k + 1 ==> pairs[l] == pairs[1..][l - 1];
      k + 1
  }

  function Moved(pairs: Pairs, m: nat, e: nat): (r: Pairs)
    requires forall k :: 0 <= k < |pairs| ==> pairs[k].0 >= m && pairs[k].1 >= e
    ensures |r| == |pairs| && forall k :: 0 <= k < |r| ==> r[k] == (pairs[k].0 - m, pairs[k].1 - e)
  {
    seq(|pairs|, k requires 0 <= k < |pairs| => (pairs[k].0 - m, pairs[k].1 - e))
  }

  function MovedBack(pairs: Pairs, m: nat, e: nat): (r: Pairs)
    ensures |r| == |pairs| && forall k :: 0 <= k < |r| ==> r[k] == (pairs[k].0 + m, pairs[k].1 + e)
  {
    seq(|pairs|, k requires 0 <= k < |pairs| => (pairs[k].0 + m, pairs[k].1 + e))
  }

  /** A cut of both lists: what the parts before it have in common, and what the parts behind it have. */
  function CutAt(a: seq<string>, b: seq<string>, m: nat, e: nat): nat
    requires m <= |a| && e <= |b|
  {
    Longest(a[..m], b[..e]) + Longest(a[m..], b[e..])
  }

  lemma {:induction false} FrontOfCut(a: seq<string>, b: seq<string>, pairs: Pairs, m: nat, e: nat)
    requires m <= |a| && e <= |b| && IsCommon(a, b, pairs, 0, 0) &&
      forall l :: 0 <= l < |pairs| ==> pairs[l].0 < m && pairs[l].1 < e
    ensures |pairs| <= Longest(a[..m], b[..e])
  {
    assert IsCommon(a[..m], b[..e], pairs, 0, 0);
    LcsIsLongest(a[..m], b[..e], pairs, 0, 0);
  }

  lemma {:induction false} BackOfCut(a: seq<string>, b: seq<string>, pairs: Pairs, m: nat, e: nat)
    requires m <= |a| && e <= |b| && IsCommon(a, b, pairs, 0, 0) &&
      forall l :: 0 <= l < |pairs| ==> pairs[l].0 >= m && pairs[l].1 >= e
    ensures |pairs| <= Longest(a[m..], b[e..])
  {
    var back := Moved(pairs, m, e);
    forall k | 0 <= k < |back|
      ensures back[k].0 < |a[m..]| && back[k].1 < |b[e..]| && a[m..][back[k].0] == b[e..][back[k].1] {
      assert a[pairs[k].0] == b[pairs[k].1];
    }
    assert IsCommon(a[m..], b[e..], back, 0, 0);
    LcsIsLongest(a[m..], b[e..], back, 0, 0);
  }

  /** For every place in `a`, a longest common subsequence is cut somewhere in `b`. */
  lemma {:induction false} SomeCutReaches(a: seq<string>, b: seq<string>, m: nat) returns (e: nat)
    requires m <= |a|
    ensures e <= |b| && Longest(a, b) <= CutAt(a, b, m, e)
  {
    var pairs := LcsIsReached(a, b, 0, 0);
    var k := CountBelow(pairs, m);
    e := if k == 0 then 0 else pairs[k - 1].1 + 1;
    FrontOfCut(a, b, pairs[..k], m, e);
    BackOfCut(a, b, pairs[k..], m, e);
  }

  /** No cut has more in common than the whole. */
  lemma {:induction false} NoCutExceeds(a: seq<string>, b: seq<string>, m: nat, e: nat)
    requires m <= |a| && e <= |b|
    ensures CutAt(a, b, m, e) <= Longest(a, b)
  {
    var front := LcsIsReached(a[..m], b[..e], 0, 0);
    var back := LcsIsReached(a[m..], b[e..], 0, 0);
    var pairs := front + MovedBack(back, m, e);
    assert IsCommon(a, b, pairs, 0, 0);
    LcsIsLongest(a, b, pairs, 0, 0);
  }

  // ----- The greedy pass

  /** So many candidate pairings that there is no table. */
  predicate Wide(a: seq<string>, b: seq<string>) { |a| * |b| > TABLE_BOUND }

  /** How much of `a`, from its beginning, can be found in `b` in order. */
  function Front(a: seq<string>, b: seq<string>): nat { Embedded(a, b, 0, 0) }

  /** The shortest beginning of `b`, behind place `j`, in which as much of `a` can be found. */
  function Used(a: seq<string>, b: seq<string>, i: nat, j: nat): (e: nat)
    requires i <= |a| && j <= |b|
    ensures j <= e <= |b|
    decreases |b| - j
  {
    if Embedded(a, b, i, j) == 0 then j
    else if a[i] == b[j] then Used(a, b, i + 1, j + 1)
    else Used(a, b, i, j + 1)
  }

  lemma {:induction false} EmbedUses(a: seq<string>, b: seq<string>, i: nat, j: nat)
    requires i <= |a| && j <= |b|
    ensures forall k :: 0 <= k < |Embed(a, b, i, j)| ==> Embed(a, b, i, j)[k].1 < Used(a, b, i, j)
    decreases |b| - j
  {
    EmbedIsPrefix(a, b, i, j);
    if i < |a| && j < |b| {
      if a[i] == b[j] { EmbedUses(a, b, i + 1, j + 1); } else { EmbedUses(a, b, i, j + 1); }
    }
  }

  /** What the pass pairs: the front of `a`, within the used part of `b`. */
  lemma {:induction false} GreedyIsFront(a: seq<string>, b: seq<string>)
    requires Wide(a, b)
    ensures var pairs := RestPairs(a, b);
      && |pairs| == Front(a, b) <= Longest(a, b) && Front(a, b) <= |a| && Front(a, b) <= |b|
      && forall k :: 0 <= k < |pairs| ==> pairs[k].0 == k && pairs[k].1 < Used(a, b, 0, 0)
  {
    EmbedIsPrefix(a, b, 0, 0);
    EmbedUses(a, b, 0, 0);
    LcsIsLongest(a, b, RestPairs(a, b), 0, 0);
  }

  /**
   * The pass finds a longest common subsequence exactly if no cut of `b` gains more behind it, among the items the pass
   * left, than it costs among the items the pass placed.
   */
  lemma {:induction false} GreedyIsLongestIff(a: seq<string>, b: seq<string>)
    requires Wide(a, b)
    ensures var m := Front(a, b);
      |RestPairs(a, b)| == Longest(a, b) <==> forall e: nat :: e <= |b| ==> CutAt(a, b, m, e) <= m
  {
    var m := Front(a, b);
    GreedyIsFront(a, b);
    forall e: nat | e <= |b| ensures CutAt(a, b, m, e) <= Longest(a, b) { NoCutExceeds(a, b, m, e); }
    var e := SomeCutReaches(a, b, m);
  }

  predicate OccursFrom(kind: string, b: seq<string>, e: nat)
    requires e <= |b|
  {
    exists l :: e <= l < |b| && b[l] == kind
  }

  lemma {:induction false} NothingInCommon(a: seq<string>, b: seq<string>)
    requires forall k :: 0 <= k < |a| ==> !OccursFrom(a[k], b, 0)
    ensures Longest(a, b) == 0
  {
    var pairs := LcsIsReached(a, b, 0, 0);
    FirstOccurs(a, b, pairs);
  }

  lemma {:induction false} FirstOccurs(a: seq<string>, b: seq<string>, pairs: Pairs)
    requires IsCommon(a, b, pairs, 0, 0)
    ensures pairs == [] || (pairs[0].0 < |a| && OccursFrom(a[pairs[0].0], b, 0))
  {
    if pairs != [] { assert a[pairs[0].0] == b[pairs[0].1]; }
  }

  lemma {:induction false} OccursInRest(kind: string, b: seq<string>, e: nat)
    requires e <= |b|
    ensures OccursFrom(kind, b[e..], 0) ==> OccursFrom(kind, b, e) && OccursFrom(kind, b, 0)
  {
    if l :| 0 <= l < |b[e..]| && b[e..][l] == kind { assert b[e + l] == kind; }
  }

  lemma {:induction false} NothingInCommonFrom(a: seq<string>, b: seq<string>, e: nat)
    requires e <= |b| && forall k :: 0 <= k < |a| ==> !OccursFrom(a[k], b, 0)
    ensures Longest(a, b[e..]) == 0
  {
    forall k | 0 <= k < |a| ensures !OccursFrom(a[k], b[e..], 0) { OccursInRest(a[k], b, e); }
    NothingInCommon(a, b[e..]);
  }

  /** It is a longest one if all of `a` is placed, if all of `b` is used, or if `b` has no item of a kind that is
   * left in `a`. */
  lemma {:induction false} GreedyIsLongestWhen(a: seq<string>, b: seq<string>)
    requires Wide(a, b)
    requires Front(a, b) == |a| || Front(a, b) == |b| ||
      forall k :: Front(a, b) <= k < |a| ==> !OccursFrom(a[k], b, 0)
    ensures |RestPairs(a, b)| == Longest(a, b)
  {
    var m := Front(a, b);
    GreedyIsFront(a, b);
    LcsIsBounded(a, b, 0, 0);
    if m < |a| && m < |b| {
      forall k | 0 <= k < |a[m..]| ensures !OccursFrom(a[m..][k], b, 0) { assert a[m..][k] == a[m + k]; }
      forall e: nat | e <= |b| ensures CutAt(a, b, m, e) <= m {
        LcsIsBounded(a[..m], b[..e], 0, 0);
        NothingInCommonFrom(a[m..], b, e);
      }
      GreedyIsLongestIff(a, b);
    }
  }

  /** It is not if a kind that is left in `a` occurs behind the used part of `b`. */
  lemma {:induction false} GreedyIsNotLongestWhen(a: seq<string>, b: seq<string>, k: nat)
    requires Wide(a, b) && Front(a, b) <= k < |a| && OccursFrom(a[k], b, Used(a, b, 0, 0))
    ensures |RestPairs(a, b)| < Longest(a, b)
  {
    GreedyIsFront(a, b);
    var l :| Used(a, b, 0, 0) <= l < |b| && b[l] == a[k];
    OneMoreBehind(a, b, RestPairs(a, b), k, l);
  }

  lemma {:induction false} OneMoreBehind(a: seq<string>, b: seq<string>, pairs: Pairs, k: nat, l: nat)
    requires IsCommon(a, b, pairs, 0, 0) && k < |a| && l < |b| && a[k] == b[l]
    requires forall i :: 0 <= i < |pairs| ==> pairs[i].0 < k && pairs[i].1 < l
    ensures |pairs| < Longest(a, b)
  {
    var longer := pairs + [(k, l)];
    assert IsCommon(a, b, longer, 0, 0);
    LcsIsLongest(a, b, longer, 0, 0);
  }

  /** Where every kind left in `a` that `b` has at all it also has behind its used part, this decides. */
  lemma {:induction false} GreedyIsLongestIffNoneLeft(a: seq<string>, b: seq<string>)
    requires Wide(a, b)
    requires forall k :: Front(a, b) <= k < |a| && OccursFrom(a[k], b, 0) ==> OccursFrom(a[k], b, Used(a, b, 0, 0))
    ensures |RestPairs(a, b)| == Longest(a, b) <==> forall k :: Front(a, b) <= k < |a| ==> !OccursFrom(a[k], b, 0)
  {
    if k: nat :| Front(a, b) <= k < |a| && OccursFrom(a[k], b, 0) {
      GreedyIsNotLongestWhen(a, b, k);
    } else {
      GreedyIsLongestWhen(a, b);
    }
  }

  /** It pairs anything at all exactly when the kind of the first remaining base item occurs in the side. */
  lemma {:induction false} GreedyPairsIffFirstKindOccurs(a: seq<string>, b: seq<string>)
    requires a != [] && Wide(a, b)
    ensures RestPairs(a, b) != [] <==> OccursFrom(a[0], b, 0)
  {
    var pairs := RestPairs(a, b);
    GreedyIsFront(a, b);
    if pairs != [] { assert a[0] == b[pairs[0].1]; }
    if OccursFrom(a[0], b, 0) {
      var j: nat :| j < |b| && b[j] == a[0];
      var others: Pairs := [(0, j)];
      assert IsCommon(a, b, others, 0, 0);
      EmbedIsLongest(a, b, 0, 0, others);
    }
  }

  // ----- An input on which it is not

  function Paragraphs(n: nat): (r: seq<string>)
    ensures |r| == n && forall k :: 0 <= k < n ==> r[k] == "node:paragraph"
  {
    seq(n, _ => "node:paragraph")
  }

  /** A heading before a thousand paragraphs, against the paragraphs alone: the pass pairs none of them. */
  lemma {:induction false} OneHeadingHidesAll()
    ensures var a, b := ["node:heading"] + Paragraphs(1000), Paragraphs(1000);
      RestPairs(a, b) == [] && Longest(a, b) == 1000
  {
    var a, b := ["node:heading"] + Paragraphs(1000), Paragraphs(1000);
    assert a[0] == "node:heading" && |"node:heading"| != |"node:paragraph"|;
    assert |a| * |b| == 1001000;
    GreedyPairsIffFirstKindOccurs(a, b);
    var all: Pairs := seq(1000, k => (k + 1, k));
    assert IsCommon(a, b, all, 0, 0);
    LcsIsLongest(a, b, all, 0, 0);
    LcsIsBounded(a, b, 0, 0);
  }
}
