/** In which turn the tokens of a merged sequence come. */
module MergeTurns {
  import MergeOrder
  import opened SequencePlan

  /** Base items go first, then additions of ours, then those of theirs; of one sort the lower number goes first. */
  ghost predicate Ahead(s: Token, t: Token) {
    || (exists i: nat, j: nat :: s == Base(i) && (t == Ours(j) || t == Theirs(j) || (t == Base(j) && i < j)))
    || (exists i: nat, j: nat :: s == Ours(i) && (t == Theirs(j) || (t == Ours(j) && i < j)))
    || (exists i: nat, j: nat :: s == Theirs(i) && t == Theirs(j) && i < j)
  }

  lemma {:induction false} AheadIsBefore(s: Token, t: Token)
    requires Ahead(s, t)
    ensures MergeOrder.Before(s, t) && !MergeOrder.Before(t, s)
  {
  }

  lemma {:induction false} InFront(order: seq<Token>, x: nat, z: nat)
    requires x <= |order| && z < |order|
    ensures z < x ==> order[z] in order[..x]
  {
    if z < x { assert order[..x][z] == order[z]; }
  }

  /** A token that is not ready must come behind another that is not done. */
  lemma {:induction false} NotReady(order: seq<Token>, all: set<Token>, edges: MergeOrder.Edges, x: nat, y: nat)
      returns (z: nat)
    requires MergeOrder.IsTopological(order, all, edges) && x <= y < |order|
    requires order[y] !in MergeOrder.Ready(edges, all, MergeOrder.Elements(order[..x]))
    ensures x <= z < y && MergeOrder.Edge(edges, order[z], order[y])
  {
    var done, s := MergeOrder.Elements(order[..x]), order[y];
    assert s !in order[..x];
    var u :| u in MergeOrder.Pending(edges, all, done, s);
    z :| 0 <= z < |order| && order[z] == u;
    InFront(order, x, z);
  }

  /** Where a token stands behind one it goes ahead of, another that must precede it stands between, or is that one. */
  lemma {:induction false} OutOfTurn(p: Plan, x: nat, y: nat) returns (z: nat)
    requires Ordered(p) && x < y < |p.order| && Ahead(p.order[y], p.order[x])
    ensures x <= z < y && MergeOrder.Edge(p.edges, p.order[z], p.order[y])
  {
    var all := MergeOrder.Elements(p.OurTokens()) + MergeOrder.Elements(p.TheirTokens());
    AheadIsBefore(p.order[y], p.order[x]);
    assert MergeOrder.GreedyAt(p.order, all, p.edges, x);
    z := NotReady(p.order, all, p.edges, x, y);
  }
}
