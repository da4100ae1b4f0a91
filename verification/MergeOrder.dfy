/** The ordering step of a sequence merge: both sides' orders as edges, and a topological sort of them. */
module MergeOrder {
  import opened Wrappers

  /** An element of the merged sequence: a base item, or an item one side added. */
  datatype Token = Token(tag: char, index: nat)

  predicate IsBase(t: Token) { t.tag == 'b' }

  /** The order in which ready tokens are taken. */
  predicate Before(s: Token, t: Token) {
    s.tag < t.tag || (s.tag == t.tag && s.index < t.index)
  }

  predicate IsFirst(t: Token, tokens: set<Token>) {
    t in tokens && forall s :: s in tokens && s != t ==> Before(t, s)
  }

  lemma {:induction false} FirstExists(tokens: set<Token>) returns (t: Token)
    requires tokens != {}
    ensures IsFirst(t, tokens)
  {
    t :| t in tokens;
    if tokens != {t} {
      var first := FirstExists(tokens - {t});
      if Before(t, first) {
        forall s | s in tokens && s != t ensures Before(t, s) { assert s == first || Before(first, s); }
      } else {
        forall s | s in tokens && s != first ensures Before(first, s) { assert s == t || s in tokens - {t}; }
        t := first;
      }
    }
  }

  function First(tokens: set<Token>): (t: Token)
    requires tokens != {}
    ensures IsFirst(t, tokens)
  {
    assert exists t :: IsFirst(t, tokens) by { var t := FirstExists(tokens); }
    var t :| IsFirst(t, tokens);
    t
  }

  // ----- Graphs

  type Edges = map<Token, set<Token>>

  predicate Edge(edges: Edges, s: Token, t: Token) { s in edges && t in edges[s] }

  ghost predicate Within(edges: Edges, all: set<Token>) {
    forall s, t :: Edge(edges, s, t) ==> s in all && t in all
  }

  ghost predicate StepAt(edges: Edges, p: seq<Token>, i: nat)
    requires i + 1 < |p|
  {
    Edge(edges, p[i], p[i + 1])
  }

  ghost predicate IsPath(edges: Edges, p: seq<Token>) {
    |p| > 0 && forall i {:trigger StepAt(edges, p, i)} :: 0 <= i < |p| - 1 ==> StepAt(edges, p, i)
  }

  ghost predicate IsCycle(edges: Edges, p: seq<Token>) {
    |p| > 1 && IsPath(edges, p) && p[0] == p[|p| - 1]
  }

  ghost predicate Acyclic(edges: Edges) { forall p :: !IsCycle(edges, p) }

  lemma {:induction false} SameEdgesSameCycles(edges: Edges, other: Edges)
    requires Acyclic(edges) && forall s, t :: Edge(edges, s, t) <==> Edge(other, s, t)
    ensures Acyclic(other)
  {
    forall p | IsCycle(other, p) ensures IsCycle(edges, p) {
      forall i {:trigger StepAt(edges, p, i)} | 0 <= i < |p| - 1 ensures StepAt(edges, p, i) {
        assert StepAt(other, p, i);
      }
    }
  }

  ghost predicate Distinct<T>(s: seq<T>) { forall i, j :: 0 <= i < j < |s| ==> s[i] != s[j] }

  /** Every edge leads forward in `order`. */
  ghost predicate Respects(order: seq<Token>, edges: Edges) {
    forall i, j :: 0 <= i < |order| && 0 <= j < |order| && Edge(edges, order[i], order[j]) ==> i < j
  }

  /** `order` lists the tokens of `all`, each once. */
  ghost predicate Lists(order: seq<Token>, all: set<Token>) {
    Distinct(order) && forall t :: t in order <==> t in all
  }

  ghost predicate IsTopological(order: seq<Token>, all: set<Token>, edges: Edges) {
    Lists(order, all) && Respects(order, edges)
  }

  /** The predecessors of `t` that are not done. */
  ghost function Pending(edges: Edges, all: set<Token>, done: set<Token>, t: Token): set<Token> {
    set s | s in all && s !in done && Edge(edges, s, t)
  }

  // ----- The sort

  ghost function Elements(order: seq<Token>): set<Token> { set t | t in order }

  /** What has been sorted so far is a run of the algorithm: each token was the first ready one. */
  ghost predicate Greedy(order: seq<Token>, all: set<Token>, edges: Edges) {
    forall i {:trigger GreedyAt(order, all, edges, i)} :: 0 <= i < |order| ==> GreedyAt(order, all, edges, i)
  }

  ghost predicate GreedyAt(order: seq<Token>, all: set<Token>, edges: Edges, i: nat)
    requires i < |order|
  {
    IsFirst(order[i], Ready(edges, all, Elements(order[..i])))
  }

  ghost function Ready(edges: Edges, all: set<Token>, done: set<Token>): set<Token> {
    set t | t in all && t !in done && Pending(edges, all, done, t) == {}
  }

  /** The incoming edges not yet taken away, counted per token. */
  ghost predicate Counts(incoming: map<Token, nat>, edges: Edges, all: set<Token>, done: set<Token>) {
    incoming.Keys == all && forall t :: t in all ==> incoming[t] == |Pending(edges, all, done, t)|
  }

  method CountIncoming(all: set<Token>, edges: Edges) returns (incoming: map<Token, nat>)
    requires Within(edges, all) && edges.Keys <= all
    ensures Counts(incoming, edges, all, {})
  {
    incoming := map t | t in all :: 0;
    var sources := all;
    assert forall t :: t in all ==> Pending(edges, all, sources, t) == {};
    while sources != {}
      invariant sources <= all && Counts(incoming, edges, all, sources)
      decreases sources
    {
      var s := First(sources);
      incoming := AddTargets(incoming, all, edges, s, sources);
      sources := sources - {s};
    }
  }

  /** Counts the edges out of one more token. */
  method AddTargets(counts: map<Token, nat>, all: set<Token>, edges: Edges, s: Token, left: set<Token>)
      returns (incoming: map<Token, nat>)
    requires Within(edges, all) && s in left && left <= all && Counts(counts, edges, all, left)
    ensures Counts(incoming, edges, all, left - {s})
  {
    incoming := counts;
    var targets := if s in edges then edges[s] else {};
    ghost var every := targets;
    while targets != {}
      invariant targets <= every && incoming.Keys == all
      invariant forall t :: t in all ==> incoming[t] == counts[t] + if t in every - targets then 1 else 0
      decreases targets
    {
      var t := First(targets);
      assert Edge(edges, s, t);
      incoming := incoming[t := incoming[t] + 1];
      targets := targets - {t};
    }
    forall t | t in all ensures incoming[t] == |Pending(edges, all, left - {s}, t)| {
      PendingWithout(edges, all, left, s, t);
    }
  }

  lemma {:induction false} PendingWithout(edges: Edges, all: set<Token>, done: set<Token>, s: Token, t: Token)
    requires s in done && s in all
    ensures |Pending(edges, all, done - {s}, t)| == |Pending(edges, all, done, t)| + if Edge(edges, s, t) then 1 else 0
  {
    var more, less := Pending(edges, all, done - {s}, t), Pending(edges, all, done, t);
    if Edge(edges, s, t) {
      assert more == less + {s};
    } else {
      assert more == less;
    }
  }

  /** What is sorted waits for nothing. */
  ghost predicate Settled(edges: Edges, all: set<Token>, done: set<Token>) {
    forall t :: t in done ==> Pending(edges, all, done, t) == {}
  }

  /** Counts each of the targets down by one; those that reach zero become ready. */
  method Lower(counts: map<Token, nat>, waiting: set<Token>, every: set<Token>)
      returns (incoming: map<Token, nat>, ready: set<Token>)
    requires every <= counts.Keys && forall t :: t in every ==> counts[t] > 0
    ensures incoming.Keys == counts.Keys
    ensures forall t :: t in counts ==> incoming[t] == counts[t] - if t in every then 1 else 0
    ensures forall t :: t in ready <==> t in waiting || (t in every && incoming[t] == 0)
  {
    incoming, ready := counts, waiting;
    var targets := every;
    while targets != {}
      invariant targets <= every && incoming.Keys == counts.Keys
      invariant forall t :: t in counts ==> incoming[t] == counts[t] - if t in every - targets then 1 else 0
      invariant forall t :: t in ready <==> t in waiting || (t in every - targets && incoming[t] == 0)
      decreases targets
    {
      var t := First(targets);
      incoming := incoming[t := incoming[t] - 1];
      if incoming[t] == 0 { ready := ready + {t}; }
      targets := targets - {t};
    }
  }

  /** Takes away the edges out of `token`; the tokens that have none left become ready. */
  method Release(counts: map<Token, nat>, waiting: set<Token>, all: set<Token>, edges: Edges, token: Token,
      ghost done: set<Token>)
    returns (incoming: map<Token, nat>, ready: set<Token>)
    requires Within(edges, all) && token in all && token !in done && Counts(counts, edges, all, done)
    requires Pending(edges, all, done, token) == {} && Settled(edges, all, done)
    requires waiting == Ready(edges, all, done) - {token}
    ensures Counts(incoming, edges, all, done + {token})
    ensures ready == Ready(edges, all, done + {token})
  {
    var targets := if token in edges then edges[token] else {};
    forall t | t in targets ensures t in all && counts[t] > 0 {
      assert Edge(edges, token, t) && token in Pending(edges, all, done, t);
    }
    incoming, ready := Lower(counts, waiting, targets);
    forall t | t in all ensures incoming[t] == |Pending(edges, all, done + {token}, t)| {
      PendingWithout(edges, all, done + {token}, token, t);
      assert done + {token} - {token} == done;
    }
    forall t ensures t in ready <==> t in Ready(edges, all, done + {token}) {
      if t in all { ReleasedIsReady(edges, all, done, token, t); }
    }
  }

  lemma {:induction false} ReleasedIsReady(edges: Edges, all: set<Token>, done: set<Token>, token: Token, t: Token)
    requires token in all && token !in done && t in all && Pending(edges, all, done, token) == {}
    requires Settled(edges, all, done)
    ensures t in Ready(edges, all, done + {token}) <==>
      (t in Ready(edges, all, done) - {token} ||
        (Edge(edges, token, t) && |Pending(edges, all, done + {token}, t)| == 0))
  {
    var now, next := Pending(edges, all, done, t), Pending(edges, all, done + {token}, t);
    assert next == now - {token};
    if Edge(edges, token, t) { assert token in now; }
  }

  lemma {:induction false} SettledMore(edges: Edges, all: set<Token>, done: set<Token>, token: Token)
    requires Settled(edges, all, done) && Pending(edges, all, done, token) == {}
    ensures Settled(edges, all, done + {token})
  {
    forall t | t in done + {token} ensures Pending(edges, all, done + {token}, t) == {} {
      assert Pending(edges, all, done + {token}, t) <= Pending(edges, all, done, t);
    }
  }

  /** A topological sort that always takes the first ready token; what is left when it stops is on or behind a cycle. */
  method Sort(all: set<Token>, edges: Edges) returns (order: seq<Token>)
    requires Within(edges, all) && edges.Keys <= all
    ensures Greedy(order, all, edges)
    ensures Ready(edges, all, Elements(order)) == {}
  {
    var incoming := CountIncoming(all, edges);
    var ready := set t | t in all && incoming[t] == 0;
    order := [];
    ghost var done: set<Token> := {};
    assert ready == Ready(edges, all, done);
    while ready != {}
      invariant done == Elements(order) && done <= all
      invariant Counts(incoming, edges, all, done) && ready == Ready(edges, all, done)
      invariant Settled(edges, all, done) && Greedy(order, all, edges)
      decreases all - done
    {
      var token := First(ready);
      assert token in Ready(edges, all, done);
      incoming, ready := Release(incoming, ready - {token}, all, edges, token, done);
      SettledMore(edges, all, done, token);
      GreedyNext(order, all, edges, token);
      order := order + [token];
      done := done + {token};
    }
  }

  lemma {:induction false} GreedyNext(order: seq<Token>, all: set<Token>, edges: Edges, token: Token)
    requires Greedy(order, all, edges) && IsFirst(token, Ready(edges, all, Elements(order)))
    ensures Greedy(order + [token], all, edges)
    ensures Elements(order + [token]) == Elements(order) + {token}
  {
    var next := order + [token];
    forall i | 0 <= i < |next| ensures GreedyAt(next, all, edges, i) {
      if i < |order| {
        assert GreedyAt(order, all, edges, i);
        assert next[..i] == order[..i];
      } else {
        assert next[..i] == order;
      }
    }
    assert forall t :: t in next <==> t in order || t == token;
  }

  // ----- What the sort achieves

  /** Each token comes once and after all of its predecessors, and no other topological order starts with smaller
   * tokens. */
  lemma {:induction false} GreedyRespects(order: seq<Token>, all: set<Token>, edges: Edges)
    requires Greedy(order, all, edges) && Within(edges, all)
    ensures Distinct(order) && Elements(order) <= all && Respects(order, edges)
  {
    forall i, j | 0 <= i < j < |order| ensures order[i] != order[j] {
      assert GreedyAt(order, all, edges, j) && order[i] in order[..j];
    }
    forall i | 0 <= i < |order| ensures order[i] in all { assert GreedyAt(order, all, edges, i); }
    forall i, j | 0 <= i < |order| && 0 <= j < |order| && Edge(edges, order[i], order[j]) ensures i < j {
      assert GreedyAt(order, all, edges, j);
      assert order[i] !in Pending(edges, all, Elements(order[..j]), order[j]);
      assert order[i] in order[..j];
    }
  }

  lemma {:induction false} PathGoesForward(order: seq<Token>, all: set<Token>, edges: Edges, p: seq<Token>, i: nat,
      j: nat)
    requires IsTopological(order, all, edges) && Within(edges, all) && IsPath(edges, p) && |p| > 1
    requires i < |order| && j < |order| && order[i] == p[0] && order[j] == p[|p| - 1]
    ensures i < j
    decreases |p|
  {
    assert StepAt(edges, p, 0);
    assert p[1] in order;
    var k :| 0 <= k < |order| && order[k] == p[1];
    if |p| > 2 {
      var rest := p[1..];
      forall x | 0 <= x < |rest| - 1 ensures StepAt(edges, rest, x) { assert StepAt(edges, p, x + 1); }
      PathGoesForward(order, all, edges, rest, k, j);
    }
  }

  /** A full order rules cycles out. */
  lemma {:induction false} OrderedMeansAcyclic(order: seq<Token>, all: set<Token>, edges: Edges)
    requires IsTopological(order, all, edges) && Within(edges, all)
    ensures Acyclic(edges)
  {
    forall p | IsCycle(edges, p) ensures false {
      assert StepAt(edges, p, 0);
      assert p[0] in order;
      var i :| 0 <= i < |order| && order[i] == p[0];
      PathGoesForward(order, all, edges, p, i, i);
    }
  }

  ghost predicate WaitsIn(edges: Edges, stuck: set<Token>, t: Token) {
    exists s :: s in stuck && Edge(edges, s, t)
  }

  ghost predicate AllWait(edges: Edges, stuck: set<Token>) {
    forall t {:trigger WaitsIn(edges, stuck, t)} :: t in stuck ==> WaitsIn(edges, stuck, t)
  }

  /** Tokens that each wait for another of them contain a cycle: walk back until one repeats. */
  lemma {:induction false} StuckMeansCycle(edges: Edges, stuck: set<Token>, p: seq<Token>) returns (cycle: seq<Token>)
    requires AllWait(edges, stuck)
    requires IsPath(edges, p) && Distinct(p) && forall i :: 0 <= i < |p| ==> p[i] in stuck
    ensures IsCycle(edges, cycle)
    decreases stuck - Elements(p)
  {
    assert WaitsIn(edges, stuck, p[0]);
    var s :| s in stuck && Edge(edges, s, p[0]);
    var longer := [s] + p;
    forall i | 0 <= i < |longer| - 1 ensures StepAt(edges, longer, i) {
      if i > 0 { assert StepAt(edges, p, i - 1); }
    }
    if s in p {
      var j :| 0 <= j < |p| && p[j] == s;
      cycle := longer[..j + 2];
      forall i | 0 <= i < |cycle| - 1 ensures StepAt(edges, cycle, i) { assert StepAt(edges, longer, i); }
    } else {
      assert Elements(longer) == Elements(p) + {s};
      cycle := StuckMeansCycle(edges, stuck, longer);
    }
  }

  /** The sort succeeds exactly when the edges have no cycle. */
  lemma {:induction false} SortedIffAcyclic(order: seq<Token>, all: set<Token>, edges: Edges)
    requires Within(edges, all) && Greedy(order, all, edges) && Ready(edges, all, Elements(order)) == {}
    ensures |order| == |all| <==> Acyclic(edges)
    ensures |order| == |all| ==> IsTopological(order, all, edges)
  {
    GreedyRespects(order, all, edges);
    DistinctSize(order);
    if |order| == |all| {
      SubsetOfSameSize(Elements(order), all);
      OrderedMeansAcyclic(order, all, edges);
    } else {
      var cycle := UnsortedHaveCycle(all, Elements(order), edges);
    }
  }

  lemma {:induction false} UnsortedHaveCycle(all: set<Token>, done: set<Token>, edges: Edges)
      returns (cycle: seq<Token>)
    requires done <= all && |done| != |all| && Ready(edges, all, done) == {}
    ensures IsCycle(edges, cycle)
  {
    var stuck := all - done;
    assert |stuck| == |all| - |done|;
    forall t {:trigger WaitsIn(edges, stuck, t)} | t in stuck ensures WaitsIn(edges, stuck, t) {
      assert t !in Ready(edges, all, done);
      var s :| s in Pending(edges, all, done, t);
    }
    var t :| t in stuck;
    cycle := StuckMeansCycle(edges, stuck, [t]);
  }

  lemma {:induction false} DistinctSize(order: seq<Token>)
    requires Distinct(order)
    ensures |Elements(order)| == |order|
    decreases |order|
  {
    if order != [] {
      var init, last := order[..|order| - 1], order[|order| - 1];
      DistinctSize(init);
      assert Elements(order) == Elements(init) + {last};
    }
  }

  lemma {:induction false} SubsetOfSameSize(a: set<Token>, b: set<Token>)
    requires a <= b && |a| == |b|
    ensures a == b
  {
    assert |b - a| == |b| - |a|;
  }

  /** Of all topological orders the sort gives the lexicographically least. */
  lemma {:induction false} LeastOrder(order: seq<Token>, other: seq<Token>, all: set<Token>, edges: Edges, n: nat)
    requires Within(edges, all) && Greedy(order, all, edges) && IsTopological(order, all, edges) &&
      IsTopological(other, all, edges)
    requires n < |order| && n < |other| && order[..n] == other[..n] && order[n] != other[n]
    ensures Before(order[n], other[n])
  {
    var done := Elements(order[..n]);
    assert GreedyAt(order, all, edges, n);
    assert other[n] in all by { assert other[n] in other; }
    forall i | 0 <= i < n ensures order[..n][i] != other[n] { assert other[..n][i] == other[i]; }
    forall s | s in all && Edge(edges, s, other[n]) ensures s in done {
      assert s in other;
      var i :| 0 <= i < |other| && other[i] == s;
      assert i < n && other[..n][i] == s;
    }
    assert other[n] in Ready(edges, all, done);
  }

  // ----- The constraints of a merge

  /** The base items among `tokens`, in their order. */
  function BasePart(tokens: seq<Token>): (r: seq<Token>)
    ensures forall t :: t in r ==> t in tokens
  {
    if tokens == [] then []
    else
      var last := tokens[|tokens| - 1];
      BasePart(tokens[..|tokens| - 1]) + if IsBase(last) then [last] else []
  }

  predicate LinkedAt(tokens: seq<Token>, withBase: bool, s: Token, t: Token, i: nat)
    requires i + 1 < |tokens|
  {
    tokens[i] == s && tokens[i + 1] == t && s != t && (withBase || !IsBase(s) || !IsBase(t))
  }

  /** `t` directly follows `s` in `tokens`; between two base items this counts only on demand. */
  ghost predicate Linked(tokens: seq<Token>, withBase: bool, s: Token, t: Token) {
    exists i {:trigger LinkedAt(tokens, withBase, s, t, i)} ::
      0 <= i < |tokens| - 1 && LinkedAt(tokens, withBase, s, t, i)
  }

  /** A side whose base items come in base order imposes only where it put its additions. */
  ghost predicate Constraint(surviving: seq<Token>, ours: seq<Token>, theirs: seq<Token>, s: Token, t: Token) {
    var oursMoved, theirsMoved := BasePart(ours) != surviving, BasePart(theirs) != surviving;
    if !oursMoved && !theirsMoved then
      Linked(surviving, true, s, t) || Linked(ours, false, s, t) || Linked(theirs, false, s, t)
    else
      Linked(ours, oursMoved, s, t) || Linked(theirs, theirsMoved, s, t)
  }

  method AddEdges(edges: Edges, tokens: seq<Token>, withBase: bool) returns (more: Edges)
    ensures forall s, t :: Edge(more, s, t) <==> Edge(edges, s, t) || Linked(tokens, withBase, s, t)
    ensures more.Keys <= edges.Keys + Elements(tokens)
  {
    more := edges;
    for i := 0 to |tokens|
      invariant forall s, t :: Edge(more, s, t) <==> Edge(edges, s, t) || Linked(tokens[..i], withBase, s, t)
      invariant more.Keys <= edges.Keys + Elements(tokens)
    {
      ghost var before := more;
      if i > 0 {
        var s, t := tokens[i - 1], tokens[i];
        if s != t && (withBase || !IsBase(s) || !IsBase(t)) {
          more := more[s := (if s in more then more[s] else {}) + {t}];
        }
      }
      LinkedByOneMore(tokens, withBase, i);
      forall s, t ensures Edge(more, s, t) <==>
        Edge(before, s, t) || (i > 0 && LinkedAt(tokens, withBase, s, t, i - 1)) {}
      forall s, t ensures Edge(more, s, t) <==> Edge(edges, s, t) || Linked(tokens[..i + 1], withBase, s, t) {
        assert Edge(before, s, t) <==> Edge(edges, s, t) || Linked(tokens[..i], withBase, s, t);
      }
    }
    assert tokens[..|tokens|] == tokens;
  }

  lemma {:induction false} LinkedByOneMore(tokens: seq<Token>, withBase: bool, n: nat)
    requires n < |tokens|
    ensures forall s, t :: Linked(tokens[..n + 1], withBase, s, t) <==>
      Linked(tokens[..n], withBase, s, t) || (n > 0 && LinkedAt(tokens, withBase, s, t, n - 1))
  {
    forall s, t ensures Linked(tokens[..n + 1], withBase, s, t) <==>
      Linked(tokens[..n], withBase, s, t) || (n > 0 && LinkedAt(tokens, withBase, s, t, n - 1))
    {
      if Linked(tokens[..n + 1], withBase, s, t) {
        var i :| 0 <= i < n && LinkedAt(tokens[..n + 1], withBase, s, t, i);
        if i < n - 1 { assert LinkedAt(tokens[..n], withBase, s, t, i); }
      }
      if Linked(tokens[..n], withBase, s, t) {
        var i :| 0 <= i < n - 1 && LinkedAt(tokens[..n], withBase, s, t, i);
        assert LinkedAt(tokens[..n + 1], withBase, s, t, i);
      }
      if n > 0 && LinkedAt(tokens, withBase, s, t, n - 1) { assert LinkedAt(tokens[..n + 1], withBase, s, t, n - 1); }
    }
  }

  /** Puts the tokens of both sides in one order, if their constraints allow any. */
  method OrderTokens(surviving: seq<Token>, ours: seq<Token>, theirs: seq<Token>)
      returns (order: Option<seq<Token>>, ghost edges: Edges)
    requires Elements(surviving) <= Elements(ours) + Elements(theirs)
    ensures forall s, t :: Edge(edges, s, t) <==> Constraint(surviving, ours, theirs, s, t)
    ensures order.Some? <==> Acyclic(edges)
    ensures order.Some? ==>
      && IsTopological(order.value, Elements(ours) + Elements(theirs), edges)
      && Greedy(order.value, Elements(ours) + Elements(theirs), edges)
    ensures order.None? ==> forall other :: !Suits(other, surviving, ours, theirs)
    ensures order.Some? ==> Suits(order.value, surviving, ours, theirs)
    ensures order.Some? ==>
      forall other :: Suits(other, surviving, ours, theirs) && other != order.value ==> Earlier(order.value, other)
  {
    var oursMoved, theirsMoved := BasePart(ours) != surviving, BasePart(theirs) != surviving;
    var all := (set t | t in ours) + (set t | t in theirs);
    var graph: Edges := map[];
    if !oursMoved && !theirsMoved {
      graph := AddEdges(graph, surviving, true);
      graph := AddEdges(graph, ours, false);
      graph := AddEdges(graph, theirs, false);
    } else {
      graph := AddEdges(graph, ours, oursMoved);
      graph := AddEdges(graph, theirs, theirsMoved);
    }
    edges := graph;
    ConstraintsWithin(surviving, ours, theirs, edges, all);
    var sorted := Sort(all, graph);
    SortedIffAcyclic(sorted, all, graph);
    order := if |sorted| == |all| then Some(sorted) else None;
    forall other | Suits(other, surviving, ours, theirs)
      ensures order.Some? && (other != sorted ==> Earlier(sorted, other)) {
      OnlyIfAcyclic(surviving, ours, theirs, edges, other);
      if other != sorted { LeastOfAll(sorted, other, all, edges); }
    }
  }

  /** The tokens of both sides, each once, in an order that all constraints allow. */
  ghost predicate Suits(order: seq<Token>, surviving: seq<Token>, ours: seq<Token>, theirs: seq<Token>) {
    && Lists(order, Elements(ours) + Elements(theirs))
    && forall i, j ::
      0 <= i < |order| && 0 <= j < |order| && Constraint(surviving, ours, theirs, order[i], order[j]) ==> i < j
  }

  lemma {:induction false} SuitsIsTopological(surviving: seq<Token>, ours: seq<Token>, theirs: seq<Token>, edges: Edges,
      order: seq<Token>)
    requires forall s, t :: Edge(edges, s, t) <==> Constraint(surviving, ours, theirs, s, t)
    ensures Suits(order, surviving, ours, theirs) <==> IsTopological(order, Elements(ours) + Elements(theirs), edges)
  {
  }

  lemma {:induction false} OnlyIfAcyclic(surviving: seq<Token>, ours: seq<Token>, theirs: seq<Token>, edges: Edges,
      order: seq<Token>)
    requires Elements(surviving) <= Elements(ours) + Elements(theirs) && Suits(order, surviving, ours, theirs)
    requires forall s, t :: Edge(edges, s, t) <==> Constraint(surviving, ours, theirs, s, t)
    ensures Acyclic(edges) && IsTopological(order, Elements(ours) + Elements(theirs), edges)
  {
    var all := Elements(ours) + Elements(theirs);
    SuitsIsTopological(surviving, ours, theirs, edges, order);
    ConstraintsWithin(surviving, ours, theirs, edges, all);
    OrderedMeansAcyclic(order, all, edges);
  }

  /** Where the two first differ, this one has the token that comes first. */
  ghost predicate Earlier(order: seq<Token>, other: seq<Token>) {
    exists n: nat :: n < |order| && n < |other| && order[..n] == other[..n] && Before(order[n], other[n])
  }

  lemma {:induction false} LeastOfAll(order: seq<Token>, other: seq<Token>, all: set<Token>, edges: Edges)
    requires Within(edges, all) && Greedy(order, all, edges) && IsTopological(order, all, edges)
    requires IsTopological(other, all, edges) && order != other
    ensures Earlier(order, other)
  {
    assert Elements(order) == all == Elements(other);
    DistinctSize(order);
    DistinctSize(other);
    var n := FirstDifference(order, other);
    LeastOrder(order, other, all, edges, n);
  }

  lemma {:induction false} FirstDifference(a: seq<Token>, b: seq<Token>) returns (n: nat)
    requires |a| == |b| && a != b
    ensures n < |a| && a[..n] == b[..n] && a[n] != b[n]
  {
    assert a[..|a|] == a && b[..|b|] == b;
    n := 0;
    while n < |a| && a[n] == b[n]
      invariant n <= |a| && a[..n] == b[..n]
    {
      assert a[..n + 1] == b[..n + 1];
      n := n + 1;
    }
  }

  lemma {:induction false} LinkedWithin(tokens: seq<Token>, withBase: bool, s: Token, t: Token)
    requires Linked(tokens, withBase, s, t)
    ensures s in tokens && t in tokens
  {
    var i :| 0 <= i < |tokens| - 1 && LinkedAt(tokens, withBase, s, t, i);
  }

  lemma {:induction false} ConstraintsWithin(surviving: seq<Token>, ours: seq<Token>, theirs: seq<Token>, edges: Edges,
      all: set<Token>)
    requires Elements(surviving) <= all == Elements(ours) + Elements(theirs)
    requires forall s, t :: Edge(edges, s, t) <==> Constraint(surviving, ours, theirs, s, t)
    ensures Within(edges, all)
  {
    forall s, t | Edge(edges, s, t) ensures s in all && t in all {
      forall tokens, withBase | Linked(tokens, withBase, s, t) ensures s in tokens && t in tokens {
        LinkedWithin(tokens, withBase, s, t);
      }
    }
  }

  // ----- What a merge order keeps of each side

  /** `tokens` come in this order in `order` too. */
  ghost predicate KeepsOrder(order: seq<Token>, tokens: seq<Token>) {
    && (forall t :: t in tokens ==> t in order)
    && forall i, j, x, y ::
      0 <= i < j < |tokens| && 0 <= x < |order| && 0 <= y < |order| &&
      order[x] == tokens[i] && order[y] == tokens[j] ==>
        x < y
  }

  ghost predicate Chained(edges: Edges, tokens: seq<Token>) {
    forall i {:trigger tokens[i + 1]} :: 0 <= i < |tokens| - 1 ==> Edge(edges, tokens[i], tokens[i + 1])
  }

  lemma {:induction false} ChainGoesForward(order: seq<Token>, all: set<Token>, edges: Edges, tokens: seq<Token>,
      i: nat, j: nat, x: nat, y: nat)
    requires IsTopological(order, all, edges) && Chained(edges, tokens) && Elements(tokens) <= all
    requires i < j < |tokens| && x < |order| && y < |order| && order[x] == tokens[i] && order[y] == tokens[j]
    ensures x < y
    decreases j - i
  {
    assert Edge(edges, tokens[i], tokens[i + 1]);
    if i + 1 < j {
      assert tokens[i + 1] in Elements(tokens) && tokens[i + 1] in order;
      var z :| 0 <= z < |order| && order[z] == tokens[i + 1];
      ChainGoesForward(order, all, edges, tokens, i + 1, j, z, y);
    }
  }

  lemma {:induction false} ChainIsKept(order: seq<Token>, all: set<Token>, edges: Edges, tokens: seq<Token>)
    requires IsTopological(order, all, edges) && Chained(edges, tokens) && Elements(tokens) <= all
    ensures KeepsOrder(order, tokens)
  {
    forall t | t in tokens ensures t in order { assert t in Elements(tokens); }
    forall i, j, x, y | 0 <= i < j < |tokens| && 0 <= x < |order| && 0 <= y < |order| && order[x] == tokens[i] &&
      order[y] == tokens[j]
      ensures x < y
    {
      ChainGoesForward(order, all, edges, tokens, i, j, x, y);
    }
  }

  /** Neighbouring base items of a side that did not move any are neighbours in the base. */
  lemma {:induction false} BaseNeighbours(tokens: seq<Token>, i: nat)
    requires i + 1 < |tokens| && IsBase(tokens[i]) && IsBase(tokens[i + 1]) && tokens[i] != tokens[i + 1]
    ensures Linked(BasePart(tokens), true, tokens[i], tokens[i + 1])
    decreases |tokens|
  {
    var n := |tokens| - 1;
    var init := tokens[..n];
    if i + 1 < n {
      BaseNeighbours(init, i);
      LinkedInLonger(BasePart(init), BasePart(tokens), tokens[i], tokens[i + 1]);
    } else {
      var b := BasePart(init);
      assert b == BasePart(init[..n - 1]) + [tokens[i]];
      assert LinkedAt(BasePart(tokens), true, tokens[i], tokens[i + 1], |b| - 1);
    }
  }

  lemma {:induction false} LinkedInLonger(tokens: seq<Token>, longer: seq<Token>, s: Token, t: Token)
    requires tokens <= longer && Linked(tokens, true, s, t)
    ensures Linked(longer, true, s, t)
  {
    var i :| 0 <= i < |tokens| - 1 && LinkedAt(tokens, true, s, t, i);
    assert LinkedAt(longer, true, s, t, i);
  }

  /** A side that moved base items keeps its whole order, and so do both sides when neither moved any. */
  lemma {:induction false} MergeKeepsOrders(surviving: seq<Token>, ours: seq<Token>, theirs: seq<Token>,
      order: seq<Token>, edges: Edges)
    requires Distinct(ours) && Distinct(theirs) && Elements(surviving) <= Elements(ours) + Elements(theirs)
    requires forall s, t :: Edge(edges, s, t) <==> Constraint(surviving, ours, theirs, s, t)
    requires IsTopological(order, Elements(ours) + Elements(theirs), edges)
    ensures BasePart(ours) != surviving ==> KeepsOrder(order, ours)
    ensures BasePart(theirs) != surviving ==> KeepsOrder(order, theirs)
    ensures BasePart(ours) == surviving == BasePart(theirs) ==> KeepsOrder(order, ours) && KeepsOrder(order, theirs)
  {
    var all := Elements(ours) + Elements(theirs);
    if BasePart(ours) != surviving || BasePart(ours) == surviving == BasePart(theirs) {
      SideIsChained(surviving, ours, theirs, edges, ours);
      ChainIsKept(order, all, edges, ours);
    }
    if BasePart(theirs) != surviving || BasePart(ours) == surviving == BasePart(theirs) {
      SideIsChained(surviving, ours, theirs, edges, theirs);
      ChainIsKept(order, all, edges, theirs);
    }
  }

  lemma {:induction false} SideIsChained(surviving: seq<Token>, ours: seq<Token>, theirs: seq<Token>, edges: Edges,
      side: seq<Token>)
    requires Distinct(side) && (side == ours || side == theirs)
    requires forall s, t :: Edge(edges, s, t) <==> Constraint(surviving, ours, theirs, s, t)
    requires BasePart(side) != surviving || BasePart(ours) == surviving == BasePart(theirs)
    ensures Chained(edges, side)
  {
    forall i | 0 <= i < |side| - 1 ensures Edge(edges, side[i], side[i + 1]) {
      var s, t := side[i], side[i + 1];
      assert s != t;
      if BasePart(side) != surviving {
        assert LinkedAt(side, true, s, t, i);
      } else if IsBase(s) && IsBase(t) {
        BaseNeighbours(side, i);
      } else {
        assert LinkedAt(side, false, s, t, i);
      }
      assert Constraint(surviving, ours, theirs, s, t);
    }
  }
}
