/** Source parents in a provenance sidecar: every chain must end at a known source without a parent. */
module Provenance {
  import opened Wrappers

  datatype Source = Source(id: string, parent: Option<string>, uri: Option<string>, format: Option<string>)

  datatype Verdict = Fine | Empty | Duplicate | Cycle(id: string) | Unknown(id: string)

  type Parents = map<string, Option<string>>

  ghost predicate DistinctIds(sources: seq<Source>)
  {
    forall i, j :: 0 <= i < j < |sources| ==> sources[i].id != sources[j].id
  }

  /** What the sources say of each id. */
  ghost predicate ParentsOf(parents: Parents, sources: seq<Source>, n: nat)
    requires n <= |sources|
  {
    && (forall id {:trigger id in parents} ::
      id in parents <==> exists i {:trigger sources[i]} :: 0 <= i < n && sources[i].id == id)
    && (forall i {:trigger sources[i]} ::
      0 <= i < n ==> sources[i].id in parents && parents[sources[i].id] == sources[i].parent)
  }

  // ----- Chains

  /** The source `k` parents up. */
  ghost function Ancestor(parents: Parents, id: string, k: nat): Option<string>
    decreases k
  {
    if k == 0 then Some(id)
    else if id in parents && parents[id].Some? then Ancestor(parents, parents[id].value, k - 1)
    else None
  }

  /** Within `n` parents the chain is at a known source without a parent. */
  ghost predicate EndsWithin(parents: Parents, id: string, n: nat)
    decreases n
  {
    id in parents && (parents[id].None? || (n > 0 && EndsWithin(parents, parents[id].value, n - 1)))
  }

  ghost predicate Ends(parents: Parents, id: string) { exists n: nat :: EndsWithin(parents, id, n) }

  ghost predicate EndsFrom(parents: Parents, at: Option<string>) { at.Some? ==> Ends(parents, at.value) }

  lemma {:induction false} EndsThroughParent(parents: Parents, id: string)
    requires id in parents && EndsFrom(parents, parents[id])
    ensures Ends(parents, id)
  {
    if parents[id].Some? {
      var n: nat :| EndsWithin(parents, parents[id].value, n);
      assert EndsWithin(parents, id, n + 1);
    } else {
      assert EndsWithin(parents, id, 0);
    }
  }

  lemma {:induction false} AncestorEnds(parents: Parents, id: string, n: nat, k: nat)
    requires EndsWithin(parents, id, n) && Ancestor(parents, id, k).Some?
    ensures k <= n && EndsWithin(parents, Ancestor(parents, id, k).value, n - k)
    decreases k
  {
    if k > 0 { AncestorEnds(parents, parents[id].value, n - 1, k - 1); }
  }

  lemma {:induction false} NoEndInCycle(parents: Parents, id: string, k: nat, n: nat)
    requires k > 0 && Ancestor(parents, id, k) == Some(id)
    ensures !EndsWithin(parents, id, n)
  {
    if EndsWithin(parents, id, n) {
      AncestorEnds(parents, id, n, k);
      NoEndInCycle(parents, id, k, n - k);
    }
  }

  lemma {:induction false} AncestorOfAncestor(parents: Parents, id: string, j: nat, k: nat)
    requires Ancestor(parents, id, j).Some?
    ensures Ancestor(parents, id, j + k) == Ancestor(parents, Ancestor(parents, id, j).value, k)
    decreases j
  {
    if j > 0 { AncestorOfAncestor(parents, parents[id].value, j - 1, k); }
  }

  /** An ancestor that is its own ancestor, or is unknown, keeps the chain from ending. */
  lemma {:induction false} BadAncestor(parents: Parents, id: string, j: nat, bad: string)
    requires Ancestor(parents, id, j) == Some(bad) && !Ends(parents, bad)
    ensures !Ends(parents, id)
  {
    if Ends(parents, id) {
      var n: nat :| EndsWithin(parents, id, n);
      AncestorEnds(parents, id, n, j);
    }
  }

  // ----- The check

  /** The ids passed are the ancestors so far, and each of them ends if the current one does. */
  ghost predicate Passed(parents: Parents, id: string, seen: set<string>, at: Option<string>, steps: nat) {
    && Ancestor(parents, id, steps) == at
    && (forall s {:trigger s in seen} :: s in seen ==> s in parents && (EndsFrom(parents, at) ==> Ends(parents, s)))
    && (forall s {:trigger s in seen} ::
      s in seen ==>
      exists j: nat {:trigger Ancestor(parents, id, j)} :: 0 <= j < steps && Ancestor(parents, id, j) == Some(s))
  }

  lemma {:induction false} PassOne(parents: Parents, id: string, seen: set<string>, at: string, steps: nat)
    requires Passed(parents, id, seen, Some(at), steps) && at in parents
    ensures Passed(parents, id, seen + {at}, parents[at], steps + 1)
  {
    AncestorOfAncestor(parents, id, steps, 1);
    assert Ancestor(parents, at, 1) == parents[at];
    if EndsFrom(parents, parents[at]) { EndsThroughParent(parents, at); }
    forall s | s in seen + {at}
      ensures exists j: nat {:trigger Ancestor(parents, id, j)} ::
      0 <= j < steps + 1 && Ancestor(parents, id, j) == Some(s) {
      if s in seen {
        var j: nat :| 0 <= j < steps && Ancestor(parents, id, j) == Some(s);
      } else {
        assert Ancestor(parents, id, steps) == Some(s);
      }
    }
  }

  lemma {:induction false} SeenAgain(parents: Parents, id: string, seen: set<string>, at: string, steps: nat)
    requires Passed(parents, id, seen, Some(at), steps) && at in seen
    ensures !Ends(parents, at) && !Ends(parents, id)
    ensures exists k: nat {:trigger Ancestor(parents, at, k)} :: k > 0 && Ancestor(parents, at, k) == Some(at)
  {
    var j: nat :| 0 <= j < steps && Ancestor(parents, id, j) == Some(at);
    AncestorOfAncestor(parents, id, j, steps - j);
    assert Ancestor(parents, at, steps - j) == Some(at);
    forall n: nat ensures !EndsWithin(parents, at, n) { NoEndInCycle(parents, at, steps - j, n); }
    BadAncestor(parents, id, steps, at);
  }

  /** Follows one chain until it ends, meets a chain already followed, or turns out bad. */
  method Follow(parents: Parents, id: string, completed: set<string>) returns (verdict: Verdict, seen: set<string>)
    requires forall s :: s in completed ==> Ends(parents, s)
    ensures verdict.Fine? <==> Ends(parents, id)
    ensures verdict.Fine? ==> forall s :: s in seen ==> Ends(parents, s)
    ensures verdict.Cycle? ==>
      exists k: nat {:trigger Ancestor(parents, verdict.id, k)} ::
      k > 0 && Ancestor(parents, verdict.id, k) == Some(verdict.id)
    ensures verdict.Unknown? ==> verdict.id !in parents && exists k: nat :: Ancestor(parents, id, k) == Some(verdict.id)
    ensures !verdict.Duplicate? && !verdict.Empty?
  {
    seen := {};
    var current := Some(id);
    ghost var steps := 0;
    while current.Some?
      invariant Passed(parents, id, seen, current, steps)
      invariant EndsFrom(parents, current) ==> Ends(parents, id)
      decreases |parents.Keys - seen|, current.Some?
    {
      var at := current.value;
      if at in completed { break; }
      if at in seen {
        SeenAgain(parents, id, seen, at, steps);
        return Cycle(at), seen;
      }
      if at !in parents {
        forall n: nat ensures !EndsWithin(parents, at, n) {}
        BadAncestor(parents, id, steps, at);
        return Unknown(at), seen;
      }
      PassOne(parents, id, seen, at, steps);
      if EndsFrom(parents, parents[at]) { EndsThroughParent(parents, at); }
      assert parents.Keys - (seen + {at}) == parents.Keys - seen - {at};
      seen, current, steps := seen + {at}, parents[at], steps + 1;
    }
    return Fine, seen;
  }

  /** No id, and no uri or format that is given, is the empty text. */
  predicate Filled(source: Source) {
    source.id != "" && source.uri != Some("") && source.format != Some("")
  }

  /** An id that an earlier source has. */
  ghost predicate Repeats(sources: seq<Source>, i: nat)
    requires i < |sources|
  {
    exists j :: 0 <= j < i && sources[j].id == sources[i].id
  }

  ghost predicate Sound(sources: seq<Source>, n: nat)
    requires n <= |sources|
  {
    forall i :: 0 <= i < n ==> Filled(sources[i]) && !Repeats(sources, i)
  }

  lemma {:induction false} SoundIs(sources: seq<Source>)
    ensures Sound(sources, |sources|) <==> DistinctIds(sources) && forall i :: 0 <= i < |sources| ==> Filled(sources[i])
  {
    if Sound(sources, |sources|) {
      forall i, j | 0 <= i < j < |sources| ensures sources[i].id != sources[j].id { assert !Repeats(sources, j); }
    }
  }

  datatype Table = Table(parents: Parents) | EmptyText | Twice

  /** One filled source more. */
  lemma {:induction false} OneMoreSound(parents: Parents, sources: seq<Source>, i: nat)
    requires i < |sources| && Sound(sources, i) && ParentsOf(parents, sources, i) && Filled(sources[i])
    ensures sources[i].id in parents <==> Repeats(sources, i)
    ensures sources[i].id !in parents ==>
      Sound(sources, i + 1) && ParentsOf(parents[sources[i].id := sources[i].parent], sources, i + 1)
  {
  }

  /** The parent of each id, unless a text is empty or an id comes twice; the first such source decides which. */
  method TableOf(sources: seq<Source>) returns (table: Table)
    ensures table.Table? <==> DistinctIds(sources) && forall i :: 0 <= i < |sources| ==> Filled(sources[i])
    ensures table.Table? ==> ParentsOf(table.parents, sources, |sources|)
    ensures table.EmptyText? ==> exists i :: 0 <= i < |sources| && Sound(sources, i) && !Filled(sources[i])
    ensures table.Twice? ==>
      exists i :: 0 <= i < |sources| && Sound(sources, i) && Filled(sources[i]) && Repeats(sources, i)
  {
    SoundIs(sources);
    var parents: Parents := map[];
    for i := 0 to |sources|
      invariant Sound(sources, i) && ParentsOf(parents, sources, i)
    {
      var source := sources[i];
      if source.id == "" || source.uri == Some("") || source.format == Some("") { return EmptyText; }
      OneMoreSound(parents, sources, i);
      if source.id in parents { return Twice; }
      parents := parents[source.id := source.parent];
    }
    return Table(parents);
  }

  /** Fine exactly when no text is empty, ids are distinct and every parent chain ends; chains already followed are
   * not followed again. */
  method ValidateSources(sources: seq<Source>) returns (verdict: Verdict, ghost parents: Parents)
    ensures verdict.Empty? || verdict.Duplicate? <==>
      !DistinctIds(sources) || exists i :: 0 <= i < |sources| && !Filled(sources[i])
    ensures verdict.Empty? ==> exists i :: 0 <= i < |sources| && Sound(sources, i) && !Filled(sources[i])
    ensures verdict.Duplicate? ==>
      exists i :: 0 <= i < |sources| && Sound(sources, i) && Filled(sources[i]) && Repeats(sources, i)
    ensures !verdict.Empty? && !verdict.Duplicate? ==> ParentsOf(parents, sources, |sources|)
    ensures !verdict.Empty? && !verdict.Duplicate? ==>
      (verdict.Fine? <==> forall i :: 0 <= i < |sources| ==> Ends(parents, sources[i].id))
    ensures verdict.Cycle? ==>
      exists k: nat {:trigger Ancestor(parents, verdict.id, k)} ::
      k > 0 && Ancestor(parents, verdict.id, k) == Some(verdict.id)
    ensures verdict.Unknown? ==> verdict.id !in parents
  {
    var table := TableOf(sources);
    if table.EmptyText? { return Empty, map[]; }
    if table.Twice? { return Duplicate, map[]; }
    parents := table.parents;
    var completed: set<string> := {};
    for i := 0 to |sources|
      invariant forall s :: s in completed ==> Ends(parents, s)
      invariant forall j :: 0 <= j < i ==> Ends(parents, sources[j].id)
    {
      var seen;
      verdict, seen := Follow(table.parents, sources[i].id, completed);
      if !verdict.Fine? { return; }
      completed := completed + seen;
    }
    verdict := Fine;
  }
}
