/** Pairing the items of one side of a merge with the items of the base. */
module MatchSides {
  import opened JsonTree
  import opened Wrappers

  function Kind(v: Json): string {
    match v
    case Obj(fields) =>
      if "type" in fields && fields["type"].Str? then "node:" + fields["type"].s else "object"
    case Arr(_) => "array"
    case Null => "null"
    case Bool(_) => "boolean"
    case Num(_) => "number"
    case Str(_) => "string"
  }

  function StringField(fields: map<string, Json>, key: string): Option<string> {
    if key in fields && fields[key].Str? then Some(fields[key].s) else None
  }

  /** The label, reference, name or id by which a node can be recognised. */
  function IdentityHint(v: Json): Option<string> {
    if !v.Obj? || StringField(v.fields, "type").None? then None
    else
      var kind := v.fields["type"].s;
      if StringField(v.fields, "label").Some? then Some(kind + ":label:" + v.fields["label"].s)
      else if StringField(v.fields, "ref").Some? then Some(kind + ":ref:" + v.fields["ref"].s)
      else if StringField(v.fields, "name").Some? then Some(kind + ":name:" + v.fields["name"].s)
      else if "attrs" in v.fields && v.fields["attrs"].Obj? && StringField(v.fields["attrs"].fields, "id").Some? then
        Some(kind + ":attrs.id:" + v.fields["attrs"].fields["id"].s)
      else None
  }

  /** Pairs of base and side indexes, and the side indexes left over. */
  datatype SideMatch = SideMatch(baseToSide: map<nat, nat>, sideToBase: map<nat, nat>, additions: seq<nat>) {
    function Take(bi: nat, si: nat): SideMatch {
      this.(baseToSide := baseToSide[bi := si], sideToBase := sideToBase[si := bi])
    }

    ghost predicate Pairs(bi: nat, si: nat) { bi in baseToSide && baseToSide[bi] == si }
  }

  /** The two maps are inverse to each other and stay within the two lists. */
  ghost predicate Bijection(m: SideMatch, bases: nat, sides: nat) {
    && (forall bi :: bi in m.baseToSide ==>
          bi < bases && m.baseToSide[bi] in m.sideToBase && m.sideToBase[m.baseToSide[bi]] == bi)
    && (forall si :: si in m.sideToBase ==>
          si < sides && m.sideToBase[si] in m.baseToSide && m.baseToSide[m.sideToBase[si]] == si)
  }

  /** What items are matched by: a fingerprint, a fingerprint in a place, an identity hint or kind, or nothing. */
  datatype Key = Id(id: nat) | Placed(place: (int, int), content: nat) | Name(name: string) | NoKey

  /** The places below `n` where a key occurs, in order. */
  function Occurrences(keys: seq<Key>, key: Key, n: nat): seq<nat>
    requires n <= |keys|
  {
    if n == 0 then [] else Occurrences(keys, key, n - 1) + if keys[n - 1] == key then [n - 1] else []
  }

  lemma {:induction false} OccursAt(keys: seq<Key>, key: Key, n: nat, k: nat)
    requires n <= |keys| && k < |Occurrences(keys, key, n)|
    ensures Occurrences(keys, key, n)[k] < n && keys[Occurrences(keys, key, n)[k]] == key
    decreases n
  {
    if k < |Occurrences(keys, key, n - 1)| { OccursAt(keys, key, n - 1, k); }
  }

  lemma {:induction false} OccursSomewhere(keys: seq<Key>, key: Key, n: nat, i: nat)
    requires i < n <= |keys| && keys[i] == key
    ensures i in Occurrences(keys, key, n)
    decreases n
  {
    if i < n - 1 { OccursSomewhere(keys, key, n - 1, i); }
  }

  lemma {:induction false} OccurrencesAscend(keys: seq<Key>, key: Key, n: nat, j: nat, k: nat)
    requires n <= |keys| && j < k < |Occurrences(keys, key, n)|
    ensures Occurrences(keys, key, n)[j] < Occurrences(keys, key, n)[k]
    decreases n
  {
    if k < |Occurrences(keys, key, n - 1)| {
      OccurrencesAscend(keys, key, n - 1, j, k);
    } else {
      OccursAt(keys, key, n - 1, j);
    }
  }

  lemma {:induction false} RankGrows(keys: seq<Key>, i: nat, n: nat)
    requires i < n <= |keys|
    ensures |Occurrences(keys, keys[i], i)| < |Occurrences(keys, keys[i], n)|
    decreases n
  {
    if i < n - 1 { RankGrows(keys, i, n - 1); }
  }

  /** The keys of the items that are still unpaired. */
  function Untaken(keys: seq<Key>, taken: map<nat, nat>): (r: seq<Key>)
    ensures |r| == |keys| && forall i :: 0 <= i < |r| ==> r[i] == if i in taken then NoKey else keys[i]
  {
    seq(|keys|, i requires 0 <= i < |keys| => if i in taken then NoKey else keys[i])
  }

  function Get(groups: map<Key, seq<nat>>, key: Key): seq<nat> {
    if key in groups then groups[key] else []
  }

  ghost predicate GroupIs(groups: map<Key, seq<nat>>, keys: seq<Key>, n: nat, key: Key)
    requires n <= |keys|
  {
    (key in groups ==> groups[key] != []) && Get(groups, key) == if key == NoKey then [] else Occurrences(keys, key, n)
  }

  method GroupByKey(keys: seq<Key>, taken: map<nat, nat>) returns (groups: map<Key, seq<nat>>)
    ensures forall key {:trigger GroupIs(groups, Untaken(keys, taken), |keys|, key)} ::
      GroupIs(groups, Untaken(keys, taken), |keys|, key)
  {
    groups := map[];
    ghost var untaken := Untaken(keys, taken);
    for i := 0 to |keys|
      invariant forall key {:trigger GroupIs(groups, untaken, i, key)} :: GroupIs(groups, untaken, i, key)
    {
      ghost var before := groups;
      if i !in taken && keys[i] != NoKey {
        groups := groups[keys[i] := Get(groups, keys[i]) + [i]];
      }
      forall key {:trigger GroupIs(groups, untaken, i + 1, key)} ensures GroupIs(groups, untaken, i + 1, key) {
        assert GroupIs(before, untaken, i, key);
      }
    }
  }

  // ----- First pass: equal ids, in order

  /** The `r`-th occurrence of an id in the base goes with its `r`-th occurrence in the side. */
  ghost predicate ExactAt(m: SideMatch, base: seq<Key>, side: seq<Key>, bi: nat)
    requires bi < |base|
  {
    var rank, places := |Occurrences(base, base[bi], bi)|, Occurrences(side, base[bi], |side|);
    && (bi in m.baseToSide <==> rank < |places|)
    && (rank < |places| ==> m.baseToSide[bi] == places[rank])
  }

  ghost predicate ExactUpTo(m: SideMatch, base: seq<Key>, side: seq<Key>, n: nat)
    requires n <= |base|
  {
    forall bi {:trigger ExactAt(m, base, side, bi)} :: 0 <= bi < n ==> ExactAt(m, base, side, bi)
  }

  /** The queue of an id holds its occurrences in the side that no base item below `n` took. */
  ghost predicate QueueAt(queues: map<Key, seq<nat>>, base: seq<Key>, side: seq<Key>, n: nat, key: Key)
    requires n <= |base|
  {
    var rank, places := |Occurrences(base, key, n)|, Occurrences(side, key, |side|);
    Get(queues, key) == if rank < |places| then places[rank..] else []
  }

  ghost predicate QueuesAt(queues: map<Key, seq<nat>>, base: seq<Key>, side: seq<Key>, n: nat)
    requires n <= |base|
  {
    forall key {:trigger QueueAt(queues, base, side, n, key)} :: key != NoKey ==> QueueAt(queues, base, side, n, key)
  }

  ghost predicate AllKeyed(keys: seq<Key>) { NoKey !in keys }

  method ExactPass(base: seq<Key>, side: seq<Key>) returns (m: SideMatch)
    requires AllKeyed(base) && AllKeyed(side)
    ensures Bijection(m, |base|, |side|) && m.additions == [] && ExactUpTo(m, base, side, |base|)
  {
    var queues := GroupByKey(side, map[]);
    m := SideMatch(map[], map[], []);
    AllWait(queues, base, side);
    for bi := 0 to |base|
      invariant Bijection(m, bi, |side|) && m.additions == [] && ExactUpTo(m, base, side, bi)
      invariant QueuesAt(queues, base, side, bi)
    {
      var key := base[bi];
      ghost var before, waiting := m, queues;
      assert key in base && QueueAt(queues, base, side, bi, key);
      if Get(queues, key) != [] {
        NotYetTaken(m, base, side, bi);
        m := m.Take(bi, queues[key][0]);
        queues := queues[key := queues[key][1..]];
      }
      QueuesAdvance(waiting, queues, base, side, bi);
      ExactAdvances(before, m, base, side, bi);
    }
  }

  lemma {:induction false} AllWait(queues: map<Key, seq<nat>>, base: seq<Key>, side: seq<Key>)
    requires forall key {:trigger GroupIs(queues, Untaken(side, map[]), |side|, key)} ::
      GroupIs(queues, Untaken(side, map[]), |side|, key)
    ensures QueuesAt(queues, base, side, 0)
  {
    assert Untaken(side, map[]) == side;
    forall key {:trigger QueueAt(queues, base, side, 0, key)} | key != NoKey
      ensures QueueAt(queues, base, side, 0, key) {
      assert GroupIs(queues, Untaken(side, map[]), |side|, key);
    }
  }

  lemma {:induction false} ExactAdvances(m: SideMatch, next: SideMatch, base: seq<Key>, side: seq<Key>, bi: nat)
    requires bi < |base| && ExactUpTo(m, base, side, bi) && ExactAt(next, base, side, bi)
    requires forall i: nat :: i < bi ==> (i in next.baseToSide <==> i in m.baseToSide)
    requires forall i: nat :: i < bi && i in m.baseToSide ==> next.baseToSide[i] == m.baseToSide[i]
    ensures ExactUpTo(next, base, side, bi + 1)
  {
    forall i {:trigger ExactAt(next, base, side, i)} | 0 <= i <= bi ensures ExactAt(next, base, side, i) {
      if i < bi { assert ExactAt(m, base, side, i); }
    }
  }

  lemma {:induction false} QueuesAdvance(queues: map<Key, seq<nat>>, next: map<Key, seq<nat>>, base: seq<Key>,
      side: seq<Key>, bi: nat)
    requires bi < |base| && QueuesAt(queues, base, side, bi)
    requires forall key {:trigger Get(next, key)} ::
      Get(next, key) == if key == base[bi] && Get(queues, key) != [] then Get(queues, key)[1..] else Get(queues, key)
    ensures QueuesAt(next, base, side, bi + 1)
  {
    forall key {:trigger QueueAt(next, base, side, bi + 1, key)} | key != NoKey
      ensures QueueAt(next, base, side, bi + 1, key) {
      assert QueueAt(queues, base, side, bi, key);
      QueueAdvances(queues, next, base, side, bi, key);
    }
  }

  lemma {:induction false} QueueAdvances(queues: map<Key, seq<nat>>, next: map<Key, seq<nat>>, base: seq<Key>,
      side: seq<Key>, bi: nat, key: Key)
    requires bi < |base| && QueueAt(queues, base, side, bi, key)
    requires Get(next, key) == if key == base[bi] && Get(queues, key) != []
      then Get(queues, key)[1..] else Get(queues, key)
    ensures QueueAt(next, base, side, bi + 1, key)
  {
    var rank, places := |Occurrences(base, key, bi)|, Occurrences(side, key, |side|);
    if key == base[bi] && rank < |places| { assert places[rank..][1..] == places[rank + 1..]; }
  }

  /** The next occurrence of the id at `bi` belongs to no earlier base item. */
  lemma {:induction false} NotYetTaken(m: SideMatch, base: seq<Key>, side: seq<Key>, bi: nat)
    requires bi < |base| && Bijection(m, bi, |side|) && ExactUpTo(m, base, side, bi)
    requires |Occurrences(base, base[bi], bi)| < |Occurrences(side, base[bi], |side|)|
    ensures var si := Occurrences(side, base[bi], |side|)[|Occurrences(base, base[bi], bi)|];
      si < |side| && si !in m.sideToBase
  {
    var key := base[bi];
    var places, rank := Occurrences(side, key, |side|), |Occurrences(base, key, bi)|;
    var si := places[rank];
    OccursAt(side, key, |side|, rank);
    if si in m.sideToBase {
      var i := m.sideToBase[si];
      assert ExactAt(m, base, side, i);
      OccursAt(side, base[i], |side|, |Occurrences(base, base[i], i)|);
      RankGrows(base, i, bi);
      OccurrencesAscend(side, key, |side|, |Occurrences(base, key, i)|, rank);
    }
  }

  /** Paired items have the same id. */
  lemma {:induction false} ExactPairsAgree(m: SideMatch, base: seq<Key>, side: seq<Key>, bi: nat)
    requires Bijection(m, |base|, |side|) && ExactUpTo(m, base, side, |base|) && bi in m.baseToSide
    ensures m.baseToSide[bi] < |side| && base[bi] == side[m.baseToSide[bi]]
  {
    assert ExactAt(m, base, side, bi);
    OccursAt(side, base[bi], |side|, |Occurrences(base, base[bi], bi)|);
  }

  /** How many of the first `n` base items that have `key` are paired. */
  ghost function PairedCount(m: SideMatch, base: seq<Key>, key: Key, n: nat): nat
    requires n <= |base|
  {
    if n == 0 then 0
      else PairedCount(m, base, key, n - 1) + if base[n - 1] == key && n - 1 in m.baseToSide then 1 else 0
  }

  /** Each id is paired as often as both lists contain it. */
  lemma {:induction false} ExactPairsAsOftenAsShared(m: SideMatch, base: seq<Key>, side: seq<Key>, key: Key, n: nat)
    requires n <= |base| && ExactUpTo(m, base, side, |base|)
    ensures var b, s := |Occurrences(base, key, n)|, |Occurrences(side, key, |side|)|;
      PairedCount(m, base, key, n) == if b < s then b else s
  {
    if n > 0 {
      ExactPairsAsOftenAsShared(m, base, side, key, n - 1);
      assert ExactAt(m, base, side, n - 1);
    }
  }

  // ----- Second and third pass: keys that are unique on both sides

  /** `i` is the only place with this key. */
  ghost predicate Sole(keys: seq<Key>, i: nat) {
    i < |keys| && keys[i] != NoKey && forall j :: 0 <= j < |keys| && keys[j] == keys[i] ==> j == i
  }

  ghost predicate SolePair(base: seq<Key>, side: seq<Key>, bi: nat, si: nat) {
    Sole(base, bi) && Sole(side, si) && base[bi] == side[si]
  }

  lemma {:induction false} SoleGroup(group: seq<nat>, keys: seq<Key>, key: Key)
    requires group == Occurrences(keys, key, |keys|) && group != [] && key != NoKey
    ensures group[0] < |keys| && keys[group[0]] == key
    ensures |group| == 1 ==> Sole(keys, group[0])
    ensures forall i: nat {:trigger Sole(keys, i)} :: Sole(keys, i) && keys[i] == key ==> |group| == 1 && i == group[0]
  {
    OccursAt(keys, key, |keys|, 0);
    if |group| == 1 {
      forall j | 0 <= j < |keys| && keys[j] == key ensures j == group[0] { OccursSomewhere(keys, key, |keys|, j); }
    } else {
      OccursAt(keys, key, |keys|, 1);
      OccurrencesAscend(keys, key, |keys|, 0, 1);
    }
  }

  lemma {:induction false} SolePairOf(baseGroup: seq<nat>, sideGroup: seq<nat>, base: seq<Key>, side: seq<Key>,
      key: Key)
    requires baseGroup == Occurrences(base, key, |base|) && sideGroup == Occurrences(side, key, |side|)
    requires |baseGroup| == 1 && |sideGroup| == 1 && key != NoKey
    ensures SolePair(base, side, baseGroup[0], sideGroup[0]) && base[baseGroup[0]] == key
  {
    SoleGroup(baseGroup, base, key);
    SoleGroup(sideGroup, side, key);
  }

  /** The pairs there are once all keys but those in `todo` are handled. */
  ghost predicate SoleAdded(m: SideMatch, before: SideMatch, base: seq<Key>, side: seq<Key>, todo: set<Key>, bi: nat,
      si: nat) {
    m.Pairs(bi, si) <==> before.Pairs(bi, si) || (SolePair(base, side, bi, si) && base[bi] !in todo)
  }

  ghost predicate AllSoleAdded(m: SideMatch, before: SideMatch, base: seq<Key>, side: seq<Key>, todo: set<Key>) {
    forall bi: nat, si: nat {:trigger SoleAdded(m, before, base, side, todo, bi, si)} ::
      SoleAdded(m, before, base, side, todo, bi, si)
  }

  /** Pairs the items whose key is unique among the unpaired items of both lists. The order of the keys does not
   * matter. */
  method UniqueKeyPass(base: seq<Key>, side: seq<Key>, before: SideMatch) returns (m: SideMatch)
    requires Bijection(before, |base|, |side|)
    ensures Bijection(m, |base|, |side|) && m.additions == before.additions
    ensures forall bi: nat, si: nat {:trigger m.Pairs(bi, si)} :: m.Pairs(bi, si) <==>
      before.Pairs(bi, si) || SolePair(Untaken(base, before.baseToSide), Untaken(side, before.sideToBase), bi, si)
  {
    m := before;
    var baseGroups := GroupByKey(base, before.baseToSide);
    var sideGroups := GroupByKey(side, before.sideToBase);
    ghost var bs, ss := Untaken(base, before.baseToSide), Untaken(side, before.sideToBase);
    var todo := baseGroups.Keys;
    NoneAdded(before, bs, ss, baseGroups);
    while todo != {}
      invariant todo <= baseGroups.Keys
      invariant Bijection(m, |base|, |side|) && m.additions == before.additions
      invariant AllSoleAdded(m, before, bs, ss, todo)
      decreases todo
    {
      var key :| key in todo;
      assert GroupIs(baseGroups, bs, |bs|, key) && GroupIs(sideGroups, ss, |ss|, key);
      SoleRound(m, before, base, side, todo, key, baseGroups, sideGroups);
      if |baseGroups[key]| == 1 && key in sideGroups && |sideGroups[key]| == 1 {
        m := m.Take(baseGroups[key][0], sideGroups[key][0]);
      }
      todo := todo - {key};
    }
    forall bi: nat, si: nat {:trigger m.Pairs(bi, si)} ensures m.Pairs(bi, si) <==>
      before.Pairs(bi, si) || SolePair(bs, ss, bi, si) {
      assert SoleAdded(m, before, bs, ss, todo, bi, si);
    }
  }

  lemma {:induction false} NoneAdded(before: SideMatch, base: seq<Key>, side: seq<Key>, groups: map<Key, seq<nat>>)
    requires forall key {:trigger GroupIs(groups, base, |base|, key)} :: GroupIs(groups, base, |base|, key)
    ensures AllSoleAdded(before, before, base, side, groups.Keys)
  {
    forall bi: nat, si: nat {:trigger SoleAdded(before, before, base, side, groups.Keys, bi, si)}
      ensures SoleAdded(before, before, base, side, groups.Keys, bi, si) {
      if SolePair(base, side, bi, si) {
        OccursSomewhere(base, base[bi], |base|, bi);
        assert GroupIs(groups, base, |base|, base[bi]);
      }
    }
  }

  lemma {:induction false} SolePairIsFree(m: SideMatch, before: SideMatch, base: seq<Key>, side: seq<Key>,
      todo: set<Key>, bi: nat, si: nat)
    requires Bijection(m, |base|, |side|)
    requires AllSoleAdded(m, before, base, side, todo)
    requires forall i: nat, j: nat :: before.Pairs(i, j) ==> i < |base| && j < |side| && base[i] == NoKey == side[j]
    requires SolePair(base, side, bi, si) && base[bi] in todo
    ensures bi !in m.baseToSide && si !in m.sideToBase
  {
    assert SoleAdded(m, before, base, side, todo, bi, if bi in m.baseToSide then m.baseToSide[bi] else 0);
    assert SoleAdded(m, before, base, side, todo, if si in m.sideToBase then m.sideToBase[si] else 0, si);
  }

  /** The pair of a key, if the key is unique on both sides. */
  function AfterKey(m: SideMatch, key: Key, baseGroups: map<Key, seq<nat>>, sideGroups: map<Key, seq<nat>>): SideMatch
    requires key in baseGroups
  {
    if |baseGroups[key]| == 1 && key in sideGroups && |sideGroups[key]| == 1 then
      m.Take(baseGroups[key][0], sideGroups[key][0])
    else m
  }

  lemma {:induction false} SoleStep(m: SideMatch, next: SideMatch, before: SideMatch, base: seq<Key>, side: seq<Key>,
      todo: set<Key>, key: Key, baseGroups: map<Key, seq<nat>>, sideGroups: map<Key, seq<nat>>)
    requires key in todo && key in baseGroups && baseGroups[key] != []
    requires GroupIs(baseGroups, base, |base|, key) && GroupIs(sideGroups, side, |side|, key)
    requires AllSoleAdded(m, before, base, side, todo)
    requires var taken := |baseGroups[key]| == 1 && key in sideGroups && |sideGroups[key]| == 1;
      if taken then
        var bi, si := baseGroups[key][0], sideGroups[key][0];
        bi !in m.baseToSide && si !in m.sideToBase && next == m.Take(bi, si)
      else next == m
    ensures AllSoleAdded(next, before, base, side, todo - {key})
  {
    SoleGroup(baseGroups[key], base, key);
    if key in sideGroups { SoleGroup(sideGroups[key], side, key); }
    forall i: nat, j: nat {:trigger SoleAdded(next, before, base, side, todo - {key}, i, j)}
      ensures SoleAdded(next, before, base, side, todo - {key}, i, j)
    {
      assert SoleAdded(m, before, base, side, todo, i, j);
      if SolePair(base, side, i, j) && base[i] == key { OccursSomewhere(side, key, |side|, j); }
    }
  }

  /** One round: the pairs of one key are added to those of the keys handled before. */
  lemma {:induction false} SoleRound(m: SideMatch, before: SideMatch, base: seq<Key>, side: seq<Key>, todo: set<Key>,
      key: Key, baseGroups: map<Key, seq<nat>>, sideGroups: map<Key, seq<nat>>)
    requires Bijection(before, |base|, |side|) && Bijection(m, |base|, |side|) && key in todo && key in baseGroups
    requires var bs, ss := Untaken(base, before.baseToSide), Untaken(side, before.sideToBase);
      && GroupIs(baseGroups, bs, |bs|, key) && GroupIs(sideGroups, ss, |ss|, key)
      && AllSoleAdded(m, before, bs, ss, todo)
    ensures baseGroups[key] != []
    ensures var next := AfterKey(m, key, baseGroups, sideGroups);
      && Bijection(next, |base|, |side|) && next.additions == m.additions
      && AllSoleAdded(next, before, Untaken(base, before.baseToSide), Untaken(side, before.sideToBase), todo - {key})
  {
    var bs, ss := Untaken(base, before.baseToSide), Untaken(side, before.sideToBase);
    var next := AfterKey(m, key, baseGroups, sideGroups);
    if |baseGroups[key]| == 1 && key in sideGroups && |sideGroups[key]| == 1 {
      SolePairOf(baseGroups[key], sideGroups[key], bs, ss, key);
      SolePairIsFree(m, before, bs, ss, todo, baseGroups[key][0], sideGroups[key][0]);
    }
    SoleStep(m, next, before, bs, ss, todo, key, baseGroups, sideGroups);
  }

  // ----- Fourth pass: the rest in order and by kind

  /** The places below `n` that are not taken, in order. */
  function Remaining(n: nat, taken: map<nat, nat>): (r: seq<nat>)
    ensures forall k :: 0 <= k < |r| ==> r[k] < n && r[k] !in taken
    ensures forall i: nat :: i < n && i !in taken ==> i in r
    ensures forall j, k :: 0 <= j < k < |r| ==> r[j] < r[k]
  {
    if n == 0 then []
    else
      var init := Remaining(n - 1, taken);
      if n - 1 in taken then init
      else
        assert (init + [n - 1])[|init|] == n - 1 && forall k :: 0 <= k < |init| ==> (init + [n - 1])[k] == init[k];
        init + [n - 1]
  }

  /** Places in `a` and `b` that hold the same and move forward in both. */
  ghost predicate IsCommon(a: seq<string>, b: seq<string>, pairs: seq<(nat, nat)>, i: nat, j: nat) {
    && (forall k ::
      0 <= k < |pairs| ==> i <= pairs[k].0 < |a| && j <= pairs[k].1 < |b| && a[pairs[k].0] == b[pairs[k].1])
    && (forall k, l :: 0 <= k < l < |pairs| ==> pairs[k].0 < pairs[l].0 && pairs[k].1 < pairs[l].1)
  }

  /** The length of a longest common subsequence of `a[i..]` and `b[j..]`. */
  function Lcs(a: seq<string>, b: seq<string>, i: nat, j: nat): nat
    requires i <= |a| && j <= |b|
    decreases |a| - i + |b| - j
  {
    if i == |a| || j == |b| then 0
    else if a[i] == b[j] then Lcs(a, b, i + 1, j + 1) + 1
    else
      var skipA, skipB := Lcs(a, b, i + 1, j), Lcs(a, b, i, j + 1);
      if skipA >= skipB then skipA else skipB
  }

  /** No common subsequence is longer. */
  lemma {:induction false} LcsIsLongest(a: seq<string>, b: seq<string>, pairs: seq<(nat, nat)>, i: nat, j: nat)
    requires i <= |a| && j <= |b| && IsCommon(a, b, pairs, i, j)
    ensures |pairs| <= Lcs(a, b, i, j)
    decreases |a| - i + |b| - j
  {
    if pairs != [] {
      var rest := pairs[1..];
      assert i <= pairs[0].0 < |a| && j <= pairs[0].1 < |b|;
      if a[i] == b[j] {
        forall k | 0 <= k < |rest| ensures rest[k].0 > i && rest[k].1 > j { assert pairs[0].0 < pairs[k + 1].0; }
        LcsIsLongest(a, b, rest, i + 1, j + 1);
      } else if pairs[0].0 > i {
        LcsIsLongest(a, b, pairs, i + 1, j);
      } else {
        LcsIsLongest(a, b, pairs, i, j + 1);
      }
    }
  }

  ghost predicate RowFrom(table: array2<nat>, a: seq<string>, b: seq<string>, i: nat, j: nat)
    requires table.Length0 == |a| + 1 && table.Length1 == |b| + 1 && i <= |a|
    reads table
  {
    forall y :: j <= y <= |b| ==> table[i, y] == Lcs(a, b, i, y)
  }

  /** Fills one row of the table from the row below it. */
  method FillRow(table: array2<nat>, a: seq<string>, b: seq<string>, i: nat)
    requires table.Length0 == |a| + 1 && table.Length1 == |b| + 1 && i < |a|
    requires RowFrom(table, a, b, i + 1, 0) && table[i, |b|] == 0
    modifies table
    ensures RowFrom(table, a, b, i, 0)
    ensures forall x, y :: 0 <= x <= |a| && x != i && 0 <= y <= |b| ==> table[x, y] == old(table[x, y])
  {
    for j := |b| downto 0
      invariant RowFrom(table, a, b, i, j)
      invariant forall x, y :: 0 <= x <= |a| && x != i && 0 <= y <= |b| ==> table[x, y] == old(table[x, y])
    {
      assert table[i + 1, j] == Lcs(a, b, i + 1, j) && table[i + 1, j + 1] == Lcs(a, b, i + 1, j + 1) &&
        table[i, j + 1] == Lcs(a, b, i, j + 1);
      table[i, j] :=
        if a[i] == b[j] then table[i + 1, j + 1] + 1
        else if table[i + 1, j] >= table[i, j + 1] then table[i + 1, j] else table[i, j + 1];
    }
  }

  /** Fills the table of suffix lengths from its last corner. */
  method FillTable(a: seq<string>, b: seq<string>) returns (table: array2<nat>)
    ensures fresh(table) && table.Length0 == |a| + 1 && table.Length1 == |b| + 1
    ensures forall i :: 0 <= i <= |a| ==> RowFrom(table, a, b, i, 0)
  {
    table := new nat[|a| + 1, |b| + 1]((i, j) => 0);
    for i := |a| downto 0
      invariant forall x :: i <= x <= |a| ==> RowFrom(table, a, b, x, 0)
      invariant forall x, y :: 0 <= x < i && 0 <= y <= |b| ==> table[x, y] == 0
    {
      label before:
      FillRow(table, a, b, i);
      forall x | i < x <= |a| ensures RowFrom(table, a, b, x, 0) { assert old@before(RowFrom(table, a, b, x, 0)); }
    }
  }

  /** The longest common subsequence that prefers, where skipping either item costs nothing, to skip one of `a`. */
  function Walk(a: seq<string>, b: seq<string>, i: nat, j: nat): seq<(nat, nat)>
    requires i <= |a| && j <= |b|
    decreases |a| - i + |b| - j
  {
    if i == |a| || j == |b| then []
    else if a[i] == b[j] then [(i, j)] + Walk(a, b, i + 1, j + 1)
    else if Lcs(a, b, i + 1, j) >= Lcs(a, b, i, j + 1) then Walk(a, b, i + 1, j)
    else Walk(a, b, i, j + 1)
  }

  lemma {:induction false} OneMoreCommon(a: seq<string>, b: seq<string>, rest: seq<(nat, nat)>, i: nat, j: nat)
    requires i < |a| && j < |b| && a[i] == b[j] && IsCommon(a, b, rest, i + 1, j + 1)
    ensures IsCommon(a, b, [(i, j)] + rest, i, j)
  {
    var pairs := [(i, j)] + rest;
    assert forall k :: 0 < k < |pairs| ==> pairs[k] == rest[k - 1];
  }

  lemma {:induction false} CommonFromBefore(a: seq<string>, b: seq<string>, pairs: seq<(nat, nat)>, i: nat, j: nat,
      from: nat, start: nat)
    requires IsCommon(a, b, pairs, i, j) && from <= i && start <= j
    ensures IsCommon(a, b, pairs, from, start)
  {
  }

  /** It is a common subsequence, and none is longer. */
  lemma {:induction false} WalkIsLongest(a: seq<string>, b: seq<string>, i: nat, j: nat)
    requires i <= |a| && j <= |b|
    ensures IsCommon(a, b, Walk(a, b, i, j), i, j) && |Walk(a, b, i, j)| == Lcs(a, b, i, j)
    decreases |a| - i + |b| - j
  {
    if i < |a| && j < |b| {
      if a[i] == b[j] {
        WalkIsLongest(a, b, i + 1, j + 1);
        OneMoreCommon(a, b, Walk(a, b, i + 1, j + 1), i, j);
      } else if Lcs(a, b, i + 1, j) >= Lcs(a, b, i, j + 1) {
        WalkIsLongest(a, b, i + 1, j);
        CommonFromBefore(a, b, Walk(a, b, i + 1, j), i + 1, j, i, j);
      } else {
        WalkIsLongest(a, b, i, j + 1);
        CommonFromBefore(a, b, Walk(a, b, i, j + 1), i, j + 1, i, j);
      }
    }
  }

  /** Walks the table from its first corner along a longest common subsequence. */
  method TablePairs(a: seq<string>, b: seq<string>) returns (pairs: seq<(nat, nat)>)
    ensures pairs == Walk(a, b, 0, 0)
    ensures IsCommon(a, b, pairs, 0, 0) && |pairs| == Lcs(a, b, 0, 0)
  {
    var table := FillTable(a, b);
    pairs := [];
    var i, j := 0, 0;
    while i < |a| && j < |b|
      invariant i <= |a| && j <= |b| && pairs + Walk(a, b, i, j) == Walk(a, b, 0, 0)
      invariant forall x :: 0 <= x <= |a| ==> RowFrom(table, a, b, x, 0)
    {
      assert RowFrom(table, a, b, i + 1, 0) && RowFrom(table, a, b, i, 0);
      if a[i] == b[j] {
        OneMorePair(pairs, (i, j), Walk(a, b, i + 1, j + 1));
        pairs := pairs + [(i, j)];
        i, j := i + 1, j + 1;
      } else if table[i + 1, j] >= table[i, j + 1] {
        i := i + 1;
      } else {
        j := j + 1;
      }
    }
    assert pairs + [] == pairs;
    WalkIsLongest(a, b, 0, 0);
  }

  /** Pairs that use the first places of `a`, one after the other. */
  ghost predicate IsPrefixOf(pairs: seq<(nat, nat)>) { forall k :: 0 <= k < |pairs| ==> pairs[k].0 == k }

  /** Each place of `a` takes the next place in `b` that holds the same, until one finds none. */
  function Embed(a: seq<string>, b: seq<string>, i: nat, j: nat): (r: seq<(nat, nat)>)
    requires i <= |a| && j <= |b|
    ensures |r| <= |a| - i && |r| <= |b| - j
    decreases |b| - j
  {
    if i == |a| || j == |b| then []
    else if a[i] == b[j] then [(i, j)] + Embed(a, b, i + 1, j + 1)
    else Embed(a, b, i, j + 1)
  }

  /** That many places of `a`, from `i` on, can be found in `b[j..]` in order. */
  function Embedded(a: seq<string>, b: seq<string>, i: nat, j: nat): (n: nat)
    requires i <= |a| && j <= |b|
    ensures n <= |a| - i && n <= |b| - j
    decreases |b| - j
  {
    if i == |a| || j == |b| then 0
    else if a[i] == b[j] then 1 + Embedded(a, b, i + 1, j + 1)
    else Embedded(a, b, i, j + 1)
  }

  lemma {:induction false} EmbedIsCommon(a: seq<string>, b: seq<string>, i: nat, j: nat)
    requires i <= |a| && j <= |b|
    ensures IsCommon(a, b, Embed(a, b, i, j), i, j)
    decreases |b| - j
  {
    if i < |a| && j < |b| {
      if a[i] == b[j] {
        EmbedIsCommon(a, b, i + 1, j + 1);
        OneMoreCommon(a, b, Embed(a, b, i + 1, j + 1), i, j);
      } else {
        EmbedIsCommon(a, b, i, j + 1);
      }
    }
  }

  lemma {:induction false} EmbedIsPrefix(a: seq<string>, b: seq<string>, i: nat, j: nat)
    requires i <= |a| && j <= |b|
    ensures |Embed(a, b, i, j)| == Embedded(a, b, i, j)
    ensures forall k :: 0 <= k < |Embed(a, b, i, j)| ==> Embed(a, b, i, j)[k].0 == i + k
    decreases |b| - j
  {
    if i < |a| && j < |b| {
      if a[i] == b[j] { EmbedIsPrefix(a, b, i + 1, j + 1); } else { EmbedIsPrefix(a, b, i, j + 1); }
    }
  }

  /** No other way to place the first items of `a` in `b` gets further. */
  lemma {:induction false} EmbedIsLongest(a: seq<string>, b: seq<string>, i: nat, j: nat, pairs: seq<(nat, nat)>)
    requires i <= |a| && j <= |b| && IsCommon(a, b, pairs, i, j)
    requires forall k :: 0 <= k < |pairs| ==> pairs[k].0 == i + k
    ensures |pairs| <= Embedded(a, b, i, j)
    decreases |b| - j
  {
    if pairs != [] {
      var rest := pairs[1..];
      assert pairs[0].0 == i < |a| && j <= pairs[0].1 < |b|;
      if a[i] == b[j] {
        forall k | 0 <= k < |rest| ensures rest[k].0 > i && rest[k].1 > j { assert pairs[0].1 < pairs[k + 1].1; }
        EmbedIsLongest(a, b, i + 1, j + 1, rest);
      } else {
        forall k | 0 <= k < |pairs| ensures pairs[k].1 > j { assert pairs[0].1 != j; }
        EmbedIsLongest(a, b, i, j + 1, pairs);
      }
    }
  }

  /** Beyond the bound there is no table: each place takes the next place in `b` of its kind, until one finds none. */
  method GreedyPairs(a: seq<string>, b: seq<string>) returns (pairs: seq<(nat, nat)>)
    ensures pairs == Embed(a, b, 0, 0)
    ensures IsCommon(a, b, pairs, 0, 0) && IsPrefixOf(pairs)
    ensures forall others: seq<(nat, nat)> :: IsCommon(a, b, others, 0, 0) && IsPrefixOf(others) ==> |others| <= |pairs|
  {
    pairs := [];
    var cursor := 0;
    ghost var all := Embed(a, b, 0, 0);
    for i := 0 to |a|
      invariant cursor <= |b| && pairs + Embed(a, b, i, cursor) == all
    {
      ghost var coming := Embed(a, b, i, cursor);
      while cursor < |b| && a[i] != b[cursor]
        invariant cursor <= |b| && Embed(a, b, i, cursor) == coming
      {
        cursor := cursor + 1;
      }
      if cursor == |b| {
        NothingMore(pairs, coming);
        GreedyIsEmbedding(a, b);
        return;
      }
      OneMorePair(pairs, (i, cursor), Embed(a, b, i + 1, cursor + 1));
      pairs := pairs + [(i, cursor)];
      cursor := cursor + 1;
    }
    NothingMore(pairs, Embed(a, b, |a|, cursor));
    GreedyIsEmbedding(a, b);
  }

  lemma {:induction false} NothingMore(pairs: seq<(nat, nat)>, rest: seq<(nat, nat)>)
    requires rest == []
    ensures pairs + rest == pairs
  {
  }

  lemma {:induction false} OneMorePair(pairs: seq<(nat, nat)>, pair: (nat, nat), rest: seq<(nat, nat)>)
    ensures pairs + ([pair] + rest) == (pairs + [pair]) + rest
  {
  }

  lemma {:induction false} GreedyIsEmbedding(a: seq<string>, b: seq<string>)
    ensures IsCommon(a, b, Embed(a, b, 0, 0), 0, 0) && IsPrefixOf(Embed(a, b, 0, 0))
    ensures forall others: seq<(nat, nat)> :: IsCommon(a, b, others, 0, 0) && IsPrefixOf(others) ==>
      |others| <= |Embed(a, b, 0, 0)|
  {
    EmbedIsCommon(a, b, 0, 0);
    EmbedIsPrefix(a, b, 0, 0);
    forall others: seq<(nat, nat)> | IsCommon(a, b, others, 0, 0) && IsPrefixOf(others)
      ensures |others| <= |Embed(a, b, 0, 0)| {
      EmbedIsLongest(a, b, 0, 0, others);
    }
  }

  /** What the last pass found: pairs of places among the remaining items. */
  ghost predicate RestPaired(m: SideMatch, before: SideMatch, bs: seq<nat>, ss: seq<nat>, pairs: seq<(nat, nat)>,
      n: nat)
    requires n <= |pairs| && forall k :: 0 <= k < |pairs| ==> pairs[k].0 < |bs| && pairs[k].1 < |ss|
  {
    forall bi: nat, si: nat {:trigger m.Pairs(bi, si)} :: m.Pairs(bi, si) <==>
      before.Pairs(bi, si) ||
        exists k {:trigger RestPairAt(bs, ss, pairs, k, bi, si)} :: 0 <= k < n && RestPairAt(bs, ss, pairs, k, bi, si)
  }

  ghost predicate RestPairAt(bs: seq<nat>, ss: seq<nat>, pairs: seq<(nat, nat)>, k: nat, bi: nat, si: nat)
    requires k < |pairs| && pairs[k].0 < |bs| && pairs[k].1 < |ss|
  {
    bs[pairs[k].0] == bi && ss[pairs[k].1] == si
  }

  method TakeAll(before: SideMatch, bases: nat, sides: nat, bs: seq<nat>, ss: seq<nat>, pairs: seq<(nat, nat)>)
      returns (m: SideMatch)
    requires Bijection(before, bases, sides) && bs == Remaining(bases, before.baseToSide) &&
      ss == Remaining(sides, before.sideToBase)
    requires forall k :: 0 <= k < |pairs| ==> pairs[k].0 < |bs| && pairs[k].1 < |ss|
    requires forall k, l :: 0 <= k < l < |pairs| ==> pairs[k].0 < pairs[l].0 && pairs[k].1 < pairs[l].1
    ensures Bijection(m, bases, sides) && m.additions == before.additions &&
      RestPaired(m, before, bs, ss, pairs, |pairs|)
  {
    m := before;
    for k := 0 to |pairs|
      invariant Bijection(m, bases, sides) && m.additions == before.additions && RestPaired(m, before, bs, ss, pairs, k)
    {
      var bi, si := bs[pairs[k].0], ss[pairs[k].1];
      RestIsFree(m, before, bases, sides, bs, ss, pairs, k);
      ghost var previous := m;
      m := m.Take(bi, si);
      RestPairsOneMore(previous, m, before, bs, ss, pairs, k);
    }
  }

  lemma {:induction false} RestIsFree(m: SideMatch, before: SideMatch, bases: nat, sides: nat, bs: seq<nat>,
      ss: seq<nat>, pairs: seq<(nat, nat)>, k: nat)
    requires bs == Remaining(bases, before.baseToSide) && ss == Remaining(sides, before.sideToBase)
    requires Bijection(before, bases, sides) && Bijection(m, bases, sides)
    requires forall x :: 0 <= x < |pairs| ==> pairs[x].0 < |bs| && pairs[x].1 < |ss|
    requires forall x, y :: 0 <= x < y < |pairs| ==> pairs[x].0 < pairs[y].0 && pairs[x].1 < pairs[y].1
    requires k < |pairs| && RestPaired(m, before, bs, ss, pairs, k)
    ensures bs[pairs[k].0] !in m.baseToSide && ss[pairs[k].1] !in m.sideToBase
  {
    var bi, si := bs[pairs[k].0], ss[pairs[k].1];
    assert bi !in before.baseToSide && si !in before.sideToBase;
    OnlyAt(bs, ss, pairs, k);
    var j, i := if bi in m.baseToSide then m.baseToSide[bi] else 0, if si in m.sideToBase then m.sideToBase[si] else 0;
    assert m.Pairs(bi, j) <==> bi in m.baseToSide;
    assert m.Pairs(i, si) <==> si in m.sideToBase;
    assert !before.Pairs(bi, j) && !before.Pairs(i, si);
  }

  lemma {:induction false} OnlyAt(bs: seq<nat>, ss: seq<nat>, pairs: seq<(nat, nat)>, k: nat)
    requires forall x :: 0 <= x < |pairs| ==> pairs[x].0 < |bs| && pairs[x].1 < |ss|
    requires forall x, y :: 0 <= x < y < |pairs| ==> pairs[x].0 < pairs[y].0 && pairs[x].1 < pairs[y].1
    requires forall x, y :: 0 <= x < y < |bs| ==> bs[x] < bs[y]
    requires forall x, y :: 0 <= x < y < |ss| ==> ss[x] < ss[y]
    requires k < |pairs|
    ensures forall x, i: nat, j: nat {:trigger RestPairAt(bs, ss, pairs, x, i, j)} ::
      0 <= x < k && RestPairAt(bs, ss, pairs, x, i, j) ==>
      i != bs[pairs[k].0] && j != ss[pairs[k].1]
  {
  }

  lemma {:induction false} RestPairsOneMore(m: SideMatch, next: SideMatch, before: SideMatch, bs: seq<nat>,
      ss: seq<nat>, pairs: seq<(nat, nat)>, k: nat)
    requires k < |pairs| && forall x :: 0 <= x < |pairs| ==> pairs[x].0 < |bs| && pairs[x].1 < |ss|
    requires RestPaired(m, before, bs, ss, pairs, k)
    requires bs[pairs[k].0] !in m.baseToSide && next == m.Take(bs[pairs[k].0], ss[pairs[k].1])
    ensures RestPaired(next, before, bs, ss, pairs, k + 1)
  {
    forall bi: nat, si: nat {:trigger next.Pairs(bi, si)}
      ensures next.Pairs(bi, si) <==>
        before.Pairs(bi, si) ||
          exists x {:trigger RestPairAt(bs, ss, pairs, x, bi, si)} ::
          0 <= x < k + 1 && RestPairAt(bs, ss, pairs, x, bi, si)
    {
      assert next.Pairs(bi, si) <==> m.Pairs(bi, si) || RestPairAt(bs, ss, pairs, k, bi, si);
    }
  }

  // ----- The whole pass

  function IdKeys(ids: seq<nat>): (r: seq<Key>)
    ensures |r| == |ids| && AllKeyed(r)
  {
    seq(|ids|, i requires 0 <= i < |ids| => Id(ids[i]))
  }

  function HintKeys(items: seq<Json>): (r: seq<Key>)
    ensures |r| == |items|
  {
    seq(|items|, i requires 0 <= i < |items| =>
      match IdentityHint(items[i]) case Some(hint) => Name(hint) case None => NoKey)
  }

  function KindKeys(items: seq<Json>): (r: seq<Key>)
    ensures |r| == |items|
  {
    seq(|items|, i requires 0 <= i < |items| => Name(Kind(items[i])))
  }

  function KindsAt(items: seq<Json>, places: seq<nat>): (r: seq<string>)
    requires forall k :: 0 <= k < |places| ==> places[k] < |items|
    ensures |r| == |places|
  {
    seq(|places|, k requires 0 <= k < |places| => Kind(items[places[k]]))
  }

  const TABLE_BOUND := 1_000_000

  /** `next` adds to `m` the pairs of keys that are unique among its unpaired items. */
  ghost predicate AddsSolePairs(next: SideMatch, m: SideMatch, base: seq<Key>, side: seq<Key>) {
    forall bi: nat, si: nat {:trigger next.Pairs(bi, si)} :: next.Pairs(bi, si) <==>
      m.Pairs(bi, si) || SolePair(Untaken(base, m.baseToSide), Untaken(side, m.sideToBase), bi, si)
  }

  /** The pairs of the last pass, by the remaining kinds alone. */
  function RestPairs(a: seq<string>, b: seq<string>): (r: seq<(nat, nat)>)
    ensures IsCommon(a, b, r, 0, 0)
  {
    WalkIsLongest(a, b, 0, 0);
    EmbedIsCommon(a, b, 0, 0);
    if |a| * |b| <= TABLE_BOUND then Walk(a, b, 0, 0) else Embed(a, b, 0, 0)
  }

  lemma {:induction false} SamePairs(m: SideMatch, additions: seq<nat>, before: SideMatch, bs: seq<nat>, ss: seq<nat>,
      pairs: seq<(nat, nat)>)
    requires forall k :: 0 <= k < |pairs| ==> pairs[k].0 < |bs| && pairs[k].1 < |ss|
    requires RestPaired(m, before, bs, ss, pairs, |pairs|)
    ensures RestPaired(m.(additions := additions), before, bs, ss, pairs, |pairs|)
  {
    forall bi: nat, si: nat {:trigger m.(additions := additions).Pairs(bi, si)}
      ensures m.(additions := additions).Pairs(bi, si) == m.Pairs(bi, si)
    {
    }
  }

  /** `next` adds to `m` the pairs of the last pass. */
  ghost predicate AddsRest(next: SideMatch, m: SideMatch, base: seq<Json>, side: seq<Json>) {
    var bs, ss := Remaining(|base|, m.baseToSide), Remaining(|side|, m.sideToBase);
    var pairs := RestPairs(KindsAt(base, bs), KindsAt(side, ss));
    RestPaired(next, m, bs, ss, pairs, |pairs|)
  }

  method RestPass(base: seq<Json>, side: seq<Json>, before: SideMatch) returns (m: SideMatch)
    requires Bijection(before, |base|, |side|)
    ensures Bijection(m, |base|, |side|) && m.additions == Remaining(|side|, m.sideToBase)
    ensures AddsRest(m, before, base, side)
  {
    var bs, ss := Remaining(|base|, before.baseToSide), Remaining(|side|, before.sideToBase);
    var baseKinds, sideKinds := KindsAt(base, bs), KindsAt(side, ss);
    var found: seq<(nat, nat)>;
    if |bs| * |ss| <= TABLE_BOUND {
      found := TablePairs(baseKinds, sideKinds);
    } else {
      found := GreedyPairs(baseKinds, sideKinds);
    }
    m := TakeAll(before, |base|, |side|, bs, ss, found);
    SamePairs(m, Remaining(|side|, m.sideToBase), before, bs, ss, found);
    m := m.(additions := Remaining(|side|, m.sideToBase));
  }

  /** What each pass of a match found. */
  datatype Passes = Passes(exact: SideMatch, hinted: SideMatch, kinded: SideMatch)

  /** `found` pairs by id, then by hint, then by kind where unique, and the rest in order. */
  ghost predicate PairedBy(base: seq<Json>, side: seq<Json>, baseIds: seq<nat>, sideIds: seq<nat>, found: SideMatch,
      passes: Passes)
    requires |baseIds| == |base| && |sideIds| == |side|
  {
    && Bijection(found, |base|, |side|) && found.additions == Remaining(|side|, found.sideToBase)
    && Bijection(passes.exact, |base|, |side|) && ExactUpTo(passes.exact, IdKeys(baseIds), IdKeys(sideIds), |base|)
    && Bijection(passes.hinted, |base|, |side|) &&
      AddsSolePairs(passes.hinted, passes.exact, HintKeys(base), HintKeys(side))
    && Bijection(passes.kinded, |base|, |side|) &&
      AddsSolePairs(passes.kinded, passes.hinted, KindKeys(base), KindKeys(side))
    && AddsRest(found, passes.kinded, base, side)
  }

  method MatchSide(base: seq<Json>, side: seq<Json>, baseIds: seq<nat>, sideIds: seq<nat>)
      returns (found: SideMatch, passes: Passes)
    requires |baseIds| == |base| && |sideIds| == |side|
    ensures PairedBy(base, side, baseIds, sideIds, found, passes)
  {
    var exact := ExactPass(IdKeys(baseIds), IdKeys(sideIds));
    var hinted := UniqueKeyPass(HintKeys(base), HintKeys(side), exact);
    var kinded := UniqueKeyPass(KindKeys(base), KindKeys(side), hinted);
    found := RestPass(base, side, kinded);
    passes := Passes(exact, hinted, kinded);
  }
}
