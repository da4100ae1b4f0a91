/** Pairing equal keys first with first, told without counting. */
module ExactPairs {
  import opened MatchSides

  predicate Ascend(s: seq<nat>) { forall j, k :: 0 <= j < k < |s| ==> s[j] < s[k] }

  lemma {:induction false} RankOf(keys: seq<Key>, key: Key, n: nat, k: nat)
    requires n <= |keys| && k < |Occurrences(keys, key, n)|
    ensures var i := Occurrences(keys, key, n)[k]; i < n && keys[i] == key && |Occurrences(keys, key, i)| == k
    decreases n
  {
    if k < |Occurrences(keys, key, n - 1)| { RankOf(keys, key, n - 1, k); }
  }

  /** The base item whose turn it was to take an item of the side, if there was one before `n`. */
  lemma {:induction false} TakenInTurn(m: SideMatch, base: seq<Key>, side: seq<Key>, key: Key, n: nat, j: nat)
      returns (i: nat)
    requires ExactUpTo(m, base, side, |base|) && n <= |base| && j < |side| && side[j] == key
    requires |Occurrences(side, key, j)| < |Occurrences(base, key, n)|
    ensures i < n && base[i] == key && m.Pairs(i, j)
  {
    var rank, places := |Occurrences(side, key, j)|, Occurrences(side, key, |side|);
    i := Occurrences(base, key, n)[rank];
    RankOf(base, key, n, rank);
    PlaceOf(side, key, |side|, j);
    assert ExactAt(m, base, side, i);
  }

  lemma {:induction false} PlaceOf(keys: seq<Key>, key: Key, n: nat, j: nat)
    requires j < n <= |keys| && keys[j] == key
    ensures var rank, places := |Occurrences(keys, key, j)|, Occurrences(keys, key, n);
      rank < |places| && places[rank] == j
    decreases n
  {
    if j < n - 1 { PlaceOf(keys, key, n - 1, j); }
  }

  /** Of two equal keys, one on each side, one is paired. */
  lemma {:induction false} NoneLeftOver(m: SideMatch, base: seq<Key>, side: seq<Key>, i: nat, j: nat)
    requires Bijection(m, |base|, |side|) && ExactUpTo(m, base, side, |base|)
    requires i < |base| && j < |side| && base[i] == side[j]
    ensures i in m.baseToSide || j in m.sideToBase
  {
    assert ExactAt(m, base, side, i);
    if i !in m.baseToSide {
      PlaceOf(side, side[j], |side|, j);
      var k := TakenInTurn(m, base, side, side[j], i, j);
    }
  }

  /** Of two equal keys of the base the earlier is paired if the later is, and with an earlier item. */
  lemma {:induction false} FirstWithFirst(m: SideMatch, base: seq<Key>, side: seq<Key>, i: nat, k: nat)
    requires ExactUpTo(m, base, side, |base|) && i < k < |base| && base[i] == base[k] && k in m.baseToSide
    ensures i in m.baseToSide && m.baseToSide[i] < m.baseToSide[k]
  {
    assert ExactAt(m, base, side, i) && ExactAt(m, base, side, k);
    RankGrows(base, i, k);
    OccurrencesAscend(side, base[k], |side|, |Occurrences(base, base[i], i)|, |Occurrences(base, base[k], k)|);
  }

  /** Of two equal keys of the side the earlier is paired if the later is. */
  lemma {:induction false} EarlierIsTaken(m: SideMatch, base: seq<Key>, side: seq<Key>, j: nat, k: nat)
    requires Bijection(m, |base|, |side|) && ExactUpTo(m, base, side, |base|)
    requires j < k < |side| && side[j] == side[k] && k in m.sideToBase
    ensures j in m.sideToBase
  {
    var i := m.sideToBase[k];
    assert ExactAt(m, base, side, i);
    ExactPairsAgree(m, base, side, i);
    RankGrows(side, j, k);
    RankOf(side, base[i], |side|, |Occurrences(base, base[i], i)|);
    var taker := TakenInTurn(m, base, side, side[j], i, j);
  }
}
