/** Ids that are unique within a document: the first use of a name keeps it, later ones get a numeric suffix. */
module DocumentIds {
  import Decimal

  function Candidate(name: string, n: nat): string { name + "-" + Decimal.Print(n) }

  /** A numbered name is the name, a dash, and the number in decimal without leading zeros. */
  lemma {:induction false} CandidateIs(name: string, n: nat)
    ensures var all := Candidate(name, n);
      && |all| > |name| + 1 && all[..|name|] == name && all[|name|] == '-'
      && var numeral := all[|name| + 1..];
         Decimal.AllDigits(numeral) && Decimal.Value(numeral) == n && (numeral[0] == '0' ==> n == 0)
  {
    assert Candidate(name, n)[|name| + 1..] == Decimal.Print(n);
    Decimal.ValueOfPrint(n);
    assert Decimal.Value("") == 0;
  }

  /** A numbered name tells both the name and the number. */
  lemma {:induction false} CandidateTells(name: string, m: nat, other: string, n: nat)
    ensures Candidate(name, m) == Candidate(other, n) <==> name == other && m == n
  {
    if Candidate(name, m) == Candidate(other, n) {
      var all := Candidate(name, m);
      LastDash(name, m, if |name| < |other| then |other| else |name|);
      LastDash(other, n, if |name| < |other| then |other| else |name|);
      assert all[..|name|] == name && all[..|other|] == other;
      assert all[|name| + 1..] == Decimal.Print(m) && all[|other| + 1..] == Decimal.Print(n);
      Decimal.PrintInjective(m, n);
    }
  }

  /** From the end of the name on there is one dash only. */
  lemma {:induction false} LastDash(name: string, m: nat, at: nat)
    requires |name| <= at < |Candidate(name, m)|
    ensures Candidate(name, m)[at] == '-' <==> at == |name|
  {
    var digits := Decimal.Print(m);
    if at > |name| {
      assert Candidate(name, m)[at] == digits[at - |name| - 1];
      assert Decimal.IsDigit(digits[at - |name| - 1]);
    }
  }

  lemma {:induction false} CandidatesDiffer(name: string, m: nat, n: nat)
    requires m != n
    ensures Candidate(name, m) != Candidate(name, n) && Candidate(name, n) != name
  {
    CandidateTells(name, m, name, n);
  }

  /** The suffixes from 2 on up to `n` are all taken. */
  ghost predicate TakenUpTo(name: string, taken: set<string>, n: nat) {
    forall m {:trigger Candidate(name, m)} :: 2 <= m <= n ==> Candidate(name, m) in taken
  }

  /** The first free suffix, counting from 2. */
  ghost predicate FirstFree(name: string, taken: set<string>, n: nat) {
    n >= 2 && Candidate(name, n) !in taken && TakenUpTo(name, taken, n - 1)
  }

  /** The id for a name while some are taken: the name itself, or else its first free suffix. */
  ghost predicate GivenName(name: string, id: string, taken: set<string>) {
    if name !in taken then id == name
    else exists n {:trigger Candidate(name, n)} :: id == Candidate(name, n) && FirstFree(name, taken, n)
  }

  /** What the counters remember is what a search from 2 would find. */
  ghost predicate Remembers(counts: map<string, nat>, taken: set<string>) {
    forall name {:trigger name in counts} :: name in counts ==> TakenUpTo(name, taken, counts[name])
  }

  /** Taken names that a search beyond `n` may still meet. */
  ghost function Ahead(name: string, taken: set<string>, n: nat): set<string> {
    set x | x in taken && forall m {:trigger Candidate(name, m)} :: 0 <= m <= n ==> x != Candidate(name, m)
  }

  /** Searches for a free suffix behind `count`; it ends because only finitely many names are taken. */
  method Search(name: string, taken: set<string>, count: nat) returns (n: nat)
    ensures n > count && Candidate(name, n) !in taken
    ensures forall m {:trigger Candidate(name, m)} :: count < m < n ==> Candidate(name, m) in taken
  {
    n := count + 1;
    while Candidate(name, n) in taken
      invariant n > count
      invariant forall m {:trigger Candidate(name, m)} :: count < m < n ==> Candidate(name, m) in taken
      decreases |Ahead(name, taken, n - 1)|
    {
      ghost var before, after := Ahead(name, taken, n - 1), Ahead(name, taken, n);
      forall m: nat | m < n ensures Candidate(name, m) != Candidate(name, n) { CandidatesDiffer(name, m, n); }
      assert Candidate(name, n) in before && Candidate(name, n) !in after;
      assert after < before;
      Smaller(after, before);
      n := n + 1;
    }
  }

  lemma {:induction false} Smaller<T>(a: set<T>, b: set<T>)
    requires a < b
    ensures |a| < |b|
  {
    assert b == a + (b - a);
    assert |b| == |a| + |b - a|;
  }

  // ----- Headings

  class HeadingIds {
    /** For each name the last suffix tried for it. */
    var counts: map<string, nat>
    /** The ids that are written out in the document. */
    const reserved: set<string>

    constructor (reserved: set<string>)
      ensures this.reserved == reserved && counts == map[] && Valid()
    {
      this.reserved := reserved;
      counts := map[];
    }

    ghost function Taken(): set<string>
      reads this
    {
      counts.Keys + reserved
    }

    ghost predicate Valid()
      reads this
    {
      Remembers(counts, Taken())
    }

    /** An explicit id stays as it is. An automatic one is new: neither allocated before, nor explicit anywhere. */
    method Allocate(name: string, explicit: bool) returns (id: string)
      modifies this
      ensures id in counts && old(counts.Keys) <= counts.Keys
      ensures explicit ==> id == name
      ensures !explicit ==> id !in old(Taken())
      ensures old(Valid()) ==> Valid()
      ensures old(Valid()) && !explicit ==> GivenName(name, id, old(Taken()))
    {
      if explicit {
        if name !in counts { counts := counts[name := 1]; }
        return name;
      }
      if name !in counts && name !in reserved {
        counts := counts[name := 1];
        return name;
      }
      var count := if name in counts && counts[name] >= 1 then counts[name] else 1;
      var n := Search(name, counts.Keys + reserved, count);
      id := Candidate(name, n);
      assert old(Valid()) ==> FirstFree(name, old(Taken()), n);
      CandidatesDiffer(name, 0, n);
      counts := counts[name := n];
      if id !in counts { counts := counts[id := 1]; }
    }

    /** All headings of a document: no automatic id equals any other id. */
    method AllocateAll(headings: seq<(string, bool)>) returns (ids: seq<string>)
      requires Valid() && forall i :: 0 <= i < |headings| && headings[i].1 ==> headings[i].0 in reserved
      modifies this
      ensures Valid() && |ids| == |headings|
      ensures forall i :: 0 <= i < |headings| && headings[i].1 ==> ids[i] == headings[i].0
      ensures forall i, j :: 0 <= i < j < |headings| && !(headings[i].1 && headings[j].1) ==> ids[i] != ids[j]
    {
      ids := [];
      for k := 0 to |headings|
        invariant Valid() && |ids| == k
        invariant forall i ::
          0 <= i < k ==> ids[i] in counts && (if headings[i].1 then ids[i] == headings[i].0 else ids[i] !in reserved)
        invariant forall i, j :: 0 <= i < j < k && !(headings[i].1 && headings[j].1) ==> ids[i] != ids[j]
      {
        var id := Allocate(headings[k].0, headings[k].1);
        ids := ids + [id];
      }
    }
  }

  // ----- Citations

  /** A citation key and how often it is cited. */
  datatype Pending = Pending(key: string, uses: nat)

  class DocumentIdRegistry {
    var usedIds: map<string, nat>
    var pending: seq<Pending>
    var reserved: bool
    var citeIds: map<string, string>
    var refIds: map<string, string>

    constructor (pending: seq<Pending>)
      ensures Valid() && usedIds == map[] && this.pending == pending && !reserved && citeIds == map[] && refIds == map[]
    {
      usedIds, this.pending, reserved, citeIds, refIds := map[], pending, false, map[], map[];
    }

    ghost predicate Valid()
      reads this
    {
      && Remembers(usedIds, usedIds.Keys) && (forall id :: id in usedIds ==> usedIds[id] >= 1)
      && (!reserved ==> citeIds == map[] && refIds == map[])
    }

    method Reserve(id: string)
      requires Valid()
      modifies this`usedIds
      ensures Valid() && usedIds == if id != "" && id !in old(usedIds) then old(usedIds)[id := 1] else old(usedIds)
    {
      if id != "" && id !in usedIds { usedIds := usedIds[id := 1]; }
    }

    /** A name not used before: the name itself, or its first free suffix, as if searched for from 2. */
    method UniqueId(name: string) returns (id: string)
      requires Valid()
      modifies this`usedIds
      ensures Valid() && id !in old(usedIds) && usedIds.Keys == old(usedIds.Keys) + {id}
      ensures GivenName(name, id, old(usedIds.Keys))
    {
      if name !in usedIds {
        usedIds := usedIds[name := 1];
        return name;
      }
      var n := Search(name, usedIds.Keys, usedIds[name]);
      assert FirstFree(name, old(usedIds.Keys), n);
      id := Candidate(name, n);
      usedIds := usedIds[name := n][id := 1];
    }

    /** One use of a citation. */
    method Cite(key: string, n: nat, ghost before: set<string>)
      requires Valid() && reserved && Apart(citeIds, refIds, before, usedIds.Keys) && before <= usedIds.Keys
      modifies this`usedIds, this`citeIds
      ensures Valid() && Apart(citeIds, refIds, before, usedIds.Keys) && before <= usedIds.Keys
      ensures citeIds.Keys == old(citeIds.Keys) + {UseKey(key, n)}
    {
      var id := UniqueId("cite-" + UseKey(key, n));
      OneMoreCite(citeIds, refIds, before, old(usedIds.Keys), UseKey(key, n), id);
      citeIds := citeIds[UseKey(key, n) := id];
    }

    method CiteUses(p: Pending, ghost before: set<string>)
      requires Valid() && reserved && Apart(citeIds, refIds, before, usedIds.Keys) && before <= usedIds.Keys
      modifies this`usedIds, this`citeIds
      ensures Valid() && Apart(citeIds, refIds, before, usedIds.Keys) && before <= usedIds.Keys
      ensures old(citeIds.Keys) <= citeIds.Keys && Listed(citeIds, p, p.uses)
    {
      for n := 0 to p.uses
        invariant Valid() && Apart(citeIds, refIds, before, usedIds.Keys) && before <= usedIds.Keys
        invariant old(citeIds.Keys) <= citeIds.Keys && Listed(citeIds, p, n)
      {
        Cite(p.key, n + 1, before);
      }
    }

    method ReferTo(key: string, ghost before: set<string>)
      requires Valid() && reserved && Apart(citeIds, refIds, before, usedIds.Keys) && before <= usedIds.Keys
      modifies this`usedIds, this`refIds
      ensures Valid() && Apart(citeIds, refIds, before, usedIds.Keys) && before <= usedIds.Keys
      ensures refIds.Keys == old(refIds.Keys) + {key}
    {
      var id := UniqueId("ref-" + key);
      OneMoreRef(citeIds, refIds, before, old(usedIds.Keys), key, id);
      refIds := refIds[key := id];
    }

    method CiteAll(taken: seq<Pending>, ghost before: set<string>)
      requires Valid() && reserved && Apart(citeIds, refIds, before, usedIds.Keys) && before <= usedIds.Keys
      modifies this`usedIds, this`citeIds
      ensures Valid() && Apart(citeIds, refIds, before, usedIds.Keys) && before <= usedIds.Keys
      ensures forall i :: 0 <= i < |taken| ==> Listed(citeIds, taken[i], taken[i].uses)
    {
      for i := 0 to |taken|
        invariant Valid() && Apart(citeIds, refIds, before, usedIds.Keys) && before <= usedIds.Keys
        invariant forall j :: 0 <= j < i ==> Listed(citeIds, taken[j], taken[j].uses)
      {
        CiteUses(taken[i], before);
      }
    }

    method ReferToAll(taken: seq<Pending>, ghost before: set<string>)
      requires Valid() && reserved && Apart(citeIds, refIds, before, usedIds.Keys) && before <= usedIds.Keys
      modifies this`usedIds, this`refIds
      ensures Valid() && Apart(citeIds, refIds, before, usedIds.Keys) && before <= usedIds.Keys
      ensures forall i :: 0 <= i < |taken| ==> taken[i].key in refIds
    {
      for i := 0 to |taken|
        invariant Valid() && Apart(citeIds, refIds, before, usedIds.Keys) && before <= usedIds.Keys
        invariant forall j :: 0 <= j < i ==> taken[j].key in refIds
      {
        ReferTo(taken[i].key, before);
      }
    }

    /** Gives every use of a citation and every entry of the reference list its id, once. */
    method EnsureCitationIds()
      requires Valid()
      modifies this
      ensures Valid() && reserved && old(usedIds.Keys) <= usedIds.Keys
      ensures old(reserved) ==> usedIds == old(usedIds) && citeIds == old(citeIds) && refIds == old(refIds)
      ensures !old(reserved) ==> pending == [] && Apart(citeIds, refIds, old(usedIds.Keys), usedIds.Keys)
      ensures !old(reserved) ==>
        forall i :: 0 <= i < |old(pending)| ==>
        Listed(citeIds, old(pending)[i], old(pending)[i].uses) && old(pending)[i].key in refIds
    {
      if reserved { return; }
      reserved := true;
      var taken := pending;
      pending := [];
      NoneGiven(usedIds.Keys, usedIds.Keys);
      CiteAll(taken, old(usedIds.Keys));
      ReferToAll(taken, old(usedIds.Keys));
    }
  }

  lemma {:induction false} OneMoreCite(citeIds: map<string, string>, refIds: map<string, string>, before: set<string>,
      now: set<string>, key: string, id: string)
    requires Apart(citeIds, refIds, before, now) && before <= now && id !in now && GivenName("cite-" + key, id, now)
    ensures Apart(citeIds[key := id], refIds, before, now + {id})
  {
    assert AllNamed(citeIds[key := id], refIds, before, now + {id}) by {
      AllStillNamed(citeIds, refIds, before, now, now + {id});
      assert Named("cite-" + key, id, before, now + {id});
    }
  }

  lemma {:induction false} OneMoreRef(citeIds: map<string, string>, refIds: map<string, string>, before: set<string>,
      now: set<string>, key: string, id: string)
    requires Apart(citeIds, refIds, before, now) && before <= now && id !in now && GivenName("ref-" + key, id, now)
    ensures Apart(citeIds, refIds[key := id], before, now + {id})
  {
    assert AllNamed(citeIds, refIds[key := id], before, now + {id}) by {
      AllStillNamed(citeIds, refIds, before, now, now + {id});
      assert Named("ref-" + key, id, before, now + {id});
    }
  }

  /** The entry of one use; `CandidateTells` says that no two uses share one. */
  function UseKey(key: string, n: nat): string { Candidate(key, n) }

  ghost predicate Listed(citeIds: map<string, string>, p: Pending, uses: nat) {
    forall n {:trigger UseKey(p.key, n)} :: 1 <= n <= uses ==> UseKey(p.key, n) in citeIds
  }

  /** The id of a name, given at a moment when some names had been taken on top of those before. */
  ghost predicate Named(name: string, id: string, before: set<string>, now: set<string>) {
    exists taken: set<string> :: before <= taken <= now && id !in taken && GivenName(name, id, taken)
  }

  lemma {:induction false} StillNamed(name: string, id: string, before: set<string>, now: set<string>,
      later: set<string>)
    requires Named(name, id, before, now) && now <= later
    ensures Named(name, id, before, later)
  {
    var taken :| before <= taken <= now && id !in taken && GivenName(name, id, taken);
    assert before <= taken <= later;
  }

  /** Every use and every entry of the reference list is called after its key. */
  ghost predicate AllNamed(citeIds: map<string, string>, refIds: map<string, string>, before: set<string>,
      now: set<string>) {
    && (forall k :: k in citeIds ==> Named("cite-" + k, citeIds[k], before, now))
    && (forall k :: k in refIds ==> Named("ref-" + k, refIds[k], before, now))
  }

  lemma {:induction false} AllStillNamed(citeIds: map<string, string>, refIds: map<string, string>, before: set<string>,
      now: set<string>, later: set<string>)
    requires AllNamed(citeIds, refIds, before, now) && now <= later
    ensures AllNamed(citeIds, refIds, before, later)
  {
    forall k | k in citeIds ensures Named("cite-" + k, citeIds[k], before, later) {
      StillNamed("cite-" + k, citeIds[k], before, now, later);
    }
    forall k | k in refIds ensures Named("ref-" + k, refIds[k], before, later) {
      StillNamed("ref-" + k, refIds[k], before, now, later);
    }
  }

  /** Two uses have the same id only if they are the same use of the same key. */
  lemma {:induction false} UsesApart(citeIds: map<string, string>, refIds: map<string, string>, before: set<string>,
      now: set<string>, p: Pending, m: nat, q: Pending, n: nat)
    requires Apart(citeIds, refIds, before, now) && Listed(citeIds, p, p.uses) && Listed(citeIds, q, q.uses)
    requires 1 <= m <= p.uses && 1 <= n <= q.uses
    ensures UseKey(p.key, m) in citeIds && UseKey(q.key, n) in citeIds
    ensures citeIds[UseKey(p.key, m)] == citeIds[UseKey(q.key, n)] <==> p.key == q.key && m == n
  {
    CandidateTells(p.key, m, q.key, n);
  }

  /** All ids given out are new and used now. */
  ghost predicate AllNew(citeIds: map<string, string>, refIds: map<string, string>, before: set<string>,
      now: set<string>) {
    && (forall k :: k in citeIds ==> citeIds[k] !in before && citeIds[k] in now)
    && (forall k :: k in refIds ==> refIds[k] !in before && refIds[k] in now)
  }

  /** No two entries share an id. */
  ghost predicate AllDistinct(citeIds: map<string, string>, refIds: map<string, string>) {
    && (forall k, l :: k in citeIds && l in citeIds && k != l ==> citeIds[k] != citeIds[l])
    && (forall k, l :: k in refIds && l in refIds && k != l ==> refIds[k] != refIds[l])
    && (forall k, l :: k in citeIds && l in refIds ==> citeIds[k] != refIds[l])
  }

  /** All ids given out are new, called after their keys, and different from each other. */
  ghost predicate Apart(citeIds: map<string, string>, refIds: map<string, string>, before: set<string>,
      now: set<string>) {
    AllNew(citeIds, refIds, before, now) && AllNamed(citeIds, refIds, before, now) && AllDistinct(citeIds, refIds)
  }

  lemma {:induction false} NoneGiven(before: set<string>, now: set<string>)
    ensures Apart(map[], map[], before, now)
  {
  }
}
