/** Which members of a tree are metadata, said of its places. */
module Metadata {
  import opened AstMerge
  import opened Fingerprints
  import opened JsonTree
  import opened Places
  import opened Wrappers
  import Decimal

  /** The path passes a source position, or where it is ignored a source length, outside the key-value pairs an author
   * wrote if those are preserved. */
  ghost predicate Passes(path: seq<string>, p: Policy) {
    exists i :: 0 <= i < |path| && (path[i] == "pos" || (p.stripSourceLength && path[i] == "srcByteLength")) &&
      !(p.preserveKeyValues && "keyValues" in path[..i])
  }

  lemma {:induction false} PassesAfter(path: seq<string>, p: Policy)
    requires path != []
    ensures Passes(path, p) <==>
      || path[0] == "pos" || (p.stripSourceLength && path[0] == "srcByteLength")
      || (!(p.preserveKeyValues && path[0] == "keyValues") && Passes(path[1..], p))
  {
    var rest := path[1..];
    forall i | 0 <= i < |rest|
      ensures "keyValues" in path[..i + 1] <==> path[0] == "keyValues" || "keyValues" in rest[..i] {
      assert path[..i + 1] == [path[0]] + rest[..i];
    }
    if path[0] == "pos" || (p.stripSourceLength && path[0] == "srcByteLength") { assert path[..0] == []; }
    if Passes(path, p) {
      var i :| 0 <= i < |path| && (path[i] == "pos" || (p.stripSourceLength && path[i] == "srcByteLength")) &&
        !(p.preserveKeyValues && "keyValues" in path[..i]);
      if i > 0 { assert rest[i - 1] == path[i]; }
    }
    if !(p.preserveKeyValues && path[0] == "keyValues") && Passes(rest, p) {
      var i :| 0 <= i < |rest| && (rest[i] == "pos" || (p.stripSourceLength && rest[i] == "srcByteLength")) &&
        !(p.preserveKeyValues && "keyValues" in rest[..i]);
      assert path[i + 1] == rest[i];
    }
  }

  /** No component of a path into an array is a name. */
  lemma {:induction false} NoNumber(items: seq<Json>, key: string)
    requires key == "pos" || key == "srcByteLength" || key == "keyValues"
    ensures ChildAt(Arr(items), key).None?
  {
    forall i: nat ensures !Numbers(key, i, |items|, false) { assert Decimal.IsDigit(Decimal.Print(i)[0]); }
  }

  lemma {:induction false} ChildOfMeaning(v: Json, key: string, strip: bool, p: Policy)
    ensures ChildAt(Meaning(v, strip, p), key) ==
      if ChildAt(v, key).Some? && (v.Obj? ==> p.Keeps(key, strip))
        then Some(Meaning(ChildAt(v, key).value, if v.Obj? then p.Below(key, strip) else strip, p)) else None
  {
    if v.Arr? && exists i: nat :: Numbers(key, i, |v.items|, false) {
      var i: nat :| Numbers(key, i, |v.items|, false);
      ChildAtItem(v.items, i);
      ChildAtItem(Meaning(v, strip, p).items, i);
    }
  }

  /** What an id stands for holds, at every path that passes no metadata, what the tree holds there. */
  lemma {:induction false} MeaningHolds(v: Json, path: seq<string>, p: Policy)
    ensures Lookup(Meaning(v, true, p), path) ==
      if Lookup(v, path).Some? && !Passes(path, p)
        then Some(Meaning(Lookup(v, path).value, !(p.preserveKeyValues && "keyValues" in path), p)) else None
    decreases |path|
  {
    if path != [] {
      var key := path[0];
      assert path == [key] + path[1..];
      ChildOfMeaning(v, key, true, p);
      PassesAfter(path, p);
      if v.Arr? && (key == "pos" || key == "srcByteLength" || key == "keyValues") { NoNumber(v.items, key); }
      if ChildAt(v, key).Some? {
        if p.preserveKeyValues && key == "keyValues" {
          PreservedHolds(ChildAt(v, key).value, path[1..], p);
        } else {
          MeaningHolds(ChildAt(v, key).value, path[1..], p);
        }
      }
    }
  }

  /** Within preserved key-value pairs nothing is metadata. */
  lemma {:induction false} PreservedHolds(v: Json, path: seq<string>, p: Policy)
    ensures Lookup(Meaning(v, false, p), path) ==
      match Lookup(v, path) { case Some(w) => Some(Meaning(w, false, p)) case None => None }
    decreases |path|
  {
    if path != [] {
      ChildOfMeaning(v, path[0], false, p);
      if ChildAt(v, path[0]).Some? { PreservedHolds(ChildAt(v, path[0]).value, path[1..], p); }
    }
  }

  lemma {:induction false} ChildOfClean(v: Json, key: string, strip: bool)
    ensures ChildAt(Clean(v, strip), key) ==
      if ChildAt(v, key).Some? && (v.Obj? ==> Kept(key, strip))
        then Some(Clean(ChildAt(v, key).value, if v.Obj? then StripBelow(key, strip) else strip)) else None
  {
    if v.Arr? && exists i: nat :: Numbers(key, i, |v.items|, false) {
      var i: nat :| Numbers(key, i, |v.items|, false);
      ChildAtItem(v.items, i);
      ChildAtItem(Clean(v, strip).items, i);
    }
  }

  /** The same of the clean form. */
  lemma {:induction false} CleanHolds(v: Json, path: seq<string>)
    ensures Lookup(Clean(v, true), path) ==
      if Lookup(v, path).Some? && !Passes(path, EXCHANGE)
        then Some(Clean(Lookup(v, path).value, "keyValues" !in path)) else None
    decreases |path|
  {
    if path != [] {
      var key := path[0];
      assert path == [key] + path[1..];
      ChildOfClean(v, key, true);
      PassesAfter(path, EXCHANGE);
      if v.Arr? && (key == "pos" || key == "srcByteLength" || key == "keyValues") { NoNumber(v.items, key); }
      if ChildAt(v, key).Some? {
        if key == "keyValues" {
          UncleanedHolds(ChildAt(v, key).value, path[1..]);
        } else {
          CleanHolds(ChildAt(v, key).value, path[1..]);
        }
      }
    }
  }

  lemma {:induction false} UncleanedHolds(v: Json, path: seq<string>)
    ensures Lookup(Clean(v, false), path) ==
      match Lookup(v, path) { case Some(w) => Some(Clean(w, false)) case None => None }
    decreases |path|
  {
    if path != [] {
      ChildOfClean(v, path[0], false);
      if ChildAt(v, path[0]).Some? { UncleanedHolds(ChildAt(v, path[0]).value, path[1..]); }
    }
  }

  /** A merged document holds what the merge gave at every path that passes no metadata, and the source length 0. */
  lemma {:induction false} StampHolds(v: Json, path: seq<string>)
    requires v.Obj? && path != []
    ensures Lookup(Stamp(v), path) ==
      if path == ["srcByteLength"] then Some(Num(Int(0)))
      else if Lookup(v, path).Some? && !Passes(path, EXCHANGE)
        then Some(Clean(Lookup(v, path).value, "keyValues" !in path)) else None
  {
    var key, rest := path[0], path[1..];
    assert path == [key] + rest;
    if key == "srcByteLength" {
      assert path[..0] == [] && Passes(path, EXCHANGE);
      assert ChildAt(Stamp(v), key) == Some(Num(Int(0)));
      if rest == [] { assert Lookup(Num(Int(0)), rest) == Some(Num(Int(0))); }
    } else {
      CleanHolds(v, path);
      assert ChildAt(Stamp(v), key) == ChildAt(Clean(v, true), key);
    }
  }
}
