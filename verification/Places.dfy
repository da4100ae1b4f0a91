/** The places in a tree and the values there. */
module Places {
  import opened JsonTree
  import opened Wrappers
  import Decimal

  /** The component is the number of an item, or if `allowEnd` of the place behind the last. */
  ghost predicate Numbers(key: string, i: nat, length: nat, allowEnd: bool) {
    key == Decimal.Print(i) && i < if allowEnd then length + 1 else length
  }

  /** The value right below another: an item is named by its number in decimal, a member by its key. */
  ghost function ChildAt(v: Json, key: string): Option<Json> {
    match v
    case Arr(items) =>
      if exists i: nat :: Numbers(key, i, |items|, false) then
        var i: nat :| Numbers(key, i, |items|, false);
        Some(items[i])
      else None
    case Obj(fields) => if key in fields then Some(fields[key]) else None
    case _ => None
  }

  /** The value at the end of a path, if there is one. */
  ghost function Lookup(v: Json, path: seq<string>): Option<Json>
    decreases |path|
  {
    if path == [] then Some(v)
    else
      match ChildAt(v, path[0])
      case None => None
      case Some(w) => Lookup(w, path[1..])
  }

  lemma {:induction false} ChildAtItem(items: seq<Json>, i: nat)
    requires i < |items|
    ensures ChildAt(Arr(items), Decimal.Print(i)) == Some(items[i])
  {
    assert Numbers(Decimal.Print(i), i, |items|, false);
    forall j: nat | Numbers(Decimal.Print(i), j, |items|, false) ensures j == i { Decimal.PrintInjective(i, j); }
  }

  lemma {:induction false} LookupOneMore(v: Json, path: seq<string>, key: string)
    ensures Lookup(v, path + [key]) == match Lookup(v, path) { case Some(w) => ChildAt(w, key) case None => None }
    decreases |path|
  {
    if path == [] {
      assert path + [key] == [key] && [key][1..] == [];
      assert ChildAt(v, key).Some? ==> Lookup(ChildAt(v, key).value, []) == ChildAt(v, key);
    } else {
      assert (path + [key])[0] == path[0] && (path + [key])[1..] == path[1..] + [key];
      if ChildAt(v, path[0]).Some? { LookupOneMore(ChildAt(v, path[0]).value, path[1..], key); }
    }
  }
}
