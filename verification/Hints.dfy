/** What names a node when items are matched, told from the places of its tree. */
module Hints {
  import opened JsonTree
  import opened MatchSides
  import opened Places
  import opened Wrappers
  import Decimal

  /** The places a name is looked for, in this order. */
  const NAMES: seq<seq<string>> := [["label"], ["ref"], ["name"], ["attrs", "id"]]

  ghost function StringAt(v: Json, path: seq<string>): Option<string> {
    match Lookup(v, path)
    case Some(Str(s)) => Some(s)
    case _ => None
  }

  /** The first of these places that holds a string. */
  ghost predicate NamedAt(v: Json, n: nat, name: string) {
    n < |NAMES| && StringAt(v, NAMES[n]) == Some(name) && forall m :: 0 <= m < n ==> StringAt(v, NAMES[m]).None?
  }

  ghost predicate Named(v: Json) { exists n: nat, name: string :: NamedAt(v, n, name) }

  lemma {:induction false} MemberAt(v: Json, key: string)
    requires v.Obj?
    ensures StringAt(v, [key]) == StringField(v.fields, key)
    ensures Lookup(v, [key]) == if key in v.fields then Some(v.fields[key]) else None
  {
    assert [key][1..] == [];
    if key in v.fields { assert Lookup(v.fields[key], []) == Some(v.fields[key]); }
  }

  lemma {:induction false} IdAt(v: Json)
    requires v.Obj?
    ensures StringAt(v, ["attrs", "id"]) == if "attrs" in v.fields && v.fields["attrs"].Obj?
      then StringField(v.fields["attrs"].fields, "id") else None
  {
    assert ["attrs", "id"][1..] == ["id"];
    if "attrs" in v.fields {
      var attrs := v.fields["attrs"];
      assert Lookup(v, ["attrs", "id"]) == Lookup(attrs, ["id"]);
      match attrs
      case Obj(_) => MemberAt(attrs, "id");
      case Arr(items) =>
        forall i: nat ensures !Numbers("id", i, |items|, false) { assert Decimal.IsDigit(Decimal.Print(i)[0]); }
      case _ =>
    }
  }

  lemma {:induction false} NamesAre(v: Json)
    requires v.Obj?
    ensures StringAt(v, NAMES[0]) == StringField(v.fields, "label")
    ensures StringAt(v, NAMES[1]) == StringField(v.fields, "ref")
    ensures StringAt(v, NAMES[2]) == StringField(v.fields, "name")
    ensures StringAt(v, NAMES[3]) == if "attrs" in v.fields && v.fields["attrs"].Obj?
      then StringField(v.fields["attrs"].fields, "id") else None
  {
    MemberAt(v, "label");
    MemberAt(v, "ref");
    MemberAt(v, "name");
    IdAt(v);
  }

  /** A node has a hint exactly if one of the places holds a string. */
  lemma {:induction false} HintIff(v: Json)
    ensures IdentityHint(v).Some? <==> v.Obj? && StringAt(v, ["type"]).Some? && Named(v)
  {
    if v.Obj? {
      MemberAt(v, "type");
      NamesAre(v);
      if n: nat, name: string :| NamedAt(v, n, name) {
        assert n == 0 || n == 1 || n == 2 || n == 3;
      }
      if IdentityHint(v).Some? { var n, name := HintName(v); }
    }
  }

  /** The first place that holds a string makes the hint. */
  lemma {:induction false} HintName(v: Json) returns (n: nat, name: string)
    requires IdentityHint(v).Some?
    ensures NamedAt(v, n, name) && StringAt(v, ["type"]).Some?
    ensures IdentityHint(v).value == StringAt(v, ["type"]).value + (":" + (Label(n) + (":" + name)))
  {
    MemberAt(v, "type");
    NamesAre(v);
    if StringField(v.fields, "label").Some? {
      n, name := 0, v.fields["label"].s;
    } else if StringField(v.fields, "ref").Some? {
      n, name := 1, v.fields["ref"].s;
    } else if StringField(v.fields, "name").Some? {
      n, name := 2, v.fields["name"].s;
    } else {
      n, name := 3, v.fields["attrs"].fields["id"].s;
    }
    Regroup(v.fields["type"].s, Label(n), name);
  }

  /** What is written for each place. */
  function Label(n: nat): string { ["label", "ref", "name", "attrs.id"][if n < 4 then n else 0] }

  lemma {:induction false} Regroup(kind: string, place: string, name: string)
    ensures kind + (":" + (place + (":" + name))) == kind + (":" + place + ":") + name
  {
  }

  // ----- What equal hints mean

  predicate HasColon(s: string) { ':' in s }

  lemma {:induction false} SplitAtColon(a: string, x: string, b: string, y: string)
    requires !HasColon(a) && !HasColon(b)
    ensures a + (":" + x) == b + (":" + y) <==> a == b && x == y
  {
    var s := a + (":" + x);
    FirstColon(a, x);
    FirstColon(b, y);
    if s == b + (":" + y) {
      assert |a| == |b|;
      assert a == s[..|a|] && b == s[..|a|] && x == s[|a| + 1..] && y == s[|a| + 1..];
    }
  }

  lemma {:induction false} FirstColon(a: string, x: string)
    requires !HasColon(a)
    ensures var s := a + (":" + x); s[|a|] == ':' && forall k :: 0 <= k < |a| ==> s[k] != ':'
  {
    forall k | 0 <= k < |a| ensures a[k] != ':' { assert a[k] in a; }
  }

  /** Of nodes whose types have no colon in them, hints are equal exactly if the types are and the first places that
   * hold a string are the same and hold the same. */
  lemma {:induction false} HintsTell(v: Json, w: Json)
    requires IdentityHint(v).Some? && IdentityHint(w).Some?
    requires StringAt(v, ["type"]).Some? ==> !HasColon(StringAt(v, ["type"]).value)
    requires StringAt(w, ["type"]).Some? ==> !HasColon(StringAt(w, ["type"]).value)
    ensures IdentityHint(v) == IdentityHint(w) <==>
      StringAt(v, ["type"]) == StringAt(w, ["type"]) &&
      exists n: nat, name: string :: NamedAt(v, n, name) && NamedAt(w, n, name)
  {
    var m, x := HintName(v);
    var n, y := HintName(w);
    SplitAtColon(StringAt(v, ["type"]).value, Label(m) + (":" + x), StringAt(w, ["type"]).value, Label(n) + (":" + y));
    SplitAtColon(Label(m), x, Label(n), y);
    LabelsDiffer(m, n);
    forall k: nat, name: string | NamedAt(v, k, name) && NamedAt(w, k, name) ensures m == n && x == y {
      OneName(v, m, x, k, name);
      OneName(w, n, y, k, name);
    }
  }

  lemma {:induction false} LabelsDiffer(m: nat, n: nat)
    requires m < 4 && n < 4
    ensures !HasColon(Label(m)) && (Label(m) == Label(n) <==> m == n)
  {
    assert Label(0)[0] == 'l' && Label(1)[0] == 'r' && Label(2)[0] == 'n' && Label(3)[0] == 'a';
  }

  lemma {:induction false} OneName(v: Json, m: nat, x: string, n: nat, y: string)
    requires NamedAt(v, m, x) && NamedAt(v, n, y)
    ensures m == n && x == y
  {
  }

  /** With a colon in a type two different nodes can have one hint. */
  lemma {:induction false} HintsCollide()
    ensures var v := Obj(map["type" := Str("a:label"), "label" := Str("x")]);
      var w := Obj(map["type" := Str("a"), "label" := Str("label:x")]);
      IdentityHint(v) == IdentityHint(w) == Some("a:label:label:x") && v != w
  {
    var v, w := Obj(map["type" := Str("a:label"), "label" := Str("x")]),
      Obj(map["type" := Str("a"), "label" := Str("label:x")]);
    assert v.fields["label"] != w.fields["label"];
    assert "a:label" + ":label:" + "x" == "a:label:label:x" == "a" + ":label:" + "label:x";
  }

  // ----- Kinds

  /** Kinds are equal exactly if both are nodes of one type, or neither is a node and both are JSON values of one
   * sort. */
  lemma {:induction false} KindsTell(v: Json, w: Json)
    ensures Kind(v) == Kind(w) <==>
      if v.Obj? && StringAt(v, ["type"]).Some? then w.Obj? && StringAt(w, ["type"]) == StringAt(v, ["type"])
      else !(w.Obj? && StringAt(w, ["type"]).Some?) && SameSort(v, w)
  {
    if v.Obj? { MemberAt(v, "type"); }
    if w.Obj? { MemberAt(w, "type"); }
    KindOf(v);
    KindOf(w);
    if v.Obj? && StringAt(v, ["type"]).Some? { assert Kind(v)[5..] == StringAt(v, ["type"]).value; }
    if w.Obj? && StringAt(w, ["type"]).Some? { assert Kind(w)[5..] == StringAt(w, ["type"]).value; }
  }

  predicate SameSort(v: Json, w: Json) {
    || (v.Obj? && w.Obj?) || (v.Arr? && w.Arr?) || (v.Null? && w.Null?) || (v.Bool? && w.Bool?)
    || (v.Num? && w.Num?) || (v.Str? && w.Str?)
  }

  /** How kinds begin. */
  lemma {:induction false} KindOf(v: Json)
    ensures |Kind(v)| >= 4
    ensures v.Obj? && StringAt(v, ["type"]).Some? ==> Kind(v)[0] == 'n' && Kind(v)[1] == 'o'
    ensures v.Obj? && StringAt(v, ["type"]).None? ==> Kind(v)[0] == 'o'
    ensures v.Arr? ==> Kind(v)[0] == 'a'
    ensures v.Null? ==> Kind(v)[0] == 'n' && Kind(v)[1] == 'u' && Kind(v)[2] == 'l'
    ensures v.Bool? ==> Kind(v)[0] == 'b'
    ensures v.Num? ==> Kind(v)[0] == 'n' && Kind(v)[1] == 'u' && Kind(v)[2] == 'm'
    ensures v.Str? ==> Kind(v)[0] == 's'
  {
    if v.Obj? { MemberAt(v, "type"); }
  }
}
