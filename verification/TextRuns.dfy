/** Joining the text of a paragraph, so that a rewrap is no edit. */
module TextRuns {
  import opened JsonTree
  import opened Wrappers

  function NodeType(v: Json): Option<string> {
    if v.Obj? && "type" in v.fields && v.fields["type"].Str? then Some(v.fields["type"].s) else None
  }

  predicate IsBreak(v: Json) { NodeType(v) == Some("soft_break") }

  predicate IsText(v: Json) { NodeType(v) == Some("text") && "value" in v.fields && v.fields["value"].Str? }

  /** The run being collected: the node it started with and its text. */
  datatype Run = NoRun | Run(first: map<string, Json>, text: string)

  const FRESH_TEXT: map<string, Json> := map["type" := Str("text")]

  function Flush(run: Run): seq<Json> {
    match run
    case NoRun => []
    case Run(first, text) => [Obj(first["value" := Str(text)])]
  }

  /** Adds one text or break node to a run, which it starts if there is none. */
  function Extend(run: Run, node: Json): Run
    requires IsBreak(node) || IsText(node)
  {
    var first := if run.Run? then run.first else if IsBreak(node) then FRESH_TEXT else node.fields;
    var text := if run.Run? then run.text else "";
    Run(first, text + if IsBreak(node) then " " else node.fields["value"].s)
  }

  /** The nodes with their text runs joined, continuing `run`. */
  function Join(nodes: seq<Json>, run: Run): seq<Json> {
    if nodes == [] then Flush(run)
    else if IsBreak(nodes[0]) || IsText(nodes[0]) then Join(nodes[1..], Extend(run, nodes[0]))
    else Flush(run) + [nodes[0]] + Join(nodes[1..], NoRun)
  }

  /** Only arrays of nodes that hold text or breaks are joined. */
  predicate Joins(nodes: seq<Json>) {
    && (forall i :: 0 <= i < |nodes| ==> NodeType(nodes[i]).Some?)
    && (exists i :: 0 <= i < |nodes| && (NodeType(nodes[i]) == Some("text") || IsBreak(nodes[i])))
  }

  method MergedTextRun(nodes: seq<Json>) returns (r: Option<Json>)
    ensures r == if Joins(nodes) then Some(Arr(Join(nodes, NoRun))) else None
  {
    if !Joins(nodes) { return None; }
    var out: seq<Json> := [];
    var run := NoRun;
    for i := 0 to |nodes|
      invariant out + Join(nodes[i..], run) == Join(nodes, NoRun)
    {
      assert nodes[i..][0] == nodes[i] && nodes[i..][1..] == nodes[i + 1..];
      if IsBreak(nodes[i]) || IsText(nodes[i]) {
        run := Extend(run, nodes[i]);
      } else {
        assert out + (Flush(run) + [nodes[i]] + Join(nodes[i + 1..], NoRun)) == out + Flush(run) + [nodes[i]] +
          Join(nodes[i + 1..], NoRun);
        out := out + Flush(run) + [nodes[i]];
        run := NoRun;
      }
    }
    assert nodes[|nodes|..] == [];
    return Some(Arr(out + Flush(run)));
  }

  // ----- What joining keeps

  /** What a reader sees: characters, and nodes that are not text. */
  datatype Atom = Char(c: char) | Node(v: Json)

  function Chars(s: string): seq<Atom> { seq(|s|, i requires 0 <= i < |s| => Char(s[i])) }

  function Atoms(nodes: seq<Json>): seq<Atom> {
    if nodes == [] then []
    else
      (if IsBreak(nodes[0])
        then [Char(' ')] else if IsText(nodes[0]) then Chars(nodes[0].fields["value"].s) else [Node(nodes[0])])
      + Atoms(nodes[1..])
  }

  ghost predicate TextFirst(run: Run) { run.Run? ==> "type" in run.first && run.first["type"] == Str("text") }

  lemma {:induction false} AtomsAppend(xs: seq<Json>, ys: seq<Json>)
    ensures Atoms(xs + ys) == Atoms(xs) + Atoms(ys)
  {
    if xs == [] {
      assert xs + ys == ys;
    } else {
      assert (xs + ys)[1..] == xs[1..] + ys;
      AtomsAppend(xs[1..], ys);
    }
  }

  lemma {:induction false} AtomsOfFlush(run: Run)
    requires TextFirst(run)
    ensures Atoms(Flush(run)) == if run.Run? then Chars(run.text) else []
  {
    if run.Run? {
      assert Flush(run)[1..] == [];
      assert IsText(Flush(run)[0]);
    }
  }

  lemma {:induction false} AtomsOfExtend(run: Run, node: Json, rest: seq<Json>)
    requires TextFirst(run) && (IsBreak(node) || IsText(node))
    ensures TextFirst(Extend(run, node))
    ensures Atoms(Flush(Extend(run, node))) + Atoms(rest) == Atoms(Flush(run)) + Atoms([node] + rest)
  {
    var before := if run.Run? then run.text else "";
    var added := if IsBreak(node) then " " else node.fields["value"].s;
    AtomsOfFlush(run);
    AtomsOfFlush(Extend(run, node));
    assert Chars(before + added) == Chars(before) + Chars(added);
    AtomsOfFirst(node, rest);
    assert Chars("") == [];
    Associate(Chars(before), Chars(added), Atoms(rest));
  }

  lemma {:induction false} Associate(a: seq<Atom>, b: seq<Atom>, c: seq<Atom>)
    ensures (a + b) + c == a + (b + c)
  {
  }

  lemma {:induction false} AtomsOfFirst(node: Json, rest: seq<Json>)
    requires IsBreak(node) || IsText(node)
    ensures Atoms([node] + rest) == Chars(if IsBreak(node) then " " else node.fields["value"].s) + Atoms(rest)
  {
    assert Chars(" ") == [Char(' ')];
    assert ([node] + rest)[1..] == rest;
  }

  lemma {:induction false} AtomsOfNode(run: Run, node: Json, joined: seq<Json>, rest: seq<Json>)
    requires TextFirst(run) && !IsBreak(node) && !IsText(node) && Atoms(joined) == Atoms(rest)
    ensures Atoms(Flush(run) + [node] + joined) == Atoms(Flush(run)) + Atoms([node] + rest)
  {
    assert ([node] + joined)[1..] == joined && ([node] + rest)[1..] == rest;
    assert Flush(run) + [node] + joined == Flush(run) + ([node] + joined);
    AtomsAppend(Flush(run), [node] + joined);
  }

  /** Joining changes no character and no other node, and leaves no break. */
  lemma {:induction false} JoinKeepsAtoms(nodes: seq<Json>, run: Run)
    requires TextFirst(run)
    ensures Atoms(Join(nodes, run)) == Atoms(Flush(run)) + Atoms(nodes)
    decreases |nodes|
  {
    if nodes == [] {
      assert Atoms(Flush(run)) + [] == Atoms(Flush(run));
    } else {
      assert nodes == [nodes[0]] + nodes[1..];
      if IsBreak(nodes[0]) || IsText(nodes[0]) {
        AtomsOfExtend(run, nodes[0], nodes[1..]);
        JoinKeepsAtoms(nodes[1..], Extend(run, nodes[0]));
      } else {
        JoinKeepsAtoms(nodes[1..], NoRun);
        AtomsOfNode(run, nodes[0], Join(nodes[1..], NoRun), nodes[1..]);
      }
    }
  }

  lemma {:induction false} JoinLeavesNoBreak(nodes: seq<Json>, run: Run)
    requires TextFirst(run)
    ensures forall i :: 0 <= i < |Join(nodes, run)| ==> !IsBreak(Join(nodes, run)[i])
    decreases |nodes|
  {
    if nodes != [] {
      JoinLeavesNoBreak(nodes[1..], if IsBreak(nodes[0]) || IsText(nodes[0]) then Extend(run, nodes[0]) else NoRun);
    }
  }

  // ----- Joining respects equality of clean forms

  ghost predicate Alike(v: Json, w: Json) { JsonEqual(Clean(v, true), Clean(w, true)) }

  ghost predicate AllAlike(vs: seq<Json>, ws: seq<Json>) {
    |vs| == |ws| && forall i :: 0 <= i < |vs| ==> Alike(vs[i], ws[i])
  }

  ghost predicate RunsAlike(r: Run, s: Run) {
    match (r, s)
    case (NoRun, NoRun) => true
    case (Run(f, t), Run(g, u)) => Alike(Obj(f), Obj(g)) && t == u
    case _ => false
  }

  lemma {:induction false} ArraysAlike(vs: seq<Json>, ws: seq<Json>)
    ensures Alike(Arr(vs), Arr(ws)) <==> AllAlike(vs, ws)
  {
    var a, b := Canon(Clean(Arr(vs), true)), Canon(Clean(Arr(ws), true));
    assert forall i :: 0 <= i < |vs| ==> a.items[i] == Canon(Clean(vs[i], true));
    assert forall i :: 0 <= i < |ws| ==> b.items[i] == Canon(Clean(ws[i], true));
    if AllAlike(vs, ws) { assert a.items == b.items; }
  }

  lemma {:induction false} FieldAlike(f: map<string, Json>, g: map<string, Json>, key: string)
    requires Alike(Obj(f), Obj(g)) && Kept(key, true) && key != "keyValues"
    ensures key in f <==> key in g
    ensures key in f ==> Alike(f[key], g[key])
  {
    var a, b := Clean(Obj(f), true), Clean(Obj(g), true);
    assert Canon(a).fields.Keys == a.fields.Keys && Canon(b).fields.Keys == b.fields.Keys;
    assert key in a.fields <==> key in f;
    assert key in b.fields <==> key in g;
    if key in f { assert Canon(a).fields[key] == Canon(b).fields[key]; }
  }

  lemma {:induction false} PutAlike(f: map<string, Json>, g: map<string, Json>, s: string)
    requires Alike(Obj(f), Obj(g))
    ensures Alike(Obj(f["value" := Str(s)]), Obj(g["value" := Str(s)]))
  {
    CleanPut(f, s);
    CleanPut(g, s);
  }

  lemma {:induction false} CleanPut(f: map<string, Json>, s: string)
    ensures Canon(Clean(Obj(f["value" := Str(s)]), true)) == Obj(Canon(Clean(Obj(f), true)).fields["value" := Str(s)])
  {
    var a, b := Clean(Obj(f), true), Clean(Obj(f["value" := Str(s)]), true);
    var f' := f["value" := Str(s)];
    forall k | k in f' && Kept(k, true)
      ensures Clean(f'[k], StripBelow(k, true)) == if k == "value" then Str(s) else Clean(f[k], StripBelow(k, true)) {}
    assert b.fields.Keys == a.fields.Keys + {"value"};
    assert b.fields == a.fields["value" := Str(s)];
    assert Canon(b).fields == Canon(a).fields["value" := Str(s)];
  }

  lemma {:induction false} NodesAlike(v: Json, w: Json)
    requires Alike(v, w)
    ensures NodeType(v) == NodeType(w) && (IsBreak(v) <==> IsBreak(w)) && (IsText(v) <==> IsText(w))
    ensures IsText(v) ==> v.fields["value"] == w.fields["value"]
  {
    if v.Obj? && w.Obj? {
      FieldAlike(v.fields, w.fields, "type");
      FieldAlike(v.fields, w.fields, "value");
    }
  }

  lemma {:induction false} JoinAlike(vs: seq<Json>, ws: seq<Json>, r: Run, s: Run)
    requires AllAlike(vs, ws) && RunsAlike(r, s)
    ensures AllAlike(Join(vs, r), Join(ws, s))
    decreases |vs|
  {
    if r.Run? { PutAlike(r.first, s.first, r.text); }
    assert AllAlike(Flush(r), Flush(s));
    if vs != [] {
      NodesAlike(vs[0], ws[0]);
      if IsBreak(vs[0]) || IsText(vs[0]) {
        JoinAlike(vs[1..], ws[1..], Extend(r, vs[0]), Extend(s, ws[0]));
      } else {
        JoinAlike(vs[1..], ws[1..], NoRun, NoRun);
        AlikeAppend(Flush(r), Flush(s), [vs[0]], [ws[0]]);
        AlikeAppend(Flush(r) + [vs[0]], Flush(s) + [ws[0]], Join(vs[1..], NoRun), Join(ws[1..], NoRun));
      }
    }
  }

  lemma {:induction false} AlikeAppend(a: seq<Json>, b: seq<Json>, c: seq<Json>, d: seq<Json>)
    requires AllAlike(a, b) && AllAlike(c, d)
    ensures AllAlike(a + c, b + d)
  {
  }

  /** The joined form both sides are compared by. */
  ghost predicate SameText(vs: seq<Json>, ws: seq<Json>) {
    Alike(Arr(Join(vs, NoRun)), Arr(Join(ws, NoRun)))
  }

  /** Equal arrays have equal joined forms. */
  lemma {:induction false} AlikeMeansSameText(vs: seq<Json>, ws: seq<Json>)
    requires Alike(Arr(vs), Arr(ws))
    ensures SameText(vs, ws) && (Joins(vs) <==> Joins(ws))
  {
    ArraysAlike(vs, ws);
    JoinAlike(vs, ws, NoRun, NoRun);
    ArraysAlike(Join(vs, NoRun), Join(ws, NoRun));
    forall i | 0 <= i < |vs| ensures NodeType(vs[i]) == NodeType(ws[i]) { NodesAlike(vs[i], ws[i]); }
    assert forall i :: 0 <= i < |vs| ==> (IsBreak(vs[i]) <==> IsBreak(ws[i]));
  }
}
