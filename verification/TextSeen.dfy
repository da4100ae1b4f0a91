/** Paragraphs have equal joined lines exactly if a reader sees the same in them. */
module TextSeen {
  import opened JsonTree
  import opened TextRuns

  function PlainText(s: string): Json { Obj(FRESH_TEXT["value" := Str(s)]) }

  /** Text nodes hold some text and nothing else. */
  ghost predicate Plain(nodes: seq<Json>) {
    forall v :: v in nodes && IsText(v) ==> exists s :: s != "" && v == PlainText(s)
  }

  /** No break, and no text node next to another. */
  ghost predicate Joined(nodes: seq<Json>) {
    && (forall i :: 0 <= i < |nodes| ==> !IsBreak(nodes[i]))
    && forall i :: 0 <= i < |nodes| - 1 ==> !IsText(nodes[i]) || !IsText(nodes[i + 1])
  }

  ghost predicate PlainRun(run: Run) {
    run.Run? ==> run.text != "" && run.first["value" := Str("")] == FRESH_TEXT["value" := Str("")]
  }

  lemma {:induction false} FlushIsPlain(run: Run)
    requires PlainRun(run) && run.Run?
    ensures Flush(run) == [PlainText(run.text)]
  {
    var a, b := run.first["value" := Str("")], FRESH_TEXT["value" := Str("")];
    assert run.first["value" := Str(run.text)] == a["value" := Str(run.text)];
    assert FRESH_TEXT["value" := Str(run.text)] == b["value" := Str(run.text)];
  }

  lemma {:induction false} ExtendIsPlain(run: Run, node: Json)
    requires PlainRun(run) && (IsBreak(node) || IsText(node)) && Plain([node])
    ensures PlainRun(Extend(run, node)) && Extend(run, node).Run?
  {
    if IsText(node) {
      assert node in [node];
      var s :| s != "" && node == PlainText(s);
      assert node.fields["value" := Str("")] == FRESH_TEXT["value" := Str("")];
    }
  }

  lemma {:induction false} PlainParts(nodes: seq<Json>)
    requires Plain(nodes) && nodes != []
    ensures Plain([nodes[0]]) && Plain(nodes[1..])
  {
    assert forall v :: v in nodes[1..] ==> v in nodes;
    assert nodes[0] in nodes;
  }

  lemma {:induction false} JoinedAppend(run: Run, node: Json, rest: seq<Json>)
    requires PlainRun(run) && !IsBreak(node) && !IsText(node) && Joined(rest) && Plain(rest)
    ensures Joined(Flush(run) + [node] + rest) && Plain(Flush(run) + [node] + rest)
  {
    if run.Run? { FlushIsPlain(run); }
  }

  /** Joining joins all that it can. */
  lemma {:induction false} JoinIsJoined(nodes: seq<Json>, run: Run)
    requires Plain(nodes) && PlainRun(run)
    ensures Joined(Join(nodes, run)) && Plain(Join(nodes, run))
    decreases |nodes|
  {
    if nodes == [] {
      if run.Run? { FlushIsPlain(run); }
    } else {
      PlainParts(nodes);
      if IsBreak(nodes[0]) || IsText(nodes[0]) {
        ExtendIsPlain(run, nodes[0]);
        JoinIsJoined(nodes[1..], Extend(run, nodes[0]));
      } else {
        JoinIsJoined(nodes[1..], NoRun);
        JoinedAppend(run, nodes[0], Join(nodes[1..], NoRun));
      }
    }
  }

  // ----- What is seen tells the joined nodes

  ghost predicate NoChar(a: seq<Atom>) { a != [] ==> a[0].Node? }

  /** How many characters come first. */
  function Leading(a: seq<Atom>): nat { if a != [] && a[0].Char? then 1 + Leading(a[1..]) else 0 }

  lemma {:induction false} LeadingIs(s: string, a: seq<Atom>)
    requires NoChar(a)
    ensures Leading(Chars(s) + a) == |s|
  {
    if s == "" {
      assert Chars(s) + a == a;
    } else {
      assert (Chars(s) + a)[1..] == Chars(s[1..]) + a;
      LeadingIs(s[1..], a);
    }
  }

  lemma {:induction false} CharsTell(s: string, a: seq<Atom>, t: string, b: seq<Atom>)
    requires NoChar(a) && NoChar(b) && Chars(s) + a == Chars(t) + b
    ensures s == t && a == b
  {
    var whole := Chars(s) + a;
    LeadingIs(s, a);
    LeadingIs(t, b);
    assert whole[|s|..] == a && (Chars(t) + b)[|t|..] == b;
    forall i | 0 <= i < |s| ensures s[i] == t[i] { assert whole[i] == Char(s[i]) && whole[i] == Char(t[i]); }
  }

  /** Of joined nodes the text goes up to the next node that is no text. */
  lemma {:induction false} AtomsOfJoined(nodes: seq<Json>)
    requires Joined(nodes) && Plain(nodes) && nodes != []
    ensures Joined(nodes[1..]) && Plain(nodes[1..])
    ensures IsText(nodes[0]) ==>
      var s := nodes[0].fields["value"].s;
      && s != "" && nodes[0] == PlainText(s) && NoChar(Atoms(nodes[1..]))
      && Atoms(nodes) == Chars(s) + Atoms(nodes[1..])
    ensures !IsText(nodes[0]) ==> Atoms(nodes) == [Node(nodes[0])] + Atoms(nodes[1..])
  {
    PlainParts(nodes);
    forall i | 0 <= i < |nodes| - 1 ensures nodes[1..][i] == nodes[i + 1] {}
    if IsText(nodes[0]) { assert nodes[0] in nodes; }
  }

  lemma {:induction false} FirstIs(nodes: seq<Json>)
    requires Joined(nodes) && Plain(nodes) && nodes != []
    ensures Atoms(nodes) != [] && (IsText(nodes[0]) <==> Atoms(nodes)[0].Char?)
  {
    AtomsOfJoined(nodes);
    if IsText(nodes[0]) { assert Atoms(nodes)[0] == Chars(nodes[0].fields["value"].s)[0]; }
  }

  lemma {:induction false} AtomsTell(vs: seq<Json>, ws: seq<Json>)
    requires Joined(vs) && Plain(vs) && Joined(ws) && Plain(ws) && Atoms(vs) == Atoms(ws)
    ensures vs == ws
    decreases |vs|
  {
    if vs == [] || ws == [] {
      if vs != [] { AtomsOfJoined(vs); }
      if ws != [] { AtomsOfJoined(ws); }
    } else {
      AtomsOfJoined(vs);
      AtomsOfJoined(ws);
      FirstTells(vs, ws);
      AtomsTell(vs[1..], ws[1..]);
      assert vs == [vs[0]] + vs[1..] && ws == [ws[0]] + ws[1..];
    }
  }

  lemma {:induction false} FirstTells(vs: seq<Json>, ws: seq<Json>)
    requires Joined(vs) && Plain(vs) && Joined(ws) && Plain(ws) && Atoms(vs) == Atoms(ws) && vs != [] && ws != []
    ensures vs[0] == ws[0] && Atoms(vs[1..]) == Atoms(ws[1..])
  {
    AtomsOfJoined(vs);
    AtomsOfJoined(ws);
    FirstIs(vs);
    FirstIs(ws);
    var a, b := Atoms(vs[1..]), Atoms(ws[1..]);
    if IsText(vs[0]) && IsText(ws[0]) {
      CharsTell(vs[0].fields["value"].s, a, ws[0].fields["value"].s, b);
    } else {
      assert Atoms(vs)[1..] == a && Atoms(ws)[1..] == b;
    }
  }

  lemma {:induction false} SeenInJoined(nodes: seq<Json>)
    requires Plain(nodes)
    ensures var joined := Join(nodes, NoRun); Atoms(joined) == Atoms(nodes) && Joined(joined) && Plain(joined)
  {
    JoinKeepsAtoms(nodes, NoRun);
    assert Atoms(Flush(NoRun)) == [] && [] + Atoms(nodes) == Atoms(nodes);
    JoinIsJoined(nodes, NoRun);
  }

  /** Where text nodes are plain, joined forms are identical exactly if characters and other nodes are. */
  lemma {:induction false} JoinTellsSeen(vs: seq<Json>, ws: seq<Json>)
    requires Plain(vs) && Plain(ws)
    ensures Join(vs, NoRun) == Join(ws, NoRun) <==> Atoms(vs) == Atoms(ws)
    ensures Atoms(vs) == Atoms(ws) ==> SameText(vs, ws)
  {
    SeenInJoined(vs);
    SeenInJoined(ws);
    if Atoms(vs) == Atoms(ws) { AtomsTell(Join(vs, NoRun), Join(ws, NoRun)); }
  }
}
