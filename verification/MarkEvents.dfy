/** Flattened tags, told from where tags begin and end. */
module MarkEvents {
  import opened Marks

  /** A tag begins or ends, or text stands there. */
  datatype Event = Begin(kind: Kind) | End(kind: Kind) | Piece(text: string)

  /** The tree from its start to its end; an unclosed tag is text before its content. */
  ghost function Events(trees: seq<Tree>): seq<Event>
    decreases trees
  {
    if trees == [] then [] else EventsOfOne(trees[0]) + Events(trees[1..])
  }

  ghost function EventsOfOne(tree: Tree): seq<Event>
    decreases tree
  {
    match tree
    case Leaf(text) => [Piece(text)]
    case Tag(kind, written, unclosed, children) =>
      if unclosed then [Piece(written)] + Events(children) else [Begin(kind)] + Events(children) + [End(kind)]
  }

  ghost function FlatEvents(flats: seq<Flat>): seq<Event>
    decreases flats
  {
    if flats == [] then [] else FlatEventsOfOne(flats[0]) + FlatEvents(flats[1..])
  }

  ghost function FlatEventsOfOne(flat: Flat): seq<Event>
    decreases flat
  {
    match flat
    case Plain(text) => [Piece(text)]
    case Node(kind, children) => [Begin(kind)] + FlatEvents(children) + [End(kind)]
  }

  /** Leaves out each begin and end that stands inside a tag of its kind; `open` holds the tags around, as often as they
   * are open. */
  function Thinned(events: seq<Event>, open: multiset<Kind>): seq<Event> {
    if events == [] then []
    else
      match events[0]
      case Piece(_) => [events[0]] + Thinned(events[1..], open)
      case Begin(kind) => (if kind in open then [] else [events[0]]) + Thinned(events[1..], open + multiset{kind})
      case End(kind) =>
        var outer := open - multiset{kind};
        (if kind in outer then [] else [events[0]]) + Thinned(events[1..], outer)
  }

  function Kinds(open: multiset<Kind>): set<Kind> { set kind | kind in open }

  lemma {:induction false} FlatAppends(a: seq<Flat>, b: seq<Flat>)
    ensures FlatEvents(a + b) == FlatEvents(a) + FlatEvents(b)
  {
    if a == [] {
      assert a + b == b;
    } else {
      assert (a + b)[1..] == a[1..] + b;
      FlatAppends(a[1..], b);
    }
  }

  lemma {:induction false} FlatSingle(flat: Flat)
    ensures FlatEvents([flat]) == FlatEventsOfOne(flat)
  {
    assert [flat][1..] == [];
  }

  lemma {:induction false} ThinnedFirst(event: Event, rest: seq<Event>, open: multiset<Kind>)
    ensures Thinned([event] + rest, open) ==
      match event
      case Piece(_) => [event] + Thinned(rest, open)
      case Begin(kind) => (if kind in open then [] else [event]) + Thinned(rest, open + multiset{kind})
      case End(kind) =>
        (if kind in open - multiset{kind} then [] else [event]) + Thinned(rest, open - multiset{kind})
  {
    assert ([event] + rest)[1..] == rest;
  }

  lemma {:induction false} TreesThinned(trees: seq<Tree>, rest: seq<Event>, open: multiset<Kind>)
    ensures Thinned(Events(trees) + rest, open) == FlatEvents(Flatten(trees, Kinds(open))) + Thinned(rest, open)
    decreases trees
  {
    if trees == [] {
      assert [] + rest == rest;
    } else {
      var first, more, kinds := EventsOfOne(trees[0]), Events(trees[1..]), Kinds(open);
      OneThinned(trees[0], more + rest, open);
      TreesThinned(trees[1..], rest, open);
      ThinnedBoth(first, FlatEvents(FlattenOne(trees[0], kinds)), more, FlatEvents(Flatten(trees[1..], kinds)), rest,
        open);
      FlatAppends(FlattenOne(trees[0], kinds), Flatten(trees[1..], kinds));
    }
  }

  lemma {:induction false} ThinnedBoth(a: seq<Event>, thinA: seq<Event>, b: seq<Event>, thinB: seq<Event>,
      rest: seq<Event>, open: multiset<Kind>)
    requires Thinned(a + (b + rest), open) == thinA + Thinned(b + rest, open)
    requires Thinned(b + rest, open) == thinB + Thinned(rest, open)
    ensures Thinned((a + b) + rest, open) == (thinA + thinB) + Thinned(rest, open)
  {
    assert (a + b) + rest == a + (b + rest);
  }

  lemma {:induction false} ThinnedPiece(text: string, body: seq<Event>, thin: seq<Event>, rest: seq<Event>,
      open: multiset<Kind>)
    requires Thinned(body + rest, open) == thin + Thinned(rest, open)
    ensures Thinned([Piece(text)] + body + rest, open) == [Piece(text)] + thin + Thinned(rest, open)
  {
    assert [Piece(text)] + body + rest == [Piece(text)] + (body + rest);
    ThinnedFirst(Piece(text), body + rest, open);
  }

  lemma {:induction false} ThinnedPair(kind: Kind, body: seq<Event>, thin: seq<Event>, rest: seq<Event>,
      open: multiset<Kind>)
    requires var end, within := [End(kind)] + rest, open + multiset{kind};
      Thinned(body + end, within) == thin + Thinned(end, within)
    ensures Thinned([Begin(kind)] + body + [End(kind)] + rest, open) ==
      (if kind in open then thin else [Begin(kind)] + thin + [End(kind)]) + Thinned(rest, open)
  {
    var end, within := [End(kind)] + rest, open + multiset{kind};
    assert [Begin(kind)] + body + [End(kind)] + rest == [Begin(kind)] + (body + end);
    ThinnedFirst(Begin(kind), body + end, open);
    assert within - multiset{kind} == open;
    ThinnedFirst(End(kind), rest, within);
  }

  lemma {:induction false} OneThinned(tree: Tree, rest: seq<Event>, open: multiset<Kind>)
    ensures Thinned(EventsOfOne(tree) + rest, open) == FlatEvents(FlattenOne(tree, Kinds(open))) + Thinned(rest, open)
    decreases tree
  {
    match tree
    case Leaf(text) =>
      FlatSingle(Plain(text));
      ThinnedFirst(Piece(text), rest, open);
    case Tag(kind, written, unclosed, children) =>
      if unclosed {
        var inner := Flatten(children, Kinds(open));
        TreesThinned(children, rest, open);
        ThinnedPiece(written, Events(children), FlatEvents(inner), rest, open);
        FlatSingle(Plain(written));
        FlatAppends([Plain(written)], inner);
      } else {
        var within := open + multiset{kind};
        var inner := Flatten(children, Kinds(within));
        TreesThinned(children, [End(kind)] + rest, within);
        ThinnedPair(kind, Events(children), FlatEvents(inner), rest, open);
        FlatSingle(Node(kind, inner));
        KindsWithin(open, kind);
      }
  }

  lemma {:induction false} KindsWithin(open: multiset<Kind>, kind: Kind)
    ensures Kinds(open + multiset{kind}) == Kinds(open) + {kind}
    ensures kind in open ==> Kinds(open + multiset{kind}) == Kinds(open)
  {
  }

  /** Flattening leaves out where tags inside their own kind begin and end, and nothing else. */
  lemma {:induction false} FlattenThins(trees: seq<Tree>)
    ensures FlatEvents(Flatten(trees, {})) == Thinned(Events(trees), multiset{})
  {
    assert Events(trees) + [] == Events(trees);
    assert Kinds(multiset{}) == {};
    TreesThinned(trees, [], multiset{});
  }
}
