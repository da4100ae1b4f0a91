/** Formatting tags: parsed into an arena, then flattened so that no kind is nested in itself. */
module Marks {

  datatype Kind = Bold | Italic | Underline | Strike

  /** A piece of a tag's content: text, or a tag by its place in the arena. */
  datatype Item = Text(text: string) | Mark(id: nat)

  datatype ParsedMark = ParsedMark(kind: Kind, open: string, children: seq<Item>, unclosed: bool)

  type Arena = seq<ParsedMark>

  // ----- The tree an arena stands for

  datatype Tree = Leaf(text: string) | Tag(kind: Kind, open: string, unclosed: bool, children: seq<Tree>)

  /** Tags lead only to tags that were opened later. */
  ghost predicate Below(arena: Arena, items: seq<Item>, id: int) {
    forall i :: 0 <= i < |items| && items[i].Mark? ==> id < items[i].id < |arena|
  }

  ghost predicate WellFormed(arena: Arena) {
    forall id {:trigger arena[id]} :: 0 <= id < |arena| ==> Below(arena, arena[id].children, id)
  }

  ghost function TreeOf(arena: Arena, id: nat): Tree
    requires WellFormed(arena) && id < |arena|
    decreases |arena| - id, 0
  {
    var mark := arena[id];
    Tag(mark.kind, mark.open, mark.unclosed,
      seq(|mark.children|, i requires 0 <= i < |mark.children| => ItemTree(arena, mark.children[i], id)))
  }

  ghost function ItemTree(arena: Arena, item: Item, id: int): Tree
    requires WellFormed(arena) && id >= -1 && (item.Mark? ==> id < item.id < |arena|)
    decreases |arena| - id, if id >= 0 then -1 else 1
  {
    match item
    case Text(text) => Leaf(text)
    case Mark(child) => TreeOf(arena, child)
  }

  ghost function Trees(arena: Arena, items: seq<Item>): (r: seq<Tree>)
    requires WellFormed(arena) && Below(arena, items, -1)
    ensures |r| == |items|
  {
    seq(|items|, i requires 0 <= i < |items| => ItemTree(arena, items[i], -1))
  }

  // ----- Flattening, on trees

  datatype Flat = Plain(text: string) | Node(kind: Kind, children: seq<Flat>)

  /** An unclosed tag is its text and its content; a tag inside its own kind is its content. */
  ghost function Flatten(trees: seq<Tree>, open: set<Kind>): seq<Flat>
    decreases trees
  {
    if trees == [] then []
    else FlattenOne(trees[0], open) + Flatten(trees[1..], open)
  }

  ghost function FlattenOne(tree: Tree, open: set<Kind>): seq<Flat>
    decreases tree
  {
    match tree
    case Leaf(text) => [Plain(text)]
    case Tag(kind, written, unclosed, children) =>
      if unclosed then [Plain(written)] + Flatten(children, open)
      else if kind in open then Flatten(children, open)
      else [Node(kind, Flatten(children, open + {kind}))]
  }

  // ----- What flattening keeps and what it rules out

  /** A character, and the kinds of the tags it stands in. */
  datatype Glyph = Glyph(c: char, kinds: set<Kind>)

  function Style(text: string, kinds: set<Kind>): seq<Glyph>
  {
    seq(|text|, i requires 0 <= i < |text| => Glyph(text[i], kinds))
  }

  /** The characters of a tree and the kinds around each; an unclosed tag is text and has no kind. */
  ghost function StyleOf(trees: seq<Tree>, open: set<Kind>): seq<Glyph>
    decreases trees
  {
    if trees == [] then [] else StyleOfOne(trees[0], open) + StyleOf(trees[1..], open)
  }

  ghost function StyleOfOne(tree: Tree, open: set<Kind>): seq<Glyph>
    decreases tree
  {
    match tree
    case Leaf(text) => Style(text, open)
    case Tag(kind, written, unclosed, children) =>
      if unclosed then Style(written, open) + StyleOf(children, open) else StyleOf(children, open + {kind})
  }

  ghost function FlatStyle(flats: seq<Flat>, open: set<Kind>): seq<Glyph>
    decreases flats
  {
    if flats == [] then [] else FlatStyleOfOne(flats[0], open) + FlatStyle(flats[1..], open)
  }

  ghost function FlatStyleOfOne(flat: Flat, open: set<Kind>): seq<Glyph>
    decreases flat
  {
    match flat
    case Plain(text) => Style(text, open)
    case Node(kind, children) => FlatStyle(children, open + {kind})
  }

  lemma {:induction false} FlatStyleAppends(a: seq<Flat>, b: seq<Flat>, open: set<Kind>)
    ensures FlatStyle(a + b, open) == FlatStyle(a, open) + FlatStyle(b, open)
  {
    if a == [] {
      assert a + b == b;
    } else {
      assert (a + b)[1..] == a[1..] + b;
      FlatStyleAppends(a[1..], b, open);
    }
  }

  lemma {:induction false} StyleOfSingle(flat: Flat, open: set<Kind>)
    ensures FlatStyle([flat], open) == FlatStyleOfOne(flat, open)
  {
    assert [flat][1..] == [];
  }

  /** Flattening changes no character, and not the kinds around any. */
  lemma {:induction false} FlattenKeepsStyle(trees: seq<Tree>, open: set<Kind>)
    ensures FlatStyle(Flatten(trees, open), open) == StyleOf(trees, open)
    decreases trees
  {
    if trees != [] {
      FlattenOneKeepsStyle(trees[0], open);
      FlattenKeepsStyle(trees[1..], open);
      FlatStyleAppends(FlattenOne(trees[0], open), Flatten(trees[1..], open), open);
    }
  }

  lemma {:induction false} FlattenOneKeepsStyle(tree: Tree, open: set<Kind>)
    ensures FlatStyle(FlattenOne(tree, open), open) == StyleOfOne(tree, open)
    decreases tree
  {
    match tree
    case Leaf(text) => StyleOfSingle(Plain(text), open);
    case Tag(kind, written, unclosed, children) =>
      if unclosed {
        FlattenKeepsStyle(children, open);
        FlatStyleAppends([Plain(written)], Flatten(children, open), open);
        StyleOfSingle(Plain(written), open);
      } else {
        FlattenKeepsStyle(children, open + {kind});
        if kind in open {
          assert open + {kind} == open;
        } else {
          StyleOfSingle(Node(kind, Flatten(children, open + {kind})), open);
        }
      }
  }

  /** No tag lies in one of its own kind, nor in one of the kinds in `open`. */
  ghost predicate NoneRepeats(flats: seq<Flat>, open: set<Kind>)
    decreases flats
  {
    forall i :: 0 <= i < |flats| ==> OneRepeatsNot(flats[i], open)
  }

  ghost predicate OneRepeatsNot(flat: Flat, open: set<Kind>)
    decreases flat
  {
    flat.Node? ==> flat.kind !in open && NoneRepeats(flat.children, open + {flat.kind})
  }

  lemma {:induction false} FlattenRepeatsNone(trees: seq<Tree>, open: set<Kind>)
    ensures NoneRepeats(Flatten(trees, open), open)
    decreases trees
  {
    if trees != [] {
      FlattenOneRepeatsNone(trees[0], open);
      FlattenRepeatsNone(trees[1..], open);
    }
  }

  lemma {:induction false} FlattenOneRepeatsNone(tree: Tree, open: set<Kind>)
    ensures NoneRepeats(FlattenOne(tree, open), open)
    decreases tree
  {
    if tree.Tag? {
      FlattenRepeatsNone(tree.children, open);
      FlattenRepeatsNone(tree.children, open + {tree.kind});
    }
  }

  ghost predicate DepthAtMost(flats: seq<Flat>, n: nat)
    decreases flats
  {
    forall i :: 0 <= i < |flats| ==> (flats[i].Node? ==> n > 0 && DepthAtMost(flats[i].children, n - 1))
  }

  lemma {:induction false} KindsAreFour(kinds: set<Kind>)
    ensures |kinds| <= 4
  {
    forall kind | kind in kinds ensures kind in {Bold, Italic, Underline, Strike} {
      match kind
      case Bold => case Italic => case Underline => case Strike =>
    }
    SubsetIsSmaller(kinds, {Bold, Italic, Underline, Strike});
  }

  lemma {:induction false} SubsetIsSmaller<T>(a: set<T>, b: set<T>)
    requires a <= b
    ensures |a| <= |b|
  {
    assert b == a + (b - a);
  }

  /** With four kinds, at most four tags lie in each other. */
  lemma {:induction false} NoneRepeatsIsShallow(flats: seq<Flat>, open: set<Kind>)
    requires NoneRepeats(flats, open)
    ensures |open| <= 4 && DepthAtMost(flats, 4 - |open|)
    decreases flats
  {
    KindsAreFour(open);
    forall i | 0 <= i < |flats| && flats[i].Node?
      ensures 4 - |open| > 0 && DepthAtMost(flats[i].children, 4 - |open| - 1) {
      assert OneRepeatsNot(flats[i], open);
      NoneRepeatsIsShallow(flats[i].children, open + {flats[i].kind});
    }
  }

  // ----- Flattening, in place

  /** A piece of a flat tag's content: text, or a tag whose content is in another slot. */
  datatype FlatItem = FlatText(text: string) | FlatMark(kind: Kind, slot: nat)

  type Slots = seq<seq<FlatItem>>

  /** Items still to place, the slot they go to, and the kinds open around them, innermost first. */
  datatype Frames = Bottom | Frame(items: seq<Item>, slot: nat, open: set<Kind>, below: Frames)

  ghost predicate SlotsForward(slots: Slots) {
    forall s {:trigger slots[s]} :: 0 <= s < |slots| ==>
      forall i :: 0 <= i < |slots[s]| && slots[s][i].FlatMark? ==> s < slots[s][i].slot < |slots|
  }

  ghost predicate Framed(arena: Arena, frames: Frames) {
    frames.Frame? ==> Below(arena, frames.items, -1) && Framed(arena, frames.below)
  }

  /** All frames write to the first `n` slots. */
  ghost predicate Within(frames: Frames, n: nat) { frames.Frame? ==> frames.slot < n && Within(frames.below, n) }

  /** What the frames will still add to a slot, the innermost first. */
  ghost function Coming(arena: Arena, frames: Frames, slot: nat): seq<Flat>
    requires WellFormed(arena) && Framed(arena, frames)
    decreases frames
  {
    match frames
    case Bottom => []
    case Frame(items, s, open, below) =>
      if s == slot then Flatten(Trees(arena, items), open) + Coming(arena, below, slot) else Coming(arena, below, slot)
  }

  lemma {:induction false} NothingComing(arena: Arena, frames: Frames, slot: nat)
    requires WellFormed(arena) && Framed(arena, frames) && Within(frames, slot)
    ensures Coming(arena, frames, slot) == []
  {
    if frames.Frame? { NothingComing(arena, frames.below, slot); }
  }

  lemma {:induction false} WithinMore(frames: Frames, n: nat, m: nat)
    requires Within(frames, n) && n <= m
    ensures Within(frames, m)
  {
    if frames.Frame? { WithinMore(frames.below, n, m); }
  }

  /** The work under way: the arena, the slots filled so far, and the frames. */
  ghost predicate Flattening(arena: Arena, slots: Slots, frames: Frames) {
    WellFormed(arena) && SlotsForward(slots) && Framed(arena, frames) && Within(frames, |slots|)
  }

  /** What a slot will hold in the end. */
  ghost function Holds(arena: Arena, slots: Slots, frames: Frames, slot: nat): seq<Flat>
    requires Flattening(arena, slots, frames) && slot < |slots|
    decreases |slots| - slot, 1, 0
  {
    HoldsUpTo(arena, slots, frames, slot, |slots[slot]|) + Coming(arena, frames, slot)
  }

  ghost function HoldsUpTo(arena: Arena, slots: Slots, frames: Frames, slot: nat, n: nat): seq<Flat>
    requires Flattening(arena, slots, frames) && slot < |slots| && n <= |slots[slot]|
    decreases |slots| - slot, 0, n
  {
    if n == 0 then []
      else HoldsUpTo(arena, slots, frames, slot, n - 1) + [ItemHolds(arena, slots, frames, slot, slots[slot][n - 1])]
  }

  ghost function ItemHolds(arena: Arena, slots: Slots, frames: Frames, slot: nat, item: FlatItem): Flat
    requires Flattening(arena, slots, frames) && slot < |slots| && (item.FlatMark? ==> slot < item.slot < |slots|)
    decreases |slots| - slot, 0, -1
  {
    match item
    case FlatText(text) => Plain(text)
    case FlatMark(kind, inner) => Node(kind, Holds(arena, slots, frames, inner))
  }

  // Each step of the walk leaves what every slot will hold as it is.

  ghost predicate SameAt(arena: Arena, slots: Slots, frames: Frames, slots': Slots, frames': Frames, y: nat)
    requires Flattening(arena, slots, frames) && Flattening(arena, slots', frames') && y < |slots| <= |slots'|
  {
    slots'[y] == slots[y] && Coming(arena, frames', y) == Coming(arena, frames, y)
  }

  /** All slots behind `x` but for `slot` are the same, and `slot`, if it is one of them, will hold the same. */
  ghost predicate SameBehind(arena: Arena, slots: Slots, frames: Frames, slots': Slots, frames': Frames, slot: nat,
      x: nat)
    requires Flattening(arena, slots, frames) && Flattening(arena, slots', frames') && slot < |slots| <= |slots'|
  {
    && (slot >= x ==> Holds(arena, slots', frames', slot) == Holds(arena, slots, frames, slot))
    && forall y {:trigger SameAt(arena, slots, frames, slots', frames', y)} ::
      x <= y < |slots| && y != slot ==> SameAt(arena, slots, frames, slots', frames', y)
  }

  lemma {:induction false} SameHolds(arena: Arena, slots: Slots, frames: Frames, slots': Slots, frames': Frames,
      slot: nat, x: nat)
    requires Flattening(arena, slots, frames) && Flattening(arena, slots', frames') && slot < |slots| <= |slots'| &&
      x < |slots|
    requires SameBehind(arena, slots, frames, slots', frames', slot, x)
    ensures Holds(arena, slots', frames', x) == Holds(arena, slots, frames, x)
    decreases |slots| - x, 1, 0
  {
    if x != slot {
      assert SameAt(arena, slots, frames, slots', frames', x);
      SameUpTo(arena, slots, frames, slots', frames', slot, x, |slots[x]|);
    }
  }

  lemma {:induction false} SameUpTo(arena: Arena, slots: Slots, frames: Frames, slots': Slots, frames': Frames,
      slot: nat, x: nat, n: nat)
    requires Flattening(arena, slots, frames) && Flattening(arena, slots', frames') && slot < |slots| <= |slots'| &&
      x < |slots|
    requires n <= |slots[x]| <= |slots'[x]| && slots'[x][..n] == slots[x][..n]
    requires SameBehind(arena, slots, frames, slots', frames', slot, x + 1)
    ensures HoldsUpTo(arena, slots', frames', x, n) == HoldsUpTo(arena, slots, frames, x, n)
    decreases |slots| - x, 0, n
  {
    if n > 0 {
      assert slots'[x][n - 1] == slots'[x][..n][n - 1] == slots[x][n - 1];
      assert slots'[x][..n - 1] == slots'[x][..n][..n - 1] == slots[x][..n - 1];
      SameUpTo(arena, slots, frames, slots', frames', slot, x, n - 1);
      var item := slots[x][n - 1];
      if item.FlatMark? {
        SameBehindFurther(arena, slots, frames, slots', frames', slot, x + 1, item.slot);
        SameHolds(arena, slots, frames, slots', frames', slot, item.slot);
      }
    }
  }

  lemma {:induction false} SameBehindFurther(arena: Arena, slots: Slots, frames: Frames, slots': Slots, frames': Frames,
      slot: nat, x: nat, z: nat)
    requires Flattening(arena, slots, frames) && Flattening(arena, slots', frames') && slot < |slots| <= |slots'| &&
      x <= z
    requires SameBehind(arena, slots, frames, slots', frames', slot, x)
    ensures SameBehind(arena, slots, frames, slots', frames', slot, z)
  {
  }

  /** All slots but one are the same, and what comes to that one was added to it. */
  lemma {:induction false} StepKeeps(arena: Arena, slots: Slots, frames: Frames, slots': Slots, frames': Frames,
      slot: nat, extra: seq<Flat>)
    requires Flattening(arena, slots, frames) && Flattening(arena, slots', frames') && slot < |slots| <= |slots'|
    requires forall y {:trigger SameAt(arena, slots, frames, slots', frames', y)} ::
      0 <= y < |slots| && y != slot ==> SameAt(arena, slots, frames, slots', frames', y)
    requires slots[slot] <= slots'[slot]
    requires HoldsUpTo(arena, slots', frames', slot, |slots'[slot]|) ==
      HoldsUpTo(arena, slots', frames', slot, |slots[slot]|) + extra
    requires Coming(arena, frames, slot) == extra + Coming(arena, frames', slot)
    ensures Holds(arena, slots', frames', 0) == Holds(arena, slots, frames, 0)
  {
    SameUpTo(arena, slots, frames, slots', frames', slot, slot, |slots[slot]|);
    var before := HoldsUpTo(arena, slots, frames, slot, |slots[slot]|);
    assert (before + extra) + Coming(arena, frames', slot) == before + (extra + Coming(arena, frames', slot));
    assert SameBehind(arena, slots, frames, slots', frames', slot, 0);
    SameHolds(arena, slots, frames, slots', frames', slot, 0);
  }

  // ----- The steps

  ghost function Size(tree: Tree): nat
    decreases tree
  {
    match tree
    case Leaf(_) => 1
    case Tag(_, _, _, children) => 2 + SizeOf(children)
  }

  ghost function SizeOf(trees: seq<Tree>): nat
    decreases trees
  {
    if trees == [] then 0 else Size(trees[0]) + SizeOf(trees[1..])
  }

  ghost function Work(arena: Arena, frames: Frames): nat
    requires WellFormed(arena) && Framed(arena, frames)
  {
    match frames
    case Bottom => 0
    case Frame(items, _, _, below) => 1 + SizeOf(Trees(arena, items)) + Work(arena, below)
  }

  lemma {:induction false} FirstTree(arena: Arena, items: seq<Item>)
    requires WellFormed(arena) && Below(arena, items, -1) && items != []
    ensures Below(arena, items[1..], -1)
    ensures Trees(arena, items)[0] == ItemTree(arena, items[0], -1) &&
      Trees(arena, items)[1..] == Trees(arena, items[1..])
  {
  }

  /** The tree of a tag, from its children as they stand in the arena. */
  lemma {:induction false} TagTree(arena: Arena, id: nat)
    requires WellFormed(arena) && id < |arena|
    ensures Below(arena, arena[id].children, -1)
    ensures TreeOf(arena, id) ==
      Tag(arena[id].kind, arena[id].open, arena[id].unclosed, Trees(arena, arena[id].children))
  {
    assert TreeOf(arena, id).children == Trees(arena, arena[id].children);
  }

  /** What comes to a slot from the innermost frame: its first item, then the rest. */
  lemma {:induction false} FirstComes(arena: Arena, frames: Frames)
    requires WellFormed(arena) && Framed(arena, frames) && frames.Frame? && frames.items != []
    ensures var rest := frames.(items := frames.items[1..]);
      && Framed(arena, rest)
      && Coming(arena, frames, frames.slot) == FlattenOne(ItemTree(arena, frames.items[0], -1), frames.open) +
        Coming(arena, rest, frames.slot)
      && (forall y: nat {:trigger Coming(arena, rest, y)} ::
        y != frames.slot ==> Coming(arena, rest, y) == Coming(arena, frames, y))
      && Work(arena, frames) == Size(ItemTree(arena, frames.items[0], -1)) + Work(arena, rest)
  {
    var rest := frames.(items := frames.items[1..]);
    FirstTree(arena, frames.items);
    var one, others := FlattenOne(ItemTree(arena, frames.items[0], -1), frames.open),
      Flatten(Trees(arena, rest.items), frames.open);
    assert (one + others) + Coming(arena, frames.below, frames.slot) == one +
      (others + Coming(arena, frames.below, frames.slot));
  }

  /** A step has kept the outcome and done some work. */
  ghost predicate Kept(arena: Arena, slots: Slots, frames: Frames, slots': Slots, frames': Frames)
    requires Flattening(arena, slots, frames) && slots != []
  {
    && Flattening(arena, slots', frames') && slots' != []
    && Holds(arena, slots', frames', 0) == Holds(arena, slots, frames, 0)
    && Work(arena, frames') < Work(arena, frames)
  }

  lemma {:induction false} PopKeeps(arena: Arena, slots: Slots, frames: Frames)
    requires Flattening(arena, slots, frames) && frames.Frame? && frames.items == []
    ensures Kept(arena, slots, frames, slots, frames.below)
  {
    forall y {:trigger SameAt(arena, slots, frames, slots, frames.below, y)} | 0 <= y < |slots|
      ensures SameAt(arena, slots, frames, slots, frames.below, y) {
      assert Trees(arena, frames.items) == [];
    }
    assert Coming(arena, frames, frames.slot) == [] + Coming(arena, frames.below, frames.slot);
    StepKeeps(arena, slots, frames, slots, frames.below, frames.slot, []);
  }

  function Put(slots: Slots, slot: nat, item: FlatItem): Slots
    requires slot < |slots|
  {
    slots[slot := slots[slot] + [item]]
  }

  lemma {:induction false} TextKeeps(arena: Arena, slots: Slots, frames: Frames)
    requires Flattening(arena, slots, frames) && frames.Frame? && frames.items != [] && frames.items[0].Text?
    ensures Kept(arena, slots, frames, Put(slots, frames.slot, FlatText(frames.items[0].text)),
      frames.(items := frames.items[1..]))
  {
    var text, slot := frames.items[0].text, frames.slot;
    var slots', frames' := Put(slots, slot, FlatText(text)), frames.(items := frames.items[1..]);
    FirstComes(arena, frames);
    PutKeeps(arena, slots, frames, slots', frames', slot, text);
  }

  /** Text put into a slot comes to it no more. */
  lemma {:induction false} PutKeeps(arena: Arena, slots: Slots, frames: Frames, slots': Slots, frames': Frames,
      slot: nat, text: string)
    requires Flattening(arena, slots, frames) && slot < |slots| && slots' == Put(slots, slot, FlatText(text))
    requires Framed(arena, frames') && Within(frames', |slots|)
    requires forall y: nat {:trigger Coming(arena, frames', y)} ::
      y != slot ==> Coming(arena, frames', y) == Coming(arena, frames, y)
    requires Coming(arena, frames, slot) == [Plain(text)] + Coming(arena, frames', slot)
    ensures Flattening(arena, slots', frames') && Holds(arena, slots', frames', 0) == Holds(arena, slots, frames, 0)
  {
    assert slots'[slot][..|slots[slot]|] == slots[slot];
    StepKeeps(arena, slots, frames, slots', frames', slot, [Plain(text)]);
  }

  /** Where one frame became two that write to the same slot, in turn. */
  lemma {:induction false} UnclosedKeeps(arena: Arena, slots: Slots, frames: Frames)
    requires Flattening(arena, slots, frames) && frames.Frame? && frames.items != [] && frames.items[0].Mark? &&
      arena[frames.items[0].id].unclosed
    ensures var mark := arena[frames.items[0].id];
      var rest := frames.(items := frames.items[1..]);
      Kept(arena, slots, frames, Put(slots, frames.slot, FlatText(mark.open)),
        Frame(mark.children, frames.slot, frames.open, rest))
  {
    var mark, slot := arena[frames.items[0].id], frames.slot;
    var rest := frames.(items := frames.items[1..]);
    var frames' := Frame(mark.children, slot, frames.open, rest);
    FirstComes(arena, frames);
    TagTree(arena, frames.items[0].id);
    assert ([Plain(mark.open)] + Flatten(Trees(arena, mark.children), frames.open)) + Coming(arena, rest, slot)
        == [Plain(mark.open)] + (Flatten(Trees(arena, mark.children), frames.open) + Coming(arena, rest, slot));
    PutKeeps(arena, slots, frames, Put(slots, slot, FlatText(mark.open)), frames', slot, mark.open);
  }

  lemma {:induction false} TransparentKeeps(arena: Arena, slots: Slots, frames: Frames)
    requires Flattening(arena, slots, frames) && frames.Frame? && frames.items != [] && frames.items[0].Mark?
    requires !arena[frames.items[0].id].unclosed && arena[frames.items[0].id].kind in frames.open
    ensures Kept(arena, slots, frames, slots,
      Frame(arena[frames.items[0].id].children, frames.slot, frames.open, frames.(items := frames.items[1..])))
  {
    var mark, slot := arena[frames.items[0].id], frames.slot;
    var rest := frames.(items := frames.items[1..]);
    var frames' := Frame(mark.children, slot, frames.open, rest);
    FirstComes(arena, frames);
    TagTree(arena, frames.items[0].id);
    assert Coming(arena, frames, slot) == [] + Coming(arena, frames', slot);
    forall y {:trigger SameAt(arena, slots, frames, slots, frames', y)} | 0 <= y < |slots| && y != slot
      ensures SameAt(arena, slots, frames, slots, frames', y) {
      assert Coming(arena, frames', y) == Coming(arena, rest, y) == Coming(arena, frames, y);
    }
    StepKeeps(arena, slots, frames, slots, frames', slot, []);
  }

  lemma {:induction false} NodeKeeps(arena: Arena, slots: Slots, frames: Frames)
    requires Flattening(arena, slots, frames) && frames.Frame? && frames.items != [] && frames.items[0].Mark?
    requires !arena[frames.items[0].id].unclosed && arena[frames.items[0].id].kind !in frames.open
    ensures var mark := arena[frames.items[0].id];
      var rest := frames.(items := frames.items[1..]);
      Kept(arena, slots, frames, Put(slots, frames.slot, FlatMark(mark.kind, |slots|)) + [[]],
        Frame(mark.children, |slots|, frames.open + {mark.kind}, rest))
  {
    var mark, slot, free := arena[frames.items[0].id], frames.slot, |slots|;
    var rest := frames.(items := frames.items[1..]);
    var inner := frames.open + {mark.kind};
    var slots', frames' := Put(slots, slot, FlatMark(mark.kind, free)) + [[]], Frame(mark.children, free, inner, rest);
    FirstComes(arena, frames);
    TagTree(arena, frames.items[0].id);
    NothingComing(arena, rest, free);
    WithinMore(rest, free, free + 1);
    var content := Flatten(Trees(arena, mark.children), inner);
    assert Coming(arena, frames', free) == content;
    NodeStep(arena, slots, frames, slots', frames', slot, mark.kind, content);
  }

  lemma {:induction false} StillForward(slots: Slots, slot: nat, kind: Kind)
    requires SlotsForward(slots) && slot < |slots|
    ensures SlotsForward(Put(slots, slot, FlatMark(kind, |slots|)) + [[]])
  {
    var slots': Slots := Put(slots, slot, FlatMark(kind, |slots|)) + [[]];
    forall s {:trigger slots'[s]} | 0 <= s < |slots'|
      ensures forall i :: 0 <= i < |slots'[s]| && slots'[s][i].FlatMark? ==> s < slots'[s][i].slot < |slots'| {
      assert s < |slots| ==> slots'[s] == if s == slot then slots[s] + [FlatMark(kind, |slots|)] else slots[s];
    }
  }

  lemma {:induction false} NodeStep(arena: Arena, slots: Slots, frames: Frames, slots': Slots, frames': Frames,
      slot: nat, kind: Kind, content: seq<Flat>)
    requires Flattening(arena, slots, frames) && slot < |slots| &&
      slots' == Put(slots, slot, FlatMark(kind, |slots|)) + [[]]
    requires Framed(arena, frames') && Within(frames', |slots'|) && Coming(arena, frames', |slots|) == content
    requires forall y: nat {:trigger Coming(arena, frames', y)} ::
      y < |slots| && y != slot ==> Coming(arena, frames', y) == Coming(arena, frames, y)
    requires Coming(arena, frames, slot) == [Node(kind, content)] + Coming(arena, frames', slot)
    ensures Flattening(arena, slots', frames') && Holds(arena, slots', frames', 0) == Holds(arena, slots, frames, 0)
  {
    StillForward(slots, slot, kind);
    assert Holds(arena, slots', frames', |slots|) == content;
    assert slots'[slot] == slots[slot] + [FlatMark(kind, |slots|)];
    StepKeeps(arena, slots, frames, slots', frames', slot, [Node(kind, content)]);
  }

  /** Without recursion, tags in their own kind dissolve and unclosed tags become text. */
  method FlattenSameKind(arena: Arena, root: seq<Item>) returns (slots: Slots)
    requires WellFormed(arena) && Below(arena, root, -1)
    ensures slots != [] && Flattening(arena, slots, Bottom) &&
      Holds(arena, slots, Bottom, 0) == Flatten(Trees(arena, root), {})
  {
    slots := [[]];
    var frames := Frame(root, 0, {}, Bottom);
    assert Coming(arena, frames, 0) == Flatten(Trees(arena, root), {}) + [];
    assert HoldsUpTo(arena, slots, frames, 0, |slots[0]|) == [];
    while frames.Frame?
      invariant slots != [] && Flattening(arena, slots, frames) &&
        Holds(arena, slots, frames, 0) == Flatten(Trees(arena, root), {})
      decreases Work(arena, frames)
    {
      var items, slot, open := frames.items, frames.slot, frames.open;
      if items == [] {
        PopKeeps(arena, slots, frames);
        frames := frames.below;
      } else {
        var rest := frames.(items := items[1..]);
        match items[0] {
          case Text(text) =>
            TextKeeps(arena, slots, frames);
            slots, frames := Put(slots, slot, FlatText(text)), rest;
          case Mark(id) =>
            var mark := arena[id];
            if mark.unclosed {
              UnclosedKeeps(arena, slots, frames);
              slots, frames := Put(slots, slot, FlatText(mark.open)), Frame(mark.children, slot, open, rest);
            } else if mark.kind in open {
              TransparentKeeps(arena, slots, frames);
              frames := Frame(mark.children, slot, open, rest);
            } else {
              NodeKeeps(arena, slots, frames);
              slots, frames := Put(slots, slot, FlatMark(mark.kind, |slots|)) + [[]],
                Frame(mark.children, |slots|, open + {mark.kind}, rest);
            }
        }
      }
    }
  }
}
