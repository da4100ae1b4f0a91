/** Reading formatting tags into an arena, with a stack of the tags that are open. */
module MarkParser {
  import opened MarkEvents
  import opened Marks

  /** A tag as found in the text, and the text before it. */
  datatype Found = Found(lead: string, closing: bool, kind: Kind, written: string)

  // ----- What of the text is kept

  /** The opening tags among the first `n` that no closing tag has matched, innermost last. */
  ghost function OpenAfter(tags: seq<Found>, n: nat): (r: seq<nat>)
    requires n <= |tags|
    ensures forall k :: 0 <= k < |r| ==> r[k] < n
  {
    if n == 0 then []
    else
      var open := OpenAfter(tags, n - 1);
      if !tags[n - 1].closing then open + [n - 1]
      else if open != [] && tags[open[|open| - 1]].kind == tags[n - 1].kind then open[..|open| - 1]
      else open
  }

  /** The closing tag that matches an opening one. */
  ghost predicate Closes(tags: seq<Found>, i: nat, j: nat) {
    i < j < |tags| && tags[j].closing && var open := OpenAfter(tags, j);
      open != [] && open[|open| - 1] == i && tags[i].kind == tags[j].kind
  }

  ghost predicate IsAround(tags: seq<Found>, n: nat, kind: Kind) {
    exists i: nat, j: nat :: i < n <= j && Closes(tags, i, j) && tags[i].kind == kind
  }

  /** The kinds of the closed pairs around the place before tag `n`. */
  ghost function Around(tags: seq<Found>, n: nat): set<Kind> {
    set kind: Kind | IsAround(tags, n, kind)
  }

  ghost predicate NeverClosed(tags: seq<Found>, i: nat) { i in OpenAfter(tags, |tags|) }

  /** All text up to tag `n`, and those opening tags that are never closed, each character with the closed pairs
   * around it. Closing tags are dropped. */
  ghost function KeptStyle(tags: seq<Found>, n: nat): seq<Glyph>
    requires n <= |tags|
  {
    if n == 0 then []
      else KeptStyle(tags, n - 1) + Style(tags[n - 1].lead, Around(tags, n - 1)) + LiteralStyle(tags, n - 1)
  }

  ghost function LiteralStyle(tags: seq<Found>, i: nat): seq<Glyph>
    requires i < |tags|
  {
    if NeverClosed(tags, i) then Style(tags[i].written, Around(tags, i)) else []
  }

  /** What a tag is: text if it opens and is never closed, a begin or an end, or nothing if it closes nothing. */
  ghost function EventOf(tags: seq<Found>, i: nat): seq<Event>
    requires i < |tags|
  {
    if tags[i].closing then (if exists open: nat :: Closes(tags, open, i) then [End(tags[i].kind)] else [])
    else if NeverClosed(tags, i) then [Piece(tags[i].written)]
    else [Begin(tags[i].kind)]
  }

  /** The text up to tag `n` with its tags, in order. */
  ghost function TagsRead(tags: seq<Found>, n: nat): seq<Event>
    requires n <= |tags|
  {
    if n == 0 then [] else TagsRead(tags, n - 1) + [Piece(tags[n - 1].lead)] + EventOf(tags, n - 1)
  }

  ghost function Elements(s: seq<nat>): set<nat> { set x | x in s }

  // ----- Open tags and closed pairs

  lemma {:induction false} OpensAscend(tags: seq<Found>, n: nat)
    requires n <= |tags|
    ensures forall j, k :: 0 <= j < k < |OpenAfter(tags, n)| ==> OpenAfter(tags, n)[j] < OpenAfter(tags, n)[k]
    ensures forall i :: i in OpenAfter(tags, n) ==> i < |tags| && !tags[i].closing
  {
    if n > 0 { OpensAscend(tags, n - 1); }
  }

  /** A tag that is open was open ever since. */
  lemma {:induction false} OpenSince(tags: seq<Found>, i: nat, n: nat, m: nat)
    requires i < n <= m <= |tags| && i in OpenAfter(tags, m)
    ensures i in OpenAfter(tags, n)
    decreases m
  {
    if n < m { OpenSince(tags, i, n, m - 1); }
  }

  lemma {:induction false} ClosedIsGone(tags: seq<Found>, i: nat, j: nat)
    requires Closes(tags, i, j)
    ensures i in OpenAfter(tags, j) && i !in OpenAfter(tags, j + 1) && !NeverClosed(tags, i)
  {
    OpensAscend(tags, j);
    var open := OpenAfter(tags, j);
    assert OpenAfter(tags, j + 1) == open[..|open| - 1];
    LastIsOnce(open);
    if NeverClosed(tags, i) { OpenSince(tags, i, j + 1, |tags|); }
  }

  lemma {:induction false} LastIsOnce(s: seq<nat>)
    requires s != [] && forall j, k :: 0 <= j < k < |s| ==> s[j] < s[k]
    ensures s[|s| - 1] in s && s[|s| - 1] !in s[..|s| - 1]
  {
    var init, last := s[..|s| - 1], s[|s| - 1];
    forall k | 0 <= k < |init| ensures init[k] != last { assert init[k] == s[k]; }
  }

  /** Only the innermost open tag is closed by a tag. */
  lemma {:induction false} LeavesLast(s: seq<nat>, i: nat)
    requires i in s && i !in s[..|s| - 1]
    ensures s[|s| - 1] == i
  {
    var k :| 0 <= k < |s| && s[k] == i;
    assert forall j :: 0 <= j < |s| - 1 ==> s[..|s| - 1][j] == s[j];
  }

  lemma {:induction false} ClosesSomewhere(tags: seq<Found>, i: nat, n: nat) returns (j: nat)
    requires n <= |tags| && i in OpenAfter(tags, n) && !NeverClosed(tags, i)
    ensures n <= j && Closes(tags, i, j)
    decreases |tags| - n
  {
    if i in OpenAfter(tags, n + 1) {
      j := ClosesSomewhere(tags, i, n + 1);
    } else {
      var open := OpenAfter(tags, n);
      assert OpenAfter(tags, n + 1) == open[..|open| - 1];
      LeavesLast(open, i);
      j := n;
    }
  }

  /** The closed pairs around a place are those of the open tags that will be closed. */
  lemma {:induction false} AroundAre(tags: seq<Found>, n: nat, kind: Kind)
    requires n <= |tags|
    ensures kind in Around(tags, n) <==>
      exists i: nat :: i in OpenAfter(tags, n) && !NeverClosed(tags, i) && tags[i].kind == kind
  {
    if kind in Around(tags, n) {
      var i: nat, j: nat :| i < n <= j && Closes(tags, i, j) && tags[i].kind == kind;
      ClosedIsGone(tags, i, j);
      OpenSince(tags, i, n, j);
    }
    if i: nat :| i in OpenAfter(tags, n) && !NeverClosed(tags, i) && tags[i].kind == kind {
      var j := ClosesSomewhere(tags, i, n);
    }
  }

  // ----- The open tags are the right edge of the tree

  ghost predicate AllClosed(items: seq<Item>, open: set<nat>) {
    forall i :: 0 <= i < |items| && items[i].Mark? ==> items[i].id !in open
  }

  /** Closed tags hold only closed tags. */
  ghost predicate ClosedStay(arena: Arena, open: set<nat>) {
    forall id {:trigger arena[id]} :: 0 <= id < |arena| && id !in open ==> AllClosed(arena[id].children, open)
  }

  /** The items at one level of the right edge: the root, or the content of an open tag. */
  ghost function Level(arena: Arena, root: seq<Item>, stack: seq<nat>, k: nat): seq<Item>
    requires k <= |stack| && OnStack(arena, stack)
  {
    if k == 0 then root else arena[stack[k - 1]].children
  }

  ghost predicate OnStack(arena: Arena, stack: seq<nat>) {
    (forall k :: 0 <= k < |stack| ==> stack[k] < |arena|) && forall j, k :: 0 <= j < k < |stack| ==> stack[j] < stack[k]
  }

  /** Each open tag is the last item of its level, and all else is closed. */
  ghost predicate EdgeAt(arena: Arena, root: seq<Item>, stack: seq<nat>, k: nat)
    requires k <= |stack| && OnStack(arena, stack)
  {
    var items := Level(arena, root, stack, k);
    if k == |stack| then AllClosed(items, Elements(stack))
    else items != [] && items[|items| - 1] == Mark(stack[k]) && AllClosed(items[..|items| - 1], Elements(stack))
  }

  ghost predicate Edge(arena: Arena, root: seq<Item>, stack: seq<nat>) {
    && OnStack(arena, stack) && ClosedStay(arena, Elements(stack))
    && forall k {:trigger EdgeAt(arena, root, stack, k)} :: 0 <= k <= |stack| ==> EdgeAt(arena, root, stack, k)
  }

  lemma {:induction false} StyleAppends(a: seq<Tree>, b: seq<Tree>, open: set<Kind>)
    ensures StyleOf(a + b, open) == StyleOf(a, open) + StyleOf(b, open)
  {
    if a == [] {
      assert a + b == b;
    } else {
      assert (a + b)[1..] == a[1..] + b;
      StyleAppends(a[1..], b, open);
    }
  }

  /** The kinds of the outer open tags, but for those that will never be closed. */
  ghost function KindsIn(arena: Arena, stack: seq<nat>, k: nat): set<Kind>
    requires k <= |stack| && OnStack(arena, stack)
  {
    if k == 0 then {} else KindsIn(arena, stack, k - 1) + KindOf(arena[stack[k - 1]])
  }

  function KindOf(mark: ParsedMark): set<Kind> { if mark.unclosed then {} else {mark.kind} }

  /** Two arenas that agree on closed tags have the same trees for them. */
  ghost predicate AgreeClosed(arena: Arena, more: Arena, open: set<nat>) {
    |arena| <= |more| && forall id {:trigger arena[id]} :: 0 <= id < |arena| && id !in open ==> more[id] == arena[id]
  }

  lemma {:induction false} ClosedTree(arena: Arena, more: Arena, open: set<nat>, id: nat)
    requires WellFormed(arena) && WellFormed(more) && AgreeClosed(arena, more, open) && ClosedStay(arena, open)
    requires id < |arena| && id !in open
    ensures TreeOf(more, id) == TreeOf(arena, id)
    decreases |arena| - id
  {
    var children := arena[id].children;
    forall i | 0 <= i < |children| ensures ItemTree(more, children[i], id) == ItemTree(arena, children[i], id) {
      if children[i].Mark? { ClosedTree(arena, more, open, children[i].id); }
    }
    assert TreeOf(more, id).children == TreeOf(arena, id).children;
  }

  lemma {:induction false} ClosedTrees(arena: Arena, more: Arena, open: set<nat>, items: seq<Item>)
    requires WellFormed(arena) && WellFormed(more) && AgreeClosed(arena, more, open) && ClosedStay(arena, open)
    requires Below(arena, items, -1) && AllClosed(items, open)
    ensures Below(more, items, -1) && Trees(more, items) == Trees(arena, items)
  {
    forall i | 0 <= i < |items| ensures ItemTree(more, items[i], -1) == ItemTree(arena, items[i], -1) {
      if items[i].Mark? { ClosedTree(arena, more, open, items[i].id); }
    }
  }

  /** The arena after the innermost open tag, if there is one, got one more item. */
  function PutArena(arena: Arena, stack: seq<nat>, item: Item): Arena
    requires stack != [] ==> stack[|stack| - 1] < |arena|
  {
    if stack == [] then arena
    else
      var top := stack[|stack| - 1];
      arena[top := arena[top].(children := arena[top].children + [item])]
  }

  /** The root after it got one more item, if no tag is open. */
  function PutRoot(root: seq<Item>, stack: seq<nat>, item: Item): seq<Item> {
    if stack == [] then root + [item] else root
  }

  /** The two differ at most in what they hold. */
  predicate SameTag(mark: ParsedMark, other: ParsedMark) { other == mark.(children := other.children) }

  /** Only the last level has changed, and has one more item. */
  ghost predicate Grown(arena: Arena, root: seq<Item>, more: Arena, grown: seq<Item>, stack: seq<nat>, item: Item) {
    && OnStack(arena, stack) && OnStack(more, stack) && AgreeClosed(arena, more, Elements(stack))
    && (forall k {:trigger Level(more, grown, stack, k)} ::
      0 <= k < |stack| ==> Level(more, grown, stack, k) == Level(arena, root, stack, k))
    && Level(more, grown, stack, |stack|) == Level(arena, root, stack, |stack|) + [item]
    && forall k :: 0 <= k < |stack| ==> SameTag(arena[stack[k]], more[stack[k]])
  }

  /** A level has grown at its end. */
  ghost predicate StyleGrown(arena: Arena, root: seq<Item>, more: Arena, grown: seq<Item>, stack: seq<nat>, k: nat,
      extra: seq<Glyph>)
    requires WellFormed(arena) && WellFormed(more) && OnStack(arena, stack) && OnStack(more, stack) && k <= |stack|
  {
    var before, after, kinds := Level(arena, root, stack, k), Level(more, grown, stack, k), KindsIn(arena, stack, k);
    && Below(arena, before, -1) && Below(more, after, -1)
    && StyleOf(Trees(more, after), kinds) == StyleOf(Trees(arena, before), kinds) + extra
  }

  /** What both arenas are like when an item is put at the right edge. */
  ghost predicate Growing(arena: Arena, root: seq<Item>, more: Arena, grown: seq<Item>, stack: seq<nat>, item: Item) {
    && WellFormed(arena) && WellFormed(more) && Below(arena, root, -1) && Below(more, grown, -1)
    && Edge(arena, root, stack) && Grown(arena, root, more, grown, stack, item) && (item.Mark? ==> item.id < |more|)
  }

  lemma {:induction false} LastLevelGrows(arena: Arena, root: seq<Item>, more: Arena, grown: seq<Item>, stack: seq<nat>,
      item: Item)
    requires Growing(arena, root, more, grown, stack, item)
    ensures StyleGrown(arena, root, more, grown, stack, |stack|,
      StyleOfOne(ItemTree(more, item, -1), KindsIn(arena, stack, |stack|)))
  {
    LevelsBelow(arena, root, stack, |stack|);
    assert EdgeAt(arena, root, stack, |stack|);
    ClosedTrees(arena, more, Elements(stack), Level(arena, root, stack, |stack|));
    LastStyle(more, Level(arena, root, stack, |stack|), item, KindsIn(arena, stack, |stack|));
  }

  /** A level of which only the open tag at its end has changed. */
  ghost predicate OuterLevel(arena: Arena, more: Arena, items: seq<Item>, stack: seq<nat>, id: nat) {
    && WellFormed(arena) && WellFormed(more) && AgreeClosed(arena, more, Elements(stack)) &&
      ClosedStay(arena, Elements(stack))
    && Below(arena, items, -1) && Below(more, items, -1) && id < |arena| <= |more|
    && items != [] && items[|items| - 1] == Mark(id) && AllClosed(items[..|items| - 1], Elements(stack))
  }

  lemma {:induction false} EdgeIsOuter(arena: Arena, root: seq<Item>, more: Arena, grown: seq<Item>, stack: seq<nat>,
      k: nat, item: Item)
    requires Growing(arena, root, more, grown, stack, item) && k < |stack|
    ensures OuterLevel(arena, more, Level(arena, root, stack, k), stack, stack[k])
    ensures Level(more, grown, stack, k) == Level(arena, root, stack, k)
  {
    assert Level(more, grown, stack, k) == Level(arena, root, stack, k);
    LevelsBelow(arena, root, stack, k);
    LevelsBelow(more, grown, stack, k);
    assert EdgeAt(arena, root, stack, k);
  }

  lemma {:induction false} OuterLevelGrows(arena: Arena, root: seq<Item>, more: Arena, grown: seq<Item>,
      stack: seq<nat>, k: nat, extra: seq<Glyph>)
    requires WellFormed(arena) && WellFormed(more) && OnStack(arena, stack) && OnStack(more, stack) && k < |stack|
    requires OuterLevel(arena, more, Level(arena, root, stack, k), stack, stack[k]) &&
      Level(more, grown, stack, k) == Level(arena, root, stack, k)
    requires SameTag(arena[stack[k]], more[stack[k]]) && StyleGrown(arena, root, more, grown, stack, k + 1, extra)
    ensures StyleGrown(arena, root, more, grown, stack, k, extra)
  {
    TagGrows(arena, root, more, grown, stack, k, extra);
    EdgeStyle(arena, more, Level(arena, root, stack, k), stack, stack[k], KindsIn(arena, stack, k), extra);
  }

  lemma {:induction false} OneOutGrows(arena: Arena, root: seq<Item>, more: Arena, grown: seq<Item>, stack: seq<nat>,
      k: nat, item: Item, extra: seq<Glyph>)
    requires Growing(arena, root, more, grown, stack, item) && k < |stack|
    requires StyleGrown(arena, root, more, grown, stack, k + 1, extra)
    ensures StyleGrown(arena, root, more, grown, stack, k, extra)
  {
    EdgeIsOuter(arena, root, more, grown, stack, k, item);
    OuterLevelGrows(arena, root, more, grown, stack, k, extra);
  }

  /** An item put at the right edge adds its text at the end of every level. */
  lemma {:induction false} StyleGrows(arena: Arena, root: seq<Item>, more: Arena, grown: seq<Item>, stack: seq<nat>,
      k: nat, item: Item, extra: seq<Glyph>)
    requires Growing(arena, root, more, grown, stack, item) && k <= |stack|
    requires extra == StyleOfOne(ItemTree(more, item, -1), KindsIn(arena, stack, |stack|))
    ensures StyleGrown(arena, root, more, grown, stack, k, extra)
    decreases |stack| - k
  {
    if k == |stack| {
      LastLevelGrows(arena, root, more, grown, stack, item);
    } else {
      StyleGrows(arena, root, more, grown, stack, k + 1, item, extra);
      OneOutGrows(arena, root, more, grown, stack, k, item, extra);
    }
  }

  lemma {:induction false} LevelsBelow(arena: Arena, root: seq<Item>, stack: seq<nat>, k: nat)
    requires WellFormed(arena) && Below(arena, root, -1) && k <= |stack| && OnStack(arena, stack)
    ensures Below(arena, Level(arena, root, stack, k), -1)
  {
    if k > 0 { TagTree(arena, stack[k - 1]); }
  }

  /** An open tag grows as its content does. */
  lemma {:induction false} TagGrows(arena: Arena, root: seq<Item>, more: Arena, grown: seq<Item>, stack: seq<nat>,
      k: nat, extra: seq<Glyph>)
    requires WellFormed(arena) && WellFormed(more) && k < |stack| && OnStack(arena, stack) && OnStack(more, stack)
    requires SameTag(arena[stack[k]], more[stack[k]]) && StyleGrown(arena, root, more, grown, stack, k + 1, extra)
    ensures var kinds := KindsIn(arena, stack, k);
      StyleOfOne(TreeOf(more, stack[k]), kinds) == StyleOfOne(TreeOf(arena, stack[k]), kinds) + extra
  {
    var id, kinds := stack[k], KindsIn(arena, stack, k);
    TagStyle(arena, id, kinds);
    TagStyle(more, id, kinds);
    var content := StyleOf(Trees(arena, arena[id].children), kinds + KindOf(arena[id]));
    Associate(OwnStyle(arena[id], kinds), content, extra);
  }

  lemma {:induction false} Associate(a: seq<Glyph>, b: seq<Glyph>, c: seq<Glyph>)
    ensures a + (b + c) == (a + b) + c
  {
  }

  function OwnStyle(mark: ParsedMark, kinds: set<Kind>): seq<Glyph>
  {
    if mark.unclosed then Style(mark.open, kinds) else []
  }

  lemma {:induction false} TagStyle(arena: Arena, id: nat, kinds: set<Kind>)
    requires WellFormed(arena) && id < |arena|
    ensures Below(arena, arena[id].children, -1)
    ensures StyleOfOne(TreeOf(arena, id), kinds) == OwnStyle(arena[id], kinds) +
      StyleOf(Trees(arena, arena[id].children), kinds + KindOf(arena[id]))
  {
    TagTree(arena, id);
    assert kinds + {} == kinds;
  }

  lemma {:induction false} LastStyle(arena: Arena, items: seq<Item>, item: Item, kinds: set<Kind>)
    requires WellFormed(arena) && Below(arena, items, -1) && (item.Mark? ==> item.id < |arena|)
    ensures Below(arena, items + [item], -1)
    ensures StyleOf(Trees(arena, items + [item]), kinds) == StyleOf(Trees(arena, items), kinds) +
      StyleOfOne(ItemTree(arena, item, -1), kinds)
  {
    var last := ItemTree(arena, item, -1);
    assert Trees(arena, items + [item]) == Trees(arena, items) + [last];
    StyleAppends(Trees(arena, items), [last], kinds);
    assert StyleOf([last], kinds) == StyleOfOne(last, kinds) by { assert [last][1..] == []; }
  }

  /** A level whose last item is open: all before it is as it was. */
  lemma {:induction false} EdgeStyle(arena: Arena, more: Arena, items: seq<Item>, stack: seq<nat>, id: nat,
      kinds: set<Kind>, extra: seq<Glyph>)
    requires OuterLevel(arena, more, items, stack, id)
    requires StyleOfOne(TreeOf(more, id), kinds) == StyleOfOne(TreeOf(arena, id), kinds) + extra
    ensures StyleOf(Trees(more, items), kinds) == StyleOf(Trees(arena, items), kinds) + extra
  {
    var init := items[..|items| - 1];
    assert items == init + [Mark(id)];
    assert Below(arena, init, -1) && Below(more, init, -1);
    var style, last := StyleOf(Trees(arena, init), kinds), StyleOfOne(TreeOf(arena, id), kinds);
    assert StyleOf(Trees(arena, items), kinds) == style + last by { LastStyle(arena, init, Mark(id), kinds); }
    assert StyleOf(Trees(more, items), kinds) == style + (last + extra) by {
      ClosedTrees(arena, more, Elements(stack), init);
      LastStyle(more, init, Mark(id), kinds);
    }
    Associate(style, last, extra);
  }

  // ----- The steps of the parser

  ghost predicate Parsing(arena: Arena, root: seq<Item>, stack: seq<nat>) {
    WellFormed(arena) && Below(arena, root, -1) && Edge(arena, root, stack)
  }

  /** The arena before a tag is put, with the tag itself if it is a new one. */
  function WithTag(arena: Arena, item: Item, mark: ParsedMark): Arena {
    if item.Mark? then arena + [mark] else arena
  }

  /** The characters of all that has been parsed. */
  ghost function AllStyle(arena: Arena, root: seq<Item>): seq<Glyph>
    requires WellFormed(arena) && Below(arena, root, -1)
  {
    StyleOf(Trees(arena, root), {})
  }

  lemma {:induction false} PutIsWellFormed(arena: Arena, stack: seq<nat>, item: Item, mark: ParsedMark)
    requires WellFormed(arena) && OnStack(arena, stack) && mark.children == [] && (item.Mark? ==> item.id == |arena|)
    ensures WellFormed(PutArena(WithTag(arena, item, mark), stack, item))
  {
    var more := PutArena(WithTag(arena, item, mark), stack, item);
    forall id {:trigger more[id]} | 0 <= id < |more| ensures Below(more, more[id].children, id) {
      if id < |arena| {
        assert Below(arena, arena[id].children, id);
        assert more[id].children == arena[id].children || more[id].children == arena[id].children + [item];
      }
    }
  }

  lemma {:induction false} PutIsGrown(arena: Arena, root: seq<Item>, stack: seq<nat>, item: Item, mark: ParsedMark)
    requires OnStack(arena, stack)
    ensures Grown(arena, root, PutArena(WithTag(arena, item, mark), stack, item), PutRoot(root, stack, item), stack,
      item)
  {
    var more := PutArena(WithTag(arena, item, mark), stack, item);
    forall id {:trigger arena[id]} | 0 <= id < |arena| && id !in Elements(stack) ensures more[id] == arena[id] {
      assert stack != [] ==> stack[|stack| - 1] in Elements(stack);
    }
  }

  /** Putting an item keeps the shape of the right edge up to the level it was put on. */
  lemma {:induction false} PutGrows(arena: Arena, root: seq<Item>, stack: seq<nat>, item: Item, mark: ParsedMark)
    requires Parsing(arena, root, stack) && mark.children == [] && (item.Mark? ==> item.id == |arena|)
    ensures var more, grown := PutArena(WithTag(arena, item, mark), stack, item), PutRoot(root, stack, item);
      Growing(arena, root, more, grown, stack, item) &&
      AllStyle(more, grown) == AllStyle(arena, root) +
        StyleOfOne(ItemTree(more, item, -1), KindsIn(arena, stack, |stack|))
  {
    PutIsWellFormed(arena, stack, item, mark);
    PutIsGrown(arena, root, stack, item, mark);
    var more := PutArena(WithTag(arena, item, mark), stack, item);
    var extra := StyleOfOne(ItemTree(more, item, -1), KindsIn(arena, stack, |stack|));
    StyleGrows(arena, root, more, PutRoot(root, stack, item), stack, 0, item, extra);
  }

  /** With another stack, closed tags still hold only closed tags. */
  lemma {:induction false} PutStaysClosed(arena: Arena, stack: seq<nat>, item: Item, mark: ParsedMark, open: set<nat>)
    requires OnStack(arena, stack) && ClosedStay(arena, Elements(stack)) && mark.children == [] && WellFormed(arena)
    requires if item.Mark? then item.id == |arena| && open == Elements(stack) + {item.id} else open == Elements(stack)
    ensures ClosedStay(PutArena(WithTag(arena, item, mark), stack, item), open)
  {
    var more := PutArena(WithTag(arena, item, mark), stack, item);
    forall id {:trigger more[id]} | 0 <= id < |more| && id !in open ensures AllClosed(more[id].children, open) {
      assert stack != [] ==> stack[|stack| - 1] in Elements(stack);
      assert more[id] == arena[id];
      assert Below(arena, arena[id].children, id);
    }
  }

  /** Text goes to the innermost open tag. */
  lemma {:induction false} PutText(arena: Arena, root: seq<Item>, stack: seq<nat>, text: string)
    requires Parsing(arena, root, stack)
    ensures var more, grown := PutArena(arena, stack, Text(text)), PutRoot(root, stack, Text(text));
      Parsing(more, grown, stack) &&
        AllStyle(more, grown) == AllStyle(arena, root) + Style(text, KindsIn(arena, stack, |stack|))
  {
    var mark := ParsedMark(Bold, "", [], false);
    var more, grown := PutArena(arena, stack, Text(text)), PutRoot(root, stack, Text(text));
    PutGrows(arena, root, stack, Text(text), mark);
    PutStaysClosed(arena, stack, Text(text), mark, Elements(stack));
    forall k {:trigger EdgeAt(more, grown, stack, k)} | 0 <= k <= |stack| ensures EdgeAt(more, grown, stack, k) {
      assert EdgeAt(arena, root, stack, k);
      assert k < |stack| ==> Level(more, grown, stack, k) == Level(arena, root, stack, k);
    }
  }

  /** A new tag goes there too, and is then the innermost open one. */
  lemma {:induction false} PutTag(arena: Arena, root: seq<Item>, stack: seq<nat>, mark: ParsedMark)
    requires Parsing(arena, root, stack) && mark.children == []
    ensures var more, grown := PutArena(arena + [mark], stack, Mark(|arena|)), PutRoot(root, stack, Mark(|arena|));
      Parsing(more, grown, stack + [|arena|]) &&
        AllStyle(more, grown) == AllStyle(arena, root) + OwnStyle(mark, KindsIn(arena, stack, |stack|))
  {
    var more, grown := PutArena(arena + [mark], stack, Mark(|arena|)), PutRoot(root, stack, Mark(|arena|));
    PutGrows(arena, root, stack, Mark(|arena|), mark);
    assert Edge(more, grown, stack + [|arena|]) by { NewTagEdge(arena, root, stack, mark, more, grown); }
    NewTagStyle(arena, more, stack, mark, KindsIn(arena, stack, |stack|));
  }

  lemma {:induction false} NewTagEdge(arena: Arena, root: seq<Item>, stack: seq<nat>, mark: ParsedMark, more: Arena,
      grown: seq<Item>)
    requires Parsing(arena, root, stack) && mark.children == [] &&
      Growing(arena, root, more, grown, stack, Mark(|arena|))
    requires more == PutArena(arena + [mark], stack, Mark(|arena|))
    ensures Edge(more, grown, stack + [|arena|])
  {
    var deeper := stack + [|arena|];
    assert Elements(deeper) == Elements(stack) + {|arena|};
    PutStaysClosed(arena, stack, Mark(|arena|), mark, Elements(deeper));
    NewOnStack(arena, stack, more);
    forall k {:trigger EdgeAt(more, grown, deeper, k)} | 0 <= k <= |deeper| ensures EdgeAt(more, grown, deeper, k) {
      if k <= |stack| { NewEdge(arena, root, stack, more, grown, k); }
    }
  }

  lemma {:induction false} NewOnStack(arena: Arena, stack: seq<nat>, more: Arena)
    requires OnStack(arena, stack) && |more| == |arena| + 1
    ensures OnStack(more, stack + [|arena|])
  {
    var deeper := stack + [|arena|];
    forall j, l | 0 <= j < l < |deeper| ensures deeper[j] < deeper[l] { assert deeper[j] == stack[j]; }
  }

  lemma {:induction false} NewTagStyle(arena: Arena, more: Arena, stack: seq<nat>, mark: ParsedMark, kinds: set<Kind>)
    requires OnStack(arena, stack) && mark.children == [] && more == PutArena(arena + [mark], stack, Mark(|arena|)) &&
      WellFormed(more)
    ensures StyleOfOne(ItemTree(more, Mark(|arena|), -1), kinds) == OwnStyle(mark, kinds)
  {
    assert more[|arena|] == mark;
    TagStyle(more, |arena|, kinds);
    assert Trees(more, mark.children) == [];
  }

  lemma {:induction false} NewEdge(arena: Arena, root: seq<Item>, stack: seq<nat>, more: Arena, grown: seq<Item>,
      k: nat)
    requires Parsing(arena, root, stack) && Growing(arena, root, more, grown, stack, Mark(|arena|)) && k <= |stack| &&
      OnStack(more, stack + [|arena|])
    ensures EdgeAt(more, grown, stack + [|arena|], k)
  {
    var deeper, items := stack + [|arena|], Level(arena, root, stack, k);
    assert EdgeAt(arena, root, stack, k);
    assert Below(arena, items, -1) by { LevelsBelow(arena, root, stack, k); }
    assert Level(more, grown, deeper, k) == Level(more, grown, stack, k);
    if k < |stack| {
      StillClosed(arena, items[..|items| - 1], stack);
    } else {
      StillClosed(arena, items, stack);
      assert (items + [Mark(|arena|)])[..|items|] == items;
    }
  }

  lemma {:induction false} StillClosed(arena: Arena, items: seq<Item>, stack: seq<nat>)
    requires Below(arena, items, -1) && AllClosed(items, Elements(stack))
    ensures AllClosed(items, Elements(stack + [|arena|]))
  {
    assert Elements(stack + [|arena|]) == Elements(stack) + {|arena|};
  }

  lemma {:induction false} CloseStays(arena: Arena, root: seq<Item>, stack: seq<nat>, outer: seq<nat>)
    requires Parsing(arena, root, stack) && stack != [] && outer == stack[..|stack| - 1]
    ensures Elements(stack) == Elements(outer) + {stack[|stack| - 1]} && ClosedStay(arena, Elements(outer))
  {
    var top := stack[|stack| - 1];
    assert Elements(stack) == Elements(outer) + {top} by { assert stack == outer + [top]; }
    assert EdgeAt(arena, root, stack, |stack|);
    assert Level(arena, root, stack, |stack|) == arena[top].children;
    forall id {:trigger arena[id]} | 0 <= id < |arena| && id !in Elements(outer)
      ensures AllClosed(arena[id].children, Elements(outer)) {
      assert id == top || id !in Elements(stack);
    }
  }

  /** The innermost open tag closes; nothing else changes. */
  lemma {:induction false} CloseTag(arena: Arena, root: seq<Item>, stack: seq<nat>)
    requires Parsing(arena, root, stack) && stack != []
    ensures Parsing(arena, root, stack[..|stack| - 1])
  {
    var outer := stack[..|stack| - 1];
    CloseStays(arena, root, stack, outer);
    forall k {:trigger EdgeAt(arena, root, outer, k)} | 0 <= k <= |outer| ensures EdgeAt(arena, root, outer, k) {
      assert EdgeAt(arena, root, stack, k);
      assert Level(arena, root, outer, k) == Level(arena, root, stack, k);
      if k == |outer| { LastIsClosed(Level(arena, root, stack, k), stack, outer); }
    }
  }

  lemma {:induction false} LastIsClosed(items: seq<Item>, stack: seq<nat>, outer: seq<nat>)
    requires stack != [] && outer == stack[..|stack| - 1] && forall j, k :: 0 <= j < k < |stack| ==> stack[j] < stack[k]
    requires items != [] && items[|items| - 1] == Mark(stack[|stack| - 1]) &&
      AllClosed(items[..|items| - 1], Elements(stack))
    ensures AllClosed(items, Elements(outer))
  {
    forall i | 0 <= i < |items| && items[i].Mark? ensures items[i].id !in Elements(outer) {
      if i < |items| - 1 { assert items[..|items| - 1][i] == items[i]; }
    }
  }

  // ----- What has been read, from its start up to the right edge

  /** How a tag begins: a tag that will stay open is text. */
  function Own(mark: ParsedMark): seq<Event> {
    if mark.unclosed then [Piece(mark.open)] else [Begin(mark.kind)]
  }

  /** What of a level stands before the content of the open tag at its end. */
  ghost function Before(arena: Arena, root: seq<Item>, stack: seq<nat>, k: nat): seq<Event>
    requires Parsing(arena, root, stack) && k < |stack|
  {
    var items := Level(arena, root, stack, k);
    LevelsBelow(arena, root, stack, k);
    assert EdgeAt(arena, root, stack, k);
    assert Below(arena, items[..|items| - 1], -1);
    Events(Trees(arena, items[..|items| - 1])) + Own(arena[stack[k]])
  }

  /** What stands before the content of each open tag, from the outermost on. */
  ghost function Befores(arena: Arena, root: seq<Item>, stack: seq<nat>): (r: seq<seq<Event>>)
    requires Parsing(arena, root, stack)
    ensures |r| == |stack|
  {
    seq(|stack|, k requires 0 <= k < |stack| => Before(arena, root, stack, k))
  }

  ghost function LevelEvents(arena: Arena, root: seq<Item>, stack: seq<nat>, k: nat): seq<Event>
    requires Parsing(arena, root, stack) && k <= |stack|
  {
    LevelsBelow(arena, root, stack, k);
    Events(Trees(arena, Level(arena, root, stack, k)))
  }

  ghost function Content(arena: Arena, root: seq<Item>, stack: seq<nat>): seq<Event>
    requires Parsing(arena, root, stack)
  {
    LevelEvents(arena, root, stack, |stack|)
  }

  function Concat(parts: seq<seq<Event>>): seq<Event> {
    if parts == [] then [] else parts[0] + Concat(parts[1..])
  }

  /** From the start up to the right edge: tags that are open have begun but not ended. */
  ghost function ReadSoFar(arena: Arena, root: seq<Item>, stack: seq<nat>): seq<Event>
    requires Parsing(arena, root, stack)
  {
    Concat(Befores(arena, root, stack)) + Content(arena, root, stack)
  }

  lemma {:induction false} ConcatLast(parts: seq<seq<Event>>, part: seq<Event>)
    ensures Concat(parts + [part]) == Concat(parts) + part
  {
    if parts == [] {
      assert parts + [part] == [part] && [part][1..] == [];
      assert Concat([part]) == part + [];
    } else {
      assert (parts + [part])[1..] == parts[1..] + [part];
      ConcatLast(parts[1..], part);
      Regroup(parts[0], Concat(parts[1..]), part);
    }
  }

  lemma {:induction false} ConcatFrom(parts: seq<seq<Event>>, k: nat)
    requires k < |parts|
    ensures Concat(parts[k..]) == parts[k] + Concat(parts[k + 1..])
  {
    assert parts[k..][1..] == parts[k + 1..];
  }

  lemma {:induction false} OneMorePart(parts: seq<seq<Event>>, less: seq<seq<Event>>, part: seq<Event>)
    requires |parts| == |less| + 1 && parts[..|less|] == less && parts[|less|] == part
    ensures parts == less + [part] && Concat(parts) == Concat(less) + part
  {
    assert parts == less + [part];
    ConcatLast(less, part);
  }

  lemma {:induction false} Regroup(a: seq<Event>, b: seq<Event>, c: seq<Event>)
    ensures a + (b + c) == (a + b) + c
  {
  }

  lemma {:induction false} EventsAppend(a: seq<Tree>, b: seq<Tree>)
    ensures Events(a + b) == Events(a) + Events(b)
  {
    if a == [] {
      assert a + b == b;
    } else {
      assert (a + b)[1..] == a[1..] + b;
      EventsAppend(a[1..], b);
    }
  }

  lemma {:induction false} LastEvents(arena: Arena, items: seq<Item>, item: Item)
    requires WellFormed(arena) && Below(arena, items, -1) && (item.Mark? ==> item.id < |arena|)
    ensures Below(arena, items + [item], -1)
    ensures Events(Trees(arena, items + [item])) == Events(Trees(arena, items)) + EventsOfOne(ItemTree(arena, item, -1))
  {
    var last := ItemTree(arena, item, -1);
    assert Trees(arena, items + [item]) == Trees(arena, items) + [last];
    EventsAppend(Trees(arena, items), [last]);
    assert Events([last]) == EventsOfOne(last) by { assert [last][1..] == []; }
  }

  lemma {:induction false} TagEvents(arena: Arena, id: nat)
    requires WellFormed(arena) && id < |arena|
    ensures Below(arena, arena[id].children, -1)
    ensures EventsOfOne(TreeOf(arena, id)) == Own(arena[id]) + Events(Trees(arena, arena[id].children)) +
      if arena[id].unclosed then [] else [End(arena[id].kind)]
  {
    TagTree(arena, id);
  }

  lemma {:induction false} SameInit(arena: Arena, more: Arena, items: seq<Item>, stack: seq<nat>, id: nat)
    requires OuterLevel(arena, more, items, stack, id)
    ensures var init := items[..|items| - 1];
      Below(arena, init, -1) && Below(more, init, -1) && Trees(more, init) == Trees(arena, init)
  {
    ClosedTrees(arena, more, Elements(stack), items[..|items| - 1]);
  }

  lemma {:induction false} SameBefore(arena: Arena, root: seq<Item>, more: Arena, grown: seq<Item>, stack: seq<nat>,
      deeper: seq<nat>, k: nat, item: Item)
    requires Parsing(arena, root, stack) && Parsing(more, grown, deeper)
    requires Growing(arena, root, more, grown, stack, item) && stack <= deeper && k < |stack|
    ensures Before(more, grown, deeper, k) == Before(arena, root, stack, k)
  {
    EdgeIsOuter(arena, root, more, grown, stack, k, item);
    SameInit(arena, more, Level(arena, root, stack, k), stack, stack[k]);
    assert Level(more, grown, deeper, k) == Level(more, grown, stack, k);
    assert Own(more[stack[k]]) == Own(arena[stack[k]]) by { assert SameTag(arena[stack[k]], more[stack[k]]); }
  }

  lemma {:induction false} SameBefores(arena: Arena, root: seq<Item>, more: Arena, grown: seq<Item>, stack: seq<nat>,
      deeper: seq<nat>, item: Item)
    requires Parsing(arena, root, stack) && Parsing(more, grown, deeper)
    requires Growing(arena, root, more, grown, stack, item) && stack <= deeper
    ensures Befores(more, grown, deeper)[..|stack|] == Befores(arena, root, stack)
  {
    forall k | 0 <= k < |stack| ensures Befores(more, grown, deeper)[k] == Befores(arena, root, stack)[k] {
      SameBefore(arena, root, more, grown, stack, deeper, k, item);
    }
  }

  /** The innermost level is as it was, but for the new item. */
  lemma {:induction false} LastLevel(arena: Arena, root: seq<Item>, more: Arena, grown: seq<Item>, stack: seq<nat>,
      item: Item)
    requires Parsing(arena, root, stack) && Growing(arena, root, more, grown, stack, item)
    ensures var items := Level(arena, root, stack, |stack|);
      Below(more, items, -1) && Events(Trees(more, items)) == Content(arena, root, stack)
  {
    LevelsBelow(arena, root, stack, |stack|);
    assert EdgeAt(arena, root, stack, |stack|);
    ClosedTrees(arena, more, Elements(stack), Level(arena, root, stack, |stack|));
  }

  lemma {:induction false} TextIsRead(arena: Arena, root: seq<Item>, stack: seq<nat>, text: string)
    requires Parsing(arena, root, stack)
    ensures var more, grown := PutArena(arena, stack, Text(text)), PutRoot(root, stack, Text(text));
      Parsing(more, grown, stack) &&
        ReadSoFar(more, grown, stack) == ReadSoFar(arena, root, stack) + [Piece(text)]
  {
    var more, grown := PutArena(arena, stack, Text(text)), PutRoot(root, stack, Text(text));
    PutText(arena, root, stack, text);
    PutGrows(arena, root, stack, Text(text), ParsedMark(Bold, "", [], false));
    LastLevel(arena, root, more, grown, stack, Text(text));
    LastEvents(more, Level(arena, root, stack, |stack|), Text(text));
    SameBefores(arena, root, more, grown, stack, stack, Text(text));
    assert Befores(more, grown, stack)[..|stack|] == Befores(more, grown, stack);
    Regroup(Concat(Befores(arena, root, stack)), Content(arena, root, stack), [Piece(text)]);
  }

  lemma {:induction false} NewTagBegins(arena: Arena, root: seq<Item>, stack: seq<nat>, mark: ParsedMark)
    requires Parsing(arena, root, stack) && mark.children == []
    ensures var more, grown := PutArena(arena + [mark], stack, Mark(|arena|)), PutRoot(root, stack, Mark(|arena|));
      var deeper := stack + [|arena|];
      Parsing(more, grown, deeper) && Content(more, grown, deeper) == [] &&
        Befores(more, grown, deeper)[..|stack|] == Befores(arena, root, stack) &&
        Before(more, grown, deeper, |stack|) == Content(arena, root, stack) + Own(mark)
  {
    var more, grown := PutArena(arena + [mark], stack, Mark(|arena|)), PutRoot(root, stack, Mark(|arena|));
    var deeper := stack + [|arena|];
    PutTag(arena, root, stack, mark);
    PutGrows(arena, root, stack, Mark(|arena|), mark);
    LastLevel(arena, root, more, grown, stack, Mark(|arena|));
    SameBefores(arena, root, more, grown, stack, deeper, Mark(|arena|));
    assert more[|arena|] == mark;
    assert Level(more, grown, deeper, |deeper|) == [];
    NewTagLies(arena, root, more, grown, stack);
  }

  lemma {:induction false} NewTagLies(arena: Arena, root: seq<Item>, more: Arena, grown: seq<Item>, stack: seq<nat>)
    requires Grown(arena, root, more, grown, stack, Mark(|arena|)) && OnStack(more, stack + [|arena|])
    ensures var items, level := Level(arena, root, stack, |stack|), Level(more, grown, stack + [|arena|], |stack|);
      level != [] && level[..|level| - 1] == items
  {
    var items := Level(arena, root, stack, |stack|);
    assert Level(more, grown, stack + [|arena|], |stack|) == items + [Mark(|arena|)];
    assert (items + [Mark(|arena|)])[..|items|] == items;
  }

  lemma {:induction false} TagIsRead(arena: Arena, root: seq<Item>, stack: seq<nat>, mark: ParsedMark)
    requires Parsing(arena, root, stack) && mark.children == []
    ensures var more, grown := PutArena(arena + [mark], stack, Mark(|arena|)), PutRoot(root, stack, Mark(|arena|));
      Parsing(more, grown, stack + [|arena|]) &&
        ReadSoFar(more, grown, stack + [|arena|]) == ReadSoFar(arena, root, stack) + Own(mark)
  {
    var more, grown := PutArena(arena + [mark], stack, Mark(|arena|)), PutRoot(root, stack, Mark(|arena|));
    var deeper, befores := stack + [|arena|], Befores(arena, root, stack);
    NewTagBegins(arena, root, stack, mark);
    OneMorePart(Befores(more, grown, deeper), befores, Content(arena, root, stack) + Own(mark));
    Regroup(Concat(befores), Content(arena, root, stack), Own(mark));
  }

  function EndOf(mark: ParsedMark): seq<Event> { if mark.unclosed then [] else [End(mark.kind)] }

  /** A tag at the end of a level, told by what stands before its content. */
  lemma {:induction false} OpenTagEvents(arena: Arena, root: seq<Item>, stack: seq<nat>, k: nat)
    requires Parsing(arena, root, stack) && k < |stack|
    ensures LevelEvents(arena, root, stack, k) ==
      Before(arena, root, stack, k) + LevelEvents(arena, root, stack, k + 1) + EndOf(arena[stack[k]])
  {
    var items, id := Level(arena, root, stack, k), stack[k];
    LevelsBelow(arena, root, stack, k);
    LevelsBelow(arena, root, stack, k + 1);
    assert EdgeAt(arena, root, stack, k);
    var init := items[..|items| - 1];
    assert items == init + [Mark(id)] && Below(arena, init, -1);
    LastEvents(arena, init, Mark(id));
    TagEvents(arena, id);
    RegroupAll(Events(Trees(arena, init)), Own(arena[id]), Events(Trees(arena, arena[id].children)), EndOf(arena[id]));
  }

  lemma {:induction false} RegroupAll(a: seq<Event>, b: seq<Event>, c: seq<Event>, d: seq<Event>)
    ensures a + (b + c + d) == (a + b) + c + d
  {
  }

  lemma {:induction false} OuterBefores(arena: Arena, root: seq<Item>, stack: seq<nat>, outer: seq<nat>)
    requires Parsing(arena, root, stack) && Parsing(arena, root, outer) && stack != [] && outer == stack[..|stack| - 1]
    ensures Befores(arena, root, stack)[..|outer|] == Befores(arena, root, outer)
    ensures Content(arena, root, outer) == LevelEvents(arena, root, stack, |outer|)
  {
    assert Level(arena, root, outer, |outer|) == Level(arena, root, stack, |outer|);
    forall k | 0 <= k < |outer| ensures Befores(arena, root, stack)[k] == Befores(arena, root, outer)[k] {
      assert Level(arena, root, outer, k) == Level(arena, root, stack, k);
    }
  }

  /** The tag that closes has ended. */
  lemma {:induction false} EndIsRead(arena: Arena, root: seq<Item>, stack: seq<nat>, outer: seq<nat>)
    requires Parsing(arena, root, stack) && Parsing(arena, root, outer) && stack != [] && outer == stack[..|stack| - 1]
    ensures ReadSoFar(arena, root, outer) == ReadSoFar(arena, root, stack) + EndOf(arena[stack[|stack| - 1]])
  {
    var befores, before := Befores(arena, root, outer), Before(arena, root, stack, |outer|);
    OuterBefores(arena, root, stack, outer);
    OpenTagEvents(arena, root, stack, |outer|);
    OneMorePart(Befores(arena, root, stack), befores, before);
    RegroupAll(Concat(befores), before, Content(arena, root, stack), EndOf(arena[stack[|outer|]]));
  }

  lemma {:induction false} OpenIsRead(arena: Arena, root: seq<Item>, stack: seq<nat>, k: nat)
    requires Parsing(arena, root, stack) && k < |stack| && arena[stack[k]].unclosed
    ensures LevelEvents(arena, root, stack, k) ==
      Befores(arena, root, stack)[k] + LevelEvents(arena, root, stack, k + 1)
  {
    OpenTagEvents(arena, root, stack, k);
  }

  /** Where all that is open is text, nothing ends behind the right edge. */
  lemma {:induction false} AllIsRead(arena: Arena, root: seq<Item>, stack: seq<nat>, befores: seq<seq<Event>>, k: nat)
    requires Parsing(arena, root, stack) && k <= |stack| && befores == Befores(arena, root, stack)
    requires forall j :: 0 <= j < |stack| ==> arena[stack[j]].unclosed
    ensures LevelEvents(arena, root, stack, k) == Concat(befores[k..]) + Content(arena, root, stack)
    decreases |stack| - k
  {
    if k < |stack| {
      AllIsRead(arena, root, stack, befores, k + 1);
      OpenIsRead(arena, root, stack, k);
      ConcatFrom(befores, k);
      Regroup(befores[k], Concat(befores[k + 1..]), Content(arena, root, stack));
    } else {
      assert befores[k..] == [];
    }
  }

  // ----- The parser

  /** `marked` is the arena with those tags unclosed that will be so in the end. */
  ghost predicate Flags(arena: Arena, marked: Arena, tagOf: seq<nat>, literal: set<nat>) {
    && |arena| == |marked| == |tagOf|
    && forall id {:trigger arena[id]} {:trigger marked[id]} ::
      0 <= id < |arena| ==> !arena[id].unclosed && marked[id] == arena[id].(unclosed := tagOf[id] in literal)
  }

  lemma {:induction false} PutFlags(arena: Arena, marked: Arena, tagOf: seq<nat>, literal: set<nat>, stack: seq<nat>,
      item: Item)
    requires Flags(arena, marked, tagOf, literal) && OnStack(arena, stack)
    ensures Flags(PutArena(arena, stack, item), PutArena(marked, stack, item), tagOf, literal)
  {
  }

  lemma {:induction false} NewFlags(arena: Arena, marked: Arena, tagOf: seq<nat>, literal: set<nat>, mark: ParsedMark,
      tag: nat)
    requires Flags(arena, marked, tagOf, literal) && !mark.unclosed
    ensures Flags(arena + [mark], marked + [mark.(unclosed := tag in literal)], tagOf + [tag], literal)
  {
  }

  /** Which tag of the text each tag of the arena is, and which are open. */
  ghost predicate Opened(tags: seq<Found>, n: nat, arena: Arena, stack: seq<nat>, tagOf: seq<nat>)
    requires n <= |tags|
  {
    && |tagOf| == |arena| && OnStack(arena, stack)
    && (forall j, k :: 0 <= j < k < |tagOf| ==> tagOf[j] < tagOf[k])
    && (forall id {:trigger tagOf[id]} :: 0 <= id < |arena| ==> tagOf[id] < n && arena[id].kind == tags[tagOf[id]].kind)
    && |stack| == |OpenAfter(tags, n)| &&
      forall k {:trigger stack[k]} :: 0 <= k < |stack| ==> tagOf[stack[k]] == OpenAfter(tags, n)[k]
  }

  lemma {:induction false} StillOpened(tags: seq<Found>, n: nat, arena: Arena, stack: seq<nat>, tagOf: seq<nat>,
      item: Item)
    requires n <= |tags| && Opened(tags, n, arena, stack, tagOf)
    ensures Opened(tags, n, PutArena(arena, stack, item), stack, tagOf)
  {
  }

  lemma {:induction false} OneOpened(tags: seq<Found>, n: nat, arena: Arena, stack: seq<nat>, tagOf: seq<nat>,
      mark: ParsedMark)
    requires n < |tags| && Opened(tags, n, arena, stack, tagOf) && !tags[n].closing && mark.kind == tags[n].kind
    ensures Opened(tags, n + 1, PutArena(arena + [mark], stack, Mark(|arena|)), stack + [|arena|], tagOf + [n])
  {
    var more, deeper, all := PutArena(arena + [mark], stack, Mark(|arena|)), stack + [|arena|], tagOf + [n];
    NewOnStack(arena, stack, more);
    forall k {:trigger deeper[k]} | 0 <= k < |deeper| ensures all[deeper[k]] == OpenAfter(tags, n + 1)[k] {
      assert k < |stack| ==> deeper[k] == stack[k];
    }
  }

  lemma {:induction false} OpenAfterClosing(tags: seq<Found>, n: nat, arena: Arena, stack: seq<nat>, tagOf: seq<nat>)
    requires n < |tags| && Opened(tags, n, arena, stack, tagOf) && tags[n].closing
    ensures var closes := stack != [] && arena[stack[|stack| - 1]].kind == tags[n].kind;
      OpenAfter(tags, n + 1) == if closes then OpenAfter(tags, n)[..|stack| - 1] else OpenAfter(tags, n)
  {
    if stack != [] { assert tagOf[stack[|stack| - 1]] == OpenAfter(tags, n)[|stack| - 1]; }
  }

  lemma {:induction false} OneClosed(tags: seq<Found>, n: nat, arena: Arena, stack: seq<nat>, tagOf: seq<nat>)
    requires n < |tags| && Opened(tags, n, arena, stack, tagOf) && tags[n].closing
    ensures var closes := stack != [] && arena[stack[|stack| - 1]].kind == tags[n].kind;
      Opened(tags, n + 1, arena, if closes then stack[..|stack| - 1] else stack, tagOf)
  {
    OpenAfterClosing(tags, n, arena, stack, tagOf);
  }

  /** The parser after `n` tags, given which tags will stay open. */
  ghost predicate Parsed(tags: seq<Found>, n: nat, arena: Arena, root: seq<Item>, stack: seq<nat>, marked: Arena,
      tagOf: seq<nat>, read: seq<Event>, style: seq<Glyph>)
    requires n <= |tags|
  {
    && Flags(arena, marked, tagOf, Elements(OpenAfter(tags, |tags|))) && Opened(tags, n, arena, stack, tagOf)
    && Parsing(marked, root, stack) && ReadSoFar(marked, root, stack) == read && AllStyle(marked, root) == style
  }

  lemma {:induction false} EventOfCloser(tags: seq<Found>, i: nat, j: nat)
    requires Closes(tags, i, j)
    ensures EventOf(tags, j) == [End(tags[i].kind)] && !NeverClosed(tags, i)
  {
    ClosedIsGone(tags, i, j);
  }

  /** The innermost open tag, as a tag of the text. */
  lemma {:induction false} TopIs(tags: seq<Found>, n: nat, arena: Arena, stack: seq<nat>, tagOf: seq<nat>)
    requires n < |tags| && tags[n].closing && Opened(tags, n, arena, stack, tagOf)
    ensures if stack != [] && arena[stack[|stack| - 1]].kind == tags[n].kind
      then Closes(tags, tagOf[stack[|stack| - 1]], n) else forall i: nat :: !Closes(tags, i, n)
  {
    if stack != [] {
      var top := stack[|stack| - 1];
      assert tagOf[top] == OpenAfter(tags, n)[|stack| - 1] && arena[top].kind == tags[tagOf[top]].kind;
    }
  }

  /** The innermost open tag ends if the next tag closes it, and else nothing does. */
  lemma {:induction false} CloserEvent(tags: seq<Found>, n: nat, arena: Arena, stack: seq<nat>, marked: Arena,
      tagOf: seq<nat>)
    requires n < |tags| && tags[n].closing && Opened(tags, n, arena, stack, tagOf)
    requires Flags(arena, marked, tagOf, Elements(OpenAfter(tags, |tags|)))
    ensures var closes := stack != [] && arena[stack[|stack| - 1]].kind == tags[n].kind;
      EventOf(tags, n) == if closes then EndOf(marked[stack[|stack| - 1]]) else []
  {
    TopIs(tags, n, arena, stack, tagOf);
    if stack != [] && arena[stack[|stack| - 1]].kind == tags[n].kind {
      var top := stack[|stack| - 1];
      EventOfCloser(tags, tagOf[top], n);
      assert marked[top] == arena[top].(unclosed := tagOf[top] in Elements(OpenAfter(tags, |tags|)));
    }
  }

  lemma {:induction false} OpenIsUnclosed(tags: seq<Found>, arena: Arena, stack: seq<nat>, marked: Arena,
      tagOf: seq<nat>)
    requires Opened(tags, |tags|, arena, stack, tagOf)
    requires Flags(arena, marked, tagOf, Elements(OpenAfter(tags, |tags|)))
    ensures forall k :: 0 <= k < |stack| ==> marked[stack[k]].unclosed
  {
    forall k | 0 <= k < |stack| ensures marked[stack[k]].unclosed {
      assert tagOf[stack[k]] == OpenAfter(tags, |tags|)[k];
      assert tagOf[stack[k]] in Elements(OpenAfter(tags, |tags|));
    }
  }

  lemma {:induction false} AllTagsRead(tags: seq<Found>, arena: Arena, root: seq<Item>, stack: seq<nat>, marked: Arena,
      tagOf: seq<nat>, read: seq<Event>, style: seq<Glyph>)
    requires Parsed(tags, |tags|, arena, root, stack, marked, tagOf, read, style)
    ensures Events(Trees(marked, root)) == read
  {
    OpenIsUnclosed(tags, arena, stack, marked, tagOf);
    var befores := Befores(marked, root, stack);
    AllIsRead(marked, root, stack, befores, 0);
    assert befores[0..] == befores;
  }

  /** The open tags that will be closed are the pairs around the place. */
  lemma {:induction false} KindsAreAround(tags: seq<Found>, n: nat, arena: Arena, stack: seq<nat>, marked: Arena,
      tagOf: seq<nat>)
    requires n <= |tags| && Flags(arena, marked, tagOf, Elements(OpenAfter(tags, |tags|))) &&
      Opened(tags, n, arena, stack, tagOf)
    requires OnStack(marked, stack)
    ensures KindsIn(marked, stack, |stack|) == Around(tags, n)
  {
    forall kind: Kind ensures kind in KindsIn(marked, stack, |stack|) <==> kind in Around(tags, n) {
      KindsAre(marked, stack, |stack|, kind);
      AroundAre(tags, n, kind);
      OpensAre(tags, n, arena, stack, marked, tagOf, kind);
    }
  }

  lemma {:induction false} KindsAre(arena: Arena, stack: seq<nat>, k: nat, kind: Kind)
    requires k <= |stack| && OnStack(arena, stack)
    ensures kind in KindsIn(arena, stack, k) <==>
      exists j {:trigger stack[j]} :: 0 <= j < k && !arena[stack[j]].unclosed && arena[stack[j]].kind == kind
  {
    if k > 0 { KindsAre(arena, stack, k - 1, kind); }
  }

  lemma {:induction false} OpensAre(tags: seq<Found>, n: nat, arena: Arena, stack: seq<nat>, marked: Arena,
      tagOf: seq<nat>, kind: Kind)
    requires n <= |tags| && Flags(arena, marked, tagOf, Elements(OpenAfter(tags, |tags|))) &&
      Opened(tags, n, arena, stack, tagOf)
    requires OnStack(marked, stack)
    ensures (exists j {:trigger stack[j]} ::
      0 <= j < |stack| && !marked[stack[j]].unclosed && marked[stack[j]].kind == kind) <==>
            (exists i: nat :: i in OpenAfter(tags, n) && !NeverClosed(tags, i) && tags[i].kind == kind)
  {
    var open := OpenAfter(tags, n);
    OpensAscend(tags, n);
    if j :| 0 <= j < |stack| && !marked[stack[j]].unclosed && marked[stack[j]].kind == kind {
      assert tagOf[stack[j]] == open[j] && open[j] in open;
    }
    if i: nat :| i in open && !NeverClosed(tags, i) && tags[i].kind == kind {
      var j :| 0 <= j < |open| && open[j] == i;
      assert tagOf[stack[j]] == i &&
        marked[stack[j]] == arena[stack[j]].(unclosed := tagOf[stack[j]] in Elements(OpenAfter(tags, |tags|)));
    }
  }

  /** Adds text to the innermost open tag. */
  method AddText(ghost tags: seq<Found>, ghost n: nat, arena: Arena, root: seq<Item>, stack: seq<nat>,
      ghost marked: Arena, ghost tagOf: seq<nat>, text: string, ghost read: seq<Event>, ghost before: seq<Glyph>)
    returns (arena': Arena, root': seq<Item>, ghost marked': Arena)
    requires n <= |tags| && Parsed(tags, n, arena, root, stack, marked, tagOf, read, before)
    ensures Parsed(tags, n, arena', root', stack, marked', tagOf, read + [Piece(text)],
      before + Style(text, Around(tags, n)))
  {
    arena', root', marked' := PutArena(arena, stack, Text(text)), PutRoot(root, stack, Text(text)),
      PutArena(marked, stack, Text(text));
    KindsAreAround(tags, n, arena, stack, marked, tagOf);
    PutText(marked, root, stack, text);
    TextIsRead(marked, root, stack, text);
    PutFlags(arena, marked, tagOf, Elements(OpenAfter(tags, |tags|)), stack, Text(text));
    StillOpened(tags, n, arena, stack, tagOf, Text(text));
  }

  /** Opens a tag inside the innermost open one. */
  method OpenTag(tags: seq<Found>, n: nat, arena: Arena, root: seq<Item>, stack: seq<nat>, ghost marked: Arena,
      ghost tagOf: seq<nat>, ghost read: seq<Event>, ghost before: seq<Glyph>)
    returns (arena': Arena, root': seq<Item>, stack': seq<nat>, ghost marked': Arena, ghost tagOf': seq<nat>)
    requires n < |tags| && !tags[n].closing && Parsed(tags, n, arena, root, stack, marked, tagOf, read, before)
    ensures Parsed(tags, n + 1, arena', root', stack', marked', tagOf', read + EventOf(tags, n),
      before + LiteralStyle(tags, n))
  {
    ghost var literal := Elements(OpenAfter(tags, |tags|));
    var id := |arena|;
    var mark := ParsedMark(tags[n].kind, tags[n].written, [], false);
    ghost var flagged := mark.(unclosed := n in literal);
    arena', root' := PutArena(arena + [mark], stack, Mark(id)), PutRoot(root, stack, Mark(id));
    marked' := PutArena(marked + [flagged], stack, Mark(id));
    stack', tagOf' := stack + [id], tagOf + [n];
    KindsAreAround(tags, n, arena, stack, marked, tagOf);
    PutTag(marked, root, stack, flagged);
    TagIsRead(marked, root, stack, flagged);
    NewFlags(arena, marked, tagOf, literal, mark, n);
    PutFlags(arena + [mark], marked + [flagged], tagOf', literal, stack, Mark(id));
    OneOpened(tags, n, arena, stack, tagOf, mark);
  }

  /** Closes the innermost open tag if it is of the same kind; otherwise the closing tag is dropped. */
  method CloseOne(tags: seq<Found>, n: nat, arena: Arena, ghost root: seq<Item>, stack: seq<nat>, ghost marked: Arena,
      ghost tagOf: seq<nat>, ghost read: seq<Event>, ghost before: seq<Glyph>)
    returns (stack': seq<nat>)
    requires n < |tags| && tags[n].closing && Parsed(tags, n, arena, root, stack, marked, tagOf, read, before)
    ensures Parsed(tags, n + 1, arena, root, stack', marked, tagOf, read + EventOf(tags, n), before)
  {
    stack' := stack;
    OneClosed(tags, n, arena, stack, tagOf);
    CloserEvent(tags, n, arena, stack, marked, tagOf);
    if stack != [] && arena[stack[|stack| - 1]].kind == tags[n].kind {
      CloseTag(marked, root, stack);
      stack' := stack[..|stack| - 1];
      EndIsRead(marked, root, stack, stack');
    }
  }

  lemma {:induction false} ClosersAreNoText(tags: seq<Found>, n: nat)
    requires n < |tags| && tags[n].closing
    ensures LiteralStyle(tags, n) == []
  {
    OpensAscend(tags, |tags|);
  }

  /** The text before a tag, and the tag. */
  method ReadOne(tags: seq<Found>, n: nat, arena: Arena, root: seq<Item>, stack: seq<nat>, ghost marked: Arena,
      ghost tagOf: seq<nat>)
    returns (arena': Arena, root': seq<Item>, stack': seq<nat>, ghost marked': Arena, ghost tagOf': seq<nat>)
    requires n < |tags| && Parsed(tags, n, arena, root, stack, marked, tagOf, TagsRead(tags, n), KeptStyle(tags, n))
    ensures Parsed(tags, n + 1, arena', root', stack', marked', tagOf', TagsRead(tags, n + 1), KeptStyle(tags, n + 1))
  {
    ghost var read, before := TagsRead(tags, n), KeptStyle(tags, n);
    arena', root', marked' := AddText(tags, n, arena, root, stack, marked, tagOf, tags[n].lead, read, before);
    stack', tagOf' := stack, tagOf;
    read, before := read + [Piece(tags[n].lead)], before + Style(tags[n].lead, Around(tags, n));
    if !tags[n].closing {
      arena', root', stack', marked', tagOf' := OpenTag(tags, n, arena', root', stack', marked', tagOf', read, before);
    } else {
      stack' := CloseOne(tags, n, arena', root', stack', marked', tagOf', read, before);
      ClosersAreNoText(tags, n);
      assert before + [] == before;
    }
  }

  lemma {:induction false} NothingAroundTheEnd(tags: seq<Found>)
    ensures Around(tags, |tags|) == {}
  {
  }

  /** Marks the tags that are still open. */
  method MarkUnclosed(arena: Arena, stack: seq<nat>, ghost marked: Arena, ghost tagOf: seq<nat>,
      ghost literal: set<nat>, ghost tags: seq<Found>) returns (arena': Arena)
    requires Flags(arena, marked, tagOf, literal) && Opened(tags, |tags|, arena, stack, tagOf) &&
      literal == Elements(OpenAfter(tags, |tags|))
    ensures arena' == marked
  {
    arena' := arena;
    for k := 0 to |stack|
      invariant |arena'| == |arena|
      invariant forall id {:trigger arena'[id]} ::
        0 <= id < |arena| ==> arena'[id] == arena[id].(unclosed := id in stack[..k])
    {
      arena' := arena'[stack[k] := arena'[stack[k]].(unclosed := true)];
      assert stack[..k + 1] == stack[..k] + [stack[k]];
    }
    forall id | 0 <= id < |arena| ensures arena'[id] == marked[id] {
      StaysOpen(tags, arena, stack, tagOf, id);
      assert stack[..|stack|] == stack;
    }
  }

  lemma {:induction false} StaysOpen(tags: seq<Found>, arena: Arena, stack: seq<nat>, tagOf: seq<nat>, id: nat)
    requires Opened(tags, |tags|, arena, stack, tagOf) && id < |arena|
    ensures id in stack <==> tagOf[id] in Elements(OpenAfter(tags, |tags|))
  {
    var open := OpenAfter(tags, |tags|);
    if id in stack {
      var k :| 0 <= k < |stack| && stack[k] == id;
      assert tagOf[stack[k]] == open[k] && open[k] in open;
    }
    if tagOf[id] in open {
      var k :| 0 <= k < |open| && open[k] == tagOf[id];
      assert tagOf[stack[k]] == tagOf[id];
    }
  }

  lemma {:induction false} NothingParsed(tags: seq<Found>)
    ensures Parsed(tags, 0, [], [], [], [], [], TagsRead(tags, 0), KeptStyle(tags, 0))
  {
    assert Parsing([], [], []);
    assert Befores([], [], []) == [] && Content([], [], []) == [];
  }

  /** The text behind the last tag, and which tags are text after all. */
  method ReadTail(ghost tags: seq<Found>, tail: string, arena: Arena, root: seq<Item>, stack: seq<nat>,
      ghost marked: Arena, ghost tagOf: seq<nat>) returns (arena': Arena, root': seq<Item>)
    requires Parsed(tags, |tags|, arena, root, stack, marked, tagOf, TagsRead(tags, |tags|), KeptStyle(tags, |tags|))
    ensures WellFormed(arena') && Below(arena', root', -1)
    ensures Events(Trees(arena', root')) == TagsRead(tags, |tags|) + [Piece(tail)]
    ensures StyleOf(Trees(arena', root'), {}) == KeptStyle(tags, |tags|) + Style(tail, {})
  {
    ghost var read, before := TagsRead(tags, |tags|), KeptStyle(tags, |tags|);
    ghost var marked';
    NothingAroundTheEnd(tags);
    arena', root', marked' := AddText(tags, |tags|, arena, root, stack, marked, tagOf, tail, read, before);
    AllTagsRead(tags, arena', root', stack, marked', tagOf, read + [Piece(tail)], before + Style(tail, {}));
    arena' := MarkUnclosed(arena', stack, marked', tagOf, Elements(OpenAfter(tags, |tags|)), tags);
  }

  /**
   * Reads the tags into a tree. From its start to its end it is the text with its tags in order: those that are paired
   * begin and end, and of the others the opening ones are text. Around each character are the closed pairs.
   */
  method ParseMarks(tags: seq<Found>, tail: string) returns (arena: Arena, root: seq<Item>)
    ensures WellFormed(arena) && Below(arena, root, -1)
    ensures Events(Trees(arena, root)) == TagsRead(tags, |tags|) + [Piece(tail)]
    ensures StyleOf(Trees(arena, root), {}) == KeptStyle(tags, |tags|) + Style(tail, {})
  {
    arena, root := [], [];
    var stack: seq<nat> := [];
    ghost var marked: Arena, tagOf: seq<nat> := [], [];
    NothingParsed(tags);
    for n := 0 to |tags|
      invariant Parsed(tags, n, arena, root, stack, marked, tagOf, TagsRead(tags, n), KeptStyle(tags, n))
    {
      arena, root, stack, marked, tagOf := ReadOne(tags, n, arena, root, stack, marked, tagOf);
    }
    arena, root := ReadTail(tags, tail, arena, root, stack, marked, tagOf);
  }
}
