/** One pass over a text that finds all citation brackets, against a scan from each bracket. */
module CitationBrackets {
  import opened CitationItems
  import opened Wrappers

  // ----- Which bracket closes which

  predicate Opens(text: Text, i: nat)
    requires i < |text|
  {
    text[i].OpenBracket? && !Escaped(text, i)
  }

  predicate Shuts(text: Text, i: nat)
    requires i < |text|
  {
    text[i].CloseBracket? && !Escaped(text, i)
  }

  function Pop(stack: seq<nat>): seq<nat> { if stack == [] then [] else stack[..|stack| - 1] }

  /** The brackets that are open before `i`, innermost last. */
  ghost function OpenBefore(text: Text, i: nat): seq<nat>
    requires i <= |text|
  {
    if i == 0 then []
    else
      var open := OpenBefore(text, i - 1);
      if Opens(text, i - 1) then open + [i - 1] else if Shuts(text, i - 1) then Pop(open) else open
  }

  ghost predicate Closes(text: Text, open: nat, close: nat) {
    close < |text| && Shuts(text, close) &&
    var stack := OpenBefore(text, close);
    stack != [] && stack[|stack| - 1] == open
  }

  /** Positions of opening brackets below `i`, in order. */
  ghost predicate IsStack(text: Text, s: seq<nat>, i: nat) {
    && (forall j, k :: 0 <= j < k < |s| ==> s[j] < s[k])
    && forall k {:trigger s[k]} :: 0 <= k < |s| ==> s[k] < i && s[k] < |text| && Opens(text, s[k])
  }

  lemma {:induction false} OpensAscend(text: Text, i: nat)
    requires i <= |text|
    ensures IsStack(text, OpenBefore(text, i), i)
  {
    if i > 0 {
      OpensAscend(text, i - 1);
      PopIsStack(text, OpenBefore(text, i - 1), i - 1);
      if Opens(text, i - 1) { PushIsStack(text, OpenBefore(text, i - 1), i - 1); }
    }
  }

  lemma {:induction false} PopIsStack(text: Text, s: seq<nat>, i: nat)
    requires IsStack(text, s, i)
    ensures IsStack(text, s, i + 1) && IsStack(text, Pop(s), i + 1)
  {
    if s != [] {
      var p := s[..|s| - 1];
      forall k {:trigger p[k]} | 0 <= k < |p| ensures p[k] == s[k] {}
    }
  }

  lemma {:induction false} PushIsStack(text: Text, s: seq<nat>, i: nat)
    requires i < |text| && IsStack(text, s, i) && Opens(text, i)
    ensures IsStack(text, s + [i], i + 1)
  {
    forall k | 0 <= k < |s| ensures (s + [i])[k] == s[k] {}
  }

  lemma {:induction false} ClosesLater(text: Text, open: nat, close: nat)
    requires Closes(text, open, close)
    ensures open < close && Opens(text, open)
  {
    OpensAscend(text, close);
    var s := OpenBefore(text, close);
    assert s[|s| - 1] == open;
  }

  /** An open bracket stays at its height until it closes. */
  lemma {:induction false} StaysOpen(text: Text, i: nat, j: nat, h: nat)
    requires i <= j <= |text| && h < |OpenBefore(text, j)| && OpenBefore(text, j)[h] < i
    ensures h < |OpenBefore(text, i)| && OpenBefore(text, i)[h] == OpenBefore(text, j)[h]
    decreases j - i
  {
    if i < j { StaysOpen(text, i, j - 1, h); }
  }

  /** A bracket closes only once. */
  lemma {:induction false} ClosesOnce(text: Text, open: nat, c: nat, d: nat)
    requires c < d && Closes(text, open, d)
    ensures !Closes(text, open, c)
  {
    if Closes(text, open, c) {
      OpensAscend(text, c);
      ClosesLater(text, open, c);
      var h := |OpenBefore(text, d)| - 1;
      assert OpenBefore(text, d)[h] == open;
      StaysOpen(text, c, d, h);
      StaysOpen(text, c + 1, d, h);
    }
  }

  // ----- The scan from one bracket

  /** The bracket that closes the one at `open`, if it does so before `open + reach`. */
  method CloseBracket(text: Text, open: nat, reach: nat) returns (r: Option<nat>)
    requires open < |text| && Opens(text, open)
    ensures r.Some? ==> Closes(text, open, r.value) && r.value < open + reach
    ensures r.None? ==> forall c: nat :: Closes(text, open, c) ==> c >= open + reach
  {
    var end := if open + reach < |text| then open + reach else |text|;
    var depth: nat := 0;
    var i := open;
    ghost var h := |OpenBefore(text, open)|;
    forall c: nat | c < open && c < |text| ensures !Closes(text, open, c) {
      if Closes(text, open, c) { ClosesLater(text, open, c); }
    }
    while i < end
      invariant open <= i && (i <= |text| ==> !Escaped(text, i))
      invariant i == open ==> depth == 0
      invariant open < i <= |text| ==> depth > 0 && |OpenBefore(text, i)| == h + depth && OpenBefore(text, i)[h] == open
      invariant forall c: nat :: c < i && c < |text| ==> !Closes(text, open, c)
      decreases |text| - i
    {
      if text[i].Backslash? {
        i := i + 2;
      } else if text[i].OpenBracket? {
        depth := depth + 1;
        i := i + 1;
      } else if text[i].CloseBracket? {
        OpensAscend(text, i);
        depth := depth - 1;
        if depth == 0 { return Some(i); }
        i := i + 1;
      } else {
        i := i + 1;
      }
    }
    return None;
  }

  // ----- Items between separators

  /** The last `;` before `i`. */
  function LastSemicolon(text: Text, i: nat): (r: Option<nat>)
    requires i <= |text|
    ensures r.Some? ==> r.value < i && text[r.value].Semicolon? && forall k :: r.value < k < i ==> !text[k].Semicolon?
    ensures r.None? ==> forall k :: 0 <= k < i ==> !text[k].Semicolon?
  {
    if i == 0 then None else if text[i - 1].Semicolon? then Some(i - 1) else LastSemicolon(text, i - 1)
  }

  function After(at: Option<nat>): nat { if at.Some? then at.value + 1 else 0 }

  /** Whether the item between two positions is a citation. */
  type Judge = (nat, nat) -> bool

  /** All items between two positions are citations. */
  ghost predicate ItemsValid(text: Text, cites: Judge, from: nat, till: nat)
    requires from <= till <= |text|
    decreases till
  {
    var last := LastSemicolon(text, till);
    if last.None? || last.value < from then cites(from, till)
    else ItemsValid(text, cites, from, last.value) && cites(last.value + 1, till)
  }

  /** The complete items before `i`, each ended by a `;`, that are no citations. */
  ghost function InvalidItems(text: Text, cites: Judge, i: nat): nat
    requires i <= |text|
  {
    if i == 0 then 0
    else InvalidItems(text, cites, i - 1) + if text[i - 1].Semicolon? &&
      !cites(After(LastSemicolon(text, i - 1)), i - 1) then 1 else 0
  }

  lemma {:induction false} InvalidItemsGrow(text: Text, cites: Judge, i: nat, j: nat)
    requires i <= j <= |text|
    ensures InvalidItems(text, cites, i) <= InvalidItems(text, cites, j)
    ensures (forall k :: i <= k < j ==> !text[k].Semicolon?) ==>
      InvalidItems(text, cites, i) == InvalidItems(text, cites, j)
    decreases j - i
  {
    if i < j { InvalidItemsGrow(text, cites, i, j - 1); }
  }

  ghost function FirstSemicolon(text: Text, from: nat, i: nat): (r: Option<nat>)
    requires from <= i <= |text|
    ensures r.Some? ==>
      from <= r.value < i && text[r.value].Semicolon? && forall k :: from <= k < r.value ==> !text[k].Semicolon?
    ensures r.None? ==> forall k :: from <= k < i ==> !text[k].Semicolon?
  {
    if from == i then None
    else
      var first := FirstSemicolon(text, from, i - 1);
      if first.Some? then first else if text[i - 1].Semicolon? then Some(i - 1) else None
  }

  /** The first item is a citation, and since it ended no complete item turned out to be none. */
  ghost predicate ValidSince(text: Text, cites: Judge, from: nat, till: nat)
    requires from <= till <= |text|
  {
    var first := FirstSemicolon(text, from, till);
    first.Some? ==>
      cites(from, first.value) && InvalidItems(text, cites, till) == InvalidItems(text, cites, first.value + 1)
  }

  function LastStart(text: Text, from: nat, till: nat): (r: nat)
    requires from <= till <= |text|
    ensures from <= r <= till
  {
    var last := LastSemicolon(text, till);
    if last.Some? && last.value >= from then last.value + 1 else from
  }

  /** Only the first and the last item need a look of their own; the count tells about those in between. */
  lemma {:induction false} ItemsValidByCount(text: Text, cites: Judge, from: nat, till: nat)
    requires from <= till <= |text|
    ensures ItemsValid(text, cites, from, till) <==>
      ValidSince(text, cites, from, till) && cites(LastStart(text, from, till), till)
    decreases till
  {
    var first, last := FirstSemicolon(text, from, till), LastSemicolon(text, till);
    if first.Some? {
      var s := last.value;
      ItemsValidByCount(text, cites, from, s);
      InvalidItemsGrow(text, cites, s + 1, till);
      if first.value < s { CountGrows(text, cites, from, first.value, s, till); } else { NoneBefore(text, from, s); }
    }
  }

  lemma {:induction false} NoneBefore(text: Text, from: nat, s: nat)
    requires from <= s <= |text| && forall k :: from <= k < s ==> !text[k].Semicolon?
    ensures FirstSemicolon(text, from, s).None? && LastStart(text, from, s) == from
  {
  }

  /** Between the first `;` and the last one the count tells whether all items are citations. */
  lemma {:induction false} CountGrows(text: Text, cites: Judge, from: nat, f: nat, s: nat, till: nat)
    requires from <= f < s < till <= |text| && FirstSemicolon(text, from, till) == Some(f) &&
      LastSemicolon(text, till) == Some(s)
    requires InvalidItems(text, cites, s + 1) == InvalidItems(text, cites, till)
    ensures ValidSince(text, cites, from, till) <==>
      ValidSince(text, cites, from, s) && cites(LastStart(text, from, s), s)
  {
    var start := LastStart(text, from, s);
    assert FirstSemicolon(text, from, s) == Some(f) by { FirstStays(text, from, s, till); }
    assert InvalidItems(text, cites, till) == InvalidItems(text, cites, s) + if cites(start, s) then 0 else 1 by {
      StartsBehindLast(text, from, f, s);
      CountsUp(text, cites, s);
    }
    InvalidItemsGrow(text, cites, f + 1, s);
  }

  lemma {:induction false} StartsBehindLast(text: Text, from: nat, f: nat, s: nat)
    requires from <= f < s <= |text| && text[f].Semicolon?
    ensures LastStart(text, from, s) == After(LastSemicolon(text, s))
  {
  }

  lemma {:induction false} CountsUp(text: Text, cites: Judge, s: nat)
    requires s < |text| && text[s].Semicolon?
    ensures InvalidItems(text, cites, s + 1) == InvalidItems(text, cites, s) +
      if cites(After(LastSemicolon(text, s)), s) then 0 else 1
  {
  }

  lemma {:induction false} FirstStays(text: Text, from: nat, i: nat, j: nat)
    requires from <= i <= j <= |text| && FirstSemicolon(text, from, j).Some? && FirstSemicolon(text, from, j).value < i
    ensures FirstSemicolon(text, from, i) == FirstSemicolon(text, from, j)
  {
  }

  // ----- What the pass remembers

  ghost function LastKey(text: Text, i: nat): (r: Option<(nat, nat)>)
    requires i <= |text|
    ensures r.Some? ==>
      r.value.0 < i && KeyAt(text, r.value.0) == Some(r.value.1) &&
      forall k :: r.value.0 < k < i ==> KeyAt(text, k).None?
    ensures r.None? ==> forall k :: 0 <= k < i ==> KeyAt(text, k).None?
  {
    if i == 0 then None
    else if KeyAt(text, i - 1).Some? then Some((i - 1, KeyAt(text, i - 1).value))
    else LastKey(text, i - 1)
  }

  predicate HasCommaKey(text: Text, at: nat)
    requires at < |text|
  {
    KeyAt(text, at).Some? && CommaAt(text, KeyAt(text, at).value)
  }

  ghost function LastCommaKey(text: Text, i: nat): (r: Option<nat>)
    requires i <= |text|
    ensures r.Some? ==>
      r.value < i && HasCommaKey(text, r.value) && forall k :: r.value < k < i ==> !HasCommaKey(text, k)
    ensures r.None? ==> forall k :: 0 <= k < i ==> !HasCommaKey(text, k)
  {
    if i == 0 then None else if HasCommaKey(text, i - 1) then Some(i - 1) else LastCommaKey(text, i - 1)
  }

  /** Whether the item that starts behind `start` and ends where the content does is a citation. */
  predicate ValidItemAfter(start: Option<nat>, comma: Option<nat>, key: Option<(nat, nat)>, end: nat) {
    || (comma.Some? && (start.None? || comma.value > start.value))
    || (key.Some? && (start.None? || key.value.0 > start.value) && key.value.1 == end)
  }

  /** The last key and the last key before a comma are enough to tell. */
  lemma {:induction false} ValidItemAfterIs(text: Text, start: Option<nat>, i: nat)
    requires After(start) <= i <= |text|
    ensures ValidItemAfter(start, LastCommaKey(text, i), LastKey(text, i), ContentEnd(text, i)) <==>
      ItemValid(text, After(start), i)
  {
    var comma, key, end := LastCommaKey(text, i), LastKey(text, i), ContentEnd(text, i);
    if comma.Some? && comma.value >= After(start) { assert Cites(text, comma.value, end); }
    if key.Some? && key.value.0 >= After(start) && key.value.1 == end { assert Cites(text, key.value.0, end); }
    if at :| After(start) <= at < i && Cites(text, at, end) {
      if HasCommaKey(text, at) {
        assert comma.Some? && comma.value >= at;
      } else {
        assert key.Some? && key.value.0 >= at;
        if key.value.0 > at { LaterKeyIsContent(text, at, key.value.0, i); }
      }
    }
  }

  /** A later `@` lies behind the whole key of an earlier one, so that key does not end the content. */
  lemma {:induction false} LaterKeyIsContent(text: Text, at: nat, later: nat, i: nat)
    requires at < later < i <= |text| && KeyAt(text, at).Some? && KeyAt(text, later).Some?
    ensures KeyAt(text, at).value < ContentEnd(text, i)
  {
    assert !text[later].InKey() && !text[later].Space?;
  }

  /** The place of the separator an item starts behind. */
  function StartBefore(from: nat): Option<nat> { if from == 0 then None else Some(from - 1) }

  /** What is remembered at `i` tells of every item that ends there whether it is a citation. */
  ghost predicate Tells(text: Text, cites: Judge, i: nat)
    requires i <= |text|
  {
    forall from: nat {:trigger cites(from, i)} :: from <= i ==>
      (cites(from, i) <==>
        ValidItemAfter(StartBefore(from), LastCommaKey(text, i), LastKey(text, i), ContentEnd(text, i)))
  }

  ghost predicate AlwaysTells(text: Text, cites: Judge) {
    forall i: nat {:trigger Tells(text, cites, i)} :: i <= |text| ==> Tells(text, cites, i)
  }

  ghost function ValidIn(text: Text): Judge {
    (from: nat, till: nat) => from <= till <= |text| && ItemValid(text, from, till)
  }

  lemma {:induction false} KeysTell(text: Text)
    ensures AlwaysTells(text, ValidIn(text))
  {
    forall i: nat {:trigger Tells(text, ValidIn(text), i)} | i <= |text| ensures Tells(text, ValidIn(text), i) {
      forall from: nat {:trigger ValidIn(text)(from, i)} | from <= i
        ensures ValidIn(text)(from, i) <==>
          ValidItemAfter(StartBefore(from), LastCommaKey(text, i), LastKey(text, i), ContentEnd(text, i))
      {
        ValidItemAfterIs(text, StartBefore(from), i);
      }
    }
  }

  // ----- The pass

  /** An open bracket, and what was found when its first item ended. */
  datatype Entry = Entry(open: nat, first: Option<(bool, nat)>)

  ghost function FirstOf(text: Text, cites: Judge, open: nat, i: nat): Option<(bool, nat)>
    requires open < i <= |text|
  {
    var first := FirstSemicolon(text, open + 1, i);
    if first.None? then None else Some((cites(open + 1, first.value), InvalidItems(text, cites, first.value + 1)))
  }

  ghost predicate EntryIs(text: Text, cites: Judge, entry: Entry, open: nat, i: nat) {
    entry.open == open && open < i <= |text| && entry.first == FirstOf(text, cites, open, i)
  }

  ghost predicate StackIs(text: Text, cites: Judge, stack: seq<Entry>, i: nat)
    requires i <= |text|
  {
    var open := OpenBefore(text, i);
    |stack| == |open| && forall k {:trigger stack[k]} :: 0 <= k < |stack| ==> EntryIs(text, cites, stack[k], open[k], i)
  }

  /** A citation bracket pair. */
  ghost predicate Pair(text: Text, cites: Judge, open: nat, close: nat) {
    Closes(text, open, close) && open < close && ItemsValid(text, cites, open + 1, close)
  }

  ghost predicate PairsAre(text: Text, cites: Judge, pairs: map<nat, nat>, i: nat) {
    forall open: nat, close: nat {:trigger Pair(text, cites, open, close)} ::
      (open in pairs && pairs[open] == close) <==> (close < i && Pair(text, cites, open, close))
  }

  method NoteKey(text: Text, i: nat, escaped: bool, key: Option<(nat, nat)>, commaKey: Option<nat>)
    returns (key': Option<(nat, nat)>, commaKey': Option<nat>)
    requires i < |text| && escaped == Escaped(text, i) && key == LastKey(text, i) && commaKey == LastCommaKey(text, i)
    ensures key' == LastKey(text, i + 1) && commaKey' == LastCommaKey(text, i + 1)
  {
    key', commaKey' := key, commaKey;
    if text[i].At? && !escaped {
      var end := ParseKey(text, i + 1);
      if end.Some? {
        key' := Some((i, end.value));
        if end.value < |text| && text[end.value].Comma? { commaKey' := Some(i); }
      }
    }
  }

  function Mark(entry: Entry, valid: bool, invalid: nat): Entry {
    if entry.first.Some? then entry else Entry(entry.open, Some((valid, invalid)))
  }

  /** Items have ended for the inner brackets only if they have for the outer ones. */
  ghost predicate OuterFirst(stack: seq<Entry>) {
    forall j, k :: 0 <= j < k < |stack| && stack[k].first.Some? ==> stack[j].first.Some?
  }

  /** At a `;` the first item of every bracket that has none yet ends. */
  method EndFirstItems(stack: seq<Entry>, commaKey: Option<nat>, key: Option<(nat, nat)>, contentEnd: nat,
      invalid: nat) returns (marked: seq<Entry>)
    requires OuterFirst(stack)
    ensures |marked| == |stack|
    ensures forall k ::
      0 <= k < |stack| ==>
      marked[k] == Mark(stack[k], ValidItemAfter(Some(stack[k].open), commaKey, key, contentEnd), invalid)
  {
    marked := stack;
    var n := |stack|;
    while n > 0 && stack[n - 1].first.None?
      invariant 0 <= n <= |stack| == |marked| && forall k :: 0 <= k < n ==> marked[k] == stack[k]
      invariant forall k ::
        n <= k < |stack| ==>
        marked[k] == Mark(stack[k], ValidItemAfter(Some(stack[k].open), commaKey, key, contentEnd), invalid)
    {
      n := n - 1;
      marked := marked[n := Mark(stack[n], ValidItemAfter(Some(stack[n].open), commaKey, key, contentEnd), invalid)];
    }
  }

  lemma {:induction false} StackHasOuterFirst(text: Text, cites: Judge, stack: seq<Entry>, i: nat)
    requires i <= |text| && StackIs(text, cites, stack, i)
    ensures OuterFirst(stack)
  {
    OpensAscend(text, i);
    forall j, k | 0 <= j < k < |stack| && stack[k].first.Some? ensures stack[j].first.Some? {
      assert EntryIs(text, cites, stack[j], OpenBefore(text, i)[j], i) &&
        EntryIs(text, cites, stack[k], OpenBefore(text, i)[k], i);
    }
  }

  lemma {:induction false} EntryMarked(text: Text, cites: Judge, i: nat, entry: Entry, open: nat, invalid: nat)
    requires i < |text| && text[i].Semicolon? && EntryIs(text, cites, entry, open, i) &&
      invalid == InvalidItems(text, cites, i + 1)
    ensures EntryIs(text, cites, Mark(entry, cites(open + 1, i), invalid), open, i + 1)
  {
    assert FirstSemicolon(text, open + 1, i + 1) == if FirstSemicolon(text, open + 1, i).Some?
      then FirstSemicolon(text, open + 1, i) else Some(i);
  }

  lemma {:induction false} StackMarked(text: Text, cites: Judge, i: nat, stack: seq<Entry>, marked: seq<Entry>,
      invalid: nat)
    requires i < |text| && text[i].Semicolon? && StackIs(text, cites, stack, i) &&
      invalid == InvalidItems(text, cites, i + 1) && |marked| == |stack|
    requires forall k :: 0 <= k < |stack| ==> marked[k] == Mark(stack[k], cites(stack[k].open + 1, i), invalid)
    ensures StackIs(text, cites, marked, i + 1)
  {
    forall k {:trigger marked[k]} | 0 <= k < |stack|
      ensures EntryIs(text, cites, marked[k], OpenBefore(text, i)[k], i + 1) {
      EntryMarked(text, cites, i, stack[k], OpenBefore(text, i)[k], invalid);
    }
  }

  /** A `;` ends items. */
  method Separate(text: Text, ghost cites: Judge, i: nat, stack: seq<Entry>, semicolon: Option<nat>,
      commaKey: Option<nat>, key: Option<(nat, nat)>, contentEnd: nat, invalid: nat)
    returns (stack': seq<Entry>, invalid': nat)
    requires i < |text| && text[i].Semicolon? && StackIs(text, cites, stack, i) && Tells(text, cites, i)
    requires semicolon == LastSemicolon(text, i) && key == LastKey(text, i) && commaKey == LastCommaKey(text, i)
    requires contentEnd == ContentEnd(text, i) && invalid == InvalidItems(text, cites, i)
    ensures StackIs(text, cites, stack', i + 1) && invalid' == InvalidItems(text, cites, i + 1)
  {
    assert StartBefore(After(semicolon)) == semicolon;
    assert cites(After(semicolon), i) <==> ValidItemAfter(semicolon, commaKey, key, contentEnd);
    invalid' := if ValidItemAfter(semicolon, commaKey, key, contentEnd) then invalid else invalid + 1;
    StackHasOuterFirst(text, cites, stack, i);
    stack' := EndFirstItems(stack, commaKey, key, contentEnd, invalid');
    forall k | 0 <= k < |stack| ensures stack'[k] == Mark(stack[k], cites(stack[k].open + 1, i), invalid') {
      assert EntryIs(text, cites, stack[k], OpenBefore(text, i)[k], i);
      assert StartBefore(stack[k].open + 1) == Some(stack[k].open);
    }
    StackMarked(text, cites, i, stack, stack', invalid');
  }

  lemma {:induction false} StackWaits(text: Text, cites: Judge, i: nat, stack: seq<Entry>)
    requires i < |text| && !text[i].Semicolon? && StackIs(text, cites, stack, i)
    ensures forall k {:trigger stack[k]} ::
      0 <= k < |stack| ==> EntryIs(text, cites, stack[k], OpenBefore(text, i)[k], i + 1)
  {
    forall k {:trigger stack[k]} | 0 <= k < |stack|
      ensures EntryIs(text, cites, stack[k], OpenBefore(text, i)[k], i + 1) {
      assert EntryIs(text, cites, stack[k], OpenBefore(text, i)[k], i);
    }
  }

  /** The stack behind a character that is no `;`. */
  lemma {:induction false} StackMoves(text: Text, cites: Judge, i: nat, stack: seq<Entry>)
    requires i < |text| && !text[i].Semicolon? && StackIs(text, cites, stack, i)
    ensures StackIs(text, cites, if Opens(text, i)
      then stack + [Entry(i, None)] else if Shuts(text, i) && stack != [] then stack[..|stack| - 1] else stack, i + 1)
  {
    StackWaits(text, cites, i, stack);
    if Opens(text, i) {
      var pushed := stack + [Entry(i, None)];
      forall k {:trigger pushed[k]} | 0 <= k < |pushed|
        ensures EntryIs(text, cites, pushed[k], (OpenBefore(text, i) + [i])[k], i + 1) {
        assert k < |stack| ==> pushed[k] == stack[k];
      }
    } else if Shuts(text, i) && stack != [] {
      var popped := stack[..|stack| - 1];
      forall k {:trigger popped[k]} | 0 <= k < |popped|
        ensures EntryIs(text, cites, popped[k], Pop(OpenBefore(text, i))[k], i + 1) {
        assert popped[k] == stack[k];
      }
    }
  }

  function StartOf(entry: Entry, semicolon: Option<nat>): nat {
    if semicolon.Some? && semicolon.value > entry.open then semicolon.value else entry.open
  }

  /** Whether the items between a bracket and the one that closes it are all citations, from what was remembered. */
  predicate AllCite(entry: Entry, semicolon: Option<nat>, commaKey: Option<nat>, key: Option<(nat, nat)>,
      contentEnd: nat, invalid: nat) {
    && ValidItemAfter(Some(StartOf(entry, semicolon)), commaKey, key, contentEnd)
    && (entry.first.None? || (entry.first.value.0 && entry.first.value.1 == invalid))
  }

  lemma {:induction false} FirstTells(text: Text, cites: Judge, entry: Entry, i: nat) returns (good: bool)
    requires EntryIs(text, cites, entry, entry.open, i)
    ensures good <==> entry.first.None? || (entry.first.value.0 && entry.first.value.1 == InvalidItems(text, cites, i))
    ensures good <==> ValidSince(text, cites, entry.open + 1, i)
  {
    good := ValidSince(text, cites, entry.open + 1, i);
  }

  lemma {:induction false} LastTells(text: Text, cites: Judge, entry: Entry, i: nat) returns (valid: bool)
    requires entry.open < i < |text| && text[entry.open].OpenBracket? && Tells(text, cites, i)
    ensures valid <==>
      ValidItemAfter(Some(StartOf(entry, LastSemicolon(text, i))), LastCommaKey(text, i), LastKey(text, i),
      ContentEnd(text, i))
    ensures valid <==> cites(LastStart(text, entry.open + 1, i), i)
  {
    var from, last := entry.open + 1, LastSemicolon(text, i);
    assert StartOf(entry, last) + 1 == LastStart(text, from, i) by { assert last.Some? ==> last.value != entry.open; }
    assert StartBefore(LastStart(text, from, i)) == Some(StartOf(entry, last));
    valid := cites(LastStart(text, from, i), i);
  }

  lemma {:induction false} Both(entry: Entry, semicolon: Option<nat>, commaKey: Option<nat>, key: Option<(nat, nat)>,
      contentEnd: nat, invalid: nat, good: bool, valid: bool)
    requires good <==> entry.first.None? || (entry.first.value.0 && entry.first.value.1 == invalid)
    requires valid <==> ValidItemAfter(Some(StartOf(entry, semicolon)), commaKey, key, contentEnd)
    ensures AllCite(entry, semicolon, commaKey, key, contentEnd, invalid) <==> good && valid
  {
  }

  lemma {:induction false} SinceTells(text: Text, cites: Judge, entry: Entry, i: nat, invalid: nat, valid: bool)
      returns (good: bool)
    requires EntryIs(text, cites, entry, entry.open, i) && invalid == InvalidItems(text, cites, i)
    requires valid <==> cites(LastStart(text, entry.open + 1, i), i)
    ensures good <==> entry.first.None? || (entry.first.value.0 && entry.first.value.1 == invalid)
    ensures good && valid <==> ItemsValid(text, cites, entry.open + 1, i)
  {
    good := FirstTells(text, cites, entry, i);
    BothTell(text, cites, entry.open + 1, i, good, valid);
  }

  lemma {:induction false} BothTell(text: Text, cites: Judge, from: nat, i: nat, good: bool, valid: bool)
    requires from <= i <= |text| && (good <==> ValidSince(text, cites, from, i)) &&
      (valid <==> cites(LastStart(text, from, i), i))
    ensures good && valid <==> ItemsValid(text, cites, from, i)
  {
    ItemsValidByCount(text, cites, from, i);
  }

  lemma {:induction false} NothingCloses(text: Text, cites: Judge, pairs: map<nat, nat>, i: nat)
    requires i < |text| && PairsAre(text, cites, pairs, i) && (!Shuts(text, i) || OpenBefore(text, i) == [])
    ensures PairsAre(text, cites, pairs, i + 1)
  {
    forall o: nat {:trigger Pair(text, cites, o, i)} ensures !Pair(text, cites, o, i) {
      assert !Closes(text, o, i);
    }
  }

  lemma {:induction false} NotYetPaired(text: Text, cites: Judge, pairs: map<nat, nat>, i: nat, open: nat)
    requires PairsAre(text, cites, pairs, i) && Closes(text, open, i)
    ensures open !in pairs
  {
    if open in pairs {
      assert pairs[open] < i && Pair(text, cites, open, pairs[open]);
      ClosesOnce(text, open, pairs[open], i);
    }
  }

  lemma {:induction false} PairIs(text: Text, cites: Judge, pairs: map<nat, nat>, i: nat, open: nat, close: nat)
    requires PairsAre(text, cites, pairs, i)
    ensures (open in pairs && pairs[open] == close) <==> (close < i && Pair(text, cites, open, close))
  {
    if Pair(text, cites, open, close) {
      assert open in pairs && pairs[open] == close <==> close < i;
    } else {
      assert !(open in pairs && pairs[open] == close);
    }
  }

  lemma {:induction false} NotClosedBefore(text: Text, open: nat, c: nat, i: nat)
    requires Closes(text, open, i) && c < i
    ensures !Closes(text, open, c)
  {
    if Closes(text, open, c) { ClosesOnce(text, open, c, i); }
  }

  lemma {:induction false} OneAtATime(text: Text, o: nat, open: nat, i: nat)
    requires Closes(text, open, i) && o != open
    ensures !Closes(text, o, i)
  {
  }

  lemma {:induction false} OneCloses(text: Text, cites: Judge, pairs: map<nat, nat>, more: map<nat, nat>, i: nat,
      open: nat)
    requires PairsAre(text, cites, pairs, i) && Closes(text, open, i)
    requires more == if Pair(text, cites, open, i) then pairs[open := i] else pairs
    ensures PairsAre(text, cites, more, i + 1)
  {
    NotYetPaired(text, cites, pairs, i, open);
    forall o: nat, c: nat {:trigger Pair(text, cites, o, c)} ensures (o in more && more[o] == c) <==>
      (c < i + 1 && Pair(text, cites, o, c)) {
      PairIs(text, cites, pairs, i, o, c);
      if c < i && o == open { NotClosedBefore(text, open, c, i); }
      if c == i && o != open { OneAtATime(text, o, open, i); }
    }
  }

  /** The decision made at a closing bracket is about the items between the two. */
  lemma {:induction false} AllCiteIs(text: Text, cites: Judge, entry: Entry, i: nat, semicolon: Option<nat>,
      commaKey: Option<nat>, key: Option<(nat, nat)>, contentEnd: nat, invalid: nat)
    requires i < |text| && EntryIs(text, cites, entry, entry.open, i) && text[entry.open].OpenBracket? &&
      Tells(text, cites, i)
    requires semicolon == LastSemicolon(text, i) && key == LastKey(text, i) && commaKey == LastCommaKey(text, i)
    requires contentEnd == ContentEnd(text, i) && invalid == InvalidItems(text, cites, i)
    ensures AllCite(entry, semicolon, commaKey, key, contentEnd, invalid) <==>
      ItemsValid(text, cites, entry.open + 1, i)
  {
    var valid := LastTells(text, cites, entry, i);
    var good := SinceTells(text, cites, entry, i, invalid, valid);
    Both(entry, semicolon, commaKey, key, contentEnd, invalid, good, valid);
  }

  lemma {:induction false} CloseTop(text: Text, cites: Judge, pairs: map<nat, nat>, more: map<nat, nat>,
      stack: seq<Entry>, i: nat)
    requires i < |text| && Shuts(text, i) && StackIs(text, cites, stack, i) && stack != [] &&
      PairsAre(text, cites, pairs, i)
    requires var top := stack[|stack| - 1];
      top.open < i && more == if ItemsValid(text, cites, top.open + 1, i) then pairs[top.open := i] else pairs
    ensures PairsAre(text, cites, more, i + 1)
  {
    var top := stack[|stack| - 1];
    assert EntryIs(text, cites, top, OpenBefore(text, i)[|stack| - 1], i);
    assert Closes(text, top.open, i);
    OneCloses(text, cites, pairs, more, i, top.open);
  }

  lemma {:induction false} TopIs(text: Text, cites: Judge, stack: seq<Entry>, i: nat)
    requires i < |text| && Shuts(text, i) && StackIs(text, cites, stack, i) && stack != []
    ensures var top := stack[|stack| - 1]; EntryIs(text, cites, top, top.open, i) && text[top.open].OpenBracket?
  {
    var top := stack[|stack| - 1];
    assert EntryIs(text, cites, top, OpenBefore(text, i)[|stack| - 1], i);
    ClosesLater(text, top.open, i);
  }

  /** Opens or closes a bracket. */
  method Bracket(text: Text, ghost cites: Judge, i: nat, escaped: bool, stack: seq<Entry>, pairs: map<nat, nat>,
      semicolon: Option<nat>, commaKey: Option<nat>, key: Option<(nat, nat)>, contentEnd: nat, invalid: nat)
    returns (stack': seq<Entry>, pairs': map<nat, nat>)
    requires i < |text| && !text[i].Semicolon? && StackIs(text, cites, stack, i) && PairsAre(text, cites, pairs, i) &&
      Tells(text, cites, i)
    requires escaped == Escaped(text, i) && semicolon == LastSemicolon(text, i) && key == LastKey(text, i) &&
      commaKey == LastCommaKey(text, i)
    requires contentEnd == ContentEnd(text, i) && invalid == InvalidItems(text, cites, i)
    ensures StackIs(text, cites, stack', i + 1) && PairsAre(text, cites, pairs', i + 1)
  {
    stack', pairs' := stack, pairs;
    StackMoves(text, cites, i, stack);
    if !escaped && text[i].CloseBracket? && stack != [] {
      var top := stack[|stack| - 1];
      TopIs(text, cites, stack, i);
      AllCiteIs(text, cites, top, i, semicolon, commaKey, key, contentEnd, invalid);
      if AllCite(top, semicolon, commaKey, key, contentEnd, invalid) { pairs' := pairs[top.open := i]; }
      CloseTop(text, cites, pairs, pairs', stack, i);
      stack' := stack[..|stack| - 1];
    } else {
      if !escaped && text[i].OpenBracket? { stack' := stack + [Entry(i, None)]; }
      NothingCloses(text, cites, pairs, i);
    }
  }

  /** One pass, whatever the keys tell of items. */
  method PairUp(text: Text, ghost cites: Judge) returns (pairs: map<nat, nat>)
    requires AlwaysTells(text, cites)
    ensures PairsAre(text, cites, pairs, |text|)
  {
    pairs := map[];
    var stack: seq<Entry> := [];
    var semicolon: Option<nat> := None;
    var commaKey: Option<nat> := None;
    var key: Option<(nat, nat)> := None;
    var contentEnd: nat, invalid: nat, escaped := 0, 0, false;
    for i := 0 to |text|
      invariant PairsAre(text, cites, pairs, i) && StackIs(text, cites, stack, i) && escaped == Escaped(text, i)
      invariant semicolon == LastSemicolon(text, i) && commaKey == LastCommaKey(text, i) && key == LastKey(text, i)
      invariant contentEnd == ContentEnd(text, i) && invalid == InvalidItems(text, cites, i)
    {
      assert Tells(text, cites, i);
      var key', commaKey' := NoteKey(text, i, escaped, key, commaKey);
      if text[i].Semicolon? {
        stack, invalid := Separate(text, cites, i, stack, semicolon, commaKey, key, contentEnd, invalid);
        semicolon := Some(i);
        NothingCloses(text, cites, pairs, i);
      } else {
        stack, pairs := Bracket(text, cites, i, escaped, stack, pairs, semicolon, commaKey, key, contentEnd, invalid);
      }
      if !text[i].Space? { contentEnd := i + 1; }
      escaped := text[i].Backslash? && !escaped;
      key, commaKey := key', commaKey';
    }
  }

  /** The index maps an unescaped bracket to the one that closes it exactly when every item between them is a
   * citation. */
  method BracketPairs(text: Text) returns (pairs: map<nat, nat>)
    ensures forall open: nat, close: nat {:trigger Pair(text, ValidIn(text), open, close)} ::
      (open in pairs && pairs[open] == close) <==> Pair(text, ValidIn(text), open, close)
    ensures PairsAre(text, ValidIn(text), pairs, |text|)
  {
    KeysTell(text);
    pairs := PairUp(text, ValidIn(text));
  }

  // ----- Matching a citation group

  const SHORT_SCAN := 64

  /** The bracket that closes this one, found by a short scan or in the index. A bracket it does not find cites
   * nothing. */
  method CitationCloseBracket(text: Text, ghost cites: Judge, open: nat, pairs: map<nat, nat>, cached: bool)
      returns (close: Option<nat>)
    requires open < |text| && Opens(text, open) && PairsAre(text, cites, pairs, |text|)
    ensures close.Some? ==> Closes(text, open, close.value)
    ensures close.None? ==> forall c: nat {:trigger Pair(text, cites, open, c)} :: !Pair(text, cites, open, c)
  {
    if !cached {
      close := CloseBracket(text, open, SHORT_SCAN);
      if close.Some? { return; }
      if |text| - open <= SHORT_SCAN { return; }
    }
    close := if open in pairs then Some(pairs[open]) else None;
    if close.Some? { assert Pair(text, cites, open, close.value); }
  }

  ghost function AcceptedIn(text: Text): Judge {
    (from: nat, till: nat) => from <= till <= |text| && Accepts(text[from..till])
  }

  /** Parses the items one by one, and gives up at the first that is no citation. */
  method ParseItems(text: Text, from: nat, till: nat) returns (all: bool)
    requires from <= till <= |text|
    ensures all <==> ItemsValid(text, AcceptedIn(text), from, till)
    decreases till
  {
    var last := LastSemicolon(text, till);
    var start := from;
    if last.Some? && last.value >= from {
      all := ParseItems(text, from, last.value);
      if !all { return; }
      start := last.value + 1;
    }
    all := ParseItem(text[start..till]);
  }

  /** Items are told alike by two judges that agree on each of them. */
  lemma {:induction false} JudgesAgree(text: Text, f: Judge, g: Judge, from: nat, till: nat)
    requires from <= till <= |text|
    requires forall a: nat, b: nat {:trigger f(a, b)} {:trigger g(a, b)} ::
      from <= a <= b <= till && IsItem(text, from, till, a, b) ==> (f(a, b) <==> g(a, b))
    ensures ItemsValid(text, f, from, till) <==> ItemsValid(text, g, from, till)
    decreases till
  {
    var last := LastSemicolon(text, till);
    if last.Some? && last.value >= from { JudgesAgree(text, f, g, from, last.value); }
  }

  /** An item starts at the start or behind a separator, and ends at the end or before one. */
  ghost predicate IsItem(text: Text, from: nat, till: nat, a: nat, b: nat)
    requires from <= a <= b <= till <= |text|
  {
    (a == from || text[a - 1].Semicolon?) && (b == till || text[b].Semicolon?)
  }

  /** Parsing the items on their own agrees with their validity in place. */
  lemma {:induction false} AcceptedIffValid(text: Text, from: nat, till: nat)
    requires 0 < from <= till < |text| && !text[from - 1].Backslash? && text[till].CloseBracket?
    ensures ItemsValid(text, AcceptedIn(text), from, till) <==> ItemsValid(text, ValidIn(text), from, till)
  {
    forall a: nat, b: nat | from <= a <= b <= till && IsItem(text, from, till, a, b) ensures AcceptedIn(text)(a, b) <==>
      ValidIn(text)(a, b) {
      AcceptsIffValid(text, a, b);
    }
    JudgesAgree(text, AcceptedIn(text), ValidIn(text), from, till);
  }

  /** A `+` before the first item belongs to no key that counts. */
  lemma {:induction false} PlusIsNoItem(text: Text, from: nat, till: nat)
    requires from < till <= |text| && text[from].Plus?
    ensures ItemsValid(text, ValidIn(text), from, till) <==> ItemsValid(text, ValidIn(text), from + 1, till)
    decreases till
  {
    var last := LastSemicolon(text, till);
    if last.Some? && last.value >= from {
      PlusIsNoItem(text, from, last.value);
    } else {
      PlusCitesNothing(text, from, till);
    }
  }

  lemma {:induction false} PlusCitesNothing(text: Text, from: nat, till: nat)
    requires from < till <= |text| && text[from].Plus?
    ensures ItemValid(text, from, till) <==> ItemValid(text, from + 1, till)
  {
    assert KeyAt(text, from).None?;
    if at :| from <= at < till && Cites(text, at, ContentEnd(text, till)) { assert at != from; }
  }

  /** An opening bracket right behind a group makes it something else. */
  predicate Followed(text: Text, close: nat) {
    close + 1 < |text| && (text[close + 1].OpenBracket? || text[close + 1].OpenOther?)
  }

  lemma {:induction false} OnlyOneClose(text: Text, open: nat, c: nat, d: nat)
    requires Closes(text, open, c) && Closes(text, open, d)
    ensures c == d
  {
    if d < c { ClosesOnce(text, open, d, c); }
    if c < d { ClosesOnce(text, open, c, d); }
  }

  /** Whether all items of a group are citations, a leading `+` apart. */
  method ParseGroup(text: Text, open: nat, close: nat) returns (all: bool)
    requires Closes(text, open, close)
    ensures all <==> Pair(text, ValidIn(text), open, close)
  {
    ClosesLater(text, open, close);
    var from := open + 1;
    if text[from].Plus? {
      PlusIsNoItem(text, from, close);
      from := from + 1;
    }
    AcceptedIffValid(text, from, close);
    all := ParseItems(text, from, close);
  }

  /** What is matched does not depend on whether, or when, the index is used. */
  method MatchCitation(text: Text, open: nat, pairs: map<nat, nat>, indexed: bool, cached: bool)
      returns (end: Option<nat>)
    requires open < |text| && Opens(text, open) && PairsAre(text, ValidIn(text), pairs, |text|)
    ensures end.Some? ==>
      end.value > 0 && Pair(text, ValidIn(text), open, end.value - 1) && !Followed(text, end.value - 1)
    ensures end.None? ==>
      forall c: nat {:trigger Pair(text, ValidIn(text), open, c)} ::
      Pair(text, ValidIn(text), open, c) ==> Followed(text, c)
  {
    var close;
    if indexed {
      close := CitationCloseBracket(text, ValidIn(text), open, pairs, cached);
    } else {
      close := CloseBracket(text, open, |text|);
    }
    if close.None? { return None; }
    forall d: nat {:trigger Pair(text, ValidIn(text), open, d)} | Pair(text, ValidIn(text), open, d)
      ensures d == close.value {
      OnlyOneClose(text, open, close.value, d);
    }
    if Followed(text, close.value) { return None; }
    var all := ParseGroup(text, open, close.value);
    return if all then Some(close.value + 1) else None;
  }

  // ----- On strings

  /** A citation of a text that goes on with none of the brackets that would make it a link. */
  ghost predicate Cited(source: string, open: nat, close: nat) {
    Pair(Read(source), ValidIn(Read(source)), open, close) && !Followed(Read(source), close)
  }

  /** A citation group in a text, found from the bracket that opens it; whether and when the index is used makes no
   * difference. */
  method MatchIn(source: string, open: nat, indexed: bool, cached: bool) returns (end: Option<nat>)
    requires open < |source| && Opens(Read(source), open)
    ensures end.Some? ==> end.value > 0 && Cited(source, open, end.value - 1)
    ensures end.None? ==> forall close: nat :: !Cited(source, open, close)
  {
    var text := Read(source);
    var pairs := BracketPairs(text);
    end := MatchCitation(text, open, pairs, indexed, cached);
  }

  /** What stands in the text of a citation group and behind it. */
  lemma {:induction false} CitedText(source: string, open: nat, close: nat)
    requires Cited(source, open, close)
    ensures open + 1 < close < |source| && source[open] == '[' && source[close] == ']' && '@' in source[open + 1..close]
    ensures close + 1 < |source| ==> !OpensLink(source[close + 1])
  {
    var at := CitedHolds(source, open, close);
    HoldsWithin(source, open + 1, at, close);
    if close + 1 < |source| { FollowedIs(source, close); }
  }

  lemma {:induction false} HoldsWithin(source: string, from: nat, at: nat, till: nat)
    requires from <= at < till <= |source|
    ensures source[at] in source[from..till]
  {
    assert source[from..till][at - from] == source[at];
  }

  predicate OpensLink(c: char) { c == '(' || c == '[' || c == '{' }

  lemma {:induction false} FollowedIs(source: string, close: nat)
    requires close + 1 < |source|
    ensures Followed(Read(source), close) <==> OpensLink(source[close + 1])
  {
    ReadTells(source, close + 1);
  }

  lemma {:induction false} CitedHolds(source: string, open: nat, close: nat) returns (at: nat)
    requires Cited(source, open, close)
    ensures open < at < close < |source| && source[open] == '[' && source[at] == '@' && source[close] == ']'
  {
    at := PairHolds(Read(source), open, close);
    assert source[open] == '[' by { ReadTells(source, open); }
    assert source[at] == '@' by { ReadTells(source, at); }
    assert source[close] == ']' by { ReadTells(source, close); }
  }

  lemma {:induction false} ReadTells(source: string, at: nat)
    requires at < |source|
    ensures |Read(source)| == |source|
    ensures Read(source)[at].OpenBracket? <==> source[at] == '['
    ensures Read(source)[at].CloseBracket? <==> source[at] == ']'
    ensures Read(source)[at].At? <==> source[at] == '@'
    ensures Read(source)[at].OpenBracket? || Read(source)[at].OpenOther? <==> OpensLink(source[at])
  {
    ClassTells(source[at]);
  }

  lemma {:induction false} ClassTells(c: char)
    ensures ClassOf(c).OpenBracket? <==> c == '['
    ensures ClassOf(c).CloseBracket? <==> c == ']'
    ensures ClassOf(c).At? <==> c == '@'
    ensures ClassOf(c).OpenBracket? || ClassOf(c).OpenOther? <==> OpensLink(c)
  {
  }

  /** Some item of a citation has an `@`. */
  lemma {:induction false} PairHolds(text: Text, open: nat, close: nat) returns (at: nat)
    requires Pair(text, ValidIn(text), open, close)
    ensures open < at < close < |text| && text[open].OpenBracket? && text[at].At? && text[close].CloseBracket?
  {
    ClosesLater(text, open, close);
    at := ItemsHoldAt(text, open + 1, close);
  }

  lemma {:induction false} ItemsHoldAt(text: Text, from: nat, till: nat) returns (at: nat)
    requires from <= till <= |text| && ItemsValid(text, ValidIn(text), from, till)
    ensures from <= at < till && text[at].At?
  {
    var start := LastStart(text, from, till);
    assert ValidIn(text)(start, till);
    at :| start <= at < till && Cites(text, at, ContentEnd(text, till));
  }
}
