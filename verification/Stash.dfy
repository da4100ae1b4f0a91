/** Putting parts of a text aside under placeholders, and putting them back. */
module Stash {
  import Decimal
  import opened Wrappers

  /** The two characters around a placeholder's number; neither occurs in the text itself. */
  datatype Sentinels = Sentinels(open: char, close: char) {
    predicate Apart() { open != close && !Decimal.IsDigit(open) && !Decimal.IsDigit(close) }
  }

  /** A character of the text, or a placeholder. */
  datatype Piece = Char(c: char) | Hole(index: nat)

  function ShowOne(m: Sentinels, p: Piece): string {
    match p
    case Char(c) => [c]
    case Hole(index) => [m.open] + Decimal.Print(index) + [m.close]
  }

  function Show(m: Sentinels, ps: seq<Piece>): string {
    if ps == [] then "" else ShowOne(m, ps[0]) + Show(m, ps[1..])
  }

  ghost predicate Plain(m: Sentinels, ps: seq<Piece>)
  {
    forall i :: 0 <= i < |ps| && ps[i].Char? ==> ps[i].c != m.open && ps[i].c != m.close
  }

  lemma {:induction false} ShowAppends(m: Sentinels, a: seq<Piece>, b: seq<Piece>)
    ensures Show(m, a + b) == Show(m, a) + Show(m, b)
  {
    if a == [] {
      assert a + b == b;
    } else {
      assert (a + b)[1..] == a[1..] + b;
      ShowAppends(m, a[1..], b);
    }
  }

  // ----- What placeholders stand for

  ghost predicate HolesBelow(ps: seq<Piece>, n: nat) { forall i :: 0 <= i < |ps| && ps[i].Hole? ==> ps[i].index < n }

  /** Each entry holds only placeholders of entries before it. */
  ghost predicate Ordered(m: Sentinels, entries: seq<seq<Piece>>) {
    forall i {:trigger entries[i]} :: 0 <= i < |entries| ==> HolesBelow(entries[i], i) && Plain(m, entries[i])
  }

  /** The text with all placeholders resolved; a number without an entry stands for nothing. */
  ghost function Resolve(m: Sentinels, entries: seq<seq<Piece>>, ps: seq<Piece>, n: nat): string
    requires Ordered(m, entries) && HolesBelow(ps, n)
    decreases n, |ps|
  {
    if ps == [] then ""
    else ResolveOne(m, entries, ps[0], n) + Resolve(m, entries, ps[1..], n)
  }

  ghost function ResolveOne(m: Sentinels, entries: seq<seq<Piece>>, p: Piece, n: nat): string
    requires Ordered(m, entries) && (p.Hole? ==> p.index < n)
    decreases n, 0
  {
    match p
    case Char(c) => [c]
    case Hole(index) => if index < |entries| then Resolve(m, entries, entries[index], index) else ""
  }

  lemma {:induction false} ResolveAppends(m: Sentinels, entries: seq<seq<Piece>>, a: seq<Piece>, b: seq<Piece>, n: nat)
    requires Ordered(m, entries) && HolesBelow(a, n) && HolesBelow(b, n)
    ensures HolesBelow(a + b, n) &&
      Resolve(m, entries, a + b, n) == Resolve(m, entries, a, n) + Resolve(m, entries, b, n)
    decreases |a|
  {
    if a == [] {
      assert a + b == b;
    } else {
      assert (a + b)[1..] == a[1..] + b;
      ResolveAppends(m, entries, a[1..], b, n);
    }
  }

  /** More entries, or a higher bound, change nothing for a text that does not need them. */
  lemma {:induction false} ResolveWithMore(m: Sentinels, entries: seq<seq<Piece>>, more: seq<seq<Piece>>,
      ps: seq<Piece>, n: nat, higher: nat)
    requires Ordered(m, entries) && Ordered(m, more) && entries <= more
    requires HolesBelow(ps, n) && n <= higher && n <= |entries|
    ensures Resolve(m, more, ps, higher) == Resolve(m, entries, ps, n)
    decreases n, |ps|
  {
    if ps != [] {
      ResolveWithMore(m, entries, more, ps[1..], n, higher);
      if ps[0].Hole? {
        var index := ps[0].index;
        assert more[index] == entries[index];
        ResolveWithMore(m, entries, more, entries[index], index, index);
      }
    }
  }

  lemma {:induction false} ResolveHigher(m: Sentinels, entries: seq<seq<Piece>>, ps: seq<Piece>, n: nat, higher: nat)
    requires Ordered(m, entries) && HolesBelow(ps, n) && n <= higher
    ensures Resolve(m, entries, ps, higher) == Resolve(m, entries, ps, n)
    decreases |ps|
  {
    if ps != [] { ResolveHigher(m, entries, ps[1..], n, higher); }
  }

  // ----- Restoring

  /** Every placeholder replaced by its entry, once. */
  ghost function Expand(m: Sentinels, entries: seq<seq<Piece>>, ps: seq<Piece>): seq<Piece> {
    if ps == [] then [] else ExpandOne(entries, ps[0]) + Expand(m, entries, ps[1..])
  }

  ghost function ExpandOne(entries: seq<seq<Piece>>, p: Piece): seq<Piece> {
    match p
    case Char(_) => [p]
    case Hole(index) => if index < |entries| then entries[index] else []
  }

  /** Replacing leads only to placeholders with smaller numbers, and changes nothing about what the text stands for. */
  lemma {:induction false} ExpandDescends(m: Sentinels, entries: seq<seq<Piece>>, ps: seq<Piece>, n: nat)
    requires Ordered(m, entries) && HolesBelow(ps, n) && Plain(m, ps)
    ensures HolesBelow(Expand(m, entries, ps), if n > 0 then n - 1 else 0) && Plain(m, Expand(m, entries, ps))
    ensures HolesBelow(Expand(m, entries, ps), n) &&
      Resolve(m, entries, Expand(m, entries, ps), n) == Resolve(m, entries, ps, n)
    decreases |ps|
  {
    if ps != [] {
      ExpandDescends(m, entries, ps[1..], n);
      OneDescends(m, entries, ps[0], n);
      ResolveAppends(m, entries, ExpandOne(entries, ps[0]), Expand(m, entries, ps[1..]), n);
    }
  }

  lemma {:induction false} OneDescends(m: Sentinels, entries: seq<seq<Piece>>, p: Piece, n: nat)
    requires Ordered(m, entries) && (p.Hole? ==> p.index < n) && Plain(m, [p])
    ensures HolesBelow(ExpandOne(entries, p), if n > 0 then n - 1 else 0) && Plain(m, ExpandOne(entries, p))
    ensures HolesBelow(ExpandOne(entries, p), n) &&
      Resolve(m, entries, ExpandOne(entries, p), n) == ResolveOne(m, entries, p, n)
  {
    if p.Hole? && p.index < |entries| {
      ResolveHigher(m, entries, entries[p.index], p.index, n);
    } else if p.Char? {
      assert [p][0] == p && [p][1..] == [];
    }
  }

  /** A text without placeholders stands for itself. */
  lemma {:induction false} NothingToResolve(m: Sentinels, entries: seq<seq<Piece>>, ps: seq<Piece>)
    requires Ordered(m, entries) && HolesBelow(ps, 0)
    ensures Resolve(m, entries, ps, 0) == Show(m, ps) && Expand(m, entries, ps) == ps
    decreases |ps|
  {
    if ps != [] {
      assert ps[0].Char?;
      NothingToResolve(m, entries, ps[1..]);
    }
  }

  // ----- Placeholders in a string

  function DigitsEnd(text: string, i: nat): (end: nat)
    requires i <= |text|
    ensures i <= end <= |text| && (forall k :: i <= k < end ==> Decimal.IsDigit(text[k])) &&
      (end < |text| ==> !Decimal.IsDigit(text[end]))
    decreases |text| - i
  {
    if i < |text| && Decimal.IsDigit(text[i]) then DigitsEnd(text, i + 1) else i
  }

  /** The closing sentinel of the placeholder that starts here, if one does. */
  function HoleEnd(m: Sentinels, text: string, i: nat): (r: nat)
    requires i < |text|
    ensures r > 0 ==> i + 1 < r < |text| && text[r] == m.close && forall k :: i < k < r ==> Decimal.IsDigit(text[k])
  {
    if text[i] != m.open then 0
    else
      var end := DigitsEnd(text, i + 1);
      if end > i + 1 && end < |text| && text[end] == m.close then end else 0
  }

  /** Digits before a character that is none are all the digits there are. */
  lemma {:induction false} DigitsUpTo(text: string, i: nat, end: nat)
    requires i <= end < |text| && (forall k :: i <= k < end ==> Decimal.IsDigit(text[k])) && !Decimal.IsDigit(text[end])
    ensures DigitsEnd(text, i) == end
    decreases end - i
  {
    if i < end { DigitsUpTo(text, i + 1, end); }
  }

  lemma {:induction false} Enclosed(text: string, i: nat, open: char, inner: string, close: char, rest: string)
    requires i <= |text| && text[i..] == [open] + inner + [close] + rest
    ensures i + 1 + |inner| < |text| && text[i] == open && text[i + 1..i + 1 + |inner|] == inner
    ensures text[i + 1 + |inner|] == close && text[i + 2 + |inner|..] == rest
  {
    assert [open] + inner + [close] + rest == [open] + (inner + ([close] + rest));
    ThreeParts(text, i, i + 1, i + 1 + |inner|, [open], inner, [close] + rest);
    assert text[i..i + 1][0] == text[i];
    CharIsFound(text, i + 1 + |inner|, close, rest);
  }

  lemma {:induction false} HoleIsFound(m: Sentinels, text: string, i: nat, index: nat, rest: string)
    requires m.Apart() && i <= |text| && text[i..] == ShowOne(m, Hole(index)) + rest
    ensures i < |text| && HoleEnd(m, text, i) == i + 1 + |Decimal.Print(index)|
    ensures Decimal.AllDigits(text[i + 1..HoleEnd(m, text, i)]) &&
      Decimal.Value(text[i + 1..HoleEnd(m, text, i)]) == index
    ensures text[HoleEnd(m, text, i) + 1..] == rest
  {
    var digits := Decimal.Print(index);
    var end := i + 1 + |digits|;
    Enclosed(text, i, m.open, digits, m.close, rest);
    assert Decimal.AllDigits(digits) && Decimal.Value(digits) == index by { Decimal.ValueOfPrint(index); }
    forall k | i + 1 <= k < end ensures Decimal.IsDigit(text[k]) { assert text[k] == text[i + 1..end][k - i - 1]; }
    DigitsUpTo(text, i + 1, end);
  }

  lemma {:induction false} CharIsFound(text: string, i: nat, c: char, rest: string)
    requires i < |text| && text[i..] == [c] + rest
    ensures text[i] == c && text[i + 1..] == rest
  {
    var tail := text[i..];
    assert text[i] == tail[0] && text[i + 1..] == tail[1..];
  }

  ghost predicate Entries(m: Sentinels, stash: seq<string>, entries: seq<seq<Piece>>) {
    |stash| == |entries| && Ordered(m, entries) && forall i :: 0 <= i < |stash| ==> stash[i] == Show(m, entries[i])
  }

  lemma {:induction false} ShownIsEmptyIff(m: Sentinels, ps: seq<Piece>)
    ensures Show(m, ps) == "" <==> ps == []
  {
    if ps != [] { assert |ShowOne(m, ps[0])| > 0; }
  }

  lemma {:induction false} PieceShown(m: Sentinels, stash: seq<string>, entries: seq<seq<Piece>>, p: Piece)
    requires Entries(m, stash, entries)
    ensures Show(m, ExpandOne(entries, p)) == match p case Char(c) =>
      [c] case Hole(index) => if index < |stash| then stash[index] else ""
  {
    if p.Char? {
      assert [p][1..] == [];
      assert Show(m, [p]) == ShowOne(m, p) + Show(m, []);
    }
  }

  /** A character that opens no placeholder, or a whole placeholder with its number. */
  lemma {:induction false} FirstIsFound(m: Sentinels, text: string, i: nat, left: seq<Piece>)
    requires m.Apart() && Plain(m, left) && i < |text| && left != [] && text[i..] == Show(m, left)
    ensures match left[0]
      case Char(c) => HoleEnd(m, text, i) == 0 && text[i] == c && text[i + 1..] == Show(m, left[1..])
      case Hole(index) =>
        var end := HoleEnd(m, text, i);
        end > i && Decimal.AllDigits(text[i + 1..end]) && Decimal.Value(text[i + 1..end]) == index &&
          text[end + 1..] == Show(m, left[1..])
  {
    var rest := Show(m, left[1..]);
    match left[0] {
      case Char(c) => CharIsFound(text, i, c, rest);
      case Hole(index) => HoleIsFound(m, text, i, index, rest);
    }
  }

  /** The first piece of what is left, replaced if it is a placeholder. */
  method ReplaceOne(m: Sentinels, text: string, i: nat, stash: seq<string>, ghost left: seq<Piece>,
      ghost entries: seq<seq<Piece>>) returns (piece: string, next: nat)
    requires m.Apart() && Plain(m, left) && Entries(m, stash, entries) && i < |text| && left != [] &&
      text[i..] == Show(m, left)
    ensures piece == Show(m, ExpandOne(entries, left[0])) && i < next <= |text| && text[next..] == Show(m, left[1..])
  {
    var end := HoleEnd(m, text, i);
    if end > 0 {
      var index := Decimal.Value(text[i + 1..end]);
      piece, next := if index < |stash| then stash[index] else "", end + 1;
    } else {
      piece, next := [text[i]], i + 1;
    }
    PieceShown(m, stash, entries, left[0]);
    FirstIsFound(m, text, i, left);
  }

  /** One round of replacing every placeholder by its entry. */
  method ReplaceAll(m: Sentinels, text: string, stash: seq<string>, ghost ps: seq<Piece>,
      ghost entries: seq<seq<Piece>>) returns (next: string)
    requires m.Apart() && Plain(m, ps) && text == Show(m, ps) && Entries(m, stash, entries)
    ensures next == Show(m, Expand(m, entries, ps))
  {
    next := "";
    var i := 0;
    ghost var left := ps;
    while i < |text|
      invariant i <= |text| && Plain(m, left) && text[i..] == Show(m, left)
      invariant next + Show(m, Expand(m, entries, left)) == Show(m, Expand(m, entries, ps))
      decreases |text| - i
    {
      ShownIsEmptyIff(m, left);
      var piece, end := ReplaceOne(m, text, i, stash, left, entries);
      ShowAppends(m, ExpandOne(entries, left[0]), Expand(m, entries, left[1..]));
      Associate(next, piece, Show(m, Expand(m, entries, left[1..])));
      next, i, left := next + piece, end, left[1..];
    }
    ShownIsEmptyIff(m, left);
    assert next + "" == next;
  }

  lemma {:induction false} Associate(a: string, b: string, c: string)
    ensures a + (b + c) == (a + b) + c
  {
  }

  // ----- The fixpoint

  lemma {:induction false} ShowTells(m: Sentinels, ps: seq<Piece>, qs: seq<Piece>)
    requires m.Apart() && Plain(m, ps) && Plain(m, qs) && Show(m, ps) == Show(m, qs)
    ensures ps == qs
    decreases |ps|
  {
    if ps == [] || qs == [] {
      ShownIsEmptyIff(m, ps);
      ShownIsEmptyIff(m, qs);
    } else {
      FirstTells(m, ps, qs);
      ShowTells(m, ps[1..], qs[1..]);
      assert ps == [ps[0]] + ps[1..] && qs == [qs[0]] + qs[1..];
    }
  }

  lemma {:induction false} FirstTells(m: Sentinels, ps: seq<Piece>, qs: seq<Piece>)
    requires m.Apart() && Plain(m, ps) && Plain(m, qs) && ps != [] && qs != [] && Show(m, ps) == Show(m, qs)
    ensures ps[0] == qs[0] && Show(m, ps[1..]) == Show(m, qs[1..])
  {
    var text := Show(m, ps);
    assert text[0] == ShowOne(m, ps[0])[0] == ShowOne(m, qs[0])[0];
    assert text[0..] == text;
    if ps[0].Hole? {
      HoleIsFound(m, text, 0, ps[0].index, Show(m, ps[1..]));
      HoleIsFound(m, text, 0, qs[0].index, Show(m, qs[1..]));
    } else {
      assert text[1..] == Show(m, ps[1..]) && text[1..] == Show(m, qs[1..]);
    }
  }

  lemma {:induction false} FixpointHasNone(m: Sentinels, entries: seq<seq<Piece>>, ps: seq<Piece>, n: nat)
    requires Ordered(m, entries) && HolesBelow(ps, n) && Plain(m, ps) && Expand(m, entries, ps) == ps
    ensures HolesBelow(ps, 0)
  {
    if n > 0 {
      ExpandDescends(m, entries, ps, n);
      FixpointHasNone(m, entries, ps, n - 1);
    }
  }

  /** The pieces of a text, with every placeholder below a bound, and what they stand for. */
  ghost predicate StandsFor(m: Sentinels, entries: seq<seq<Piece>>, ps: seq<Piece>, bound: nat, meaning: string) {
    Ordered(m, entries) && HolesBelow(ps, bound) && Plain(m, ps) && Resolve(m, entries, ps, bound) == meaning
  }

  /** A round that changes nothing has reached what the text stands for. */
  lemma {:induction false} Settled(m: Sentinels, entries: seq<seq<Piece>>, ps: seq<Piece>, bound: nat, meaning: string)
    requires m.Apart() && StandsFor(m, entries, ps, bound, meaning) && Show(m, Expand(m, entries, ps)) == Show(m, ps)
    ensures Show(m, ps) == meaning
  {
    ExpandDescends(m, entries, ps, bound);
    ShowTells(m, Expand(m, entries, ps), ps);
    FixpointHasNone(m, entries, ps, bound);
    NothingToResolve(m, entries, ps);
    ResolveHigher(m, entries, ps, 0, bound);
  }

  /** A round that changes something had a placeholder to replace. */
  lemma {:induction false} Unsettled(m: Sentinels, entries: seq<seq<Piece>>, ps: seq<Piece>, bound: nat,
      meaning: string)
    requires m.Apart() && StandsFor(m, entries, ps, bound, meaning) && Show(m, Expand(m, entries, ps)) != Show(m, ps)
    ensures bound > 0 && StandsFor(m, entries, Expand(m, entries, ps), bound - 1, meaning)
  {
    if bound == 0 { NothingToResolve(m, entries, ps); }
    ExpandDescends(m, entries, ps, bound);
    ResolveHigher(m, entries, Expand(m, entries, ps), bound - 1, bound);
  }

  /** Replaces placeholders until none is left; the largest number shrinks with every round. */
  method Restore(m: Sentinels, text: string, stash: seq<string>, ghost ps: seq<Piece>, ghost entries: seq<seq<Piece>>,
      ghost n: nat) returns (r: string)
    requires m.Apart() && Plain(m, ps) && HolesBelow(ps, n) && text == Show(m, ps) && Entries(m, stash, entries)
    ensures r == Resolve(m, entries, ps, n)
  {
    r := text;
    ghost var now: seq<Piece>, bound: nat := ps, n;
    ghost var meaning := Resolve(m, entries, ps, n);
    while true
      invariant StandsFor(m, entries, now, bound, meaning) && r == Show(m, now)
      decreases bound
    {
      var next := ReplaceAll(m, r, stash, now, entries);
      if next == r {
        Settled(m, entries, now, bound, meaning);
        return;
      }
      Unsettled(m, entries, now, bound, meaning);
      r, now, bound := next, Expand(m, entries, now), bound - 1;
    }
  }

  // ----- Putting aside

  /** A match in a text: from its first character to just past its last. */
  datatype Span = Span(start: nat, end: nat)

  datatype Cutting = Cutting(before: seq<Piece>, taken: seq<Piece>, after: seq<Piece>) {
    function All(): seq<Piece> { before + (taken + after) }
  }

  /** Whole pieces before, inside and after a match; what is left of the text starts at the cursor. */
  ghost predicate CutsAt(m: Sentinels, left: seq<Piece>, cursor: nat, span: Span, cut: Cutting) {
    left == cut.All() && cursor + |Show(m, cut.before)| == span.start && span.start + |Show(m, cut.taken)| == span.end
  }

  /** A match that begins and ends between pieces, so that it cuts no placeholder. */
  ghost predicate Whole(m: Sentinels, left: seq<Piece>, cursor: nat, span: Span)
  {
    exists cut: Cutting :: CutsAt(m, left, cursor, span, cut)
  }

  ghost function Cut(m: Sentinels, left: seq<Piece>, cursor: nat, span: Span): (cut: Cutting)
    requires Whole(m, left, cursor, span)
    ensures CutsAt(m, left, cursor, span, cut)
  {
    var cut: Cutting :| CutsAt(m, left, cursor, span, cut); cut
  }

  /** Matches in order, none overlapping the next, and none beginning or ending inside a placeholder. */
  ghost predicate Fits(m: Sentinels, left: seq<Piece>, cursor: nat, spans: seq<Span>)
    decreases |spans|
  {
    spans == [] ||
    (Whole(m, left, cursor, spans[0]) && Fits(m, Cut(m, left, cursor, spans[0]).after, spans[0].end, spans[1..]))
  }

  /** The pieces once every match has become a placeholder, numbered from n. */
  ghost function After(m: Sentinels, left: seq<Piece>, cursor: nat, spans: seq<Span>, n: nat): seq<Piece>
    requires Fits(m, left, cursor, spans)
    decreases |spans|
  {
    if spans == [] then left
    else
      var cut := Cut(m, left, cursor, spans[0]);
      cut.before + ([Hole(n)] + After(m, cut.after, spans[0].end, spans[1..], n + 1))
  }

  /** What the matches held. */
  ghost function Taken(m: Sentinels, left: seq<Piece>, cursor: nat, spans: seq<Span>): (r: seq<seq<Piece>>)
    requires Fits(m, left, cursor, spans)
    ensures |r| == |spans|
    decreases |spans|
  {
    if spans == [] then []
    else
      var cut := Cut(m, left, cursor, spans[0]);
      [cut.taken] + Taken(m, cut.after, spans[0].end, spans[1..])
  }

  /** Neither sentinel is among the characters, and every placeholder has an entry. */
  ghost predicate Sound(m: Sentinels, entries: seq<seq<Piece>>, ps: seq<Piece>) {
    Ordered(m, entries) && HolesBelow(ps, |entries|) && Plain(m, ps)
  }

  lemma {:induction false} OneMore(m: Sentinels, entries: seq<seq<Piece>>, entry: seq<Piece>)
    requires Sound(m, entries, entry)
    ensures Ordered(m, entries + [entry])
  {
    forall i {:trigger (entries + [entry])[i]} | 0 <= i < |entries + [entry]|
      ensures HolesBelow((entries + [entry])[i], i) && Plain(m, (entries + [entry])[i])
    {
      if i < |entries| { assert (entries + [entry])[i] == entries[i]; }
    }
  }

  lemma {:induction false} SoundParts(m: Sentinels, entries: seq<seq<Piece>>, a: seq<Piece>, b: seq<Piece>)
    requires Ordered(m, entries)
    ensures Sound(m, entries, a + b) <==> Sound(m, entries, a) && Sound(m, entries, b)
  {
    forall i | 0 <= i < |a| ensures (a + b)[i] == a[i] {}
    forall i | 0 <= i < |b| ensures (a + b)[|a| + i] == b[i] {}
  }

  /** Text moved into an entry stands for the same behind its placeholder. */
  lemma {:induction false} HoleStandsForEntry(m: Sentinels, entries: seq<seq<Piece>>, entry: seq<Piece>,
      more: seq<seq<Piece>>)
    requires Sound(m, entries, entry) && Ordered(m, more) && entries + [entry] <= more
    ensures HolesBelow([Hole(|entries|)], |more|)
    ensures Resolve(m, more, [Hole(|entries|)], |more|) == Resolve(m, entries, entry, |entries|)
  {
    var hole := [Hole(|entries|)];
    assert more[|entries|] == (entries + [entry])[|entries|] == entry;
    assert entries <= entries + [entry] <= more;
    ResolveWithMore(m, entries, more, entry, |entries|, |entries|);
    assert hole[1..] == [];
    assert Resolve(m, more, [], |more|) == "";
  }

  lemma {:induction false} AppendOne<T>(a: seq<T>, x: T, b: seq<T>)
    ensures a + ([x] + b) == (a + [x]) + b && a + [x] <= a + ([x] + b)
  {
  }

  /** One match put aside in front of the others. */
  lemma {:induction false} OneTaken(m: Sentinels, entries: seq<seq<Piece>>, cut: Cutting, more: seq<seq<Piece>>,
      rest: seq<Piece>)
    requires Sound(m, entries, cut.before) && Sound(m, entries, cut.taken) && Sound(m, entries, cut.after)
    requires Sound(m, more, rest) && entries + [cut.taken] <= more
    requires Resolve(m, more, rest, |more|) == Resolve(m, entries, cut.after, |entries|)
    ensures Sound(m, more, cut.before + ([Hole(|entries|)] + rest)) &&
      Sound(m, entries, cut.before + (cut.taken + cut.after))
    ensures Resolve(m, more, cut.before + ([Hole(|entries|)] + rest), |more|)
         == Resolve(m, entries, cut.before + (cut.taken + cut.after), |entries|)
  {
    var n, hole := |entries|, [Hole(|entries|)];
    HoleStandsForEntry(m, entries, cut.taken, more);
    assert entries <= entries + [cut.taken] <= more;
    ResolveWithMore(m, entries, more, cut.before, n, |more|);
    ResolveAppends(m, more, hole, rest, |more|);
    ResolveAppends(m, more, cut.before, hole + rest, |more|);
    ResolveAppends(m, entries, cut.taken, cut.after, n);
    ResolveAppends(m, entries, cut.before, cut.taken + cut.after, n);
    SoundParts(m, more, hole, rest);
    SoundParts(m, more, cut.before, hole + rest);
    SoundParts(m, entries, cut.taken, cut.after);
    SoundParts(m, entries, cut.before, cut.taken + cut.after);
  }

  /** Putting matches aside changes nothing about what the text stands for. */
  lemma {:induction false} AfterStandsForSame(m: Sentinels, left: seq<Piece>, cursor: nat, spans: seq<Span>,
      entries: seq<seq<Piece>>, more: seq<seq<Piece>>, final: seq<Piece>, text: string)
    requires Fits(m, left, cursor, spans) && Sound(m, entries, left) && Resolve(m, entries, left, |entries|) == text
    requires more == entries + Taken(m, left, cursor, spans) && final == After(m, left, cursor, spans, |entries|)
    ensures Sound(m, more, final) && Resolve(m, more, final, |more|) == text
    decreases |spans|
  {
    if spans == [] {
      assert more == entries;
    } else {
      var cut := Cut(m, left, cursor, spans[0]);
      var grown := entries + [cut.taken];
      SoundParts(m, entries, cut.before, cut.taken + cut.after);
      SoundParts(m, entries, cut.taken, cut.after);
      OneMore(m, entries, cut.taken);
      var later, rest := Taken(m, cut.after, spans[0].end, spans[1..]),
        After(m, cut.after, spans[0].end, spans[1..], |grown|);
      AppendOne(entries, cut.taken, later);
      ResolveWithMore(m, entries, grown, cut.after, |entries|, |grown|);
      AfterStandsForSame(m, cut.after, spans[0].end, spans[1..], grown, more, rest,
        Resolve(m, entries, cut.after, |entries|));
      OneTaken(m, entries, cut, more, rest);
    }
  }

  lemma {:induction false} ThreeShown(m: Sentinels, left: seq<Piece>, cut: Cutting)
    requires left == cut.All()
    ensures Show(m, left) == Show(m, cut.before) + (Show(m, cut.taken) + Show(m, cut.after))
  {
    ShowAppends(m, cut.taken, cut.after);
    ShowAppends(m, cut.before, cut.taken + cut.after);
  }

  lemma {:induction false} CutText(m: Sentinels, text: string, left: seq<Piece>, cursor: nat, span: Span, cut: Cutting)
    requires CutsAt(m, left, cursor, span, cut) && cursor <= |text| && text[cursor..] == Show(m, left)
    ensures cursor <= span.start <= span.end <= |text|
    ensures text[cursor..span.start] == Show(m, cut.before)
    ensures text[span.start..span.end] == Show(m, cut.taken)
    ensures text[span.end..] == Show(m, cut.after)
  {
    var before, taken, after := Show(m, cut.before), Show(m, cut.taken), Show(m, cut.after);
    ThreeShown(m, left, cut);
    ThreeParts(text, cursor, span.start, span.end, before, taken, after);
  }

  lemma {:induction false} ThreeParts(text: string, cursor: nat, start: nat, end: nat, a: string, b: string, c: string)
    requires cursor <= |text| && text[cursor..] == a + (b + c) && start == cursor + |a| && end == start + |b|
    ensures end <= |text| && text[cursor..start] == a && text[start..end] == b && text[end..] == c
  {
    var tail := text[cursor..];
    assert tail[..|a|] == a && tail[|a|..|a| + |b|] == b && tail[|a| + |b|..] == c;
  }

  lemma {:induction false} KeepsEntries(m: Sentinels, kept: seq<string>, entries: seq<seq<Piece>>, cut: Cutting,
      taken: string)
    requires Entries(m, kept, entries) && Sound(m, entries, cut.before + (cut.taken + cut.after)) &&
      taken == Show(m, cut.taken)
    ensures Entries(m, kept + [taken], entries + [cut.taken]) && Sound(m, entries + [cut.taken], cut.after)
  {
    SoundParts(m, entries, cut.before, cut.taken + cut.after);
    SoundParts(m, entries, cut.taken, cut.after);
    OneMore(m, entries, cut.taken);
  }

  lemma {:induction false} OneShown(m: Sentinels, out: string, before: seq<Piece>, n: nat, rest: seq<Piece>)
    ensures out + Show(m, before + ([Hole(n)] + rest)) == ((out + Show(m, before)) + ShowOne(m, Hole(n))) +
      Show(m, rest)
  {
    var tail := [Hole(n)] + rest;
    ShowAppends(m, before, tail);
    assert tail[1..] == rest;
    assert Show(m, tail) == ShowOne(m, Hole(n)) + Show(m, rest);
    Associate(out, Show(m, before), Show(m, tail));
    Associate(out + Show(m, before), ShowOne(m, Hole(n)), Show(m, rest));
  }

  /** How one match moves from what is left to the output and the entries. */
  lemma {:induction false} OneStashed(m: Sentinels, out: string, left: seq<Piece>, cursor: nat, todo: seq<Span>, n: nat,
      grown: seq<seq<Piece>>)
    requires todo != [] && Fits(m, left, cursor, todo)
    ensures var cut := Cut(m, left, cursor, todo[0]);
      Fits(m, cut.after, todo[0].end, todo[1..]) &&
      out + Show(m, After(m, left, cursor, todo, n))
        == ((out + Show(m, cut.before)) + ShowOne(m, Hole(n))) +
          Show(m, After(m, cut.after, todo[0].end, todo[1..], n + 1)) &&
      grown + Taken(m, left, cursor, todo) == (grown + [cut.taken]) + Taken(m, cut.after, todo[0].end, todo[1..])
  {
    var cut := Cut(m, left, cursor, todo[0]);
    OneShown(m, out, cut.before, n, After(m, cut.after, todo[0].end, todo[1..], n + 1));
    AppendOne(grown, cut.taken, Taken(m, cut.after, todo[0].end, todo[1..]));
  }

  /** What is put aside, what was written and what is left agree with the text at the cursor. */
  ghost predicate Midway(m: Sentinels, text: string, cursor: nat, kept: seq<string>, left: seq<Piece>,
      grown: seq<seq<Piece>>, todo: seq<Span>) {
    cursor <= |text| && text[cursor..] == Show(m, left) && Fits(m, left, cursor, todo) && Entries(m, kept, grown) &&
      Sound(m, grown, left)
  }

  lemma {:induction false} StashStep(m: Sentinels, text: string, cursor: nat, out: string, kept: seq<string>,
      left: seq<Piece>, grown: seq<seq<Piece>>, todo: seq<Span>) returns (cut: Cutting)
    requires Midway(m, text, cursor, kept, left, grown, todo) && todo != []
    ensures cursor <= todo[0].start <= todo[0].end <= |text|
    ensures Midway(m, text, todo[0].end, kept + [text[todo[0].start..todo[0].end]], cut.after, grown + [cut.taken],
      todo[1..])
    ensures ((out + text[cursor..todo[0].start]) + ShowOne(m, Hole(|kept|))) +
      Show(m, After(m, cut.after, todo[0].end, todo[1..], |kept| + 1))
         == out + Show(m, After(m, left, cursor, todo, |kept|))
    ensures (grown + [cut.taken]) + Taken(m, cut.after, todo[0].end, todo[1..]) == grown + Taken(m, left, cursor, todo)
  {
    cut := Cut(m, left, cursor, todo[0]);
    CutText(m, text, left, cursor, todo[0], cut);
    OneStashed(m, out, left, cursor, todo, |kept|, grown);
    KeepsEntries(m, kept, grown, cut, text[todo[0].start..todo[0].end]);
  }

  /** Puts the matches of one pattern aside, each behind the next number. */
  method StashMatches(m: Sentinels, text: string, spans: seq<Span>, stash: seq<string>, ghost ps: seq<Piece>,
      ghost entries: seq<seq<Piece>>)
    returns (out: string, kept: seq<string>)
    requires text == Show(m, ps) && Fits(m, ps, 0, spans) && Sound(m, entries, ps) && Entries(m, stash, entries)
    ensures out == Show(m, After(m, ps, 0, spans, |stash|))
    ensures Entries(m, kept, entries + Taken(m, ps, 0, spans))
  {
    out, kept := "", stash;
    var cursor: nat, todo := 0, spans;
    ghost var left, grown := ps, entries;
    ghost var shown, all := Show(m, After(m, ps, 0, spans, |stash|)), entries + Taken(m, ps, 0, spans);
    assert text[0..] == text;
    while todo != []
      invariant Midway(m, text, cursor, kept, left, grown, todo)
      invariant out + Show(m, After(m, left, cursor, todo, |kept|)) == shown &&
        grown + Taken(m, left, cursor, todo) == all
      decreases |todo|
    {
      ghost var cut := StashStep(m, text, cursor, out, kept, left, grown, todo);
      out := (out + text[cursor..todo[0].start]) + ShowOne(m, Hole(|kept|));
      kept := kept + [text[todo[0].start..todo[0].end]];
      left, grown, cursor, todo := cut.after, grown + [cut.taken], todo[0].end, todo[1..];
    }
    out := out + text[cursor..];
    assert grown + [] == grown;
  }

  // ----- All patterns, there and back

  /** A pattern, as the matches it finds in a text. */
  type Finder = string -> seq<Span>

  /** Pattern after pattern, no match cuts a placeholder an earlier pattern left. */
  ghost predicate FitAll(m: Sentinels, ps: seq<Piece>, n: nat, patterns: seq<Finder>)
    decreases |patterns|
  {
    patterns == [] ||
    var spans := patterns[0](Show(m, ps));
    Fits(m, ps, 0, spans) && FitAll(m, After(m, ps, 0, spans, n), n + |spans|, patterns[1..])
  }

  function Chars(text: string): (ps: seq<Piece>)
    ensures |ps| == |text| && forall i :: 0 <= i < |text| ==> ps[i] == Char(text[i])
  {
    if text == "" then [] else [Char(text[0])] + Chars(text[1..])
  }

  lemma {:induction false} ShowChars(m: Sentinels, text: string)
    ensures Show(m, Chars(text)) == text
  {
    if text != "" {
      ShowChars(m, text[1..]);
      assert Chars(text)[1..] == Chars(text[1..]);
    }
  }

  lemma {:induction false} FitsNext(m: Sentinels, ps: seq<Piece>, n: nat, patterns: seq<Finder>, spans: seq<Span>)
    requires patterns != [] && FitAll(m, ps, n, patterns) && spans == patterns[0](Show(m, ps))
    ensures Fits(m, ps, 0, spans) && FitAll(m, After(m, ps, 0, spans, n), n + |spans|, patterns[1..])
  {
    assert Fits(m, ps, 0, spans);
  }

  /** Puts the matches of one pattern aside; the text still stands for the same. */
  method StashPattern(m: Sentinels, text: string, spans: seq<Span>, stash: seq<string>,
      ghost ps: seq<Piece>, ghost entries: seq<seq<Piece>>, ghost meaning: string)
    returns (out: string, kept: seq<string>, ghost now: seq<Piece>, ghost grown: seq<seq<Piece>>)
    requires text == Show(m, ps) && Entries(m, stash, entries)
    requires Fits(m, ps, 0, spans) && StandsFor(m, entries, ps, |entries|, meaning)
    ensures now == After(m, ps, 0, spans, |entries|) && |grown| == |entries| + |spans|
    ensures out == Show(m, now) && Entries(m, kept, grown) && StandsFor(m, grown, now, |grown|, meaning)
  {
    out, kept := StashMatches(m, text, spans, stash, ps, entries);
    now, grown := After(m, ps, 0, spans, |entries|), entries + Taken(m, ps, 0, spans);
    AfterStandsForSame(m, ps, 0, spans, entries, grown, now, meaning);
  }

  /** Puts the matches of one pattern after another aside. */
  method StashAll(m: Sentinels, text: string, patterns: seq<Finder>, ghost ps: seq<Piece>)
    returns (out: string, stash: seq<string>, ghost now: seq<Piece>, ghost entries: seq<seq<Piece>>)
    requires text == Show(m, ps) && Sound(m, [], ps) && FitAll(m, ps, 0, patterns)
    ensures out == Show(m, now) && Entries(m, stash, entries) &&
      StandsFor(m, entries, now, |entries|, Resolve(m, [], ps, 0))
  {
    out, stash, now, entries := text, [], ps, [];
    var todo := patterns;
    ghost var meaning := Resolve(m, [], ps, 0);
    while todo != []
      invariant out == Show(m, now) && Entries(m, stash, entries)
      invariant FitAll(m, now, |entries|, todo) && StandsFor(m, entries, now, |entries|, meaning)
      decreases |todo|
    {
      var spans := todo[0](out);
      FitsNext(m, now, |entries|, todo, spans);
      out, stash, now, entries := StashPattern(m, out, spans, stash, now, entries, meaning);
      todo := todo[1..];
    }
  }

  // ----- Sentinels

  predicate Occupied(source: string, code: nat)
    requires 0xE000 <= code <= 0xF8FD
  {
    code as char in source || (code + 1) as char in source
  }

  /** Neighbours in the private use area, neither of which the text holds. */
  ghost predicate Picked(m: Sentinels, source: string, first: nat) {
    0xE000 <= first <= m.open as int <= 0xF8FD && m.close as int == m.open as int + 1 &&
      !Occupied(source, m.open as int)
  }

  /** The first pair of neighbouring private characters, from a given one on, that the text leaves free. */
  method PickPair(source: string, first: nat) returns (m: Option<Sentinels>)
    requires 0xE000 <= first <= 0xF8FD
    ensures m.Some? ==>
      Picked(m.value, source, first) && forall code :: first <= code < m.value.open as int ==> Occupied(source, code)
    ensures m.None? ==> forall code :: first <= code <= 0xF8FD ==> Occupied(source, code)
  {
    for code := first to 0xF8FE
      invariant forall c :: first <= c < code ==> Occupied(source, c)
    {
      if !Occupied(source, code) { return Some(Sentinels(code as char, (code + 1) as char)); }
    }
    return None;
  }

  /** Stashing and restoring with nothing in between gives the source back. */
  method StashThenRestore(source: string, first: nat, patterns: seq<Finder>) returns (r: Option<string>)
    requires 0xE000 <= first <= 0xF8FD
    requires forall m: Sentinels :: Picked(m, source, first) ==> FitAll(m, Chars(source), 0, patterns)
    ensures r.Some? ==> r.value == source
    ensures r.None? <==> forall code :: first <= code <= 0xF8FD ==> Occupied(source, code)
  {
    var picked := PickPair(source, first);
    if picked.None? { return None; }
    var m := picked.value;
    ghost var ps := Chars(source);
    ShowChars(m, source);
    NothingToResolve(m, [], ps);
    var out, stash, now, entries := StashAll(m, source, patterns, ps);
    var text := Restore(m, out, stash, now, entries, |entries|);
    return Some(text);
  }
}
