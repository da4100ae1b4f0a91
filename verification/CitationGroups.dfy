/** Citation groups, told from the characters of their text. */
module CitationGroups {
  import opened CitationBrackets
  import opened CitationItems
  import CitationText
  import CodeTicks

  // ----- Brackets

  /** What a character adds to the number of brackets that are open. */
  function Bracket(s: string, i: nat): int
    requires i < |s|
  {
    if CodeTicks.Escaped(s, i) then 0 else if s[i] == '[' then 1 else if s[i] == ']' then -1 else 0
  }

  function Height(s: string, i: nat, j: nat): int
    requires i <= j <= |s|
  {
    if i == j then 0 else Height(s, i, j - 1) + Bracket(s, j - 1)
  }

  /** The stretch begins with a bracket, ends with the one that closes it, and no end before is as low. */
  ghost predicate Encloses(s: string, open: nat, close: nat) {
    && open < close < |s| && Bracket(s, open) == 1 && Height(s, open, close + 1) == 0
    && forall k :: open < k <= close ==> Height(s, open, k) > 0
  }

  lemma {:induction false} BracketIs(s: string, i: nat)
    requires i < |s|
    ensures Opens(Read(s), i) <==> Bracket(s, i) == 1
    ensures Shuts(Read(s), i) <==> Bracket(s, i) == -1
  {
    CitationText.ReadTells(s);
    CitationText.EscapedIs(Read(s), s, i);
    ClassTells(s[i]);
  }

  /** As long as the bracket is open, the height is that of the stack above it. */
  lemma {:induction false} StackIsHeight(s: string, open: nat, j: nat)
    requires open < j <= |s| && Bracket(s, open) == 1 && forall k :: open < k <= j ==> Height(s, open, k) > 0
    ensures var h, stack := |OpenBefore(Read(s), open)|, OpenBefore(Read(s), j);
      |stack| == h + Height(s, open, j) && stack[h] == open
  {
    BracketIs(s, j - 1);
    if j - 1 > open { StackIsHeight(s, open, j - 1); }
  }

  lemma {:induction false} EnclosedCloses(s: string, open: nat, close: nat)
    requires Encloses(s, open, close)
    ensures Closes(Read(s), open, close)
  {
    StackIsHeight(s, open, close);
    BracketIs(s, close);
  }

  lemma {:induction false} FirstLow(s: string, open: nat, till: nat) returns (k: nat)
    requires open < till <= |s| && Bracket(s, open) == 1 && Height(s, open, till) <= 0
    ensures open < k < till && Height(s, open, k + 1) == 0 && forall m :: open < m <= k ==> Height(s, open, m) > 0
  {
    k := open + 1;
    assert Height(s, open, open) == 0;
    while Height(s, open, k + 1) > 0
      invariant open < k < till && forall m :: open < m <= k ==> Height(s, open, m) > 0
      decreases till - k
    {
      k := k + 1;
    }
  }

  /** A bracket closes another exactly if it is the first to bring the number of open brackets back down. */
  lemma {:induction false} ClosesIff(s: string, open: nat, close: nat)
    ensures Closes(Read(s), open, close) <==> Encloses(s, open, close)
  {
    if Encloses(s, open, close) { EnclosedCloses(s, open, close); }
    if Closes(Read(s), open, close) {
      ClosesLater(Read(s), open, close);
      BracketIs(s, open);
      BracketIs(s, close);
      NotEarlier(s, open, close);
      StackIsHeight(s, open, close);
      OpensAscend(Read(s), close);
    }
  }

  lemma {:induction false} NotEarlier(s: string, open: nat, close: nat)
    requires Closes(Read(s), open, close) && open < close < |s| && Bracket(s, open) == 1
    ensures forall k :: open < k <= close ==> Height(s, open, k) > 0
  {
    forall k | open < k <= close ensures Height(s, open, k) > 0 {
      if Height(s, open, k) <= 0 {
        var low := FirstLow(s, open, k);
        EnclosedCloses(s, open, low);
        ClosesOnce(Read(s), open, low, close);
      }
    }
  }

  // ----- Items

  /** A stretch from the start or a semicolon up to the next semicolon or the end. */
  ghost predicate Piece(s: string, from: nat, till: nat, a: nat, b: nat)
    requires till <= |s|
  {
    && from <= a <= b <= till && (a == from || s[a - 1] == ';') && (b == till || s[b] == ';')
    && forall k :: a <= k < b ==> s[k] != ';'
  }

  ghost predicate HoldsKey(s: string) { exists at: nat, end: nat :: CitationText.KeyCites(s, at, end) }

  ghost predicate PiecesCite(s: string, from: nat, till: nat)
    requires till <= |s|
  {
    forall a: nat, b: nat {:trigger Piece(s, from, till, a, b)} :: Piece(s, from, till, a, b) ==> HoldsKey(s[a..b])
  }

  lemma {:induction false} SemicolonIs(s: string, i: nat)
    requires i < |s|
    ensures |Read(s)| == |s| && (Read(s)[i].Semicolon? <==> s[i] == ';')
  {
    CitationText.OtherClasses(s[i]);
  }

  lemma {:induction false} PieceAccepted(s: string, a: nat, b: nat)
    requires a <= b <= |s|
    ensures AcceptedIn(Read(s))(a, b) <==> HoldsKey(s[a..b])
  {
    assert Read(s)[a..b] == Read(s[a..b]);
    CitationText.AcceptedIff(s[a..b]);
  }

  ghost predicate LastPiece(s: string, from: nat, till: nat, last: nat) {
    from <= last < till <= |s| && s[last] == ';' && forall k :: last < k < till ==> s[k] != ';'
  }

  ghost predicate AllPieces(s: string, cites: Judge, from: nat, till: nat)
    requires till <= |s|
  {
    forall a: nat, b: nat {:trigger Piece(s, from, till, a, b)} :: Piece(s, from, till, a, b) ==> cites(a, b)
  }

  lemma {:induction false} OnePiece(s: string, cites: Judge, from: nat, till: nat)
    requires from <= till <= |s| && forall k :: from <= k < till ==> s[k] != ';'
    ensures AllPieces(s, cites, from, till) <==> cites(from, till)
  {
    assert Piece(s, from, till, from, till);
  }

  lemma {:induction false} MorePieces(s: string, cites: Judge, from: nat, till: nat, last: nat)
    requires LastPiece(s, from, till, last)
    ensures AllPieces(s, cites, from, till) <==> AllPieces(s, cites, from, last) && cites(last + 1, till)
  {
    assert Piece(s, from, till, last + 1, till);
    forall a: nat, b: nat ensures Piece(s, from, till, a, b) <==>
      Piece(s, from, last, a, b) || (a == last + 1 && b == till) {}
  }

  lemma {:induction false} SemicolonsAre(s: string)
    ensures |Read(s)| == |s| && forall i: nat :: i < |s| ==> (Read(s)[i].Semicolon? <==> s[i] == ';')
  {
    forall i: nat | i < |s| ensures Read(s)[i].Semicolon? <==> s[i] == ';' { SemicolonIs(s, i); }
  }

  lemma {:induction false} ItemsArePieces(s: string, text: Text, cites: Judge, from: nat, till: nat)
    requires |text| == |s| && forall i: nat :: i < |s| ==> (text[i].Semicolon? <==> s[i] == ';')
    requires from <= till <= |s|
    ensures ItemsValid(text, cites, from, till) <==> AllPieces(s, cites, from, till)
    decreases till
  {
    var last := LastSemicolon(text, till);
    if last.None? || last.value < from {
      OnePiece(s, cites, from, till);
    } else {
      ItemsArePieces(s, text, cites, from, last.value);
      MorePieces(s, cites, from, till, last.value);
    }
  }

  lemma {:induction false} PiecesAre(s: string, from: nat, till: nat)
    requires from <= till <= |s|
    ensures ItemsValid(Read(s), AcceptedIn(Read(s)), from, till) <==> PiecesCite(s, from, till)
  {
    SemicolonsAre(s);
    var accepted := AcceptedIn(Read(s));
    ItemsArePieces(s, Read(s), accepted, from, till);
    forall a: nat, b: nat {:trigger Piece(s, from, till, a, b)} | Piece(s, from, till, a, b)
      ensures accepted(a, b) <==> HoldsKey(s[a..b]) {
      PieceAccepted(s, a, b);
    }
  }

  // ----- Groups

  /** A text is a citation group from one bracket to another exactly if they enclose it, each piece between semicolons
   * has a key, and no bracket that would make it a link comes next. */
  lemma {:induction false} CitedIff(s: string, open: nat, close: nat)
    ensures Cited(s, open, close) <==>
      && Encloses(s, open, close) && PiecesCite(s, open + 1, close)
      && (close + 1 < |s| ==> s[close + 1] !in ['(', '[', '{'])
  {
    ClosesIff(s, open, close);
    if Encloses(s, open, close) {
      BracketIs(s, open);
      BracketIs(s, close);
      AcceptedIffValid(Read(s), open + 1, close);
      PiecesAre(s, open + 1, close);
      if close + 1 < |s| { FollowedIs(s, close); }
    }
  }
}
