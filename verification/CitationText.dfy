/** Citation items, told from the characters of their text. */
module CitationText {
  import opened CitationItems
  import opened Wrappers
  import CodeTicks

  /** A letter or digit of ASCII, or the underscore. */
  predicate BeginsKey(c: char) { 'A' <= c <= 'Z' || 'a' <= c <= 'z' || '0' <= c <= '9' || c == '_' }

  predicate GoesOnKey(c: char) {
    BeginsKey(c) ||
    c in [':', '.', '#', '$', '%', '&', '+', '?', '<', '>', '~', '/', '-']
  }

  /** The characters with the property White_Space of the Unicode Character Database. */
  predicate IsBlank(c: char) {
    || '\U{0009}' <= c <= '\U{000D}' || c == '\U{0020}' || c == '\U{0085}' || c == '\U{00A0}' || c == '\U{1680}'
    || '\U{2000}' <= c <= '\U{200A}' || c == '\U{2028}' || c == '\U{2029}' || c == '\U{202F}' || c == '\U{205F}'
    || c == '\U{3000}'
  }

  lemma {:induction false} KeyClasses(c: char)
    ensures ClassOf(c).KeyStart? <==> BeginsKey(c)
    ensures ClassOf(c).InKey() <==> GoesOnKey(c)
  {
  }

  lemma {:induction false} OtherClasses(c: char)
    ensures ClassOf(c).At? <==> c == '@'
    ensures ClassOf(c).Comma? <==> c == ','
    ensures ClassOf(c).Semicolon? <==> c == ';'
    ensures ClassOf(c).Backslash? <==> c == '\\'
    ensures ClassOf(c).Plus? <==> c == '+'
  {
  }

  lemma {:induction false} SpaceClass(c: char)
    ensures ClassOf(c).Space? <==> IsBlank(c)
  {
  }

  /** What a class tells of its character. */
  ghost predicate Tells(k: Class, c: char) {
    && (k.At? <==> c == '@') && (k.Comma? <==> c == ',') && (k.Backslash? <==> c == '\\')
    && (k.KeyStart? <==> BeginsKey(c)) && (k.InKey() <==> GoesOnKey(c)) && (k.Space? <==> IsBlank(c))
  }

  ghost predicate Reads(text: Text, s: string) {
    |text| == |s| && forall i {:trigger Tells(text[i], s[i])} :: 0 <= i < |s| ==> Tells(text[i], s[i])
  }

  lemma {:induction false} ReadTells(s: string)
    ensures Reads(Read(s), s)
  {
    forall i {:trigger Tells(Read(s)[i], s[i])} | 0 <= i < |s| ensures Tells(Read(s)[i], s[i]) {
      KeyClasses(s[i]);
      OtherClasses(s[i]);
      SpaceClass(s[i]);
    }
  }

  lemma {:induction false} EscapedIs(text: Text, s: string, i: nat)
    requires Reads(text, s) && i <= |s|
    ensures Escaped(text, i) <==> CodeTicks.Escaped(s, i)
  {
    if i > 0 {
      assert Tells(text[i - 1], s[i - 1]);
      EscapedIs(text, s, i - 1);
    }
  }

  /** An unescaped at sign before a key that ends at `end`. */
  ghost predicate KeyStands(s: string, at: nat, end: nat) {
    && at + 1 < end <= |s| && s[at] == '@' && !CodeTicks.Escaped(s, at)
    && BeginsKey(s[at + 1]) && forall k :: at + 1 < k < end ==> GoesOnKey(s[k])
  }

  /** Behind it comes a comma, or nothing but blanks. */
  ghost predicate KeyCites(s: string, at: nat, end: nat) {
    KeyStands(s, at, end) && ((end < |s| && s[end] == ',') || forall k :: end <= k < |s| ==> IsBlank(s[k]))
  }

  lemma {:induction false} ContentIs(text: Text, s: string, i: nat, end: nat)
    requires Reads(text, s) && end <= i <= |s|
    ensures ContentEnd(text, i) <= end <==> forall k :: end <= k < i ==> IsBlank(s[k])
  {
    if end < i {
      assert Tells(text[i - 1], s[i - 1]);
      if IsBlank(s[i - 1]) { ContentIs(text, s, i - 1, end); }
    }
  }

  lemma {:induction false} KeyRunIs(text: Text, s: string, i: nat, end: nat)
    requires Reads(text, s) && i <= end <= |s|
    requires (forall k :: i <= k < end ==> GoesOnKey(s[k])) && (end < |s| ==> !GoesOnKey(s[end]))
    ensures KeyRun(text, i) == end
    decreases end - i
  {
    if i < |s| {
      assert Tells(text[i], s[i]);
      if i < end { KeyRunIs(text, s, i + 1, end); }
    }
  }

  lemma {:induction false} KeyIs(text: Text, s: string, at: nat, end: nat)
    requires Reads(text, s) && KeyStands(s, at, end) && (end < |s| ==> !GoesOnKey(s[end]))
    ensures KeyAt(text, at) == Some(end)
  {
    assert Tells(text[at], s[at]) && Tells(text[at + 1], s[at + 1]);
    EscapedIs(text, s, at);
    KeyRunIs(text, s, at + 2, end);
  }

  lemma {:induction false} CitesIs(text: Text, s: string, at: nat, end: nat)
    requires Reads(text, s) && KeyCites(s, at, end)
    ensures Cites(text, at, ContentEnd(text, |s|))
  {
    KeyIs(text, s, at, end);
    if end < |s| && s[end] == ',' {
      assert Tells(text[end], s[end]);
    } else {
      ContentIs(text, s, |s|, end);
      ContentIs(text, s, |s|, end - 1);
      assert GoesOnKey(s[end - 1]);
    }
  }

  lemma {:induction false} KeyOnly(text: Text, s: string, at: nat)
    requires Reads(text, s) && at < |s| && KeyAt(text, at).Some?
    ensures KeyStands(s, at, KeyAt(text, at).value)
  {
    var end := KeyAt(text, at).value;
    assert Tells(text[at], s[at]) && Tells(text[at + 1], s[at + 1]);
    EscapedIs(text, s, at);
    forall k | at + 1 < k < end ensures GoesOnKey(s[k]) { assert Tells(text[k], s[k]); }
  }

  lemma {:induction false} CitesOnly(text: Text, s: string, at: nat) returns (end: nat)
    requires Reads(text, s) && at < |s| && Cites(text, at, ContentEnd(text, |s|))
    ensures KeyCites(s, at, end)
  {
    end := KeyAt(text, at).value;
    KeyOnly(text, s, at);
    if CommaAt(text, end) { assert Tells(text[end], s[end]); } else { ContentIs(text, s, |s|, end); }
  }

  /** An item is a citation exactly if a key stands in it behind an unescaped at sign, before a comma or the end. */
  lemma {:induction false} AcceptedIff(s: string)
    ensures Accepts(Read(s)) <==> exists at: nat, end: nat :: KeyCites(s, at, end)
  {
    var text := Read(s);
    ReadTells(s);
    assert text[0..|s|] == text;
    AcceptsIffValid(text, 0, |s|);
    if at: nat, end: nat :| KeyCites(s, at, end) { CitesIs(text, s, at, end); }
    if ItemValid(text, 0, |s|) {
      var at: nat :| at < |s| && Cites(text, at, ContentEnd(text, |s|));
      var end := CitesOnly(text, s, at);
    }
  }
}
