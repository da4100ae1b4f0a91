/** Citation keys and the items of a citation group. */
module CitationItems {
  import opened Wrappers

  /** What citations distinguish of a character. The text is read through this only. */
  datatype Class =
    | Space | KeyStart | KeyPart | Plus | At | Semicolon | Comma
    | OpenBracket | CloseBracket | OpenOther | Backslash | Other
  {
    predicate InKey() { KeyStart? || KeyPart? || Plus? }
  }

  function ClassOf(c: char): Class {
    if '0' <= c <= '9' || 'a' <= c <= 'z' || 'A' <= c <= 'Z' || c == '_' then KeyStart
    else if c == '+' then Plus
    else if c in ":.#$%&?<>~/-" then KeyPart
    else if c == '@' then At
    else if c == ';' then Semicolon
    else if c == ',' then Comma
    else if c == '[' then OpenBracket
    else if c == ']' then CloseBracket
    else if c == '(' || c == '{' then OpenOther
    else if c == '\\' then Backslash
    else if '\t' <= c <= '\r' || c in " \U{0085}\U{00A0}\U{1680}\U{2028}\U{2029}\U{202F}\U{205F}\U{3000}" ||
      '\U{2000}' <= c <= '\U{200A}' then Space
    else Other
  }

  type Text = seq<Class>

  function Read(text: string): Text { seq(|text|, i requires 0 <= i < |text| => ClassOf(text[i])) }

  /** An odd number of backslashes directly before a character escapes it. */
  predicate Escaped(text: Text, i: nat)
    requires i <= |text|
  {
    i > 0 && text[i - 1].Backslash? && !Escaped(text, i - 1)
  }

  function KeyRun(text: Text, i: nat): (end: nat)
    requires i <= |text|
    ensures i <= end <= |text| && (forall k :: i <= k < end ==> text[k].InKey()) &&
      (end < |text| ==> !text[end].InKey())
    decreases |text| - i
  {
    if i < |text| && text[i].InKey() then KeyRun(text, i + 1) else i
  }

  /** Where the key that starts here ends. */
  function KeyEnd(text: Text, start: nat): (r: Option<nat>)
    ensures r.Some? ==> start < r.value <= |text| && forall k :: start <= k < r.value ==> text[k].InKey()
  {
    if start < |text| && text[start].KeyStart? then Some(KeyRun(text, start + 1)) else None
  }

  method ParseKey(text: Text, start: nat) returns (end: Option<nat>)
    ensures end == KeyEnd(text, start)
  {
    if start >= |text| || !text[start].KeyStart? { return None; }
    var at := start + 1;
    while at < |text| && text[at].InKey()
      invariant start < at <= |text| && KeyRun(text, at) == KeyRun(text, start + 1)
    {
      at := at + 1;
    }
    return Some(at);
  }

  /** The end of the key behind an unescaped `@`. */
  function KeyAt(text: Text, at: nat): (r: Option<nat>)
    requires at < |text|
    ensures r.Some? ==> text[at].At? && at + 1 < r.value <= |text| && forall k :: at < k < r.value ==> text[k].InKey()
  {
    if text[at].At? && !Escaped(text, at) then KeyEnd(text, at + 1) else None
  }

  /** Behind the last character before `i` that is no space. */
  function ContentEnd(text: Text, i: nat): (r: nat)
    requires i <= |text|
    ensures r <= i && (r > 0 ==> !text[r - 1].Space?) && forall k :: r <= k < i ==> text[k].Space?
  {
    if i == 0 then 0 else if text[i - 1].Space? then ContentEnd(text, i - 1) else i
  }

  predicate CommaAt(text: Text, i: nat) { i < |text| && text[i].Comma? }

  /** A key that a comma or the end of the item follows makes the item a citation. */
  predicate Cites(text: Text, at: nat, end: nat)
    requires at < |text|
  {
    var key := KeyAt(text, at);
    key.Some? && (CommaAt(text, key.value) || key.value == end)
  }

  /** The item between two positions of a text is a citation. */
  ghost predicate ItemValid(text: Text, from: nat, to: nat)
    requires from <= to <= |text|
  {
    exists at {:trigger Cites(text, at, ContentEnd(text, to))} ::
      from <= at < to && Cites(text, at, ContentEnd(text, to))
  }

  // ----- The item as a text of its own

  /** Past the spaces at the start. */
  function Lead(text: Text, i: nat, end: nat): (r: nat)
    requires i <= end <= |text|
    ensures i <= r <= end && (forall k :: i <= k < r ==> text[k].Space?) && (r < end ==> !text[r].Space?)
    decreases end - i
  {
    if i < end && text[i].Space? then Lead(text, i + 1, end) else i
  }

  function Trim(s: Text): Text {
    var end := ContentEnd(s, |s|);
    s[Lead(s, 0, end)..end]
  }

  /** Whether a citation is found in an item. */
  ghost predicate Accepts(raw: Text) { AcceptsTrimmed(Trim(raw)) }

  ghost predicate AcceptsTrimmed(trimmed: Text) {
    exists at {:trigger Cites(trimmed, at, |trimmed|)} :: 0 <= at < |trimmed| && Cites(trimmed, at, |trimmed|)
  }

  method ParseItem(raw: Text) returns (found: bool)
    ensures found <==> Accepts(raw)
  {
    var trimmed := Trim(raw);
    for at := 0 to |trimmed|
      invariant forall k :: 0 <= k < at ==> !Cites(trimmed, k, |trimmed|)
    {
      if trimmed[at].At? && !Escaped(trimmed, at) {
        var key := ParseKey(trimmed, at + 1);
        if key.Some? && (key.value == |trimmed| || trimmed[key.value].Comma?) {
          assert Cites(trimmed, at, |trimmed|);
          return true;
        }
      }
    }
    return false;
  }

  // ----- Both agree: what an item is does not depend on the text around it

  /** `part` is the stretch of `text` from `a` on. */
  ghost predicate IsPart(text: Text, part: Text, a: nat) {
    a + |part| <= |text| && forall k {:trigger part[k]} :: 0 <= k < |part| ==> part[k] == text[a + k]
  }

  /** Nothing at the edges of the stretch reaches in or out. */
  ghost predicate StandsAlone(text: Text, part: Text, a: nat) {
    && IsPart(text, part, a) && (a > 0 ==> !text[a - 1].Backslash?)
    && (a + |part| < |text| ==> !text[a + |part|].InKey() && !text[a + |part|].Comma?)
  }

  lemma {:induction false} SameEscape(text: Text, part: Text, a: nat, i: nat)
    requires StandsAlone(text, part, a) && i <= |part|
    ensures Escaped(part, i) == Escaped(text, a + i)
  {
    if i > 0 { SameEscape(text, part, a, i - 1); }
  }

  lemma {:induction false} SameKeyRun(text: Text, part: Text, a: nat, i: nat)
    requires StandsAlone(text, part, a) && i <= |part|
    ensures a + KeyRun(part, i) == KeyRun(text, a + i)
    decreases |part| - i
  {
    if i < |part| && part[i].InKey() { SameKeyRun(text, part, a, i + 1); }
  }

  lemma {:induction false} SameKeyEnd(text: Text, part: Text, a: nat, start: nat)
    requires StandsAlone(text, part, a) && start <= |part|
    ensures KeyEnd(text, a + start) == match KeyEnd(part, start) case None => None case Some(end) => Some(a + end)
  {
    if start < |part| { SameKeyRun(text, part, a, start + 1); }
  }

  lemma {:induction false} SameCites(text: Text, part: Text, a: nat, at: nat)
    requires StandsAlone(text, part, a) && at < |part|
    ensures Cites(part, at, |part|) <==> Cites(text, a + at, a + |part|)
  {
    SameEscape(text, part, a, at);
    SameKeyEnd(text, part, a, at + 1);
    var key := KeyEnd(part, at + 1);
    assert part[if key.Some? && key.value < |part| then key.value else at] ==
      text[a + if key.Some? && key.value < |part| then key.value else at];
  }

  lemma {:induction false} SameContentEnd(text: Text, part: Text, a: nat, i: nat)
    requires IsPart(text, part, a) && i <= |part|
    ensures ContentEnd(part, i) > 0 ==> a + ContentEnd(part, i) == ContentEnd(text, a + i)
  {
    if i > 0 && part[i - 1].Space? { SameContentEnd(text, part, a, i - 1); }
  }

  /** Where the trimmed item lies in the text. */
  ghost predicate TrimmedAt(text: Text, from: nat, to: nat, part: Text, a: nat)
    requires from <= to <= |text|
  {
    && part != [] && from <= a && a + |part| == ContentEnd(text, to) && StandsAlone(text, part, a)
    && forall k :: from <= k < a ==> text[k].Space?
  }

  lemma {:induction false} SameValidity(text: Text, from: nat, to: nat, part: Text, a: nat)
    requires from <= to <= |text| && TrimmedAt(text, from, to, part, a)
    ensures ItemValid(text, from, to) <==> AcceptsTrimmed(part)
  {
    var end := ContentEnd(text, to);
    if at :| 0 <= at < |part| && Cites(part, at, |part|) {
      SameCites(text, part, a, at);
      assert Cites(text, a + at, end);
    }
    if at :| from <= at < to && Cites(text, at, end) { SameCites(text, part, a, at - a); }
  }

  lemma {:induction false} BlankIsInvalid(text: Text, from: nat, to: nat)
    requires from <= to <= |text| && forall k :: from <= k < to ==> text[k].Space?
    ensures !ItemValid(text, from, to)
  {
  }

  lemma {:induction false} TrimLies(text: Text, from: nat, to: nat, raw: Text)
    requires from <= to <= |text| && |raw| == to - from && IsPart(text, raw, from)
    requires (from > 0 ==> !text[from - 1].Backslash?) && (to < |text| ==> !text[to].InKey() && !text[to].Comma?)
    ensures var end := ContentEnd(raw, |raw|);
      var lead := Lead(raw, 0, end);
      (lead == end ==> forall k :: from <= k < to ==> text[k].Space?) &&
        (lead < end ==> TrimmedAt(text, from, to, raw[lead..end], from + lead))
  {
    var end := ContentEnd(raw, |raw|);
    var lead := Lead(raw, 0, end);
    SpacesAround(text, from, to, raw, lead, end);
    if lead < end {
      assert from + end == ContentEnd(text, to) by { SameContentEnd(text, raw, from, |raw|); }
      EdgesOfTrim(text, from, to, raw, lead, end);
    }
  }

  lemma {:induction false} SpacesAround(text: Text, from: nat, to: nat, raw: Text, lead: nat, end: nat)
    requires from <= to <= |text| && |raw| == to - from && IsPart(text, raw, from) && lead <= end <= |raw|
    requires forall k :: 0 <= k < lead || end <= k < |raw| ==> raw[k].Space?
    ensures forall k :: from <= k < from + lead || from + end <= k < to ==> text[k].Space?
  {
    forall k | from <= k < from + lead || from + end <= k < to ensures text[k].Space? {
      assert raw[k - from] == text[k];
    }
  }

  lemma {:induction false} EdgesOfTrim(text: Text, from: nat, to: nat, raw: Text, lead: nat, end: nat)
    requires from <= to <= |text| && |raw| == to - from && IsPart(text, raw, from) && lead < end <= |raw|
    requires (from > 0 ==> !text[from - 1].Backslash?) && (to < |text| ==> !text[to].InKey() && !text[to].Comma?)
    requires forall k :: from <= k < from + lead || from + end <= k < to ==> text[k].Space?
    ensures StandsAlone(text, raw[lead..end], from + lead)
  {
    forall k | 0 <= k < end - lead ensures raw[lead..end][k] == text[from + lead + k] {
      assert raw[lead + k] == text[from + (lead + k)];
    }
  }

  /** Parsing the item on its own accepts it exactly when the item is valid where it stands. */
  lemma {:induction false} AcceptsIffValid(text: Text, from: nat, to: nat)
    requires from <= to <= |text| && (from > 0 ==> !text[from - 1].Backslash?)
    requires to < |text| ==> !text[to].InKey() && !text[to].Comma?
    ensures Accepts(text[from..to]) <==> ItemValid(text, from, to)
  {
    var raw := text[from..to];
    TrimLies(text, from, to, raw);
    if Trim(raw) == [] {
      BlankIsInvalid(text, from, to);
    } else {
      SameValidity(text, from, to, Trim(raw), from + Lead(raw, 0, ContentEnd(raw, |raw|)));
    }
  }
}
