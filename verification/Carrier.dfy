/** Carrier markers: comment lines that hold the opener or closer of a container, and the set of them around one
 * container. */
module Carrier {
  import Decimal
  import opened Wrappers

  // ----- The comment's own terminator

  function SlashCount(s: string): (n: nat)
    ensures n <= |s| && s[..n] == Slashes(n) && (n < |s| ==> s[n] != '\\')
  {
    if s != "" && s[0] == '\\' then
      assert s[..1 + SlashCount(s[1..])] == [s[0]] + s[1..][..SlashCount(s[1..])];
      1 + SlashCount(s[1..])
    else 0
  }

  function Slashes(n: nat): (s: string)
    ensures |s| == n && forall k :: 0 <= k < n ==> s[k] == '\\'
  {
    seq(n, _ => '\\')
  }

  lemma {:induction false} RewriteStep(out: string, s: string, unescape: bool)
    requires s != ""
    ensures out + Rewrite(s, unescape) == (out + Written(s, unescape)) + Rewrite(s[Width(s, unescape)..], unescape)
  {
  }

  /** How a text begins: with two dashes, some backslashes and `>`; with two dashes and anything else; or otherwise. */
  datatype Start = Terminator(slashes: nat) | TwoDashes | Other

  function StartOf(s: string): (r: Start)
    ensures r.Terminator? ==> 3 + r.slashes <= |s|
    ensures r.TwoDashes? ==> 2 <= |s|
  {
    if |s| < 2 || s[0] != '-' || s[1] != '-' then Other
    else
      var n := SlashCount(s[2..]);
      if n < |s| - 2 && s[2 + n] == '>' then Terminator(n) else TwoDashes
  }

  /** How much of the text one step of the walk reads, and what it writes for it. */
  function Width(s: string, unescape: bool): (k: nat)
    requires s != ""
    ensures 0 < k <= |s|
  {
    match StartOf(s)
    case Other => 1
    case TwoDashes => 2
    case Terminator(slashes) => if unescape && slashes == 0 then 2 else 3 + slashes
  }

  function Written(s: string, unescape: bool): (r: string)
    requires s != ""
    ensures r != "" && r[0] == s[0]
  {
    match StartOf(s)
    case Other => [s[0]]
    case TwoDashes => "--"
    case Terminator(slashes) =>
      if unescape && slashes == 0 then "--" else Ending(if unescape then slashes - 1 else slashes + 1)
  }

  /** One backslash more, or one fewer, in every run between two dashes and `>`. */
  function Rewrite(s: string, unescape: bool): (r: string)
    ensures s != "" ==> r != "" && r[0] == s[0]
    decreases |s|
  {
    if s == "" then "" else Written(s, unescape) + Rewrite(s[Width(s, unescape)..], unescape)
  }

  function Ending(slashes: nat): string { "--" + Slashes(slashes) + ">" }

  function Escape(payload: string): string { Rewrite(payload, false) }

  function Unescape(payload: string): string { Rewrite(payload, true) }

  lemma {:induction false} StartOfEnding(slashes: nat, rest: string)
    ensures StartOf(Ending(slashes) + rest) == Terminator(slashes) && (Ending(slashes) + rest)[3 + slashes..] == rest
  {
    var s := Ending(slashes) + rest;
    assert s[2..] == Slashes(slashes) + (">" + rest);
    SlashesThen(slashes, ">" + rest);
  }

  lemma {:induction false} SlashesThen(n: nat, rest: string)
    requires rest != "" ==> rest[0] != '\\'
    ensures SlashCount(Slashes(n) + rest) == n
  {
    if n > 0 {
      SlashesThen(n - 1, rest);
      assert (Slashes(n) + rest)[1..] == Slashes(n - 1) + rest;
    } else {
      assert Slashes(0) + rest == rest;
    }
  }

  lemma {:induction false} EndingOfStart(s: string)
    requires StartOf(s).Terminator?
    ensures s == Ending(StartOf(s).slashes) + s[3 + StartOf(s).slashes..]
  {
    var n := StartOf(s).slashes;
    assert s[..2] == "--" && s[2..][..n] == Slashes(n) && s[2 + n] == '>';
    assert s == s[..2] + s[2..][..n] + [s[2 + n]] + s[3 + n..];
  }

  /** Leading backslashes are copied, and what comes after them begins as it did. */
  lemma {:induction false} SlashesStay(s: string, unescape: bool)
    ensures SlashCount(Rewrite(s, unescape)) == SlashCount(s)
    ensures Rewrite(s, unescape)[SlashCount(s)..] == Rewrite(s[SlashCount(s)..], unescape)
    decreases |s|
  {
    if s != "" && s[0] == '\\' {
      SlashesStay(s[1..], unescape);
      assert Rewrite(s, unescape)[1..] == Rewrite(s[1..], unescape);
      assert s[SlashCount(s)..] == s[1..][SlashCount(s[1..])..];
    } else {
      assert s[0..] == s && Rewrite(s, unescape)[0..] == Rewrite(s, unescape);
    }
  }

  predicate TerminatorAt(s: string, i: nat) { i + 3 <= |s| && s[i] == '-' && s[i + 1] == '-' && s[i + 2] == '>' }

  /** Whether the text has the comment's terminator in it. */
  predicate Terminates(s: string) { exists i: nat :: i < |s| && TerminatorAt(s, i) }

  /** Where no terminator is rewritten, a text that begins with two dashes still does so and nothing more. */
  lemma {:induction false} TwoDashesStay(s: string, unescape: bool)
    requires StartOf(s) == TwoDashes
    ensures StartOf("--" + Rewrite(s[2..], unescape)) == TwoDashes
  {
    var t := s[2..];
    var u := Rewrite(t, unescape);
    SlashesStay(t, unescape);
    AfterSlashesStays(t, unescape);
    assert ("--" + u)[2..] == u;
    var n := SlashCount(t);
    assert n < |t| ==> t[n] == s[2 + n];
  }

  /** Past the leading backslashes a text goes on as before, or ends. */
  lemma {:induction false} AfterSlashesStays(s: string, unescape: bool)
    ensures SlashCount(s) < |Rewrite(s, unescape)| <==> SlashCount(s) < |s|
    ensures SlashCount(s) < |s| ==> Rewrite(s, unescape)[SlashCount(s)] == s[SlashCount(s)]
  {
    var n, u := SlashCount(s), Rewrite(s, unescape);
    SlashesStay(s, unescape);
    if n < |s| {
      assert u[n..] != "" && u[n..][0] == s[n..][0];
    } else {
      assert s[n..] == "";
    }
  }

  lemma {:induction false} OtherStays(s: string, unescape: bool)
    requires s != "" && StartOf(s) == Other
    ensures StartOf([s[0]] + Rewrite(s[1..], unescape)) == Other
  {
    if s[1..] != "" { assert s[1..][0] == s[1]; }
  }

  lemma {:induction false} RestTerminates(s: string, k: nat)
    requires k <= |s| && Terminates(s[k..])
    ensures Terminates(s)
  {
    var i: nat :| i < |s[k..]| && TerminatorAt(s[k..], i);
    assert TerminatorAt(s, k + i);
  }

  lemma {:induction false} BareTerminator(s: string)
    requires StartOf(s) == Terminator(0)
    ensures Terminates(s)
  {
    assert TerminatorAt(s, 0);
  }

  predicate Undone(s: string, unescape: bool) { Rewrite(Rewrite(s, unescape), !unescape) == s }

  lemma {:induction false} OtherUndone(s: string, unescape: bool)
    requires s != "" && StartOf(s) == Other && Undone(s[1..], unescape)
    ensures Undone(s, unescape)
  {
    var t := Rewrite(s[1..], unescape);
    var r := [s[0]] + t;
    OtherStays(s, unescape);
    assert r[1..] == t;
    assert Rewrite(r, !unescape) == [r[0]] + Rewrite(r[1..], !unescape);
    assert s == [s[0]] + s[1..];
  }

  lemma {:induction false} TwoDashesUndone(s: string, unescape: bool)
    requires StartOf(s) == TwoDashes && Undone(s[2..], unescape)
    ensures Undone(s, unescape)
  {
    var t := Rewrite(s[2..], unescape);
    var r := "--" + t;
    TwoDashesStay(s, unescape);
    assert r[2..] == t;
    assert Rewrite(r, !unescape) == "--" + Rewrite(r[2..], !unescape);
    assert s == "--" + s[2..];
  }

  lemma {:induction false} EndingUndone(n: nat, rest: string, unescape: bool)
    requires (unescape ==> n > 0) && Undone(rest, unescape)
    ensures Undone(Ending(n) + rest, unescape)
  {
    var k := if unescape then n - 1 else n + 1;
    EndingRewritten(n, rest, unescape);
    EndingRewritten(k, Rewrite(rest, unescape), !unescape);
  }

  lemma {:induction false} EndingRewritten(n: nat, rest: string, unescape: bool)
    requires unescape ==> n > 0
    ensures Rewrite(Ending(n) + rest, unescape) ==
      Ending(if unescape then n - 1 else n + 1) + Rewrite(rest, unescape)
  {
    StartOfEnding(n, rest);
  }

  lemma {:induction false} StepUndone(s: string, unescape: bool)
    requires s != "" && Undone(s[Width(s, unescape)..], unescape) && (unescape ==> !Terminates(s))
    ensures Undone(s, unescape)
  {
    match StartOf(s) {
      case Other => OtherUndone(s, unescape);
      case TwoDashes => TwoDashesUndone(s, unescape);
      case Terminator(slashes) =>
        if slashes == 0 { BareTerminator(s); }
        EndingOfStart(s);
        EndingUndone(slashes, s[3 + slashes..], unescape);
    }
  }

  /** Unescaping undoes escaping on every text; escaping undoes unescaping on every text without a terminator. */
  lemma {:induction false} RewriteUndoesRewrite(s: string, unescape: bool)
    requires unescape ==> !Terminates(s)
    ensures Undone(s, unescape)
    decreases |s|
  {
    if s != "" {
      var rest := s[Width(s, unescape)..];
      if unescape && Terminates(rest) { RestTerminates(s, Width(s, unescape)); }
      RewriteUndoesRewrite(rest, unescape);
      StepUndone(s, unescape);
    }
  }

  // ----- Which payloads keep a terminator

  function TrailingDashes(s: string): (n: nat)
    ensures n <= |s|
  {
    if s != "" && s[|s| - 1] == '-' then 1 + TrailingDashes(s[..|s| - 1]) else 0
  }

  /** An odd run of three dashes or more directly before `>`. */
  predicate OddRun(s: string, i: nat) {
    i < |s| && s[i] == '>' && TrailingDashes(s[..i]) >= 3 && TrailingDashes(s[..i]) % 2 == 1
  }

  lemma {:induction false} OneMoreTerminates(s: string, c: char)
    ensures Terminates(s + [c]) <==> Terminates(s) || (c == '>' && TrailingDashes(s) >= 2)
    ensures TrailingDashes(s + [c]) == if c == '-' then TrailingDashes(s) + 1 else 0
  {
    var t := s + [c];
    assert t[..|t| - 1] == s;
    if Terminates(s) {
      var i: nat :| i < |s| && TerminatorAt(s, i);
      assert TerminatorAt(t, i);
    }
    if Terminates(t) {
      var i: nat :| i < |t| && TerminatorAt(t, i);
      if i + 3 <= |s| { assert TerminatorAt(s, i); }
    }
    TwoTrailing(s);
    if c == '>' && TrailingDashes(s) >= 2 { assert TerminatorAt(t, |s| - 2); }
  }

  lemma {:induction false} TwoTrailing(s: string)
    ensures TrailingDashes(s) >= 2 <==> |s| >= 2 && s[|s| - 1] == '-' && s[|s| - 2] == '-'
  {
    if s != "" && s[|s| - 1] == '-' {
      var t := s[..|s| - 1];
      assert TrailingDashes(s) == 1 + TrailingDashes(t);
      assert t != "" ==> t[|t| - 1] == s[|s| - 2];
    }
  }

  lemma {:induction false} DashesTerminate(s: string)
    ensures Terminates(s + "--") == Terminates(s) && TrailingDashes(s + "--") == TrailingDashes(s) + 2
  {
    OneMoreTerminates(s, '-');
    OneMoreTerminates(s + ['-'], '-');
    assert (s + ['-']) + ['-'] == s + "--";
  }

  lemma {:induction false} SlashesTerminate(s: string, n: nat)
    ensures Terminates(s + Slashes(n)) == Terminates(s) && TrailingDashes(s + Slashes(n)) == if n == 0
      then TrailingDashes(s) else 0
  {
    if n > 0 {
      SlashesTerminate(s, n - 1);
      OneMoreTerminates(s + Slashes(n - 1), '\\');
      assert (s + Slashes(n - 1)) + ['\\'] == s + Slashes(n);
    } else {
      assert s + Slashes(0) == s;
    }
  }

  lemma {:induction false} EndingTerminates(s: string, n: nat)
    ensures Terminates(s + Ending(n)) == (Terminates(s) || n == 0) && TrailingDashes(s + Ending(n)) == 0
  {
    DashesTerminate(s);
    SlashesTerminate(s + "--", n);
    OneMoreTerminates((s + "--") + Slashes(n), '>');
    assert ((s + "--") + Slashes(n)) + ['>'] == s + Ending(n);
  }

  /** What was read and what was written end in equally many dashes; and an odd run of them has ended, an even one is
   * not followed by `>`. */
  predicate Scanned(p: string, at: nat, out: string) {
    at <= |p| && TrailingDashes(out) == TrailingDashes(p[..at]) &&
    (at < |p| && p[at] == '-' ==> TrailingDashes(out) % 2 == 0) &&
    (at < |p| && p[at] == '>' ==> TrailingDashes(out) == 0 || TrailingDashes(out) % 2 == 1)
  }

  lemma {:induction false} ScanOther(p: string, at: nat, out: string)
    requires Scanned(p, at, out) && at < |p| && StartOf(p[at..]) == Other
    ensures Scanned(p, at + 1, out + [p[at]])
    ensures Terminates(out + [p[at]]) <==> Terminates(out) || OddRun(p, at)
  {
    OneMoreTerminates(out, p[at]);
    OneMoreTerminates(p[..at], p[at]);
    assert p[..at] + [p[at]] == p[..at + 1];
    if at + 1 < |p| { assert p[at..][1] == p[at + 1]; }
    assert p[at..][0] == p[at];
  }

  lemma {:induction false} ScanTwoDashes(p: string, at: nat, out: string)
    requires Scanned(p, at, out) && at < |p| && StartOf(p[at..]) == TwoDashes
    ensures Scanned(p, at + 2, out + "--") && Terminates(out + "--") == Terminates(out)
    ensures !OddRun(p, at) && !OddRun(p, at + 1)
  {
    var s := p[at..];
    assert p[at] == s[0] && p[at + 1] == s[1];
    DashesTerminate(out);
    DashesTerminate(p[..at]);
    assert p[..at] + "--" == p[..at + 2];
    if at + 2 < |p| { assert p[at + 2] == s[2] == s[2..][0]; }
  }

  lemma {:induction false} EndingAt(p: string, at: nat, n: nat)
    requires at + 3 + n <= |p| && p[at..] == Ending(n) + p[at..][3 + n..]
    ensures p[..at] + Ending(n) == p[..at + 3 + n]
    ensures (p[..at] + "--") + Slashes(n) == p[..at + 2 + n]
  {
    forall i | at <= i < at + 3 + n ensures p[i] == Ending(n)[i - at] { assert p[i] == p[at..][i - at]; }
  }

  lemma {:induction false} ScanEnding(p: string, at: nat, out: string)
    requires Scanned(p, at, out) && at < |p| && StartOf(p[at..]).Terminator?
    ensures var n := StartOf(p[at..]).slashes;
      Scanned(p, at + 3 + n, out + Ending(n + 1)) && Terminates(out + Ending(n + 1)) == Terminates(out) &&
      forall i :: at <= i < at + 3 + n ==> !OddRun(p, i)
  {
    var s := p[at..];
    var n := StartOf(s).slashes;
    EndingOfStart(s);
    EndingTerminates(out, n + 1);
    EndingTerminates(p[..at], n);
    EndingAt(p, at, n);
    DashesTerminate(p[..at]);
    SlashesTerminate(p[..at] + "--", n);
    assert p[at] == s[0] == '-';
    forall i | at <= i < at + 3 + n ensures !OddRun(p, i) {
      if i < at + 2 + n { assert p[i] == s[i - at] == Ending(n)[i - at]; }
    }
  }

  predicate OddRunWithin(p: string, at: nat, end: nat) { exists i: nat :: at <= i < end && OddRun(p, i) }

  lemma {:induction false} ScanStep(p: string, at: nat, out: string, s: string, next: nat, written: string)
    requires Scanned(p, at, out) && at < |p| && s == p[at..] && next == at + Width(s, false) &&
      written == Written(s, false)
    ensures Scanned(p, next, out + written)
    ensures Terminates(out + written) <==> Terminates(out) || OddRunWithin(p, at, next)
  {
    match StartOf(s) {
      case Other => ScanOther(p, at, out);
      case TwoDashes => ScanTwoDashes(p, at, out);
      case Terminator(slashes) => ScanEnding(p, at, out);
    }
  }

  lemma {:induction false} WithinSplits(p: string, at: nat, mid: nat, end: nat)
    requires at <= mid <= end
    ensures OddRunWithin(p, at, end) <==> OddRunWithin(p, at, mid) || OddRunWithin(p, mid, end)
  {
  }

  lemma {:induction false} RestIs(p: string, at: nat, next: nat, s: string)
    requires at <= next <= |p| && s == p[at..]
    ensures s[next - at..] == p[next..]
  {
  }

  lemma {:induction false} ScanTerminates(p: string, at: nat, out: string, whole: string)
    requires Scanned(p, at, out) && whole == out + Escape(p[at..])
    ensures Terminates(whole) <==> Terminates(out) || OddRunWithin(p, at, |p|)
    decreases |p| - at
  {
    var s := p[at..];
    if s == "" {
      assert whole == out;
    } else {
      var next, written := at + Width(s, false), Written(s, false);
      ScanStep(p, at, out, s, next, written);
      RewriteStep(out, s, false);
      RestIs(p, at, next, s);
      ScanTerminates(p, next, out + written, whole);
      WithinSplits(p, at, next, |p|);
    }
  }

  /** Escaping leaves a terminator exactly where an odd run of three dashes or more comes directly before `>`. */
  lemma {:induction false} EscapeTerminatesIff(payload: string)
    ensures Terminates(Escape(payload)) <==> exists i: nat :: i < |payload| && OddRun(payload, i)
  {
    assert payload[0..] == payload && payload[..0] == "";
    assert "" + Escape(payload) == Escape(payload);
    ScanTerminates(payload, 0, "", Escape(payload));
    assert OddRunWithin(payload, 0, |payload|) <==> exists i: nat :: i < |payload| && OddRun(payload, i);
  }

  /** What the two characters at the cursor, and the one past the backslashes behind them, say. */
  lemma {:induction false} StartAt(payload: string, at: nat)
    requires at < |payload|
    ensures var dashes := payload[at] == '-' && at + 1 < |payload| && payload[at + 1] == '-';
      if !dashes then StartOf(payload[at..]) == Other
      else
        var n := SlashCount(payload[at + 2..]);
        StartOf(payload[at..]) == if at + 2 + n < |payload| && payload[at + 2 + n] == '>'
          then Terminator(n) else TwoDashes
  {
    var s := payload[at..];
    if |s| >= 2 { assert s[1] == payload[at + 1] && s[2..] == payload[at + 2..]; }
  }

  /** The walk over a payload that both directions share. */
  method RewriteTerminator(payload: string, unescape: bool) returns (out: string)
    ensures out == Rewrite(payload, unescape)
  {
    out := "";
    var at := 0;
    ghost var all := Rewrite(payload, unescape);
    ghost var left := payload;
    while at < |payload|
      invariant at <= |payload| && left == payload[at..] && out + Rewrite(left, unescape) == all
    {
      var written, next := RewriteOnce(payload, at, unescape, left);
      RewriteStep(out, left, unescape);
      left := left[Width(left, unescape)..];
      out, at := out + written, next;
    }
    assert out + "" == out;
  }

  /** One round of the walk. */
  method RewriteOnce(payload: string, at: nat, unescape: bool, ghost left: string) returns (written: string, next: nat)
    requires at < |payload| && left == payload[at..]
    ensures written == Written(left, unescape) && next == at + Width(left, unescape)
    ensures at < next <= |payload| && left[Width(left, unescape)..] == payload[next..]
  {
    StartAt(payload, at);
    if payload[at] != '-' || at + 1 >= |payload| || payload[at + 1] != '-' { return [payload[at]], at + 1; }
    var end := PastSlashes(payload, at + 2);
    var slashes := end - (at + 2);
    if end >= |payload| || payload[end] != '>' || (unescape && slashes == 0) { return "--", at + 2; }
    var kept := if unescape then slashes - 1 else slashes + 1;
    return Ending(kept), end + 1;
  }

  method PastSlashes(text: string, start: nat) returns (end: nat)
    requires start <= |text|
    ensures end == start + SlashCount(text[start..])
  {
    end := start;
    while end < |text| && text[end] == '\\'
      invariant start <= end <= |text| && end - start + SlashCount(text[end..]) == SlashCount(text[start..])
    {
      assert text[end..][0] == '\\' && text[end..][1..] == text[end + 1..];
      end := end + 1;
    }
    assert end < |text| ==> text[end..][0] == text[end];
  }

  // ----- Marker lines

  const STEM: string := "<!-- carve:"
  const SUFFIX: string := " -->"

  /** One past the largest number a `usize` holds. */
  const USIZE: nat := 0x1_0000_0000_0000_0000

  function CarrierLineAt(payload: string, depth: nat): string {
    var prefix := if depth == 1 then STEM + " " else STEM + Decimal.Print(depth) + " ";
    if payload == "" then prefix + "-->" else prefix + Escape(payload) + SUFFIX
  }

  predicate EndsWith(s: string, suffix: string) { |suffix| <= |s| && s[|s| - |suffix|..] == suffix }

  /** What stands between the blank after the numeral and the suffix. */
  function PayloadOf(tail: string): Option<string> {
    if tail == SUFFIX then Some("")
    else if tail == "" || tail[0] != ' ' || !EndsWith(tail[1..], SUFFIX) then None
    else Some(tail[1..|tail| - |SUFFIX|])
  }

  function DigitCount(s: string): (n: nat)
    ensures n <= |s| && Decimal.AllDigits(s[..n]) && (n < |s| ==> !Decimal.IsDigit(s[n]))
  {
    if s != "" && Decimal.IsDigit(s[0]) then
      var n := DigitCount(s[1..]);
      assert s[..1 + n] == [s[0]] + s[1..][..n];
      1 + n
    else 0
  }

  /** The depth and the tail behind it; a depth is written only from 2 on. */
  function DepthOf(rest: string): Option<(nat, string)> {
    if rest != "" && rest[0] == ' ' then Some((1, rest))
    else
      var digits := DigitCount(rest);
      if digits == 0 then None
      else
        var depth := Decimal.Value(rest[..digits]);
        if 2 <= depth < USIZE then Some((depth, rest[digits..])) else None
  }

  function CarrierPayloadAt(line: string): Option<(string, nat)> {
    if !(STEM <= line) then None
    else match DepthOf(line[|STEM|..])
      case None => None
      case Some((depth, tail)) =>
        match PayloadOf(tail)
        case None => None
        case Some(inner) => if Terminates(inner) then None else Some((Unescape(inner), depth))
  }

  // ----- Printing and reading

  function Numeral(depth: nat): string { if depth == 1 then "" else Decimal.Print(depth) }

  function Tail(payload: string): string { if payload == "" then SUFFIX else " " + Escape(payload) + SUFFIX }

  lemma {:induction false} LineParts(payload: string, depth: nat)
    ensures CarrierLineAt(payload, depth) == STEM + (Numeral(depth) + Tail(payload))
  {
    var numeral := Numeral(depth);
    if payload == "" {
      assert " " + "-->" == SUFFIX;
      assert (STEM + numeral + " ") + "-->" == STEM + (numeral + SUFFIX);
    } else {
      assert (STEM + numeral + " ") + Escape(payload) + SUFFIX == STEM + (numeral + (" " + Escape(payload) + SUFFIX));
    }
    if depth == 1 { assert STEM + "" == STEM; }
  }

  lemma {:induction false} DigitsThen(digits: string, rest: string)
    requires Decimal.AllDigits(digits) && (rest != "" ==> !Decimal.IsDigit(rest[0]))
    ensures DigitCount(digits + rest) == |digits|
    decreases |digits|
  {
    if digits == "" {
      assert digits + rest == rest;
    } else {
      assert (digits + rest)[1..] == digits[1..] + rest;
      DigitsThen(digits[1..], rest);
    }
  }

  /** The numeral is read up to the blank, whatever comes behind it. */
  lemma {:induction false} DepthOfNumeral(digits: string, tail: string)
    requires Decimal.AllDigits(digits) && tail != "" && tail[0] == ' '
    ensures DepthOf(digits + tail) ==
      if digits == "" then Some((1, tail))
      else if 2 <= Decimal.Value(digits) < USIZE then Some((Decimal.Value(digits), tail)) else None
  {
    var rest := digits + tail;
    DigitsThen(digits, tail);
    assert rest[..|digits|] == digits && rest[|digits|..] == tail;
    if digits != "" { assert rest[0] == digits[0] && Decimal.IsDigit(rest[0]); }
  }

  lemma {:induction false} PayloadOfTail(payload: string)
    ensures PayloadOf(Tail(payload)) == Some(Escape(payload)) && Tail(payload) != "" && Tail(payload)[0] == ' '
  {
    if payload != "" {
      var escaped := Escape(payload);
      var tail := " " + escaped + SUFFIX;
      assert tail[1..] == escaped + SUFFIX && tail[1..][|escaped|..] == SUFFIX;
      assert tail[1..|tail| - |SUFFIX|] == escaped;
    }
  }

  predicate Writable(payload: string) { !exists i: nat :: i < |payload| && OddRun(payload, i) }

  /** A printed marker reads back as its payload and depth, except at depth 0 and where an odd run of dashes keeps a
   * terminator; there it is no marker. */
  lemma {:induction false} PrintedLineReads(payload: string, depth: nat)
    requires depth < USIZE
    ensures CarrierPayloadAt(CarrierLineAt(payload, depth)) == if depth >= 1 && Writable(payload)
      then Some((payload, depth)) else None
  {
    var line, rest := CarrierLineAt(payload, depth), Numeral(depth) + Tail(payload);
    LineParts(payload, depth);
    assert line[|STEM|..] == rest;
    PayloadOfTail(payload);
    DepthOfNumeral(Numeral(depth), Tail(payload));
    Decimal.ValueOfPrint(depth);
    assert DepthOf(rest) == if depth >= 1 then Some((depth, Tail(payload))) else None;
    EscapeTerminatesIff(payload);
    RewriteUndoesRewrite(payload, false);
  }

  /** A line with the numeral and the empty payload spelled the printer's way. */
  predicate Canonical(line: string)
    requires STEM <= line
  {
    var rest := line[|STEM|..];
    !("0" <= rest) && rest[DigitCount(rest)..] != "  -->"
  }

  lemma {:induction false} PayloadOfIs(tail: string)
    requires PayloadOf(tail).Some? && !Terminates(PayloadOf(tail).value)
    ensures tail[0] == ' ' && (Tail(Unescape(PayloadOf(tail).value)) == tail <==> tail != "  -->")
  {
    var inner := PayloadOf(tail).value;
    RewriteUndoesRewrite(inner, true);
    if tail != SUFFIX {
      assert tail[1..][..|inner|] == inner && tail[1..][|inner|..] == SUFFIX;
      assert tail == " " + inner + SUFFIX;
      if inner == "" { assert tail == "  -->"; }
    }
  }

  lemma {:induction false} NumeralOfIs(digits: string)
    requires Decimal.AllDigits(digits) && (digits != "" ==> 2 <= Decimal.Value(digits))
    ensures Numeral(if digits == "" then 1 else Decimal.Value(digits)) == digits <==> !("0" <= digits)
  {
    if digits != "" && digits[0] != '0' { Decimal.PrintOfValue(digits); }
    if "0" <= digits { assert digits[0] == '0'; }
  }

  /** A numeral and a tail are told apart in the line they make up. */
  lemma {:induction false} PartsTell(digits: string, tail: string, other: string, otherTail: string)
    requires Decimal.AllDigits(digits) && tail != "" && tail[0] == ' ' && Decimal.AllDigits(other) && otherTail != "" &&
      otherTail[0] == ' '
    ensures digits + tail == other + otherTail <==> digits == other && tail == otherTail
  {
    var a, b := digits + tail, other + otherTail;
    DigitsThen(digits, tail);
    DigitsThen(other, otherTail);
    assert a[..|digits|] == digits && a[|digits|..] == tail && b[..|other|] == other && b[|other|..] == otherTail;
  }

  lemma {:induction false} PartsOfLine(line: string) returns (digits: string, tail: string)
    requires CarrierPayloadAt(line).Some?
    ensures line == STEM + (digits + tail) && Decimal.AllDigits(digits) && PayloadOf(tail).Some? &&
      !Terminates(PayloadOf(tail).value)
    ensures tail != "" && tail[0] == ' ' && (digits != "" ==> 2 <= Decimal.Value(digits) < USIZE)
    ensures CarrierPayloadAt(line).value ==
      (Unescape(PayloadOf(tail).value), if digits == "" then 1 else Decimal.Value(digits))
    ensures Canonical(line) <==> !("0" <= digits) && tail != "  -->"
  {
    var rest := line[|STEM|..];
    digits, tail := rest[..DigitCount(rest)], rest[DigitCount(rest)..];
    assert line == STEM + rest;
    PartsOfRest(rest);
  }

  lemma {:induction false} PartsOfRest(rest: string)
    requires DepthOf(rest).Some? && DepthOf(rest).value.1 != "" && DepthOf(rest).value.1[0] == ' '
    ensures var digits, tail := rest[..DigitCount(rest)], rest[DigitCount(rest)..];
      && rest == digits + tail && (digits != "" ==> 2 <= Decimal.Value(digits) < USIZE)
      && DepthOf(rest).value == (if digits == "" then 1 else Decimal.Value(digits), tail)
      && ("0" <= rest <==> "0" <= digits)
  {
    var digits, tail := rest[..DigitCount(rest)], rest[DigitCount(rest)..];
    assert rest == digits + tail;
    assert rest[0] == if digits == "" then ' ' else digits[0];
  }

  /** Every marker reads the same once printed again, and is printed as it was exactly when it was spelled the
   * printer's way. */
  lemma {:induction false} ReadLinePrints(line: string)
    requires CarrierPayloadAt(line).Some?
    ensures var (payload, depth) := CarrierPayloadAt(line).value;
      CarrierPayloadAt(CarrierLineAt(payload, depth)) == Some((payload, depth)) &&
        (CarrierLineAt(payload, depth) == line <==> Canonical(line))
  {
    var (payload, depth) := CarrierPayloadAt(line).value;
    var digits, tail := PartsOfLine(line);
    RewriteUndoesRewrite(PayloadOf(tail).value, true);
    EscapeTerminatesIff(payload);
    PrintedLineReads(payload, depth);
    PayloadOfIs(tail);
    NumeralOfIs(digits);
    PayloadOfTail(payload);
    PartsTell(Numeral(depth), Tail(payload), digits, tail);
    SameBehindStem(payload, depth, digits + tail);
  }

  lemma {:induction false} SameBehindStem(payload: string, depth: nat, rest: string)
    ensures CarrierLineAt(payload, depth) == STEM + rest <==> Numeral(depth) + Tail(payload) == rest
  {
    LineParts(payload, depth);
    var printed := Numeral(depth) + Tail(payload);
    assert (STEM + printed)[|STEM|..] == printed && (STEM + rest)[|STEM|..] == rest;
  }

  // ----- Which lines are markers

  /** How a marker is spelled: its numeral, if it has one, and what stands before the suffix. */
  ghost predicate Spells(line: string, digits: string, inner: string) {
    && Decimal.AllDigits(digits) && (digits == "" || 2 <= Decimal.Value(digits) < USIZE) && !Terminates(inner)
    && ((inner == "" && line == STEM + (digits + SUFFIX)) || line == STEM + (digits + (" " + inner + SUFFIX)))
  }

  lemma {:induction false} InnerOf(inner: string)
    ensures PayloadOf(" " + inner + SUFFIX) == Some(inner)
  {
    var tail := " " + inner + SUFFIX;
    assert tail[1..] == inner + SUFFIX && tail[1..][|inner|..] == SUFFIX;
    assert tail[1..|tail| - |SUFFIX|] == inner;
  }

  lemma {:induction false} SpelledReads(line: string, digits: string, inner: string)
    requires Spells(line, digits, inner)
    ensures CarrierPayloadAt(line) == Some((Unescape(inner), if digits == "" then 1 else Decimal.Value(digits)))
  {
    var tail := if line == STEM + (digits + SUFFIX) && inner == "" then SUFFIX else " " + inner + SUFFIX;
    assert line == STEM + (digits + tail) && line[|STEM|..] == digits + tail;
    InnerOf(inner);
    DepthOfNumeral(digits, tail);
  }

  lemma {:induction false} SpellingOf(line: string) returns (digits: string, inner: string)
    requires CarrierPayloadAt(line).Some?
    ensures Spells(line, digits, inner)
  {
    var tail;
    digits, tail := PartsOfLine(line);
    inner := PayloadOf(tail).value;
    if tail != SUFFIX { assert tail == " " + inner + SUFFIX by { BehindBlank(tail); } }
  }

  lemma {:induction false} BehindBlank(tail: string)
    requires PayloadOf(tail).Some? && tail != SUFFIX
    ensures tail == " " + PayloadOf(tail).value + SUFFIX
  {
    var inner := PayloadOf(tail).value;
    assert tail[1..][..|inner|] == inner && tail[1..][|inner|..] == SUFFIX;
  }

  /** A line is read as a marker exactly if it is spelled like one. */
  lemma {:induction false} ReadsIff(line: string)
    ensures CarrierPayloadAt(line).Some? <==> exists digits, inner :: Spells(line, digits, inner)
  {
    if CarrierPayloadAt(line).Some? {
      var digits, inner := SpellingOf(line);
    }
    if digits, inner :| Spells(line, digits, inner) {
      SpelledReads(line, digits, inner);
    }
  }

  /** Three dashes before `>` are escaped as two and one, so the comment still ends there. */
  lemma {:induction false} ThreeDashesAreLost()
    ensures !Writable("--->") && CarrierPayloadAt(CarrierLineAt("--->", 1)) == None
  {
    var payload := "--->";
    assert payload[..3] == "---" && "---"[..2] == "--" && "--"[..1] == "-";
    assert TrailingDashes("-") == 1 && TrailingDashes("--") == 2 && TrailingDashes("---") == 3;
    assert OddRun(payload, 3);
    PrintedLineReads(payload, 1);
  }
}
