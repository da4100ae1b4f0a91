/** JSON Pointers (RFC 6901): the path of a patch operation as one string. */
module Pointers {
  import opened Wrappers

  /** Every `c` becomes `to`. */
  function ReplaceChar(s: string, c: char, to: string): string {
    if s == [] then [] else (if s[0] == c then to else [s[0]]) + ReplaceChar(s[1..], c, to)
  }

  /** Every `c` directly followed by `d` becomes `to`, from left to right. */
  function ReplacePair(s: string, c: char, d: char, to: char): string {
    if s == [] then []
    else if |s| >= 2 && s[0] == c && s[1] == d then [to] + ReplacePair(s[2..], c, d, to)
    else [s[0]] + ReplacePair(s[1..], c, d, to)
  }

  function Escape(segment: string): string {
    ReplaceChar(ReplaceChar(segment, '~', "~0"), '/', "~1")
  }

  function Unescape(part: string): string {
    ReplacePair(ReplacePair(part, '~', '1', '/'), '~', '0', '~')
  }

  function Pointer(segments: seq<string>): string {
    if segments == [] then "" else ['/'] + (Escape(segments[0]) + Pointer(segments[1..]))
  }

  method WritePointer(segments: seq<string>) returns (out: string)
    ensures out == Pointer(segments)
  {
    out := "";
    for i := 0 to |segments|
      invariant out + Pointer(segments[i..]) == Pointer(segments)
    {
      assert out + (['/'] + (Escape(segments[i]) + Pointer(segments[i + 1..]))) == Pointer(segments) by {
        assert segments[i..][1..] == segments[i + 1..];
      }
      out := out + ['/'] + Escape(segments[i]);
    }
  }

  /** The parts between slashes; there is always one. */
  function Split(s: string): (r: seq<string>)
    ensures |r| >= 1
  {
    if s == [] then [""]
    else
      var r := Split(s[1..]);
      if s[0] == '/' then [""] + r else [[s[0]] + r[0]] + r[1..]
  }

  function UnescapeAll(parts: seq<string>): seq<string> {
    seq(|parts|, i requires 0 <= i < |parts| => Unescape(parts[i]))
  }

  function Decode(path: string): Result<seq<string>> {
    if path == [] then Ok([])
    else if path[0] != '/' then Err("invalid JSON Pointer")
    else Ok(UnescapeAll(Split(path[1..])))
  }

  const KEY_VALUES := "keyValues"

  /** Whether metadata is stripped below a pointer, read off its encoded parts. */
  predicate StripsMetadata(path: string) {
    KEY_VALUES !in Split(path)
  }

  lemma {:induction false} ReplaceCharAfter(x: char, rest: string, c: char, to: string)
    ensures ReplaceChar([x] + rest, c, to) == (if x == c then to else [x]) + ReplaceChar(rest, c, to)
  {
    assert ([x] + rest)[1..] == rest;
  }

  lemma {:induction false} PairKept(x: char, rest: string, c: char, d: char, to: char)
    requires x != c || rest == [] || rest[0] != d
    ensures ReplacePair([x] + rest, c, d, to) == [x] + ReplacePair(rest, c, d, to)
  {
    assert ([x] + rest)[1..] == rest;
  }

  lemma {:induction false} PairReplaced(rest: string, c: char, d: char, to: char)
    ensures ReplacePair([c] + ([d] + rest), c, d, to) == [to] + ReplacePair(rest, c, d, to)
  {
    var s := [c] + ([d] + rest);
    assert s[1..] == [d] + rest && s[2..] == s[1..][1..];
    assert s[2..] == rest;
  }

  /** What escaping does to the first character. */
  lemma {:induction false} EscapeAfter(x: char, rest: string)
    ensures Escape([x] + rest) == (if x == '~' then ['~', '0'] else if x == '/' then ['~', '1'] else [x]) + Escape(rest)
  {
    var tail := ReplaceChar(rest, '~', "~0");
    ReplaceCharAfter(x, rest, '~', "~0");
    if x == '~' {
      assert ReplaceChar([x] + rest, '~', "~0") == ['~'] + (['0'] + tail);
      ReplaceCharAfter('~', ['0'] + tail, '/', "~1");
      ReplaceCharAfter('0', tail, '/', "~1");
    } else {
      ReplaceCharAfter(x, tail, '/', "~1");
    }
  }

  lemma {:induction false} SlashesComeBack(s: string)
    ensures ReplacePair(Escape(s), '~', '1', '/') == ReplaceChar(s, '~', "~0")
  {
    if s != [] {
      var x, rest := s[0], s[1..];
      assert s == [x] + rest;
      SlashesComeBack(rest);
      EscapeAfter(x, rest);
      ReplaceCharAfter(x, rest, '~', "~0");
      if x == '~' {
        assert Escape(s) == ['~'] + (['0'] + Escape(rest));
        PairKept('~', ['0'] + Escape(rest), '~', '1', '/');
        PairKept('0', Escape(rest), '~', '1', '/');
      } else if x == '/' {
        assert Escape(s) == ['~'] + (['1'] + Escape(rest));
        PairReplaced(Escape(rest), '~', '1', '/');
      } else {
        PairKept(x, Escape(rest), '~', '1', '/');
      }
    }
  }

  lemma {:induction false} TildesComeBack(s: string)
    ensures ReplacePair(ReplaceChar(s, '~', "~0"), '~', '0', '~') == s
  {
    if s != [] {
      var x, rest := s[0], s[1..];
      var tail := ReplaceChar(rest, '~', "~0");
      TildesComeBack(rest);
      assert s == [x] + rest;
      ReplaceCharAfter(x, rest, '~', "~0");
      if x == '~' {
        assert ReplaceChar(s, '~', "~0") == ['~'] + (['0'] + tail);
        PairReplaced(tail, '~', '0', '~');
      } else {
        PairKept(x, tail, '~', '0', '~');
      }
    }
  }

  lemma {:induction false} EscapeIsReversible(s: string)
    ensures Unescape(Escape(s)) == s
  {
    SlashesComeBack(s);
    TildesComeBack(s);
  }

  lemma {:induction false} NoSlashInEscape(s: string)
    ensures '/' !in Escape(s)
  {
    if s != [] {
      NoSlashInEscape(s[1..]);
      EscapeAfter(s[0], s[1..]);
      assert s == [s[0]] + s[1..];
    }
  }

  lemma {:induction false} EscapePlain(s: string)
    requires '~' !in s && '/' !in s
    ensures Escape(s) == s
  {
    if s != [] {
      EscapePlain(s[1..]);
      EscapeAfter(s[0], s[1..]);
      assert s == [s[0]] + s[1..];
    }
  }

  lemma {:induction false} SplitAfter(x: char, rest: string)
    ensures x == '/' ==> Split([x] + rest) == [""] + Split(rest)
    ensures x != '/' ==> Split([x] + rest) == [[x] + Split(rest)[0]] + Split(rest)[1..]
  {
    assert ([x] + rest)[1..] == rest;
  }

  lemma {:induction false} SplitLonger(x: char, first: string, s: string, parts: seq<string>)
    requires x != '/' && Split(s) == [first] + parts
    ensures Split([x] + s) == [[x] + first] + parts
  {
    SplitAfter(x, s);
  }

  lemma {:induction false} FirstApart(part: string, rest: string)
    requires part != []
    ensures part == [part[0]] + part[1..] && part + rest == [part[0]] + (part[1..] + rest)
  {
  }

  lemma {:induction false} SplitAtSlash(part: string, rest: string)
    requires '/' !in part && (rest == [] || rest[0] == '/')
    ensures Split(part + rest) == [part] + if rest == [] then [] else Split(rest[1..])
  {
    if part == [] {
      assert part + rest == rest;
    } else {
      var x, tail := part[0], part[1..];
      SplitAtSlash(tail, rest);
      SplitLonger(x, tail, tail + rest, if rest == [] then [] else Split(rest[1..]));
      FirstApart(part, rest);
    }
  }

  function EscapeAll(segments: seq<string>): (r: seq<string>)
    ensures |r| == |segments|
    ensures forall i :: 0 <= i < |r| ==> r[i] == Escape(segments[i])
  {
    if segments == [] then [] else [Escape(segments[0])] + EscapeAll(segments[1..])
  }

  lemma {:induction false} PartsOfPointer(segments: seq<string>)
    requires segments != []
    ensures Pointer(segments) != [] && Pointer(segments)[0] == '/'
    ensures Split(Pointer(segments)[1..]) == EscapeAll(segments)
  {
    var first, rest := Escape(segments[0]), Pointer(segments[1..]);
    NoSlashInEscape(segments[0]);
    if |segments| > 1 { PartsOfPointer(segments[1..]); }
    SplitAtSlash(first, rest);
    assert Pointer(segments)[1..] == first + rest;
  }

  /** Decoding undoes encoding, for every list of segments. */
  lemma {:induction false} DecodePointer(segments: seq<string>)
    ensures Decode(Pointer(segments)) == Ok(segments)
  {
    if segments != [] {
      PartsOfPointer(segments);
      forall i | 0 <= i < |segments| ensures Unescape(Escape(segments[i])) == segments[i] {
        EscapeIsReversible(segments[i]);
      }
      assert UnescapeAll(EscapeAll(segments)) == segments;
    }
  }

  lemma {:induction false} PlainPartOfPointer(segments: seq<string>, s: string)
    requires segments != [] && s != "" && '~' !in s && '/' !in s
    ensures s in Split(Pointer(segments)) <==> s in segments
  {
    PartsOfPointer(segments);
    var rest := Pointer(segments)[1..];
    SplitAfter('/', rest);
    assert Pointer(segments) == ['/'] + rest;
    PlainAmongEscaped(segments, s);
  }

  lemma {:induction false} PlainAmongEscaped(segments: seq<string>, s: string)
    requires '~' !in s && '/' !in s
    ensures s in EscapeAll(segments) <==> s in segments
  {
    if segments != [] {
      PlainAmongEscaped(segments[1..], s);
      PlainEscape(segments[0], s);
      assert segments == [segments[0]] + segments[1..];
    }
  }

  lemma {:induction false} PlainEscape(segment: string, s: string)
    requires '~' !in s && '/' !in s
    ensures Escape(segment) == s <==> segment == s
  {
    EscapePlain(s);
    EscapeIsReversible(s);
    EscapeIsReversible(segment);
  }

  /** The flag read off the pointer is the flag carried down the path. */
  lemma {:induction false} StripsMetadataOfPointer(segments: seq<string>)
    ensures StripsMetadata(Pointer(segments)) <==> KEY_VALUES !in segments
  {
    if segments != [] { PlainPartOfPointer(segments, KEY_VALUES); }
  }
}
