/** Where the characters of an encoded text begin. */
module Utf8 {
  import opened SpanShift

  /** A code point; that no surrogates are among them does not matter here. */
  type Char = c: nat | c < 0x11_0000

  /** The bytes of a character (section 3 of RFC 3629). */
  function Encode(c: Char): (bytes: Source)
    ensures |bytes| > 0
  {
    if c < 0x80 then [c as Byte]
    else if c < 0x800 then [(0xC0 + c / 0x40) as Byte, Low(c)]
    else if c < 0x1_0000 then [(0xE0 + c / 0x1000) as Byte, Low(c / 0x40), Low(c)]
    else [(0xF0 + c / 0x4_0000) as Byte, Low(c / 0x1000), Low(c / 0x40), Low(c)]
  }

  /** A byte for the lowest six bits. */
  function Low(n: nat): Byte { (0x80 + n % 0x40) as Byte }

  function EncodeAll(text: seq<Char>): Source {
    if text == [] then [] else Encode(text[0]) + EncodeAll(text[1..])
  }

  lemma {:induction false} OnlyFirstBegins(c: Char, k: nat)
    requires k < |Encode(c)|
    ensures Continues(Encode(c)[k]) <==> k > 0
  {
  }

  lemma {:induction false} OneLess(text: seq<Char>, n: nat)
    requires 0 < n <= |text|
    ensures |EncodeAll(text[..n])| == |Encode(text[0])| + |EncodeAll(text[1..][..n - 1])|
  {
    assert text[..n][1..] == text[1..][..n - 1];
  }

  /** A place lies between characters exactly if the bytes before it are those of the first characters. */
  lemma {:induction false} BoundaryIff(text: seq<Char>, at: nat)
    requires at <= |EncodeAll(text)|
    ensures Boundary(EncodeAll(text), at) <==> exists n: nat :: n <= |text| && |EncodeAll(text[..n])| == at
  {
    if at == 0 {
      assert text[..0] == [];
    } else {
      var first, rest := Encode(text[0]), EncodeAll(text[1..]);
      if at < |first| {
        OnlyFirstBegins(text[0], at);
        forall n: nat | 0 < n <= |text| ensures |EncodeAll(text[..n])| > at { OneLess(text, n); }
      } else {
        BoundaryIff(text[1..], at - |first|);
        BehindFirst(text, at);
        if n: nat :| n <= |text[1..]| && |EncodeAll(text[1..][..n])| == at - |first| {
          OneLess(text, n + 1);
        }
        if n: nat :| n <= |text| && |EncodeAll(text[..n])| == at {
          OneLess(text, n);
        }
      }
    }
  }

  lemma {:induction false} BehindFirst(text: seq<Char>, at: nat)
    requires text != [] && |Encode(text[0])| <= at <= |EncodeAll(text)|
    ensures Boundary(EncodeAll(text), at) <==> Boundary(EncodeAll(text[1..]), at - |Encode(text[0])|)
  {
    var rest := text[1..];
    if rest != [] && at == |Encode(text[0])| {
      OnlyFirstBegins(rest[0], 0);
      assert EncodeAll(text)[at] == EncodeAll(rest)[0] == Encode(rest[0])[0];
    }
  }
}
