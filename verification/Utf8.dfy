/**
 UTF-8 as section 3 of RFC 3629 defines it, with the decoder that ignores malformed bytes. A `char`
 is a Unicode scalar value.
 */
module Utf8 {
  import opened Wrappers

  type byte = b: int | 0 <= b < 256

  function EncodeChar(c: char): (bytes: seq<byte>)
    ensures 1 <= |bytes| <= 4
  {
    var n := c as int;
    if n < 0x80 then [n]
    else if n < 0x800 then [0xC0 + n / 0x40, Low(n)]
    else if n < 0x10000 then [0xE0 + n / 0x1000, Low(n / 0x40), Low(n)]
    else [0xF0 + n / 0x40000, Low(n / 0x1000), Low(n / 0x40), Low(n)]
  }

  /** A continuation byte for the low six bits. */
  function Low(n: nat): (b: byte)
    ensures Continues(b)
  {
    0x80 + n % 0x40
  }

  predicate Continues(b: byte) {
    0x80 <= b < 0xC0
  }

  function Encode(text: string): seq<byte> {
    if text == "" then [] else EncodeChar(text[0]) + Encode(text[1..])
  }

  predicate IsScalar(n: int) {
    0 <= n < 0xD800 || 0xE000 <= n < 0x110000
  }

  /** The six bits a continuation byte carries. */
  function Six(b: byte): int {
    b as int - 0x80
  }

  function Lead(b: byte, mark: int): int {
    b as int - mark
  }

  /** The number a complete sequence at the front of `b` stands for, and its length. */
  function Front(b: seq<byte>): (int, nat)
    requires b != []
  {
    if b[0] < 0x80 then (Lead(b[0], 0), 1)
    else if 0xC0 <= b[0] < 0xE0 && |b| >= 2 && Continues(b[1]) then (Lead(b[0], 0xC0) * 0x40 + Six(b[1]), 2)
    else if 0xE0 <= b[0] < 0xF0 && |b| >= 3 && Continues(b[1]) && Continues(b[2]) then
      ((Lead(b[0], 0xE0) * 0x40 + Six(b[1])) * 0x40 + Six(b[2]), 3)
    else if 0xF0 <= b[0] < 0xF8 && |b| >= 4 && Continues(b[1]) && Continues(b[2]) && Continues(b[3]) then
      (((Lead(b[0], 0xF0) * 0x40 + Six(b[1])) * 0x40 + Six(b[2])) * 0x40 + Six(b[3]), 4)
    else (-1, 0)
  }

  /** The shortest form is the only one. */
  function ShortestLength(n: nat): nat {
    if n < 0x80 then 1 else if n < 0x800 then 2 else if n < 0x10000 then 3 else 4
  }

  /** The character at the front, if the bytes there are its encoding. */
  function DecodeFirst(b: seq<byte>): (r: Option<(char, nat)>)
    requires b != []
    ensures r.Some? ==> 1 <= r.value.1 <= |b|
  {
    var (n, length) := Front(b);
    if IsScalar(n) && length == ShortestLength(n) then Some((n as char, length)) else None
  }

  /** Decode, ignoring bytes that begin no character. */
  function DecodeIgnore(b: seq<byte>): string {
    if b == [] then ""
    else
      match DecodeFirst(b)
      case Some((c, length)) => [c] + DecodeIgnore(b[length..])
      case None => DecodeIgnore(b[1..])
  }

  lemma LowSix(n: nat)
    ensures n == n / 0x40 * 0x40 + Six(Low(n))
    ensures n / 0x1000 == n / 0x40 / 0x40 && n / 0x40000 == n / 0x1000 / 0x40
  {
  }

  lemma EncodedCharDecodes(c: char, rest: seq<byte>)
    ensures DecodeFirst(EncodeChar(c) + rest) == Some((c, |EncodeChar(c)|))
  {
    hide Low, Six, DecodeFirst;
    var n := c as int;
    var b := EncodeChar(c) + rest;
    LowSix(n);
    LowSix(n / 0x40);
    LowSix(n / 0x1000);
    if n < 0x80 {
      assert b[0] == n;
    } else if n < 0x800 {
      assert b[0] == 0xC0 + n / 0x40 && b[1] == Low(n);
    } else if n < 0x10000 {
      assert b[0] == 0xE0 + n / 0x1000 && b[1] == Low(n / 0x40) && b[2] == Low(n);
    } else {
      assert b[0] == 0xF0 + n / 0x40000 && b[1] == Low(n / 0x1000) && b[2] == Low(n / 0x40) && b[3] == Low(n);
    }
    assert Front(b) == (n, ShortestLength(n));
    FrontDecodes(b, c);
  }

  lemma FrontDecodes(b: seq<byte>, c: char)
    requires b != [] && Front(b) == (c as int, ShortestLength(c as int))
    ensures DecodeFirst(b) == Some((c, ShortestLength(c as int)))
  {
    hide Front, ShortestLength;
  }

  lemma SixBack(q: nat, b: byte)
    requires Continues(b)
    ensures q * 0x40 + Six(b) >= 0
    ensures (q * 0x40 + Six(b)) / 0x40 == q && Low(q * 0x40 + Six(b)) == b
  {
  }

  /** Only a character's own encoding decodes to it. */
  lemma OnlyEncodedCharDecodes(b: seq<byte>, c: char, length: nat)
    requires b != [] && DecodeFirst(b) == Some((c, length))
    ensures b[..length] == EncodeChar(c)
  {
    hide Low, Six;
    var n := c as int;
    if length >= 2 {
      LowSix(n);
      LowSix(n / 0x40);
      var q1: nat := if length == 2 then Lead(b[0], 0xC0) else if length == 3 then Lead(b[0], 0xE0)
          else Lead(b[0], 0xF0);
      SixBack(q1, b[1]);
      if length >= 3 {
        var q2: nat := q1 * 0x40 + Six(b[1]);
        SixBack(q2, b[2]);
        if length == 4 {
          SixBack(q2 * 0x40 + Six(b[2]), b[3]);
        }
      }
    }
  }

  lemma {:induction false} ContinuationsAreIgnored(b: seq<byte>)
    requires forall i :: 0 <= i < |b| ==> Continues(b[i])
    ensures DecodeIgnore(b) == ""
  {
    if b != [] {
      ContinuationsAreIgnored(b[1..]);
    }
  }

  /** A cut-off character decodes to nothing. */
  lemma CutCharIsIgnored(c: char, k: nat)
    requires k < |EncodeChar(c)|
    ensures DecodeIgnore(EncodeChar(c)[..k]) == ""
  {
    var b := EncodeChar(c)[..k];
    if k > 0 {
      assert DecodeFirst(b) == None;
      assert forall i :: 0 <= i < |b[1..]| ==> b[1..][i] == EncodeChar(c)[i + 1];
      ContinuationsAreIgnored(b[1..]);
    }
  }

  lemma {:induction false} EncodeConcat(a: string, b: string)
    ensures Encode(a + b) == Encode(a) + Encode(b)
  {
    if a == "" {
      assert a + b == b;
    } else {
      assert (a + b)[1..] == a[1..] + b;
      EncodeConcat(a[1..], b);
    }
  }

  /** What the decoder makes of the first `k` bytes of a text is the longest run of its whole
      characters that fits: no character is split, invented or needlessly lost. */
  lemma {:induction false} CutKeepsWholeChars(text: string, k: nat) returns (kept: nat)
    requires k <= |Encode(text)|
    ensures kept <= |text| && DecodeIgnore(Encode(text)[..k]) == text[..kept]
    ensures |Encode(text[..kept])| <= k
    ensures kept < |text| ==> |Encode(text[..kept + 1])| > k
  {
    hide EncodeChar, DecodeFirst;
    kept := 0;
    if text != "" {
      var first, rest := EncodeChar(text[0]), Encode(text[1..]);
      if k < |first| {
        assert Encode(text)[..k] == first[..k];
        CutCharIsIgnored(text[0], k);
        assert text[..1][1..] == "" && text[..1][0] == text[0];
        assert Encode(text[..1]) == first + Encode("");
      } else {
        var cut := Encode(text)[..k];
        assert cut == first + rest[..k - |first|];
        EncodedCharDecodes(text[0], rest[..k - |first|]);
        var more := CutKeepsWholeChars(text[1..], k - |first|);
        kept := more + 1;
        DecodeOneMore(text[0], rest[..k - |first|]);
        assert text[..kept] == [text[0]] + text[1..][..more];
        EncodeConcat([text[0]], text[1..][..more]);
        EncodeOne(text[0]);
        if kept < |text| {
          assert text[..kept + 1] == [text[0]] + text[1..][..more + 1];
          EncodeConcat([text[0]], text[1..][..more + 1]);
        }
      }
    }
  }

  lemma EncodeOne(c: char)
    ensures Encode([c]) == EncodeChar(c)
  {
    assert [c][1..] == "";
  }

  lemma DecodeOneMore(c: char, rest: seq<byte>)
    ensures DecodeIgnore(EncodeChar(c) + rest) == [c] + DecodeIgnore(rest)
  {
    hide EncodeChar;
    EncodedCharDecodes(c, rest);
    assert (EncodeChar(c) + rest)[|EncodeChar(c)|..] == rest;
  }

  /** A whole text decodes to itself. */
  lemma {:induction false} DecodeUndoesEncode(text: string)
    ensures DecodeIgnore(Encode(text)) == text
  {
    if text != "" {
      DecodeUndoesEncode(text[1..]);
      DecodeOneMore(text[0], Encode(text[1..]));
    }
  }
}
