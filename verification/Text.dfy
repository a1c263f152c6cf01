/** UTF-8 (RFC 3629, sections 3 and 4): the well-formed byte strings are the encodings of texts. */
module Text {
  import opened Types
  import opened Wire

  /** A Unicode scalar value. */
  type Scalar = c: int | 0 <= c < 0xD800 || 0xE000 <= c < 0x11_0000

  function EncodeScalar(c: Scalar): (b: Bytes)
    ensures |b| > 0
  {
    if c < 0x80 then [c]
    else if c < 0x800 then [0xC0 + c / 64, 0x80 + c % 64]
    else if c < 0x1_0000 then [0xE0 + c / 4096, 0x80 + c / 64 % 64, 0x80 + c % 64]
    else [0xF0 + c / 262144, 0x80 + c / 4096 % 64, 0x80 + c / 64 % 64, 0x80 + c % 64]
  }

  function EncodeText(text: seq<Scalar>): Bytes {
    if text == [] then [] else EncodeScalar(text[0]) + EncodeText(text[1..])
  }

  /** A number and six further bits. */
  function Shifted(high: int, low: Byte): int {
    64 * high + (low - 0x80)
  }

  /** The scalar value that begins a well-formed string. */
  function FirstScalar(b: Bytes): (c: Scalar)
    requires ValidUtf8(b) && b != []
  {
    var lead: int := b[0];
    if lead < 0x80 then lead
    else if lead < 0xE0 then Shifted(lead - 0xC0, b[1])
    else if lead < 0xF0 then Shifted(Shifted(lead - 0xE0, b[1]), b[2])
    else Shifted(Shifted(Shifted(lead - 0xF0, b[1]), b[2]), b[3])
  }

  lemma ShiftedBack(high: nat, low: Byte)
    requires Continuation(low)
    ensures Shifted(high, low) / 64 == high && 0x80 + Shifted(high, low) % 64 == low
  {
  }

  lemma SixBitsAtATime(c: nat)
    ensures c / 4096 == c / 64 / 64 && c / 262144 == c / 64 / 64 / 64
  {
  }

  /** How many bytes the first scalar value takes. */
  function FirstLength(b: Bytes): nat
    requires b != []
  {
    if b[0] < 0x80 then 1 else if b[0] < 0xE0 then 2 else if b[0] < 0xF0 then 3 else 4
  }

  lemma FirstLengthFits(b: Bytes)
    requires ValidUtf8(b) && b != []
    ensures FirstLength(b) <= |b| && ValidUtf8(b[FirstLength(b)..])
    ensures forall i :: 1 <= i < FirstLength(b) ==> Continuation(b[i])
  {
  }

  lemma FirstBytes(b: Bytes)
    requires ValidUtf8(b) && b != []
    ensures var c, k := FirstScalar(b), FirstLength(b);
      |EncodeScalar(c)| == k <= |b| && forall i :: 0 <= i < k ==> EncodeScalar(c)[i] == b[i]
  {
    FirstLengthFits(b);
    var k, lead := FirstLength(b), b[0] as int;
    SixBitsAtATime(FirstScalar(b));
    if k == 2 {
      ShiftedBack(lead - 0xC0, b[1]);
    } else if k == 3 {
      ShiftedBack(lead - 0xE0, b[1]);
      ShiftedBack(Shifted(lead - 0xE0, b[1]), b[2]);
    } else if k == 4 {
      ShiftedBack(lead - 0xF0, b[1]);
      ShiftedBack(Shifted(lead - 0xF0, b[1]), b[2]);
      ShiftedBack(Shifted(Shifted(lead - 0xF0, b[1]), b[2]), b[3]);
    }
  }

  lemma FirstScalarIsFirst(b: Bytes)
    requires ValidUtf8(b) && b != []
    ensures var first := EncodeScalar(FirstScalar(b));
      |first| <= |b| && b == first + b[|first|..] && ValidUtf8(b[|first|..])
  {
    FirstBytes(b);
    FirstLengthFits(b);
  }

  lemma ScalarIsUtf8(c: Scalar, rest: Bytes)
    requires ValidUtf8(rest)
    ensures ValidUtf8(EncodeScalar(c) + rest)
  {
    var first := EncodeScalar(c);
    var b := first + rest;
    assert b[|first|..] == rest;
  }

  lemma {:induction false} TextIsUtf8(text: seq<Scalar>)
    ensures ValidUtf8(EncodeText(text))
  {
    if text != [] {
      TextIsUtf8(text[1..]);
      ScalarIsUtf8(text[0], EncodeText(text[1..]));
    }
  }

  lemma EncodeFirst(c: Scalar, text: seq<Scalar>)
    ensures EncodeText([c] + text) == EncodeScalar(c) + EncodeText(text)
  {
    assert ([c] + text)[1..] == text;
  }

  lemma {:induction false} Utf8IsText(b: Bytes) returns (text: seq<Scalar>)
    requires ValidUtf8(b)
    ensures EncodeText(text) == b
    decreases |b|
  {
    text := [];
    if b != [] {
      FirstScalarIsFirst(b);
      var c := FirstScalar(b);
      var rest := Utf8IsText(b[|EncodeScalar(c)|..]);
      EncodeFirst(c, rest);
      text := [c] + rest;
    }
  }

  /** A string is well-formed if and only if it encodes some text. */
  lemma Utf8IffText(b: Bytes)
    ensures ValidUtf8(b) <==> exists text :: EncodeText(text) == b
  {
    if ValidUtf8(b) {
      var text := Utf8IsText(b);
    }
    if exists text :: EncodeText(text) == b {
      var text :| EncodeText(text) == b;
      TextIsUtf8(text);
    }
  }
}
