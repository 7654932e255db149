/** The web platform's TextEncoder and fatal TextDecoder. A JavaScript string is a sequence
    of code points in which a surrogate stands alone exactly when it is unpaired. */
module Utf8 {
  import opened Results
  import opened Base64

  type CodePoint = x: int | 0 <= x < 0x110000

  const REPLACEMENT: CodePoint := 0xFFFD
  const BYTE_ORDER_MARK: CodePoint := 0xFEFF

  predicate IsSurrogate(c: CodePoint) {
    0xD800 <= c < 0xE000
  }

  /** What TextEncoder writes for a code point; an unpaired surrogate is replaced. */
  function Repaired(c: CodePoint): CodePoint {
    if IsSurrogate(c) then REPLACEMENT else c
  }

  function EncodeScalar(c: CodePoint): seq<Byte>
    requires !IsSurrogate(c)
  {
    if c < 0x80 then [c]
    else if c < 0x800 then [0xC0 + c / 64, 0x80 + c % 64]
    else if c < 0x10000 then [0xE0 + c / 4096, 0x80 + c / 64 % 64, 0x80 + c % 64]
    else [0xF0 + c / 262144, 0x80 + c / 4096 % 64, 0x80 + c / 64 % 64, 0x80 + c % 64]
  }

  function EncodeText(text: seq<CodePoint>): seq<Byte> {
    if text == [] then [] else EncodeScalar(Repaired(text[0])) + EncodeText(text[1..])
  }

  predicate IsTail(b: Byte) {
    0x80 <= b < 0xC0
  }

  /** The payload bits of a byte whose marker bits are worth `marker`. */
  function Bits(b: Byte, marker: nat): int {
    b - marker
  }

  /** The first code point and its width; none when the bytes are not well-formed UTF-8
      (truncated, overlong, a surrogate, or beyond the last code point). */
  function FirstScalar(b: seq<Byte>): Option<(CodePoint, nat)>
    requires b != []
  {
    if b[0] < 0x80 then Some((b[0], 1))
    else if b[0] < 0xC2 then None
    else if b[0] < 0xE0 then
      if |b| < 2 || !IsTail(b[1]) then None else Some((Bits(b[0], 0xC0) * 64 + Bits(b[1], 0x80), 2))
    else if b[0] < 0xF0 then
      if |b| < 3 || !IsTail(b[1]) || !IsTail(b[2]) then None
      else
        var c := Bits(b[0], 0xE0) * 4096 + Bits(b[1], 0x80) * 64 + Bits(b[2], 0x80);
        if c < 0x800 || IsSurrogate(c) then None else Some((c, 3))
    else if b[0] < 0xF5 then
      if |b| < 4 || !IsTail(b[1]) || !IsTail(b[2]) || !IsTail(b[3]) then None
      else
        var c := Bits(b[0], 0xF0) * 262144 + Bits(b[1], 0x80) * 4096 + Bits(b[2], 0x80) * 64 + Bits(b[3], 0x80);
        if c < 0x10000 || c >= 0x110000 then None else Some((c, 4))
    else None
  }

  function DecodeScalars(b: seq<Byte>): Option<seq<CodePoint>>
    decreases |b|
  {
    if b == [] then Some([])
    else
      match FirstScalar(b)
      case None => None
      case Some((c, width)) =>
        match DecodeScalars(b[width..])
        case None => None
        case Some(rest) => Some([c] + rest)
  }

  /** TextDecoder skips one byte order mark at the start. */
  function DecodeText(b: seq<Byte>): Option<seq<CodePoint>> {
    DecodeScalars(if [0xEF, 0xBB, 0xBF] <= b then b[3..] else b)
  }

  function RepairedText(text: seq<CodePoint>): seq<CodePoint> {
    seq(|text|, i requires 0 <= i < |text| => Repaired(text[i]))
  }

  lemma Digits64(c: nat)
    ensures c / 64 * 64 + c % 64 == c
    ensures c / 4096 * 4096 + c / 64 % 64 * 64 + c % 64 == c
    ensures c / 262144 * 262144 + c / 4096 % 64 * 4096 + c / 64 % 64 * 64 + c % 64 == c
  {
    var x := c / 64;
    var y := x / 64;
    assert c == x * 64 + c % 64;
    assert x == y * 64 + x % 64;
    assert y == y / 64 * 64 + y % 64;
    assert c / 4096 == y;
    assert c / 262144 == y / 64;
  }

  lemma {:induction false} FirstOfScalar(c: CodePoint, rest: seq<Byte>)
    requires !IsSurrogate(c)
    ensures EncodeScalar(c) != [] && FirstScalar(EncodeScalar(c) + rest) == Some((c, |EncodeScalar(c)|))
  {
    var e := EncodeScalar(c);
    var b := e + rest;
    Digits64(c);
    assert forall i :: 0 <= i < |e| ==> b[i] == e[i];
  }

  lemma {:induction false} ScalarRoundTrip(c: CodePoint, rest: seq<Byte>)
    requires !IsSurrogate(c)
    ensures EncodeScalar(c) != [] && FirstScalar(EncodeScalar(c) + rest) == Some((c, |EncodeScalar(c)|))
    ensures (EncodeScalar(c) + rest)[|EncodeScalar(c)|..] == rest
  {
    FirstOfScalar(c, rest);
  }

  lemma {:induction false} ScalarsRoundTrip(text: seq<CodePoint>)
    ensures DecodeScalars(EncodeText(text)) == Some(RepairedText(text))
  {
    if text != [] {
      ScalarRoundTrip(Repaired(text[0]), EncodeText(text[1..]));
      ScalarsRoundTrip(text[1..]);
      assert RepairedText(text) == [Repaired(text[0])] + RepairedText(text[1..]);
    } else {
      assert RepairedText(text) == [];
    }
  }

  lemma MarkIsFirst(text: seq<CodePoint>)
    ensures [0xEF, 0xBB, 0xBF] <= EncodeText(text) <==> text != [] && text[0] == BYTE_ORDER_MARK
  {
    if text != [] {
      var c, rest := Repaired(text[0]), EncodeText(text[1..]);
      ScalarRoundTrip(c, rest);
      var b := EncodeText(text);
      if [0xEF, 0xBB, 0xBF] <= b {
        assert b[0] == 0xEF && b[1] == 0xBB && b[2] == 0xBF;
        assert FirstScalar(b) == Some((0xFEFF, 3));
      }
      if text[0] == BYTE_ORDER_MARK {
        assert EncodeScalar(c) == [0xEF, 0xBB, 0xBF];
      }
    }
  }

  /** What a string becomes on its way through both: unpaired surrogates are replaced and a
      leading byte order mark is dropped. It survives iff it has neither. */
  lemma {:induction false} TextRoundTrip(text: seq<CodePoint>)
    ensures DecodeText(EncodeText(text))
         == Some(if text != [] && text[0] == BYTE_ORDER_MARK then RepairedText(text[1..]) else RepairedText(text))
    ensures DecodeText(EncodeText(text)) == Some(text)
      <==> !(text != [] && text[0] == BYTE_ORDER_MARK) && forall c :: c in text ==> !IsSurrogate(c)
  {
    MarkIsFirst(text);
    if text != [] && text[0] == BYTE_ORDER_MARK {
      ScalarsRoundTrip(text[1..]);
      ScalarRoundTrip(BYTE_ORDER_MARK, EncodeText(text[1..]));
      assert |RepairedText(text[1..])| == |text| - 1;
    } else {
      ScalarsRoundTrip(text);
      if RepairedText(text) == text {
        forall c | c in text
          ensures !IsSurrogate(c)
        {
          var i :| 0 <= i < |text| && text[i] == c;
          assert RepairedText(text)[i] == Repaired(text[i]);
        }
      }
    }
  }

  /** Examples of section 7 of RFC 3629, one for each length, and an unpaired surrogate. */
  lemma Rfc3629Examples()
    ensures EncodeText([0x41]) == [0x41] && EncodeText([0x391]) == [0xCE, 0x91]
    ensures EncodeText([0x2262]) == [0xE2, 0x89, 0xA2] && EncodeText([0x233B4]) == [0xF0, 0xA3, 0x8E, 0xB4]
    ensures EncodeText([0xD800]) == [0xEF, 0xBF, 0xBD]
  {
  }
}
