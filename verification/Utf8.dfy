/** UTF-16 escapes of JSON strings and the UTF-8 bytes they become. */
module Utf8 {
  import opened Bytes

  /** Unicode scalar values: the code points that UTF-8 may encode (section 3 of RFC 3629). */
  predicate Scalar(cp: int) {
    0 <= cp < 0xD800 || 0xE000 <= cp <= 0x10FFFF
  }

  /** The number of bytes that a code point takes. */
  function EncodedLength(cp: nat): nat {
    if cp < 0x80 then 1 else if cp < 0x800 then 2 else if cp < 0x10000 then 3 else 4
  }

  /** The table of section 3 of RFC 3629, six bits at a time. */
  function Encode(cp: nat): Text
    requires cp <= 0x10FFFF
  {
    var a := cp / 0x40;
    var b := a / 0x40;
    if cp < 0x80 then [cp as byte]
    else if cp < 0x800 then [(0xC0 + a) as byte, Continuation(cp)]
    else if cp < 0x10000 then [(0xE0 + b) as byte, Continuation(a), Continuation(cp)]
    else [(0xF0 + b / 0x40) as byte, Continuation(b), Continuation(a), Continuation(cp)]
  }

  function Continuation(bits: nat): byte {
    (0x80 + bits % 0x40) as byte
  }

  datatype Decoded = Invalid | Decoded(cp: nat, length: nat)

  predicate IsContinuation(s: Text, i: nat) {
    i < |s| && 0x80 <= s[i] < 0xC0
  }

  /** The standard decoder: shortest forms only and no surrogates. */
  function Decode(s: Text, i: nat): Decoded {
    if i >= |s| then Invalid
    else if s[i] < 0x80 then Decoded(s[i] as nat, 1)
    else if 0xC0 <= s[i] < 0xE0 && IsContinuation(s, i + 1) then
      Accept(0x80, (s[i] as nat - 0xC0) * 0x40 + (s[i + 1] as nat - 0x80), 2)
    else if 0xE0 <= s[i] < 0xF0 && IsContinuation(s, i + 1) && IsContinuation(s, i + 2) then
      Accept(0x800,
             (s[i] as nat - 0xE0) * 0x1000 + (s[i + 1] as nat - 0x80) * 0x40 + (s[i + 2] as nat - 0x80), 3)
    else if 0xF0 <= s[i] < 0xF8
            && IsContinuation(s, i + 1) && IsContinuation(s, i + 2) && IsContinuation(s, i + 3) then
      Accept(0x10000,
             (s[i] as nat - 0xF0) * 0x40000 + (s[i + 1] as nat - 0x80) * 0x1000
             + (s[i + 2] as nat - 0x80) * 0x40 + (s[i + 3] as nat - 0x80), 4)
    else Invalid
  }

  function Accept(least: nat, cp: nat, length: nat): Decoded {
    if least <= cp && Scalar(cp) then Decoded(cp, length) else Invalid
  }

  lemma DecodeInvertsEncode(cp: nat, rest: Text)
    requires Scalar(cp)
    ensures Decode(Encode(cp) + rest, 0) == Decoded(cp, |Encode(cp)|)
  {
    var s := Encode(cp) + rest;
    forall k | 0 <= k < |Encode(cp)| ensures s[k] == Encode(cp)[k] {}
  }

  // ---- The escapes

  predicate IsHex(c: byte) {
    0x30 <= c <= 0x39 || 0x41 <= c <= 0x46 || 0x61 <= c <= 0x66
  }

  function HexValue(c: byte): nat
    requires IsHex(c)
    ensures HexValue(c) < 16
  {
    if c <= 0x39 then c as nat - 0x30 else if c <= 0x46 then 10 + c as nat - 0x41 else 10 + c as nat - 0x61
  }

  predicate AllHex(s: Text, p: nat)
    requires p + 4 <= |s|
  {
    forall j :: p <= j < p + 4 ==> IsHex(s[j])
  }

  /** The value of n digits, most significant first. */
  function HexRun(s: Text, p: nat, n: nat): (h: nat)
    requires p + n <= |s|
    requires forall j :: p <= j < p + n ==> IsHex(s[j])
  {
    if n == 0 then 0 else HexRun(s, p, n - 1) * 16 + HexValue(s[p + n - 1])
  }

  /** What four characters count for: their value, or 0 when one of them is no digit. */
  function Hex4(s: Text, p: nat): (h: nat)
    requires p + 4 <= |s|
    ensures h < 0x10000
  {
    if AllHex(s, p) then
      ((HexValue(s[p]) * 16 + HexValue(s[p + 1])) * 16 + HexValue(s[p + 2])) * 16 + HexValue(s[p + 3])
    else 0
  }

  lemma HexRunOfFour(s: Text, p: nat)
    requires p + 4 <= |s| && AllHex(s, p)
    ensures HexRun(s, p, 4) == Hex4(s, p)
  {
    assert HexRun(s, p, 1) == HexRun(s, p, 0) * 16 + HexValue(s[p]);
    assert HexRun(s, p, 2) == HexRun(s, p, 1) * 16 + HexValue(s[p + 1]);
    assert HexRun(s, p, 3) == HexRun(s, p, 2) * 16 + HexValue(s[p + 2]);
  }

  datatype Literal = Malformed | Literal(cp: nat, length: nat)

  /** The escape whose backslash stands at p, in a string that ends before `end`. */
  function ReadLiteral(s: Text, p: nat, end: nat): Literal
    requires end <= |s|
  {
    if end < p + 6 then Malformed
    else
      var first := Hex4(s, p + 2);
      if 0xDC00 <= first <= 0xDFFF then Malformed
      else if 0xD800 <= first <= 0xDBFF then
        if end < p + 12 || s[p + 6] != BACKSLASH || s[p + 7] != 0x75 then Malformed
        else
          var second := Hex4(s, p + 8);
          if 0xDC00 <= second <= 0xDFFF
          then Literal(0x10000 + (first - 0xD800) * 0x400 + (second - 0xDC00), 12)
          else Malformed
      else Literal(first, 6)
  }

  /** Every accepted escape denotes a scalar value, so the branch above 0x10FFFF is dead. */
  lemma LiteralIsScalar(s: Text, p: nat, end: nat)
    requires end <= |s| && ReadLiteral(s, p, end).Literal?
    ensures var l := ReadLiteral(s, p, end);
            && Scalar(l.cp)
            && (l.length == 6 || l.length == 12) && p + l.length <= end
            && |Encode(l.cp)| == EncodedLength(l.cp)
            && 2 * EncodedLength(l.cp) <= l.length
  {
  }

  /** s has at p the escape of cp that section 7 of RFC 8259 prescribes, in digits of either case. */
  ghost predicate EscapeOf(s: Text, p: nat, cp: nat)
    requires Scalar(cp)
  {
    && p + 6 <= |s| && s[p] == BACKSLASH && s[p + 1] == 0x75 && AllHex(s, p + 2)
    && if cp < 0x10000 then Hex4(s, p + 2) == cp
       else
         && p + 12 <= |s| && s[p + 6] == BACKSLASH && s[p + 7] == 0x75 && AllHex(s, p + 8)
         && Hex4(s, p + 2) == 0xD800 + (cp - 0x10000) / 0x400
         && Hex4(s, p + 8) == 0xDC00 + (cp - 0x10000) % 0x400
  }

  /** The escape of a scalar value reads back as that value, and its bytes decode to it. */
  lemma EscapeReadsBack(s: Text, p: nat, end: nat, cp: nat, rest: Text)
    requires end <= |s| && Scalar(cp) && EscapeOf(s[..end], p, cp)
    ensures ReadLiteral(s, p, end) == Literal(cp, if cp < 0x10000 then 6 else 12)
    ensures Decode(Encode(cp) + rest, 0) == Decoded(cp, |Encode(cp)|)
  {
    var t := s[..end];
    forall k | 0 <= k < end ensures t[k] == s[k] {}
    assert Hex4(s, p + 2) == Hex4(t, p + 2);
    if cp >= 0x10000 {
      assert Hex4(s, p + 8) == Hex4(t, p + 8);
    }
    DecodeInvertsEncode(cp, rest);
  }

  /** Whatever its digits, an escape is refused exactly when it counts as a surrogate without its partner. */
  lemma RefusedExactlyLoneSurrogates(s: Text, p: nat, end: nat)
    requires p + 6 <= end <= |s|
    ensures ReadLiteral(s, p, end).Malformed? <==>
              var first := Hex4(s, p + 2);
              || 0xDC00 <= first <= 0xDFFF
              || (0xD800 <= first <= 0xDBFF
                  && !(p + 12 <= end && s[p + 6] == BACKSLASH && s[p + 7] == 0x75
                       && 0xDC00 <= Hex4(s, p + 8) <= 0xDFFF))
  {
  }

  /** There is a code point whose prescribed escape s has at p. */
  ghost predicate IsEscape(s: Text, p: nat) {
    exists cp: nat :: Scalar(cp) && EscapeOf(s, p, cp)
  }

  /**
   * Exactly when an escape is accepted if and only if it is one: the first four characters behind its `u` are
   * digits. The second group needs no such condition, since a bad one counts as 0 and thus not as a low surrogate.
   */
  lemma AcceptedExactlyEscapes(s: Text, p: nat, end: nat)
    requires p + 6 <= end <= |s| && s[p] == BACKSLASH && s[p + 1] == 0x75
    ensures AllHex(s, p + 2) <==> (ReadLiteral(s, p, end).Literal? <==> IsEscape(s[..end], p))
  {
    var t, l := s[..end], ReadLiteral(s, p, end);
    assert forall k :: 0 <= k < end ==> t[k] == s[k];
    if !AllHex(s, p + 2) {
      BadDigitIsNul(s, p, end);
    } else if l.Literal? {
      LiteralIsScalar(s, p, end);
      assert Hex4(t, p + 2) == Hex4(s, p + 2);
      if l.length == 12 {
        assert Hex4(t, p + 8) == Hex4(s, p + 8);
      }
      assert EscapeOf(t, p, l.cp);
    } else if IsEscape(t, p) {
      var cp: nat :| Scalar(cp) && EscapeOf(t, p, cp);
      EscapeReadsBack(s, p, end, cp, []);
    }
  }

  /** A bad digit in the first group makes the escape one of NUL, and a NUL ends every C string. */
  lemma BadDigitIsNul(s: Text, p: nat, end: nat)
    requires p + 6 <= end <= |s| && !AllHex(s, p + 2)
    ensures ReadLiteral(s, p, end) == Literal(0, 6) && Encode(0) == [0]
  {
  }

  // ---- The loops of the C functions

  method ParseHex4(input: Text, p: nat) returns (h: nat)
    requires p + 4 <= |input|
    ensures h == Hex4(input, p)
  {
    h := 0;
    var i := 0;
    while i < 4
      invariant 0 <= i <= 4
      invariant forall j :: p <= j < p + i ==> IsHex(input[j])
      invariant h == HexRun(input, p, i) * (if i < 4 then 16 else 1)
    {
      var c := input[p + i];
      if c >= 0x30 && c <= 0x39 {
        h := h + (c as nat - 0x30);
      } else if c >= 0x41 && c <= 0x46 {
        h := h + 10 + (c as nat - 0x41);
      } else if c >= 0x61 && c <= 0x66 {
        h := h + 10 + (c as nat - 0x61);
      } else {
        return 0;
      }
      if i < 3 {
        h := h * 16;
      }
      i := i + 1;
    }
    HexRunOfFour(input, p);
  }

  /** Returns the code point of an escape and how far to move on in the input, 0 if it is malformed. */
  method ReadCodepoint(input: Text, p: nat, end: nat) returns (sequence_length: nat, codepoint: nat)
    requires end <= |input|
    ensures match ReadLiteral(input, p, end)
            case Malformed => sequence_length == 0
            case Literal(cp, length) => sequence_length == length > 0 && codepoint == cp <= 0x10FFFF
  {
    codepoint := 0;
    if end < p + 6 {
      return 0, 0;
    }
    var first_code := ParseHex4(input, p + 2);
    if first_code >= 0xDC00 && first_code <= 0xDFFF {
      return 0, 0;
    }
    if first_code >= 0xD800 && first_code <= 0xDBFF {
      sequence_length := 12;
      if end < p + 12 {
        return 0, 0;
      }
      if input[p + 6] != BACKSLASH || input[p + 7] != 0x75 {
        return 0, 0;
      }
      var second_code := ParseHex4(input, p + 8);
      if second_code < 0xDC00 || second_code > 0xDFFF {
        return 0, 0;
      }
      LowTenBits(first_code - 0xD800, 0xD800);
      LowTenBits(second_code - 0xDC00, 0xDC00);
      codepoint := 0x10000 + first_code % 0x400 * 0x400 + second_code % 0x400;
    } else {
      sequence_length := 6;
      codepoint := first_code;
    }
    if codepoint > 0x10FFFF {
      assert false;
    }
  }

  /** Returns how far to move on in the input, 0 for a malformed escape, and where the output now ends. */
  method Utf16LiteralToUtf8(input: Text, p: nat, end: nat, output: array<byte>, at: nat)
    returns (sequence_length: nat, next: nat)
    requires end <= |input|
    requires match ReadLiteral(input, p, end)
             case Malformed => true
             case Literal(cp, _) => at + EncodedLength(cp) <= output.Length
    modifies output
    ensures match ReadLiteral(input, p, end)
            case Malformed => sequence_length == 0 && next == at && output[..] == old(output[..])
            case Literal(cp, length) =>
              && cp <= 0x10FFFF
              && sequence_length == length && next == at + EncodedLength(cp)
              && output[..next] == old(output[..at]) + Encode(cp)
  {
    var codepoint;
    sequence_length, codepoint := ReadCodepoint(input, p, end);
    next := at;
    if sequence_length > 0 {
      EncodeInto(output, at, codepoint);
      next := at + EncodedLength(codepoint);
    }
  }

  /** The encoding loop: continuation bytes from the last to the second, then the first byte. */
  method EncodeInto(output: array<byte>, at: nat, cp: nat)
    requires cp <= 0x10FFFF && at + EncodedLength(cp) <= output.Length
    modifies output
    ensures output[..at + EncodedLength(cp)] == old(output[..at]) + Encode(cp)
  {
    var utf8_length, first_byte_mark;
    if cp < 0x80 {
      utf8_length, first_byte_mark := 1, 0;
    } else if cp < 0x800 {
      utf8_length, first_byte_mark := 2, 0xC0;
    } else if cp < 0x10000 {
      utf8_length, first_byte_mark := 3, 0xE0;
    } else {
      utf8_length, first_byte_mark := 4, 0xF0;
    }
    var codepoint := WriteTail(output, at, cp, utf8_length);
    EncodeByGroups(cp);
    FinishEncode(output, at, codepoint, first_byte_mark, utf8_length, cp);
  }

  method FinishEncode(output: array<byte>, at: nat, codepoint: nat, first_byte_mark: nat, utf8_length: nat,
                      ghost cp: nat)
    requires 1 <= utf8_length == EncodedLength(cp) && at + utf8_length <= output.Length
    requires cp <= 0x10FFFF && codepoint + (if utf8_length > 1 then first_byte_mark else 0) == FirstByte(cp) as nat
    requires output[at + 1..at + utf8_length] == Tail(cp, utf8_length - 1)
    requires Encode(cp) == [FirstByte(cp)] + Tail(cp, utf8_length - 1)
    modifies output
    ensures output[..at + EncodedLength(cp)] == old(output[..at]) + Encode(cp)
  {
    ghost var tail := output[at + 1..at + utf8_length];
    if utf8_length > 1 {
      output[at] := (codepoint + first_byte_mark) as byte;
    } else {
      output[at] := codepoint as byte;
    }
    assert output[at + 1..at + utf8_length] == tail;
    assert output[..at + utf8_length] == output[..at] + ([output[at]] + tail);
  }

  method WriteTail(output: array<byte>, at: nat, cp: nat, utf8_length: nat) returns (codepoint: nat)
    requires 1 <= utf8_length && at + utf8_length <= output.Length
    modifies output
    ensures output[..at] == old(output[..at])
    ensures output[at + 1..at + utf8_length] == Tail(cp, utf8_length - 1)
    ensures codepoint == Shifted(cp, utf8_length - 1)
  {
    codepoint := cp;
    var position := utf8_length - 1;
    ghost var written: Text := [];
    while position > 0
      invariant 0 <= position < utf8_length && |written| == utf8_length - 1 - position
      invariant output[..at] == old(output[..at])
      invariant output[at + position + 1..at + utf8_length] == written
      invariant Tail(codepoint, position) + written == Tail(cp, utf8_length - 1)
      invariant Shifted(codepoint, position) == Shifted(cp, utf8_length - 1)
    {
      TailStep(codepoint, position, written);
      output[at + position] := (0x80 + codepoint % 0x40) as byte;
      written := [Continuation(codepoint)] + written;
      codepoint := codepoint / 0x40;
      position := position - 1;
    }
    assert [] + written == written;
  }

  /** The code point without its last n groups of six bits. */
  function Shifted(cp: nat, n: nat): nat {
    if n == 0 then cp else Shifted(cp / 0x40, n - 1)
  }

  /** The last n groups of six bits as continuation bytes. */
  function Tail(cp: nat, n: nat): Text {
    if n == 0 then [] else Tail(cp / 0x40, n - 1) + [Continuation(cp)]
  }

  lemma TailStep(cp: nat, n: nat, written: Text)
    requires n > 0
    ensures Tail(cp / 0x40, n - 1) + ([Continuation(cp)] + written) == Tail(cp, n) + written
  {
  }

  lemma TailUnfolds(cp: nat)
    ensures Tail(cp, 0) == [] && Shifted(cp, 0) == cp
    ensures Tail(cp, 1) == [Continuation(cp)] && Shifted(cp, 1) == cp / 0x40
    ensures Tail(cp, 2) == [Continuation(cp / 0x40), Continuation(cp)]
    ensures Shifted(cp, 2) == cp / 0x40 / 0x40
    ensures Tail(cp, 3) == [Continuation(cp / 0x40 / 0x40), Continuation(cp / 0x40), Continuation(cp)]
    ensures Shifted(cp, 3) == cp / 0x40 / 0x40 / 0x40
  {
    TailOf(cp, 0);
    TailOf(cp / 0x40, 0);
    TailOf(cp / 0x40 / 0x40, 0);
    TailOf(cp, 1);
    TailOf(cp / 0x40, 1);
    TailOf(cp, 2);
  }

  lemma TailOf(cp: nat, n: nat)
    ensures Tail(cp, n + 1) == Tail(cp / 0x40, n) + [Continuation(cp)]
    ensures Shifted(cp, n + 1) == Shifted(cp / 0x40, n)
    ensures Tail(cp, 0) == [] && Shifted(cp, 0) == cp
  {
  }

  lemma LowTenBits(low: nat, base: nat)
    requires low < 0x400 && (base == 0xD800 || base == 0xDC00)
    ensures (base + low) % 0x400 == low
  {
  }

  function FirstByte(cp: nat): byte
    requires cp <= 0x10FFFF
  {
    if cp < 0x80 then cp as byte
    else if cp < 0x800 then (0xC0 + cp / 0x40) as byte
    else if cp < 0x10000 then (0xE0 + cp / 0x40 / 0x40) as byte
    else (0xF0 + cp / 0x40 / 0x40 / 0x40) as byte
  }

  /** The first byte in front of the groups that the loop wrote is the table's encoding. */
  lemma EncodeByGroups(cp: nat)
    requires cp <= 0x10FFFF
    ensures Encode(cp) == [FirstByte(cp)] + Tail(cp, EncodedLength(cp) - 1)
    ensures var mark := if cp < 0x80 then 0 else if cp < 0x800 then 0xC0 else if cp < 0x10000 then 0xE0 else 0xF0;
            Shifted(cp, EncodedLength(cp) - 1) + mark == FirstByte(cp) as nat
  {
    TailUnfolds(cp);
  }
}
