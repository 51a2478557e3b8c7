/** UTF-8 (section 3 of RFC 3629): texts are sequences of Unicode scalar values. */
module Utf8 {
  import opened Positional

  function EncodeChar(ch: char): (bytes: seq<byte>)
    ensures 1 <= |bytes| <= 4
    ensures bytes[0] == 0 <==> ch == '\0'
  {
    var c := ch as int;
    if c < 0x80 then [c]
    else if c < 0x800 then [0xC0 + c / 64, 0x80 + c % 64]
    else if c < 0x10000 then [0xE0 + c / 4096, 0x80 + c / 64 % 64, 0x80 + c % 64]
    else [0xF0 + c / 262144, 0x80 + c / 4096 % 64, 0x80 + c / 64 % 64, 0x80 + c % 64]
  }

  function Encode(s: string): seq<byte> {
    if s == "" then [] else EncodeChar(s[0]) + Encode(s[1..])
  }

  const REPLACEMENT: char := '\U{FFFD}'

  /** A byte at a place, or a byte no sequence continues with. */
  function At(bytes: seq<byte>, i: nat): byte {
    if i < |bytes| then bytes[i] else 0
  }

  predicate Continues(b: byte) {
    0x80 <= b < 0xC0
  }

  /** Which second bytes may follow a lead byte: overlong forms, surrogates and values past U+10FFFF have none. */
  predicate SecondFits(lead: byte, b: byte) {
    && Continues(b)
    && (lead == 0xE0 ==> b >= 0xA0)
    && (lead == 0xED ==> b < 0xA0)
    && (lead == 0xF0 ==> b >= 0x90)
    && (lead == 0xF4 ==> b < 0x90)
  }

  /**
   * One step of the decoder: the next character and how many bytes it takes. Bytes that start no character
   * give one replacement character for the longest prefix of one that is there.
   */
  function Next(bytes: seq<byte>): (r: (char, nat))
    requires bytes != []
    ensures 1 <= r.1 <= |bytes|
  {
    var b0, b1, b2, b3 := bytes[0], At(bytes, 1), At(bytes, 2), At(bytes, 3);
    if b0 < 0x80 then (b0 as char, 1)
    else if b0 < 0xC2 || b0 > 0xF4 || !SecondFits(b0, b1) then (REPLACEMENT, 1)
    else if b0 < 0xE0 then (((b0 - 0xC0) * 64 + (b1 - 0x80)) as char, 2)
    else if !Continues(b2) then (REPLACEMENT, 2)
    else if b0 < 0xF0 then (((b0 - 0xE0) * 4096 + (b1 - 0x80) * 64 + (b2 - 0x80)) as char, 3)
    else if !Continues(b3) then (REPLACEMENT, 3)
    else (((b0 - 0xF0) * 262144 + (b1 - 0x80) * 4096 + (b2 - 0x80) * 64 + (b3 - 0x80)) as char, 4)
  }

  function Decode(bytes: seq<byte>): string {
    if bytes == [] then ""
    else
      var next := Next(bytes);
      [next.0] + Decode(bytes[next.1..])
  }

  lemma NextOfTwo(c: nat, b0: byte, b1: byte, rest: seq<byte>)
    requires 0x80 <= c < 0x800 && b0 == 0xC0 + c / 64 && b1 == 0x80 + c % 64
    ensures Next([b0, b1] + rest) == (c as char, 2)
  {
    var bytes := [b0, b1] + rest;
    assert bytes[0] == b0 && At(bytes, 1) == b1;
    assert (b0 - 0xC0) * 64 + (b1 - 0x80) == c;
  }

  lemma NextOfThree(c: nat, b0: byte, b1: byte, b2: byte, rest: seq<byte>)
    requires 0x800 <= c < 0xD800 || 0xE000 <= c < 0x10000
    requires b0 == 0xE0 + c / 4096 && b1 == 0x80 + c / 64 % 64 && b2 == 0x80 + c % 64
    ensures Next([b0, b1, b2] + rest) == (c as char, 3)
  {
    var bytes := [b0, b1, b2] + rest;
    assert bytes[0] == b0 && At(bytes, 1) == b1 && At(bytes, 2) == b2;
    assert SecondFits(b0, b1) && Continues(b2);
    assert (b0 - 0xE0) * 4096 + (b1 - 0x80) * 64 + (b2 - 0x80) == c;
  }

  lemma FourBytes(c: nat, b0: byte, b1: byte, b2: byte, b3: byte)
    requires 0x10000 <= c < 0x110000
    requires b0 == 0xF0 + c / 262144 && b1 == 0x80 + c / 4096 % 64
    requires b2 == 0x80 + c / 64 % 64 && b3 == 0x80 + c % 64
    ensures SecondFits(b0, b1) && Continues(b2) && Continues(b3) && 0xF0 <= b0 <= 0xF4
    ensures (b0 - 0xF0) * 262144 + (b1 - 0x80) * 4096 + (b2 - 0x80) * 64 + (b3 - 0x80) == c
  {
    var sixes := c / 64;
    assert sixes / 64 == c / 4096 && sixes / 64 / 64 == c / 262144;
    assert c == sixes * 64 + c % 64 && sixes == sixes / 64 * 64 + sixes % 64;
    assert c / 4096 == c / 262144 * 64 + c / 4096 % 64;
  }

  lemma NextOfFour(c: nat, b0: byte, b1: byte, b2: byte, b3: byte, rest: seq<byte>)
    requires 0x10000 <= c < 0x110000
    requires b0 == 0xF0 + c / 262144 && b1 == 0x80 + c / 4096 % 64
    requires b2 == 0x80 + c / 64 % 64 && b3 == 0x80 + c % 64
    ensures Next([b0, b1, b2, b3] + rest) == (c as char, 4)
  {
    FourBytes(c, b0, b1, b2, b3);
    var bytes := [b0, b1, b2, b3] + rest;
    assert bytes[0] == b0 && At(bytes, 1) == b1 && At(bytes, 2) == b2 && At(bytes, 3) == b3;
  }

  lemma NextOfChar(ch: char, rest: seq<byte>)
    ensures Next(EncodeChar(ch) + rest) == (ch, |EncodeChar(ch)|)
  {
    var c := ch as int;
    if c < 0x80 {
      assert ([c] + rest)[0] == c;
    } else if c < 0x800 {
      NextOfTwo(c, 0xC0 + c / 64, 0x80 + c % 64, rest);
    } else if c < 0x10000 {
      NextOfThree(c, 0xE0 + c / 4096, 0x80 + c / 64 % 64, 0x80 + c % 64, rest);
    } else {
      NextOfFour(c, 0xF0 + c / 262144, 0x80 + c / 4096 % 64, 0x80 + c / 64 % 64, 0x80 + c % 64, rest);
    }
  }

  /** Decoding gives every text back. */
  lemma {:induction false} DecodeUndoesEncode(s: string)
    ensures Decode(Encode(s)) == s
  {
    if s != "" {
      var head := EncodeChar(s[0]);
      NextOfChar(s[0], Encode(s[1..]));
      assert Encode(s)[|head|..] == Encode(s[1..]);
      DecodeUndoesEncode(s[1..]);
    }
  }

  function DropLeadingNuls(s: string): string {
    if s != "" && s[0] == '\0' then DropLeadingNuls(s[1..]) else s
  }

  /** The leading zero bytes of a text are its leading NUL characters. */
  lemma {:induction false} LeadingZeros(s: string)
    ensures StripZeros(Encode(s)) == Encode(DropLeadingNuls(s))
  {
    if s != "" && s[0] == '\0' {
      assert Encode(s)[1..] == Encode(s[1..]);
      LeadingZeros(s[1..]);
    }
  }
}
