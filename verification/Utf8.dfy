/** UTF-8 as `str::as_bytes` prints it and `str::from_utf8` checks it. */
module Utf8 {
  import opened Wrappers

  type byte = x: int | 0 <= x < 256

  predicate IsScalar(n: int) {
    0 <= n < 0xD800 || 0xE000 <= n < 0x11_0000
  }

  /** How many bytes a character occupies, which is what `str::len` counts. */
  function Width(c: char): (n: nat)
    ensures 1 <= n <= 4
  {
    var p := c as int;
    if p < 0x80 then 1 else if p < 0x800 then 2 else if p < 0x1_0000 then 3 else 4
  }

  function Len(s: string): nat {
    if s == "" then 0 else Width(s[0]) + Len(s[1..])
  }

  function EncodeChar(c: char): (bs: seq<byte>)
    ensures |bs| == Width(c)
  {
    var p := c as int;
    if p < 0x80 then [p]
    else if p < 0x800 then [0xC0 + p / 0x40, 0x80 + p % 0x40]
    else if p < 0x1_0000 then [0xE0 + p / 0x40 / 0x40, 0x80 + p / 0x40 % 0x40, 0x80 + p % 0x40]
    else [0xF0 + p / 0x40 / 0x40 / 0x40, 0x80 + p / 0x40 / 0x40 % 0x40, 0x80 + p / 0x40 % 0x40, 0x80 + p % 0x40]
  }

  function Encode(s: string): seq<byte> {
    if s == "" then [] else EncodeChar(s[0]) + Encode(s[1..])
  }

  lemma {:induction false} LenIsBytes(s: string)
    ensures Len(s) == |Encode(s)|
  {
    if s != "" {
      LenIsBytes(s[1..]);
    }
  }

  predicate IsContinuation(b: byte) {
    0x80 <= b < 0xC0
  }

  /** Appends the six payload bits of a continuation byte. */
  function Six(high: int, b: byte): int {
    high * 0x40 + (b as int - 0x80)
  }

  /** The character at the head of `bs`, with over-long forms, surrogates and values past
      U+10FFFF refused. */
  function DecodeChar(bs: seq<byte>): (r: Option<char>)
    ensures r.Some? ==> Width(r.value) <= |bs|
  {
    if |bs| == 0 then None
    else if bs[0] < 0x80 then Some(bs[0] as char)
    else if bs[0] < 0xC0 then None
    else if bs[0] < 0xE0 then
      if |bs| < 2 || !IsContinuation(bs[1]) then None
      else
        var p := Six(bs[0] as int - 0xC0, bs[1]);
        if 0x80 <= p then Some(p as char) else None
    else if bs[0] < 0xF0 then
      if |bs| < 3 || !IsContinuation(bs[1]) || !IsContinuation(bs[2]) then None
      else
        var p := Six(Six(bs[0] as int - 0xE0, bs[1]), bs[2]);
        if 0x800 <= p && IsScalar(p) then Some(p as char) else None
    else if bs[0] < 0xF8 then
      if |bs| < 4 || !IsContinuation(bs[1]) || !IsContinuation(bs[2]) || !IsContinuation(bs[3]) then None
      else
        var p := Six(Six(Six(bs[0] as int - 0xF0, bs[1]), bs[2]), bs[3]);
        if 0x1_0000 <= p && IsScalar(p) then Some(p as char) else None
    else None
  }

  function Decode(bs: seq<byte>): Option<string> {
    if bs == [] then Some("")
    else
      match DecodeChar(bs)
      case None => None
      case Some(c) =>
        match Decode(bs[Width(c)..])
        case None => None
        case Some(rest) => Some([c] + rest)
  }

  /** Section 3 of RFC 3629: how many bytes a character takes, in which ranges they lie, and that their
      payload bits are its number. */
  lemma EncodeCharIsUtf8(c: char)
    ensures var p, bs := c as int, EncodeChar(c);
      && (p < 128 ==> |bs| == 1 && bs[0] == p)
      && (128 <= p < 2048 ==> |bs| == 2 && Bits(bs[0], 192, 32) * 64 + Bits(bs[1], 128, 64) == p)
      && (2048 <= p < 65536 ==>
            |bs| == 3 && Bits(bs[0], 224, 16) * 4096 + Bits(bs[1], 128, 64) * 64 + Bits(bs[2], 128, 64) == p)
      && (65536 <= p ==>
            |bs| == 4 && Bits(bs[0], 240, 8) * 262144 + Bits(bs[1], 128, 64) * 4096 + Bits(bs[2], 128, 64) * 64
                         + Bits(bs[3], 128, 64) == p)
    ensures forall k :: 0 < k < |EncodeChar(c)| ==> 128 <= EncodeChar(c)[k] < 192
  {}

  /** The payload of a byte in the range of n values from `first` on. */
  function Bits(b: byte, first: int, n: int): int {
    if first <= b < first + n then b as int - first else -0x1_0000_0000
  }

  lemma DecodeCharInverts(c: char, rest: seq<byte>)
    ensures DecodeChar(EncodeChar(c) + rest) == Some(c)
  {
    var p := c as int;
    var bs := EncodeChar(c) + rest;
    var q, r := p / 0x40, p / 0x40 / 0x40;
    if p < 0x80 {
      assert bs[0] == p;
    } else if p < 0x800 {
      assert bs[0] == 0xC0 + q && bs[1] == 0x80 + p % 0x40;
    } else if p < 0x1_0000 {
      assert bs[0] == 0xE0 + r && bs[1] == 0x80 + q % 0x40 && bs[2] == 0x80 + p % 0x40;
      assert Six(r, bs[1]) == q && Six(q, bs[2]) == p;
    } else {
      assert bs[0] == 0xF0 + r / 0x40 && bs[1] == 0x80 + r % 0x40;
      assert bs[2] == 0x80 + q % 0x40 && bs[3] == 0x80 + p % 0x40;
      assert Six(r / 0x40, bs[1]) == r && Six(r, bs[2]) == q && Six(q, bs[3]) == p;
    }
  }

  lemma EncodeCharInverts(bs: seq<byte>)
    requires DecodeChar(bs).Some?
    ensures bs[..Width(DecodeChar(bs).value)] == EncodeChar(DecodeChar(bs).value)
  {
    var c := DecodeChar(bs).value;
    var p := c as int;
    if p < 0x80 {
    } else if p < 0x800 {
      assert p == Six(bs[0] as int - 0xC0, bs[1]);
    } else if p < 0x1_0000 {
      var q := Six(bs[0] as int - 0xE0, bs[1]);
      assert p == Six(q, bs[2]) && p / 0x40 == q;
    } else {
      var r := Six(bs[0] as int - 0xF0, bs[1]);
      var q := Six(r, bs[2]);
      assert p == Six(q, bs[3]) && p / 0x40 == q && q / 0x40 == r;
    }
  }

  lemma {:induction false} DecodeOfEncode(s: string)
    ensures Decode(Encode(s)) == Some(s)
  {
    if s != "" {
      var head, tail := EncodeChar(s[0]), Encode(s[1..]);
      DecodeCharInverts(s[0], tail);
      assert (head + tail)[Width(s[0])..] == tail;
      DecodeOfEncode(s[1..]);
      assert [s[0]] + s[1..] == s;
    }
  }

  lemma EncodeCons(c: char, rest: string)
    ensures Encode([c] + rest) == EncodeChar(c) + Encode(rest)
  {
    assert ([c] + rest)[1..] == rest;
  }

  lemma {:induction false} EncodeOfDecode(bs: seq<byte>)
    requires Decode(bs).Some?
    ensures Encode(Decode(bs).value) == bs
  {
    if bs != [] {
      var c := DecodeChar(bs).value;
      var head, tail := bs[..Width(c)], bs[Width(c)..];
      EncodeOfDecode(tail);
      EncodeCons(c, Decode(tail).value);
      assert head == EncodeChar(c) by { EncodeCharInverts(bs); }
      assert head + tail == bs;
    }
  }

  /** What the agent writes as text it reads back as the same text, and no other bytes read as
      that text: one encoding a text. */
  lemma DecodeIsExact(bs: seq<byte>, s: string)
    ensures Decode(bs) == Some(s) <==> bs == Encode(s)
  {
    DecodeOfEncode(s);
    if Decode(bs).Some? {
      EncodeOfDecode(bs);
    }
  }
}
