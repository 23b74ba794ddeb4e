/** Base64 with the standard alphabet and padding (section 4 of RFC 4648), and the decoder the
    agent reads its files with: it demands canonical padding and zero trailing bits. */
module Base64 {
  import opened Wrappers
  import opened Utf8

  type sextet = v: int | 0 <= v < 64

  /** The sextet a character of the alphabet stands for. */
  function Value(c: char): Option<sextet> {
    if 'A' <= c <= 'Z' then Some(c as int - 65)
    else if 'a' <= c <= 'z' then Some(c as int - 71)
    else if '0' <= c <= '9' then Some(c as int + 4)
    else if c == '+' then Some(62)
    else if c == '/' then Some(63) else None
  }

  function Digit(v: sextet): (c: char)
    ensures Value(c) == Some(v)
  {
    if v < 26 then (v as int + 65) as char
    else if v < 52 then (v as int + 71) as char
    else if v < 62 then (v as int - 4) as char
    else if v == 62 then '+' else '/'
  }

  lemma DigitOfValue(c: char)
    requires Value(c).Some?
    ensures Digit(Value(c).value) == c
  {}

  // Layer one: sextets and their spelling.

  /** No block is left with a single sextet: n is not 1 modulo 4. */
  predicate IsWhole(n: nat) {
    if n < 4 then n != 1 else IsWhole(n - 4)
  }

  /** Two characters and "==", or three and "=", spell a last partial block. */
  function Spell(xs: seq<sextet>): string
    requires IsWhole(|xs|)
  {
    if |xs| == 0 then ""
    else if |xs| == 2 then [Digit(xs[0]), Digit(xs[1]), '=', '=']
    else if |xs| == 3 then [Digit(xs[0]), Digit(xs[1]), Digit(xs[2]), '=']
    else [Digit(xs[0]), Digit(xs[1]), Digit(xs[2]), Digit(xs[3])] + Spell(xs[4..])
  }

  /** Padding is demanded, and is allowed in the last block only. */
  function Read(s: string): (r: Option<seq<sextet>>)
    ensures r.Some? ==> IsWhole(|r.value|)
  {
    if |s| == 0 then Some([])
    else if |s| < 4 then None
    else
      match (Value(s[0]), Value(s[1]), Value(s[2]), Value(s[3]))
      case (Some(p), Some(q), None, None) =>
        if |s| == 4 && s[2] == '=' && s[3] == '=' then Some([p, q]) else None
      case (Some(p), Some(q), Some(r), None) =>
        if |s| == 4 && s[3] == '=' then Some([p, q, r]) else None
      case (Some(p), Some(q), Some(r), Some(t)) =>
        (match Read(s[4..])
         case None => None
         case Some(rest) => Some([p, q, r, t] + rest))
      case _ => None
  }

  lemma ReadBlock(p: sextet, q: sextet, r: sextet, t: sextet, s: string, xs: seq<sextet>)
    requires Read(s) == Some(xs)
    ensures Read([Digit(p), Digit(q), Digit(r), Digit(t)] + s) == Some([p, q, r, t] + xs)
  {
    assert ([Digit(p), Digit(q), Digit(r), Digit(t)] + s)[4..] == s;
  }

  lemma ReadTail(p: sextet, q: sextet, r: sextet)
    ensures Read([Digit(p), Digit(q), '=', '=']) == Some([p, q])
    ensures Read([Digit(p), Digit(q), Digit(r), '=']) == Some([p, q, r])
  {}

  lemma {:induction false} ReadOfSpell(xs: seq<sextet>)
    requires IsWhole(|xs|)
    ensures Read(Spell(xs)) == Some(xs)
  {
    if |xs| == 2 {
      ReadTail(xs[0], xs[1], 0);
      assert xs == [xs[0], xs[1]];
    } else if |xs| == 3 {
      ReadTail(xs[0], xs[1], xs[2]);
      assert xs == [xs[0], xs[1], xs[2]];
    } else if |xs| >= 4 {
      ReadOfSpell(xs[4..]);
      ReadBlock(xs[0], xs[1], xs[2], xs[3], Spell(xs[4..]), xs[4..]);
      FirstFour(xs);
    }
  }

  lemma FirstFour<T>(xs: seq<T>)
    requires |xs| >= 4
    ensures xs == [xs[0], xs[1], xs[2], xs[3]] + xs[4..]
  {}

  lemma {:induction false} SpellOfRead(s: string)
    requires Read(s).Some?
    ensures Spell(Read(s).value) == s
  {
    if |s| > 0 {
      var xs := Read(s).value;
      DigitOfValue(s[0]);
      DigitOfValue(s[1]);
      if |xs| <= 3 {
        if |xs| == 3 {
          DigitOfValue(s[2]);
        }
        assert s == [s[0], s[1], s[2], s[3]];
      } else {
        DigitOfValue(s[2]);
        DigitOfValue(s[3]);
        assert xs[4..] == Read(s[4..]).value;
        SpellOfRead(s[4..]);
        FirstFour(s);
      }
    }
  }

  lemma {:induction false} SpellAlphabet(xs: seq<sextet>)
    requires IsWhole(|xs|)
    ensures forall c :: c in Spell(xs) ==> Value(c).Some? || c == '='
  {
    if |xs| >= 4 {
      SpellAlphabet(xs[4..]);
    }
  }

  // Layer two: four sextets to three bytes.

  function First(a: byte): sextet { a / 4 }

  function Second(a: byte, b: byte): sextet { a % 4 * 16 + b / 16 }

  function Third(b: byte, c: byte): sextet { b % 16 * 4 + c / 64 }

  function Fourth(c: byte): sextet { c % 64 }

  function High(p: sextet, q: sextet): byte { p as int * 4 + q as int / 16 }

  function Middle(q: sextet, r: sextet): byte { q as int % 16 * 16 + r as int / 4 }

  function Low(r: sextet, s: sextet): byte { r as int % 4 * 64 + s as int }

  lemma BytesOfSextets(a: byte, b: byte, c: byte)
    ensures High(First(a), Second(a, b)) == a
    ensures Middle(Second(a, b), Third(b, c)) == b
    ensures Low(Third(b, c), Fourth(c)) == c
  {}

  lemma SextetsOfBytes(p: sextet, q: sextet, r: sextet, s: sextet)
    ensures First(High(p, q)) == p
    ensures Second(High(p, q), Middle(q, r)) == q
    ensures Third(Middle(q, r), Low(r, s)) == r
    ensures Fourth(Low(r, s)) == s
  {}

  lemma FillBits(b: byte, q: sextet, r: sextet)
    ensures Second(b, 0) % 16 == 0 && Third(b, 0) % 4 == 0
    ensures q % 16 == 0 ==> Middle(q, 0) == 0
    ensures r % 4 == 0 ==> Low(r, 0) == 0
  {}

  /** A last partial block is filled up with zero bits. */
  function Split(bs: seq<byte>): (xs: seq<sextet>)
    ensures IsWhole(|xs|)
  {
    if |bs| == 0 then []
    else if |bs| == 1 then [First(bs[0]), Second(bs[0], 0)]
    else if |bs| == 2 then [First(bs[0]), Second(bs[0], bs[1]), Third(bs[1], 0)]
    else [First(bs[0]), Second(bs[0], bs[1]), Third(bs[1], bs[2]), Fourth(bs[2])] + Split(bs[3..])
  }

  /** The fill bits must be zero. */
  function Join(xs: seq<sextet>): Option<seq<byte>>
    requires IsWhole(|xs|)
  {
    if |xs| == 0 then Some([])
    else if |xs| == 2 then if xs[1] % 16 == 0 then Some([High(xs[0], xs[1])]) else None
    else if |xs| == 3 then
      if xs[2] % 4 == 0 then Some([High(xs[0], xs[1]), Middle(xs[1], xs[2])]) else None
    else
      match Join(xs[4..])
      case None => None
      case Some(rest) => Some([High(xs[0], xs[1]), Middle(xs[1], xs[2]), Low(xs[2], xs[3])] + rest)
  }

  // The arithmetic is kept away from the sequences: these four are stated for any sextets.

  lemma JoinTail(p: sextet, q: sextet, r: sextet)
    ensures q % 16 == 0 ==> Join([p, q]) == Some([High(p, q)])
    ensures r % 4 == 0 ==> Join([p, q, r]) == Some([High(p, q), Middle(q, r)])
  {}

  lemma SplitTail(a: byte, b: byte)
    ensures Split([a]) == [First(a), Second(a, 0)]
    ensures Split([a, b]) == [First(a), Second(a, b), Third(b, 0)]
  {}

  lemma JoinBlock(p: sextet, q: sextet, r: sextet, t: sextet, rest: seq<sextet>, bs: seq<byte>)
    requires IsWhole(|rest|) && Join(rest) == Some(bs)
    ensures Join([p, q, r, t] + rest) == Some([High(p, q), Middle(q, r), Low(r, t)] + bs)
  {
    assert ([p, q, r, t] + rest)[4..] == rest;
  }

  lemma SplitBlock(a: byte, b: byte, c: byte, rest: seq<byte>)
    ensures Split([a, b, c] + rest) == [First(a), Second(a, b), Third(b, c), Fourth(c)] + Split(rest)
  {
    assert ([a, b, c] + rest)[3..] == rest;
  }

  lemma {:induction false} JoinOfSplit(bs: seq<byte>)
    ensures Join(Split(bs)) == Some(bs)
  {
    if |bs| == 1 {
      var a := bs[0];
      assert bs == [a];
      SplitTail(a, 0);
      assert Second(a, 0) % 16 == 0 by { FillBits(a, 0, 0); }
      JoinTail(First(a), Second(a, 0), 0);
      assert High(First(a), Second(a, 0)) == a by { BytesOfSextets(a, 0, 0); }
    } else if |bs| == 2 {
      var a, b := bs[0], bs[1];
      assert bs == [a, b];
      SplitTail(a, b);
      assert Third(b, 0) % 4 == 0 by { FillBits(b, 0, 0); }
      JoinTail(First(a), Second(a, b), Third(b, 0));
      BytesOfSextets(a, b, 0);
    } else if |bs| >= 3 {
      var a, b, c := bs[0], bs[1], bs[2];
      assert bs == [a, b, c] + bs[3..];
      SplitBlock(a, b, c, bs[3..]);
      JoinOfSplit(bs[3..]);
      JoinBlock(First(a), Second(a, b), Third(b, c), Fourth(c), Split(bs[3..]), bs[3..]);
      BytesOfSextets(a, b, c);
    }
  }

  lemma SplitOfTwo(p: sextet, q: sextet)
    requires Join([p, q]).Some?
    ensures Split(Join([p, q]).value) == [p, q]
  {
    JoinTail(p, q, 0);
    SplitTail(High(p, q), 0);
    assert First(High(p, q)) == p && Second(High(p, q), 0) == q by {
      SextetsOfBytes(p, q, 0, 0);
      FillBits(0, q, 0);
    }
  }

  lemma SplitOfThree(p: sextet, q: sextet, r: sextet)
    requires Join([p, q, r]).Some?
    ensures Split(Join([p, q, r]).value) == [p, q, r]
  {
    JoinTail(p, q, r);
    SplitTail(High(p, q), Middle(q, r));
    assert First(High(p, q)) == p && Second(High(p, q), Middle(q, r)) == q && Third(Middle(q, r), 0) == r by {
      SextetsOfBytes(p, q, r, 0);
      FillBits(0, 0, r);
    }
  }

  lemma {:induction false} SplitOfJoin(xs: seq<sextet>)
    requires IsWhole(|xs|) && Join(xs).Some?
    ensures Split(Join(xs).value) == xs
  {
    if |xs| == 2 {
      assert xs == [xs[0], xs[1]];
      SplitOfTwo(xs[0], xs[1]);
    } else if |xs| == 3 {
      assert xs == [xs[0], xs[1], xs[2]];
      SplitOfThree(xs[0], xs[1], xs[2]);
    } else if |xs| >= 4 {
      var p, q, r, t := xs[0], xs[1], xs[2], xs[3];
      var rest := Join(xs[4..]).value;
      FirstFour(xs);
      SplitOfJoin(xs[4..]);
      JoinBlock(p, q, r, t, xs[4..], rest);
      SplitBlock(High(p, q), Middle(q, r), Low(r, t), rest);
      SextetsOfBytes(p, q, r, t);
    }
  }

  // The codec is the two layers together.

  function Encode(bs: seq<byte>): string {
    Spell(Split(bs))
  }

  function Decode(s: string): Option<seq<byte>> {
    match Read(s)
    case None => None
    case Some(xs) => Join(xs)
  }

  // ------------------------------------------------------------------ what the code is

  /** Table 1 of RFC 4648. */
  function Letter(v: nat): char
    requires v < 64
  {
    if v < 26 then "ABCDEFGHIJKLMNOPQRSTUVWXYZ"[v]
    else if v < 52 then "abcdefghijklmnopqrstuvwxyz"[v - 26]
    else "0123456789+/"[v - 52]
  }

  lemma DigitIsLetter(v: sextet)
    ensures Digit(v) == Letter(v)
  {}

  /** A byte of the input, and zero past its end. */
  function ByteAt(bs: seq<byte>, i: nat): byte {
    if i < |bs| then bs[i] else 0
  }

  /** The 24 bits of block k. */
  function Block(bs: seq<byte>, k: nat): (n: nat)
    ensures n < 16777216
  {
    65536 * ByteAt(bs, 3 * k) + 256 * ByteAt(bs, 3 * k + 1) + ByteAt(bs, 3 * k + 2)
  }

  /** Section 4 of RFC 4648, character by character: each block of three bytes, the last filled up with
      zero bits, is four digits of the alphabet, the highest first; the characters of a last block that
      stand for no byte are '='. */
  predicate IsBase64(s: string, bs: seq<byte>) {
    && |s| == (|bs| + 2) / 3 * 4
    && forall k :: 0 <= k < (|bs| + 2) / 3 ==> IsBlock(s, bs, k)
  }

  predicate IsBlock(s: string, bs: seq<byte>, k: nat)
    requires 4 * k + 4 <= |s|
  {
    var n := Block(bs, k);
    && s[4 * k] == Letter(n / 262144)
    && s[4 * k + 1] == Letter(n / 4096 % 64)
    && s[4 * k + 2] == (if 3 * k + 1 < |bs| then Letter(n / 64 % 64) else '=')
    && s[4 * k + 3] == (if 3 * k + 2 < |bs| then Letter(n % 64) else '=')
  }

  /** The four sextets are the block's number in base 64. */
  lemma SextetsArePositional(a: byte, b: byte, c: byte)
    ensures 65536 * a + 256 * b + c == 262144 * First(a) + 4096 * Second(a, b) + 64 * Third(b, c) + Fourth(c)
    ensures 65536 * a + 256 * b == 262144 * First(a) + 4096 * Second(a, b) + 64 * Third(b, 0)
    ensures 65536 * a == 262144 * First(a) + 4096 * Second(a, 0)
  {}

  lemma DigitsOfNumber(p: sextet, q: sextet, r: sextet, t: sextet)
    ensures var n := 262144 * p + 4096 * q + 64 * r + t;
      n / 262144 == p && n / 4096 % 64 == q && n / 64 % 64 == r && n % 64 == t
  {
    var n := 262144 * p + 4096 * q + 64 * r + t;
    assert n / 64 == 4096 * p + 64 * q + r;
    assert n / 4096 == 64 * p + q;
  }

  lemma BlockSextets(a: byte, b: byte, c: byte)
    ensures var n := 65536 * a + 256 * b + c;
      First(a) == n / 262144 && Second(a, b) == n / 4096 % 64 && Third(b, c) == n / 64 % 64 && Fourth(c) == n % 64
  {
    SextetsArePositional(a, b, c);
    DigitsOfNumber(First(a), Second(a, b), Third(b, c), Fourth(c));
  }

  /** Block k is four characters that spell the sextets of these bytes. */
  predicate SpellsBlock(s: string, bs: seq<byte>, k: nat)
    requires 4 * k + 4 <= |s|
  {
    var a, b, c := ByteAt(bs, 3 * k), ByteAt(bs, 3 * k + 1), ByteAt(bs, 3 * k + 2);
    && s[4 * k] == Digit(First(a)) && s[4 * k + 1] == Digit(Second(a, b))
    && s[4 * k + 2] == (if 3 * k + 1 < |bs| then Digit(Third(b, c)) else '=')
    && s[4 * k + 3] == (if 3 * k + 2 < |bs| then Digit(Fourth(c)) else '=')
  }

  lemma SpelledBlock(s: string, bs: seq<byte>, k: nat)
    requires 4 * k + 4 <= |s|
    ensures SpellsBlock(s, bs, k) <==> IsBlock(s, bs, k)
  {
    var a, b, c := ByteAt(bs, 3 * k), ByteAt(bs, 3 * k + 1), ByteAt(bs, 3 * k + 2);
    BlockLetters(a, b, c, Block(bs, k));
  }

  lemma BlockLetters(a: byte, b: byte, c: byte, n: nat)
    requires n == 65536 * a + 256 * b + c && n < 16777216
    ensures Digit(First(a)) == Letter(n / 262144) && Digit(Second(a, b)) == Letter(n / 4096 % 64)
    ensures Digit(Third(b, c)) == Letter(n / 64 % 64) && Digit(Fourth(c)) == Letter(n % 64)
  {
    BlockSextets(a, b, c);
    SameLetter(First(a), n / 262144);
    SameLetter(Second(a, b), n / 4096 % 64);
    SameLetter(Third(b, c), n / 64 % 64);
    SameLetter(Fourth(c), n % 64);
  }

  lemma SameLetter(v: sextet, n: nat)
    requires v == n
    ensures Digit(v) == Letter(n)
  {
    DigitIsLetter(v);
  }

  lemma {:induction false} EncodeLength(bs: seq<byte>)
    ensures |Encode(bs)| == (|bs| + 2) / 3 * 4
  {
    if |bs| >= 3 {
      EncodeLength(bs[3..]);
      EncodeOfBlock(bs);
    }
  }

  lemma {:induction false} EncodeSpellsBlocks(bs: seq<byte>)
    ensures |Encode(bs)| == (|bs| + 2) / 3 * 4
    ensures forall k :: 0 <= k < (|bs| + 2) / 3 ==> SpellsBlock(Encode(bs), bs, k)
  {
    EncodeLength(bs);
    if |bs| >= 3 {
      EncodeSpellsBlocks(bs[3..]);
      FirstBlock(bs);
      forall k | 0 < k < (|bs| + 2) / 3 ensures SpellsBlock(Encode(bs), bs, k) {
        LaterBlock(bs, k);
      }
    } else if bs != [] {
      LastBlock(bs);
    }
  }

  lemma FirstBlock(bs: seq<byte>)
    requires |bs| >= 3
    ensures |Encode(bs)| >= 4 && SpellsBlock(Encode(bs), bs, 0)
  {
    EncodeOfBlock(bs);
  }

  lemma LastBlock(bs: seq<byte>)
    requires 1 <= |bs| <= 2
    ensures |Encode(bs)| == 4 && SpellsBlock(Encode(bs), bs, 0)
  {}

  lemma EncodeOfBlock(bs: seq<byte>)
    requires |bs| >= 3
    ensures Encode(bs) == [Digit(First(bs[0])), Digit(Second(bs[0], bs[1])), Digit(Third(bs[1], bs[2])),
                           Digit(Fourth(bs[2]))] + Encode(bs[3..])
  {
    assert Split(bs)[4..] == Split(bs[3..]);
  }

  lemma LaterBlock(bs: seq<byte>, k: nat)
    requires |bs| >= 3 && 0 < k && 4 * k <= |Encode(bs[3..])|
    requires SpellsBlock(Encode(bs[3..]), bs[3..], k - 1)
    ensures SpellsBlock(Encode(bs), bs, k)
  {
    EncodeOfBlock(bs);
    assert Encode(bs)[4..] == Encode(bs[3..]);
    assert forall i: nat :: ByteAt(bs[3..], i) == ByteAt(bs, i + 3);
  }

  lemma EncodeIsBase64(bs: seq<byte>)
    ensures IsBase64(Encode(bs), bs)
  {
    EncodeSpellsBlocks(bs);
    forall k | 0 <= k < (|bs| + 2) / 3 ensures IsBlock(Encode(bs), bs, k) {
      SpelledBlock(Encode(bs), bs, k);
    }
  }

  /** There is one such text. */
  lemma IsBase64IsExact(s: string, bs: seq<byte>)
    ensures IsBase64(s, bs) <==> s == Encode(bs)
  {
    EncodeIsBase64(bs);
    if IsBase64(s, bs) {
      var e := Encode(bs);
      forall i | 0 <= i < |s| ensures s[i] == e[i] {
        var k := i / 4;
        assert IsBlock(s, bs, k) && IsBlock(e, bs, k);
        assert i == 4 * k || i == 4 * k + 1 || i == 4 * k + 2 || i == 4 * k + 3;
      }
    }
  }

  /** The decoder accepts exactly the encoder's outputs, each for the bytes it came from, and these are
      the base64 texts. */
  lemma DecodeIsExact(s: string, bs: seq<byte>)
    ensures Decode(s) == Some(bs) <==> s == Encode(bs)
    ensures Decode(s) == Some(bs) <==> IsBase64(s, bs)
  {
    IsBase64IsExact(s, bs);
    JoinOfSplit(bs);
    ReadOfSpell(Split(bs));
    if Decode(s).Some? {
      SpellOfRead(s);
      SplitOfJoin(Read(s).value);
    }
  }
}
