/** Base64 encoding of a byte buffer, as Node's `buffer.toString("base64")` produces it
    (the standard alphabet with '=' padding of section 4 of RFC 4648), with the decoder
    that undoes it. */
module Base64 {
  import opened Wrappers

  newtype byte = x: int | 0 <= x < 256

  /** The character that stands for the 6-bit value `k`. */
  function Sextet(k: int): (c: char)
    requires 0 <= k < 64
  {
    if k < 26 then ('A' as int + k) as char
    else if k < 52 then ('a' as int + k - 26) as char
    else if k < 62 then ('0' as int + k - 52) as char
    else if k == 62 then '+'
    else '/'
  }

  predicate IsAlphabet(c: char) {
    'A' <= c <= 'Z' || 'a' <= c <= 'z' || '0' <= c <= '9' || c == '+' || c == '/'
  }

  /** The 6-bit value an alphabet character stands for. */
  function ValueOf(c: char): (k: int)
    requires IsAlphabet(c)
    ensures 0 <= k < 64 && Sextet(k) == c
  {
    if 'A' <= c <= 'Z' then c as int - 'A' as int
    else if 'a' <= c <= 'z' then c as int - 'a' as int + 26
    else if '0' <= c <= '9' then c as int - '0' as int + 52
    else if c == '+' then 62
    else 63
  }

  lemma ValueOfSextet(k: int)
    requires 0 <= k < 64
    ensures IsAlphabet(Sextet(k)) && ValueOf(Sextet(k)) == k
  {
  }

  /** Three bytes as four characters. */
  function EncodeGroup(b0: byte, b1: byte, b2: byte): string {
    [Sextet(b0 as int / 4), Sextet(b0 as int % 4 * 16 + b1 as int / 16),
     Sextet(b1 as int % 16 * 4 + b2 as int / 64), Sextet(b2 as int % 64)]
  }

  /** A final single byte: two characters and two '='. */
  function EncodeLastOne(b0: byte): string {
    [Sextet(b0 as int / 4), Sextet(b0 as int % 4 * 16), '=', '=']
  }

  /** A final pair of bytes: three characters and one '='. */
  function EncodeLastTwo(b0: byte, b1: byte): string {
    [Sextet(b0 as int / 4), Sextet(b0 as int % 4 * 16 + b1 as int / 16), Sextet(b1 as int % 16 * 4), '=']
  }

  /** The encoding of `data`: four characters for every three bytes, the last group padded
      with '='. */
  function Encode(data: seq<byte>): (r: string)
    ensures |r| == 4 * ((|data| + 2) / 3)
    decreases |data|
  {
    if |data| == 0 then []
    else if |data| == 1 then EncodeLastOne(data[0])
    else if |data| == 2 then EncodeLastTwo(data[0], data[1])
    else EncodeGroup(data[0], data[1], data[2]) + Encode(data[3..])
  }

  /** Only alphabet characters and the padding character occur in an encoding. */
  lemma {:induction false} EncodeAlphabet(data: seq<byte>)
    ensures forall k :: 0 <= k < |Encode(data)| ==> IsAlphabet(Encode(data)[k]) || Encode(data)[k] == '='
    decreases |data|
  {
    if |data| >= 3 {
      var g, rest := EncodeGroup(data[0], data[1], data[2]), Encode(data[3..]);
      EncodeAlphabet(data[3..]);
      assert Encode(data) == g + rest;
      forall k | 0 <= k < |g + rest| ensures IsAlphabet((g + rest)[k]) || (g + rest)[k] == '=' {
        if k >= 4 { assert (g + rest)[k] == rest[k - 4]; }
      }
    }
  }

  /** Four alphabet characters as three bytes. */
  function DecodeGroup(i0: int, i1: int, i2: int, i3: int): seq<byte>
    requires 0 <= i0 < 64 && 0 <= i1 < 64 && 0 <= i2 < 64 && 0 <= i3 < 64
  {
    [(i0 * 4 + i1 / 16) as byte, (i1 % 16 * 16 + i2 / 4) as byte, (i2 % 4 * 64 + i3) as byte]
  }

  /** The last group of four characters, which may end in one or two '='. */
  function DecodeLast(g: string): Option<seq<byte>>
    requires |g| == 4
  {
    if !IsAlphabet(g[0]) || !IsAlphabet(g[1]) then None
    else if g[2] == '=' && g[3] == '=' then
      var i0, i1 := ValueOf(g[0]), ValueOf(g[1]);
      Some([(i0 * 4 + i1 / 16) as byte])
    else if IsAlphabet(g[2]) && g[3] == '=' then
      var i0, i1, i2 := ValueOf(g[0]), ValueOf(g[1]), ValueOf(g[2]);
      Some([(i0 * 4 + i1 / 16) as byte, (i1 % 16 * 16 + i2 / 4) as byte])
    else if IsAlphabet(g[2]) && IsAlphabet(g[3]) then
      Some(DecodeGroup(ValueOf(g[0]), ValueOf(g[1]), ValueOf(g[2]), ValueOf(g[3])))
    else None
  }

  /** The bytes a padded base64 text stands for, or None when it is not one. */
  function Decode(s: string): Option<seq<byte>>
    decreases |s|
  {
    if |s| == 0 then Some([])
    else if |s| < 4 then None
    else if |s| == 4 then DecodeLast(s)
    else if IsAlphabet(s[0]) && IsAlphabet(s[1]) && IsAlphabet(s[2]) && IsAlphabet(s[3]) then
      match Decode(s[4..])
      case None => None
      case Some(rest) =>
        Some(DecodeGroup(ValueOf(s[0]), ValueOf(s[1]), ValueOf(s[2]), ValueOf(s[3])) + rest)
    else None
  }

  lemma Combine(hi: int, lo: int, n: int)
    requires n == 4 || n == 16 || n == 64
    requires 0 <= lo < n
    ensures (hi * n + lo) / n == hi && (hi * n + lo) % n == lo
  {
  }

  lemma Split(x: int, n: int)
    requires n == 4 || n == 16 || n == 64
    ensures x / n * n + x % n == x
  {
  }

  /** The sextets of three bytes put back together give the bytes. */
  lemma TripleArithmetic(x0: int, x1: int, x2: int)
    requires 0 <= x0 < 256 && 0 <= x1 < 256 && 0 <= x2 < 256
    ensures var i0, i1, i2, i3 := x0 / 4, x0 % 4 * 16 + x1 / 16, x1 % 16 * 4 + x2 / 64, x2 % 64;
            && 0 <= i0 < 64 && 0 <= i1 < 64 && 0 <= i2 < 64 && 0 <= i3 < 64
            && i0 * 4 + i1 / 16 == x0 && i1 % 16 * 16 + i2 / 4 == x1 && i2 % 4 * 64 + i3 == x2
  {
    Combine(x0 % 4, x1 / 16, 16);
    Combine(x1 % 16, x2 / 64, 4);
    Split(x0, 4);
    Split(x1, 16);
    Split(x2, 64);
  }

  /** The sextets of two bytes put back together give the bytes. */
  lemma PairArithmetic(x0: int, x1: int)
    requires 0 <= x0 < 256 && 0 <= x1 < 256
    ensures var i0, i1, i2 := x0 / 4, x0 % 4 * 16 + x1 / 16, x1 % 16 * 4;
            && 0 <= i0 < 64 && 0 <= i1 < 64 && 0 <= i2 < 64
            && i0 * 4 + i1 / 16 == x0 && i1 % 16 * 16 + i2 / 4 == x1
  {
    Combine(x0 % 4, x1 / 16, 16);
    Combine(x1 % 16, 0, 4);
    Split(x0, 4);
    Split(x1, 16);
  }

  /** The four characters of a full group decode to its three bytes. */
  lemma GroupRoundTrip(b0: byte, b1: byte, b2: byte)
    ensures var g := EncodeGroup(b0, b1, b2);
            && IsAlphabet(g[0]) && IsAlphabet(g[1]) && IsAlphabet(g[2]) && IsAlphabet(g[3])
            && DecodeGroup(ValueOf(g[0]), ValueOf(g[1]), ValueOf(g[2]), ValueOf(g[3])) == [b0, b1, b2]
  {
    var x0, x1, x2 := b0 as int, b1 as int, b2 as int;
    var i0, i1, i2, i3 := x0 / 4, x0 % 4 * 16 + x1 / 16, x1 % 16 * 4 + x2 / 64, x2 % 64;
    TripleArithmetic(x0, x1, x2);
    ValueOfSextet(i0);
    ValueOfSextet(i1);
    ValueOfSextet(i2);
    ValueOfSextet(i3);
  }

  /** A last group with two '=' decodes to one byte. */
  lemma DecodeLastSingle(c0: char, c1: char)
    requires IsAlphabet(c0) && IsAlphabet(c1)
    ensures var i0, i1 := ValueOf(c0), ValueOf(c1);
            && 0 <= i0 * 4 + i1 / 16 < 256
            && DecodeLast([c0, c1, '=', '=']) == Some([(i0 * 4 + i1 / 16) as byte])
  {
  }

  /** A last group with one '=' decodes to two bytes. */
  lemma DecodeLastPair(c0: char, c1: char, c2: char)
    requires IsAlphabet(c0) && IsAlphabet(c1) && IsAlphabet(c2)
    ensures var i0, i1, i2 := ValueOf(c0), ValueOf(c1), ValueOf(c2);
            && 0 <= i0 * 4 + i1 / 16 < 256 && 0 <= i1 % 16 * 16 + i2 / 4 < 256
            && DecodeLast([c0, c1, c2, '='])
               == Some([(i0 * 4 + i1 / 16) as byte, (i1 % 16 * 16 + i2 / 4) as byte])
  {
  }

  lemma LastOneRoundTrip(b0: byte)
    ensures DecodeLast(EncodeLastOne(b0)) == Some([b0])
  {
    var x0 := b0 as int;
    ValueOfSextet(x0 / 4);
    ValueOfSextet(x0 % 4 * 16);
    Combine(x0 % 4, 0, 16);
    Split(x0, 4);
    DecodeLastSingle(Sextet(x0 / 4), Sextet(x0 % 4 * 16));
  }

  lemma LastTwoRoundTrip(b0: byte, b1: byte)
    ensures DecodeLast(EncodeLastTwo(b0, b1)) == Some([b0, b1])
  {
    var x0, x1 := b0 as int, b1 as int;
    var i0, i1, i2 := x0 / 4, x0 % 4 * 16 + x1 / 16, x1 % 16 * 4;
    PairArithmetic(x0, x1);
    ValueOfSextet(i0);
    ValueOfSextet(i1);
    ValueOfSextet(i2);
    DecodeLastPair(Sextet(i0), Sextet(i1), Sextet(i2));
  }

  /** A full group in front of more text decodes to its bytes in front of the rest. */
  lemma DecodeFront(g: string, rest: string, front: seq<byte>, back: seq<byte>)
    requires |g| == 4 && IsAlphabet(g[0]) && IsAlphabet(g[1]) && IsAlphabet(g[2]) && IsAlphabet(g[3])
    requires DecodeGroup(ValueOf(g[0]), ValueOf(g[1]), ValueOf(g[2]), ValueOf(g[3])) == front
    requires Decode(rest) == Some(back)
    ensures Decode(g + rest) == Some(front + back)
  {
    var s := g + rest;
    assert s[..4] == g;
    assert s[4..] == rest;
    if rest == [] {
      assert s == g;
      assert back == [];
      assert front + [] == front;
    }
  }

  /** A text of one group decodes as its last group. */
  lemma DecodeSingleGroup(s: string)
    requires |s| == 4
    ensures Decode(s) == DecodeLast(s)
  {
  }

  lemma DecodeEncodeSingle(b0: byte)
    ensures Decode(Encode([b0])) == Some([b0])
  {
    assert Encode([b0]) == EncodeLastOne(b0);
    DecodeSingleGroup(EncodeLastOne(b0));
    LastOneRoundTrip(b0);
  }

  lemma DecodeEncodePair(b0: byte, b1: byte)
    ensures Decode(Encode([b0, b1])) == Some([b0, b1])
  {
    assert Encode([b0, b1]) == EncodeLastTwo(b0, b1);
    DecodeSingleGroup(EncodeLastTwo(b0, b1));
    LastTwoRoundTrip(b0, b1);
  }

  lemma SplitThree(data: seq<byte>)
    requires |data| >= 3
    ensures data == [data[0], data[1], data[2]] + data[3..]
  {
  }

  /** Decoding undoes encoding. */
  lemma {:induction false} DecodeEncode(data: seq<byte>)
    ensures Decode(Encode(data)) == Some(data)
    decreases |data|
  {
    if |data| == 1 {
      assert data == [data[0]];
      DecodeEncodeSingle(data[0]);
    } else if |data| == 2 {
      assert data == [data[0], data[1]];
      DecodeEncodePair(data[0], data[1]);
    } else if |data| >= 3 {
      var g, rest := EncodeGroup(data[0], data[1], data[2]), Encode(data[3..]);
      assert Encode(data) == g + rest;
      GroupRoundTrip(data[0], data[1], data[2]);
      DecodeEncode(data[3..]);
      SplitThree(data);
      DecodeFront(g, rest, [data[0], data[1], data[2]], data[3..]);
    }
  }
}
