/** The standard base64 encoding of section 4 of RFC 4648, as `base64.b64encode` produces it,
    with a strict decoder for its output. */
module Base64 {
  import opened Results
  import opened Values

  /** A character of the standard alphabet: A-Z, a-z, 0-9, '+' and '/'. */
  predicate IsAlphabetChar(c: char) {
    ('A' <= c <= 'Z') || ('a' <= c <= 'z') || ('0' <= c <= '9') || c == '+' || c == '/'
  }

  const PAD: char := '='

  /** The character that encodes a 6-bit value. */
  function Digit(n: int): (c: char)
    requires 0 <= n < 64
    ensures IsAlphabetChar(c)
  {
    if n < 26 then ('A' as int + n) as char
    else if n < 52 then ('a' as int + (n - 26)) as char
    else if n < 62 then ('0' as int + (n - 52)) as char
    else if n == 62 then '+'
    else '/'
  }

  /** The 6-bit value an alphabet character encodes. */
  function DigitValue(c: char): (n: int)
    requires IsAlphabetChar(c)
    ensures 0 <= n < 64
  {
    if 'A' <= c <= 'Z' then c as int - 'A' as int
    else if 'a' <= c <= 'z' then c as int - 'a' as int + 26
    else if '0' <= c <= '9' then c as int - '0' as int + 52
    else if c == '+' then 62
    else 63
  }

  lemma DigitValueOfDigit(n: int)
    requires 0 <= n < 64
    ensures DigitValue(Digit(n)) == n
  {
  }

  /** The four characters for a group of three bytes. */
  function EncodeGroup(b0: byte, b1: byte, b2: byte): (g: string)
    ensures |g| == 4 && IsAlphabetChar(g[0]) && IsAlphabetChar(g[1]) && IsAlphabetChar(g[2]) && IsAlphabetChar(g[3])
  {
    var (x, y, z, w) := Sextets(b0, b1, b2);
    [Digit(x), Digit(y), Digit(z), Digit(w)]
  }

  /** `base64.b64encode(b).decode()`: groups of three bytes, the last one or two padded with '='. */
  function Encode(b: Bytes): (s: string)
    ensures |s| == 4 * ((|b| + 2) / 3)
    ensures forall k :: 0 <= k < |s| ==> IsAlphabetChar(s[k]) || s[k] == PAD
    decreases |b|
  {
    if |b| == 0 then ""
    else if |b| == 1 then
      var (x, y, _, _) := Sextets(b[0], 0, 0);
      [Digit(x), Digit(y), PAD, PAD]
    else if |b| == 2 then
      var (x, y, z, _) := Sextets(b[0], b[1], 0);
      [Digit(x), Digit(y), Digit(z), PAD]
    else
      var g, rest := EncodeGroup(b[0], b[1], b[2]), Encode(b[3..]);
      assert (|b| + 2) / 3 == (|b[3..]| + 2) / 3 + 1;
      assert forall k :: 4 <= k < |g + rest| ==> (g + rest)[k] == rest[k - 4];
      g + rest
  }

  /** The alphabet has no comma, so encoded text never contains one. */
  lemma EncodeHasNoComma(b: Bytes)
    ensures ',' !in Encode(b)
  {
    var s := Encode(b);
    forall k | 0 <= k < |s|
      ensures s[k] != ','
    {
      assert IsAlphabetChar(s[k]) || s[k] == PAD;
    }
  }

  /** The bytes that consecutive 6-bit values x, y, z, w carry. */
  function Byte0(x: int, y: int): int { x * 4 + y / 16 }
  function Byte1(y: int, z: int): int { (y % 16) * 16 + z / 4 }
  function Byte2(z: int, w: int): int { (z % 4) * 64 + w }

  /** The three bytes four alphabet characters encode. */
  function DecodeGroup(a: char, b: char, c: char, d: char): Bytes
    requires IsAlphabetChar(a) && IsAlphabetChar(b) && IsAlphabetChar(c) && IsAlphabetChar(d)
  {
    var x, y, z, w := DigitValue(a), DigitValue(b), DigitValue(c), DigitValue(d);
    [Byte0(x, y) as byte, Byte1(y, z) as byte, Byte2(z, w) as byte]
  }

  /** A final group "ab==": one byte, the unused bits of b zero. */
  function DecodeTwoPads(a: char, b: char): Option<Bytes>
    requires IsAlphabetChar(a) && IsAlphabetChar(b)
  {
    var x, y := DigitValue(a), DigitValue(b);
    if y % 16 != 0 then None else Some([Byte0(x, y) as byte])
  }

  /** A final group "abc=": two bytes, the unused bits of c zero. */
  function DecodeOnePad(a: char, b: char, c: char): Option<Bytes>
    requires IsAlphabetChar(a) && IsAlphabetChar(b) && IsAlphabetChar(c)
  {
    var x, y, z := DigitValue(a), DigitValue(b), DigitValue(c);
    if z % 4 != 0 then None else Some([Byte0(x, y) as byte, Byte1(y, z) as byte])
  }

  /** The last group of four characters, with no, one or two padding characters. */
  function DecodeLast(q: string): Option<Bytes>
    requires |q| == 4
  {
    if !IsAlphabetChar(q[0]) || !IsAlphabetChar(q[1]) then None
    else if q[2] == PAD && q[3] == PAD then DecodeTwoPads(q[0], q[1])
    else if IsAlphabetChar(q[2]) && q[3] == PAD then DecodeOnePad(q[0], q[1], q[2])
    else if IsAlphabetChar(q[2]) && IsAlphabetChar(q[3]) then Some(DecodeGroup(q[0], q[1], q[2], q[3]))
    else None
  }

  /** Strict decoding of canonical base64 text: nothing for any other text. */
  function Decode(s: string): Option<Bytes>
    decreases |s|
  {
    if |s| == 0 then Some([])
    else if |s| < 4 || |s| % 4 != 0 then None
    else if |s| == 4 then DecodeLast(s)
    else if IsAlphabetChar(s[0]) && IsAlphabetChar(s[1]) && IsAlphabetChar(s[2]) && IsAlphabetChar(s[3]) then
      match Decode(s[4..])
      case None => None
      case Some(rest) => Some(DecodeGroup(s[0], s[1], s[2], s[3]) + rest)
    else None
  }

  lemma Quotient(n: int, d: int, q: int, r: int)
    requires d == 4 || d == 16 || d == 64
    requires 0 <= r < d && n == q * d + r
    ensures n / d == q && n % d == r
  {
  }

  /** The 6-bit values a group of three bytes is cut into. */
  function Sextets(b0: byte, b1: byte, b2: byte): (int, int, int, int) {
    (b0 as int / 4, (b0 as int % 4) * 16 + b1 as int / 16, (b1 as int % 16) * 4 + b2 as int / 64, b2 as int % 64)
  }

  /** Reassembling the sextets gives the bytes back, and the bits past a short group are zero. */
  lemma SextetsRejoin(b0: byte, b1: byte, b2: byte)
    ensures var (x, y, z, w) := Sextets(b0, b1, b2);
      && 0 <= x < 64 && 0 <= y < 64 && 0 <= z < 64 && 0 <= w < 64
      && Byte0(x, y) == b0 as int && Byte1(y, z) == b1 as int && Byte2(z, w) == b2 as int
      && (b1 == 0 ==> y % 16 == 0) && (b2 == 0 ==> z % 4 == 0)
  {
    var (x, y, z, w) := Sextets(b0, b1, b2);
    Quotient(b0 as int, 4, x, b0 as int % 4);
    Quotient(y, 16, b0 as int % 4, b1 as int / 16);
    Quotient(b1 as int, 16, b1 as int / 16, b1 as int % 16);
    Quotient(z, 4, b1 as int % 16, b2 as int / 64);
  }

  lemma DecodeDigits(x: int, y: int, z: int, w: int)
    requires 0 <= x < 64 && 0 <= y < 64 && 0 <= z < 64 && 0 <= w < 64
    requires 0 <= Byte0(x, y) < 256 && 0 <= Byte1(y, z) < 256 && 0 <= Byte2(z, w) < 256
    ensures DecodeGroup(Digit(x), Digit(y), Digit(z), Digit(w)) ==
      [Byte0(x, y) as byte, Byte1(y, z) as byte, Byte2(z, w) as byte]
  {
    DigitValueOfDigit(x);
    DigitValueOfDigit(y);
    DigitValueOfDigit(z);
    DigitValueOfDigit(w);
  }

  lemma GroupRoundTrip(b0: byte, b1: byte, b2: byte)
    ensures var g := EncodeGroup(b0, b1, b2); DecodeGroup(g[0], g[1], g[2], g[3]) == [b0, b1, b2]
  {
    var (x, y, z, w) := Sextets(b0, b1, b2);
    SextetsRejoin(b0, b1, b2);
    assert EncodeGroup(b0, b1, b2) == [Digit(x), Digit(y), Digit(z), Digit(w)];
    DecodeDigits(x, y, z, w);
  }

  lemma OneByteRoundTrip(b: Bytes)
    requires |b| == 1
    ensures Decode(Encode(b)) == Some(b)
  {
    var (x, y, z, w) := Sextets(b[0], 0, 0);
    SextetsRejoin(b[0], 0, 0);
    DigitValueOfDigit(x);
    DigitValueOfDigit(y);
    var s := Encode(b);
    assert s == [Digit(x), Digit(y), PAD, PAD];
    assert DecodeLast(s) == DecodeTwoPads(s[0], s[1]);
    assert b == [b[0]];
  }

  lemma TwoBytesRoundTrip(b: Bytes)
    requires |b| == 2
    ensures Decode(Encode(b)) == Some(b)
  {
    var (x, y, z, w) := Sextets(b[0], b[1], 0);
    SextetsRejoin(b[0], b[1], 0);
    DigitValueOfDigit(x);
    DigitValueOfDigit(y);
    DigitValueOfDigit(z);
    var s := Encode(b);
    assert s == [Digit(x), Digit(y), Digit(z), PAD];
    assert DecodeLast(s) == DecodeOnePad(s[0], s[1], s[2]);
    assert b == [b[0], b[1]];
  }

  /** A lone group of four alphabet characters decodes to its three bytes. */
  lemma DecodeFullGroup(g: string)
    requires |g| == 4 && IsAlphabetChar(g[0]) && IsAlphabetChar(g[1]) && IsAlphabetChar(g[2]) && IsAlphabetChar(g[3])
    ensures Decode(g) == Some(DecodeGroup(g[0], g[1], g[2], g[3]))
  {
    assert DecodeLast(g) == Some(DecodeGroup(g[0], g[1], g[2], g[3]));
  }

  lemma EncodeThree(b0: byte, b1: byte, b2: byte)
    ensures Encode([b0, b1, b2]) == EncodeGroup(b0, b1, b2)
  {
    assert [b0, b1, b2][3..] == [];
  }

  lemma ThreeBytesRoundTrip(b0: byte, b1: byte, b2: byte)
    ensures Decode(Encode([b0, b1, b2])) == Some([b0, b1, b2])
  {
    var g := EncodeGroup(b0, b1, b2);
    EncodeThree(b0, b1, b2);
    DecodeFullGroup(g);
    GroupRoundTrip(b0, b1, b2);
  }

  /** A full leading group decodes on its own, in front of what the rest decodes to. */
  lemma DecodeLeadingGroup(s: string, tail: Bytes)
    requires |s| >= 8 && |s| % 4 == 0
    requires IsAlphabetChar(s[0]) && IsAlphabetChar(s[1]) && IsAlphabetChar(s[2]) && IsAlphabetChar(s[3])
    requires Decode(s[4..]) == Some(tail)
    ensures Decode(s) == Some(DecodeGroup(s[0], s[1], s[2], s[3]) + tail)
  {
  }

  lemma SplitAfterThree(b: Bytes)
    requires |b| >= 3
    ensures b == [b[0], b[1], b[2]] + b[3..]
  {
  }

  lemma EncodeLonger(b: Bytes)
    requires |b| > 3
    ensures Encode(b) == EncodeGroup(b[0], b[1], b[2]) + Encode(b[3..])
  {
  }

  /** Encoding a non-empty input gives whole groups of four. */
  lemma WholeGroups(b: Bytes)
    requires |b| > 0
    ensures |Encode(b)| >= 4 && |Encode(b)| % 4 == 0
  {
    var n, m := |Encode(b)|, (|b| + 2) / 3;
    assert n == 4 * m;
    QuarterOfWhole(n, m);
  }

  lemma QuarterOfWhole(n: int, m: int)
    requires n == 4 * m && m >= 1
    ensures n >= 4 && n % 4 == 0
  {
  }

  /** The leading group and the rest, seen through the concatenation. */
  lemma DecodeAfterGroup(g: string, rest: string)
    requires |g| == 4 && IsAlphabetChar(g[0]) && IsAlphabetChar(g[1]) && IsAlphabetChar(g[2]) && IsAlphabetChar(g[3])
    requires |rest| >= 4 && |rest| % 4 == 0
    ensures Decode(rest).Some? ==> Decode(g + rest) == Some(DecodeGroup(g[0], g[1], g[2], g[3]) + Decode(rest).value)
  {
    if Decode(rest).None? { return; }
    var s, tail := g + rest, Decode(rest).value;
    assert |s| == |rest| + 4;
    OneMoreGroup(|rest|);
    assert s[4..] == rest;
    assert s[0] == g[0] && s[1] == g[1] && s[2] == g[2] && s[3] == g[3];
    DecodeLeadingGroup(s, tail);
  }

  lemma OneMoreGroup(n: int)
    requires n % 4 == 0
    ensures (n + 4) % 4 == 0
  {
  }

  /** The inductive step: a leading group of three bytes in front of a shorter input. */
  lemma {:induction false} LongerRoundTrip(b: Bytes)
    requires |b| > 3
    ensures Decode(Encode(b)) == Some(b)
    decreases |b|, 0
  {
    DecodeEncode(b[3..]);
    EncodeLonger(b);
    WholeGroups(b[3..]);
    DecodeAfterGroup(EncodeGroup(b[0], b[1], b[2]), Encode(b[3..]));
    GroupRoundTrip(b[0], b[1], b[2]);
    SplitAfterThree(b);
  }

  /** Decoding what the encoder produced gives back the original bytes. */
  lemma {:induction false} DecodeEncode(b: Bytes)
    ensures Decode(Encode(b)) == Some(b)
    decreases |b|, 1
  {
    if |b| == 0 {
    } else if |b| == 1 {
      OneByteRoundTrip(b);
    } else if |b| == 2 {
      TwoBytesRoundTrip(b);
    } else if |b| == 3 {
      assert b == [b[0], b[1], b[2]];
      ThreeBytesRoundTrip(b[0], b[1], b[2]);
    } else {
      LongerRoundTrip(b);
    }
  }
}
