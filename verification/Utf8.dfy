/** The bytes of a text (`str::as_bytes`), and a decoder written from RFC 3629 that gives back
    every text from its bytes. */
module Utf8 {
  import opened Arithmetic
  import opened Text

  function EncodeChar(c: char): seq<byte> {
    var n := c as int;
    if n < 0x80 then [n]
    else if n < 0x800 then [0xc0 + n / 0x40, 0x80 + n % 0x40]
    else if n < 0x10000 then [0xe0 + n / 0x1000, 0x80 + n / 0x40 % 0x40, 0x80 + n % 0x40]
    else [0xf0 + n / 0x40000 % 8, 0x80 + n / 0x1000 % 0x40, 0x80 + n / 0x40 % 0x40, 0x80 + n % 0x40]
  }

  /** `str::as_bytes` */
  function Encode(s: string): seq<byte> {
    if s == "" then [] else EncodeChar(s[0]) + Encode(s[1..])
  }

  // ---- the decoder of RFC 3629 ------------------------------------------------------

  predicate IsTail(b: byte) {
    0x80 <= b <= 0xbf
  }

  /** The length of a sequence by its first byte, as in the table of section 3. */
  function Width(first: byte): nat {
    if first <= 0x7f then 1
    else if 0xc2 <= first <= 0xdf then 2
    else if 0xe0 <= first <= 0xef then 3
    else if 0xf0 <= first <= 0xf4 then 4
    else 0
  }

  /** The six bits of each byte behind the first, most significant first. */
  function TailValue(high: nat, tails: seq<byte>): nat {
    if tails == [] then high
    else TailValue(high, tails[..|tails| - 1]) * 0x40 + (tails[|tails| - 1] % 0x40)
  }

  /** The number of a sequence: the free bits of the first byte, then those of the others. */
  function CodePoint(b: seq<byte>): nat
    requires b != []
  {
    TailValue(match |b| case 1 => b[0] case 2 => b[0] % 0x20 case 3 => b[0] % 0x10 case _ => b[0] % 8, b[1..])
  }

  /** The numbers that take a sequence of this length; a longer one than needed is invalid. */
  predicate IsShortest(n: nat, width: nat) {
    match width
    case 1 => n <= 0x7f
    case 2 => 0x80 <= n <= 0x7ff
    case 3 => 0x800 <= n <= 0xffff && !(0xd800 <= n <= 0xdfff)
    case 4 => 0x1_0000 <= n <= 0x10_ffff
    case _ => false
  }

  function DecodeChar(b: seq<byte>): Option<char>
    requires b != []
  {
    var n := CodePoint(b);
    if |b| == Width(b[0]) && (forall k :: 1 <= k < |b| ==> IsTail(b[k])) && IsShortest(n, |b|) then Some(n as char)
    else None
  }

  function Decode(b: seq<byte>): Option<string> {
    if b == [] then Some("")
    else
      var w := Width(b[0]);
      if w == 0 || |b| < w then None
      else
        match (DecodeChar(b[..w]), Decode(b[w..]))
        case (Some(c), Some(s)) => Some([c] + s)
        case _ => None
  }

  lemma {:induction false} Tails(high: nat, x: byte, y: byte, z: byte)
    ensures TailValue(high, []) == high
    ensures TailValue(high, [x]) == high * 0x40 + x % 0x40
    ensures TailValue(high, [x, y]) == (high * 0x40 + x % 0x40) * 0x40 + y % 0x40
    ensures TailValue(high, [x, y, z]) == ((high * 0x40 + x % 0x40) * 0x40 + y % 0x40) * 0x40 + z % 0x40
  {
    assert [x][..0] == [] && [x, y][..1] == [x] && [x, y, z][..2] == [x, y];
  }

  /** The last three digits of a number to the base 64, and what is in front of them. */
  lemma {:induction false} Digits(a: nat, x: nat, y: nat, z: nat)
    requires x < 0x40 && y < 0x40 && z < 0x40
    ensures var n := ((a * 0x40 + x) * 0x40 + y) * 0x40 + z;
            n / 0x40000 == a && n / 0x1000 == a * 0x40 + x && n / 0x40 == (a * 0x40 + x) * 0x40 + y && n % 0x40 == z
    ensures (a * 0x40 + x) % 0x40 == x && ((a * 0x40 + x) * 0x40 + y) % 0x40 == y
  {
    var n := ((a * 0x40 + x) * 0x40 + y) * 0x40 + z;
    QuotientUnique(n, 0x40000, a, (x * 0x40 + y) * 0x40 + z);
    QuotientUnique(n, 0x1000, a * 0x40 + x, y * 0x40 + z);
    QuotientUnique(n, 0x40, (a * 0x40 + x) * 0x40 + y, z);
    QuotientUnique(a * 0x40 + x, 0x40, a, x);
    QuotientUnique((a * 0x40 + x) * 0x40 + y, 0x40, a * 0x40 + x, y);
  }

  lemma {:induction false} HasDigits(n: nat) returns (a: nat, x: nat, y: nat, z: nat)
    ensures x < 0x40 && y < 0x40 && z < 0x40 && n == ((a * 0x40 + x) * 0x40 + y) * 0x40 + z
  {
    var (h, m) := (n / 0x40, n / 0x40 / 0x40);
    a, x, y, z := m / 0x40, m % 0x40, h % 0x40, n % 0x40;
  }

  /** The bits of a first byte below its mark. */
  lemma {:induction false} LowBits(v: nat)
    ensures v < 0x20 ==> (0xc0 + v) % 0x20 == v
    ensures v < 0x10 ==> (0xe0 + v) % 0x10 == v
    ensures v < 8 ==> (0xf0 + v) % 8 == v && v % 8 == v
    ensures v < 0x40 ==> (0x80 + v) % 0x40 == v
  {
  }

  lemma {:induction false} OneByte(b: byte)
    ensures CodePoint([b]) == b
  {
    Tails(b, 0, 0, 0);
    assert [b][1..] == [];
  }

  lemma {:induction false} TwoBytes(y: nat, z: nat)
    requires y < 0x20 && z < 0x40
    ensures CodePoint([0xc0 + y, 0x80 + z]) == y * 0x40 + z
  {
    hide TailValue;
    Tails(y, 0x80 + z, 0, 0);
    LowBits(y);
    LowBits(z);
    assert [0xc0 + y, 0x80 + z][1..] == [0x80 + z];
  }

  lemma {:induction false} ThreeBytes(x: nat, y: nat, z: nat)
    requires x < 0x10 && y < 0x40 && z < 0x40
    ensures CodePoint([0xe0 + x, 0x80 + y, 0x80 + z]) == (x * 0x40 + y) * 0x40 + z
  {
    hide TailValue;
    Tails(x, 0x80 + y, 0x80 + z, 0);
    LowBits(x);
    LowBits(y);
    LowBits(z);
    assert [0xe0 + x, 0x80 + y, 0x80 + z][1..] == [0x80 + y, 0x80 + z];
  }

  lemma {:induction false} FourBytes(a: nat, x: nat, y: nat, z: nat)
    requires a < 8 && x < 0x40 && y < 0x40 && z < 0x40
    ensures CodePoint([0xf0 + a, 0x80 + x, 0x80 + y, 0x80 + z]) == ((a * 0x40 + x) * 0x40 + y) * 0x40 + z
  {
    hide TailValue;
    Tails(a, 0x80 + x, 0x80 + y, 0x80 + z);
    LowBits(a);
    LowBits(x);
    LowBits(y);
    LowBits(z);
    assert [0xf0 + a, 0x80 + x, 0x80 + y, 0x80 + z][1..] == [0x80 + x, 0x80 + y, 0x80 + z];
  }

  /** The sequence of a number with these digits. */
  function BytesOf(a: nat, x: nat, y: nat, z: nat): seq<byte>
    requires a < 8 && x < 0x40 && y < 0x40 && z < 0x40
  {
    if a == 0 && x == 0 && y < 2 then [y * 0x40 + z]
    else if a == 0 && x == 0 && y < 0x20 then [0xc0 + y, 0x80 + z]
    else if a == 0 && x < 0x10 then [0xe0 + x, 0x80 + y, 0x80 + z]
    else [0xf0 + a, 0x80 + x, 0x80 + y, 0x80 + z]
  }

  lemma {:induction false} EncodedDigits(c: char, a: nat, x: nat, y: nat, z: nat)
    requires x < 0x40 && y < 0x40 && z < 0x40 && c as int == ((a * 0x40 + x) * 0x40 + y) * 0x40 + z
    ensures a < 8 && EncodeChar(c) == BytesOf(a, x, y, z)
  {
    Digits(a, x, y, z);
    LowBits(a);
  }

  lemma {:induction false} CharRoundTrip(c: char)
    ensures var b := EncodeChar(c); b != [] && |b| == Width(b[0]) && DecodeChar(b) == Some(c)
  {
    hide CodePoint, EncodeChar;
    var a, x, y, z := HasDigits(c as int);
    EncodedDigits(c, a, x, y, z);
    CodePointOfBytes(BytesOf(a, x, y, z), a, x, y, z);
  }

  /** The bytes hold these digits below their marks. */
  predicate AreDigits(b: seq<byte>, a: nat, x: nat, y: nat, z: nat) {
    && a < 8 && x < 0x40 && y < 0x40 && z < 0x40
    && match |b|
       case 1 => a == 0 && x == 0 && y < 2 && b == [y * 0x40 + z]
       case 2 => a == 0 && x == 0 && y < 0x20 && b == [0xc0 + y, 0x80 + z]
       case 3 => a == 0 && x < 0x10 && b == [0xe0 + x, 0x80 + y, 0x80 + z]
       case _ => b == [0xf0 + a, 0x80 + x, 0x80 + y, 0x80 + z]
  }

  lemma {:induction false} DigitsOfBytes(b: seq<byte>) returns (a: nat, x: nat, y: nat, z: nat)
    requires b != [] && |b| == Width(b[0]) && forall k :: 1 <= k < |b| ==> IsTail(b[k])
    ensures AreDigits(b, a, x, y, z)
  {
    if |b| == 1 {
      a, x, y, z := 0, 0, b[0] / 0x40, b[0] % 0x40;
    } else if |b| == 2 {
      a, x, y, z := 0, 0, b[0] - 0xc0, b[1] - 0x80;
    } else if |b| == 3 {
      a, x, y, z := 0, b[0] - 0xe0, b[1] - 0x80, b[2] - 0x80;
    } else {
      a, x, y, z := b[0] - 0xf0, b[1] - 0x80, b[2] - 0x80, b[3] - 0x80;
    }
  }

  lemma {:induction false} CodePointOfBytes(b: seq<byte>, a: nat, x: nat, y: nat, z: nat)
    requires AreDigits(b, a, x, y, z)
    ensures b != [] && CodePoint(b) == ((a * 0x40 + x) * 0x40 + y) * 0x40 + z
  {
    hide CodePoint;
    if |b| == 1 {
      OneByte(y * 0x40 + z);
    } else if |b| == 2 {
      TwoBytes(y, z);
    } else if |b| == 3 {
      ThreeBytes(x, y, z);
    } else {
      FourBytes(a, x, y, z);
    }
  }

  /** The other way round: what is decoded to a character is its encoding. */
  lemma {:induction false} DecodedIsEncoding(b: seq<byte>, c: char)
    requires b != [] && DecodeChar(b) == Some(c)
    ensures EncodeChar(c) == b
  {
    hide CodePoint, EncodeChar;
    var a, x, y, z := DigitsOfBytes(b);
    CodePointOfBytes(b, a, x, y, z);
    EncodedDigits(c, a, x, y, z);
  }

  /** The decoder gives back every text, so different texts have different bytes. */
  lemma {:induction false} RoundTrip(s: string)
    ensures Decode(Encode(s)) == Some(s)
  {
    hide EncodeChar, DecodeChar, Width;
    if s != "" {
      CharRoundTrip(s[0]);
      RoundTrip(s[1..]);
      var (b, w) := (Encode(s), |EncodeChar(s[0])|);
      assert b[..w] == EncodeChar(s[0]) && b[w..] == Encode(s[1..]);
      assert [s[0]] + s[1..] == s;
    }
  }

  /** And it accepts nothing but the bytes of texts. */
  lemma {:induction false} OnlyEncodingsDecode(b: seq<byte>)
    requires Decode(b).Some?
    ensures Encode(Decode(b).value) == b
  {
    hide EncodeChar, DecodeChar, Width;
    if b != [] {
      var w := Width(b[0]);
      var (c, s) := (DecodeChar(b[..w]).value, Decode(b[w..]).value);
      DecodedIsEncoding(b[..w], c);
      OnlyEncodingsDecode(b[w..]);
      assert Decode(b).value == [c] + s && ([c] + s)[1..] == s;
      assert b == b[..w] + b[w..];
    }
  }
}
