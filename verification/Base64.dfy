/** `base64_encode` (commands/etcd.rs) against the decoder of section 4 of RFC 4648. */
module Base64 {
  import opened Arithmetic
  import opened Bits
  import opened Text

  const UPPER_CASE := "ABCDEFGHIJKLMNOPQRSTUVWXYZ"
  const LOWER_CASE := "abcdefghijklmnopqrstuvwxyz"
  const DIGITS := "0123456789"
  const ALPHABET := UPPER_CASE + LOWER_CASE + DIGITS + "+/"

  // ---- the encoding, three bytes at a time ------------------------------------------

  function Character(v: int): char
    requires 0 <= v < 64
  {
    assert |UPPER_CASE| == 26 && |LOWER_CASE| == 26 && |DIGITS| == 10;
    ALPHABET[v]
  }

  /** The 24-bit group of three bytes. */
  function Group(b0: byte, b1: byte, b2: byte): (n: int)
    ensures 0 <= n < 0x1000000
  {
    0x10000 * b0 + 0x100 * b1 + b2
  }

  /** One chunk of one, two or three bytes; absent bytes count as zero in the group. */
  function EncodeChunk(chunk: seq<byte>): (r: string)
    requires 1 <= |chunk| <= 3
    ensures |r| == 4
  {
    var n := Group(chunk[0], if |chunk| > 1 then chunk[1] else 0, if |chunk| > 2 then chunk[2] else 0);
    EncodeGroup(n, |chunk|)
  }

  function EncodeGroup(n: int, count: int): (r: string)
    ensures |r| == 4
  {
    [Character(n / 0x40000 % 64), Character(n / 0x1000 % 64),
     if count > 1 then Character(n / 0x40 % 64) else '=',
     if count > 2 then Character(n % 64) else '=']
  }

  function Encode(input: seq<byte>): string {
    if input == [] then ""
    else if |input| <= 3 then EncodeChunk(input)
    else EncodeChunk(input[..3]) + Encode(input[3..])
  }

  // ---- the program's shifts and masks -----------------------------------------------

  /** `(b0 << 16) | (b1 << 8) | b2` is the group. */
  lemma {:induction false} GroupByShifts(b0: byte, b1: byte, b2: byte)
    ensures Or(Or(Shl32(b0, 16), Shl32(b1, 8)), b2) == Group(b0, b1, b2)
  {
    hide Or, Power2;
    SmallPowers();
    QuotientUnique(b0 * 0x10000, U32, 0, b0 * 0x10000);
    QuotientUnique(b1 * 0x100, U32, 0, b1 * 0x100);
    OrIsSum(b0, b1 * 0x100, 16);
    OrIsSum(0x100 * b0 + b1, b2, 8);
  }

  lemma {:induction false} SmallPowers()
    ensures Power2(6) == 0x40 && Power2(8) == 0x100 && Power2(12) == 0x1000
    ensures Power2(16) == 0x10000 && Power2(18) == 0x40000
  {
  }

  /** `(n >> k) & 0x3f` is six of the group's bits. */
  lemma {:induction false} SextetByMask(n: nat, k: nat)
    ensures And(Shr(n, k), 0x3f) == n / Power2(k) % 64
  {
    hide And, Shr, Power2;
    SmallPowers();
    ShrIsQuotient(n, k);
    AndKeepsLow(Shr(n, k), 6);
  }

  lemma {:induction false} SextetsByMask(n: nat)
    ensures And(Shr(n, 18), 0x3f) == n / 0x40000 % 64
    ensures And(Shr(n, 12), 0x3f) == n / 0x1000 % 64
    ensures And(Shr(n, 6), 0x3f) == n / 0x40 % 64
    ensures And(n, 0x3f) == n % 64
  {
    hide And, Shr, Power2;
    SmallPowers();
    SextetByMask(n, 18);
    SextetByMask(n, 12);
    SextetByMask(n, 6);
    AndKeepsLow(n, 6);
  }

  /** One turn of the program's loop, with its shifts and masks. */
  method WriteChunk(chunk: seq<byte>) returns (r: string)
    requires 1 <= |chunk| <= 3
    ensures r == EncodeChunk(chunk)
  {
    hide And, Or, Shl32, Shr, Group, Character;
    var b0 := chunk[0];
    var b1 := if |chunk| > 1 then chunk[1] else 0;
    var b2 := if |chunk| > 2 then chunk[2] else 0;
    var n := Or(Or(Shl32(b0, 16), Shl32(b1, 8)), b2);
    GroupByShifts(b0, b1, b2);
    SextetsByMask(n);
    r := [Character(And(Shr(n, 18), 0x3f))];
    r := r + [Character(And(Shr(n, 12), 0x3f))];
    if |chunk| > 1 {
      r := r + [Character(And(Shr(n, 6), 0x3f))];
    } else {
      r := r + ['='];
    }
    if |chunk| > 2 {
      r := r + [Character(And(n, 0x3f))];
    } else {
      r := r + ['='];
    }
  }

  /** The program's loop over chunks. */
  method Base64Encode(input: seq<byte>) returns (out: string)
    ensures out == Encode(input)
  {
    hide EncodeChunk;
    out := "";
    var i := 0;
    while i < |input|
      invariant 0 <= i <= |input|
      invariant out + Encode(input[i..]) == Encode(input)
    {
      var end := if i + 3 <= |input| then i + 3 else |input|;
      ghost var before := out;
      var written := WriteChunk(input[i..end]);
      out := out + written;
      EncodeFirst(input[i..], end - i);
      assert input[i..][end - i..] == input[end..] && input[i..][..end - i] == input[i..end];
      assert before + (EncodeChunk(input[i..end]) + Encode(input[end..])) == out + Encode(input[end..]);
      i := end;
    }
    assert out + "" == out;
  }

  lemma {:induction false} EncodeFirst(input: seq<byte>, n: nat)
    requires input != [] && n == (if |input| <= 3 then |input| else 3)
    ensures Encode(input) == EncodeChunk(input[..n]) + Encode(input[n..])
  {
    hide EncodeChunk;
    if |input| <= 3 {
      assert input[..n] == input && input[n..] == [];
      assert EncodeChunk(input) + "" == EncodeChunk(input);
    }
  }

  // ---- the decoder of RFC 4648, section 4 -------------------------------------------

  /** The six-bit value of a character of the alphabet (Table 1). */
  function ValueOf(c: char): Option<int> {
    if 'A' <= c <= 'Z' then Some(c as int - 'A' as int)
    else if 'a' <= c <= 'z' then Some(c as int - 'a' as int + 26)
    else if '0' <= c <= '9' then Some(c as int - '0' as int + 52)
    else if c == '+' then Some(62)
    else if c == '/' then Some(63)
    else None
  }

  /** One group of four characters, and whether it is the last.  Only the last group may be
      padded, and the bits that padding leaves over must be zero. */
  function DecodeGroup(g: string, last: bool): (r: Option<seq<byte>>)
    requires |g| == 4
    ensures r.Some? ==> 1 <= |r.value| <= 3
  {
    match (ValueOf(g[0]), ValueOf(g[1]), ValueOf(g[2]), ValueOf(g[3]))
    case (Some(v0), Some(v1), Some(v2), Some(v3)) => Some(Bytes(0x40000 * v0 + 0x1000 * v1 + 0x40 * v2 + v3))
    case (Some(v0), Some(v1), Some(v2), None) =>
      if last && g[3] == '=' && v2 % 4 == 0
      then Some(Bytes(0x40000 * v0 + 0x1000 * v1 + 0x40 * v2)[..2]) else None
    case (Some(v0), Some(v1), None, None) =>
      if last && g[2] == '=' && g[3] == '=' && v1 % 16 == 0
      then Some(Bytes(0x40000 * v0 + 0x1000 * v1)[..1]) else None
    case _ => None
  }

  /** The three bytes of a 24-bit group. */
  function Bytes(n: int): (r: seq<byte>)
    ensures |r| == 3
  {
    [n / 0x10000 % 256, n / 0x100 % 256, n % 256]
  }

  function Decode(s: string): Option<seq<byte>> {
    if s == "" then Some([])
    else if |s| < 4 then None
    else
      match (DecodeGroup(s[..4], |s| == 4), Decode(s[4..]))
      case (Some(bytes), Some(rest)) => Some(bytes + rest)
      case _ => None
  }

  // ---- round trip -------------------------------------------------------------------

  lemma {:induction false} ValueOfCharacter(v: int)
    requires 0 <= v < 64
    ensures ValueOf(Character(v)) == Some(v) && Character(v) != '='
  {
    hide UPPER_CASE, LOWER_CASE, DIGITS, ALPHABET, Character;
    CharacterParts(v);
    if v < 26 {
      UpperCase(v);
    } else if v < 52 {
      LowerCase(v - 26);
    } else if v < 62 {
      Digits(v - 52);
    }
  }

  /** Which part of the alphabet a character comes from. */
  lemma {:induction false} CharacterParts(v: int)
    requires 0 <= v < 64
    ensures |UPPER_CASE| == 26 && |LOWER_CASE| == 26 && |DIGITS| == 10
    ensures Character(v) ==
      if v < 26 then UPPER_CASE[v]
      else if v < 52 then LOWER_CASE[v - 26]
      else if v < 62 then DIGITS[v - 52]
      else if v == 62 then '+' else '/'
  {
    assert |UPPER_CASE| == 26 && |LOWER_CASE| == 26 && |DIGITS| == 10;
  }

  lemma {:induction false} UpperCase(v: int)
    requires 0 <= v < 26
    ensures UPPER_CASE[v] as int == 'A' as int + v
  {
  }

  lemma {:induction false} LowerCase(v: int)
    requires 0 <= v < 26
    ensures LOWER_CASE[v] as int == 'a' as int + v
  {
  }

  lemma {:induction false} Digits(v: int)
    requires 0 <= v < 10
    ensures DIGITS[v] as int == '0' as int + v
  {
  }

  /** The four sextets of a 24-bit group put it together again. */
  lemma {:induction false} SextetsOfGroup(n: int)
    requires 0 <= n < 0x1000000
    ensures n == 0x40000 * (n / 0x40000 % 64) + 0x1000 * (n / 0x1000 % 64) + 0x40 * (n / 0x40 % 64) + n % 64
  {
    var q0, q1, q2 := n / 0x40, n / 0x1000, n / 0x40000;
    assert q1 == q0 / 64 && q2 == q1 / 64;
    assert q2 % 64 == q2;
  }

  lemma {:induction false} BytesOfGroup(b0: byte, b1: byte, b2: byte)
    ensures Bytes(Group(b0, b1, b2)) == [b0, b1, b2]
  {
    var n := Group(b0, b1, b2);
    QuotientUnique(n, 0x100, 0x100 * b0 + b1, b2);
    QuotientUnique(n, 0x10000, b0, 0x100 * b1 + b2);
    QuotientUnique(0x100 * b0 + b1, 0x100, b0, b1);
  }

  /** Absent bytes leave zero bits in the last sextet that is written. */
  lemma {:induction false} TwoBytesPadding(b0: byte, b1: byte)
    ensures var n := Group(b0, b1, 0);
            n % 64 == 0 && (n / 0x40 % 64) % 4 == 0
  {
    var n := Group(b0, b1, 0);
    QuotientUnique(n, 0x40, 0x400 * b0 + 4 * b1, 0);
    QuotientUnique(n / 0x40, 64, 16 * b0 + b1 / 16, 4 * (b1 % 16));
    QuotientUnique(n / 0x40 % 64, 4, b1 % 16, 0);
  }

  lemma {:induction false} OneBytePadding(b0: byte)
    ensures var n := Group(b0, 0, 0);
            n / 0x40 % 64 == 0 && (n / 0x1000 % 64) % 16 == 0
  {
    var n := Group(b0, 0, 0);
    QuotientUnique(n, 0x40, 0x400 * b0, 0);
    QuotientUnique(n / 0x40, 64, 16 * b0, 0);
    QuotientUnique(n, 0x1000, 16 * b0, 0);
    QuotientUnique(16 * b0, 64, b0 / 4, 16 * (b0 % 4));
    QuotientUnique(16 * b0 % 64, 16, b0 % 4, 0);
  }

  lemma {:induction false} GroupRoundTrip(n: int, count: int, last: bool)
    requires 0 <= n < 0x1000000 && 1 <= count <= 3 && (last || count == 3)
    requires count < 3 ==> n % 64 == 0 && (n / 0x40 % 64) % 4 == 0
    requires count < 2 ==> n / 0x40 % 64 == 0 && (n / 0x1000 % 64) % 16 == 0
    ensures DecodeGroup(EncodeGroup(n, count), last) == Some(Bytes(n)[..count])
  {
    hide ValueOf, Character;
    SextetsOfGroup(n);
    ValueOfCharacter(n / 0x40000 % 64);
    ValueOfCharacter(n / 0x1000 % 64);
    ValueOfCharacter(n / 0x40 % 64);
    ValueOfCharacter(n % 64);
    assert ValueOf('=') == None by {
      PaddingHasNoValue();
    }
    assert Bytes(n)[..3] == Bytes(n);
  }

  lemma {:induction false} PaddingHasNoValue()
    ensures ValueOf('=') == None
  {
  }

  lemma {:induction false} ChunkRoundTrip(chunk: seq<byte>, last: bool)
    requires 1 <= |chunk| <= 3 && (last || |chunk| == 3)
    ensures DecodeGroup(EncodeChunk(chunk), last) == Some(chunk)
  {
    hide DecodeGroup, EncodeGroup, Bytes, Group;
    var b1 := if |chunk| > 1 then chunk[1] else 0;
    var b2 := if |chunk| > 2 then chunk[2] else 0;
    if |chunk| == 1 {
      OneBytePadding(chunk[0]);
    }
    if |chunk| <= 2 {
      TwoBytesPadding(chunk[0], b1);
    }
    GroupRoundTrip(Group(chunk[0], b1, b2), |chunk|, last);
    BytesOfGroup(chunk[0], b1, b2);
    assert [chunk[0], b1, b2][..|chunk|] == chunk;
  }

  lemma {:induction false} DecodeStep(head: string, rest: string)
    requires |head| == 4
    ensures Decode(head + rest) == match (DecodeGroup(head, rest == ""), Decode(rest))
                                   case (Some(bytes), Some(more)) => Some(bytes + more)
                                   case _ => None
  {
    hide DecodeGroup;
    assert (head + rest)[..4] == head && (head + rest)[4..] == rest;
  }

  /** Decoding the encoded bytes gives them back, for every byte sequence. */
  lemma {:induction false} RoundTrip(input: seq<byte>)
    ensures Decode(Encode(input)) == Some(input)
  {
    hide DecodeGroup, EncodeChunk, Decode;
    if input == [] {
      assert Decode("") == Some([]) by {
        DecodeEmpty();
      }
    } else if |input| <= 3 {
      ChunkRoundTrip(input, true);
      DecodeStep(EncodeChunk(input), "");
      DecodeEmpty();
      assert EncodeChunk(input) + "" == EncodeChunk(input) && input + [] == input;
    } else {
      RoundTrip(input[3..]);
      ChunkRoundTrip(input[..3], false);
      EncodedShape(input[3..]);
      DecodeStep(EncodeChunk(input[..3]), Encode(input[3..]));
      assert input[..3] + input[3..] == input;
    }
  }

  lemma {:induction false} DecodeEmpty()
    ensures Decode("") == Some([])
  {
  }

  /** Four characters for every three bytes begun, and as many padding characters as bytes
      are missing from the last three, at the very end. */
  lemma {:induction false} EncodedShape(input: seq<byte>)
    ensures |Encode(input)| == 4 * ((|input| + 2) / 3)
    ensures var pad := (3 - |input| % 3) % 3;
            forall i :: 0 <= i < |Encode(input)| ==> (Encode(input)[i] == '=' <==> |Encode(input)| - pad <= i)
  {
    hide EncodeChunk;
    if input != [] {
      if |input| > 3 {
        ChunkPadding(input[..3]);
        EncodedShape(input[3..]);
        assert |input[3..]| % 3 == |input| % 3;
      } else {
        ChunkPadding(input);
      }
    }
  }

  lemma {:induction false} ChunkPadding(chunk: seq<byte>)
    requires 1 <= |chunk| <= 3
    ensures forall i :: 0 <= i < 4 ==> (EncodeChunk(chunk)[i] == '=' <==> |chunk| < i)
  {
    hide Character, Group;
    var n := Group(chunk[0], if |chunk| > 1 then chunk[1] else 0, if |chunk| > 2 then chunk[2] else 0);
    ValueOfCharacter(n / 0x40000 % 64);
    ValueOfCharacter(n / 0x1000 % 64);
    ValueOfCharacter(n / 0x40 % 64);
    ValueOfCharacter(n % 64);
  }

  /** The output is made of letters, digits, `+`, `/` and `=`. */
  lemma {:induction false} EncodedCharacters(input: seq<byte>)
    ensures forall c | c in Encode(input) :: c == '=' || ValueOf(c).Some?
  {
    hide EncodeChunk, ValueOf;
    if input != [] {
      if |input| > 3 {
        ChunkCharacters(input[..3]);
        EncodedCharacters(input[3..]);
      } else {
        ChunkCharacters(input);
      }
    }
  }

  lemma {:induction false} ChunkCharacters(chunk: seq<byte>)
    requires 1 <= |chunk| <= 3
    ensures forall c | c in EncodeChunk(chunk) :: c == '=' || ValueOf(c).Some?
  {
    hide Character, Group, ValueOf;
    var n := Group(chunk[0], if |chunk| > 1 then chunk[1] else 0, if |chunk| > 2 then chunk[2] else 0);
    ValueOfCharacter(n / 0x40000 % 64);
    ValueOfCharacter(n / 0x1000 % 64);
    ValueOfCharacter(n / 0x40 % 64);
    ValueOfCharacter(n % 64);
  }
}
