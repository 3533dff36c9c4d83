/** `sha256_hex` (commands/deploy_cluster.rs) against the hash function of FIPS 180-4:
    padding (section 5.1.1), parsing (5.2.1), initial value (5.3.3) and computation (6.2.2). */
module Sha256 {
  import opened Arithmetic

  type Word = bv32

  const K0: seq<Word> :=
    [0x428a2f98, 0x71374491, 0xb5c0fbcf, 0xe9b5dba5, 0x3956c25b, 0x59f111f1, 0x923f82a4, 0xab1c5ed5]
  const K1: seq<Word> :=
    [0xd807aa98, 0x12835b01, 0x243185be, 0x550c7dc3, 0x72be5d74, 0x80deb1fe, 0x9bdc06a7, 0xc19bf174]
  const K2: seq<Word> :=
    [0xe49b69c1, 0xefbe4786, 0x0fc19dc6, 0x240ca1cc, 0x2de92c6f, 0x4a7484aa, 0x5cb0a9dc, 0x76f988da]
  const K3: seq<Word> :=
    [0x983e5152, 0xa831c66d, 0xb00327c8, 0xbf597fc7, 0xc6e00bf3, 0xd5a79147, 0x06ca6351, 0x14292967]
  const K4: seq<Word> :=
    [0x27b70a85, 0x2e1b2138, 0x4d2c6dfc, 0x53380d13, 0x650a7354, 0x766a0abb, 0x81c2c92e, 0x92722c85]
  const K5: seq<Word> :=
    [0xa2bfe8a1, 0xa81a664b, 0xc24b8b70, 0xc76c51a3, 0xd192e819, 0xd6990624, 0xf40e3585, 0x106aa070]
  const K6: seq<Word> :=
    [0x19a4c116, 0x1e376c08, 0x2748774c, 0x34b0bcb5, 0x391c0cb3, 0x4ed8aa4a, 0x5b9cca4f, 0x682e6ff3]
  const K7: seq<Word> :=
    [0x748f82ee, 0x78a5636f, 0x84c87814, 0x8cc70208, 0x90befffa, 0xa4506ceb, 0xbef9a3f7, 0xc67178f2]

  const K: seq<Word> := K0 + K1 + K2 + K3 + K4 + K5 + K6 + K7

  const H0: seq<Word> := [
    0x6a09e667, 0xbb67ae85, 0x3c6ef372, 0xa54ff53a, 0x510e527f, 0x9b05688c, 0x1f83d9ab, 0x5be0cd19]

  // ---- the standard: functions of section 4.1.2 -------------------------------------

  function BigSigma0(x: Word): Word {
    ((x >> 2) | (x << 30)) ^ ((x >> 13) | (x << 19)) ^ ((x >> 22) | (x << 10))
  }

  function BigSigma1(x: Word): Word {
    ((x >> 6) | (x << 26)) ^ ((x >> 11) | (x << 21)) ^ ((x >> 25) | (x << 7))
  }

  function SmallSigma0(x: Word): Word {
    ((x >> 7) | (x << 25)) ^ ((x >> 18) | (x << 14)) ^ (x >> 3)
  }

  function SmallSigma1(x: Word): Word {
    ((x >> 17) | (x << 15)) ^ ((x >> 19) | (x << 13)) ^ (x >> 10)
  }

  /** Addition modulo 2^32: `wrapping_add`. */
  function Add(x: Word, y: Word): Word {
    x + y
  }

  function Sum4(x: Word, y: Word, z: Word, u: Word): Word {
    x + y + z + u
  }

  function Ch(x: Word, y: Word, z: Word): Word {
    (x & y) ^ (!x & z)
  }

  function Maj(x: Word, y: Word, z: Word): Word {
    (x & y) ^ (x & z) ^ (y & z)
  }

  // ---- the standard: the hash computation of section 6.2.2 --------------------------

  type Block = b: seq<Word> | |b| == 16 witness seq(16, _ => 0)

  type Hash = h: seq<Word> | |h| == 8 witness H0

  datatype Variables = Variables(a: Word, b: Word, c: Word, d: Word, e: Word, f: Word, g: Word, h: Word)

  /** The message schedule. */
  function Schedule(m: Block, t: nat): Word {
    if t < 16 then m[t]
    else
      Sum4(SmallSigma1(Schedule(m, t - 2)), Schedule(m, t - 7), SmallSigma0(Schedule(m, t - 15)), Schedule(m, t - 16))
  }

  function Round(v: Variables, k: Word, w: Word): Variables {
    var t1 := Add(Add(Add(Add(v.h, BigSigma1(v.e)), Ch(v.e, v.f, v.g)), k), w);
    var t2 := Add(BigSigma0(v.a), Maj(v.a, v.b, v.c));
    Variables(Add(t1, t2), v.a, v.b, v.c, Add(v.d, t1), v.e, v.f, v.g)
  }

  function Start(h: Hash): Variables {
    Variables(h[0], h[1], h[2], h[3], h[4], h[5], h[6], h[7])
  }

  function Rounds(h: Hash, m: Block, t: nat): Variables
    requires t <= |K|
  {
    if t == 0 then Start(h) else Round(Rounds(h, m, t - 1), K[t - 1], Schedule(m, t - 1))
  }

  /** The hash value `h` plus the working variables, word by word. */
  function Added(h: Hash, v: Variables): Hash {
    [Add(v.a, h[0]), Add(v.b, h[1]), Add(v.c, h[2]), Add(v.d, h[3]),
     Add(v.e, h[4]), Add(v.f, h[5]), Add(v.g, h[6]), Add(v.h, h[7])]
  }

  function NextHash(h: Hash, m: Block): Hash {
    Added(h, Rounds(h, m, |K|))
  }

  /** The 32-bit word of four bytes, most significant first. */
  function WordOf(b0: byte, b1: byte, b2: byte, b3: byte): Word {
    (b0 as bv32 << 24) | (b1 as bv32 << 16) | (b2 as bv32 << 8) | b3 as bv32
  }

  /** The `i`-th word of the 64 bytes from `at`. */
  function WordAt(msg: seq<byte>, at: nat, i: nat): Word
    requires at + 64 <= |msg| && i < 16
  {
    WordOf(msg[at + 4 * i], msg[at + 4 * i + 1], msg[at + 4 * i + 2], msg[at + 4 * i + 3])
  }

  function BlockAt(msg: seq<byte>, at: nat): Block
    requires at + 64 <= |msg|
  {
    seq(16, i requires 0 <= i < 16 => WordAt(msg, at, i))
  }

  /** The hash value after the blocks before byte `end`. */
  function HashUpTo(msg: seq<byte>, end: nat): Hash
    requires end <= |msg| && end % 64 == 0
  {
    if end == 0 then H0 else NextHash(HashUpTo(msg, end - 64), BlockAt(msg, end - 64))
  }

  // ---- the standard: padding, in bits, of section 5.1.1 -----------------------------

  /** The lowest `width` bits of `n`, most significant first. */
  function Bits(n: nat, width: nat): (r: seq<bool>)
    ensures |r| == width
  {
    if width == 0 then [] else Bits(n / 2, width - 1) + [n % 2 == 1]
  }

  function BitsOfBytes(s: seq<byte>): (r: seq<bool>)
    ensures |r| == 8 * |s|
  {
    if s == [] then [] else BitsOfBytes(s[..|s| - 1]) + Bits(s[|s| - 1], 8)
  }

  /** The number of zero bits: the smallest `k` with `l + 1 + k` congruent to 448 modulo 512. */
  function ZeroBits(l: nat): nat {
    (447 - l) % 512
  }

  function PadBits(m: seq<bool>): seq<bool> {
    m + [true] + seq(ZeroBits(|m|), _ => false) + Bits(|m|, 64)
  }

  lemma {:induction false} ZeroBitsIsSmallest(l: nat, k: nat)
    ensures (l + 1 + ZeroBits(l)) % 512 == 448
    ensures (l + 1 + k) % 512 == 448 ==> ZeroBits(l) <= k
  {
    var q := (447 - l) / 512;
    assert 447 - l == 512 * q + ZeroBits(l);
    QuotientUnique(l + 1 + ZeroBits(l), 512, -q, 448);
    if (l + 1 + k) % 512 == 448 {
      var p := (l + 1 + k) / 512;
      assert l + 1 + k == 512 * p + 448;
      assert k == 512 * (p + q) + ZeroBits(l);
      if p + q < 0 {
        MultiplesApart(512, 0, p + q);
      }
    }
  }

  // ---- the program: padding, in bytes -----------------------------------------------

  /** `to_be_bytes`, for `width` bytes. */
  function BigEndian(n: nat, width: nat): (r: seq<byte>)
    ensures |r| == width
  {
    if width == 0 then [] else BigEndian(n / 256, width - 1) + [n % 256]
  }

  /** The number of zero bytes that bring the length to 56 modulo 64. */
  function ZeroBytes(n: nat): nat {
    (55 - n) % 64
  }

  function Padded(data: seq<byte>): (r: seq<byte>)
    ensures |r| == |data| + 1 + ZeroBytes(|data|) + 8
  {
    data + [0x80] + seq(ZeroBytes(|data|), _ => 0) + BigEndian(8 * |data| % 0x1_0000_0000_0000_0000, 8)
  }

  lemma {:induction false} ZeroBytesProperty(n: nat)
    ensures (n + 1 + ZeroBytes(n)) % 64 == 56
    ensures ZeroBits(8 * n) == 8 * ZeroBytes(n) + 7
  {
    var z, q := ZeroBytes(n), (55 - n) / 64;
    assert 55 - n == 64 * q + z;
    QuotientUnique(n + 1 + z, 64, -q, 56);
    QuotientUnique(447 - 8 * n, 512, q, 8 * z + 7);
  }

  lemma {:induction false} NotYetPadded(n: nat, k: nat)
    requires k < ZeroBytes(n)
    ensures (n + 1 + k) % 64 != 56
  {
    var z, q := ZeroBytes(n), (55 - n) / 64;
    assert 55 - n == 64 * q + z;
    if z - k <= 56 {
      QuotientUnique(n + 1 + k, 64, -q, 56 - (z - k));
    } else {
      QuotientUnique(n + 1 + k, 64, -q - 1, 120 - (z - k));
    }
  }

  /** The padded message is a whole number of 64-byte blocks. */
  lemma {:induction false} PaddedLength(data: seq<byte>)
    ensures |Padded(data)| % 64 == 0
  {
    ZeroBytesProperty(|data|);
    var n := |data| + 1 + ZeroBytes(|data|);
    QuotientUnique(n + 8, 64, n / 64 + 1, 0);
  }

  /** The number whose low `k` bits are those of `low` and whose other bits are those of `high`. */
  function Joined(high: nat, low: nat, k: nat): nat {
    if k == 0 then high else 2 * Joined(high, low / 2, k - 1) + low % 2
  }

  lemma {:induction false} BitsOfJoined(high: nat, low: nat, width: nat, k: nat)
    ensures Bits(Joined(high, low, k), width + k) == Bits(high, width) + Bits(low, k)
  {
    if k > 0 {
      BitsOfJoined(high, low / 2, width, k - 1);
      var n := Joined(high, low, k);
      assert n / 2 == Joined(high, low / 2, k - 1) && n % 2 == low % 2;
    }
  }

  lemma {:induction false} JoinedIsSum(high: nat, low: nat, k: nat)
    requires low < Power2(k)
    ensures Joined(high, low, k) == high * Power2(k) + low
  {
    if k > 0 {
      JoinedIsSum(high, low / 2, k - 1);
      OneMoreBit(high, Power2(k - 1), low);
    }
  }

  lemma {:induction false} OneMoreBit(high: nat, p: nat, low: nat)
    ensures 2 * (high * p + low / 2) + low % 2 == high * (2 * p) + low
  {
  }

  lemma {:induction false} BitsSplit(high: nat, low: nat, width: nat, k: nat)
    requires low < Power2(k)
    ensures Bits(high * Power2(k) + low, width + k) == Bits(high, width) + Bits(low, k)
  {
    hide Bits, Power2;
    BitsOfJoined(high, low, width, k);
    JoinedIsSum(high, low, k);
  }

  lemma {:induction false} BitsOfBigEndian(n: nat, width: nat)
    ensures BitsOfBytes(BigEndian(n, width)) == Bits(n, 8 * width)
  {
    hide Bits;
    if width > 0 {
      BitsOfBigEndian(n / 256, width - 1);
      LastByte(n, 8 * width - 8);
      var b := BigEndian(n, width);
      assert b[..|b| - 1] == BigEndian(n / 256, width - 1);
    } else {
      NoBits(n);
    }
  }

  lemma {:induction false} NoBits(n: nat)
    ensures Bits(n, 0) == []
  {
  }

  lemma {:induction false} LastByte(n: nat, width: nat)
    ensures Bits(n, width + 8) == Bits(n / 256, width) + Bits(n % 256, 8)
  {
    hide Bits;
    assert Power2(8) == 256;
    BitsSplit(n / 256, n % 256, width, 8);
  }

  lemma {:induction false} BitsOfAppend(a: seq<byte>, b: seq<byte>)
    ensures BitsOfBytes(a + b) == BitsOfBytes(a) + BitsOfBytes(b)
  {
    if b == [] {
      assert a + b == a;
    } else {
      assert (a + b)[..|a + b| - 1] == a + b[..|b| - 1];
      BitsOfAppend(a, b[..|b| - 1]);
    }
  }

  lemma {:induction false} BitsOfZero(width: nat)
    ensures Bits(0, width) == seq(width, _ => false)
  {
    if width > 0 {
      BitsOfZero(width - 1);
    }
  }

  lemma {:induction false} BitsOfZeroBytes(n: nat)
    ensures BitsOfBytes(seq(n, _ => 0)) == seq(8 * n, _ => false)
  {
    if n > 0 {
      BitsOfZeroBytes(n - 1);
      BitsOfZero(8);
      var s: seq<byte> := seq(n, _ => 0);
      assert s[..n - 1] == seq(n - 1, _ => 0);
    }
  }

  lemma {:induction false} BitsOf0x80()
    ensures BitsOfBytes([0x80]) == [true] + seq(7, _ => false)
  {
    assert Power2(7) == 128;
    BitsSplit(1, 0, 1, 7);
    BitsOfZero(7);
    assert Bits(1, 1) == [true];
    assert [0x80][..0] == [];
  }

  /** The program pads bytes exactly as the standard pads the bits they stand for. */
  lemma {:induction false} PaddingIsStandard(data: seq<byte>)
    requires |data| < 0x2000_0000_0000_0000
    ensures BitsOfBytes(Padded(data)) == PadBits(BitsOfBytes(data))
  {
    hide Bits, BitsOfBytes, BigEndian;
    var z := ZeroBytes(|data|);
    var zeros: seq<byte> := seq(z, _ => 0);
    ZeroBytesProperty(|data|);
    BitsOfAppend(data + [0x80] + zeros, BigEndian(8 * |data|, 8));
    BitsOfAppend(data + [0x80], zeros);
    BitsOfAppend(data, [0x80]);
    BitsOfBigEndian(8 * |data|, 8);
    BitsOfZeroBytes(z);
    BitsOf0x80();
    ZeroRuns(z);
    assert Padded(data) == data + [0x80] + zeros + BigEndian(8 * |data|, 8);
    var (m, one, zs, l) := (BitsOfBytes(data), [true], seq(8 * z + 7, _ => false), Bits(8 * |data|, 64));
    assert m + (one + seq(7, _ => false)) + seq(8 * z, _ => false) == m + one + zs;
  }

  lemma {:induction false} ZeroRuns(z: nat)
    ensures seq(7, _ => false) + seq(8 * z, _ => false) == seq(8 * z + 7, _ => false)
  {
  }

  lemma {:induction false} SmallPowers()
    ensures Power2(0) == 1 && Power2(8) == 256 && Power2(16) == 0x1_0000
  {
  }

  lemma {:induction false} BigEndianInjective(n: nat, m: nat, width: nat)
    requires n < Power2(8 * width) && m < Power2(8 * width) && BigEndian(n, width) == BigEndian(m, width)
    ensures n == m
  {
    hide Power2;
    SmallPowers();
    if width > 0 {
      var b, c := BigEndian(n, width), BigEndian(m, width);
      assert b[..width - 1] == BigEndian(n / 256, width - 1) && c[..width - 1] == BigEndian(m / 256, width - 1);
      assert b[width - 1] == n % 256 && c[width - 1] == m % 256;
      Power2Sum(8, 8 * (width - 1));
      BigEndianInjective(n / 256, m / 256, width - 1);
    }
  }

  /** Different messages have different padded messages. */
  lemma {:induction false} PaddingInjective(a: seq<byte>, b: seq<byte>)
    requires |a| < 0x2000_0000_0000_0000 && |b| < 0x2000_0000_0000_0000
    requires Padded(a) == Padded(b)
    ensures a == b
  {
    hide BigEndian, Power2;
    PaddedParts(a);
    PaddedParts(b);
    Power2Of64();
    BigEndianInjective(8 * |a|, 8 * |b|, 8);
  }

  lemma {:induction false} Power2Of64()
    ensures Power2(64) == 0x1_0000_0000_0000_0000
  {
    hide Power2;
    SmallPowers();
    Power2Sum(16, 16);
    Power2Sum(32, 32);
  }

  lemma {:induction false} PaddedParts(data: seq<byte>)
    requires |data| < 0x2000_0000_0000_0000
    ensures Padded(data)[|Padded(data)| - 8..] == BigEndian(8 * |data|, 8)
    ensures Padded(data)[..|data|] == data
  {
    hide BigEndian;
    var head := data + [0x80] + seq(ZeroBytes(|data|), _ => 0);
    assert Padded(data) == head + BigEndian(8 * |data|, 8);
    assert head[..|data|] == data;
  }

  // ---- the program ------------------------------------------------------------------

  function HexDigit(d: int): char
    requires 0 <= d < 16
  {
    if d < 10 then ('0' as int + d) as char else ('a' as int + d - 10) as char
  }

  /** `{x:08x}` for the lowest `width` hexadecimal digits. */
  function Hex(n: nat, width: nat): (r: string)
    ensures |r| == width
    ensures forall i :: 0 <= i < width ==> IsLowerHex(r[i])
  {
    if width == 0 then "" else Hex(n / 16, width - 1) + [HexDigit(n % 16)]
  }

  predicate IsLowerHex(c: char) {
    '0' <= c <= '9' || 'a' <= c <= 'f'
  }

  function HexWords(h: seq<Word>): (r: string)
    ensures |r| == 8 * |h|
    ensures forall i :: 0 <= i < |r| ==> IsLowerHex(r[i])
  {
    if h == [] then "" else Hex(h[0] as int, 8) + HexWords(h[1..])
  }

  /** The hash value after all blocks of the padded message. */
  function DigestWords(data: seq<byte>): Hash {
    PaddedLength(data);
    HashUpTo(Padded(data), |Padded(data)|)
  }

  /** The digest of the standard, in hexadecimal. */
  function Digest(data: seq<byte>): (r: string)
    ensures |r| == 64 && forall i :: 0 <= i < 64 ==> IsLowerHex(r[i])
  {
    HexWords(DigestWords(data))
  }

  // The four expressions of the program that rotate and shift.

  function ScheduleS0(x: Word): Word {
    x.RotateRight(7) ^ x.RotateRight(18) ^ (x >> 3)
  }

  function ScheduleS1(x: Word): Word {
    x.RotateRight(17) ^ x.RotateRight(19) ^ (x >> 10)
  }

  function RoundS0(x: Word): Word {
    x.RotateRight(2) ^ x.RotateRight(13) ^ x.RotateRight(22)
  }

  function RoundS1(x: Word): Word {
    x.RotateRight(6) ^ x.RotateRight(11) ^ x.RotateRight(25)
  }

  lemma {:induction false} SigmasAreRotations(x: Word)
    ensures ScheduleS0(x) == SmallSigma0(x) && ScheduleS1(x) == SmallSigma1(x)
    ensures RoundS0(x) == BigSigma0(x) && RoundS1(x) == BigSigma1(x)
  {
  }

  lemma {:induction false} AddCommutes(x: Word, y: Word)
    ensures Add(x, y) == Add(y, x)
  {
  }

  lemma {:induction false} SumOrder(a: Word, b: Word, c: Word, d: Word)
    ensures Sum4(a, b, c, d) == Sum4(d, c, b, a)
  {
  }

  /** The program's padding loop. */
  method Pad(data: seq<byte>) returns (msg: seq<byte>)
    ensures msg == Padded(data)
  {
    hide BigEndian, ZeroBytes;
    var bitLen := 8 * |data| % 0x1_0000_0000_0000_0000;
    msg := data + [0x80];
    ghost var z := ZeroBytes(|data|);
    ghost var k := 0;
    ZeroBytesProperty(|data|);
    while |msg| % 64 != 56
      invariant k <= z && msg == data + [0x80] + seq(k, _ => 0)
      decreases z - k
    {
      msg := msg + [0];
      k := k + 1;
    }
    if k < z {
      NotYetPadded(|data|, k);
    }
    msg := msg + BigEndian(bitLen, 8);
  }

  /** The message schedule of one chunk, in place of the previous chunk's. */
  method FillSchedule(w: array<Word>, msg: seq<byte>, at: nat)
    requires w.Length == 64 && at + 64 <= |msg|
    modifies w
    ensures forall t :: 0 <= t < 64 ==> w[t] == Schedule(BlockAt(msg, at), t)
  {
    hide WordOf;
    ghost var m := BlockAt(msg, at);
    for i := 0 to 16
      invariant forall t :: 0 <= t < i ==> w[t] == Schedule(m, t)
    {
      w[i] := WordAt(msg, at, i);
    }
    ExtendSchedule(w, m);
  }

  lemma {:induction false} ScheduleStep(m: Block, t: nat)
    requires 16 <= t
    ensures Schedule(m, t) == Sum4(Schedule(m, t - 16), ScheduleS0(Schedule(m, t - 15)),
                                   Schedule(m, t - 7), ScheduleS1(Schedule(m, t - 2)))
  {
    hide SmallSigma0, SmallSigma1, ScheduleS0, ScheduleS1, Sum4;
    var (w16, w15, w7, w2) := (Schedule(m, t - 16), Schedule(m, t - 15), Schedule(m, t - 7), Schedule(m, t - 2));
    SigmasAreRotations(w15);
    SigmasAreRotations(w2);
    SumOrder(w16, ScheduleS0(w15), w7, ScheduleS1(w2));
  }

  /** The second of the two loops: words 16 to 63 from the words before them. */
  method ExtendSchedule(w: array<Word>, ghost m: Block)
    requires w.Length == 64
    requires forall t :: 0 <= t < 16 ==> w[t] == Schedule(m, t)
    modifies w
    ensures forall t :: 0 <= t < 64 ==> w[t] == Schedule(m, t)
  {
    hide Schedule, ScheduleS0, ScheduleS1, Sum4;
    for i := 16 to 64
      invariant forall t :: 0 <= t < i ==> w[t] == Schedule(m, t)
    {
      var s0 := ScheduleS0(w[i - 15]);
      var s1 := ScheduleS1(w[i - 2]);
      ScheduleStep(m, i);
      w[i] := Sum4(w[i - 16], s0, w[i - 7], s1);
    }
  }

  /** The 64 rounds of one chunk on the eight working variables. */
  method RunRounds(h: array<Word>, w: array<Word>, ghost m: Block) returns (v: Variables)
    requires h.Length == 8 && w.Length == 64
    requires forall t :: 0 <= t < 64 ==> w[t] == Schedule(m, t)
    ensures v == Rounds(h[..], m, |K|)
  {
    hide BigSigma0, BigSigma1, RoundS0, RoundS1, Ch, Maj, Add, Schedule;
    assert |K| == 64;
    var a, b, c, d, e, f, g, hh := h[0], h[1], h[2], h[3], h[4], h[5], h[6], h[7];
    for i := 0 to 64
      invariant Variables(a, b, c, d, e, f, g, hh) == Rounds(h[..], m, i)
    {
      var s1 := RoundS1(e);
      var ch := Ch(e, f, g);
      var t1 := Add(Add(Add(Add(hh, s1), ch), K[i]), w[i]);
      var s0 := RoundS0(a);
      var maj := Maj(a, b, c);
      var t2 := Add(s0, maj);
      SigmasAreRotations(e);
      SigmasAreRotations(a);
      hh := g;
      g := f;
      f := e;
      e := Add(d, t1);
      d := c;
      c := b;
      b := a;
      a := Add(t1, t2);
    }
    v := Variables(a, b, c, d, e, f, g, hh);
  }

  lemma {:induction false} AddedInPlace(h: Hash, v: Variables)
    ensures Added(h, v) == [Add(h[0], v.a), Add(h[1], v.b), Add(h[2], v.c), Add(h[3], v.d),
                            Add(h[4], v.e), Add(h[5], v.f), Add(h[6], v.g), Add(h[7], v.h)]
  {
    hide Add;
    AddCommutes(h[0], v.a);
    AddCommutes(h[1], v.b);
    AddCommutes(h[2], v.c);
    AddCommutes(h[3], v.d);
    AddCommutes(h[4], v.e);
    AddCommutes(h[5], v.f);
    AddCommutes(h[6], v.g);
    AddCommutes(h[7], v.h);
  }

  /** The update of `h` in place. */
  method AddTo(h: array<Word>, v: Variables)
    requires h.Length == 8
    modifies h
    ensures h[..] == Added(old(h[..]), v)
  {
    hide Added, Add;
    AddedInPlace(h[..], v);
    h[0] := Add(h[0], v.a);
    h[1] := Add(h[1], v.b);
    h[2] := Add(h[2], v.c);
    h[3] := Add(h[3], v.d);
    h[4] := Add(h[4], v.e);
    h[5] := Add(h[5], v.f);
    h[6] := Add(h[6], v.g);
    h[7] := Add(h[7], v.h);
  }

  method InitialHash() returns (h: array<Word>)
    ensures fresh(h) && h[..] == H0
  {
    h := new Word[8](i requires 0 <= i < 8 => H0[i]);
  }

  /** `sha256_hex` */
  method Sha256Hex(data: seq<byte>) returns (hex: string)
    ensures hex == Digest(data)
  {
    hide Added, Rounds, Schedule, BlockAt, Padded, HexWords;
    var msg := Pad(data);
    PaddedLength(data);
    var h := InitialHash();
    var w := new Word[64];
    var at := 0;
    while at < |msg|
      invariant at <= |msg| && at % 64 == 0
      invariant h[..] == HashUpTo(msg, at)
    {
      FillSchedule(w, msg, at);
      var v := RunRounds(h, w, BlockAt(msg, at));
      AddTo(h, v);
      at := at + 64;
    }
    hex := HexWords(h[..]);
  }
}
