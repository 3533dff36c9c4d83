/** MAC and CIDR checks (commands/deploy_cluster.rs `is_valid_mac`, `is_valid_cidr`,
    `ip_in_cidr`) and the 48-bit and 32-bit values their texts stand for. */
module Network {
  import opened Arithmetic
  import opened Bits
  import opened Text

  // ---- parsing numbers --------------------------------------------------------------

  /** `is_decimal_in_range` */
  predicate IsDecimalInRange(s: string, max: nat) {
    && s != "" && |s| <= 3 && AllDigits(s)
    && !(|s| > 1 && s[0] == '0')
    && NumberOf(s) <= max
  }

  /** `str::parse` for an unsigned type with largest value `max`: digits, leading zeros
      allowed, after an optional plus sign. */
  function ParseUnsigned(s: string, max: nat): Option<nat> {
    var digits := if s != "" && s[0] == '+' then s[1..] else s;
    if digits != "" && AllDigits(digits) && NumberOf(digits) <= max then Some(NumberOf(digits)) else None
  }

  /** Zeros in front of the shortest text of `n`. */
  predicate IsPaddedDecimal(s: string, n: nat) {
    |Decimal(n)| <= |s| && s == seq(|s| - |Decimal(n)|, _ => '0') + Decimal(n)
  }

  lemma {:induction false} DigitsArePadded(s: string)
    requires s != "" && AllDigits(s)
    ensures IsPaddedDecimal(s, NumberOf(s))
  {
    if 1 < |s| && s[0] == '0' {
      DigitsArePadded(s[1..]);
      assert s == seq(1, _ => '0') + s[1..];
      LeadingZeros(1, s[1..]);
      var k := |s| - |Decimal(NumberOf(s))|;
      assert seq(k, _ => '0') == seq(1, _ => '0') + seq(k - 1, _ => '0');
    } else {
      CanonicalIsDecimal(s);
    }
  }

  /** The texts of `n` that are read: an optional plus sign, then zeros, then its shortest text. */
  lemma {:induction false} UnsignedTexts(s: string, max: nat, n: nat)
    ensures ParseUnsigned(s, max) == Some(n) <==>
      n <= max && (IsPaddedDecimal(s, n) || ("+" <= s && IsPaddedDecimal(s[1..], n)))
  {
    hide NumberOf, Decimal;
    var digits := if s != "" && s[0] == '+' then s[1..] else s;
    if digits != "" && AllDigits(digits) {
      DigitsArePadded(digits);
    }
    PaddedIsRead(s, n);
    PaddedIsRead(digits, n);
  }

  lemma {:induction false} PaddedIsRead(s: string, n: nat)
    ensures IsPaddedDecimal(s, n) ==> s != "" && AllDigits(s) && NumberOf(s) == n
  {
    if IsPaddedDecimal(s, n) {
      DecimalIsCanonical(n);
      LeadingZeros(|s| - |Decimal(n)|, Decimal(n));
    }
  }

  lemma {:induction false} DecimalIsShort(n: nat)
    requires n < 1000
    ensures |Decimal(n)| <= 3
  {
    assert |Decimal(n / 100)| == 1;
  }

  /** Accepted numbers are the canonical texts of the numbers in range. */
  lemma {:induction false} InRangeIffCanonical(s: string, max: nat)
    requires max < 1000
    ensures IsDecimalInRange(s, max) <==> exists n: nat :: n <= max && s == Decimal(n)
    ensures IsDecimalInRange(s, max) ==> s == Decimal(NumberOf(s))
  {
    if IsDecimalInRange(s, max) {
      CanonicalIsDecimal(s);
    }
    forall n: nat | n <= max && s == Decimal(n) ensures IsDecimalInRange(s, max) {
      DecimalIsCanonical(n);
      DecimalIsShort(n);
    }
  }

  lemma {:induction false} RangeDigits(s: string, max: nat)
    requires IsDecimalInRange(s, max)
    ensures AllDigits(s) && NumberOf(s) <= max
  {
  }

  lemma {:induction false} ParseDecimal(n: nat, max: nat)
    requires n <= max
    ensures ParseUnsigned(Decimal(n), max) == Some(n)
  {
    DecimalIsCanonical(n);
    assert IsDigit(Decimal(n)[0]);
  }

  // ---- IPv4 addresses and prefixes --------------------------------------------------

  predicate IsOctets(o: seq<nat>) {
    |o| == 4 && forall i :: 0 <= i < 4 ==> o[i] < 256
  }

  function Decimals(ns: seq<nat>): (r: seq<string>)
    ensures |r| == |ns|
  {
    seq(|ns|, i requires 0 <= i < |ns| => Decimal(ns[i]))
  }

  function AddressText(o: seq<nat>): string
    requires IsOctets(o)
  {
    JoinWith(Decimals(o), '.')
  }

  function CidrText(o: seq<nat>, prefix: nat): string
    requires IsOctets(o)
  {
    AddressText(o) + ['/'] + Decimal(prefix)
  }

  /** The 32-bit value of four octets. */
  function AddressValue(o: seq<nat>): (v: nat)
    requires IsOctets(o)
    ensures v < U32
  {
    0x1000000 * o[0] + 0x10000 * o[1] + 0x100 * o[2] + o[3]
  }

  /** `is_valid_cidr` */
  predicate IsValidCidr(s: string) {
    var i := IndexOf(s, '/');
    if i == |s| then false
    else
      var octets := Split(s[..i], '.');
      && |octets| == 4 && (forall k :: 0 <= k < 4 ==> IsDecimalInRange(octets[k], 255))
      && IsDecimalInRange(s[i + 1..], 32)
  }

  /** The octets and the prefix length of an accepted text. */
  function OctetsOf(s: string): (o: seq<nat>)
    requires IsValidCidr(s)
    ensures IsOctets(o)
  {
    var octets := Split(s[..IndexOf(s, '/')], '.');
    seq(4, k requires 0 <= k < 4 => NumberOf(octets[k]))
  }

  function PrefixOf(s: string): (p: nat)
    requires IsValidCidr(s)
    ensures p <= 32
  {
    NumberOf(s[IndexOf(s, '/') + 1..])
  }

  /** The part before the slash: `a.split('/').next()`. */
  function BareAddress(s: string): string {
    s[..IndexOf(s, '/')]
  }

  lemma {:induction false} NoSeparatorInDecimal(n: nat)
    ensures '.' !in Decimal(n) && '/' !in Decimal(n) && ':' !in Decimal(n)
  {
    DecimalIsCanonical(n);
  }

  lemma {:induction false} SplitAddress(o: seq<nat>)
    requires IsOctets(o)
    ensures Split(AddressText(o), '.') == Decimals(o)
    ensures '/' !in AddressText(o)
  {
    forall p | p in Decimals(o) ensures '.' !in p && '/' !in p {
      var k :| 0 <= k < 4 && Decimals(o)[k] == p;
      NoSeparatorInDecimal(o[k]);
    }
    SplitOfJoin(Decimals(o), '.');
    NotInJoin(Decimals(o), '.', '/');
  }

  lemma {:induction false} NotInJoin(pieces: seq<string>, c: char, d: char)
    requires pieces != [] && c != d && forall p | p in pieces :: d !in p
    ensures d !in JoinWith(pieces, c)
  {
    if 1 < |pieces| {
      NotInJoin(pieces[1..], c, d);
    }
  }

  /** `is_valid_cidr` accepts every canonical text of four octets and a prefix length ... */
  lemma {:induction false} CanonicalCidrIsValid(o: seq<nat>, prefix: nat)
    requires IsOctets(o) && prefix <= 32
    ensures IsValidCidr(CidrText(o, prefix))
    ensures OctetsOf(CidrText(o, prefix)) == o && PrefixOf(CidrText(o, prefix)) == prefix
    ensures BareAddress(CidrText(o, prefix)) == AddressText(o)
  {
    hide IsDecimalInRange, Decimal;
    var s := CidrText(o, prefix);
    SplitAddress(o);
    IndexOfAppend(AddressText(o), '/', Decimal(prefix));
    assert s[..|AddressText(o)|] == AddressText(o) && s[|AddressText(o)| + 1..] == Decimal(prefix);
    InRangeIffCanonical(Decimal(prefix), 32);
    DecimalIsCanonical(prefix);
    forall k | 0 <= k < 4
      ensures IsDecimalInRange(Decimals(o)[k], 255) && AllDigits(Decimals(o)[k]) && NumberOf(Decimals(o)[k]) == o[k]
    {
      InRangeIffCanonical(Decimal(o[k]), 255);
      DecimalIsCanonical(o[k]);
    }
  }

  lemma {:induction false} ValidAddressIsCanonical(address: string, octets: seq<string>)
    requires octets == Split(address, '.') && |octets| == 4
    requires forall k :: 0 <= k < 4 ==> IsDecimalInRange(octets[k], 255)
    ensures forall k :: 0 <= k < 4 ==> AllDigits(octets[k]) && NumberOf(octets[k]) < 256
    ensures var o := seq(4, k requires 0 <= k < 4 => NumberOf(octets[k]));
            address == AddressText(o)
  {
    hide Decimal, IsDecimalInRange, NumberOf;
    JoinOfSplit(address, '.');
    forall k | 0 <= k < 4
      ensures AllDigits(octets[k]) && NumberOf(octets[k]) < 256 && octets[k] == Decimal(NumberOf(octets[k]))
    {
      RangeDigits(octets[k], 255);
      InRangeIffCanonical(octets[k], 255);
    }
    assert octets == Decimals(seq(4, k requires 0 <= k < 4 => NumberOf(octets[k])));
  }

  /** ... and nothing else: an accepted text is the text of its octets and prefix length. */
  lemma {:induction false} ValidCidrIsCanonical(s: string)
    requires IsValidCidr(s)
    ensures s == CidrText(OctetsOf(s), PrefixOf(s))
    ensures BareAddress(s) == AddressText(OctetsOf(s))
  {
    hide Decimal, IsDecimalInRange, AddressText, NumberOf;
    var i := IndexOf(s, '/');
    ValidAddressIsCanonical(s[..i], Split(s[..i], '.'));
    RangeDigits(s[i + 1..], 32);
    InRangeIffCanonical(s[i + 1..], 32);
    assert s == s[..i] + ['/'] + s[i + 1..];
  }

  lemma {:induction false} AddressValueInjective(o: seq<nat>, o': seq<nat>)
    requires IsOctets(o) && IsOctets(o') && AddressValue(o) == AddressValue(o')
    ensures o == o'
  {
    LastOctet(o[0], o[1], o[2], o[3]);
    LastOctet(o'[0], o'[1], o'[2], o'[3]);
    assert forall k :: 0 <= k < 4 ==> o[k] == o'[k];
  }

  lemma {:induction false} LastOctet(a: nat, b: nat, c: nat, d: nat)
    requires a < 256 && b < 256 && c < 256 && d < 256
    ensures var v := 0x1000000 * a + 0x10000 * b + 0x100 * c + d;
            v / 0x1000000 == a && v / 0x10000 % 256 == b && v / 0x100 % 256 == c && v % 256 == d
  {
    var v := 0x1000000 * a + 0x10000 * b + 0x100 * c + d;
    QuotientUnique(v, 0x1000000, a, 0x10000 * b + 0x100 * c + d);
    QuotientUnique(v, 0x10000, 0x100 * a + b, 0x100 * c + d);
    QuotientUnique(0x100 * a + b, 256, a, b);
    QuotientUnique(v, 0x100, 0x10000 * a + 0x100 * b + c, d);
    QuotientUnique(0x10000 * a + 0x100 * b + c, 256, 0x100 * a + b, c);
  }

  /** Accepted address texts are equal exactly when they denote the same 32-bit address. */
  lemma {:induction false} AddressTextsIdentify(s: string, t: string)
    requires IsValidCidr(s) && IsValidCidr(t)
    ensures BareAddress(s) == BareAddress(t) <==> AddressValue(OctetsOf(s)) == AddressValue(OctetsOf(t))
  {
    ValidCidrIsCanonical(s);
    ValidCidrIsCanonical(t);
    if BareAddress(s) == BareAddress(t) {
      assert OctetsOf(s) == OctetsOf(t);
    } else {
      assert OctetsOf(s) != OctetsOf(t);
      if AddressValue(OctetsOf(s)) == AddressValue(OctetsOf(t)) {
        AddressValueInjective(OctetsOf(s), OctetsOf(t));
      }
    }
  }

  // ---- the shift-and-mask test ------------------------------------------------------

  /** What the address parser inside `ip_in_cidr` returns. */
  function ToU32(a: string): (r: Option<nat>)
    ensures r.Some? ==> r.value < U32
  {
    var parts := Split(a, '.');
    if |parts| == 4 && (forall k :: 0 <= k < 4 ==> ParseUnsigned(parts[k], 255).Some?) then
      var o := seq(4, k requires 0 <= k < 4 => ParseUnsigned(parts[k], 255).value);
      ParsedAreOctets(parts, o);
      Some(AddressValue(o))
    else None
  }

  lemma {:induction false} ParsedAreOctets(parts: seq<string>, o: seq<nat>)
    requires |parts| == 4 && |o| == 4
    requires forall k :: 0 <= k < 4 ==> ParseUnsigned(parts[k], 255) == Some(o[k])
    ensures IsOctets(o)
  {
  }

  /** Numbers of the first `n` parts, eight bits each, as far as 32 bits hold them. */
  function Accumulated(parts: seq<string>, n: nat): nat
    requires n <= |parts| && forall k :: 0 <= k < n ==> ParseUnsigned(parts[k], 255).Some?
  {
    if n == 0 then 0
    else (Accumulated(parts, n - 1) * 256 % U32) + ParseUnsigned(parts[n - 1], 255).value
  }

  /** The program's loop, with its shift and or. */
  method ParseAddress(a: string) returns (r: Option<nat>)
    ensures r == ToU32(a)
  {
    hide ParseUnsigned, Or;
    var parts := Split(a, '.');
    var out := 0;
    var n := 0;
    while n < |parts|
      invariant 0 <= n <= |parts|
      invariant forall k :: 0 <= k < n ==> ParseUnsigned(parts[k], 255).Some?
      invariant out == Accumulated(parts, n)
    {
      var octet := ParseUnsigned(parts[n], 255);
      if octet.None? {
        return None;
      }
      OctetInRange(parts[n]);
      ShiftAndOr(out, octet.value);
      out := Or(Shl32(out, 8), octet.value);
      n := n + 1;
    }
    if n == 4 {
      AccumulatedFour(parts);
      return Some(out);
    }
    return None;
  }

  lemma {:induction false} OctetInRange(s: string)
    ensures ParseUnsigned(s, 255).Some? ==> ParseUnsigned(s, 255).value < 256
  {
  }

  lemma {:induction false} ShiftAndOr(x: nat, y: nat)
    requires y < 256
    ensures Or(Shl32(x, 8), y) == x * 256 % U32 + y
  {
    Power2Of32();
    var low := x % 0x1000000;
    QuotientUnique(x * 256, U32, x / 0x1000000, low * 256);
    OrIsSum(low, y, 8);
  }

  lemma {:induction false} AccumulatedFour(parts: seq<string>)
    requires |parts| == 4 && forall k :: 0 <= k < 4 ==> ParseUnsigned(parts[k], 255).Some?
    ensures var o := seq(4, k requires 0 <= k < 4 => ParseUnsigned(parts[k], 255).value);
            IsOctets(o) && Accumulated(parts, 4) == AddressValue(o)
  {
    hide ParseUnsigned;
    OctetInRange(parts[0]);
    OctetInRange(parts[1]);
    OctetInRange(parts[2]);
    OctetInRange(parts[3]);
    assert Accumulated(parts, 0) == 0;
    assert Accumulated(parts, 1) == ParseUnsigned(parts[0], 255).value;
    assert Accumulated(parts, 2) == 256 * ParseUnsigned(parts[0], 255).value + ParseUnsigned(parts[1], 255).value;
  }

  /** `ip_in_cidr` */
  predicate IpInCidr(addr: string, cidr: string) {
    var i := IndexOf(cidr, '/');
    if i == |cidr| then false
    else
      match (ToU32(addr), ToU32(cidr[..i]), ParseUnsigned(cidr[i + 1..], U32 - 1))
      case (Some(a), Some(c), Some(p)) =>
        if p == 0 then true
        else if p > 32 then false
        else
          var mask := Shl32(U32 - 1, 32 - p);
          And(a, mask) == And(c, mask)
      case _ => false
  }

  // ---- aligned blocks (section 3.1 of RFC 4632) -------------------------------------

  /** The address lies in the aligned block of 2^(32-p) addresses that holds `base`. */
  predicate InBlockOf(a: nat, base: nat, p: nat)
    requires p <= 32
  {
    var size := Power2(32 - p);
    var first := base / size * size;
    first <= a < first + size
  }

  lemma {:induction false} SameQuotient(a: nat, c: nat, size: nat)
    requires 1 <= size
    ensures c / size * size <= a < c / size * size + size <==> a / size == c / size
  {
    var q := c / size;
    assert a == size * (a / size) + a % size;
    if q * size <= a < q * size + size {
      QuotientUnique(a, size, q, a - q * size);
    }
  }

  /** Comparing masked addresses is comparing block numbers. */
  lemma {:induction false} MaskedEqualIffSameBlock(a: nat, c: nat, p: nat)
    requires a < U32 && c < U32 && 1 <= p <= 32
    ensures var mask := Shl32(U32 - 1, 32 - p);
            And(a, mask) == And(c, mask) <==> InBlockOf(a, c, p)
  {
    hide And;
    var size := Power2(32 - p);
    Power2Of32();
    MaskOfShift(32 - p);
    AndClearsLow(a, 32 - p, p);
    AndClearsLow(c, 32 - p, p);
    SameQuotient(a, c, size);
    if a / size < c / size {
      MultiplesApart(size, c / size, a / size);
    } else if c / size < a / size {
      MultiplesApart(size, a / size, c / size);
    }
  }

  lemma {:induction false} WholeSpace(a: nat, base: nat)
    requires a < U32 && base < U32
    ensures InBlockOf(a, base, 0)
  {
    Power2Of32();
    QuotientUnique(base, U32, 0, base);
  }

  lemma {:induction false} ToU32OfText(o: seq<nat>)
    requires IsOctets(o)
    ensures ToU32(AddressText(o)) == Some(AddressValue(o))
  {
    hide Decimal, ParseUnsigned;
    SplitAddress(o);
    forall k | 0 <= k < 4 ensures ParseUnsigned(Decimals(o)[k], 255) == Some(o[k]) {
      ParseDecimal(o[k], 255);
    }
    assert seq(4, k requires 0 <= k < 4 => ParseUnsigned(Decimals(o)[k], 255).value) == o;
  }

  lemma {:induction false} IpInCidrOfTexts(a: seq<nat>, c: seq<nat>, p: nat)
    requires IsOctets(a) && IsOctets(c) && p <= 32
    ensures IpInCidr(AddressText(a), CidrText(c, p))
       <==> p == 0 || And(AddressValue(a), Shl32(U32 - 1, 32 - p)) == And(AddressValue(c), Shl32(U32 - 1, 32 - p))
  {
    hide Decimal, And, Shl32, ToU32, ParseUnsigned, AddressText, AddressValue, IndexOf;
    ToU32OfText(a);
    ToU32OfText(c);
    SplitAddress(c);
    ParseDecimal(p, U32 - 1);
    CidrTextSplits(AddressText(c), Decimal(p));
  }

  lemma {:induction false} CidrTextSplits(address: string, prefix: string)
    requires '/' !in address
    ensures var s := address + ['/'] + prefix;
            IndexOf(s, '/') == |address| < |s| && s[..|address|] == address && s[|address| + 1..] == prefix
  {
    hide IndexOf;
    IndexOfAppend(address, '/', prefix);
  }

  /** On accepted texts the test holds exactly when the address lies in the range's block. */
  lemma {:induction false} IpInCidrIsMembership(addr: string, cidr: string)
    requires IsValidCidr(addr) && IsValidCidr(cidr)
    ensures IpInCidr(BareAddress(addr), cidr)
       <==> InBlockOf(AddressValue(OctetsOf(addr)), AddressValue(OctetsOf(cidr)), PrefixOf(cidr))
  {
    hide Decimal, And, Shl32, IsValidCidr, OctetsOf, PrefixOf, IpInCidr, AddressText, AddressValue, IsOctets, InBlockOf;
    var a, c, p := OctetsOf(addr), OctetsOf(cidr), PrefixOf(cidr);
    ValidCidrIsCanonical(addr);
    ValidCidrIsCanonical(cidr);
    SplitAddress(a);
    CidrTextSplits(AddressText(a), Decimal(PrefixOf(addr)));
    IpInCidrOfTexts(a, c, p);
    if p == 0 {
      Power2Of32();
      WholeSpace(AddressValue(a), AddressValue(c));
    } else {
      MaskedEqualIffSameBlock(AddressValue(a), AddressValue(c), p);
    }
  }

  /** Two aligned blocks are nested or disjoint: if they share an address, the one with the
      longer prefix lies inside the other. */
  lemma {:induction false} BlocksNestOrAreDisjoint(base1: nat, p1: nat, base2: nat, p2: nat, shared: nat, a: nat)
    requires p1 <= p2 <= 32
    requires InBlockOf(shared, base1, p1) && InBlockOf(shared, base2, p2)
    requires InBlockOf(a, base2, p2)
    ensures InBlockOf(a, base1, p1)
  {
    var small, ratio := Power2(32 - p2), Power2(p2 - p1);
    Power2Sum(32 - p2, p2 - p1);
    var big := small * ratio;
    assert Power2(32 - p1) == big;
    SameQuotient(shared, base2, small);
    SameQuotient(a, base2, small);
    SameQuotient(shared, base1, big);
    SameQuotient(a, base1, big);
    QuotientOfQuotient(shared, small, ratio);
    QuotientOfQuotient(a, small, ratio);
  }

  lemma {:induction false} QuotientOfQuotient(x: nat, m: nat, n: nat)
    requires 1 <= m && 1 <= n
    ensures 1 <= m * n && x / (m * n) == x / m / n
  {
    var y := x / m;
    var q, r := y / n, y % n;
    assert x == m * y + x % m && y == n * q + r;
    assert m * (n * q + r) == (m * n) * q + m * r;
    MultiplesApart(m, n, 0);
    if r < n - 1 {
      MultiplesApart(m, n - 1, r);
    }
    assert m * (n - 1) == m * n - m;
    QuotientUnique(x, m * n, q, m * r + x % m);
  }

  // ---- MAC addresses ----------------------------------------------------------------

  predicate IsHexDigit(c: char) {
    IsDigit(c) || 'a' <= c <= 'f' || 'A' <= c <= 'F'
  }

  /** `is_valid_mac` */
  predicate IsValidMac(s: string) {
    var parts := Split(s, ':');
    |parts| == 6 && forall k :: 0 <= k < 6 ==>
      |parts[k]| == 2 && IsHexDigit(parts[k][0]) && IsHexDigit(parts[k][1])
  }

  function ToLower(c: char): char {
    if 'A' <= c <= 'Z' then (c as int + 32) as char else c
  }

  /** `to_ascii_lowercase` */
  function Lower(s: string): (r: string)
    ensures |r| == |s|
  {
    seq(|s|, i requires 0 <= i < |s| => ToLower(s[i]))
  }

  function HexValue(c: char): (v: nat)
    requires IsHexDigit(c)
    ensures v < 16
  {
    if IsDigit(c) then c as int - '0' as int
    else if c <= 'F' then c as int - 'A' as int + 10
    else c as int - 'a' as int + 10
  }

  /** The shape of a MAC text, character by character. */
  predicate MacShape(s: string) {
    |s| == 17 && forall i :: 0 <= i < 17 ==> if i % 3 == 2 then s[i] == ':' else IsHexDigit(s[i])
  }

  /** The 48-bit value of the first `n` of six pairs of hexadecimal digits. */
  function PairsValue(s: string, n: nat): nat
    requires MacShape(s) && n <= 6
  {
    if n == 0 then 0
    else 256 * PairsValue(s, n - 1) + 16 * HexValue(s[3 * n - 3]) + HexValue(s[3 * n - 2])
  }

  /** Where the characters of two-character pieces stand once they are joined. */
  lemma {:induction false} PairAt(pieces: seq<string>, c: char, k: nat)
    requires k < |pieces| && forall i :: 0 <= i < |pieces| ==> |pieces[i]| == 2
    ensures var s := JoinWith(pieces, c);
            && |s| == 3 * |pieces| - 1 && s[3 * k] == pieces[k][0] && s[3 * k + 1] == pieces[k][1]
            && (k + 1 < |pieces| ==> s[3 * k + 2] == c)
  {
    if 1 < |pieces| {
      PairAt(pieces[1..], c, if k == 0 then 0 else k - 1);
    }
  }

  lemma {:induction false} ValidMacShape(s: string)
    requires IsValidMac(s)
    ensures MacShape(s)
  {
    hide IsHexDigit, Split, JoinWith;
    var p := Split(s, ':');
    JoinOfSplit(s, ':');
    PairAt(p, ':', 0);
    PairAt(p, ':', 1);
    PairAt(p, ':', 2);
    PairAt(p, ':', 3);
    PairAt(p, ':', 4);
    PairAt(p, ':', 5);
  }

  const HEX := "0123456789abcdefABCDEF"

  lemma {:induction false} HexDigitIff(c: char)
    ensures IsHexDigit(c) <==> c in HEX
  {
    if IsHexDigit(c) {
      assert HEX[if c <= '9' then c as int - '0' as int
                 else if c <= 'F' then c as int - 'A' as int + 16
                 else c as int - 'a' as int + 10] == c;
    }
  }

  /** What `is_valid_mac` accepts, character by character. */
  lemma {:induction false} ValidMacIff(s: string)
    ensures IsValidMac(s) <==>
      |s| == 17 && forall i :: 0 <= i < 17 ==> if i % 3 == 2 then s[i] == ':' else s[i] in HEX
  {
    hide HEX, IsHexDigit, IsValidMac;
    forall c ensures IsHexDigit(c) <==> c in HEX {
      HexDigitIff(c);
    }
    if IsValidMac(s) {
      ValidMacShape(s);
    }
    if MacShape(s) {
      ShapeIsValidMac(s);
    }
  }

  lemma {:induction false} ShapeIsValidMac(s: string)
    requires MacShape(s)
    ensures IsValidMac(s)
  {
    hide IsHexDigit, MacShape, Split, JoinWith;
    PairsHaveNoColon(s);
    var p := Pairs(s);
    JoinedPairs(s, p);
    SplitOfJoin(p, ':');
  }

  /** The six pairs of characters of a MAC text. */
  function Pairs(s: string): (p: seq<string>)
    requires |s| == 17
    ensures |p| == 6 && forall k :: 0 <= k < 6 ==> |p[k]| == 2 && p[k] == s[3 * k..3 * k + 2]
  {
    seq(6, k requires 0 <= k < 6 => s[3 * k..3 * k + 2])
  }

  lemma {:induction false} PairsHaveNoColon(s: string)
    requires MacShape(s)
    ensures |s| == 17 && forall x | x in Pairs(s) :: ':' !in x
    ensures forall k :: 0 <= k < 6 ==> IsHexDigit(Pairs(s)[k][0]) && IsHexDigit(Pairs(s)[k][1])
  {
    hide IsHexDigit, Pairs;
    forall k | 0 <= k < 6
      ensures ':' !in Pairs(s)[k] && IsHexDigit(Pairs(s)[k][0]) && IsHexDigit(Pairs(s)[k][1])
    {
      assert (3 * k) % 3 == 0 && (3 * k + 1) % 3 == 1;
      NoColon(s[3 * k]);
      NoColon(s[3 * k + 1]);
    }
  }

  lemma {:induction false} NoColon(c: char)
    requires IsHexDigit(c)
    ensures c != ':'
  {
  }

  lemma {:induction false} JoinedPairs(s: string, p: seq<string>)
    requires MacShape(s) && |p| == 6 && forall k :: 0 <= k < 6 ==> p[k] == s[3 * k..3 * k + 2]
    ensures JoinWith(p, ':') == s
  {
    hide IsHexDigit;
    var t := JoinWith(p, ':');
    PairAt(p, ':', 0);
    PairAt(p, ':', 1);
    PairAt(p, ':', 2);
    PairAt(p, ':', 3);
    PairAt(p, ':', 4);
    PairAt(p, ':', 5);
    assert s[2] == s[5] == s[8] == s[11] == s[14] == ':';
  }

  /** The 48-bit value of a MAC address. */
  function MacValue(s: string): nat
    requires IsValidMac(s)
  {
    ValidMacShape(s);
    PairsValue(s, 6)
  }

  lemma {:induction false} SameHexValue(c: char, d: char)
    requires IsHexDigit(c) && IsHexDigit(d)
    ensures HexValue(c) == HexValue(d) <==> ToLower(c) == ToLower(d)
  {
  }

  lemma {:induction false} PairsCompare(x: nat, a: nat, b: nat, y: nat, c: nat, d: nat)
    requires a < 16 && b < 16 && c < 16 && d < 16
    ensures 256 * x + 16 * a + b == 256 * y + 16 * c + d <==> x == y && a == c && b == d
  {
  }

  /** The cases of the first `n` pairs' digits agree. */
  predicate SameDigits(s: string, t: string, n: nat)
    requires MacShape(s) && MacShape(t) && n <= 6
  {
    forall k :: 0 <= k < n ==> PairAgrees(s, t, k)
  }

  predicate PairAgrees(s: string, t: string, k: nat)
    requires MacShape(s) && MacShape(t) && k < 6
  {
    ToLower(s[3 * k]) == ToLower(t[3 * k]) && ToLower(s[3 * k + 1]) == ToLower(t[3 * k + 1])
  }

  lemma {:induction false} SamePairs(s: string, t: string, n: nat)
    requires MacShape(s) && MacShape(t) && n <= 6
    ensures PairsValue(s, n) == PairsValue(t, n) <==> SameDigits(s, t, n)
  {
    hide HexValue, ToLower, IsHexDigit;
    if n > 0 {
      SamePairs(s, t, n - 1);
      var i, j := 3 * n - 3, 3 * n - 2;
      assert i % 3 == 0 && j % 3 == 1;
      SameHexValue(s[i], t[i]);
      SameHexValue(s[j], t[j]);
      PairsCompare(PairsValue(s, n - 1), HexValue(s[i]), HexValue(s[j]),
                   PairsValue(t, n - 1), HexValue(t[i]), HexValue(t[j]));
      assert SameDigits(s, t, n) <==> SameDigits(s, t, n - 1) && PairAgrees(s, t, n - 1);
    }
  }

  lemma {:induction false} SameDigitsIffLower(s: string, t: string)
    requires MacShape(s) && MacShape(t)
    ensures SameDigits(s, t, 6) <==> Lower(s) == Lower(t)
  {
    hide ToLower, IsHexDigit;
    if Lower(s) == Lower(t) {
      forall k | 0 <= k < 6 ensures PairAgrees(s, t, k) {
        assert Lower(s)[3 * k] == Lower(t)[3 * k] && Lower(s)[3 * k + 1] == Lower(t)[3 * k + 1];
      }
    }
    if SameDigits(s, t, 6) {
      forall i | 0 <= i < 17 ensures Lower(s)[i] == Lower(t)[i] {
        assert i == 3 * (i / 3) + i % 3 && PairAgrees(s, t, i / 3);
      }
    }
  }

  /** Two MAC texts are equal ignoring case exactly when they denote the same 48-bit value. */
  lemma {:induction false} MacTextsIdentify(s: string, t: string)
    requires IsValidMac(s) && IsValidMac(t)
    ensures Lower(s) == Lower(t) <==> MacValue(s) == MacValue(t)
  {
    ValidMacShape(s);
    ValidMacShape(t);
    SamePairs(s, t, 6);
    SameDigitsIffLower(s, t);
  }
}
