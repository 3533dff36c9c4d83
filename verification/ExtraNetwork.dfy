/** Validation of a cluster's network identity before anything is deployed
    (commands/deploy_cluster.rs `derive_primary_mac`, `resolve_primary_macs`, the range
    check of `run` and `validate_extra_network`).

    The program compares texts: lower-cased MACs in hash maps and sets, and the part of an
    address before the slash.  The main result says what that decides about the 48-bit and
    32-bit values the texts stand for. */
module ExtraNetwork {
  import opened Arithmetic
  import opened Bits
  import opened Text
  import opened Network
  import Sha256
  import Utf8

  datatype Plan = Plan(
    cpName: string, workerNames: seq<string>,
    cpMac: Option<string>, workerMacs: Option<seq<string>>,
    podCidr: Option<string>, serviceCidr: Option<string>,
    extraNetwork: Option<string>, extraCpMac: Option<string>, extraCpIp: Option<string>,
    extraWorkerMacs: Option<seq<string>>, extraWorkerIps: Option<seq<string>>)

  datatype Net2 = Net2(network: string, mac: string, ip: string)

  /** Index 0 is the control plane, index `i + 1` worker `i`. */
  datatype Error =
    | PrimaryMalformed(i: nat)
    | PrimaryCollision(i: nat)
    | RangeMalformed
    | HalfSet
    | CpMacMalformed
    | CpIpMalformed
    | MacsNotParallel
    | IpsNotParallel
    | WorkerMacMalformed(i: nat)
    | WorkerIpMalformed(i: nat)
    | DuplicateMac(i: nat)
    | CollidesWithPrimary(i: nat)
    | DuplicateAddress(i: nat)
    | InsideRange(i: nat)

  function OrEmpty<T>(x: Option<seq<T>>): seq<T> {
    match x
    case None => []
    case Some(v) => v
  }

  // ---- primary MACs -----------------------------------------------------------------

  /** `derive_primary_mac` */
  function DerivePrimaryMac(name: string): string {
    var h := Sha256.Digest(Utf8.Encode(name));
    JoinWith(["52", "54", "00", h[0..2], h[2..4], h[4..6]], ':')
  }

  /** A derived MAC is always well formed. */
  lemma {:induction false} DerivedMacIsValid(name: string)
    ensures IsValidMac(DerivePrimaryMac(name))
  {
    hide Sha256.Digest, IsHexDigit;
    var h := Sha256.Digest(Utf8.Encode(name));
    var parts := ["52", "54", "00", h[0..2], h[2..4], h[4..6]];
    HexPair("52");
    HexPair("54");
    HexPair("00");
    HexPair(h[0..2]);
    HexPair(h[2..4]);
    HexPair(h[4..6]);
    assert forall k :: 0 <= k < 6 ==> IsPair(parts[k]);
    forall p | p in parts ensures ':' !in p {
      var k :| 0 <= k < 6 && parts[k] == p;
      assert IsPair(parts[k]);
    }
    SplitOfJoin(parts, ':');
  }

  /** The 48-bit value of the MAC of a name: 52:54:00, then the first three bytes of the digest
      of the name. */
  function NameMacValue(name: string): nat {
    0x5254_0000_0000 + Sha256.DigestWords(Utf8.Encode(name))[0] as int / 0x100
  }

  /** The number of a text of hexadecimal digits. */
  function HexNumber(s: string): nat
    requires forall i :: 0 <= i < |s| ==> IsHexDigit(s[i])
  {
    if s == "" then 0 else 16 * HexNumber(s[..|s| - 1]) + HexValue(s[|s| - 1])
  }

  lemma {:induction false} DigitValue(d: nat)
    requires d < 16
    ensures IsHexDigit(Sha256.HexDigit(d)) && HexValue(Sha256.HexDigit(d)) == d
    ensures ToLower(Sha256.HexDigit(d)) == Sha256.HexDigit(d)
  {
  }

  lemma {:induction false} SixteenToThePower()
    ensures Power2(0) == 1 && Power2(4) == 16 && Power2(24) == 0x100_0000
  {
    assert Power2(8) == 256;
    Power2Sum(8, 8);
    Power2Sum(16, 8);
  }

  lemma {:induction false} NumberOfHex(n: nat, width: nat)
    requires n < Power2(4 * width)
    ensures (forall i :: 0 <= i < width ==> IsHexDigit(Sha256.Hex(n, width)[i]))
            && HexNumber(Sha256.Hex(n, width)) == n
  {
    hide Sha256.HexDigit, IsHexDigit, HexValue, Power2;
    SixteenToThePower();
    if width > 0 {
      Power2Sum(4, 4 * (width - 1));
      NumberOfHex(n / 16, width - 1);
      DigitValue(n % 16);
      var s := Sha256.Hex(n, width);
      assert s[..width - 1] == Sha256.Hex(n / 16, width - 1);
    }
  }

  predicate IsPair(p: string) {
    |p| == 2 && IsHexDigit(p[0]) && IsHexDigit(p[1]) && ':' !in p
  }

  lemma {:induction false} HexPair(p: string)
    requires |p| == 2 && Sha256.IsLowerHex(p[0]) && Sha256.IsLowerHex(p[1])
    ensures IsPair(p)
  {
  }

  lemma {:induction false} FirstDigits(name: string)
    ensures Sha256.Digest(Utf8.Encode(name))[..6]
         == Sha256.Hex(Sha256.DigestWords(Utf8.Encode(name))[0] as int / 0x100, 6)
  {
    hide Sha256.DigestWords, Sha256.HexDigit, Sha256.HexWords;
    var h := Sha256.DigestWords(Utf8.Encode(name));
    var n := h[0] as int;
    DigestStarts(h);
    assert Sha256.Hex(n, 8)[..7] == Sha256.Hex(n / 16, 7);
    assert Sha256.Hex(n / 16, 7)[..6] == Sha256.Hex(n / 16 / 16, 6);
    QuotientUnique(n, 0x100, n / 16 / 16, n / 16 % 16 * 16 + n % 16);
  }

  lemma {:induction false} DigestStarts(h: Sha256.Hash)
    ensures Sha256.HexWords(h)[..8] == Sha256.Hex(h[0] as int, 8)
  {
    hide Sha256.Hex;
  }

  lemma {:induction false} SixDigits(s: string)
    requires |s| == 6 && forall i :: 0 <= i < 6 ==> IsHexDigit(s[i])
    ensures HexNumber(s) == 0x1_0000 * (16 * HexValue(s[0]) + HexValue(s[1]))
                            + 0x100 * (16 * HexValue(s[2]) + HexValue(s[3])) + 16 * HexValue(s[4]) + HexValue(s[5])
  {
    hide IsHexDigit, HexValue;
    assert s[..5][..4] == s[..4] && s[..4][..3] == s[..3] && s[..3][..2] == s[..2] && s[..2][..1] == s[..1];
    assert HexNumber(s[..1]) == HexValue(s[0]);
    assert HexNumber(s[..2]) == 16 * HexNumber(s[..1]) + HexValue(s[1]);
    assert HexNumber(s[..3]) == 16 * HexNumber(s[..2]) + HexValue(s[2]);
    assert HexNumber(s[..4]) == 16 * HexNumber(s[..3]) + HexValue(s[3]);
    assert HexNumber(s[..5]) == 16 * HexNumber(s[..4]) + HexValue(s[4]);
  }

  lemma {:induction false} OwnPairs(m: string)
    requires MacShape(m) && m[0] == '5' && m[1] == '2' && m[3] == '5' && m[4] == '4' && m[6] == '0' && m[7] == '0'
    ensures PairsValue(m, 6) == 0x5254_0000_0000 + 0x1_0000 * (16 * HexValue(m[9]) + HexValue(m[10]))
                                + 0x100 * (16 * HexValue(m[12]) + HexValue(m[13])) + 16 * HexValue(m[15]) + HexValue(m[16])
  {
    assert PairsValue(m, 1) == 0x52;
    assert PairsValue(m, 2) == 0x5254;
    assert PairsValue(m, 3) == 0x52_5400;
    assert PairsValue(m, 4) == 256 * PairsValue(m, 3) + 16 * HexValue(m[9]) + HexValue(m[10]);
    assert PairsValue(m, 5) == 256 * PairsValue(m, 4) + 16 * HexValue(m[12]) + HexValue(m[13]);
  }

  lemma {:induction false} LowerHexStays(m: string)
    requires MacShape(m) && m[0] == '5' && m[1] == '2' && m[3] == '5' && m[4] == '4' && m[6] == '0' && m[7] == '0'
    requires Sha256.IsLowerHex(m[9]) && Sha256.IsLowerHex(m[10]) && Sha256.IsLowerHex(m[12])
    requires Sha256.IsLowerHex(m[13]) && Sha256.IsLowerHex(m[15]) && Sha256.IsLowerHex(m[16])
    ensures Lower(m) == m
  {
    hide IsHexDigit;
    assert m[2] == ':' && m[5] == ':' && m[8] == ':' && m[11] == ':' && m[14] == ':';
    forall i | 0 <= i < 17 ensures ToLower(m[i]) == m[i] {
      assert m[i] == ':' || Sha256.IsLowerHex(m[i]);
    }
  }

  /** What the MAC of a name is. */
  lemma {:induction false} DerivedMacValue(name: string)
    ensures IsValidMac(DerivePrimaryMac(name)) && Lower(DerivePrimaryMac(name)) == DerivePrimaryMac(name)
    ensures MacValue(DerivePrimaryMac(name)) == NameMacValue(name)
  {
    hide Sha256.Digest, Sha256.DigestWords, Sha256.IsLowerHex, IsHexDigit, HexNumber, PairsValue, IsValidMac, Lower;
    hide Sha256.Hex, Power2;
    DerivedMacIsValid(name);
    var (h, m) := (Sha256.Digest(Utf8.Encode(name)), DerivePrimaryMac(name));
    var n := Sha256.DigestWords(Utf8.Encode(name))[0] as int / 0x100;
    var parts := ["52", "54", "00", h[0..2], h[2..4], h[4..6]];
    PairAt(parts, ':', 0);
    PairAt(parts, ':', 1);
    PairAt(parts, ':', 2);
    PairAt(parts, ':', 3);
    PairAt(parts, ':', 4);
    PairAt(parts, ':', 5);
    ValidMacShape(m);
    FirstDigits(name);
    SixteenToThePower();
    NumberOfHex(n, 6);
    SixDigits(h[..6]);
    OwnPairs(m);
    LowerHexStays(m);
  }

  function Override(configured: Option<string>, name: string): string {
    match configured
    case None => DerivePrimaryMac(name)
    case Some(m) => if m == "" then DerivePrimaryMac(name) else m
  }

  function WorkerOverride(plan: Plan, i: nat): Option<string> {
    match plan.workerMacs
    case None => None
    case Some(ms) => if i < |ms| then Some(ms[i]) else None
  }

  /** The MAC of every primary interface: as configured, or derived from the name. */
  function PrimaryMacs(plan: Plan): (r: seq<string>)
    ensures |r| == 1 + |plan.workerNames|
  {
    [Override(plan.cpMac, plan.cpName)]
    + seq(|plan.workerNames|, i requires 0 <= i < |plan.workerNames| =>
        Override(WorkerOverride(plan, i), plan.workerNames[i]))
  }

  /** An entry of the configuration that is set and not empty is taken as it is; otherwise the
      text is the lower-case MAC of the name. */
  predicate IsMacOf(mac: string, configured: Option<string>, name: string) {
    if configured.Some? && configured.value != "" then mac == configured.value
    else IsValidMac(mac) && Lower(mac) == mac && MacValue(mac) == NameMacValue(name)
  }

  /** One MAC for the control plane and one for each worker.  The array of worker MACs may be
      shorter than that of worker names, or longer. */
  predicate ArePrimaryMacs(plan: Plan, macs: seq<string>) {
    && |macs| == 1 + |plan.workerNames| && IsMacOf(macs[0], plan.cpMac, plan.cpName)
    && forall i :: 0 <= i < |plan.workerNames| ==>
         IsMacOf(macs[i + 1],
                 if plan.workerMacs.Some? && i < |plan.workerMacs.value| then Some(plan.workerMacs.value[i]) else None,
                 plan.workerNames[i])
  }

  lemma {:induction false} OverrideIsMacOf(mac: string, configured: Option<string>, name: string)
    ensures IsMacOf(mac, configured, name) <==> mac == Override(configured, name)
  {
    hide IsValidMac, Lower, MacValue, NameMacValue, DerivePrimaryMac;
    DerivedMacValue(name);
    if IsMacOf(mac, configured, name) && (configured.None? || configured.value == "") {
      MacTextsIdentify(mac, DerivePrimaryMac(name));
    }
  }

  /** These conditions determine the MACs, and the program takes the ones they determine. */
  lemma {:induction false} PrimaryMacsAreDetermined(plan: Plan, macs: seq<string>)
    ensures ArePrimaryMacs(plan, macs) <==> macs == PrimaryMacs(plan)
  {
    hide IsMacOf, Override;
    if |macs| == 1 + |plan.workerNames| {
      OverrideIsMacOf(macs[0], plan.cpMac, plan.cpName);
      forall i | 0 <= i < |plan.workerNames|
        ensures IsMacOf(macs[i + 1], WorkerOverride(plan, i), plan.workerNames[i]) <==> macs[i + 1] == PrimaryMacs(plan)[i + 1]
      {
        OverrideIsMacOf(macs[i + 1], WorkerOverride(plan, i), plan.workerNames[i]);
      }
      if ArePrimaryMacs(plan, macs) {
        forall k | 0 < k < |macs| ensures macs[k] == PrimaryMacs(plan)[k] {
          var i := k - 1;
          assert IsMacOf(macs[i + 1], WorkerOverride(plan, i), plan.workerNames[i]);
        }
      }
    }
  }

  /** The first `n` texts are MACs, no two of them equal ignoring case. */
  predicate DistinctMacs(macs: seq<string>, n: nat)
    requires n <= |macs|
  {
    && (forall i :: 0 <= i < n ==> IsValidMac(macs[i]))
    && (forall i, j :: 0 <= i < j < n ==> Lower(macs[i]) != Lower(macs[j]))
  }

  /** The keys are the first `n` texts in lower case. */
  ghost predicate HoldsMacs(keys: set<string>, macs: seq<string>, n: nat)
    requires n <= |macs|
  {
    forall k :: k in keys <==> exists j :: 0 <= j < n && Lower(macs[j]) == k
  }

  lemma {:induction false} NoMacs(macs: seq<string>)
    ensures DistinctMacs(macs, 0) && HoldsMacs({}, macs, 0)
  {
  }

  lemma {:induction false} OneMoreMac(keys: set<string>, macs: seq<string>, n: nat)
    requires n < |macs| && DistinctMacs(macs, n) && HoldsMacs(keys, macs, n)
    ensures HoldsMacs(keys + {Lower(macs[n])}, macs, n + 1)
    ensures Lower(macs[n]) in keys <==> exists j :: 0 <= j < n && Lower(macs[j]) == Lower(macs[n])
    ensures DistinctMacs(macs, n + 1) <==> IsValidMac(macs[n]) && Lower(macs[n]) !in keys
  {
    hide IsValidMac, Lower;
  }

  lemma {:induction false} NoMoreMacs(macs: seq<string>, n: nat)
    requires n < |macs| && !DistinctMacs(macs, n + 1)
    ensures !DistinctMacs(macs, |macs|)
  {
    hide IsValidMac, Lower;
  }

  /** `resolve_primary_macs` */
  method ResolvePrimaryMacs(plan: Plan) returns (r: Result<seq<string>, Error>)
    ensures r.Ok? <==> DistinctMacs(PrimaryMacs(plan), 1 + |plan.workerNames|)
    ensures r.Ok? ==> r.value == PrimaryMacs(plan) && ArePrimaryMacs(plan, r.value)
    ensures r.Err? ==> match r.error
      case PrimaryMalformed(i) =>
        i <= |plan.workerNames| && DistinctMacs(PrimaryMacs(plan), i) && !IsValidMac(PrimaryMacs(plan)[i])
      case PrimaryCollision(i) =>
        i <= |plan.workerNames| && DistinctMacs(PrimaryMacs(plan), i) && IsValidMac(PrimaryMacs(plan)[i])
        && exists j :: 0 <= j < i && Lower(PrimaryMacs(plan)[j]) == Lower(PrimaryMacs(plan)[i])
      case _ => false
  {
    hide IsValidMac, Lower, DerivePrimaryMac, DistinctMacs, HoldsMacs, ArePrimaryMacs;
    ghost var all := PrimaryMacs(plan);
    PrimaryMacsAreDetermined(plan, all);
    var seen: map<string, string> := map[];
    var cp := Override(plan.cpMac, plan.cpName);
    assert cp == all[0];
    NoMacs(all);
    OneMoreMac({}, all, 0);
    if !IsValidMac(cp) {
      NoMoreMacs(all, 0);
      return Err(PrimaryMalformed(0));
    }
    seen := seen[Lower(cp) := plan.cpName];
    assert seen.Keys == {} + {Lower(all[0])};
    var macs := [cp];
    assert macs == all[..1];
    var i := 0;
    while i < |plan.workerNames|
      invariant 0 <= i <= |plan.workerNames|
      invariant macs == all[..i + 1] && DistinctMacs(all, i + 1) && HoldsMacs(seen.Keys, all, i + 1)
    {
      var mac := Override(WorkerOverride(plan, i), plan.workerNames[i]);
      assert mac == all[i + 1];
      OneMoreMac(seen.Keys, all, i + 1);
      if !IsValidMac(mac) {
        NoMoreMacs(all, i + 1);
        return Err(PrimaryMalformed(i + 1));
      }
      if Lower(mac) in seen {
        NoMoreMacs(all, i + 1);
        return Err(PrimaryCollision(i + 1));
      }
      ghost var keys := seen.Keys;
      seen := seen[Lower(mac) := plan.workerNames[i]];
      assert seen.Keys == keys + {Lower(all[i + 1])};
      macs := macs + [mac];
      i := i + 1;
    }
    return Ok(macs);
  }

  // ---- cluster ranges ---------------------------------------------------------------

  predicate IsUnset(x: Option<string>) {
    x.None? || x.value == ""
  }

  predicate RangeIsFine(range: Option<string>) {
    IsUnset(range) || IsValidCidr(range.value)
  }

  predicate InsideOf(address: string, range: Option<string>) {
    !IsUnset(range) && IpInCidr(address, range.value)
  }

  // ---- the second interfaces --------------------------------------------------------

  function ExtraMacs(plan: Plan): (r: seq<string>)
    ensures |r| == 1 + |OrEmpty(plan.extraWorkerMacs)|
  {
    [if plan.extraCpMac.Some? then plan.extraCpMac.value else ""] + OrEmpty(plan.extraWorkerMacs)
  }

  function ExtraIps(plan: Plan): (r: seq<string>)
    ensures |r| == 1 + |OrEmpty(plan.extraWorkerIps)|
  {
    [if plan.extraCpIp.Some? then plan.extraCpIp.value else ""] + OrEmpty(plan.extraWorkerIps)
  }

  predicate AnySet(xs: Option<seq<string>>) {
    xs.Some? && exists i :: 0 <= i < |xs.value| && xs.value[i] != ""
  }

  predicate IsHalfSet(plan: Plan) {
    || !IsUnset(plan.extraCpMac) || !IsUnset(plan.extraCpIp)
    || AnySet(plan.extraWorkerMacs) || AnySet(plan.extraWorkerIps)
  }

  predicate Parallel(plan: Plan) {
    && |OrEmpty(plan.extraWorkerMacs)| == |plan.workerNames|
    && |OrEmpty(plan.extraWorkerIps)| == |plan.workerNames|
  }

  predicate ValidMacs(macs: seq<string>, n: nat)
    requires n <= |macs|
  {
    forall i :: 0 <= i < n ==> IsValidMac(macs[i])
  }

  predicate ValidCidrs(ips: seq<string>, n: nat)
    requires n <= |ips|
  {
    forall i :: 0 <= i < n ==> IsValidCidr(ips[i])
  }

  /** The first `n` MACs are new, among themselves and against the primary ones. */
  predicate NewMacs(macs: seq<string>, primary: seq<string>, n: nat)
    requires n <= |macs|
  {
    && (forall i, j :: 0 <= i < j < n ==> Lower(macs[i]) != Lower(macs[j]))
    && (forall i, j :: 0 <= i < n && 0 <= j < |primary| ==> Lower(macs[i]) != Lower(primary[j]))
  }

  predicate NewAddresses(ips: seq<string>, n: nat)
    requires n <= |ips|
  {
    forall i, j :: 0 <= i < j < n ==> BareAddress(ips[i]) != BareAddress(ips[j])
  }

  predicate OutsideRanges(ips: seq<string>, plan: Plan, n: nat)
    requires n <= |ips|
  {
    forall i :: 0 <= i < n ==>
      !InsideOf(BareAddress(ips[i]), plan.podCidr) && !InsideOf(BareAddress(ips[i]), plan.serviceCidr)
  }

  /** What `validate_extra_network` accepts, on the texts. */
  predicate ExtraAccepted(plan: Plan, primary: seq<string>) {
    var (macs, ips) := (ExtraMacs(plan), ExtraIps(plan));
    && Parallel(plan) && ValidMacs(macs, |macs|) && ValidCidrs(ips, |ips|)
    && NewMacs(macs, primary, |macs|) && NewAddresses(ips, |ips|) && OutsideRanges(ips, plan, |ips|)
  }

  function Nets(plan: Plan): seq<Net2>
    requires Parallel(plan) && plan.extraNetwork.Some?
  {
    seq(1 + |plan.workerNames|, i requires 0 <= i < 1 + |plan.workerNames| =>
      Net2(plan.extraNetwork.value, ExtraMacs(plan)[i], ExtraIps(plan)[i]))
  }

  /** The interfaces of an accepted plan, entry by entry: the control plane, then the workers. */
  predicate AreNets(plan: Plan, nets: seq<Net2>) {
    && |nets| == 1 + |plan.workerNames|
    && Some(nets[0].mac) == plan.extraCpMac && Some(nets[0].ip) == plan.extraCpIp
    && (forall i :: 0 <= i < |nets| ==> Some(nets[i].network) == plan.extraNetwork)
    && forall i :: 0 <= i < |plan.workerNames| ==>
         && plan.extraWorkerMacs.Some? && i < |plan.extraWorkerMacs.value|
         && plan.extraWorkerIps.Some? && i < |plan.extraWorkerIps.value|
         && nets[i + 1].mac == plan.extraWorkerMacs.value[i] && nets[i + 1].ip == plan.extraWorkerIps.value[i]
  }

  lemma {:induction false} NetsAreGiven(plan: Plan, primary: seq<string>)
    requires plan.extraNetwork.Some? && ExtraAccepted(plan, primary)
    ensures AreNets(plan, Nets(plan))
  {
    hide IsValidMac, IsValidCidr, NewMacs, NewAddresses, OutsideRanges;
    NoMacNoAddress();
    assert IsValidMac(ExtraMacs(plan)[0]) && IsValidCidr(ExtraIps(plan)[0]);
  }

  lemma {:induction false} NoMacNoAddress()
    ensures !IsValidMac("") && !IsValidCidr("")
  {
  }

  /** Nothing is configured for the second interfaces. */
  predicate NothingExtra(plan: Plan) {
    && (plan.extraCpMac.Some? ==> plan.extraCpMac.value == "")
    && (plan.extraCpIp.Some? ==> plan.extraCpIp.value == "")
    && (plan.extraWorkerMacs.Some? ==> forall mac | mac in plan.extraWorkerMacs.value :: mac == "")
    && (plan.extraWorkerIps.Some? ==> forall ip | ip in plan.extraWorkerIps.value :: ip == "")
  }

  lemma {:induction false} HalfSetIff(plan: Plan)
    ensures IsHalfSet(plan) <==> !NothingExtra(plan)
  {
    NoneSetIff(plan.extraWorkerMacs);
    NoneSetIff(plan.extraWorkerIps);
  }

  lemma {:induction false} NoneSetIff(xs: Option<seq<string>>)
    ensures AnySet(xs) <==> !(xs.Some? ==> forall x | x in xs.value :: x == "")
  {
    if AnySet(xs) {
      var i :| 0 <= i < |xs.value| && xs.value[i] != "";
      assert xs.value[i] in xs.value;
    }
    if xs.Some? && !AnySet(xs) {
      forall x | x in xs.value ensures x == "" {
        var i :| 0 <= i < |xs.value| && xs.value[i] == x;
      }
    }
  }

  /** The first two checks and the shape checks on the arrays. */
  method CheckShapes(plan: Plan) returns (r: Result<(), Error>)
    ensures r.Ok? <==> Parallel(plan) && ValidMacs(ExtraMacs(plan), |ExtraMacs(plan)|)
                       && ValidCidrs(ExtraIps(plan), |ExtraIps(plan)|)
    ensures r.Err? ==> match r.error
      case CpMacMalformed => !IsValidMac(ExtraMacs(plan)[0])
      case CpIpMalformed => !IsValidCidr(ExtraIps(plan)[0])
      case MacsNotParallel => |OrEmpty(plan.extraWorkerMacs)| != |plan.workerNames|
      case IpsNotParallel => |OrEmpty(plan.extraWorkerIps)| != |plan.workerNames|
      case WorkerMacMalformed(i) =>
        i < |plan.workerNames| && Parallel(plan) && ValidMacs(ExtraMacs(plan), i + 1) && !IsValidMac(ExtraMacs(plan)[i + 1])
      case WorkerIpMalformed(i) =>
        i < |plan.workerNames| && Parallel(plan) && ValidCidrs(ExtraIps(plan), i + 1) && !IsValidCidr(ExtraIps(plan)[i + 1])
      case _ => false
  {
    hide IsValidMac, IsValidCidr;
    var macs, ips := ExtraMacs(plan), ExtraIps(plan);
    if !IsValidMac(macs[0]) {
      return Err(CpMacMalformed);
    }
    if !IsValidCidr(ips[0]) {
      return Err(CpIpMalformed);
    }
    var wMacs, wIps := OrEmpty(plan.extraWorkerMacs), OrEmpty(plan.extraWorkerIps);
    if |wMacs| != |plan.workerNames| {
      return Err(MacsNotParallel);
    }
    if |wIps| != |plan.workerNames| {
      return Err(IpsNotParallel);
    }
    for i := 0 to |wMacs|
      invariant ValidMacs(macs, i + 1)
    {
      assert macs[i + 1] == wMacs[i];
      if !IsValidMac(wMacs[i]) {
        return Err(WorkerMacMalformed(i));
      }
    }
    for i := 0 to |wIps|
      invariant ValidCidrs(ips, i + 1)
    {
      assert ips[i + 1] == wIps[i];
      if !IsValidCidr(wIps[i]) {
        return Err(WorkerIpMalformed(i));
      }
    }
    return Ok(());
  }

  /** Uniqueness of the second MACs, among themselves and against the primary ones. */
  method CheckMacs(macs: seq<string>, primary: seq<string>) returns (r: Result<(), Error>)
    ensures r.Ok? <==> NewMacs(macs, primary, |macs|)
    ensures r.Err? ==> match r.error
      case DuplicateMac(i) =>
        i < |macs| && NewMacs(macs, primary, i) && exists j :: 0 <= j < i && Lower(macs[j]) == Lower(macs[i])
      case CollidesWithPrimary(i) =>
        i < |macs| && NewMacs(macs, primary, i) && exists j :: 0 <= j < |primary| && Lower(primary[j]) == Lower(macs[i])
      case _ => false
  {
    hide Lower;
    var primaryByMac: map<string, nat> := map[];
    for i := 0 to |primary|
      invariant forall k :: k in primaryByMac <==> exists j :: 0 <= j < i && Lower(primary[j]) == k
    {
      primaryByMac := primaryByMac[Lower(primary[i]) := i];
    }
    var seen: set<string> := {};
    for i := 0 to |macs|
      invariant NewMacs(macs, primary, i)
      invariant forall k :: k in seen <==> exists j :: 0 <= j < i && Lower(macs[j]) == k
    {
      var key := Lower(macs[i]);
      if key in seen {
        return Err(DuplicateMac(i));
      }
      seen := seen + {key};
      if key in primaryByMac {
        return Err(CollidesWithPrimary(i));
      }
    }
    return Ok(());
  }

  /** Uniqueness of the second addresses. */
  method CheckAddresses(ips: seq<string>) returns (r: Result<(), Error>)
    ensures r.Ok? <==> NewAddresses(ips, |ips|)
    ensures r.Err? ==> match r.error
      case DuplicateAddress(i) =>
        i < |ips| && NewAddresses(ips, i) && exists j :: 0 <= j < i && BareAddress(ips[j]) == BareAddress(ips[i])
      case _ => false
  {
    hide BareAddress;
    var seen: set<string> := {};
    for i := 0 to |ips|
      invariant NewAddresses(ips, i)
      invariant forall k :: k in seen <==> exists j :: 0 <= j < i && BareAddress(ips[j]) == k
    {
      var bare := BareAddress(ips[i]);
      if bare in seen {
        return Err(DuplicateAddress(i));
      }
      seen := seen + {bare};
    }
    return Ok(());
  }

  /** No second address inside the cluster's own ranges. */
  method CheckRanges(plan: Plan, ips: seq<string>) returns (r: Result<(), Error>)
    ensures r.Ok? <==> OutsideRanges(ips, plan, |ips|)
    ensures r.Err? ==> match r.error
      case InsideRange(i) =>
        && i < |ips| && OutsideRanges(ips, plan, i)
        && (InsideOf(BareAddress(ips[i]), plan.podCidr) || InsideOf(BareAddress(ips[i]), plan.serviceCidr))
      case _ => false
  {
    hide BareAddress, IpInCidr;
    for i := 0 to |ips|
      invariant OutsideRanges(ips, plan, i)
    {
      var bare := BareAddress(ips[i]);
      if InsideOf(bare, plan.podCidr) {
        return Err(InsideRange(i));
      }
      if InsideOf(bare, plan.serviceCidr) {
        return Err(InsideRange(i));
      }
    }
    return Ok(());
  }

  /** `validate_extra_network` */
  method ValidateExtraNetwork(plan: Plan, primary: seq<string>) returns (r: Result<Option<seq<Net2>>, Error>)
    ensures IsUnset(plan.extraNetwork) ==> r == if NothingExtra(plan) then Ok(None) else Err(HalfSet)
    ensures !IsUnset(plan.extraNetwork) ==> (r.Ok? <==> ExtraAccepted(plan, primary))
    ensures !IsUnset(plan.extraNetwork) && r.Ok? ==> r.value == Some(Nets(plan)) && AreNets(plan, Nets(plan))
  {
    hide IsValidMac, IsValidCidr, Lower, BareAddress, IpInCidr;
    HalfSetIff(plan);
    if IsUnset(plan.extraNetwork) {
      return if IsHalfSet(plan) then Err(HalfSet) else Ok(None);
    }
    var shapes := CheckShapes(plan);
    if shapes.Err? {
      return Err(shapes.error);
    }
    var macs := CheckMacs(ExtraMacs(plan), primary);
    if macs.Err? {
      return Err(macs.error);
    }
    var addresses := CheckAddresses(ExtraIps(plan));
    if addresses.Err? {
      return Err(addresses.error);
    }
    var ranges := CheckRanges(plan, ExtraIps(plan));
    if ranges.Err? {
      return Err(ranges.error);
    }
    NetsAreGiven(plan, primary);
    return Ok(Some(Nets(plan)));
  }

  // ---- what the checks decide -------------------------------------------------------

  /** All interfaces' MACs. */
  function AllMacs(plan: Plan): seq<string> {
    PrimaryMacs(plan) + ExtraMacs(plan)
  }

  predicate DistinctMacValues(macs: seq<string>) {
    && (forall i :: 0 <= i < |macs| ==> IsValidMac(macs[i]))
    && (forall i, j :: 0 <= i < j < |macs| ==> MacValue(macs[i]) != MacValue(macs[j]))
  }

  predicate DistinctAddressValues(ips: seq<string>) {
    && (forall i :: 0 <= i < |ips| ==> IsValidCidr(ips[i]))
    && (forall i, j :: 0 <= i < j < |ips| ==> AddressValue(OctetsOf(ips[i])) != AddressValue(OctetsOf(ips[j])))
  }

  predicate InRangeBlock(ip: string, range: Option<string>)
    requires IsValidCidr(ip) && RangeIsFine(range)
  {
    !IsUnset(range)
    && InBlockOf(AddressValue(OctetsOf(ip)), AddressValue(OctetsOf(range.value)), PrefixOf(range.value))
  }

  /** The identity is sound: parallel arrays, 2(N+1) well-formed MACs with distinct 48-bit
      values, and N+1 well-formed addresses with distinct 32-bit values, all outside the
      aligned blocks of both cluster ranges. */
  predicate SoundIdentity(plan: Plan)
    requires RangeIsFine(plan.podCidr) && RangeIsFine(plan.serviceCidr)
  {
    && Parallel(plan)
    && DistinctMacValues(AllMacs(plan))
    && DistinctAddressValues(ExtraIps(plan))
    && (forall i :: 0 <= i < |ExtraIps(plan)| ==>
          !InRangeBlock(ExtraIps(plan)[i], plan.podCidr) && !InRangeBlock(ExtraIps(plan)[i], plan.serviceCidr))
  }

  lemma {:induction false} DistinctTextsAreDistinctValues(macs: seq<string>)
    ensures DistinctMacs(macs, |macs|) <==> DistinctMacValues(macs)
  {
    hide IsValidMac, Lower, MacValue;
    if forall i :: 0 <= i < |macs| ==> IsValidMac(macs[i]) {
      forall i, j | 0 <= i < j < |macs|
        ensures Lower(macs[i]) == Lower(macs[j]) <==> MacValue(macs[i]) == MacValue(macs[j])
      {
        MacTextsIdentify(macs[i], macs[j]);
      }
    }
  }

  /** Two families that are distinct, each and across, are one distinct family. */
  lemma {:induction false} FamiliesTogether(primary: seq<string>, extra: seq<string>)
    ensures DistinctMacs(primary + extra, |primary + extra|)
       <==> DistinctMacs(primary, |primary|) && ValidMacs(extra, |extra|) && NewMacs(extra, primary, |extra|)
  {
    hide IsValidMac, Lower;
    var all := primary + extra;
    assert forall i :: 0 <= i < |primary| ==> all[i] == primary[i];
    assert forall i :: 0 <= i < |extra| ==> all[|primary| + i] == extra[i];
    if DistinctMacs(all, |all|) {
      assert forall i :: 0 <= i < |primary| ==> IsValidMac(all[i]);
      forall i | 0 <= i < |extra| ensures IsValidMac(extra[i]) {
        assert IsValidMac(all[|primary| + i]);
      }
      forall i, j | 0 <= i < j < |extra| ensures Lower(extra[i]) != Lower(extra[j]) {
        assert Lower(all[|primary| + i]) != Lower(all[|primary| + j]);
      }
      forall i, j | 0 <= i < |extra| && 0 <= j < |primary| ensures Lower(extra[i]) != Lower(primary[j]) {
        assert Lower(all[j]) != Lower(all[|primary| + i]);
      }
      forall i, j | 0 <= i < j < |primary| ensures Lower(primary[i]) != Lower(primary[j]) {
        assert Lower(all[i]) != Lower(all[j]);
      }
    }
    if DistinctMacs(primary, |primary|) && ValidMacs(extra, |extra|) && NewMacs(extra, primary, |extra|) {
      forall i, j | 0 <= i < j < |all| ensures Lower(all[i]) != Lower(all[j]) {
        if |primary| <= i {
          assert Lower(extra[i - |primary|]) != Lower(extra[j - |primary|]);
        } else if |primary| <= j {
          assert Lower(extra[j - |primary|]) != Lower(primary[i]);
        }
      }
    }
  }

  lemma {:induction false} AddressesDecided(plan: Plan, ips: seq<string>)
    requires RangeIsFine(plan.podCidr) && RangeIsFine(plan.serviceCidr)
    requires ValidCidrs(ips, |ips|)
    ensures NewAddresses(ips, |ips|) <==> DistinctAddressValues(ips)
    ensures OutsideRanges(ips, plan, |ips|) <==>
      forall i :: 0 <= i < |ips| ==> !InRangeBlock(ips[i], plan.podCidr) && !InRangeBlock(ips[i], plan.serviceCidr)
  {
    hide IsValidCidr, BareAddress, IpInCidr, AddressValue, OctetsOf, PrefixOf, InBlockOf;
    forall i, j | 0 <= i < j < |ips|
      ensures BareAddress(ips[i]) == BareAddress(ips[j])
         <==> AddressValue(OctetsOf(ips[i])) == AddressValue(OctetsOf(ips[j]))
    {
      AddressTextsIdentify(ips[i], ips[j]);
    }
    forall i | 0 <= i < |ips|
      ensures InsideOf(BareAddress(ips[i]), plan.podCidr) <==> InRangeBlock(ips[i], plan.podCidr)
      ensures InsideOf(BareAddress(ips[i]), plan.serviceCidr) <==> InRangeBlock(ips[i], plan.serviceCidr)
    {
      if !IsUnset(plan.podCidr) {
        IpInCidrIsMembership(ips[i], plan.podCidr.value);
      }
      if !IsUnset(plan.serviceCidr) {
        IpInCidrIsMembership(ips[i], plan.serviceCidr.value);
      }
    }
  }

  /** With EXTRA_NETWORK set, validation succeeds exactly when the cluster ranges are unset
      or well formed and the identity is sound. */
  lemma {:induction false} AcceptedIffSound(plan: Plan)
    ensures DistinctMacs(PrimaryMacs(plan), 1 + |plan.workerNames|)
            && RangeIsFine(plan.podCidr) && RangeIsFine(plan.serviceCidr)
            && ExtraAccepted(plan, PrimaryMacs(plan))
       <==> RangeIsFine(plan.podCidr) && RangeIsFine(plan.serviceCidr) && SoundIdentity(plan)
  {
    hide DistinctMacs, DistinctMacValues, NewMacs, NewAddresses, DistinctAddressValues;
    var ips := ExtraIps(plan);
    FamiliesTogether(PrimaryMacs(plan), ExtraMacs(plan));
    DistinctTextsAreDistinctValues(AllMacs(plan));
    if RangeIsFine(plan.podCidr) && RangeIsFine(plan.serviceCidr) {
      DistinctAddressesAreValid(ips);
      if ValidCidrs(ips, |ips|) {
        AddressesDecided(plan, ips);
      }
    }
  }

  lemma {:induction false} DistinctAddressesAreValid(ips: seq<string>)
    ensures DistinctAddressValues(ips) ==> ValidCidrs(ips, |ips|)
  {
  }

  /** The three checks in the order `run` makes them. */
  method ValidateIdentity(plan: Plan) returns (r: Result<Option<seq<Net2>>, Error>)
    ensures r.Ok? <==>
      && DistinctMacs(PrimaryMacs(plan), 1 + |plan.workerNames|)
      && RangeIsFine(plan.podCidr) && RangeIsFine(plan.serviceCidr)
      && (if IsUnset(plan.extraNetwork) then NothingExtra(plan) else ExtraAccepted(plan, PrimaryMacs(plan)))
    ensures !IsUnset(plan.extraNetwork) ==>
      (r.Ok? <==> RangeIsFine(plan.podCidr) && RangeIsFine(plan.serviceCidr) && SoundIdentity(plan))
    ensures !IsUnset(plan.extraNetwork) && r.Ok? ==> r.value.Some? && AreNets(plan, r.value.value)
  {
    hide DistinctMacs, RangeIsFine, NothingExtra, Nets, SoundIdentity;
    AcceptedIffSound(plan);
    var primary := ResolvePrimaryMacs(plan);
    if primary.Err? {
      return Err(primary.error);
    }
    if !RangeIsFine(plan.podCidr) || !RangeIsFine(plan.serviceCidr) {
      return Err(RangeMalformed);
    }
    r := ValidateExtraNetwork(plan, primary.value);
  }
}
