/** The names the etcd commands build from the clock: `format_utc_timestamp` for snapshots
    and kept data directories, `rotation_key_name` for encryption keys (commands/etcd.rs). */
module Timestamps {
  import opened Text
  import opened Calendar

  /** The last second of the year 9999. */
  const LAST_FOUR_DIGIT_SECOND := 253402300799

  function TimePart(c: Civil): string
    requires Valid(c)
  {
    ZeroPadded(c.hour, 2) + (ZeroPadded(c.minute, 2) + ZeroPadded(c.second, 2))
  }

  function DatePart(c: Civil): string
    requires Valid(c)
  {
    ZeroPadded(c.year, 4) + (ZeroPadded(c.month, 2) + ZeroPadded(c.day, 2))
  }

  /** `format_utc_timestamp` */
  function FormatUtcTimestamp(secs: u64): string {
    CivilFromEpochCorrect(secs);
    var c := CivilFromEpoch(secs);
    DatePart(c) + ("T" + (TimePart(c) + "Z"))
  }

  /** `rotation_key_name` */
  function RotationKeyName(secs: u64): string {
    CivilFromEpochCorrect(secs);
    var c := CivilFromEpoch(secs);
    "key-" + (DatePart(c) + TimePart(c))
  }

  lemma {:induction false} LastSecond(c: Civil)
    requires Valid(c) && Seconds(c) <= LAST_FOUR_DIGIT_SECOND
    ensures c.year <= 9999
  {
    if 10000 <= c.year {
      DaysBeforeYearClosed(10000);
      assert DaysBeforeYear(10000) == 2932897;
      if 10000 < c.year {
        YearsIncrease(10000, c.year);
      }
      DaysBeforeMonthNonnegative(c.year, c.month);
    }
  }

  /** Two digits for each field below the year, four for the year. */
  lemma {:induction false} PartsAreFixed(c: Civil)
    requires Valid(c) && c.year <= 9999
    ensures DatePart(c) == FixedDigits(c.year, 4) + (FixedDigits(c.month, 2) + FixedDigits(c.day, 2))
    ensures TimePart(c) == FixedDigits(c.hour, 2) + (FixedDigits(c.minute, 2) + FixedDigits(c.second, 2))
    ensures |DatePart(c)| == 8 && |TimePart(c)| == 6
  {
    assert Power10(1) == 10 && Power10(2) == 100 && Power10(3) == 1000 && Power10(4) == 10000;
    ZeroPaddedIsFixed(c.year, 4);
    ZeroPaddedIsFixed(c.month, 2);
    ZeroPaddedIsFixed(c.day, 2);
    ZeroPaddedIsFixed(c.hour, 2);
    ZeroPaddedIsFixed(c.minute, 2);
    ZeroPaddedIsFixed(c.second, 2);
  }

  /** Three parts of equal lengths compare part by part. */
  lemma {:induction false} ThreeParts(a: string, a': string, a'': string, b: string, b': string, b'': string)
    requires |a| == |b| && |a'| == |b'|
    requires Less(a, b) || (a == b && (Less(a', b') || (a' == b' && Less(a'', b''))))
    ensures Less(a + (a' + a''), b + (b' + b''))
  {
    if !Less(a, b) {
      LessAppend(a', b', a'', b'');
    }
    LessAppend(a, b, a' + a'', b' + b'');
  }

  lemma {:induction false} ThreeFields(a: nat, a': nat, a'': nat, b: nat, b': nat, b'': nat, width: nat, w: nat)
    requires a < Power10(width) && b < Power10(width)
    requires a' < Power10(w) && b' < Power10(w) && a'' < Power10(w) && b'' < Power10(w)
    requires a < b || (a == b && (a' < b' || (a' == b' && a'' < b'')))
    ensures Less(FixedDigits(a, width) + (FixedDigits(a', w) + FixedDigits(a'', w)),
                 FixedDigits(b, width) + (FixedDigits(b', w) + FixedDigits(b'', w)))
  {
    if a < b {
      FixedDigitsIncrease(a, b, width);
    } else if a' < b' {
      FixedDigitsIncrease(a', b', w);
    } else {
      FixedDigitsIncrease(a'', b'', w);
    }
    ThreeParts(FixedDigits(a, width), FixedDigits(a', w), FixedDigits(a'', w),
               FixedDigits(b, width), FixedDigits(b', w), FixedDigits(b'', w));
  }

  /** The date parts decide, and equal date parts leave it to the time parts. */
  lemma {:induction false} PartsOrder(a: Civil, b: Civil)
    requires Valid(a) && Valid(b) && a.year <= 9999 && b.year <= 9999 && Before(a, b)
    ensures Less(DatePart(a), DatePart(b)) || (DatePart(a) == DatePart(b) && Less(TimePart(a), TimePart(b)))
  {
    PartsAreFixed(a);
    PartsAreFixed(b);
    assert Power10(1) == 10 && Power10(2) == 100 && Power10(3) == 1000 && Power10(4) == 10000;
    if DateBefore(a.year, a.month, a.day, b.year, b.month, b.day) {
      ThreeFields(a.year, a.month, a.day, b.year, b.month, b.day, 4, 2);
    } else {
      ThreeFields(a.hour, a.minute, a.second, b.hour, b.minute, b.second, 2, 2);
    }
  }

  lemma {:induction false} FourDigitYear(secs: u64)
    requires secs <= LAST_FOUR_DIGIT_SECOND
    ensures Valid(CivilFromEpoch(secs)) && CivilFromEpoch(secs).year <= 9999
  {
    CivilFromEpochCorrect(secs);
    LastSecond(CivilFromEpoch(secs));
  }

  /** The same text before, between and after the two parts keeps their order. */
  lemma {:induction false} AssembledOrder(d1: string, t1: string, d2: string, t2: string, sep: string, end: string)
    requires |d1| == |d2| && |t1| == |t2|
    requires Less(d1, d2) || (d1 == d2 && Less(t1, t2))
    ensures Less(d1 + (sep + (t1 + end)), d2 + (sep + (t2 + end)))
  {
    var x, y := t1 + end, t2 + end;
    var x', y' := sep + x, sep + y;
    if !Less(d1, d2) {
      LessAppend(t1, t2, end, end);
      LessAppend(sep, sep, x, y);
    }
    LessAppend(d1, d2, x', y');
  }

  lemma {:induction false} PrefixedOrder(prefix: string, d1: string, t1: string, d2: string, t2: string)
    requires |d1| == |d2| && |t1| == |t2|
    requires Less(d1, d2) || (d1 == d2 && Less(t1, t2))
    ensures Less(prefix + (d1 + t1), prefix + (d2 + t2))
  {
    LessAppend(d1, d2, t1, t2);
    LessAppend(prefix, prefix, d1 + t1, d2 + t2);
  }

  /** Through the year 9999 both names have a fixed width and later seconds give
      larger names. */
  lemma {:induction false} NamesIncrease(s1: u64, s2: u64)
    requires s1 < s2 <= LAST_FOUR_DIGIT_SECOND
    ensures |FormatUtcTimestamp(s1)| == |FormatUtcTimestamp(s2)| == 16
    ensures |RotationKeyName(s1)| == |RotationKeyName(s2)| == 18
    ensures Less(FormatUtcTimestamp(s1), FormatUtcTimestamp(s2))
    ensures Less(RotationKeyName(s1), RotationKeyName(s2))
  {
    FourDigitYear(s1);
    FourDigitYear(s2);
    var a, b := CivilFromEpoch(s1), CivilFromEpoch(s2);
    CivilFromEpochIncreases(s1, s2);
    PartsAreFixed(a);
    PartsAreFixed(b);
    PartsOrder(a, b);
    AssembledOrder(DatePart(a), TimePart(a), DatePart(b), TimePart(b), "T", "Z");
    PrefixedOrder("key-", DatePart(a), TimePart(a), DatePart(b), TimePart(b));
  }

  /** Different seconds through the year 9999 give different names. */
  lemma {:induction false} NamesDistinct(s1: u64, s2: u64)
    requires s1 != s2 && s1 <= LAST_FOUR_DIGIT_SECOND && s2 <= LAST_FOUR_DIGIT_SECOND
    ensures FormatUtcTimestamp(s1) != FormatUtcTimestamp(s2)
    ensures RotationKeyName(s1) != RotationKeyName(s2)
  {
    NamesIncrease(if s1 < s2 then s1 else s2, if s1 < s2 then s2 else s1);
    LessIrreflexive(FormatUtcTimestamp(s1));
    LessIrreflexive(RotationKeyName(s1));
  }

  // ---- what the texts say -----------------------------------------------------------

  /** The text is digits and stands for `n`. */
  predicate Says(s: string, n: int) {
    AllDigits(s) && NumberOf(s) == n
  }

  lemma {:induction false} PaddedSays(n: nat, width: nat)
    ensures Says(ZeroPadded(n, width), n) && width <= |ZeroPadded(n, width)|
    ensures 0 < width && n < Power10(width) ==> |ZeroPadded(n, width)| == width
  {
    hide NumberOf, Decimal, FixedDigits;
    DecimalIsCanonical(n);
    if |Decimal(n)| < width {
      LeadingZeros(width - |Decimal(n)|, Decimal(n));
    }
    if 0 < width && n < Power10(width) {
      ZeroPaddedIsFixed(n, width);
    }
  }

  lemma {:induction false} TwoDigits(c: Civil)
    requires Valid(c)
    ensures Says(ZeroPadded(c.month, 2), c.month) && |ZeroPadded(c.month, 2)| == 2
    ensures Says(ZeroPadded(c.day, 2), c.day) && |ZeroPadded(c.day, 2)| == 2
    ensures Says(ZeroPadded(c.hour, 2), c.hour) && |ZeroPadded(c.hour, 2)| == 2
    ensures Says(ZeroPadded(c.minute, 2), c.minute) && |ZeroPadded(c.minute, 2)| == 2
    ensures Says(ZeroPadded(c.second, 2), c.second) && |ZeroPadded(c.second, 2)| == 2
  {
    hide Says, ZeroPadded;
    assert Power10(2) == 100;
    PaddedSays(c.month, 2);
    PaddedSays(c.day, 2);
    PaddedSays(c.hour, 2);
    PaddedSays(c.minute, 2);
    PaddedSays(c.second, 2);
  }

  /** The date in `s` from `at`, with `y` digits for the year. */
  predicate SaysDate(s: string, at: nat, y: nat, c: Civil)
    requires at + y + 4 <= |s|
  {
    var m := at + y;
    Says(s[at..m], c.year) && Says(s[m..m + 2], c.month) && Says(s[m + 2..m + 4], c.day)
  }

  predicate SaysTime(s: string, at: nat, c: Civil)
    requires at + 6 <= |s|
  {
    Says(s[at..at + 2], c.hour) && Says(s[at + 2..at + 4], c.minute) && Says(s[at + 4..at + 6], c.second)
  }

  lemma {:induction false} PartsSay(c: Civil, before: string, between: string, behind: string)
    requires Valid(c)
    ensures var (y, s) := (|ZeroPadded(c.year, 4)|, before + DatePart(c) + between + TimePart(c) + behind);
            && |s| == |before| + y + 4 + |between| + 6 + |behind| && 4 <= y && (c.year <= 9999 ==> y == 4)
            && s[..|before|] == before && s[|s| - |behind|..] == behind
            && s[|before| + y + 4..|before| + y + 4 + |between|] == between
            && SaysDate(s, |before|, y, c) && SaysTime(s, |before| + y + 4 + |between|, c)
  {
    hide Says, ZeroPadded;
    assert Power10(4) == 10000;
    PaddedSays(c.year, 4);
    TwoDigits(c);
    var s := before + DatePart(c) + between + TimePart(c) + behind;
    var (y, at) := (|ZeroPadded(c.year, 4)|, |before|);
    assert s[at..at + y] == ZeroPadded(c.year, 4);
    assert s[at + y..at + y + 2] == ZeroPadded(c.month, 2);
    assert s[at + y + 2..at + y + 4] == ZeroPadded(c.day, 2);
    var u := at + y + 4 + |between|;
    assert s[u..u + 2] == ZeroPadded(c.hour, 2);
    assert s[u + 2..u + 4] == ZeroPadded(c.minute, 2);
    assert s[u + 4..u + 6] == ZeroPadded(c.second, 2);
  }

  lemma {:induction false} Regrouped(d: string, t: string)
    ensures "" + d + "T" + t + "Z" == d + ("T" + (t + "Z"))
    ensures "key-" + d + "" + t + "" == "key-" + (d + t)
  {
    assert "" + d == d && "key-" + d + "" == "key-" + d && "key-" + d + t + "" == "key-" + d + t;
  }

  /** For every second, both names spell the date and time with that second count: at least four
      digits for the year and two for each other field, with `T` between date and time and `Z` at
      the end of a timestamp, and `key-` in front of a key name. */
  lemma {:induction false} NamesSayTheTime(secs: u64) returns (c: Civil, y: nat)
    ensures Valid(c) && Seconds(c) == secs && 4 <= y && (secs <= LAST_FOUR_DIGIT_SECOND ==> y == 4)
    ensures var s := FormatUtcTimestamp(secs);
            |s| == y + 12 && SaysDate(s, 0, y, c) && s[y + 4] == 'T' && SaysTime(s, y + 5, c) && s[y + 11] == 'Z'
    ensures var k := RotationKeyName(secs);
            |k| == y + 14 && "key-" <= k && SaysDate(k, 4, y, c) && SaysTime(k, y + 8, c)
  {
    hide DatePart, TimePart, SaysDate, SaysTime, ZeroPadded, Seconds, CivilFromEpoch;
    CivilFromEpochCorrect(secs);
    c := CivilFromEpoch(secs);
    y := |ZeroPadded(c.year, 4)|;
    if secs <= LAST_FOUR_DIGIT_SECOND {
      LastSecond(c);
    }
    PartsSay(c, "", "T", "Z");
    PartsSay(c, "key-", "", "");
    Regrouped(DatePart(c), TimePart(c));
    var s := FormatUtcTimestamp(secs);
    assert s[y + 4] == s[y + 4..y + 5][0] && s[y + 11] == s[|s| - 1..][0];
  }
}
