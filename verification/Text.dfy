/** Strings as the program's standard library sees them: trimming, lines, splitting on a
    character, decimal numbers and byte-wise order. */
module Text {
  datatype Option<+T> = None | Some(value: T)

  datatype Result<+T, +E> = Ok(value: T) | Err(error: E)

  /** `word` in front of the words that are read after it, if those are read. */
  function Prepend(word: string, rest: Option<seq<string>>): Option<seq<string>> {
    match rest
    case None => None
    case Some(words) => Some([word] + words)
  }

  // ---- white space ------------------------------------------------------------------

  /** `char::is_whitespace`: the Unicode White_Space property. */
  predicate IsWhitespace(c: char) {
    || '\U{9}' <= c <= '\U{d}' || c == ' ' || c == '\U{85}' || c == '\U{a0}' || c == '\U{1680}'
    || '\U{2000}' <= c <= '\U{200a}' || c == '\U{2028}' || c == '\U{2029}' || c == '\U{202f}'
    || c == '\U{205f}' || c == '\U{3000}'
  }

  /** The 25 code points of the property. */
  lemma {:induction false} WhitespaceCodePoints(c: char)
    ensures IsWhitespace(c) <==>
      c as int in [0x9, 0xa, 0xb, 0xc, 0xd, 0x20, 0x85, 0xa0, 0x1680, 0x2000, 0x2001, 0x2002, 0x2003, 0x2004, 0x2005,
                   0x2006, 0x2007, 0x2008, 0x2009, 0x200a, 0x2028, 0x2029, 0x202f, 0x205f, 0x3000]
  {
  }

  /** `char::is_ascii_whitespace` */
  predicate IsAsciiWhitespace(c: char) {
    c == ' ' || c == '\t' || c == '\n' || c == '\U{c}' || c == '\r'
  }

  /** `str::trim_start` */
  function TrimStart(s: string): (r: string)
    ensures |r| <= |s| && s[|s| - |r|..] == r
    ensures r == "" || !IsWhitespace(r[0])
    ensures forall i :: 0 <= i < |s| - |r| ==> IsWhitespace(s[i])
  {
    if s != "" && IsWhitespace(s[0]) then TrimStart(s[1..]) else s
  }

  /** `str::trim_end` */
  function TrimEnd(s: string): (r: string)
    ensures |r| <= |s| && s[..|r|] == r
    ensures r == "" || !IsWhitespace(r[|r| - 1])
    ensures forall i :: |r| <= i < |s| ==> IsWhitespace(s[i])
  {
    if s != "" && IsWhitespace(s[|s| - 1]) then TrimEnd(s[..|s| - 1]) else s
  }

  /** `str::trim` */
  function Trim(s: string): string {
    TrimEnd(TrimStart(s))
  }

  predicate IsBlank(s: string) {
    TrimStart(s) == ""
  }

  /** White space in front does not change what is left after trimming. */
  lemma {:induction false} TrimStartSkips(ws: string, s: string)
    requires forall c | c in ws :: IsWhitespace(c)
    ensures TrimStart(ws + s) == TrimStart(s)
  {
    if ws == "" {
      assert ws + s == s;
    } else {
      assert (ws + s)[1..] == ws[1..] + s;
      TrimStartSkips(ws[1..], s);
    }
  }

  /** A text is the white space in front and the rest. */
  lemma {:induction false} TrimStartSplits(s: string) returns (ws: string)
    ensures s == ws + TrimStart(s)
    ensures forall i :: 0 <= i < |ws| ==> IsWhitespace(ws[i])
  {
    hide IsWhitespace, TrimStart;
    ws := s[..|s| - |TrimStart(s)|];
  }

  lemma {:induction false} TrimIsBlank(s: string)
    ensures Trim(s) == "" <==> IsBlank(s)
  {
    var t := TrimStart(s);
    if t != "" {
      assert !IsWhitespace(t[0]);
    }
  }

  /** Trimming removes the white space around a text that has none at its ends. */
  lemma {:induction false} TrimOfIndented(ws: string, s: string)
    requires forall i :: 0 <= i < |ws| ==> IsWhitespace(ws[i])
    requires s != "" && !IsWhitespace(s[0]) && !IsWhitespace(s[|s| - 1])
    ensures Trim(ws + s) == s
  {
    hide IsWhitespace;
    TrimStartSkips(ws, s);
  }

  /** A text without white space is its own trimmed form. */
  lemma {:induction false} TrimOfSolid(s: string)
    requires forall i :: 0 <= i < |s| ==> !IsWhitespace(s[i])
    ensures Trim(s) == s
  {
  }

  // ---- lines ------------------------------------------------------------------------

  /** The first position of `c` in `s`, or the length of `s`. */
  function IndexOf(s: string, c: char): (i: nat)
    ensures i <= |s| && c !in s[..i]
    ensures i < |s| ==> s[i] == c
    ensures i == |s| <==> c !in s
  {
    if s == "" || s[0] == c then 0 else 1 + IndexOf(s[1..], c)
  }

  lemma {:induction false} IndexOfAppend(a: string, c: char, b: string)
    requires c !in a
    ensures IndexOf(a + [c] + b, c) == |a|
  {
    if a == "" {
      assert (a + [c] + b)[0] == c;
    } else {
      assert (a + [c] + b)[1..] == a[1..] + [c] + b;
      IndexOfAppend(a[1..], c, b);
    }
  }

  function WithoutCr(s: string): string {
    if s != "" && s[|s| - 1] == '\r' then s[..|s| - 1] else s
  }

  /** `str::lines`: the terminator, `\n` or `\r\n`, is dropped and a final one starts no line. */
  function Lines(s: string): seq<string>
    decreases |s|
  {
    if s == "" then []
    else
      var i := IndexOf(s, '\n');
      if i == |s| then [s] else [WithoutCr(s[..i])] + Lines(s[i + 1..])
  }

  /** `lines.join("\n")` */
  function JoinLines(lines: seq<string>): string {
    if lines == [] then ""
    else if |lines| == 1 then lines[0]
    else lines[0] + "\n" + JoinLines(lines[1..])
  }

  /** A line as it can stand in a text without carriage returns. */
  predicate PlainLine(s: string) {
    '\n' !in s && '\r' !in s
  }

  lemma {:induction false} LinesOfText(s: string)
    ensures forall l | l in Lines(s) :: '\n' !in l
    ensures s != "" ==> Lines(s) != []
    ensures s != "" && s[|s| - 1] != '\n' ==> Lines(s)[|Lines(s)| - 1] != ""
    decreases |s|
  {
    hide IndexOf, Lines;
    var i := IndexOf(s, '\n');
    if s == "" {
      NoLines();
    } else if i == |s| {
      OneLine(s);
    } else {
      var (line, rest) := (s[..i], s[i + 1..]);
      LinesOfText(rest);
      LinesOfFirst(line, rest);
      assert s == line + ['\n'] + rest;
      if rest != "" {
        assert rest[|rest| - 1] == s[|s| - 1];
      }
    }
  }

  lemma {:induction false} NoLines()
    ensures Lines("") == []
  {
  }

  lemma {:induction false} OneLine(s: string)
    requires s != "" && '\n' !in s
    ensures Lines(s) == [s]
  {
  }

  /** What is read back of joined lines: a line loses a final carriage return where a newline
      follows, and an empty last line disappears where none does. */
  function ReadBack(lines: seq<string>, newline: bool): seq<string>
    requires lines != []
    decreases |lines|
  {
    if |lines| == 1 then if newline then [WithoutCr(lines[0])] else if lines[0] == "" then [] else lines
    else [WithoutCr(lines[0])] + ReadBack(lines[1..], newline)
  }

  lemma {:induction false} LinesOfJoined(lines: seq<string>, newline: bool)
    requires lines != [] && forall l | l in lines :: '\n' !in l
    ensures Lines(JoinLines(lines) + (if newline then "\n" else "")) == ReadBack(lines, newline)
    decreases |lines|
  {
    hide Lines, WithoutCr;
    var tail := if newline then "\n" else "";
    if |lines| == 1 {
      LinesOfLast(lines[0], newline);
      assert lines == [lines[0]];
    } else {
      var rest := JoinLines(lines[1..]) + tail;
      LinesOfJoined(lines[1..], newline);
      LinesOfFirst(lines[0], rest);
      assert JoinLines(lines) + tail == lines[0] + ['\n'] + rest;
    }
  }

  lemma {:induction false} LinesOfLast(line: string, newline: bool)
    requires '\n' !in line
    ensures Lines(line + (if newline then "\n" else "")) == ReadBack([line], newline)
  {
    hide Lines, WithoutCr;
    NoLines();
    assert line + "" == line && line + ['\n'] + "" == line + "\n";
    if newline {
      LinesOfFirst(line, "");
    } else if line != "" {
      OneLine(line);
    }
  }

  lemma {:induction false} ReadBackOfPlain(lines: seq<string>, newline: bool)
    requires lines != [] && forall l | l in lines :: PlainLine(l)
    ensures ReadBack(lines, newline) == if newline || lines[|lines| - 1] != "" then lines else lines[..|lines| - 1]
    decreases |lines|
  {
    hide WithoutCr;
    PlainHasNoCr(lines[0]);
    if |lines| == 1 {
      assert lines == [lines[0]];
    } else {
      ReadBackOfPlain(lines[1..], newline);
      OneMoreLine(lines);
    }
  }

  lemma {:induction false} PlainHasNoCr(line: string)
    requires PlainLine(line)
    ensures WithoutCr(line) == line
  {
  }

  lemma {:induction false} OneMoreLine(lines: seq<string>)
    requires 2 <= |lines|
    ensures var (rest, n) := (lines[1..], |lines|);
            && [lines[0]] + rest == lines && rest[n - 2] == lines[n - 1]
            && [lines[0]] + rest[..n - 2] == lines[..n - 1]
  {
  }

  /** Joining plain lines and splitting again gives the same lines, except that one final
      empty line disappears when the text is not ended by a newline. */
  lemma {:induction false} LinesOfJoin(lines: seq<string>, newline: bool)
    requires lines != [] && forall l | l in lines :: PlainLine(l)
    ensures Lines(JoinLines(lines) + (if newline then "\n" else ""))
         == if newline || lines[|lines| - 1] != "" then lines else lines[..|lines| - 1]
  {
    hide Lines, JoinLines, ReadBack;
    LinesOfJoined(lines, newline);
    ReadBackOfPlain(lines, newline);
  }

  lemma {:induction false} LinesOfFirst(line: string, rest: string)
    requires '\n' !in line
    ensures Lines(line + ['\n'] + rest) == [WithoutCr(line)] + Lines(rest)
  {
    var s := line + ['\n'] + rest;
    IndexOfAppend(line, '\n', rest);
    assert s[..|line|] == line && s[|line| + 1..] == rest;
  }

  // ---- splitting on a character -----------------------------------------------------

  /** `str::split(c)`: the pieces between the occurrences of `c`. */
  function Split(s: string, c: char): (r: seq<string>)
    ensures r != []
    decreases |s|
  {
    var i := IndexOf(s, c);
    if i == |s| then [s] else [s[..i]] + Split(s[i + 1..], c)
  }

  /** The pieces with `c` between them. */
  function JoinWith(pieces: seq<string>, c: char): string
    requires pieces != []
  {
    if |pieces| == 1 then pieces[0] else pieces[0] + [c] + JoinWith(pieces[1..], c)
  }

  lemma {:induction false} SplitFirst(piece: string, c: char, rest: string)
    requires c !in piece
    ensures Split(piece + [c] + rest, c) == [piece] + Split(rest, c)
  {
    var s := piece + [c] + rest;
    IndexOfAppend(piece, c, rest);
    assert s[..|piece|] == piece && s[|piece| + 1..] == rest;
  }

  /** Pieces without the character are what splitting their join gives back. */
  lemma {:induction false} SplitOfJoin(pieces: seq<string>, c: char)
    requires pieces != [] && forall p | p in pieces :: c !in p
    ensures Split(JoinWith(pieces, c), c) == pieces
  {
    if 1 < |pieces| {
      SplitFirst(pieces[0], c, JoinWith(pieces[1..], c));
      SplitOfJoin(pieces[1..], c);
    }
  }

  /** Splitting yields pieces without the character, and joining them restores the text. */
  lemma {:induction false} JoinOfSplit(s: string, c: char)
    ensures forall p | p in Split(s, c) :: c !in p
    ensures JoinWith(Split(s, c), c) == s
    decreases |s|
  {
    hide IndexOf, JoinWith;
    var i := IndexOf(s, c);
    if i < |s| {
      var (piece, rest) := (s[..i], s[i + 1..]);
      JoinOfSplit(rest, c);
      assert s == piece + [c] + rest;
      JoinFirst(piece, Split(rest, c), c);
      assert Split(s, c) == [piece] + Split(rest, c);
      assert forall p | p in Split(s, c) :: p == piece || p in Split(rest, c);
    } else {
      JoinOne(s, c);
    }
  }

  lemma {:induction false} JoinFirst(piece: string, rest: seq<string>, c: char)
    requires rest != []
    ensures JoinWith([piece] + rest, c) == piece + [c] + JoinWith(rest, c)
  {
    assert ([piece] + rest)[1..] == rest;
  }

  lemma {:induction false} JoinOne(piece: string, c: char)
    ensures JoinWith([piece], c) == piece
  {
  }

  // ---- order ------------------------------------------------------------------------

  /** String order: the first differing character decides, and a proper prefix is smaller. */
  predicate Less(a: string, b: string) {
    b != "" && (a == "" || a[0] < b[0] || (a[0] == b[0] && Less(a[1..], b[1..])))
  }

  lemma {:induction false} LessIrreflexive(a: string)
    ensures !Less(a, a)
  {
    if a != "" {
      LessIrreflexive(a[1..]);
    }
  }

  /** Strings of equal length decide; equal ones leave the order to what follows. */
  lemma {:induction false} LessAppend(a: string, b: string, x: string, y: string)
    requires |a| == |b|
    requires Less(a, b) || (a == b && Less(x, y))
    ensures Less(a + x, b + y)
  {
    if a == "" {
      assert a + x == x && b + y == y;
    } else if a[0] == b[0] {
      LessAppend(a[1..], b[1..], x, y);
      assert (a + x)[1..] == a[1..] + x && (b + y)[1..] == b[1..] + y;
    }
  }

  // ---- decimal numbers --------------------------------------------------------------

  predicate IsDigit(c: char) {
    '0' <= c <= '9'
  }

  function Digit(d: int): (c: char)
    requires 0 <= d < 10
    ensures IsDigit(c) && c as int - '0' as int == d
  {
    ('0' as int + d) as char
  }

  function DigitValue(c: char): (d: int)
    requires IsDigit(c)
    ensures 0 <= d < 10 && Digit(d) == c
  {
    c as int - '0' as int
  }

  /** The shortest decimal text of `n`. */
  function Decimal(n: nat): (s: string)
    ensures s != ""
  {
    if n < 10 then [Digit(n)] else Decimal(n / 10) + [Digit(n % 10)]
  }

  predicate AllDigits(s: string) {
    forall i :: 0 <= i < |s| ==> IsDigit(s[i])
  }

  /** The number a string of digits stands for. */
  function NumberOf(s: string): nat
    requires AllDigits(s)
  {
    if s == "" then 0 else 10 * NumberOf(s[..|s| - 1]) + DigitValue(s[|s| - 1])
  }

  /** A decimal text that is the shortest one for its number. */
  predicate IsCanonical(s: string) {
    s != "" && AllDigits(s) && (|s| == 1 || s[0] != '0')
  }

  lemma {:induction false} DecimalIsCanonical(n: nat)
    ensures IsCanonical(Decimal(n)) && NumberOf(Decimal(n)) == n
    ensures 0 < n ==> Decimal(n)[0] != '0'
  {
    if 10 <= n {
      DecimalIsCanonical(n / 10);
      assert Decimal(n)[..|Decimal(n)| - 1] == Decimal(n / 10);
    }
  }

  /** Each number has exactly one canonical text. */
  lemma {:induction false} CanonicalIsDecimal(s: string)
    requires IsCanonical(s)
    ensures Decimal(NumberOf(s)) == s
    ensures 1 < |s| ==> 10 <= NumberOf(s)
  {
    var front, last := s[..|s| - 1], s[|s| - 1];
    if |s| == 1 {
      assert NumberOf(front) == 0;
      assert s == [last];
    } else {
      CanonicalIsDecimal(front);
      FirstDigitCounts(front);
      assert s == front + [last];
      assert NumberOf(s) / 10 == NumberOf(front) && NumberOf(s) % 10 == DigitValue(last);
    }
  }

  lemma {:induction false} FirstDigitCounts(s: string)
    requires AllDigits(s) && s != "" && s[0] != '0'
    ensures 1 <= NumberOf(s)
  {
    if |s| > 1 {
      FirstDigitCounts(s[..|s| - 1]);
    } else {
      assert s[..0] == "" && NumberOf(s[..0]) == 0;
    }
  }

  /** `n` in decimal, padded with zeros on the left to at least `width` characters. */
  function ZeroPadded(n: nat, width: nat): string {
    var s := Decimal(n);
    if |s| < width then seq(width - |s|, _ => '0') + s else s
  }

  function Power10(w: nat): (p: nat)
    ensures 1 <= p
  {
    if w == 0 then 1 else 10 * Power10(w - 1)
  }

  /** The lowest `width` decimal digits of `n`. */
  function FixedDigits(n: nat, width: nat): (s: string)
    ensures |s| == width
  {
    if width == 0 then "" else FixedDigits(n / 10, width - 1) + [Digit(n % 10)]
  }

  lemma {:induction false} FixedDigitsAreDigits(n: nat, width: nat)
    ensures forall i :: 0 <= i < width ==> IsDigit(FixedDigits(n, width)[i])
  {
    if width > 0 {
      FixedDigitsAreDigits(n / 10, width - 1);
    }
  }

  lemma {:induction false} FixedDigitsOfZero(width: nat)
    ensures FixedDigits(0, width) == seq(width, _ => '0')
  {
    if width > 0 {
      FixedDigitsOfZero(width - 1);
    }
  }

  lemma {:induction false} ZeroPaddedIsFixed(n: nat, width: nat)
    requires 0 < width && n < Power10(width)
    ensures ZeroPadded(n, width) == FixedDigits(n, width)
  {
    if n < 10 {
      FixedDigitsOfZero(width - 1);
    } else {
      ZeroPaddedIsFixed(n / 10, width - 1);
    }
  }

  lemma {:induction false} FixedDigitsIncrease(a: nat, b: nat, width: nat)
    requires a < b < Power10(width)
    ensures Less(FixedDigits(a, width), FixedDigits(b, width))
  {
    if a / 10 != b / 10 {
      FixedDigitsIncrease(a / 10, b / 10, width - 1);
    }
    LessAppend(FixedDigits(a / 10, width - 1), FixedDigits(b / 10, width - 1), [Digit(a % 10)], [Digit(b % 10)]);
  }

  lemma {:induction false} LeadingZeros(k: nat, s: string)
    requires AllDigits(s)
    ensures AllDigits(seq(k, _ => '0') + s) && NumberOf(seq(k, _ => '0') + s) == NumberOf(s)
    decreases |s|
  {
    var z := seq(k, _ => '0') + s;
    if s == "" {
      assert z == seq(k, _ => '0');
      ZerosAreZero(k);
    } else {
      LeadingZeros(k, s[..|s| - 1]);
      assert z[..|z| - 1] == seq(k, _ => '0') + s[..|s| - 1];
    }
  }

  lemma {:induction false} ZerosAreZero(k: nat)
    ensures AllDigits(seq(k, _ => '0')) && NumberOf(seq(k, _ => '0')) == 0
  {
    if k > 0 {
      ZerosAreZero(k - 1);
      var z := seq(k, _ => '0');
      assert z[..k - 1] == seq(k - 1, _ => '0');
    }
  }

  // ---- characters one by one --------------------------------------------------------

  const DIGITS := "0123456789"
  const LOWER := "abcdefghijklmnopqrstuvwxyz"
  const UPPER := "ABCDEFGHIJKLMNOPQRSTUVWXYZ"

  lemma {:induction false} DigitsIff(c: char)
    ensures c in DIGITS <==> '0' <= c <= '9'
  {
    if '0' <= c <= '9' {
      assert DIGITS[c as int - '0' as int] == c;
    }
  }

  lemma {:induction false} LowerIff(c: char)
    ensures c in LOWER <==> 'a' <= c <= 'z'
  {
    if 'a' <= c <= 'z' {
      assert LOWER[c as int - 'a' as int] == c;
    }
  }

  lemma {:induction false} UpperIff(c: char)
    ensures c in UPPER <==> 'A' <= c <= 'Z'
  {
    if 'A' <= c <= 'Z' {
      assert UPPER[c as int - 'A' as int] == c;
    }
  }
}
