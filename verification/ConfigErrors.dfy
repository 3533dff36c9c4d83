/** The error a rejected configuration text gets (hbird-config parser.rs): the lines in front of
    the fault are those of some entries, the fault has one of five forms, and the form decides
    the error, the text it quotes and the line it names. */
module ConfigErrors {
  import opened Text
  import opened ConfigParser
  import opened ConfigGrammar

  // ---- the faults -------------------------------------------------------------------

  /** What is wrong with the line `bad`, in front of the lines `more`. */
  datatype Fault =
    | NoAssignment
    | OpenScalar(space: string, key: string, lead: string, quote: char, rest: string)
    | BehindScalar(space: string, key: string, lead: string, quote: char, value: string, tail: string)
    | OpenArray(space: string, key: string, inner: string)
    | OpenElement(space: string, key: string, inner: string, lines: seq<string>, tail: string,
                  lead: string, elements: seq<Element>, quote: char, rest: string)

  /** Elements behind which a new one may start. */
  predicate AreClosed(es: seq<Element>) {
    AreElements(es) && (es != [] && es[|es| - 1].quote.None? ==> es[|es| - 1].gap != "")
  }

  function Opening(space: string, key: string, rhs: string): string {
    space + (key + ("=" + rhs))
  }

  predicate IsOpening(space: string, key: string) {
    AreBlanks(space) && IsValidKey(key)
  }

  /** - No valid key stands in front of an equals sign.
      - A quoted value is not closed on its line.
      - Something other than white space and a comment is behind the closing quote.
      - No line from here on has a closing parenthesis.
      - An array closes, but a quote in its joined lines does not. */
  ghost predicate IsFault(fault: Fault, bad: string, more: seq<string>) {
    match fault
    case NoAssignment =>
      !IsSkippable(bad) && forall space, key, rhs :: bad == Opening(space, key, rhs) ==> !IsOpening(space, key)
    case OpenScalar(space, key, lead, quote, rest) =>
      && IsOpening(space, key) && AreBlanks(lead) && IsQuote(quote) && quote !in rest
      && bad == Opening(space, key, lead + ([quote] + rest))
    case BehindScalar(space, key, lead, quote, value, tail) =>
      && IsOpening(space, key) && AreBlanks(lead) && IsQuote(quote) && quote !in value && !IsFineTail(tail)
      && bad == Opening(space, key, lead + ([quote] + (value + ([quote] + tail))))
    case OpenArray(space, key, inner) =>
      && IsOpening(space, key) && bad == Opening(space, key, "(" + inner)
      && forall l | l in [inner] + more :: ')' !in l
    case OpenElement(space, key, inner, lines, tail, lead, elements, quote, rest) =>
      && IsOpening(space, key) && IsInside(lines)
      && AreBlanks(lead) && AreClosed(elements) && IsQuote(quote) && quote !in rest
      && JoinedBody(lines) == lead + PrintElements(elements) + ([quote] + rest)
      && IsArrayText(inner, more, lines, tail) && bad == Opening(space, key, "(" + inner)
  }

  /** The error of a fault whose first line is line `line`. */
  function ErrorOf(fault: Fault, bad: string, line: nat): Error
    requires fault.OpenElement? ==> fault.lines != []
  {
    match fault
    case NoAssignment => UnrecognizedLine(line, bad)
    case OpenScalar(_, _, _, _, _) => UnterminatedQuote(line, bad)
    case BehindScalar(_, _, _, _, _, _) => TrailingContent(line, bad)
    case OpenArray(_, key, _) => UnterminatedArray(key, line)
    case OpenElement(_, _, _, lines, _, _, _, _, _) => UnterminatedQuote(line + |lines| - 1, JoinedBody(lines))
  }

  // ---- array bodies with an open quote ----------------------------------------------

  lemma {:induction false} ClosedYields(es: seq<Element>)
    requires AreClosed(es)
    ensures Yields(PrintElements(es), Texts(es))
  {
    hide Yields, IsWhitespace, IsBareText, IsQuote;
    if es == [] {
      YieldsEmpty();
    } else {
      var (e, rest) := (es[0], PrintElements(es[1..]));
      assert IsElement(e);
      OthersAreElements(es);
      ClosedYields(es[1..]);
      if e.quote.Some? {
        QuotedYields(e.quote.value, e.text);
        YieldsNothing(e.gap);
        YieldsBoth(PrintElement(e), [e.text], e.gap, []);
        assert [e.text] + [] == [e.text];
      } else {
        BareYields(e.text, e.gap);
      }
      YieldsBoth(PrintElement(e) + e.gap, [e.text], rest, Texts(es[1..]));
      assert PrintElements(es) == PrintElement(e) + e.gap + rest;
    }
  }

  lemma {:induction false} OpenIsRead(lead: string, es: seq<Element>, quote: char, rest: string)
    requires AreBlanks(lead) && AreClosed(es) && IsQuote(quote) && quote !in rest
    ensures Elements(lead + PrintElements(es) + ([quote] + rest)) == None
  {
    hide Elements, PrintElements, Texts, AreClosed, IsWhitespace, IsQuote;
    var (p, tail) := (PrintElements(es), [quote] + rest);
    ClosedYields(es);
    QuoteFacts(quote);
    assert tail[1..] == rest;
    OpenQuote(tail);
    assert Elements(p + tail) == Concat(Texts(es), Elements(tail));
    BlanksAreSkipped(lead, p + tail);
    assert lead + p + tail == lead + (p + tail);
  }

  /** Every array body that is not read has an open quote behind some elements. */
  lemma {:induction false} OpenIsSpelled(body: string) returns (lead: string, es: seq<Element>, quote: char, rest: string)
    requires Elements(body).None?
    ensures AreBlanks(lead) && AreClosed(es) && IsQuote(quote) && quote !in rest
    ensures body == lead + PrintElements(es) + ([quote] + rest)
    decreases |body|
  {
    hide IsWhitespace, Elements, IsQuote, IsElement, IndexOf, BareLength, PrintElements, IsBareText, AreClosed;
    assert body[0..] == body;
    SomeBody(body);
    if IsWhitespace(body[0]) {
      BlankAt(body, 0);
      lead, es, quote, rest := OpenIsSpelled(body[1..]);
      lead := [body[0]] + lead;
      assert body == [body[0]] + body[1..];
    } else if IsQuote(body[0]) {
      lead := "";
      es, quote, rest := OpenBehindQuoted(body);
    } else {
      lead := "";
      es, quote, rest := OpenBehindBare(body);
    }
    assert "" + PrintElements(es) == PrintElements(es);
  }

  lemma {:induction false} SomeBody(body: string)
    requires Elements(body).None?
    ensures body != ""
  {
  }

  lemma {:induction false} NoElementsClosed()
    ensures AreClosed([]) && PrintElements([]) == ""
  {
  }

  lemma {:induction false} OpenBehindQuoted(body: string) returns (es: seq<Element>, quote: char, rest: string)
    requires Elements(body).None? && body != "" && !IsWhitespace(body[0]) && IsQuote(body[0])
    ensures AreClosed(es) && IsQuote(quote) && quote !in rest && body == PrintElements(es) + ([quote] + rest)
    decreases |body|, 0
  {
    hide IsWhitespace, Elements, IsQuote, BareLength, PrintElements, AreClosed;
    var q, end := body[0], 1 + IndexOf(body[1..], body[0]);
    assert body[0..] == body;
    QuotedAt(body, 0, end);
    if end == |body| {
      NoElementsClosed();
      es, quote, rest := [], q, body[1..];
      assert body == "" + ([q] + body[1..]);
    } else {
      var (text, behind) := (body[1..end], body[end + 1..]);
      QuotedPart(body, text);
      var gap, more;
      gap, more, quote, rest := OpenIsSpelled(behind);
      es := FirstClosed(Element(Some(q), text, gap), more);
      Regrouped([q] + (text + [q]), gap, PrintElements(more), [quote] + rest);
    }
  }

  lemma {:induction false} QuotedPart(body: string, text: string)
    requires body != "" && IndexOf(body[1..], body[0]) < |body| - 1
    requires text == body[1..1 + IndexOf(body[1..], body[0])]
    ensures body[0] !in text
    ensures body == [body[0]] + (text + [body[0]]) + body[2 + IndexOf(body[1..], body[0])..]
  {
    hide IndexOf;
    assert text == body[1..][..IndexOf(body[1..], body[0])];
  }

  lemma {:induction false} Regrouped(a: string, b: string, c: string, d: string)
    ensures a + (b + c + d) == a + (b + c) + d
  {
  }

  lemma {:induction false} OpenBehindBare(body: string) returns (es: seq<Element>, quote: char, rest: string)
    requires Elements(body).None? && body != "" && !IsWhitespace(body[0]) && !IsQuote(body[0])
    ensures AreClosed(es) && IsQuote(quote) && quote !in rest && body == PrintElements(es) + ([quote] + rest)
    decreases |body|, 0
  {
    hide IsWhitespace, Elements, IsQuote, BareLength, PrintElements, AreClosed;
    var n := BareLength(body);
    assert body[0..] == body;
    BareAt(body, 0, n);
    BareLengthProperty(body);
    var (text, behind) := (body[..n], body[n..]);
    assert body[0..n] == text;
    SomeBody(behind);
    var gap, more;
    gap, more, quote, rest := OpenIsSpelled(behind);
    GapBehindBare(behind, gap, more, quote, rest);
    es := FirstClosed(Element(None, text, gap), more);
    assert body == text + behind;
    Regrouped(text, gap, PrintElements(more), [quote] + rest);
  }

  lemma {:induction false} GapBehindBare(behind: string, gap: string, more: seq<Element>, quote: char, rest: string)
    requires behind == gap + PrintElements(more) + ([quote] + rest) && behind != "" && IsWhitespace(behind[0])
    requires AreClosed(more) && IsQuote(quote)
    ensures gap != ""
  {
    hide IsWhitespace, PrintElements, IsQuote;
    QuoteFacts(quote);
    NoElementsClosed();
    if more != [] {
      FirstIsSolid(more);
    }
  }

  lemma {:induction false} FirstClosed(e: Element, more: seq<Element>) returns (es: seq<Element>)
    requires IsElement(e) && AreClosed(more) && (e.quote.None? ==> e.gap != "")
    ensures AreClosed(es) && PrintElements(es) == PrintElement(e) + (e.gap + PrintElements(more))
  {
    hide IsElement, PrintElement;
    es := [e] + more;
    assert es[1..] == more;
    assert forall i :: 0 < i < |es| ==> es[i] == more[i - 1];
  }

  // ---- the lines of an array --------------------------------------------------------

  lemma {:induction false} NeverClosed(key: string, open: nat, acc: string, lines: seq<string>, extra: nat)
    requires forall l | l in lines :: ')' !in l
    ensures ArrayLines(key, open, acc, lines, extra) == Err(UnterminatedArray(key, open))
    decreases |lines|
  {
    hide IsSkippable, IndexOf, ArrayLines;
    if lines == [] {
      NoLinesLeft(key, open, acc, extra);
    } else {
      assert lines == [lines[0]] + lines[1..] && lines[0] in lines;
      OpenLine(key, open, acc, lines[0], lines[1..], extra);
      NeverClosed(key, open, if IsSkippable(lines[0]) then acc else acc + lines[0] + " ", lines[1..], extra + 1);
    }
  }

  lemma {:induction false} NoLinesLeft(key: string, open: nat, acc: string, extra: nat)
    ensures ArrayLines(key, open, acc, [], extra) == Err(UnterminatedArray(key, open))
  {
  }

  /** Lines with a closing parenthesis, cut at the first one. */
  lemma {:induction false} CutAtParenthesis(lines: seq<string>) returns (inside: seq<string>, last: string, tail: string)
    requires exists l :: l in lines && ')' in l
    ensures IsInside(inside + [last]) && |inside| < |lines| && lines[..|inside| + 1] == inside + [last + (")" + tail)]
    decreases |lines|
  {
    if ')' in lines[0] {
      inside := [];
      last, tail := ParenthesisIsClosing(lines[0]);
      assert lines[..1] == [lines[0]];
    } else {
      inside, last, tail := CutAtParenthesis(lines[1..]);
      assert lines[..|inside| + 2] == [lines[0]] + lines[1..][..|inside| + 1];
      assert forall l | l in [lines[0]] + inside + [last] :: l == lines[0] || l in inside + [last];
      inside := [lines[0]] + inside;
    }
  }

  /** What stands behind `key=(` never closes, or closes behind some lines. */
  lemma {:induction false} ArrayTextIsCut(inner: string, more: seq<string>) returns (lines: seq<string>, tail: string)
    requires exists l :: l in [inner] + more && ')' in l
    ensures IsInside(lines) && IsArrayText(inner, more, lines, tail)
  {
    if ')' in inner {
      var l;
      l, tail := ParenthesisIsClosing(inner);
      lines := [l];
    } else {
      var l :| l in [inner] + more && ')' in l;
      assert l in more;
      var inside, last;
      inside, last, tail := CutAtParenthesis(more);
      lines := [inner] + (inside + [last]);
      assert lines[1..|lines| - 1] == inside;
    }
  }

  lemma {:induction false} NeverClosedArray(key: string, line: nat, inner: string, more: seq<string>)
    requires forall l | l in [inner] + more :: ')' !in l
    ensures ParseArray(key, line, inner, more) == Err(UnterminatedArray(key, line))
  {
    hide ArrayLines, IndexOf;
    assert inner in [inner] + more && forall l | l in more :: l in [inner] + more;
    NotFound(inner, ')');
    NeverClosed(key, line, inner + " ", more, 0);
  }

  // ---- a faulty line is rejected ----------------------------------------------------

  /** The step at a line that opens an assignment. */
  lemma {:induction false} OpeningStep(space: string, key: string, rhs: string, more: seq<string>, line: nat)
    requires IsOpening(space, key)
    ensures var bad := Opening(space, key, rhs);
            StepAt([bad] + more, line) == AssignmentAt(key, line, bad, rhs, more)
  {
    hide IsSkippable, IndexOf, IsValidKey, AssignmentAt, TrimStart, AreBlanks;
    AssignmentLine(space, key, rhs);
    var bad := Opening(space, key, rhs);
    assert ([bad] + more)[0] == bad && ([bad] + more)[1..] == more;
  }

  lemma {:induction false} QuotedStep(key: string, line: nat, raw: string, lead: string, quote: char, rest: string,
                                      more: seq<string>)
    requires AreBlanks(lead) && IsQuote(quote)
    ensures AssignmentAt(key, line, raw, lead + ([quote] + rest), more) ==
            match QuotedScalar(line, raw, quote, rest)
            case Ok(v) => Assign(Assignment(key, line, Scalar(v)), 1)
            case Err(e) => Fail(e)
  {
    hide QuotedScalar, ParseArray, ParseScalar, IsWhitespace, IsQuote, AreBlanks;
    QuoteFacts(quote);
    BlankIsNotOpen(lead);
    QuotedRead(line, raw, lead, quote, rest);
    var rhs := lead + ([quote] + rest);
    assert rhs[0] == if lead == "" then quote else lead[0];
  }

  lemma {:induction false} QuotedRead(line: nat, raw: string, lead: string, quote: char, rest: string)
    requires AreBlanks(lead) && IsQuote(quote)
    ensures ParseScalar(line, raw, lead + ([quote] + rest)) == QuotedScalar(line, raw, quote, rest)
  {
    hide QuotedScalar, IsWhitespace, CommentStart, TrimEnd;
    var t := [quote] + rest;
    QuoteFacts(quote);
    assert TrimStart(t) == t && t[1..] == rest;
    assert forall c | c in lead :: IsWhitespace(c);
    hide TrimStart;
    TrimStartSkips(lead, t);
  }

  lemma {:induction false} BlankIsNotOpen(lead: string)
    requires AreBlanks(lead)
    ensures lead != "" ==> lead[0] != '('
  {
  }

  lemma {:induction false} OpenQuoteScalar(line: nat, raw: string, quote: char, rest: string)
    ensures quote !in rest ==> QuotedScalar(line, raw, quote, rest) == Err(UnterminatedQuote(line, raw))
  {
    hide IndexOf, IsFineTail;
  }

  lemma {:induction false} BehindQuoteScalar(line: nat, raw: string, quote: char, value: string, tail: string)
    requires quote !in value && !IsFineTail(tail)
    ensures QuotedScalar(line, raw, quote, value + ([quote] + tail)) == Err(TrailingContent(line, raw))
  {
    hide IndexOf, IsFineTail;
    var q := value + ([quote] + tail);
    assert q == value + [quote] + tail;
    IndexOfAppend(value, quote, tail);
    assert q[|value| + 1..] == tail;
  }

  lemma {:induction false} NoAssignmentFails(bad: string, more: seq<string>, line: nat)
    requires IsFault(NoAssignment, bad, more)
    ensures StepAt([bad] + more, line) == Fail(UnrecognizedLine(line, bad))
  {
    hide IsSkippable, IndexOf, IsValidKey, AssignmentAt, TrimStart, AreBlanks;
    assert ([bad] + more)[0] == bad;
    var t := TrimStart(bad);
    if IndexOf(t, '=') < |t| {
      var space, key, rhs := AroundSign(bad);
      assert bad == Opening(space, key, rhs);
    }
  }

  lemma {:induction false} OpenElementFails(fault: Fault, bad: string, more: seq<string>, line: nat)
    requires fault.OpenElement? && IsFault(fault, bad, more)
    ensures fault.lines != [] && StepAt([bad] + more, line) == Fail(ErrorOf(fault, bad, line))
  {
    hide IsValidKey, AreBlanks, AreClosed, IsQuote, PrintElements, JoinedBody, IsArrayText, ParseArray, Elements, StepAt,
         Opening;
    var OpenElement(space, key, inner, lines, tail, lead, elements, quote, rest) := fault;
    OpeningStep(space, key, "(" + inner, more, line);
    ArrayIsRead(key, line, inner, more, lines, tail);
    OpenIsRead(lead, elements, quote, rest);
    assert ("(" + inner)[1..] == inner;
  }

  /** The step at a faulty line fails with the error of the fault. */
  lemma {:induction false} FaultFails(fault: Fault, bad: string, more: seq<string>, line: nat)
    requires IsFault(fault, bad, more)
    ensures fault.OpenElement? ==> fault.lines != []
    ensures StepAt([bad] + more, line) == Fail(ErrorOf(fault, bad, line))
  {
    hide IsValidKey, AreBlanks, AreClosed, IsQuote, PrintElements, JoinedBody, IsArrayText, ParseArray, ParseScalar,
         QuotedScalar, StepAt, Opening, IsFineTail, IsSkippable;
    match fault
    case NoAssignment => NoAssignmentFails(bad, more, line);
    case OpenScalar(space, key, lead, quote, rest) =>
      OpeningStep(space, key, lead + ([quote] + rest), more, line);
      QuotedStep(key, line, bad, lead, quote, rest, more);
      OpenQuoteScalar(line, bad, quote, rest);
    case BehindScalar(space, key, lead, quote, value, tail) =>
      OpeningStep(space, key, lead + ([quote] + (value + ([quote] + tail))), more, line);
      QuotedStep(key, line, bad, lead, quote, value + ([quote] + tail), more);
      BehindQuoteScalar(line, bad, quote, value, tail);
    case OpenArray(space, key, inner) =>
      OpeningStep(space, key, "(" + inner, more, line);
      NeverClosedArray(key, line, inner, more);
      assert ("(" + inner)[1..] == inner;
    case OpenElement(_, _, _, _, _, _, _, _, _) => OpenElementFails(fault, bad, more, line);
  }

  // ---- a step that fails is at a fault ----------------------------------------------

  lemma {:induction false} ScalarFault(space: string, key: string, rhs: string, bad: string, more: seq<string>, line: nat)
    returns (fault: Fault)
    requires IsOpening(space, key) && bad == Opening(space, key, rhs) && ParseScalar(line, bad, rhs).Err?
    ensures IsFault(fault, bad, more) && !fault.OpenElement? && !fault.OpenArray?
  {
    hide IsWhitespace, IndexOf, IsFineTail, TrimStart, IsValidKey, IsOpening, Opening, IsQuote;
    var lead, quote, rest := QuotedRhs(line, bad, rhs);
    var end := IndexOf(rest, quote);
    if end == |rest| {
      fault := OpenScalar(space, key, lead, quote, rest);
    } else {
      fault := BehindScalar(space, key, lead, quote, rest[..end], rest[end + 1..]);
      assert rest == rest[..end] + ([quote] + rest[end + 1..]);
    }
  }

  lemma {:induction false} QuotedRhs(line: nat, raw: string, rhs: string) returns (lead: string, quote: char, rest: string)
    requires ParseScalar(line, raw, rhs).Err?
    ensures AreBlanks(lead) && IsQuote(quote) && rhs == lead + ([quote] + rest)
    ensures QuotedScalar(line, raw, quote, rest).Err?
  {
    hide IsWhitespace, QuotedScalar, TrimStart, CommentStart, TrimEnd;
    lead := TrimStartSplits(rhs);
    var t := TrimStart(rhs);
    quote, rest := t[0], t[1..];
    assert t == [quote] + rest;
  }

  lemma {:induction false} ArrayFault(space: string, key: string, inner: string, bad: string, more: seq<string>, line: nat)
    returns (fault: Fault)
    requires IsOpening(space, key) && bad == Opening(space, key, "(" + inner) && ParseArray(key, line, inner, more).Err?
    ensures IsFault(fault, bad, more)
  {
    hide IsValidKey, AreBlanks, AreClosed, IsQuote, PrintElements, JoinedBody, IsArrayText, ParseArray, Elements, Opening,
         IsInside;
    if exists l :: l in [inner] + more && ')' in l {
      var lines, tail := ArrayTextIsCut(inner, more);
      InsideIsSome(lines);
      ArrayIsRead(key, line, inner, more, lines, tail);
      var lead, elements, quote, rest := OpenIsSpelled(JoinedBody(lines));
      fault := OpenElement(space, key, inner, lines, tail, lead, elements, quote, rest);
    } else {
      fault := OpenArray(space, key, inner);
    }
  }

  lemma {:induction false} InsideIsSome(lines: seq<string>)
    requires IsInside(lines)
    ensures lines != []
  {
  }

  /** Every step that fails is at a fault. */
  lemma {:induction false} FailureIsFault(lines: seq<string>, line: nat) returns (fault: Fault)
    requires lines != [] && StepAt(lines, line).Fail?
    ensures IsFault(fault, lines[0], lines[1..]) && (fault.OpenElement? ==> fault.lines != [])
    ensures StepAt(lines, line) == Fail(ErrorOf(fault, lines[0], line))
  {
    hide IsSkippable, IndexOf, IsValidKey, ParseArray, ParseScalar, TrimStart, AreBlanks, IsFault, StepAt, ErrorOf;
    var (bad, more) := (lines[0], lines[1..]);
    assert lines == [bad] + more;
    FailingLine(lines, line);
    if space, key, rhs :| bad == Opening(space, key, rhs) && IsOpening(space, key) {
      OpeningStep(space, key, rhs, more, line);
      fault := OpeningFault(space, key, rhs, bad, more, line);
    } else {
      fault := NoAssignment;
      NoOpening(bad, more);
    }
    FaultFails(fault, bad, more, line);
  }

  lemma {:induction false} FailingLine(lines: seq<string>, line: nat)
    requires lines != [] && StepAt(lines, line).Fail?
    ensures !IsSkippable(lines[0])
  {
    hide IsSkippable, IndexOf, IsValidKey, AssignmentAt, TrimStart;
  }

  lemma {:induction false} NoOpening(bad: string, more: seq<string>)
    requires !IsSkippable(bad) && forall space, key, rhs :: bad == Opening(space, key, rhs) ==> !IsOpening(space, key)
    ensures IsFault(NoAssignment, bad, more)
  {
  }

  lemma {:induction false} OpeningFault(space: string, key: string, rhs: string, bad: string, more: seq<string>, line: nat)
    returns (fault: Fault)
    requires IsOpening(space, key) && bad == Opening(space, key, rhs) && AssignmentAt(key, line, bad, rhs, more).Fail?
    ensures IsFault(fault, bad, more)
  {
    hide ParseArray, ParseScalar, IsFault, Opening, IsOpening;
    if rhs != "" && rhs[0] == '(' {
      assert rhs == "(" + rhs[1..];
      fault := ArrayFault(space, key, rhs[1..], bad, more, line);
    } else {
      fault := ScalarFault(space, key, rhs, bad, more, line);
    }
  }

  // ---- whole texts ------------------------------------------------------------------

  /** The lines are those of some entries, then a faulty line, then any lines. */
  ghost predicate FailsAt(lines: seq<string>, entries: seq<Entry>, fault: Fault, bad: string, more: seq<string>) {
    && AreEntries(entries) && lines == PrintEntries(entries) + ([bad] + more) && IsFault(fault, bad, more)
    && (fault.OpenElement? ==> fault.lines != [])
  }

  function ErrorAt(entries: seq<Entry>, fault: Fault, bad: string): Error
    requires AreEntries(entries) && (fault.OpenElement? ==> fault.lines != [])
  {
    ErrorOf(fault, bad, 1 + |PrintEntries(entries)|)
  }

  ghost predicate IsErrorAt(lines: seq<string>, entries: seq<Entry>, fault: Fault, bad: string, more: seq<string>,
                            e: Error)
  {
    FailsAt(lines, entries, fault, bad, more) && e == ErrorAt(entries, fault, bad)
  }

  lemma {:induction false} ScanFails(entries: seq<Entry>, fault: Fault, bad: string, more: seq<string>, lines: seq<string>)
    requires FailsAt(lines, entries, fault, bad, more)
    ensures Scan(lines, 1) == Err(ErrorAt(entries, fault, bad))
  {
    hide IsFault, StepAt, PrintEntries, ErrorOf, AreEntries, Meanings;
    ScanOfFront(entries, [bad] + more, 1);
    FaultFails(fault, bad, more, 1 + |PrintEntries(entries)|);
  }

  lemma {:induction false} FailedIsSpelled(lines: seq<string>, line: nat)
    returns (entries: seq<Entry>, fault: Fault, bad: string, more: seq<string>)
    requires Scan(lines, line).Err?
    ensures FailsAt(lines, entries, fault, bad, more)
    decreases |lines|
  {
    hide IsEntry, StepAt, PrintEntry, PrintEntries, AreEntries, IsFault;
    SomeLines(lines, line);
    if StepAt(lines, line).Fail? {
      NothingPrinted();
      entries, bad, more := [], lines[0], lines[1..];
      fault := FailureIsFault(lines, line);
      assert lines == [] + ([lines[0]] + lines[1..]);
    } else {
      var e := StepIsSpelled(lines, line);
      var n := |PrintEntry(e)|;
      var rest := lines[n..];
      assert lines == PrintEntry(e) + rest;
      EntryIsRead(e, rest, line);
      assert n == 1 ==> lines[1..] == rest;
      entries, fault, bad, more := FailedIsSpelled(rest, line + n);
      PrintedStep(e, entries);
      assert PrintEntry(e) + PrintEntries(entries) + ([bad] + more) == lines;
      entries := [e] + entries;
    }
  }

  lemma {:induction false} SomeLines(lines: seq<string>, line: nat)
    requires Scan(lines, line).Err?
    ensures lines != []
  {
  }

  /** A text is rejected with an error exactly when its lines are those of some entries followed by
      a fault with that error: the first fault is reported, with its own line and text. */
  lemma {:induction false} RejectedIff(input: string, e: Error)
    ensures Tokenize(input) == Err(e) <==>
      exists entries, fault, bad, more :: IsErrorAt(Lines(input), entries, fault, bad, more, e)
  {
    hide FailsAt, ErrorAt, Lines, Tokenize, IsErrorAt, AreEntries;
    if Tokenize(input) == Err(e) {
      var entries, fault, bad, more := RejectedIsSpelled(input);
    }
    forall entries, fault, bad, more | IsErrorAt(Lines(input), entries, fault, bad, more, e)
      ensures Tokenize(input) == Err(e)
    {
      SpelledIsRejected(input, entries, fault, bad, more, e);
    }
  }

  lemma {:induction false} RejectedIsSpelled(input: string)
    returns (entries: seq<Entry>, fault: Fault, bad: string, more: seq<string>)
    requires Tokenize(input).Err?
    ensures IsErrorAt(Lines(input), entries, fault, bad, more, Tokenize(input).error)
  {
    hide FailsAt, ErrorAt, Lines, Scan, TableOf, AreEntries;
    entries, fault, bad, more := FailedIsSpelled(Lines(input), 1);
    ScanFails(entries, fault, bad, more, Lines(input));
  }

  lemma {:induction false} SpelledIsRejected(input: string, entries: seq<Entry>, fault: Fault, bad: string,
                                             more: seq<string>, e: Error)
    requires IsErrorAt(Lines(input), entries, fault, bad, more, e)
    ensures Tokenize(input) == Err(e)
  {
    hide FailsAt, ErrorAt, Lines, Scan, TableOf, AreEntries;
    ScanFails(entries, fault, bad, more, Lines(input));
  }
}
