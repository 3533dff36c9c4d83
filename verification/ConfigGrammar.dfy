/** The language of the configuration tokenizer (hbird-config parser.rs): which texts it
    accepts, and what each of them means.  Entries are spelled out with all their white space,
    quotes and comments; a text is accepted exactly when its lines are those of some entries,
    and then its table is theirs. */
module ConfigGrammar {
  import opened Text
  import opened ConfigParser

  // ---- entries and their text -------------------------------------------------------

  /** An array element, in quotes or bare, and the white space after it. */
  datatype Element = Element(quote: Option<char>, text: string, gap: string)

  datatype ScalarText =
    | Quoted(quote: char, value: string, tail: string)
    | Bare(value: string, gap: string, comment: Option<string>)

  /** `lines` is what stands between the parentheses of an array, line by line. */
  datatype Entry =
    | Skipped(text: string)
    | ScalarEntry(space: string, key: string, lead: string, scalar: ScalarText)
    | ArrayEntry(space: string, key: string, lines: seq<string>, tail: string, lead: string, elements: seq<Element>)

  predicate AreBlanks(s: string) {
    forall i :: 0 <= i < |s| ==> IsWhitespace(s[i])
  }

  /** A bare element has no white space and does not start like a quoted one. */
  predicate IsBareText(s: string) {
    s != "" && !IsQuote(s[0]) && forall i :: 0 <= i < |s| ==> !IsWhitespace(s[i])
  }

  predicate IsElement(e: Element) {
    && AreBlanks(e.gap)
    && match e.quote
       case Some(q) => IsQuote(q) && q !in e.text
       case None => IsBareText(e.text)
  }

  /** Behind a bare element there is white space before the next one. */
  predicate AreElements(es: seq<Element>) {
    forall i :: 0 <= i < |es| ==> IsElement(es[i]) && (es[i].quote.None? && i + 1 < |es| ==> es[i].gap != "")
  }

  /** A quoted value is followed by white space or a comment only.  A bare value has no white
      space at its ends, no quote at its start and no comment inside; a comment after it
      stands behind white space. */
  predicate IsScalarText(x: ScalarText) {
    match x
    case Quoted(quote, value, tail) => IsQuote(quote) && quote !in value && IsFineTail(tail)
    case Bare(value, gap, comment) =>
      && AreBlanks(gap) && (value == "" ==> gap == "")
      && (value != "" ==> !IsWhitespace(value[0]) && !IsWhitespace(value[|value| - 1]) && !IsQuote(value[0]))
      && (forall i :: 0 <= i < |value + gap| ==> !StartsComment(value + gap, i))
      && (comment.Some? && value != "" ==> IsAsciiWhitespace((value + gap)[|value + gap| - 1]))
  }

  function PrintComment(comment: Option<string>): string {
    if comment.Some? then "#" + comment.value else ""
  }

  function PrintScalar(x: ScalarText): string {
    match x
    case Quoted(quote, value, tail) => [quote] + (value + ([quote] + tail))
    case Bare(value, gap, comment) => value + gap + PrintComment(comment)
  }

  function PrintElement(e: Element): string {
    match e.quote
    case Some(q) => [q] + (e.text + [q])
    case None => e.text
  }

  function PrintElements(es: seq<Element>): string {
    if es == [] then "" else PrintElement(es[0]) + (es[0].gap + PrintElements(es[1..]))
  }

  function Texts(es: seq<Element>): (r: seq<string>)
    ensures |r| == |es|
  {
    if es == [] then [] else [es[0].text] + Texts(es[1..])
  }

  /** The lines of an array after the first, joined: a blank or comment line is left out,
      unless it is the last, and each other line is followed by a space. */
  function JoinedRest(lines: seq<string>): string
    requires lines != []
  {
    if |lines| == 1 then lines[0]
    else (if IsSkippable(lines[0]) then "" else lines[0] + " ") + JoinedRest(lines[1..])
  }

  function JoinedBody(lines: seq<string>): string
    requires lines != []
  {
    if |lines| == 1 then lines[0] else lines[0] + " " + JoinedRest(lines[1..])
  }

  predicate IsInside(lines: seq<string>) {
    lines != [] && forall l | l in lines :: ')' !in l
  }

  predicate IsEntry(e: Entry) {
    match e
    case Skipped(text) => IsSkippable(text)
    case ScalarEntry(space, key, lead, scalar) =>
      && AreBlanks(space) && IsValidKey(key) && AreBlanks(lead) && IsScalarText(scalar)
      && (lead + PrintScalar(scalar) == "" || (lead + PrintScalar(scalar))[0] != '(')
    case ArrayEntry(space, key, lines, _, lead, elements) =>
      && AreBlanks(space) && IsValidKey(key) && IsInside(lines) && AreBlanks(lead) && AreElements(elements)
      && JoinedBody(lines) == lead + PrintElements(elements)
  }

  /** The lines of an array whose first line starts with `open`. */
  function PrintArray(open: string, lines: seq<string>, tail: string): (r: seq<string>)
    requires lines != []
    ensures |r| == |lines|
  {
    var n := |lines| - 1;
    if n == 0 then [open + (lines[0] + (")" + tail))]
    else [open + lines[0]] + lines[1..n] + [lines[n] + (")" + tail)]
  }

  function PrintEntry(e: Entry): (r: seq<string>)
    requires IsEntry(e)
    ensures r != []
  {
    match e
    case Skipped(text) => [text]
    case ScalarEntry(space, key, lead, scalar) => [space + (key + ("=" + (lead + PrintScalar(scalar))))]
    case ArrayEntry(space, key, lines, tail, _, _) => PrintArray(space + (key + "=("), lines, tail)
  }

  /** The assignment of an entry that opens on line `line`, if it is one. */
  function Meaning(e: Entry, line: nat): seq<Assignment> {
    match e
    case Skipped(_) => []
    case ScalarEntry(_, key, _, scalar) => [Assignment(key, line, Scalar(scalar.value))]
    case ArrayEntry(_, key, _, _, _, elements) => [Assignment(key, line, Array(Texts(elements)))]
  }

  predicate AreEntries(entries: seq<Entry>) {
    forall i :: 0 <= i < |entries| ==> IsEntry(entries[i])
  }

  function PrintEntries(entries: seq<Entry>): seq<string>
    requires AreEntries(entries)
  {
    if entries == [] then [] else PrintEntry(entries[0]) + PrintEntries(entries[1..])
  }

  /** The assignments of the entries when the first of them opens on line `line`. */
  function Meanings(entries: seq<Entry>, line: nat): seq<Assignment>
    requires AreEntries(entries)
  {
    if entries == [] then []
    else Meaning(entries[0], line) + Meanings(entries[1..], line + |PrintEntry(entries[0])|)
  }

  // ---- what the words of the grammar mean -------------------------------------------

  /** White space up to the end or up to a `#`. */
  predicate IsBlankThenComment(s: string) {
    exists k :: 0 <= k <= |s| && EndsBlank(s, k)
  }

  predicate EndsBlank(s: string, k: nat)
    requires k <= |s|
  {
    AreBlanks(s[..k]) && (k < |s| ==> s[k] == '#')
  }

  /** A line that is skipped, and a tail that may stand behind a closing quote. */
  lemma {:induction false} SkippedIff(s: string)
    ensures IsSkippable(s) <==> IsBlankThenComment(s)
    ensures IsFineTail(s) <==> IsBlankThenComment(s)
  {
    hide IsWhitespace;
    HashIsSolid();
    var k := |s| - |TrimStart(s)|;
    var t := TrimStart(s);
    assert t == s[k..];
    if IsSkippable(s) || IsFineTail(s) {
      assert EndsBlank(s, k);
    }
    if IsBlankThenComment(s) {
      var j :| 0 <= j <= |s| && EndsBlank(s, j);
      assert forall i :: 0 <= i < j ==> IsWhitespace(s[..j][i]) && s[..j][i] == s[i];
      assert j == k;
    }
  }

  /** A key is at most 128 letters, digits and underscores and does not start with a digit. */
  lemma {:induction false} KeyIff(s: string)
    ensures IsValidKey(s) <==>
      0 < |s| <= 128 && s[0] !in DIGITS && forall c | c in s :: c in DIGITS || c in LOWER || c in UPPER || c == '_'
  {
    hide DIGITS, LOWER, UPPER;
    forall c: char
      ensures IsKeyChar(c) <==> c in DIGITS || c in LOWER || c in UPPER || c == '_'
      ensures IsDigit(c) <==> c in DIGITS
    {
      KeyCharIff(c);
    }
    if s != "" {
      KeyStart(s[0]);
    }
    if forall c | c in s :: IsKeyChar(c) {
      assert forall i :: 0 <= i < |s| ==> s[i] in s;
    }
    assert (forall i :: 0 <= i < |s| ==> IsKeyChar(s[i])) <==> forall c | c in s :: IsKeyChar(c);
  }

  lemma {:induction false} KeyStart(c: char)
    ensures IsKeyChar(c) ==> (IsAlpha(c) || c == '_' <==> !IsDigit(c))
  {
  }

  lemma {:induction false} KeyCharIff(c: char)
    ensures IsKeyChar(c) <==> c in DIGITS || c in LOWER || c in UPPER || c == '_'
    ensures IsDigit(c) <==> c in DIGITS
  {
    DigitsIff(c);
    LowerIff(c);
    UpperIff(c);
    hide DIGITS, LOWER, UPPER;
  }

  // ---- array bodies: from elements to what is read ----------------------------------

  /** Wherever `text` stands at the front of an array body, these elements are read from it. */
  ghost predicate Yields(text: string, es: seq<string>) {
    forall rest: string :: Elements(text + rest) == Concat(es, Elements(rest))
  }

  lemma {:induction false} ConcatTwice(a: seq<string>, b: seq<string>, rest: Option<seq<string>>)
    ensures Concat(a, Concat(b, rest)) == Concat(a + b, rest)
  {
    if rest.Some? {
      assert a + (b + rest.value) == a + b + rest.value;
    }
  }

  lemma {:induction false} YieldsBoth(s: string, a: seq<string>, t: string, b: seq<string>)
    requires Yields(s, a) && Yields(t, b)
    ensures Yields(s + t, a + b)
  {
    hide Elements, Concat;
    forall rest: string ensures Elements(s + t + rest) == Concat(a + b, Elements(rest)) {
      assert s + t + rest == s + (t + rest);
      ConcatTwice(a, b, Elements(rest));
    }
  }

  lemma {:induction false} YieldsNothing(s: string)
    requires forall i :: 0 <= i < |s| ==> IsWhitespace(s[i])
    ensures Yields(s, [])
  {
    hide Elements, IsWhitespace;
    forall rest: string ensures Elements(s + rest) == Concat([], Elements(rest)) {
      ConcatLaws([], "", Elements(rest));
      BlanksAreSkipped(s, rest);
    }
  }

  lemma {:induction false} YieldsEmpty()
    ensures Yields("", [])
  {
    YieldsNothing("");
  }

  lemma {:induction false} BlanksAreSkipped(s: string, rest: string)
    requires forall i :: 0 <= i < |s| ==> IsWhitespace(s[i])
    ensures Elements(s + rest) == Elements(rest)
  {
    hide Elements, IsWhitespace;
    if s == "" {
      assert s + rest == rest;
    } else {
      BlanksAreSkipped(s[1..], rest);
      assert (s + rest)[1..] == s[1..] + rest;
      BlankAt(s + rest, 0);
      assert (s + rest)[0..] == s + rest;
    }
  }

  lemma {:induction false} QuotedYields(quote: char, text: string)
    requires IsQuote(quote) && quote !in text
    ensures Yields([quote] + (text + [quote]), [text])
  {
    hide Elements, Concat, IsQuote, Prepend;
    forall rest: string ensures Elements([quote] + (text + [quote]) + rest) == Concat([text], Elements(rest)) {
      ElementInFront(quote, text, rest);
      assert [quote] + (text + [quote]) + rest == [quote] + (text + [quote] + rest);
      ConcatOne(text, Elements(rest));
    }
  }

  /** A bare element is read up to the white space after it. */
  lemma {:induction false} BareYields(text: string, gap: string)
    requires IsBareText(text) && gap != "" && forall i :: 0 <= i < |gap| ==> IsWhitespace(gap[i])
    ensures Yields(text + gap, [text])
  {
    hide Elements, Concat, IsQuote, Prepend, IsWhitespace, IsBareText;
    forall rest: string ensures Elements(text + gap + rest) == Concat([text], Elements(rest)) {
      BareInFront(text, gap, rest);
      BlanksAreSkipped(gap, rest);
      assert text + gap + rest == text + (gap + rest);
      ConcatOne(text, Elements(rest));
    }
  }

  lemma {:induction false} BareInFront(text: string, gap: string, rest: string)
    requires IsBareText(text) && gap != "" && IsWhitespace(gap[0])
    ensures Elements(text + (gap + rest)) == Prepend(text, Elements(gap + rest))
  {
    hide Prepend, IsWhitespace, IndexOf, BareLength, IsQuote;
    var s := text + (gap + rest);
    BareEnds(text, gap + rest);
    assert s[0] == text[0] && s[..|text|] == text && s[|text|..] == gap + rest;
  }

  lemma {:induction false} BareEnds(text: string, rest: string)
    requires forall i :: 0 <= i < |text| ==> !IsWhitespace(text[i])
    requires rest != "" && IsWhitespace(rest[0])
    ensures BareLength(text + rest) == |text|
  {
    hide IsWhitespace;
    if text == "" {
      assert text + rest == rest;
    } else {
      assert (text + rest)[0] == text[0] && (text + rest)[1..] == text[1..] + rest;
      BareEnds(text[1..], rest);
    }
  }

  /** White space at the end of an array body does not matter. */
  lemma {:induction false} TrailingSpace(s: string)
    ensures Elements(s + " ") == Elements(s)
    decreases |s|
  {
    hide IsWhitespace, Prepend, Elements, IndexOf, BareLength, IsQuote;
    var u := s + " ";
    assert u[0..] == u && s[0..] == s;
    if s == "" {
      SpaceIsWhitespace();
      BlankAt(" ", 0);
      assert u == " " && u[1..] == "";
    } else {
      assert u[0] == s[0] && u[1..] == s[1..] + " ";
      if IsWhitespace(s[0]) {
        BlankAt(u, 0);
        BlankAt(s, 0);
        TrailingSpace(s[1..]);
      } else if IsQuote(s[0]) {
        TrailingAfterQuote(s);
      } else {
        TrailingAfterBare(s);
      }
    }
  }

  lemma {:induction false} TrailingAfterQuote(s: string)
    requires s != "" && !IsWhitespace(s[0]) && IsQuote(s[0])
    ensures Elements(s + " ") == Elements(s)
    decreases |s|, 0
  {
    hide IsWhitespace, Prepend, Elements, IndexOf, BareLength, IsQuote;
    var i := IndexOf(s[1..], s[0]);
    if i == |s| - 1 {
      QuoteIsNotSpace(s[0]);
      assert (s + " ")[0] == s[0] && (s + " ")[1..] == s[1..] + " ";
      OpenQuote(s);
      OpenQuote(s + " ");
    } else {
      var (text, rest) := (s[1..][..i], s[1..][i + 1..]);
      assert s == [s[0]] + (text + [s[0]] + rest);
      assert s + " " == [s[0]] + (text + [s[0]] + (rest + " "));
      ElementInFront(s[0], text, rest);
      ElementInFront(s[0], text, rest + " ");
      TrailingSpace(rest);
    }
  }

  /** An open quote stays open. */
  lemma {:induction false} OpenQuote(s: string)
    requires s != "" && !IsWhitespace(s[0]) && IsQuote(s[0]) && s[0] !in s[1..]
    ensures Elements(s) == None
  {
    hide IsWhitespace, Prepend, IndexOf, BareLength, IsQuote;
    NotFound(s[1..], s[0]);
  }

  lemma {:induction false} QuoteIsNotSpace(c: char)
    requires IsQuote(c)
    ensures c != ' '
  {
  }

  lemma {:induction false} TrailingAfterBare(s: string)
    requires s != "" && !IsWhitespace(s[0]) && !IsQuote(s[0])
    ensures Elements(s + " ") == Elements(s)
    decreases |s|, 0
  {
    hide IsWhitespace, Prepend, Elements, IndexOf, BareLength, IsQuote;
    var (u, n) := (s + " ", BareLength(s));
    assert u[0] == s[0] && u[0..] == u && s[0..] == s;
    BareLengthBeforeSpace(s);
    BareAt(s, 0, n);
    BareAt(u, 0, n);
    assert u[0..n] == s[0..n] && u[n..] == s[n..] + " ";
    TrailingSpace(s[n..]);
  }

  lemma {:induction false} BareLengthBeforeSpace(s: string)
    ensures BareLength(s + " ") == BareLength(s)
  {
    hide IsWhitespace;
    SpaceIsWhitespace();
    if s != "" {
      assert (s + " ")[0] == s[0] && (s + " ")[1..] == s[1..] + " ";
      BareLengthBeforeSpace(s[1..]);
    }
  }

  lemma {:induction false} SpaceIsWhitespace()
    ensures IsWhitespace(' ')
  {
  }

  lemma {:induction false} QuoteFacts(quote: char)
    requires IsQuote(quote)
    ensures !IsWhitespace(quote) && quote != '(' && quote != '#' && quote != ')' && quote != '\n' && quote != '\r'
  {
  }

  lemma {:induction false} ElementInFront(quote: char, text: string, rest: string)
    requires IsQuote(quote) && quote !in text
    ensures Elements([quote] + (text + [quote] + rest)) == Prepend(text, Elements(rest))
  {
    hide Prepend, IsWhitespace, IndexOf, BareLength;
    var q := text + [quote] + rest;
    QuoteFacts(quote);
    assert ([quote] + q)[1..] == q;
    IndexOfAppend(text, quote, rest);
    assert q[..|text|] == text && q[|text| + 1..] == rest;
  }

  lemma {:induction false} ConcatOne(e: string, rest: Option<seq<string>>)
    ensures Prepend(e, rest) == Concat([e], rest)
  {
  }

  /** A line of elements yields them once the program has put a space after it. */
  lemma {:induction false} ElementsYield(es: seq<Element>)
    requires AreElements(es)
    ensures Yields(PrintElements(es) + " ", Texts(es))
  {
    hide Yields, IsWhitespace, IsBareText, IsQuote;
    SpaceIsWhitespace();
    if es == [] {
      YieldsNothing(" ");
      assert "" + " " == " ";
    } else {
      var (e, rest) := (es[0], PrintElements(es[1..]) + " ");
      assert IsElement(e);
      OthersAreElements(es);
      ElementsYield(es[1..]);
      if e.quote.Some? {
        QuotedYields(e.quote.value, e.text);
        YieldsNothing(e.gap);
        YieldsBoth(PrintElement(e), [e.text], e.gap, []);
        assert [e.text] + [] == [e.text];
        YieldsBoth(PrintElement(e) + e.gap, [e.text], rest, Texts(es[1..]));
        assert PrintElements(es) + " " == PrintElement(e) + e.gap + rest;
      } else if e.gap != "" {
        BareYields(e.text, e.gap);
        YieldsBoth(e.text + e.gap, [e.text], rest, Texts(es[1..]));
        assert PrintElements(es) + " " == e.text + e.gap + rest;
      } else {
        assert es[1..] == [];
        BareYields(e.text, " ");
        assert PrintElements(es) + " " == e.text + " ";
      }
    }
  }

  lemma {:induction false} OthersAreElements(es: seq<Element>)
    requires AreElements(es) && es != []
    ensures AreElements(es[1..])
  {
    hide IsElement;
    forall i | 0 <= i < |es| - 1
      ensures IsElement(es[1..][i]) && (es[1..][i].quote.None? && i + 1 < |es| - 1 ==> es[1..][i].gap != "")
    {
      assert es[1..][i] == es[i + 1];
    }
  }

  lemma {:induction false} YieldsIsRead(text: string, es: seq<string>)
    requires Yields(text, es)
    ensures Elements(text) == Some(es)
  {
    assert text + "" == text;
    NoElements();
    ConcatDone(es);
  }

  /** An array body made of elements is read as their texts. */
  lemma {:induction false} ElementsAreRead(lead: string, es: seq<Element>)
    requires AreBlanks(lead) && AreElements(es)
    ensures Elements(lead + PrintElements(es)) == Some(Texts(es))
  {
    hide Yields, Elements, PrintElements, Texts, AreElements, IsWhitespace;
    var p := PrintElements(es);
    ElementsYield(es);
    YieldsIsRead(p + " ", Texts(es));
    TrailingSpace(p);
    BlanksAreSkipped(lead, p);
  }

  // ---- array bodies: from what is read to elements ----------------------------------

  /** Every array body that is read consists of elements with those texts. */
  lemma {:induction false} ElementsAreSpelled(body: string) returns (lead: string, es: seq<Element>)
    requires Elements(body).Some?
    ensures AreBlanks(lead) && AreElements(es) && body == lead + PrintElements(es)
    ensures Elements(body) == Some(Texts(es))
    decreases |body|
  {
    hide IsWhitespace, Elements, IsQuote, IsElement, IndexOf, BareLength, PrintElements, Texts, IsBareText;
    assert body[0..] == body;
    if body == "" {
      lead, es := "", [];
      NoElementsSpelled();
    } else if IsWhitespace(body[0]) {
      BlankAt(body, 0);
      lead, es := ElementsAreSpelled(body[1..]);
      lead := [body[0]] + lead;
    } else if IsQuote(body[0]) {
      lead := "";
      es := QuotedIsSpelled(body);
    } else {
      lead := "";
      es := BareIsSpelled(body);
    }
    assert "" + PrintElements(es) == PrintElements(es);
  }

  lemma {:induction false} NoElementsSpelled()
    ensures AreElements([]) && PrintElements([]) == "" && Elements("") == Some(Texts([]))
  {
  }

  lemma {:induction false} QuotedIsSpelled(body: string) returns (es: seq<Element>)
    requires Elements(body).Some? && body != "" && !IsWhitespace(body[0]) && IsQuote(body[0])
    ensures AreElements(es) && body == PrintElements(es) && Elements(body) == Some(Texts(es))
    decreases |body|, 0
  {
    hide IsWhitespace, Elements, IsQuote, IndexOf, BareLength, PrintElements, Texts, AreElements;
    var q, end := body[0], 1 + IndexOf(body[1..], body[0]);
    assert body[0..] == body;
    QuotedAt(body, 0, end);
    var text, rest := body[1..end], body[end + 1..];
    var gap, more := ElementsAreSpelled(rest);
    assert q !in text by {
      assert text == body[1..][..end - 1];
    }
    assert body == [q] + (text + [q]) + rest;
    es := FirstElement(Element(Some(q), text, gap), more);
    assert body == [q] + (text + [q]) + (gap + PrintElements(more));
  }

  lemma {:induction false} BareIsSpelled(body: string) returns (es: seq<Element>)
    requires Elements(body).Some? && body != "" && !IsWhitespace(body[0]) && !IsQuote(body[0])
    ensures AreElements(es) && body == PrintElements(es) && Elements(body) == Some(Texts(es))
    decreases |body|, 0
  {
    hide IsWhitespace, Elements, IsQuote, BareLength, PrintElements, Texts, AreElements;
    var n := BareLength(body);
    assert body[0..] == body;
    BareAt(body, 0, n);
    BareLengthProperty(body);
    var text, rest := body[..n], body[n..];
    var gap, more := ElementsAreSpelled(rest);
    BehindBare(rest, gap, more);
    assert body == text + rest && body[0..n] == text;
    es := FirstElement(Element(None, text, gap), more);
    assert body == text + (gap + PrintElements(more));
  }

  lemma {:induction false} BareLengthProperty(s: string)
    ensures forall i :: 0 <= i < BareLength(s) ==> !IsWhitespace(s[i])
    ensures BareLength(s) < |s| ==> IsWhitespace(s[BareLength(s)])
  {
    hide IsWhitespace;
    if s != "" && !IsWhitespace(s[0]) {
      BareLengthProperty(s[1..]);
    }
  }

  /** The text of an element does not start with white space. */
  lemma {:induction false} FirstIsSolid(es: seq<Element>)
    requires AreElements(es) && es != []
    ensures PrintElements(es) != "" && !IsWhitespace(PrintElements(es)[0])
  {
    hide IsWhitespace, IsQuote;
    var e := es[0];
    assert IsElement(e);
    if e.quote.Some? {
      QuoteFacts(e.quote.value);
    }
    assert PrintElements(es)[0] == PrintElement(e)[0];
  }

  lemma {:induction false} BehindBare(rest: string, gap: string, more: seq<Element>)
    requires rest == gap + PrintElements(more) && AreElements(more) && (rest == "" || IsWhitespace(rest[0]))
    ensures more != [] ==> gap != ""
  {
    hide IsWhitespace, PrintElements, AreElements;
    assert "" + PrintElements(more) == PrintElements(more);
    if more != [] {
      FirstIsSolid(more);
    }
  }

  lemma {:induction false} FirstElement(e: Element, more: seq<Element>) returns (es: seq<Element>)
    requires IsElement(e) && AreElements(more) && (e.quote.None? && more != [] ==> e.gap != "")
    ensures AreElements(es) && PrintElements(es) == PrintElement(e) + (e.gap + PrintElements(more))
    ensures Prepend(e.text, Some(Texts(more))) == Some(Texts(es))
  {
    hide IsElement, PrintElement;
    es := [e] + more;
    assert es[1..] == more;
  }

  // ---- array lines ------------------------------------------------------------------

  /** What is read from an array body that ends on line `line`, the `extra`-th after the first. */
  function BodyRead(body: string, line: nat, extra: nat): Result<(seq<string>, nat), Error> {
    match Elements(body)
    case Some(es) => Ok((es, extra))
    case None => Err(UnterminatedQuote(line, body))
  }

  lemma {:induction false} ClosingLine(key: string, open: nat, acc: string, l: string, rest: seq<string>, extra: nat)
    requires IndexOf(l, ')') < |l|
    ensures ArrayLines(key, open, acc, [l] + rest, extra)
         == BodyRead(acc + l[..IndexOf(l, ')')], open + extra + 1, extra + 1)
  {
    hide Elements, IsSkippable, IndexOf;
    assert ([l] + rest)[0] == l;
  }

  lemma {:induction false} OpenLine(key: string, open: nat, acc: string, l: string, rest: seq<string>, extra: nat)
    requires ')' !in l
    ensures ArrayLines(key, open, acc, [l] + rest, extra)
         == ArrayLines(key, open, if IsSkippable(l) then acc else acc + l + " ", rest, extra + 1)
  {
    hide TokenizeArrayBody, IsSkippable, IndexOf;
    NotFound(l, ')');
    assert ([l] + rest)[0] == l && ([l] + rest)[1..] == rest;
  }

  lemma {:induction false} JoinedCons(l: string, lines: seq<string>)
    requires lines != []
    ensures JoinedRest([l] + lines) == (if IsSkippable(l) then "" else l + " ") + JoinedRest(lines)
  {
    hide IsSkippable;
    assert ([l] + lines)[1..] == lines;
  }

  /** The loop over the lines of an array reads the joined body. */
  lemma {:induction false} ArrayLinesAreRead(key: string, open: nat, acc: string, inside: seq<string>, last: string,
                                             tail: string, rest: seq<string>, extra: nat)
    requires IsInside(inside + [last])
    ensures ArrayLines(key, open, acc, inside + [last + (")" + tail)] + rest, extra)
         == BodyRead(acc + JoinedRest(inside + [last]), open + extra + |inside| + 1, extra + |inside| + 1)
    decreases |inside|
  {
    hide BodyRead, ArrayLines, IsSkippable, Elements, IndexOf, JoinedRest;
    var lines := inside + [last + (")" + tail)] + rest;
    if inside == [] {
      assert inside + [last] == [last] && lines == [last + (")" + tail)] + rest;
      LastIsJoined(last);
      ClosingParenthesis(last, tail);
      ClosingLine(key, open, acc, last + (")" + tail), rest, extra);
    } else {
      var (l, others) := (inside[0], inside[1..]);
      var next := others + [last + (")" + tail)] + rest;
      assert inside + [last] == [l] + (others + [last]) && lines == [l] + next;
      assert l in inside + [last];
      JoinedCons(l, others + [last]);
      OpenLine(key, open, acc, l, next, extra);
      var acc' := if IsSkippable(l) then acc else acc + l + " ";
      AccAndRest(acc, l, JoinedRest(others + [last]));
      ArrayLinesAreRead(key, open, acc', others, last, tail, rest, extra + 1);
    }
  }

  lemma {:induction false} LastIsJoined(last: string)
    ensures JoinedRest([last]) == last
  {
  }

  lemma {:induction false} AccAndRest(acc: string, l: string, rest: string)
    ensures acc + ((if IsSkippable(l) then "" else l + " ") + rest)
         == (if IsSkippable(l) then acc else acc + l + " ") + rest
  {
    hide IsSkippable;
    assert acc + ("" + rest) == acc + rest;
    assert acc + ((l + " ") + rest) == acc + l + " " + rest;
  }

  lemma {:induction false} ClosingParenthesis(l: string, tail: string)
    requires ')' !in l
    ensures var c := l + (")" + tail); IndexOf(c, ')') == |l| < |c| && c[..|l|] == l
  {
    hide IndexOf;
    assert l + (")" + tail) == l + [')'] + tail;
    IndexOfAppend(l, ')', tail);
  }

  lemma {:induction false} ParenthesisIsClosing(c: string) returns (l: string, tail: string)
    requires ')' in c
    ensures ')' !in l && c == l + (")" + tail) && l == c[..IndexOf(c, ')')] && IndexOf(c, ')') < |c|
  {
    var i := IndexOf(c, ')');
    l, tail := c[..i], c[i + 1..];
    assert c == c[..i] + ([c[i]] + c[i + 1..]);
  }

  /** What the loop reads is the joined body of some lines up to a parenthesis. */
  lemma {:induction false} ArrayLinesAreSpelled(key: string, open: nat, acc: string, lines: seq<string>, extra: nat)
    returns (inside: seq<string>, last: string, tail: string)
    requires ArrayLines(key, open, acc, lines, extra).Ok?
    ensures var r := ArrayLines(key, open, acc, lines, extra).value;
            && IsInside(inside + [last]) && |inside| + 1 <= |lines| && r.1 == extra + |inside| + 1
            && lines[..|inside| + 1] == inside + [last + (")" + tail)]
            && Elements(acc + JoinedRest(inside + [last])) == Some(r.0)
    decreases |lines|
  {
    hide IsSkippable, Elements, IndexOf, JoinedRest, ArrayLines;
    SomeLine(key, open, acc, lines, extra);
    var l, next := lines[0], lines[1..];
    assert lines == [l] + next;
    if ')' in l {
      inside := [];
      last, tail := ParenthesisIsClosing(l);
      LastIsJoined(last);
      ClosedHere(key, open, acc, l, next, extra);
      assert inside + [last] == [last];
    } else {
      var acc' := if IsSkippable(l) then acc else acc + l + " ";
      OpenLine(key, open, acc, l, next, extra);
      inside, last, tail := ArrayLinesAreSpelled(key, open, acc', next, extra + 1);
      JoinedCons(l, inside + [last]);
      AccAndRest(acc, l, JoinedRest(inside + [last]));
      assert [l] + inside + [last] == [l] + (inside + [last]);
      assert lines[..|inside| + 2] == [l] + next[..|inside| + 1];
      inside := [l] + inside;
    }
  }

  lemma {:induction false} SomeLine(key: string, open: nat, acc: string, lines: seq<string>, extra: nat)
    requires ArrayLines(key, open, acc, lines, extra).Ok?
    ensures lines != []
  {
  }

  lemma {:induction false} ClosedHere(key: string, open: nat, acc: string, l: string, rest: seq<string>, extra: nat)
    requires ')' in l && ArrayLines(key, open, acc, [l] + rest, extra).Ok?
    ensures IndexOf(l, ')') <= |l| && Elements(acc + l[..IndexOf(l, ')')]).Some?
    ensures ArrayLines(key, open, acc, [l] + rest, extra) == Ok((Elements(acc + l[..IndexOf(l, ')')]).value, extra + 1))
  {
    hide IsSkippable, Elements, IndexOf;
    assert ([l] + rest)[0] == l;
  }

  /** What stands behind `key=(`, on its line and on the lines after it. */
  predicate IsArrayText(inner: string, more: seq<string>, lines: seq<string>, tail: string)
    requires lines != []
  {
    var n := |lines| - 1;
    if n == 0 then inner == lines[0] + (")" + tail)
    else inner == lines[0] && n <= |more| && more[..n] == lines[1..n] + [lines[n] + (")" + tail)]
  }

  lemma {:induction false} ArrayIsRead(key: string, line: nat, inner: string, more: seq<string>, lines: seq<string>,
                                       tail: string)
    requires IsInside(lines) && IsArrayText(inner, more, lines, tail)
    ensures ParseArray(key, line, inner, more) == BodyRead(JoinedBody(lines), line + |lines| - 1, |lines| - 1)
  {
    hide ArrayLines, Elements, IndexOf, JoinedRest, ParseArray, BodyRead, IsInside;
    var n := |lines| - 1;
    InsideLines(lines);
    if n == 0 {
      ClosingParenthesis(lines[0], tail);
      ClosedOnFirst(key, line, inner, more);
    } else {
      OpenOnFirst(key, line, inner, more);
      var (inside, last, rest) := (lines[1..n], lines[n], more[n..]);
      assert lines[1..] == inside + [last];
      assert more == inside + [last + (")" + tail)] + rest;
      ArrayLinesAreRead(key, line, inner + " ", inside, last, tail, rest, 0);
    }
  }

  lemma {:induction false} InsideLines(lines: seq<string>)
    requires IsInside(lines)
    ensures lines != [] && ')' !in lines[0] && (1 < |lines| ==> IsInside(lines[1..]))
  {
  }

  lemma {:induction false} ClosedOnFirst(key: string, line: nat, inner: string, more: seq<string>)
    requires IndexOf(inner, ')') < |inner|
    ensures ParseArray(key, line, inner, more) == BodyRead(inner[..IndexOf(inner, ')')], line, 0)
  {
    hide ArrayLines, Elements, IndexOf;
  }

  lemma {:induction false} OpenOnFirst(key: string, line: nat, inner: string, more: seq<string>)
    requires ')' !in inner
    ensures ParseArray(key, line, inner, more) == ArrayLines(key, line, inner + " ", more, 0)
  {
    hide ArrayLines, TokenizeArrayBody, IndexOf;
    NotFound(inner, ')');
  }

  lemma {:induction false} ArrayIsSpelled(key: string, line: nat, inner: string, more: seq<string>)
    returns (lines: seq<string>, tail: string)
    requires ParseArray(key, line, inner, more).Ok?
    ensures IsInside(lines) && IsArrayText(inner, more, lines, tail)
    ensures Elements(JoinedBody(lines)).Some?
    ensures ParseArray(key, line, inner, more).value == (Elements(JoinedBody(lines)).value, |lines| - 1)
  {
    hide ArrayLines, Elements, IndexOf, JoinedRest;
    if ')' in inner {
      var l;
      l, tail := ParenthesisIsClosing(inner);
      lines := [l];
    } else {
      NotFound(inner, ')');
      var inside, last;
      inside, last, tail := ArrayLinesAreSpelled(key, line, inner + " ", more, 0);
      lines := [inner] + (inside + [last]);
      assert lines[1..] == inside + [last] && lines[1..|lines| - 1] == inside;
    }
  }

  // ---- scalars ----------------------------------------------------------------------

  lemma {:induction false} QuotedIsRead(line: nat, raw: string, quote: char, value: string, tail: string)
    requires IsQuote(quote) && quote !in value && IsFineTail(tail)
    ensures ParseScalar(line, raw, [quote] + (value + ([quote] + tail))) == Ok(value)
  {
    hide IsWhitespace, IsFineTail, IndexOf, QuotedScalar, TrimEnd, CommentStart;
    QuoteFacts(quote);
    var rhs := [quote] + (value + ([quote] + tail));
    assert TrimStart(rhs) == rhs;
    assert rhs[1..] == value + [quote] + tail;
    QuotedTail(line, raw, quote, value, tail);
  }

  lemma {:induction false} QuotedTail(line: nat, raw: string, quote: char, value: string, tail: string)
    requires quote !in value && IsFineTail(tail)
    ensures QuotedScalar(line, raw, quote, value + [quote] + tail) == Ok(value)
  {
    hide IsFineTail, IndexOf;
    var q := value + [quote] + tail;
    IndexOfAppend(value, quote, tail);
    assert q[..|value|] == value && q[|value| + 1..] == tail;
  }

  lemma {:induction false} CommentStartsAt(t: string, i: nat, n: nat)
    requires i <= n <= |t| && (forall k :: i <= k < n ==> !StartsComment(t, k))
    requires n == |t| || StartsComment(t, n)
    ensures CommentStart(t, i) == n
    decreases n - i
  {
    if i < n {
      CommentStartsAt(t, i + 1, n);
    }
  }

  lemma {:induction false} TrimEndOfPadded(value: string, gap: string)
    requires forall i :: 0 <= i < |gap| ==> IsWhitespace(gap[i])
    requires value == "" || !IsWhitespace(value[|value| - 1])
    ensures TrimEnd(value + gap) == value
    decreases |gap|
  {
    hide IsWhitespace;
    if gap == "" {
      assert value + gap == value;
    } else {
      var s := value + gap;
      assert s[|s| - 1] == gap[|gap| - 1] && s[..|s| - 1] == value + gap[..|gap| - 1];
      TrimEndOfPadded(value, gap[..|gap| - 1]);
    }
  }

  lemma {:induction false} HashIsSolid()
    ensures !IsWhitespace('#') && !IsAsciiWhitespace('#') && !IsQuote('#') && '#' != '('
  {
  }

  lemma {:induction false} NotQuoted(c: char)
    requires !IsQuote(c)
    ensures c != '"' && c != '\''
  {
  }

  /** A bare value is read without the white space and the comment after it. */
  lemma {:induction false} BareIsRead(line: nat, raw: string, value: string, gap: string, comment: Option<string>)
    requires IsScalarText(Bare(value, gap, comment))
    ensures var p := PrintScalar(Bare(value, gap, comment));
            TrimStart(p) == p && ParseScalar(line, raw, p) == Ok(value)
  {
    hide IsWhitespace, IsQuote, IsAsciiWhitespace, TrimEnd, CommentStart, QuotedScalar;
    var p, n := PrintScalar(Bare(value, gap, comment)), |value + gap|;
    HashIsSolid();
    assert forall k | 0 <= k < n :: p[k] == (value + gap)[k];
    forall k | 0 <= k < n ensures !StartsComment(p, k) {
      assert !StartsComment(value + gap, k);
    }
    if comment.Some? {
      assert p[n] == '#';
    }
    CommentStartsAt(p, 0, n);
    TrimEndOfPadded(value, gap);
    assert p[..n] == value + gap;
    if value != "" {
      assert p[0] == value[0];
      NotQuoted(value[0]);
    }
    assert p != "" ==> !IsWhitespace(p[0]) && p[0] != '"' && p[0] != '\'';
  }

  lemma {:induction false} ScalarIsRead(line: nat, raw: string, lead: string, x: ScalarText)
    requires AreBlanks(lead) && IsScalarText(x)
    ensures ParseScalar(line, raw, lead + PrintScalar(x)) == Ok(x.value)
  {
    hide IsScalarText, PrintScalar, IsWhitespace, QuotedScalar, TrimEnd, CommentStart, TrimStart;
    var p := PrintScalar(x);
    assert TrimStart(p) == p && ParseScalar(line, raw, p) == Ok(x.value) by {
      match x
      case Quoted(quote, value, tail) => QuotedScalarIsRead(line, raw, quote, value, tail);
      case Bare(value, gap, comment) => BareIsRead(line, raw, value, gap, comment);
    }
    assert forall c | c in lead :: IsWhitespace(c);
    TrimStartSkips(lead, p);
  }

  lemma {:induction false} QuotedScalarIsRead(line: nat, raw: string, quote: char, value: string, tail: string)
    requires IsScalarText(Quoted(quote, value, tail))
    ensures var p := PrintScalar(Quoted(quote, value, tail));
            TrimStart(p) == p && ParseScalar(line, raw, p) == Ok(value)
  {
    hide ParseScalar, IsWhitespace, IsFineTail, IsQuote;
    QuotedIsRead(line, raw, quote, value, tail);
    QuoteFacts(quote);
  }

  /** Every right-hand side that is read as a scalar is the text of one. */
  lemma {:induction false} ScalarIsSpelled(line: nat, raw: string, rhs: string) returns (lead: string, x: ScalarText)
    requires ParseScalar(line, raw, rhs).Ok?
    ensures AreBlanks(lead) && IsScalarText(x) && rhs == lead + PrintScalar(x)
    ensures ParseScalar(line, raw, rhs) == Ok(x.value)
  {
    hide IsWhitespace, IsScalarText, PrintScalar, CommentStart, TrimEnd, TrimStart, QuotedScalar, IsQuote, AreBlanks,
         ParseScalar;
    var t := TrimStart(rhs);
    lead := BlanksInFront(rhs);
    ScalarByStart(line, raw, rhs);
    if t != "" && IsQuote(t[0]) {
      x := QuotedScalarIsSpelled(line, raw, t[0], t[1..]);
      assert t == [t[0]] + t[1..];
    } else {
      x := BareScalarIsSpelled(t);
    }
  }

  lemma {:induction false} BlanksInFront(rhs: string) returns (lead: string)
    ensures AreBlanks(lead) && rhs == lead + TrimStart(rhs)
    ensures TrimStart(rhs) != "" ==> !IsWhitespace(TrimStart(rhs)[0])
  {
    hide IsWhitespace, TrimStart;
    lead := TrimStartSplits(rhs);
  }

  lemma {:induction false} ScalarByStart(line: nat, raw: string, rhs: string)
    ensures var t := TrimStart(rhs);
            ParseScalar(line, raw, rhs) == if t != "" && IsQuote(t[0]) then QuotedScalar(line, raw, t[0], t[1..])
                                           else Ok(TrimEnd(t[..CommentStart(t, 0)]))
  {
    hide IsWhitespace, TrimStart, CommentStart, TrimEnd, QuotedScalar;
  }

  lemma {:induction false} QuotedScalarIsSpelled(line: nat, raw: string, quote: char, rest: string) returns (x: ScalarText)
    requires IsQuote(quote) && QuotedScalar(line, raw, quote, rest).Ok?
    ensures IsScalarText(x) && [quote] + rest == PrintScalar(x) && QuotedScalar(line, raw, quote, rest) == Ok(x.value)
  {
    hide IsFineTail, IndexOf, IsQuote;
    var end := IndexOf(rest, quote);
    x := Quoted(quote, rest[..end], rest[end + 1..]);
    assert rest == rest[..end] + ([quote] + rest[end + 1..]);
  }

  lemma {:induction false} BareScalarIsSpelled(t: string) returns (x: ScalarText)
    requires t == "" || (!IsWhitespace(t[0]) && !IsQuote(t[0]))
    ensures IsScalarText(x) && t == PrintScalar(x) && TrimEnd(t[..CommentStart(t, 0)]) == x.value
  {
    hide IsWhitespace, IsQuote, CommentStart, TrimEnd, IsAsciiWhitespace;
    var c := CommentStart(t, 0);
    CommentStartProperty(t, 0);
    var front, value := t[..c], TrimEnd(t[..c]);
    var gap, comment := front[|value|..], if c < |t| then Some(t[c + 1..]) else None;
    x := Bare(value, gap, comment);
    assert value + gap == front;
    SolidStart(front);
    assert forall i :: 0 <= i < c ==> StartsComment(front, i) == StartsComment(t, i);
    if c < |t| {
      assert t == front + ([t[c]] + t[c + 1..]);
    }
  }

  lemma {:induction false} SolidStart(s: string)
    ensures s != "" && !IsWhitespace(s[0]) ==> TrimEnd(s) != ""
  {
    hide IsWhitespace;
    if s != "" {
      assert TrimEnd(s) == "" ==> IsWhitespace(s[0]);
    }
  }

  lemma {:induction false} CommentStartProperty(t: string, i: nat)
    requires i <= |t|
    ensures forall k :: i <= k < CommentStart(t, i) ==> !StartsComment(t, k)
    ensures CommentStart(t, i) < |t| ==> StartsComment(t, CommentStart(t, i))
    decreases |t| - i
  {
    hide StartsComment;
    if i < |t| && !StartsComment(t, i) {
      CommentStartProperty(t, i + 1);
    }
  }

  // ---- lines ------------------------------------------------------------------------

  lemma {:induction false} SkippableAfterSpace(space: string, s: string)
    requires AreBlanks(space)
    ensures TrimStart(space + s) == TrimStart(s)
    ensures IsSkippable(space + s) <==> IsSkippable(s)
  {
    hide IsWhitespace;
    assert forall c | c in space :: IsWhitespace(c);
    TrimStartSkips(space, s);
  }

  lemma {:induction false} KeyFacts(key: string)
    requires IsValidKey(key)
    ensures key != "" && '=' !in key && !IsWhitespace(key[0]) && key[0] != '#' && PlainLine(key)
  {
    assert forall i :: 0 <= i < |key| ==> IsKeyChar(key[i]);
    forall c | c in key ensures IsKeyChar(c) {
    }
  }

  /** A line that opens an assignment: its key and its right-hand side. */
  lemma {:induction false} AssignmentLine(space: string, key: string, rhs: string)
    requires AreBlanks(space) && IsValidKey(key)
    ensures var (l, t) := (space + (key + ("=" + rhs)), key + ("=" + rhs));
            && TrimStart(l) == t && !IsSkippable(l)
            && IndexOf(t, '=') == |key| && t[..|key|] == key && t[|key| + 1..] == rhs
  {
    hide IsWhitespace, IsValidKey, IndexOf, AreBlanks, PlainLine;
    var t := key + ("=" + rhs);
    KeyFacts(key);
    SkippableAfterSpace(space, t);
    assert t[0] == key[0];
    assert t == key + ['='] + rhs;
    IndexOfAppend(key, '=', rhs);
  }

  /** A line `key=...` whose right-hand side does not open an array. */
  lemma {:induction false} ScalarLine(lines: seq<string>, line: nat, space: string, key: string, rhs: string, v: string)
    requires AreBlanks(space) && IsValidKey(key) && (rhs == "" || rhs[0] != '(')
    requires lines != [] && lines[0] == space + (key + ("=" + rhs))
    requires ParseScalar(line, lines[0], rhs) == Ok(v)
    ensures StepAt(lines, line) == Assign(Assignment(key, line, Scalar(v)), 1)
  {
    hide StepAt, IsWhitespace, IsValidKey, IsSkippable, IndexOf, TrimStart, ParseScalar, ParseArray, AreBlanks;
    AssignmentLine(space, key, rhs);
    ScalarIsAssigned(lines, line, key, rhs, v);
  }

  lemma {:induction false} ScalarIsAssigned(lines: seq<string>, line: nat, key: string, rhs: string, v: string)
    requires lines != [] && !IsSkippable(lines[0]) && IsValidKey(key) && (rhs == "" || rhs[0] != '(')
    requires var t := TrimStart(lines[0]); IndexOf(t, '=') == |key| < |t| && t[..|key|] == key && t[|key| + 1..] == rhs
    requires ParseScalar(line, lines[0], rhs) == Ok(v)
    ensures StepAt(lines, line) == Assign(Assignment(key, line, Scalar(v)), 1)
  {
    hide IsWhitespace, IsValidKey, IsSkippable, IndexOf, TrimStart, ParseScalar, ParseArray;
  }

  lemma {:induction false} ArrayIsAssigned(lines: seq<string>, line: nat, key: string, rhs: string, es: seq<string>, extra: nat)
    requires lines != [] && !IsSkippable(lines[0]) && IsValidKey(key) && rhs != "" && rhs[0] == '('
    requires var t := TrimStart(lines[0]); IndexOf(t, '=') == |key| < |t| && t[..|key|] == key && t[|key| + 1..] == rhs
    requires ParseArray(key, line, rhs[1..], lines[1..]) == Ok((es, extra))
    ensures StepAt(lines, line) == Assign(Assignment(key, line, Array(es)), 1 + extra)
  {
    hide IsWhitespace, IsValidKey, IsSkippable, IndexOf, TrimStart, ParseScalar, ParseArray;
  }

  /** A line `key=(...` with what follows it. */
  lemma {:induction false} ArrayLine(lines: seq<string>, line: nat, space: string, key: string, inner: string,
                                     es: seq<string>, extra: nat)
    requires AreBlanks(space) && IsValidKey(key)
    requires lines != [] && lines[0] == space + (key + ("=" + ("(" + inner)))
    requires ParseArray(key, line, inner, lines[1..]) == Ok((es, extra))
    ensures StepAt(lines, line) == Assign(Assignment(key, line, Array(es)), 1 + extra)
  {
    hide StepAt, IsWhitespace, IsValidKey, IsSkippable, IndexOf, TrimStart, ParseScalar, ParseArray, AreBlanks;
    AssignmentLine(space, key, "(" + inner);
    assert ("(" + inner)[1..] == inner && ("(" + inner)[0] == '(';
    ArrayIsAssigned(lines, line, key, "(" + inner, es, extra);
  }

  /** The step at the first line of an entry takes its lines and has its meaning. */
  lemma {:induction false} EntryIsRead(e: Entry, rest: seq<string>, line: nat)
    requires IsEntry(e)
    ensures var (step, a) := (StepAt(PrintEntry(e) + rest, line), Meaning(e, line));
            if a == [] then step == Skip && |PrintEntry(e)| == 1
            else a == [a[0]] && step == Assign(a[0], |PrintEntry(e)|)
  {
    hide StepAt, IsSkippable, IsScalarText, AreElements, AreBlanks, IsValidKey, PrintScalar, ParseScalar, ParseArray,
         JoinedBody, PrintElements, Elements, PrintArray, IsInside;
    var lines := PrintEntry(e) + rest;
    match e
    case Skipped(text) =>
      SkippedLine(lines, line);
    case ScalarEntry(space, key, lead, scalar) =>
      ScalarIsRead(line, lines[0], lead, scalar);
      ScalarLine(lines, line, space, key, lead + PrintScalar(scalar), scalar.value);
    case ArrayEntry(space, key, inside, tail, lead, elements) =>
      ElementsAreRead(lead, elements);
      var inner := ArrayOpens(space, key, inside, tail, rest);
      ArrayIsRead(key, line, inner, lines[1..], inside, tail);
      ArrayLine(lines, line, space, key, inner, Texts(elements), |inside| - 1);
  }

  lemma {:induction false} SkippedLine(lines: seq<string>, line: nat)
    requires lines != []
    ensures StepAt(lines, line) == Skip <==> IsSkippable(lines[0])
  {
    hide IsSkippable, TrimStart, IndexOf, IsValidKey, ParseArray, ParseScalar;
  }

  lemma {:induction false} ArrayOpens(space: string, key: string, inside: seq<string>, tail: string, rest: seq<string>)
    returns (inner: string)
    requires inside != []
    ensures var lines := PrintArray(space + (key + "=("), inside, tail) + rest;
            && IsArrayText(inner, lines[1..], inside, tail)
            && lines[0] == space + (key + ("=" + ("(" + inner)))
  {
    var n := |inside| - 1;
    var open := space + (key + "=(");
    var lines := PrintArray(open, inside, tail) + rest;
    inner := if n == 0 then inside[0] + (")" + tail) else inside[0];
    assert open + inner == space + (key + ("=" + ("(" + inner)));
    if n > 0 {
      assert lines[1..][..n] == inside[1..n] + [inside[n] + (")" + tail)];
    }
  }

  /** Every step that does not fail is the step at an entry that stands there. */
  lemma {:induction false} StepIsSpelled(lines: seq<string>, line: nat) returns (e: Entry)
    requires lines != [] && !StepAt(lines, line).Fail?
    ensures IsEntry(e) && |PrintEntry(e)| <= |lines| && PrintEntry(e) == lines[..|PrintEntry(e)|]
  {
    hide IsSkippable, IndexOf, IsValidKey, ParseArray, ParseScalar, TrimStart, AreBlanks, AreElements, IsScalarText,
         PrintScalar, PrintElements, Elements, JoinedBody, PrintArray, IsArrayText, IsInside;
    if IsSkippable(lines[0]) {
      e := Skipped(lines[0]);
    } else {
      var space, key, rhs := AssignmentIsSpelled(lines, line);
      if rhs != "" && rhs[0] == '(' {
        var inside, tail := ArrayIsSpelled(key, line, rhs[1..], lines[1..]);
        var lead, elements := ElementsAreSpelled(JoinedBody(inside));
        e := ArrayEntry(space, key, inside, tail, lead, elements);
        assert rhs == "(" + rhs[1..];
        ArrayIsPrinted(lines, space, key, rhs[1..], inside, tail);
      } else {
        var lead, scalar := ScalarIsSpelled(line, lines[0], rhs);
        e := ScalarEntry(space, key, lead, scalar);
        assert lines[..1] == [lines[0]];
      }
    }
  }

  lemma {:induction false} AssignmentIsSpelled(lines: seq<string>, line: nat)
    returns (space: string, key: string, rhs: string)
    requires lines != [] && !StepAt(lines, line).Fail? && !IsSkippable(lines[0])
    ensures AreBlanks(space) && IsValidKey(key) && lines[0] == space + (key + ("=" + rhs))
    ensures StepAt(lines, line) == AssignmentAt(key, line, lines[0], rhs, lines[1..])
  {
    hide *;
    AssignedStep(lines, line);
    space, key, rhs := AroundSign(lines[0]);
  }

  lemma {:induction false} AssignedStep(lines: seq<string>, line: nat)
    requires lines != [] && !StepAt(lines, line).Fail? && !IsSkippable(lines[0])
    ensures var t := TrimStart(lines[0]);
            var eq := IndexOf(t, '=');
            && eq < |t| && IsValidKey(t[..eq])
            && StepAt(lines, line) == AssignmentAt(t[..eq], line, lines[0], t[eq + 1..], lines[1..])
  {
    hide IsSkippable, IndexOf, IsValidKey, AssignmentAt, TrimStart;
  }

  lemma {:induction false} AroundSign(s: string) returns (space: string, key: string, rhs: string)
    requires IndexOf(TrimStart(s), '=') < |TrimStart(s)|
    ensures var t := TrimStart(s); key == t[..IndexOf(t, '=')] && rhs == t[IndexOf(t, '=') + 1..]
    ensures AreBlanks(space) && s == space + (key + ("=" + rhs))
  {
    hide IndexOf, TrimStart, IsWhitespace;
    space := TrimStartSplits(s);
    key, rhs := SplitAt(TrimStart(s), IndexOf(TrimStart(s), '='));
  }

  lemma {:induction false} SplitAt(t: string, i: nat) returns (key: string, rhs: string)
    requires i < |t| && t[i] == '='
    ensures key == t[..i] && rhs == t[i + 1..] && t == key + ("=" + rhs)
  {
    key, rhs := t[..i], t[i + 1..];
  }

  lemma {:induction false} ArrayIsPrinted(lines: seq<string>, space: string, key: string, inner: string,
                                          inside: seq<string>, tail: string)
    requires lines != [] && lines[0] == space + (key + ("=" + ("(" + inner)))
    requires inside != [] && IsArrayText(inner, lines[1..], inside, tail)
    ensures |inside| <= |lines| && PrintArray(space + (key + "=("), inside, tail) == lines[..|inside|]
  {
    var n := |inside| - 1;
    assert lines[0] == space + (key + "=(") + inner;
    if n > 0 {
      assert lines[..n + 1] == [lines[0]] + lines[1..][..n];
    }
  }

  // ---- whole texts ------------------------------------------------------------------

  lemma {:induction false} PrintedStep(e: Entry, more: seq<Entry>)
    requires IsEntry(e) && AreEntries(more)
    ensures AreEntries([e] + more) && PrintEntries([e] + more) == PrintEntry(e) + PrintEntries(more)
    ensures forall line: nat ::
      Meanings([e] + more, line) == Meaning(e, line) + Meanings(more, line + |PrintEntry(e)|)
  {
    hide IsEntry, PrintEntry, Meaning;
    assert ([e] + more)[1..] == more;
  }

  /** Scanning the lines of entries in front of other lines finds their assignments, with the
      lines that open them, and goes on behind them. */
  lemma {:induction false} ScanOfFront(entries: seq<Entry>, rest: seq<string>, line: nat)
    requires AreEntries(entries)
    ensures Scan(PrintEntries(entries) + rest, line)
         == After(Meanings(entries, line), Scan(rest, line + |PrintEntries(entries)|))
  {
    hide IsEntry, StepAt, PrintEntry, Meaning;
    if entries == [] {
      assert PrintEntries(entries) + rest == rest;
      AfterLaws([], Assignment("", 0, Scalar("")), Scan(rest, line));
    } else {
      var (e, others) := (entries[0], PrintEntries(entries[1..]));
      var (lines, n) := (PrintEntry(e) + (others + rest), |PrintEntry(e)|);
      assert PrintEntries(entries) + rest == lines;
      ScanOfFront(entries[1..], rest, line + n);
      EntryIsRead(e, others + rest, line);
      assert lines[n..] == others + rest && (n == 1 ==> lines[1..] == others + rest);
      var more := Meanings(entries[1..], line + n);
      AfterTwice(Meaning(e, line), more, Scan(rest, line + n + |others|));
    }
  }

  lemma {:induction false} AfterTwice(a: seq<Assignment>, b: seq<Assignment>, rest: Result<seq<Assignment>, Error>)
    ensures After(a, After(b, rest)) == After(a + b, rest)
    ensures After([], After(b, rest)) == After(b, rest)
  {
    if rest.Ok? {
      assert a + (b + rest.value) == a + b + rest.value && [] + (b + rest.value) == b + rest.value;
    }
  }

  /** Scanning the lines of entries finds their assignments, with the lines that open them. */
  lemma {:induction false} ScanOfPrinted(entries: seq<Entry>, line: nat)
    requires AreEntries(entries)
    ensures Scan(PrintEntries(entries), line) == Ok(Meanings(entries, line))
  {
    hide IsEntry, PrintEntry, Meaning, PrintEntries, Meanings, StepAt;
    ScanOfFront(entries, [], line);
    assert PrintEntries(entries) + [] == PrintEntries(entries);
    ScanOfNothing(line + |PrintEntries(entries)|);
    AfterDone(Meanings(entries, line));
  }

  /** Lines that are scanned without an error are the lines of some entries. */
  lemma {:induction false} ScannedIsPrinted(lines: seq<string>, line: nat) returns (entries: seq<Entry>)
    requires Scan(lines, line).Ok?
    ensures AreEntries(entries) && PrintEntries(entries) == lines
    decreases |lines|
  {
    hide IsEntry, StepAt, PrintEntry, PrintEntries, AreEntries;
    if lines == [] {
      entries := [];
      NothingPrinted();
    } else {
      var e := StepIsSpelled(lines, line);
      var n := |PrintEntry(e)|;
      var rest := lines[n..];
      assert lines == PrintEntry(e) + rest;
      EntryIsRead(e, rest, line);
      var more := ScannedIsPrinted(rest, line + n);
      PrintedStep(e, more);
      entries := [e] + more;
    }
  }

  lemma {:induction false} NothingPrinted()
    ensures AreEntries([]) && PrintEntries([]) == []
  {
  }

  /** A text whose lines are those of some entries has the table of their assignments. */
  lemma {:induction false} SpelledIsTokenized(input: string, entries: seq<Entry>)
    requires AreEntries(entries) && PrintEntries(entries) == Lines(input)
    ensures Tokenize(input) == Ok(TableOf(Meanings(entries, 1)))
  {
    hide IsEntry, PrintEntry, Meaning, Lines, PrintEntries, Meanings, Scan, TableOf, AreEntries;
    ScanOfPrinted(entries, 1);
  }

  /** A text is accepted exactly when its lines are those of some entries. */
  lemma {:induction false} AcceptedIffSpelled(input: string)
    ensures Tokenize(input).Ok? <==> exists entries :: AreEntries(entries) && PrintEntries(entries) == Lines(input)
  {
    hide AreEntries, PrintEntries, Lines, Scan, TableOf, Meanings;
    if Tokenize(input).Ok? {
      var entries := ScannedIsPrinted(Lines(input), 1);
    }
    forall entries | AreEntries(entries) && PrintEntries(entries) == Lines(input) ensures Tokenize(input).Ok? {
      SpelledIsTokenized(input, entries);
    }
  }

  /** Entries without carriage returns, written one line after the other, are read back. */
  lemma {:induction false} TokenizeOfPrinted(entries: seq<Entry>, newline: bool)
    requires AreEntries(entries) && PrintEntries(entries) != []
    requires forall l | l in PrintEntries(entries) :: PlainLine(l)
    requires newline || PrintEntries(entries)[|PrintEntries(entries)| - 1] != ""
    ensures Tokenize(JoinLines(PrintEntries(entries)) + (if newline then "\n" else ""))
         == Ok(TableOf(Meanings(entries, 1)))
  {
    hide AreEntries, PrintEntries, Lines, JoinLines, Meanings, TableOf, PlainLine, Scan;
    var lines := PrintEntries(entries);
    LinesOfJoin(lines, newline);
    SpelledIsTokenized(JoinLines(lines) + (if newline then "\n" else ""), entries);
  }

  // ---- arrays with whole elements on each line --------------------------------------

  /** A line inside an array that is skipped, or that holds whole elements. */
  datatype BodyLine = SkippedLine(text: string) | ElementsLine(space: string, elements: seq<Element>)

  predicate IsBodyLine(b: BodyLine) {
    match b
    case SkippedLine(text) => IsSkippable(text)
    case ElementsLine(space, es) => AreBlanks(space) && AreElements(es) && !IsSkippable(space + PrintElements(es))
  }

  function PrintBodyLine(b: BodyLine): string {
    match b
    case SkippedLine(text) => text
    case ElementsLine(space, es) => space + PrintElements(es)
  }

  function PrintBody(body: seq<BodyLine>): seq<string> {
    if body == [] then [] else [PrintBodyLine(body[0])] + PrintBody(body[1..])
  }

  function LineTexts(b: BodyLine): seq<string> {
    if b.ElementsLine? then Texts(b.elements) else []
  }

  function BodyTexts(body: seq<BodyLine>): seq<string> {
    if body == [] then [] else LineTexts(body[0]) + BodyTexts(body[1..])
  }

  lemma {:induction false} BodyLineYields(b: BodyLine)
    requires IsBodyLine(b)
    ensures Yields(if IsSkippable(PrintBodyLine(b)) then "" else PrintBodyLine(b) + " ", LineTexts(b))
  {
    hide Yields, AreElements, IsSkippable, PrintElements, Texts;
    if b.SkippedLine? {
      YieldsEmpty();
    } else {
      YieldsNothing(b.space);
      ElementsYield(b.elements);
      YieldsBoth(b.space, [], PrintElements(b.elements) + " ", Texts(b.elements));
      assert b.space + (PrintElements(b.elements) + " ") == b.space + PrintElements(b.elements) + " ";
      assert [] + Texts(b.elements) == Texts(b.elements);
    }
  }

  lemma {:induction false} BodyYields(acc: string, es: seq<string>, body: seq<BodyLine>, last: seq<Element>)
    requires Yields(acc, es) && AreElements(last) && forall i :: 0 <= i < |body| ==> IsBodyLine(body[i])
    ensures Elements(acc + JoinedRest(PrintBody(body) + [PrintElements(last)]))
         == Some(es + BodyTexts(body) + Texts(last))
    decreases |body|
  {
    hide Yields, Elements, JoinedRest, PrintElements, IsBodyLine, AreElements, Texts, LineTexts, PrintBodyLine, IsSkippable;
    var p := PrintElements(last);
    if body == [] {
      LastIsJoined(p);
      assert PrintBody(body) + [p] == [p] && es + [] + Texts(last) == es + Texts(last);
      ElementsYield(last);
      YieldsBoth(acc, es, p + " ", Texts(last));
      assert acc + (p + " ") == acc + p + " ";
      YieldsIsRead(acc + p + " ", es + Texts(last));
      TrailingSpace(acc + p);
    } else {
      var l, more := PrintBodyLine(body[0]), PrintBody(body[1..]) + [p];
      assert PrintBody(body) + [p] == [l] + more;
      JoinedCons(l, more);
      BodyLineYields(body[0]);
      var shown := if IsSkippable(l) then "" else l + " ";
      YieldsBoth(acc, es, shown, LineTexts(body[0]));
      assert acc + (shown + JoinedRest(more)) == acc + shown + JoinedRest(more);
      assert es + LineTexts(body[0]) + BodyTexts(body[1..]) == es + BodyTexts(body);
      BodyYields(acc + shown, es + LineTexts(body[0]), body[1..], last);
    }
  }

  /** An array that is spread over lines has the elements of its lines, one after the other. */
  lemma {:induction false} SpreadArray(first: seq<Element>, body: seq<BodyLine>, last: seq<Element>)
    requires AreElements(first) && AreElements(last) && forall i :: 0 <= i < |body| ==> IsBodyLine(body[i])
    ensures Elements(JoinedBody([PrintElements(first)] + (PrintBody(body) + [PrintElements(last)])))
         == Some(Texts(first) + BodyTexts(body) + Texts(last))
  {
    hide Yields, Elements, JoinedRest, PrintElements, IsBodyLine, AreElements, Texts, BodyTexts, PrintBody;
    var p, more := PrintElements(first), PrintBody(body) + [PrintElements(last)];
    ElementsYield(first);
    assert ([p] + more)[1..] == more;
    BodyYields(p + " ", Texts(first), body, last);
  }

  predicate IsLastOf(assignments: seq<Assignment>, key: string, i: nat)
    requires i < |assignments|
  {
    assignments[i].key == key && forall j :: i < j < |assignments| ==> assignments[j].key != key
  }

  /** In the table each key has the value and the line of its last assignment. */
  lemma {:induction false} LastAssignmentWins(assignments: seq<Assignment>, key: string)
    ensures key in TableOf(assignments) <==> exists i :: 0 <= i < |assignments| && IsLastOf(assignments, key, i)
    ensures forall i :: 0 <= i < |assignments| && IsLastOf(assignments, key, i) ==>
              key in TableOf(assignments) && TableOf(assignments)[key] == (assignments[i].line, assignments[i].value)
    decreases |assignments|
  {
    hide IsLastOf;
    if assignments != [] {
      var n := |assignments| - 1;
      var front := assignments[..n];
      LastAssignmentWins(front, key);
      forall i | 0 <= i < |assignments|
        ensures IsLastOf(assignments, key, i) <==>
          if assignments[n].key == key then i == n else i < n && IsLastOf(front, key, i)
      {
        LastOfOneMore(assignments, key, i);
      }
      if assignments[n].key == key {
        assert IsLastOf(assignments, key, n);
      } else if key in TableOf(front) {
        var i :| 0 <= i < |front| && IsLastOf(front, key, i);
        assert IsLastOf(assignments, key, i);
      }
    }
  }

  lemma {:induction false} LastOfOneMore(assignments: seq<Assignment>, key: string, i: nat)
    requires i < |assignments|
    ensures var n := |assignments| - 1;
            IsLastOf(assignments, key, i) <==>
              if assignments[n].key == key then i == n else i < n && IsLastOf(assignments[..n], key, i)
  {
    var n := |assignments| - 1;
    assert forall j :: 0 <= j < n ==> assignments[..n][j] == assignments[j];
  }
}
