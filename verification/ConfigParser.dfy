/** The tokenizer of cluster configuration files (hbird-config parser.rs): lines, scalars,
    arrays over one or more lines.  The functions state what each loop computes; which texts
    that accepts, and with what meaning, is in `ConfigGrammar`. */
module ConfigParser {
  import opened Text

  datatype Value = Scalar(text: string) | Array(elements: seq<string>)

  datatype Error =
    | UnrecognizedLine(line: nat, raw: string)
    | UnterminatedQuote(line: nat, raw: string)
    | TrailingContent(line: nat, raw: string)
    | UnterminatedArray(key: string, line: nat)

  const MAX_KEY_LEN := 128

  predicate IsAlpha(c: char) {
    'a' <= c <= 'z' || 'A' <= c <= 'Z'
  }

  predicate IsKeyChar(c: char) {
    IsAlpha(c) || IsDigit(c) || c == '_'
  }

  /** `is_valid_key` */
  predicate IsValidKey(s: string) {
    && s != "" && |s| <= MAX_KEY_LEN
    && (IsAlpha(s[0]) || s[0] == '_')
    && forall i :: 0 <= i < |s| ==> IsKeyChar(s[i])
  }

  // ---- scalars ----------------------------------------------------------------------

  predicate StartsComment(s: string, i: nat)
    requires i < |s|
  {
    s[i] == '#' && (i == 0 || IsAsciiWhitespace(s[i - 1]))
  }

  /** Where the comment that ends a bare scalar starts, from `i` on. */
  function CommentStart(s: string, i: nat): (r: nat)
    requires i <= |s|
    ensures i <= r <= |s|
    decreases |s| - i
  {
    if i == |s| || StartsComment(s, i) then i else CommentStart(s, i + 1)
  }

  /** `strip_trailing_comment` */
  method StripTrailingComment(s: string) returns (r: string)
    ensures r == s[..CommentStart(s, 0)]
  {
    var i := 0;
    while i < |s|
      invariant 0 <= i <= |s| && CommentStart(s, 0) == CommentStart(s, i)
    {
      if s[i] == '#' && (i == 0 || IsAsciiWhitespace(s[i - 1])) {
        return s[..i];
      }
      i := i + 1;
    }
    return s;
  }

  /** What follows a closing quote must be white space or a comment. */
  predicate IsFineTail(tail: string) {
    var t := TrimStart(tail);
    t == "" || t[0] == '#'
  }

  function QuotedScalar(line: nat, raw: string, quote: char, rest: string): Result<string, Error> {
    var end := IndexOf(rest, quote);
    if end == |rest| then Err(UnterminatedQuote(line, raw))
    else if IsFineTail(rest[end + 1..]) then Ok(rest[..end])
    else Err(TrailingContent(line, raw))
  }

  /** `parse_scalar` */
  function ParseScalar(line: nat, raw: string, rhs: string): Result<string, Error> {
    var t := TrimStart(rhs);
    if t != "" && t[0] == '"' then QuotedScalar(line, raw, '"', t[1..])
    else if t != "" && t[0] == '\'' then QuotedScalar(line, raw, '\'', t[1..])
    else Ok(TrimEnd(t[..CommentStart(t, 0)]))
  }

  // ---- arrays -----------------------------------------------------------------------

  /** The length of the leading run without white space. */
  function BareLength(s: string): (n: nat)
    ensures n <= |s|
    ensures s != "" && !IsWhitespace(s[0]) ==> 1 <= n
  {
    if s == "" || IsWhitespace(s[0]) then 0 else 1 + BareLength(s[1..])
  }

  predicate IsQuote(c: char) {
    c == '"' || c == '\''
  }

  /** The elements of an array body; `None` when a quote is left open. */
  function Elements(body: string): Option<seq<string>>
    decreases |body|
  {
    if body == "" then Some([])
    else if IsWhitespace(body[0]) then Elements(body[1..])
    else if IsQuote(body[0]) then
      var end := IndexOf(body[1..], body[0]);
      if end == |body| - 1 then None
      else Prepend(body[1..][..end], Elements(body[1..][end + 1..]))
    else
      Prepend(body[..BareLength(body)], Elements(body[BareLength(body)..]))
  }

  /** `tokenize_array_body` */
  function TokenizeArrayBody(body: string, line: nat): Result<seq<string>, Error> {
    match Elements(body)
    case None => Err(UnterminatedQuote(line, body))
    case Some(es) => Ok(es)
  }

  function Concat(done: seq<string>, rest: Option<seq<string>>): Option<seq<string>> {
    match rest
    case None => None
    case Some(es) => Some(done + es)
  }

  lemma {:induction false} ConcatLaws(a: seq<string>, e: string, rest: Option<seq<string>>)
    ensures Concat([], rest) == rest
    ensures Concat(a, Prepend(e, rest)) == Concat(a + [e], rest)
  {
    if rest.Some? {
      assert [] + rest.value == rest.value;
      assert a + ([e] + rest.value) == a + [e] + rest.value;
    }
  }

  /** The position of the quote that closes the one at `i`, or the end of the body. */
  method FindClosingQuote(body: string, i: nat) returns (end: nat)
    requires i < |body|
    ensures end == i + 1 + IndexOf(body[i + 1..], body[i])
  {
    end := i + 1;
    while end < |body| && body[end] != body[i]
      invariant i < end <= |body|
      invariant body[i] !in body[i + 1..end]
    {
      assert body[i + 1..end + 1] == body[i + 1..end] + [body[end]];
      end := end + 1;
    }
    if end < |body| {
      assert body[i + 1..] == body[i + 1..end] + [body[i]] + body[end + 1..];
      IndexOfAppend(body[i + 1..end], body[i], body[end + 1..]);
    } else {
      assert body[i + 1..end] == body[i + 1..];
      NotFound(body[i + 1..], body[i]);
    }
  }

  /** The end of the unquoted element at `i`. */
  method FindBareEnd(body: string, i: nat) returns (end: nat)
    requires i < |body| && !IsWhitespace(body[i])
    ensures i < end <= |body| && end == i + BareLength(body[i..])
  {
    hide IsWhitespace;
    end := i + 1;
    assert body[i..][1..] == body[i + 1..];
    while end < |body| && !IsWhitespace(body[end])
      invariant i < end <= |body|
      invariant BareLength(body[i..]) == end - i + BareLength(body[end..])
    {
      assert body[end..][1..] == body[end + 1..];
      end := end + 1;
    }
  }

  lemma {:induction false} BlankAt(body: string, i: nat)
    requires i < |body| && IsWhitespace(body[i])
    ensures Elements(body[i..]) == Elements(body[i + 1..])
  {
    hide IsWhitespace, IndexOf, BareLength, Prepend, IsQuote;
    assert body[i..][1..] == body[i + 1..];
  }

  lemma {:induction false} QuotedAt(body: string, i: nat, end: nat)
    requires i < |body| && !IsWhitespace(body[i]) && IsQuote(body[i])
    requires end == i + 1 + IndexOf(body[i + 1..], body[i])
    ensures Elements(body[i..]) ==
      if end == |body| then None else Prepend(body[i + 1..end], Elements(body[end + 1..]))
  {
    hide IsWhitespace, IndexOf, BareLength, Prepend, IsQuote;
    var rest := body[i..];
    assert rest[1..] == body[i + 1..];
    assert rest[1..][..end - i - 1] == body[i + 1..end];
    if end < |body| {
      assert rest[1..][end - i..] == body[end + 1..];
    }
  }

  lemma {:induction false} BareAt(body: string, i: nat, end: nat)
    requires i < |body| && !IsWhitespace(body[i]) && !IsQuote(body[i])
    requires end == i + BareLength(body[i..])
    ensures Elements(body[i..]) == Prepend(body[i..end], Elements(body[end..]))
  {
    hide IsWhitespace, IndexOf, BareLength, Prepend, IsQuote;
    assert body[i..][..end - i] == body[i..end] && body[i..][end - i..] == body[end..];
  }

  /** The program's loop over the characters of the body. */
  method SplitArrayBody(body: string, line: nat) returns (r: Result<seq<string>, Error>)
    ensures r == TokenizeArrayBody(body, line)
  {
    hide IsWhitespace, Concat, Prepend, IndexOf, BareLength, Elements, IsQuote;
    var out: seq<string> := [];
    var i := 0;
    assert body[0..] == body;
    ConcatLaws([], "", Elements(body));
    while i < |body|
      invariant 0 <= i <= |body|
      invariant Elements(body) == Concat(out, Elements(body[i..]))
    {
      if IsWhitespace(body[i]) {
        BlankAt(body, i);
        i := i + 1;
      } else if IsQuote(body[i]) {
        var end := FindClosingQuote(body, i);
        QuotedAt(body, i, end);
        if end == |body| {
          ConcatNone(out);
          return Err(UnterminatedQuote(line, body));
        }
        ConcatLaws(out, body[i + 1..end], Elements(body[end + 1..]));
        out := out + [body[i + 1..end]];
        i := end + 1;
      } else {
        var end := FindBareEnd(body, i);
        BareAt(body, i, end);
        ConcatLaws(out, body[i..end], Elements(body[end..]));
        out := out + [body[i..end]];
        i := end;
      }
    }
    assert body[i..] == "";
    NoElements();
    ConcatDone(out);
    return Ok(out);
  }

  lemma {:induction false} NoElements()
    ensures Elements("") == Some([])
  {
  }

  lemma {:induction false} ConcatNone(a: seq<string>)
    ensures Concat(a, None) == None
  {
  }

  lemma {:induction false} ConcatDone(a: seq<string>)
    ensures Concat(a, Some([])) == Some(a)
  {
    assert a + [] == a;
  }

  lemma {:induction false} NotFound(s: string, c: char)
    requires c !in s
    ensures IndexOf(s, c) == |s|
  {
  }

  predicate IsSkippable(line: string) {
    var t := TrimStart(line);
    t == "" || t[0] == '#'
  }

  /** The array lines after the first: `body` so far, `extra` lines consumed so far. */
  function ArrayLines(key: string, open: nat, body: string, rest: seq<string>, extra: nat): Result<(seq<string>, nat), Error>
    decreases |rest|
  {
    if rest == [] then Err(UnterminatedArray(key, open))
    else
      var close := IndexOf(rest[0], ')');
      if close < |rest[0]| then
        (match TokenizeArrayBody(body + rest[0][..close], open + extra + 1)
         case Ok(es) => Ok((es, extra + 1))
         case Err(e) => Err(e))
      else if IsSkippable(rest[0]) then ArrayLines(key, open, body, rest[1..], extra + 1)
      else ArrayLines(key, open, body + rest[0] + " ", rest[1..], extra + 1)
  }

  /** `parse_array`: the elements and the number of lines after the first that it took. */
  function ParseArray(key: string, open: nat, first: string, rest: seq<string>): (r: Result<(seq<string>, nat), Error>)
    ensures r.Ok? ==> r.value.1 <= |rest|
  {
    var close := IndexOf(first, ')');
    if close < |first| then
      match TokenizeArrayBody(first[..close], open)
      case Ok(es) => Ok((es, 0))
      case Err(e) => Err(e)
    else
      ArrayLinesBound(key, open, first + " ", rest, 0);
      ArrayLines(key, open, first + " ", rest, 0)
  }

  lemma {:induction false} ArrayLinesBound(key: string, open: nat, body: string, rest: seq<string>, extra: nat)
    ensures var r := ArrayLines(key, open, body, rest, extra);
            r.Ok? ==> extra < r.value.1 <= extra + |rest|
    decreases |rest|
  {
    if rest != [] {
      ArrayLinesBound(key, open, body, rest[1..], extra + 1);
      ArrayLinesBound(key, open, body + rest[0] + " ", rest[1..], extra + 1);
    }
  }

  method ReadArray(key: string, open: nat, first: string, rest: seq<string>) returns (r: Result<(seq<string>, nat), Error>)
    ensures r == ParseArray(key, open, first, rest)
  {
    hide TokenizeArrayBody, IsSkippable, IndexOf;
    var close := IndexOf(first, ')');
    if close < |first| {
      var es := SplitArrayBody(first[..close], open);
      return match es case Ok(v) => Ok((v, 0)) case Err(e) => Err(e);
    }
    var body := first + " ";
    var extra := 0;
    while extra < |rest|
      invariant 0 <= extra <= |rest|
      invariant ArrayLines(key, open, first + " ", rest, 0) == ArrayLines(key, open, body, rest[extra..], extra)
    {
      var line := rest[extra];
      assert rest[extra..][1..] == rest[extra + 1..];
      extra := extra + 1;
      var at := IndexOf(line, ')');
      if at < |line| {
        var es := SplitArrayBody(body + line[..at], open + extra);
        return match es case Ok(v) => Ok((v, extra)) case Err(e) => Err(e);
      }
      if !IsSkippable(line) {
        body := body + line + " ";
      }
    }
    return Err(UnterminatedArray(key, open));
  }

  // ---- the whole file ---------------------------------------------------------------

  /** One assignment with the number of the line that opens it. */
  datatype Assignment = Assignment(key: string, line: nat, value: Value)

  /** What the line at the front is: a line to skip, an assignment that takes `lines` lines,
      or an error. */
  datatype Step = Skip | Assign(assignment: Assignment, lines: nat) | Fail(error: Error)

  function StepAt(rest: seq<string>, line: nat): (r: Step)
    requires rest != []
    ensures r.Assign? ==> 1 <= r.lines <= |rest| && r.assignment.line == line
  {
    if IsSkippable(rest[0]) then Skip
    else
      var t := TrimStart(rest[0]);
      var eq := IndexOf(t, '=');
      if eq == |t| || !IsValidKey(t[..eq]) then Fail(UnrecognizedLine(line, rest[0]))
      else AssignmentAt(t[..eq], line, rest[0], t[eq + 1..], rest[1..])
  }

  /** The step at the line `raw`, in which `rhs` follows `key=`, in front of the lines `more`. */
  function AssignmentAt(key: string, line: nat, raw: string, rhs: string, more: seq<string>): (r: Step)
    ensures r.Assign? ==> 1 <= r.lines <= 1 + |more| && r.assignment.line == line
  {
    if rhs != "" && rhs[0] == '(' then
      match ParseArray(key, line, rhs[1..], more)
      case Ok((es, extra)) => Assign(Assignment(key, line, Array(es)), 1 + extra)
      case Err(e) => Fail(e)
    else
      match ParseScalar(line, raw, rhs)
      case Ok(v) => Assign(Assignment(key, line, Scalar(v)), 1)
      case Err(e) => Fail(e)
  }

  /** The assignments of the lines `rest`, the first of which has number `line`. */
  function Scan(rest: seq<string>, line: nat): Result<seq<Assignment>, Error>
    decreases |rest|
  {
    if rest == [] then Ok([])
    else
      match StepAt(rest, line)
      case Skip => Scan(rest[1..], line + 1)
      case Assign(a, n) => After([a], Scan(rest[n..], line + n))
      case Fail(e) => Err(e)
  }

  function After(done: seq<Assignment>, rest: Result<seq<Assignment>, Error>): Result<seq<Assignment>, Error> {
    match rest
    case Ok(more) => Ok(done + more)
    case Err(e) => Err(e)
  }

  type Table = map<string, (nat, Value)>

  /** Later assignments overwrite earlier ones. */
  function TableOf(assignments: seq<Assignment>): Table
    decreases |assignments|
  {
    if assignments == [] then map[]
    else
      var a := assignments[|assignments| - 1];
      TableOf(assignments[..|assignments| - 1])[a.key := (a.line, a.value)]
  }

  /** `tokenize` */
  function Tokenize(input: string): Result<Table, Error> {
    match Scan(Lines(input), 1)
    case Ok(assignments) => Ok(TableOf(assignments))
    case Err(e) => Err(e)
  }

  lemma {:induction false} AfterLaws(done: seq<Assignment>, a: Assignment, rest: Result<seq<Assignment>, Error>)
    ensures After([], rest) == rest
    ensures After(done, After([a], rest)) == After(done + [a], rest)
  {
    if rest.Ok? {
      assert [] + rest.value == rest.value;
      assert done + ([a] + rest.value) == done + [a] + rest.value;
    }
  }

  lemma {:induction false} AfterDone(done: seq<Assignment>)
    ensures After(done, Ok([])) == Ok(done)
  {
    assert done + [] == done;
  }

  /** One turn of the program's loop: the line at `idx`, and for an array the lines it takes. */
  method ReadLine(lines: seq<string>, idx: nat) returns (step: Step)
    requires idx < |lines|
    ensures step == StepAt(lines[idx..], idx + 1)
    ensures step.Assign? ==> 1 <= step.lines <= |lines| - idx
  {
    hide IsValidKey, ParseScalar, ParseArray, IsSkippable, TrimStart;
    var lineNo := idx + 1;
    var raw := lines[idx];
    assert lines[idx..][1..] == lines[idx + 1..];
    var trimmed := TrimStart(raw);
    if IsSkippable(raw) {
      return Skip;
    }
    var eq := IndexOf(trimmed, '=');
    if eq == |trimmed| || !IsValidKey(trimmed[..eq]) {
      return Fail(UnrecognizedLine(lineNo, raw));
    }
    var key, rhs := trimmed[..eq], trimmed[eq + 1..];
    if rhs != "" && rhs[0] == '(' {
      var parsed := ReadArray(key, lineNo, rhs[1..], lines[idx + 1..]);
      return match parsed
        case Ok(v) => Assign(Assignment(key, lineNo, Array(v.0)), 1 + v.1)
        case Err(e) => Fail(e);
    }
    var parsed := ParseScalar(lineNo, raw, rhs);
    return match parsed
      case Ok(v) => Assign(Assignment(key, lineNo, Scalar(v)), 1)
      case Err(e) => Fail(e);
  }

  datatype Span = Span(from: nat, to: nat)

  /** The lines `spans` are consecutive from line 0. */
  predicate AreConsecutive(spans: seq<Span>) {
    forall k :: 0 <= k < |spans| ==> Follows(spans, k)
  }

  /** Span `k` is not empty and starts where the one before it ends. */
  predicate Follows(spans: seq<Span>, k: nat)
    requires k < |spans|
  {
    spans[k].from < spans[k].to && spans[k].from == (if k == 0 then 0 else spans[k - 1].to)
  }

  function EndOf(spans: seq<Span>): nat {
    if spans == [] then 0 else spans[|spans| - 1].to
  }

  lemma {:induction false} SpanAppended(spans: seq<Span>, from: nat, to: nat)
    requires AreConsecutive(spans) && from == EndOf(spans) && from < to
    ensures AreConsecutive(spans + [Span(from, to)]) && EndOf(spans + [Span(from, to)]) == to
  {
    var s := spans + [Span(from, to)];
    assert s[|spans|] == Span(from, to);
    forall k | 0 <= k < |s| ensures Follows(s, k) {
      if k < |spans| {
        assert Follows(spans, k);
        assert s[k] == spans[k] && (k > 0 ==> s[k - 1] == spans[k - 1]);
      }
    }
  }

  lemma {:induction false} ScanStep(lines: seq<string>, from: nat, step: Step)
    requires from < |lines| && step == StepAt(lines[from..], from + 1)
    ensures step.Assign? ==> from + step.lines <= |lines|
    ensures Scan(lines[from..], from + 1) ==
      match step
      case Skip => Scan(lines[from + 1..], from + 2)
      case Assign(a, n) => After([a], Scan(lines[from + n..], from + n + 1))
      case Fail(e) => Err(e)
  {
    hide StepAt, After;
    if step.Assign? {
      assert lines[from..][step.lines..] == lines[from + step.lines..];
    } else {
      assert lines[from..][1..] == lines[from + 1..];
    }
  }

  lemma {:induction false} TableGrows(done: seq<Assignment>, a: Assignment)
    ensures TableOf(done + [a]) == TableOf(done)[a.key := (a.line, a.value)]
  {
    assert (done + [a])[..|done|] == done;
  }

  lemma {:induction false} NothingDone()
    ensures TableOf([]) == map[]
  {
  }

  lemma {:induction false} ScanOfNothing(line: nat)
    ensures Scan([], line) == Ok([])
  {
  }

  /** The program's walk over the lines.  `spans` records which lines each turn of the loop
      took: together they are all the lines, each once and in order. */
  method ReadConfig(input: string) returns (r: Result<Table, Error>, ghost spans: seq<Span>)
    ensures r == Tokenize(input)
    ensures AreConsecutive(spans)
    ensures r.Ok? ==> EndOf(spans) == |Lines(input)|
  {
    hide StepAt, After, Lines, Scan, TableOf, AreConsecutive, EndOf;
    var out: Table := map[];
    var lines := Lines(input);
    ghost var done: seq<Assignment> := [];
    NothingDone();
    NoSpans();
    spans := [];
    var idx := 0;
    assert lines[0..] == lines;
    AfterLaws([], Assignment("", 0, Scalar("")), Scan(lines, 1));
    while idx < |lines|
      invariant 0 <= idx <= |lines|
      invariant out == TableOf(done)
      invariant Scan(lines, 1) == After(done, Scan(lines[idx..], idx + 1))
      invariant AreConsecutive(spans) && idx == EndOf(spans)
      decreases |lines| - idx
    {
      var step := ReadLine(lines, idx);
      ghost var from := idx;
      ScanStep(lines, from, step);
      match step {
      case Skip =>
        idx := idx + 1;
      case Assign(a, n) =>
        out := out[a.key := (a.line, a.value)];
        TableGrows(done, a);
        AfterLaws(done, a, Scan(lines[idx + n..], idx + n + 1));
        done := done + [a];
        idx := idx + n;
      case Fail(e) =>
        AfterFails(done, e);
        return Err(e), spans;
      }
      SpanAppended(spans, from, idx);
      spans := spans + [Span(from, idx)];
    }
    assert lines[idx..] == [];
    ScanOfNothing(idx + 1);
    AfterDone(done);
    return Ok(out), spans;
  }

  lemma {:induction false} NoSpans()
    ensures AreConsecutive([]) && EndOf([]) == 0
  {
  }

  lemma {:induction false} AfterFails(done: seq<Assignment>, e: Error)
    ensures After(done, Err(e)) == Err(e)
  {
  }
}
