/** The three shell-quoting functions (commands/deploy_cluster.rs `sh_quote`, hbird-virt
    `shell_quote`, cp_resolve.rs `shell_single_quote`) against word splitting as in sections
    2.2.1, 2.2.2 and 2.3 of the POSIX.1-2017 Shell Command Language. */
module Shell {
  import opened Text

  // ---- a shell's view of a command line ---------------------------------------------

  predicate IsBlankChar(c: char) {
    c == ' ' || c == '\t'
  }

  /** Characters that stand for themselves outside quotes, wherever they occur. */
  predicate IsOrdinary(c: char) {
    && !IsBlankChar(c) && c != '\n' && c != '\\' && c != '\'' && c != '"' && c != '`' && c != '$'
    && c != '|' && c != '&' && c != ';' && c != '<' && c != '>' && c != '(' && c != ')'
    && c != '*' && c != '?' && c != '[' && c != '#' && c != '~'
  }

  function Begun(word: Option<string>): string {
    match word
    case None => ""
    case Some(w) => w
  }

  /** The words of `s`, outside quotes and with `word` begun; `None` when a character would
      do anything but stand for itself. */
  function Words(s: string, word: Option<string>): Option<seq<string>>
    decreases |s|
  {
    if s == "" then (if word.None? then Some([]) else Some([word.value]))
    else if IsBlankChar(s[0]) then
      (if word.None? then Words(s[1..], None) else Prepend(word.value, Words(s[1..], None)))
    else if s[0] == '\'' then Quoted(s[1..], Begun(word))
    else if s[0] == '\\' then
      if |s| == 1 then None
      else if s[1] == '\n' then Words(s[2..], word)
      else Words(s[2..], Some(Begun(word) + [s[1]]))
    else if IsOrdinary(s[0]) then Words(s[1..], Some(Begun(word) + [s[0]]))
    else None
  }

  /** The same inside single quotes, where every character but the quote stands for itself. */
  function Quoted(s: string, word: string): Option<seq<string>>
    decreases |s|
  {
    if s == "" then None
    else if s[0] == '\'' then Words(s[1..], Some(word))
    else Quoted(s[1..], word + [s[0]])
  }

  // ---- the quoting functions --------------------------------------------------------

  predicate IsAsciiAlphanumeric(c: char) {
    IsDigit(c) || 'a' <= c <= 'z' || 'A' <= c <= 'Z'
  }

  /** Which characters a quoting function lets through unquoted. */
  datatype Quoter = Deploy | Virt | Always

  predicate IsSafe(q: Quoter, c: char) {
    match q
    case Deploy => IsAsciiAlphanumeric(c) || c == '-' || c == '_' || c == '.' || c == '/' || c == ':'
    case Virt => IsAsciiAlphanumeric(c) || c == '-' || c == '_' || c == '.'
    case Always => false
  }

  function Escaped(s: string): string {
    if s == "" then ""
    else (if s[0] == '\'' then "'\\''" else [s[0]]) + Escaped(s[1..])
  }

  function SingleQuoted(s: string): string {
    "'" + Escaped(s) + "'"
  }

  function Quote(q: Quoter, s: string): string {
    if s != "" && forall c | c in s :: IsSafe(q, c) then s else SingleQuoted(s)
  }

  /** The characters besides letters and digits that a word may have without being quoted. */
  function Marks(q: Quoter): string {
    match q
    case Deploy => "-_./:"
    case Virt => "-_."
    case Always => ""
  }

  /** A word is left as it is exactly when it is not empty and has only such characters; every
      other word gets a quote at both ends. */
  lemma {:induction false} UnquotedIff(q: Quoter, s: string)
    ensures Quote(q, s) == s <==>
      s != "" && !q.Always? && forall c | c in s :: c in DIGITS || c in LOWER || c in UPPER || c in Marks(q)
    ensures Quote(q, s) != s ==> 2 <= |Quote(q, s)| && Quote(q, s)[0] == '\'' == Quote(q, s)[|Quote(q, s)| - 1]
  {
    hide DIGITS, LOWER, UPPER, Marks, IsSafe, Escaped;
    EscapedIsLonger(s);
    forall c: char
      ensures IsSafe(q, c) <==> !q.Always? && (c in DIGITS || c in LOWER || c in UPPER || c in Marks(q))
    {
      SafeIff(q, c);
    }
    assert s != "" ==> s[0] in s;
  }

  lemma {:induction false} EscapedIsLonger(s: string)
    ensures |s| <= |Escaped(s)|
  {
    if s != "" {
      EscapedIsLonger(s[1..]);
    }
  }

  lemma {:induction false} SafeIff(q: Quoter, c: char)
    ensures IsSafe(q, c) <==> !q.Always? && (c in DIGITS || c in LOWER || c in UPPER || c in Marks(q))
  {
    hide DIGITS, LOWER, UPPER;
    DigitsIff(c);
    LowerIff(c);
    UpperIff(c);
  }

  lemma {:induction false} EscapedAppend(s: string, t: string)
    ensures Escaped(s + t) == Escaped(s) + Escaped(t)
  {
    if s == "" {
      assert s + t == t;
    } else {
      assert (s + t)[1..] == s[1..] + t;
      EscapedAppend(s[1..], t);
    }
  }

  /** The loop that the three functions share. */
  method ShellSingleQuote(s: string) returns (out: string)
    ensures out == SingleQuoted(s)
  {
    out := "'";
    for i := 0 to |s|
      invariant out == "'" + Escaped(s[..i])
    {
      assert s[..i + 1] == s[..i] + [s[i]];
      EscapedAppend(s[..i], [s[i]]);
      if s[i] == '\'' {
        out := out + "'\\''";
      } else {
        out := out + [s[i]];
      }
    }
    assert s[..|s|] == s;
    out := out + "'";
  }

  method ShQuote(s: string) returns (out: string)
    ensures out == Quote(Deploy, s)
  {
    if s == "" {
      return "''";
    }
    if forall c | c in s :: IsSafe(Deploy, c) {
      return s;
    }
    out := ShellSingleQuote(s);
  }

  method ShellQuote(s: string) returns (out: string)
    ensures out == Quote(Virt, s)
  {
    if s == "" {
      return "''";
    }
    if forall c | c in s :: IsSafe(Virt, c) {
      return s;
    }
    out := ShellSingleQuote(s);
  }

  /** Texts joined by single spaces. */
  function Spaced(texts: seq<string>): string {
    if texts == [] then ""
    else if |texts| == 1 then texts[0]
    else texts[0] + " " + Spaced(texts[1..])
  }

  function QuoteAll(q: Quoter, words: seq<string>): (r: seq<string>)
    ensures |r| == |words|
  {
    seq(|words|, i requires 0 <= i < |words| => Quote(q, words[i]))
  }

  // ---- quoting is undone by the shell -----------------------------------------------

  /** Wherever `text` stands at the start of a word, the shell reads `word` from it. */
  ghost predicate Denotes(text: string, word: string) {
    forall rest: string :: Words(text + rest, None) == Words(rest, Some(word))
  }

  lemma {:induction false} QuotedEscape(w: string, rest: string, word: string)
    ensures Quoted(Escaped(w) + "'" + rest, word) == Words(rest, Some(word + w))
  {
    if w == "" {
      assert Escaped(w) + "'" + rest == "'" + rest;
      assert ("'" + rest)[1..] == rest && word + w == word;
    } else {
      var tail := Escaped(w[1..]) + "'" + rest;
      QuotedEscape(w[1..], rest, word + [w[0]]);
      assert word + [w[0]] + w[1..] == word + w;
      if w[0] == '\'' {
        assert Escaped(w) + "'" + rest == "'\\''" + tail;
        EscapedQuote(tail, word);
      } else {
        assert Escaped(w) + "'" + rest == [w[0]] + tail;
        assert ([w[0]] + tail)[1..] == tail;
      }
    }
  }

  lemma {:induction false} EscapedQuote(tail: string, word: string)
    ensures Quoted("'\\''" + tail, word) == Quoted(tail, word + "'")
  {
    var s := "'\\''" + tail;
    assert s[1..] == "\\''" + tail;
    assert s[1..][2..] == "'" + tail;
    assert s[1..][2..][1..] == tail;
    assert Words(s[1..], Some(word)) == Words(s[1..][2..], Some(word + ['\'']));
  }

  lemma {:induction false} SingleQuotedDenotes(w: string)
    ensures Denotes(SingleQuoted(w), w)
  {
    forall rest: string ensures Words(SingleQuoted(w) + rest, None) == Words(rest, Some(w)) {
      var s := SingleQuoted(w) + rest;
      assert s[1..] == Escaped(w) + "'" + rest;
      QuotedEscape(w, rest, "");
      assert "" + w == w;
    }
  }

  lemma {:induction false} OrdinaryText(w: string, rest: string, word: string)
    requires forall c | c in w :: IsOrdinary(c)
    ensures Words(w + rest, Some(word)) == Words(rest, Some(word + w))
  {
    if w == "" {
      assert w + rest == rest && word + w == word;
    } else {
      assert (w + rest)[1..] == w[1..] + rest;
      assert w[0] in w;
      OrdinaryText(w[1..], rest, word + [w[0]]);
      assert word + [w[0]] + w[1..] == word + w;
    }
  }

  lemma {:induction false} OrdinaryDenotes(w: string)
    requires w != "" && forall c | c in w :: IsOrdinary(c)
    ensures Denotes(w, w)
  {
    forall rest: string ensures Words(w + rest, None) == Words(rest, Some(w)) {
      assert (w + rest)[1..] == w[1..] + rest;
      assert w[0] in w;
      OrdinaryText(w[1..], rest, [w[0]]);
      assert [w[0]] + w[1..] == w && "" + [w[0]] == [w[0]];
    }
  }

  lemma {:induction false} SafeIsOrdinary(q: Quoter, c: char)
    requires IsSafe(q, c)
    ensures IsOrdinary(c)
  {
  }

  /** A quoted word is read back as the word, by each of the three functions. */
  lemma {:induction false} QuoteDenotes(q: Quoter, w: string)
    ensures Denotes(Quote(q, w), w)
  {
    if w != "" && forall c | c in w :: IsSafe(q, c) {
      forall c | c in w ensures IsOrdinary(c) {
        SafeIsOrdinary(q, c);
      }
      OrdinaryDenotes(w);
    } else {
      SingleQuotedDenotes(w);
    }
  }

  /** A line of texts, each denoting its word, is split into those words. */
  lemma {:induction false} SpacedWords(texts: seq<string>, words: seq<string>)
    requires |texts| == |words| && forall i :: 0 <= i < |texts| ==> Denotes(texts[i], words[i])
    ensures Words(Spaced(texts), None) == Some(words)
  {
    if |texts| == 1 {
      assert Denotes(texts[0], words[0]);
      assert texts[0] + "" == texts[0];
      assert words == [words[0]];
    } else if 1 < |texts| {
      SpacedWords(texts[1..], words[1..]);
      assert Denotes(texts[0], words[0]);
      var rest := " " + Spaced(texts[1..]);
      assert Spaced(texts) == texts[0] + rest;
      assert rest[1..] == Spaced(texts[1..]);
      assert words == [words[0]] + words[1..];
    }
  }

  /** Splitting the quoted words joined by spaces gives back the list, for every list. */
  lemma {:induction false} QuotedWordsRoundTrip(q: Quoter, words: seq<string>)
    ensures Words(Spaced(QuoteAll(q, words)), None) == Some(words)
  {
    forall i | 0 <= i < |words| ensures Denotes(QuoteAll(q, words)[i], words[i]) {
      QuoteDenotes(q, words[i]);
    }
    SpacedWords(QuoteAll(q, words), words);
  }

  // ---- a second level of quoting ----------------------------------------------------

  /** `cp_ssh_cmd`, its format string written word by word. */
  function CpSshCmd(privkeyPath: string, cpIp: string, remoteCmd: string): string {
    "ssh" + (" " + ("-i" + (" " + (Quote(Deploy, privkeyPath) + (" " + ("-o" + (" "
    + ("StrictHostKeyChecking=no" + (" " + ("-o" + (" " + ("UserKnownHostsFile=/dev/null" + (" "
    + (("root@" + cpIp) + (" " + Quote(Deploy, remoteCmd))))))))))))))))
  }

  /** The local shell passes `ssh` the key path and the whole remote command as single
      words, and the remote shell then splits that command into the words it was quoted
      from. */
  lemma {:induction false} SecondLevelRoundTrip(privkeyPath: string, cpIp: string, q: Quoter, words: seq<string>)
    requires forall c | c in cpIp :: IsOrdinary(c)
    ensures var remote := Spaced(QuoteAll(q, words));
            && Words(CpSshCmd(privkeyPath, cpIp, remote), None)
               == Some(["ssh", "-i", privkeyPath, "-o", "StrictHostKeyChecking=no",
                        "-o", "UserKnownHostsFile=/dev/null", "root@" + cpIp, remote])
            && Words(remote, None) == Some(words)
  {
    hide Words, Quote, IsOrdinary;
    var remote := Spaced(QuoteAll(q, words));
    QuotedWordsRoundTrip(q, words);
    QuoteDenotes(Deploy, privkeyPath);
    QuoteDenotes(Deploy, remote);
    SshWordsAreOrdinary(cpIp);
    OrdinaryDenotes("root@" + cpIp);
    var texts := ["ssh", "-i", Quote(Deploy, privkeyPath), "-o", "StrictHostKeyChecking=no",
                  "-o", "UserKnownHostsFile=/dev/null", "root@" + cpIp, Quote(Deploy, remote)];
    SpacedWords(texts, ["ssh", "-i", privkeyPath, "-o", "StrictHostKeyChecking=no",
                        "-o", "UserKnownHostsFile=/dev/null", "root@" + cpIp, remote]);
    SpacedNine("ssh", "-i", Quote(Deploy, privkeyPath), "-o", "StrictHostKeyChecking=no",
               "-o", "UserKnownHostsFile=/dev/null", "root@" + cpIp, Quote(Deploy, remote));
  }

  lemma {:induction false} SshWordsAreOrdinary(cpIp: string)
    requires forall c | c in cpIp :: IsOrdinary(c)
    ensures Denotes("ssh", "ssh") && Denotes("-i", "-i") && Denotes("-o", "-o")
    ensures Denotes("StrictHostKeyChecking=no", "StrictHostKeyChecking=no")
    ensures Denotes("UserKnownHostsFile=/dev/null", "UserKnownHostsFile=/dev/null")
    ensures forall c | c in "root@" + cpIp :: IsOrdinary(c)
  {
    hide Words;
    OptionWord("ssh");
    OptionWord("-i");
    OptionWord("-o");
    OptionWord("StrictHostKeyChecking=no");
    OptionWord("UserKnownHostsFile=/dev/null");
    assert forall c | c in "root@" :: IsOrdinary(c);
  }

  predicate IsOptionChar(c: char) {
    IsAsciiAlphanumeric(c) || c == '-' || c == '=' || c == '/'
  }

  lemma {:induction false} OptionWord(w: string)
    requires w != "" && forall i :: 0 <= i < |w| ==> IsOptionChar(w[i])
    ensures Denotes(w, w)
  {
    forall c | c in w ensures IsOrdinary(c) {
      var i :| 0 <= i < |w| && w[i] == c;
      assert IsOptionChar(w[i]);
    }
    OrdinaryDenotes(w);
  }

  lemma {:induction false} SpacedCons(t: string, ts: seq<string>)
    requires ts != []
    ensures Spaced([t] + ts) == t + (" " + Spaced(ts))
  {
    assert ([t] + ts)[1..] == ts;
  }

  lemma {:induction false} SpacedNine(a: string, b: string, c: string, d: string, e: string,
                                      f: string, g: string, h: string, i: string)
    ensures Spaced([a, b, c, d, e, f, g, h, i])
         == a + (" " + (b + (" " + (c + (" " + (d + (" " + (e + (" " + (f + (" " + (g + (" " + (h + (" " + i)))))))))))))))
  {
    SpacedCons(h, [i]);
    SpacedCons(g, [h, i]);
    SpacedCons(f, [g, h, i]);
    SpacedCons(e, [f, g, h, i]);
    SpacedCons(d, [e, f, g, h, i]);
    SpacedCons(c, [d, e, f, g, h, i]);
    SpacedCons(b, [c, d, e, f, g, h, i]);
    SpacedCons(a, [b, c, d, e, f, g, h, i]);
  }
}
