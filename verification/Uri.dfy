/** The `qemu+ssh` URI (hbird-virt uri.rs): parsing, printing, and the exact language that
    the parser accepts. */
module Uri {
  import opened Text
  import Network

  datatype Instance = System | Session

  datatype Uri = Uri(user: Option<string>, host: string, port: Option<nat>, instance: Instance, query: Option<string>)

  datatype Field = UserField | HostField

  datatype Reason =
    | MissingScheme
    | EmptyAuthority
    | UserContainsAt
    | EmptyHost
    | MissingBracket
    | GarbageAfterBracket
    | UnbracketedIpv6
    | UnsupportedInstance
    | EmptyToken(field: Field)
    | LeadingDash(field: Field)
    | ForbiddenCharacter(field: Field)

  datatype Error = InvalidUri(reason: Reason) | InvalidPort

  const SCHEME := "qemu+ssh://"
  const MAX_PORT := 65535

  // ---- the parser -------------------------------------------------------------------

  predicate IsSafeChar(c: char) {
    'a' <= c <= 'z' || 'A' <= c <= 'Z' || '0' <= c <= '9' || c == '.' || c == '_' || c == '-'
  }

  predicate IsSafeToken(s: string) {
    s != "" && s[0] != '-' && forall i :: 0 <= i < |s| ==> IsSafeChar(s[i])
  }

  /** `validate_safe_token`: what is wrong with the token, if anything. */
  function ValidateSafeToken(s: string, field: Field): (r: Option<Reason>)
    ensures r.None? <==> IsSafeToken(s)
  {
    if s == "" then Some(EmptyToken(field))
    else if s[0] == '-' then Some(LeadingDash(field))
    else if forall i :: 0 <= i < |s| ==> IsSafeChar(s[i]) then None
    else Some(ForbiddenCharacter(field))
  }

  /** The last position of `c` in `s`, or the length of `s`. */
  function LastIndexOf(s: string, c: char): (i: nat)
    ensures i <= |s|
    ensures i < |s| ==> s[i] == c && c !in s[i + 1..]
    ensures i == |s| <==> c !in s
  {
    if s == "" then 0
    else if s[|s| - 1] == c then |s| - 1
    else
      var i := LastIndexOf(s[..|s| - 1], c);
      assert s == s[..|s| - 1] + [s[|s| - 1]];
      if i == |s| - 1 then |s| else i
  }

  datatype HostPort = HostPort(host: string, port: Option<nat>)

  function WithPort(host: string, text: string): Result<HostPort, Error> {
    match Network.ParseUnsigned(text, MAX_PORT)
    case None => Err(InvalidPort)
    case Some(n) => Ok(HostPort(host, Some(n)))
  }

  /** `split_host_port` */
  function SplitHostPort(s: string): Result<HostPort, Error> {
    if s != "" && s[0] == '[' then
      var rest := s[1..];
      var close := IndexOf(rest, ']');
      if close == |rest| then Err(InvalidUri(MissingBracket))
      else
        var tail := rest[close + 1..];
        if tail == "" then Ok(HostPort(rest[..close], None))
        else if tail[0] == ':' then WithPort(rest[..close], tail[1..])
        else Err(InvalidUri(GarbageAfterBracket))
    else
      var colon := LastIndexOf(s, ':');
      if colon == |s| then Ok(HostPort(s, None))
      else if ':' in s[..colon] then Err(InvalidUri(UnbracketedIpv6))
      else WithPort(s[..colon], s[colon + 1..])
  }

  /** The host and port of an authority, with the checks on the host. */
  function ParseHost(s: string): Result<HostPort, Error> {
    match SplitHostPort(s)
    case Err(e) => Err(e)
    case Ok(h) =>
      if h.host == "" then Err(InvalidUri(EmptyHost))
      else if s != "" && s[0] == '[' then Ok(h)
      else
        match ValidateSafeToken(h.host, HostField)
        case Some(reason) => Err(InvalidUri(reason))
        case None => Ok(h)
  }

  datatype Authority = Authority(user: Option<string>, address: HostPort)

  function WithUser(user: Option<string>, host: string): Result<Authority, Error> {
    match ParseHost(host)
    case Err(e) => Err(e)
    case Ok(h) => Ok(Authority(user, h))
  }

  function ParseAuthority(s: string): Result<Authority, Error> {
    var at := LastIndexOf(s, '@');
    if at == |s| then WithUser(None, s)
    else if at == 0 then WithUser(None, s[1..])
    else if '@' in s[..at] then Err(InvalidUri(UserContainsAt))
    else
      match ValidateSafeToken(s[..at], UserField)
      case Some(reason) => Err(InvalidUri(reason))
      case None => WithUser(Some(s[..at]), s[at + 1..])
  }

  function ParseInstance(path: string): Option<Instance> {
    if path == "" || path == "system" then Some(System) else if path == "session" then Some(Session) else None
  }

  function NonEmpty(s: string): Option<string> {
    if s == "" then None else Some(s)
  }

  function After(s: string, i: nat): string {
    if i < |s| then s[i + 1..] else ""
  }

  /** `QemuSshUri::parse` after the scheme has been removed */
  function ParseRest(rest: string): Result<Uri, Error> {
    var mark := IndexOf(rest, '?');
    var left := rest[..mark];
    var slash := IndexOf(left, '/');
    if slash == 0 then Err(InvalidUri(EmptyAuthority))
    else
      match ParseAuthority(left[..slash])
      case Err(e) => Err(e)
      case Ok(a) =>
        match ParseInstance(After(left, slash))
        case None => Err(InvalidUri(UnsupportedInstance))
        case Some(instance) =>
          Ok(Uri(a.user, a.address.host, a.address.port, instance, NonEmpty(After(rest, mark))))
  }

  /** `QemuSshUri::parse` */
  function Parse(raw: string): Result<Uri, Error> {
    if SCHEME <= raw then ParseRest(raw[|SCHEME|..]) else Err(InvalidUri(MissingScheme))
  }

  /** `Display for QemuSshUri` */
  function Display(u: Uri): string {
    var user := if u.user.Some? then u.user.value + "@" else "";
    var host := if ':' in u.host then "[" + u.host + "]" else u.host;
    var port := if u.port.Some? then ":" + Decimal(u.port.value) else "";
    var query := if u.query.Some? then "?" + u.query.value else "";
    SCHEME + user + host + port + ("/" + InstanceText(u.instance)) + query
  }

  function InstanceText(i: Instance): string {
    if i.System? then "system" else "session"
  }

  /** `QemuSshUri::ssh_target` */
  function SshTarget(u: Uri): string {
    if u.user.Some? then u.user.value + "@" + u.host else u.host
  }

  // ---- the grammar ------------------------------------------------------------------

  /** A way to write a URI: an optional `user@`, a host in brackets or not, an optional port
      text, an optional path after a slash and an optional query after a question mark. */
  datatype Spelling = Spelling(user: Option<string>, bracketed: bool, host: string, port: Option<string>,
                               path: Option<string>, query: Option<string>)

  /** `c` followed by the text, or nothing. */
  function Led(c: char, s: Option<string>): string {
    if s.Some? then [c] + s.value else ""
  }

  function UserText(user: Option<string>): string {
    if user.Some? then user.value + ['@'] else ""
  }

  function HostText(bracketed: bool, host: string, port: Option<string>): string {
    (if bracketed then ['['] + (host + [']']) else host) + Led(':', port)
  }

  function Spelled(p: Spelling): string {
    SCHEME + (UserText(p.user) + HostText(p.bracketed, p.host, p.port) + Led('/', p.path) + Led('?', p.query))
  }

  predicate IsPort(port: Option<string>) {
    port.Some? ==> Network.ParseUnsigned(port.value, MAX_PORT).Some?
  }

  predicate IsHost(bracketed: bool, host: string) {
    host != "" && if bracketed then ']' !in host else IsSafeToken(host)
  }

  predicate IsUser(user: Option<string>) {
    user.Some? && user.value != "" ==> IsSafeToken(user.value)
  }

  predicate HasNoDelimiter(s: string) {
    '@' !in s && '/' !in s && '?' !in s
  }

  /** The grammar of accepted URIs. */
  predicate IsSpelling(p: Spelling) {
    && IsUser(p.user) && IsHost(p.bracketed, p.host) && HasNoDelimiter(p.host) && IsPort(p.port)
    && (p.path.Some? ==> ParseInstance(p.path.value).Some?)
  }

  function PortValue(port: Option<string>): Option<nat>
    requires IsPort(port)
  {
    if port.Some? then Network.ParseUnsigned(port.value, MAX_PORT) else None
  }

  /** What a spelling denotes. */
  function Meaning(p: Spelling): Uri
    requires IsSpelling(p)
  {
    Uri(if p.user.Some? then NonEmpty(p.user.value) else None, p.host, PortValue(p.port),
        if p.path.Some? then ParseInstance(p.path.value).value else System,
        if p.query.Some? then NonEmpty(p.query.value) else None)
  }

  /** A port is a 16-bit number, with an optional plus sign and any number of zeros in front. */
  lemma {:induction false} PortIff(text: string, n: nat)
    ensures IsPort(Some(text)) && PortValue(Some(text)) == Some(n) <==>
      n < 0x1_0000 && (Network.IsPaddedDecimal(text, n) || ("+" <= text && Network.IsPaddedDecimal(text[1..], n)))
  {
    hide Network.ParseUnsigned, Network.IsPaddedDecimal;
    Network.UnsignedTexts(text, MAX_PORT, n);
  }

  /** A safe token is letters, digits, dots, underscores and dashes and does not start with a dash. */
  lemma {:induction false} SafeTokenIff(s: string)
    ensures IsSafeToken(s) <==>
      s != "" && s[0] != '-' && forall c | c in s :: c in DIGITS || c in LOWER || c in UPPER || c in "._-"
  {
    hide DIGITS, LOWER, UPPER;
    forall c: char ensures IsSafeChar(c) <==> c in DIGITS || c in LOWER || c in UPPER || c in "._-" {
      SafeCharIff(c);
    }
    assert (forall i :: 0 <= i < |s| ==> IsSafeChar(s[i])) <==> forall c | c in s :: IsSafeChar(c) by {
      assert forall i :: 0 <= i < |s| ==> s[i] in s;
    }
  }

  lemma {:induction false} SafeCharIff(c: char)
    ensures IsSafeChar(c) <==> c in DIGITS || c in LOWER || c in UPPER || c in "._-"
  {
    hide DIGITS, LOWER, UPPER;
    DigitsIff(c);
    LowerIff(c);
    UpperIff(c);
  }

  // ---- hosts and ports --------------------------------------------------------------

  lemma {:induction false} PortCharacters(text: string)
    requires Network.ParseUnsigned(text, MAX_PORT).Some?
    ensures HasNoDelimiter(text) && ':' !in text && ']' !in text
  {
    var digits := if text != "" && text[0] == '+' then text[1..] else text;
    assert AllDigits(digits);
    forall i | 0 <= i < |text| ensures IsDigit(text[i]) || text[i] == '+' {
      if text != "" && text[0] == '+' && i > 0 {
        assert text[i] == digits[i - 1];
      }
    }
  }

  lemma {:induction false} SafeCharacters(s: string)
    requires IsSafeToken(s)
    ensures HasNoDelimiter(s) && ':' !in s && ']' !in s && s != "" && s[0] != '['
  {
    forall c | c in s ensures IsSafeChar(c) {
    }
  }

  lemma {:induction false} HostTextCharacters(bracketed: bool, host: string, port: Option<string>)
    requires IsHost(bracketed, host) && HasNoDelimiter(host) && IsPort(port)
    ensures HasNoDelimiter(HostText(bracketed, host, port))
  {
    hide IsSafeToken;
    if port.Some? {
      PortCharacters(port.value);
    }
  }

  lemma {:induction false} BracketedIsRead(host: string, port: Option<string>)
    requires ']' !in host && IsPort(port)
    ensures SplitHostPort(HostText(true, host, port)) == Ok(HostPort(host, PortValue(port)))
  {
    hide IndexOf, LastIndexOf, Network.ParseUnsigned, HostText;
    BracketedParts(host, port);
    if port.Some? {
      assert Led(':', port)[1..] == port.value;
    }
  }

  lemma {:induction false} BracketedParts(host: string, port: Option<string>)
    requires ']' !in host
    ensures var (s, close) := (HostText(true, host, port), |host|);
            && |s| == 1 + |s[1..]| && s[0] == '[' && IndexOf(s[1..], ']') == close < |s| - 1
            && s[1..][..close] == host && s[1..][close + 1..] == Led(':', port)
  {
    hide IndexOf, Led;
    var s := HostText(true, host, port);
    assert s[1..] == host + [']'] + Led(':', port);
    IndexOfAppend(host, ']', Led(':', port));
  }

  lemma {:induction false} BareIsRead(host: string, port: Option<string>)
    requires IsSafeToken(host) && IsPort(port)
    ensures SplitHostPort(HostText(false, host, port)) == Ok(HostPort(host, PortValue(port)))
  {
    hide IndexOf, LastIndexOf, Network.ParseUnsigned, IsSafeToken;
    var s := HostText(false, host, port);
    SafeCharacters(host);
    assert s[0] == host[0];
    if port.Some? {
      PortCharacters(port.value);
      assert s == host + [':'] + port.value;
      LastIndexOfAppend(host, ':', port.value);
      assert s[..|host|] == host && s[|host| + 1..] == port.value;
    } else {
      assert s == host;
    }
  }

  lemma {:induction false} LastIndexOfAppend(a: string, c: char, b: string)
    requires c !in b
    ensures LastIndexOf(a + [c] + b, c) == |a|
  {
    hide LastIndexOf;
    var s := a + [c] + b;
    var i := LastIndexOf(s, c);
    assert s[|a|] == c;
    forall k | i < k < |s| ensures s[k] != c {
      assert s[k] == s[i + 1..][k - i - 1];
    }
    forall k | |a| < k < |s| ensures s[k] != c {
      assert s[k] == b[k - |a| - 1];
    }
  }

  lemma {:induction false} HostIsRead(bracketed: bool, host: string, port: Option<string>)
    requires IsHost(bracketed, host) && IsPort(port)
    ensures ParseHost(HostText(bracketed, host, port)) == Ok(HostPort(host, PortValue(port)))
  {
    hide SplitHostPort, Network.ParseUnsigned, IsSafeToken;
    if bracketed {
      BracketedIsRead(host, port);
    } else {
      BareIsRead(host, port);
      SafeCharacters(host);
    }
  }

  /** Whatever host and port the parser accepts are spelled as the grammar says. */
  lemma {:induction false} HostIsSpelled(s: string) returns (bracketed: bool, port: Option<string>)
    requires ParseHost(s).Ok?
    ensures IsPort(port) && IsHost(bracketed, ParseHost(s).value.host)
    ensures s == HostText(bracketed, ParseHost(s).value.host, port) && ParseHost(s).value.port == PortValue(port)
  {
    hide IndexOf, LastIndexOf, Network.ParseUnsigned, IsSafeToken;
    bracketed := s != "" && s[0] == '[';
    if bracketed {
      var rest := s[1..];
      var close := IndexOf(rest, ']');
      var tail := rest[close + 1..];
      assert s == ['['] + (rest[..close] + [']']) + tail;
      if tail == "" {
        port := None;
      } else {
        port := Some(tail[1..]);
        assert tail == [':'] + tail[1..];
      }
    } else {
      var colon := LastIndexOf(s, ':');
      if colon == |s| {
        port := None;
        assert s == s + "";
      } else {
        port := Some(s[colon + 1..]);
        assert s == s[..colon] + ([':'] + s[colon + 1..]);
      }
    }
  }

  // ---- authorities ------------------------------------------------------------------

  lemma {:induction false} UserIsRead(user: Option<string>, h: string)
    requires IsUser(user) && '@' !in h
    ensures ParseAuthority(UserText(user) + h) == WithUser(if user.Some? then NonEmpty(user.value) else None, h)
  {
    hide IsSafeToken, LastIndexOf, ParseHost;
    if user.Some? {
      var u := user.value;
      var s := UserText(user) + h;
      assert s == u + ['@'] + h;
      LastIndexOfAppend(u, '@', h);
      assert s[..|u|] == u && s[|u| + 1..] == h;
      if u != "" {
        SafeCharacters(u);
      }
    } else {
      assert UserText(user) + h == h;
    }
  }

  lemma {:induction false} AuthorityIsRead(user: Option<string>, bracketed: bool, host: string, port: Option<string>)
    requires IsUser(user) && IsHost(bracketed, host) && HasNoDelimiter(host) && IsPort(port)
    ensures ParseAuthority(UserText(user) + HostText(bracketed, host, port))
         == Ok(Authority(if user.Some? then NonEmpty(user.value) else None, HostPort(host, PortValue(port))))
  {
    hide IsUser, IsHost, HostText, ParseHost, IsPort, PortValue, ParseAuthority, UserText;
    HostTextCharacters(bracketed, host, port);
    HostIsRead(bracketed, host, port);
    UserIsRead(user, HostText(bracketed, host, port));
  }

  lemma {:induction false} AuthorityIsSpelled(s: string)
    returns (user: Option<string>, bracketed: bool, port: Option<string>)
    requires ParseAuthority(s).Ok?
    ensures var a := ParseAuthority(s).value;
            && IsUser(user) && IsPort(port) && IsHost(bracketed, a.address.host)
            && s == UserText(user) + HostText(bracketed, a.address.host, port) && '@' !in a.address.host
            && a == Authority(if user.Some? then NonEmpty(user.value) else None,
                              HostPort(a.address.host, PortValue(port)))
  {
    hide IsSafeToken, IsHost, LastIndexOf, HostText, ParseHost, IsPort, PortValue;
    var at := LastIndexOf(s, '@');
    if at == |s| {
      user := None;
      bracketed, port := HostIsSpelled(s);
      HostWithin('@', bracketed, ParseHost(s).value.host, port);
      assert "" + s == s;
    } else {
      user := Some(s[..at]);
      bracketed, port := HostIsSpelled(s[at + 1..]);
      HostWithin('@', bracketed, ParseHost(s[at + 1..]).value.host, port);
      assert s == s[..at] + ['@'] + s[at + 1..];
    }
  }

  // ---- whole URIs -------------------------------------------------------------------

  lemma {:induction false} SplitAt(a: string, c: char, b: Option<string>)
    requires c !in a
    ensures var s := a + Led(c, b);
            && s[..IndexOf(s, c)] == a && After(s, IndexOf(s, c)) == (if b.Some? then b.value else "")
  {
    hide IndexOf;
    var s := a + Led(c, b);
    if b.Some? {
      assert s == a + [c] + b.value;
      IndexOfAppend(a, c, b.value);
    } else {
      assert s == a;
    }
  }

  /** What the parser makes of an authority with a path and a query after it. */
  lemma {:induction false} RestOfAuthority(a: string, path: Option<string>, query: Option<string>)
    requires a != "" && '/' !in a && '?' !in a && (path.Some? ==> ParseInstance(path.value).Some?)
    ensures ParseRest(a + Led('/', path) + Led('?', query)) ==
      match ParseAuthority(a)
      case Err(e) => Err(e)
      case Ok(r) => Ok(Uri(r.user, r.address.host, r.address.port,
                           if path.Some? then ParseInstance(path.value).value else System,
                           if query.Some? then NonEmpty(query.value) else None))
  {
    hide ParseAuthority, IndexOf, Led, After;
    LeftCharacters(a, path);
    SplitAt(a + Led('/', path), '?', query);
    SplitAt(a, '/', path);
    EmptyPathIsSystem();
  }

  lemma {:induction false} RestIsRead(p: Spelling)
    requires IsSpelling(p)
    ensures ParseRest(UserText(p.user) + HostText(p.bracketed, p.host, p.port) + Led('/', p.path) + Led('?', p.query))
         == Ok(Meaning(p))
  {
    hide IsHost, IsUser, IsPort, HasNoDelimiter, HostText, UserText, ParseRest, ParseAuthority, PortValue, Led;
    AuthorityCharacters(p);
    AuthorityIsRead(p.user, p.bracketed, p.host, p.port);
    RestOfAuthority(UserText(p.user) + HostText(p.bracketed, p.host, p.port), p.path, p.query);
  }

  lemma {:induction false} AuthorityCharacters(p: Spelling)
    requires IsSpelling(p)
    ensures var a := UserText(p.user) + HostText(p.bracketed, p.host, p.port);
            a != "" && '/' !in a && '?' !in a
  {
    hide IsSafeToken, ParseInstance, IsPort;
    HostTextCharacters(p.bracketed, p.host, p.port);
    if p.user.Some? && p.user.value != "" {
      SafeCharacters(p.user.value);
    }
  }

  lemma {:induction false} LeftCharacters(a: string, path: Option<string>)
    requires '?' !in a && (path.Some? ==> ParseInstance(path.value).Some?)
    ensures '?' !in a + Led('/', path)
  {
    if path.Some? {
      assert path.value == "" || path.value == "system" || path.value == "session";
      assert '?' !in path.value;
    }
  }

  /** Every spelling of the grammar is accepted with its meaning. */
  lemma {:induction false} SpellingIsParsed(p: Spelling)
    requires IsSpelling(p)
    ensures Parse(Spelled(p)) == Ok(Meaning(p))
  {
    hide ParseRest, IsSpelling, UserText, HostText, Led;
    RestIsRead(p);
    var rest := UserText(p.user) + HostText(p.bracketed, p.host, p.port) + Led('/', p.path) + Led('?', p.query);
    SchemeSplits(rest);
  }

  lemma {:induction false} SchemeSplits(rest: string)
    ensures Parse(SCHEME + rest) == ParseRest(rest)
  {
    hide ParseRest;
    assert (SCHEME + rest)[|SCHEME|..] == rest;
  }

  /** Everything the parser accepts is a spelling of the grammar, and means what was parsed. */
  lemma {:induction false} ParsedIsSpelling(raw: string) returns (p: Spelling)
    requires Parse(raw).Ok?
    ensures IsSpelling(p) && Spelled(p) == raw && Meaning(p) == Parse(raw).value
  {
    hide IsSpelling, Meaning, ParseRest, UserText, HostText, Led;
    var rest := raw[|SCHEME|..];
    p := RestIsSpelled(rest);
    assert raw == SCHEME + rest;
  }

  lemma {:induction false} RestIsSpelled(rest: string) returns (p: Spelling)
    requires ParseRest(rest).Ok?
    ensures IsSpelling(p) && Meaning(p) == ParseRest(rest).value
    ensures rest == UserText(p.user) + HostText(p.bracketed, p.host, p.port) + Led('/', p.path) + Led('?', p.query)
  {
    hide IsHost, IsUser, IsPort, HostText, UserText, ParseAuthority, ParseInstance, PortValue, IndexOf, Led;
    var mark := IndexOf(rest, '?');
    var left := rest[..mark];
    var slash := IndexOf(left, '/');
    var authority := left[..slash];
    var host := ParseAuthority(authority).value.address.host;
    var user, bracketed, port := AuthorityIsSpelled(authority);
    var (path, query) := (Rest(left, slash), Rest(rest, mark));
    LedSplits(left, '/');
    LedSplits(rest, '?');
    HostHasNoMark(user, bracketed, host, port, '/');
    HostHasNoMark(user, bracketed, host, port, '?');
    p := Spelling(user, bracketed, host, port, path, query);
    EmptyPathIsSystem();
  }

  /** What follows position `i`, if the text goes that far. */
  function Rest(s: string, i: nat): Option<string> {
    if i < |s| then Some(s[i + 1..]) else None
  }

  lemma {:induction false} LedSplits(s: string, c: char)
    ensures s == s[..IndexOf(s, c)] + Led(c, Rest(s, IndexOf(s, c)))
  {
    hide IndexOf;
  }

  lemma {:induction false} HostHasNoMark(user: Option<string>, bracketed: bool, host: string, port: Option<string>, c: char)
    requires c !in UserText(user) + HostText(bracketed, host, port)
    ensures c !in host
  {
    hide UserText, HostText;
    HostWithin(c, bracketed, host, port);
  }

  lemma {:induction false} EmptyPathIsSystem()
    ensures ParseInstance("") == Some(System)
  {
  }

  lemma {:induction false} HostWithin(c: char, bracketed: bool, host: string, port: Option<string>)
    requires c !in HostText(bracketed, host, port)
    ensures c !in host
  {
    var i := if bracketed then 1 else 0;
    forall k | 0 <= k < |host| ensures host[k] != c {
      assert host[k] == HostText(bracketed, host, port)[k + i];
    }
  }

  // ---- printing and parsing again ---------------------------------------------------

  /** How `Display` spells a URI: brackets exactly around hosts with a colon. */
  function Canonical(u: Uri): Spelling {
    Spelling(u.user, ':' in u.host, u.host, if u.port.Some? then Some(Decimal(u.port.value)) else None,
             Some(InstanceText(u.instance)), u.query)
  }

  lemma {:induction false} DisplayIsCanonical(u: Uri)
    ensures Display(u) == Spelled(Canonical(u))
  {
    hide Decimal, InstanceText;
    var p := Canonical(u);
    if p.bracketed {
      assert "[" + u.host + "]" == ['['] + (u.host + [']']);
    }
    Regrouped(SCHEME, UserText(p.user), if p.bracketed then ['['] + (u.host + [']']) else u.host, Led(':', p.port),
              Led('/', p.path), Led('?', p.query));
  }

  lemma {:induction false} Regrouped(a: string, b: string, c: string, d: string, e: string, f: string)
    ensures a + b + c + d + e + f == a + (b + (c + d) + e + f)
  {
  }

  /** What is known of a URI that was parsed. */
  predicate IsParsed(u: Uri) {
    && (u.user.Some? ==> IsSafeToken(u.user.value)) && u.host != "" && HasNoDelimiter(u.host)
    && (IsSafeToken(u.host) || ']' !in u.host)
    && (u.port.Some? ==> u.port.value <= MAX_PORT) && (u.query.Some? ==> u.query.value != "")
  }

  lemma {:induction false} ParsedIsParsed(raw: string)
    requires Parse(raw).Ok?
    ensures IsParsed(Parse(raw).value)
  {
    hide IsSafeToken, HasNoDelimiter;
    var p := ParsedIsSpelling(raw);
  }

  lemma {:induction false} InstanceRoundTrip(i: Instance)
    ensures ParseInstance(InstanceText(i)) == Some(i)
  {
  }

  /** A host that is printed without brackets and is not a safe token is not accepted again. */
  lemma {:induction false} UnsafeBareHost(host: string, port: Option<string>)
    requires host != "" && ':' !in host && ']' !in host && !IsSafeToken(host) && IsPort(port)
    ensures ParseHost(HostText(false, host, port)).Err?
  {
    hide HostText, ParseHost, IsSafeToken, IsPort;
    if host[0] == '[' {
      OpenBracketHost(host, port);
    } else {
      UnsafeTokenHost(host, port);
    }
  }

  lemma {:induction false} OpenBracketHost(host: string, port: Option<string>)
    requires host != "" && host[0] == '[' && ']' !in host && IsPort(port)
    ensures ParseHost(HostText(false, host, port)).Err?
  {
    hide IndexOf, LastIndexOf, Network.ParseUnsigned, IsSafeToken;
    var s := HostText(false, host, port);
    if port.Some? {
      PortCharacters(port.value);
    }
    assert s[0] == '[' && s[1..] == host[1..] + Led(':', port);
  }

  lemma {:induction false} UnsafeTokenHost(host: string, port: Option<string>)
    requires host != "" && host[0] != '[' && ':' !in host && !IsSafeToken(host) && IsPort(port)
    ensures ParseHost(HostText(false, host, port)).Err?
  {
    hide IndexOf, LastIndexOf, Network.ParseUnsigned, IsSafeToken;
    var s := HostText(false, host, port);
    assert s[0] == host[0];
    if port.Some? {
      PortCharacters(port.value);
      assert s == host + [':'] + port.value;
      LastIndexOfAppend(host, ':', port.value);
      assert s[..|host|] == host && s[|host| + 1..] == port.value;
    } else {
      assert s == host;
    }
  }

  lemma {:induction false} CanonicalPort(u: Uri)
    requires IsParsed(u)
    ensures IsPort(Canonical(u).port) && PortValue(Canonical(u).port) == u.port
  {
    hide Network.ParseUnsigned, Decimal, IsSafeToken, HasNoDelimiter;
    if u.port.Some? {
      Network.ParseDecimal(u.port.value, MAX_PORT);
    }
  }

  lemma {:induction false} SafeIsRead(u: Uri)
    requires IsParsed(u) && (IsSafeToken(u.host) || ':' in u.host)
    ensures Parse(Display(u)) == Ok(u)
  {
    hide Parse, Display, Spelled, IsSafeToken, IsPort, PortValue, ParseInstance, HasNoDelimiter;
    DisplayIsCanonical(u);
    CanonicalPort(u);
    InstanceRoundTrip(u.instance);
    if IsSafeToken(u.host) {
      SafeCharacters(u.host);
    }
    if u.user.Some? {
      SafeCharacters(u.user.value);
    }
    SpellingIsParsed(Canonical(u));
  }

  lemma {:induction false} UnsafeIsRejected(u: Uri)
    requires IsParsed(u) && !IsSafeToken(u.host) && ':' !in u.host
    ensures Parse(Display(u)).Err?
  {
    hide Display, IsSafeToken, IsPort, ParseInstance, ParseRest, HostText, UserText, Led, ParseAuthority, ParseHost;
    DisplayIsCanonical(u);
    var p := Canonical(u);
    CanonicalPort(u);
    InstanceRoundTrip(u.instance);
    var h := HostText(false, u.host, p.port);
    UnsafeBareHost(u.host, p.port);
    BareCharacters(u.user, u.host, p.port);
    UserIsRead(u.user, h);
    RestOfAuthority(UserText(u.user) + h, p.path, p.query);
    var rest := UserText(u.user) + h + Led('/', p.path) + Led('?', p.query);
    SchemeSplits(rest);
    assert Display(u) == SCHEME + rest;
  }

  lemma {:induction false} BareCharacters(user: Option<string>, host: string, port: Option<string>)
    requires (user.Some? ==> IsSafeToken(user.value)) && host != "" && HasNoDelimiter(host) && IsPort(port)
    ensures var a := UserText(user) + HostText(false, host, port);
            '@' !in HostText(false, host, port) && a != "" && '/' !in a && '?' !in a
  {
    hide IsSafeToken, Network.ParseUnsigned;
    if user.Some? {
      SafeCharacters(user.value);
    }
    if port.Some? {
      PortCharacters(port.value);
    }
  }

  /** Parsing what was printed gives the same URI exactly when the host is a safe token or
      contains a colon; otherwise the printed text is rejected. */
  lemma {:induction false} RoundTrip(raw: string)
    requires Parse(raw).Ok?
    ensures var u := Parse(raw).value;
            && (Parse(Display(u)) == Ok(u) <==> IsSafeToken(u.host) || ':' in u.host)
            && (Parse(Display(u)).Err? <==> !IsSafeToken(u.host) && ':' !in u.host)
  {
    hide Parse, Display, IsSafeToken, IsParsed;
    ParsedIsParsed(raw);
    var u := Parse(raw).value;
    if IsSafeToken(u.host) || ':' in u.host {
      SafeIsRead(u);
    } else {
      UnsafeIsRejected(u);
    }
  }

  /** A bracketed host without a colon is accepted, printed without its brackets and then
      rejected. */
  lemma {:induction false} BracketsAreLost()
    ensures Parse("qemu+ssh://[a b]/system") == Ok(Uri(None, "a b", None, System, None))
    ensures Parse(Display(Uri(None, "a b", None, System, None))).Err?
  {
    hide Parse;
    var p := Spelling(None, true, "a b", None, Some("system"), None);
    assert ParseInstance("system") == Some(System);
    assert !IsSafeChar(' ');
    assert "a b"[1] == ' ';
    SpellingIsParsed(p);
    assert Spelled(p) == "qemu+ssh://[a b]/system";
    RoundTrip("qemu+ssh://[a b]/system");
  }

  // ---- rejections -------------------------------------------------------------------

  /** The authority: everything up to the first slash or question mark. */
  predicate IsAuthorityOf(a: string, rest: string) {
    && a <= rest && '/' !in a && '?' !in a
    && (|a| < |rest| ==> rest[|a|] == '/' || rest[|a|] == '?')
  }

  /** The user in front of the last `@`, if there is one, and the host text behind it. */
  predicate IsCutAt(a: string, user: Option<string>, host: string) {
    '@' !in host && a == if user.Some? then user.value + "@" + host else host
  }

  /** What a reason says of the user, the host text and what follows the authority. */
  predicate IsTrueReason(reason: Reason, user: Option<string>, host: string, behind: string) {
    match reason
    case MissingScheme => false
    case EmptyAuthority => user.None? && host == ""
    case UserContainsAt => user.Some? && '@' in user.value
    case EmptyHost => host == "" || host[0] == ':' || "[]" <= host
    case MissingBracket => "[" <= host && ']' !in host
    case GarbageAfterBracket =>
      "[" <= host && exists i :: 0 < i < |host| - 1 && host[i] == ']' && ']' !in host[..i] && host[i + 1] != ':'
    case UnbracketedIpv6 => !("[" <= host) && exists i, j :: 0 <= i < j < |host| && host[i] == host[j] == ':'
    case UnsupportedInstance =>
      "/" <= behind && forall p | p in {"", "system", "session"} :: behind != "/" + p && !("/" + p + "?" <= behind)
    case EmptyToken(_) => false
    case LeadingDash(UserField) => user.Some? && "-" <= user.value
    case LeadingDash(HostField) => "-" <= host
    case ForbiddenCharacter(UserField) => user.Some? && exists c :: c in user.value && !IsSafeChar(c)
    case ForbiddenCharacter(HostField) => !("[" <= host) && exists c :: c in host && c != ':' && !IsSafeChar(c)
  }

  /** The port that is rejected stands behind the last colon of the host text. */
  predicate HasBadPort(host: string) {
    exists i :: 0 <= i < |host| && host[i] == ':' && Network.ParseUnsigned(host[i + 1..], MAX_PORT).None?
  }

  lemma {:induction false} HostRejection(host: string)
    requires ParseHost(host).Err?
    ensures match ParseHost(host).error
            case InvalidPort => HasBadPort(host)
            case InvalidUri(reason) => reason != EmptyAuthority && reason != UserContainsAt && reason != UnsupportedInstance
                                       && (forall f :: reason != LeadingDash(f) || f == HostField)
                                       && (forall f :: reason != ForbiddenCharacter(f) || f == HostField)
                                       && IsTrueReason(reason, None, host, "")
  {
    hide Network.ParseUnsigned, IsSafeChar;
    if host != "" && host[0] == '[' {
      BracketRejection(host);
    } else {
      BareRejection(host);
    }
  }

  lemma {:induction false} BracketRejection(host: string)
    requires host != "" && host[0] == '[' && ParseHost(host).Err?
    ensures match ParseHost(host).error
            case InvalidPort => HasBadPort(host)
            case InvalidUri(reason) =>
              reason in {EmptyHost, MissingBracket, GarbageAfterBracket} && IsTrueReason(reason, None, host, "")
  {
    hide Network.ParseUnsigned, IsSafeChar;
    var rest := host[1..];
    var close := IndexOf(rest, ']');
    if close == |rest| {
      forall k | 0 <= k < |host| ensures host[k] != ']' {
        assert k > 0 ==> host[k] == rest[k - 1];
      }
    } else {
      assert host[close + 1] == ']' && ']' !in host[..close + 1];
      assert rest[close + 1..] == host[close + 2..];
      if rest[close + 1..] != "" {
        assert rest[close + 1..][1..] == host[close + 3..] && rest[close + 1] == host[close + 2];
      }
    }
  }

  lemma {:induction false} BareRejection(host: string)
    requires host == "" || host[0] != '['
    requires ParseHost(host).Err?
    ensures match ParseHost(host).error
            case InvalidPort => HasBadPort(host)
            case InvalidUri(reason) =>
              reason in {EmptyHost, UnbracketedIpv6, LeadingDash(HostField), ForbiddenCharacter(HostField)}
              && IsTrueReason(reason, None, host, "")
  {
    hide Network.ParseUnsigned, IsSafeChar;
    var colon := LastIndexOf(host, ':');
    if colon < |host| && ':' in host[..colon] {
      var i :| 0 <= i < colon && host[..colon][i] == ':';
      assert host[i] == host[colon] == ':';
    }
  }

  lemma {:induction false} AuthorityRejection(a: string) returns (user: Option<string>, host: string)
    ensures IsCutAt(a, user, host)
    ensures ParseAuthority(a).Err? ==>
      match ParseAuthority(a).error
      case InvalidPort => HasBadPort(host)
      case InvalidUri(reason) =>
        reason != MissingScheme && reason != EmptyAuthority && reason != UnsupportedInstance
        && IsTrueReason(reason, user, host, "")
  {
    hide ParseHost, IsSafeChar, LastIndexOf, HasBadPort;
    var at := LastIndexOf(a, '@');
    if at == |a| {
      user, host := None, a;
    } else {
      user, host := Some(a[..at]), a[at + 1..];
      assert a == a[..at] + "@" + a[at + 1..];
    }
    if ParseHost(host).Err? {
      HostRejection(host);
    }
  }

  lemma {:induction false} AuthorityIsCut(rest: string)
    ensures var left := rest[..IndexOf(rest, '?')];
            var a := left[..IndexOf(left, '/')];
            IsAuthorityOf(a, rest)
  {
    hide IndexOf;
    var mark := IndexOf(rest, '?');
    var left := rest[..mark];
    var slash := IndexOf(left, '/');
    forall k | 0 <= k < slash ensures left[..slash][k] != '?' {
      assert rest[..mark][k] != '?';
    }
    assert slash < |left| ==> rest[slash] == left[slash];
  }

  /** A path that is not one of the three is none of them with or without a query behind it. */
  lemma {:induction false} PathRejection(rest: string, a: string)
    requires var left := rest[..IndexOf(rest, '?')];
             a == left[..IndexOf(left, '/')] && ParseInstance(After(left, |a|)).None?
    ensures IsTrueReason(UnsupportedInstance, None, "", rest[|a|..])
  {
    hide IndexOf, After, ParseInstance;
    var path := After(rest[..IndexOf(rest, '?')], |a|);
    UnknownInstance(path);
    PathIsRead(rest, a, "");
    PathIsRead(rest, a, "system");
    PathIsRead(rest, a, "session");
  }

  lemma {:induction false} UnknownInstance(path: string)
    requires ParseInstance(path).None?
    ensures path != "" && path != "system" && path != "session"
  {
  }

  lemma {:induction false} PathIsRead(rest: string, a: string, p: string)
    requires var left := rest[..IndexOf(rest, '?')]; a == left[..IndexOf(left, '/')] && '?' !in p
    ensures var left := rest[..IndexOf(rest, '?')];
            && (After(left, |a|) != "" ==> "/" <= rest[|a|..])
            && (rest[|a|..] == "/" + p || "/" + p + "?" <= rest[|a|..] ==> After(left, |a|) == p)
  {
    hide IndexOf;
    var mark := IndexOf(rest, '?');
    var (left, behind) := (rest[..mark], rest[|a|..]);
    if behind == "/" + p {
      assert '?' !in behind && '?' !in a;
      assert rest == a + behind;
      assert mark == |rest|;
    } else if "/" + p + "?" <= behind {
      assert behind[1 + |p|] == '?' && rest[|a| + 1 + |p|] == '?';
      assert behind[1..1 + |p|] == p;
    }
  }

  /** Every rejection is for a reason that holds: the scheme is missing exactly when that is what is
      reported, and every other reason is true of the user, the host text or the path. */
  lemma {:induction false} RejectionIsTrue(raw: string) returns (a: string, user: Option<string>, host: string)
    requires Parse(raw).Err?
    ensures Parse(raw).error == InvalidUri(MissingScheme) <==> !(SCHEME <= raw)
    ensures SCHEME <= raw ==>
      var rest := raw[|SCHEME|..];
      && IsAuthorityOf(a, rest) && IsCutAt(a, user, host)
      && match Parse(raw).error
         case InvalidPort => HasBadPort(host)
         case InvalidUri(reason) => IsTrueReason(reason, user, host, rest[|a|..])
  {
    hide ParseAuthority, HasBadPort, IsSafeChar, IndexOf;
    a, user, host := "", None, "";
    if SCHEME <= raw {
      var rest := raw[|SCHEME|..];
      var mark := IndexOf(rest, '?');
      var left := rest[..mark];
      var slash := IndexOf(left, '/');
      AuthorityIsCut(rest);
      a := left[..slash];
      user, host := AuthorityRejection(a);
      if ParseInstance(After(left, |a|)).None? {
        PathRejection(rest, a);
      }
    }
  }

  // ---- the target for ssh -----------------------------------------------------------

  /** The target taken from an accepted URI starts with a dash exactly when the URI has no user
      and a bracketed host that starts with one. */
  lemma {:induction false} TargetStartsWithDash(raw: string) returns (p: Spelling)
    requires Parse(raw).Ok?
    ensures IsSpelling(p) && Spelled(p) == raw && Meaning(p) == Parse(raw).value
    ensures SshTarget(Parse(raw).value) != ""
    ensures SshTarget(Parse(raw).value)[0] == '-' <==>
      (p.user.None? || p.user.value == "") && p.bracketed && p.host[0] == '-'
  {
    hide Parse, Spelled, PortValue, ParseInstance, IsPort, HasNoDelimiter;
    p := ParsedIsSpelling(raw);
  }

  /** Such a URI is accepted: the check of hosts is made only outside brackets. */
  lemma {:induction false} DashedTarget()
    ensures Parse("qemu+ssh://[-a]/system") == Ok(Uri(None, "-a", None, System, None))
    ensures SshTarget(Uri(None, "-a", None, System, None)) == "-a"
  {
    hide Parse;
    var p := Spelling(None, true, "-a", None, Some("system"), None);
    assert ParseInstance("system") == Some(System);
    SpellingIsParsed(p);
    assert Spelled(p) == "qemu+ssh://[-a]/system";
  }

  /** How ssh reads a target: the user is what stands in front of the last `@`. */
  function ReadTarget(target: string): (Option<string>, string) {
    var at := LastIndexOf(target, '@');
    if at == |target| then (None, target) else (Some(target[..at]), target[at + 1..])
  }

  /** The target of every accepted URI is read as its user and its host. */
  lemma {:induction false} TargetIsRead(raw: string)
    requires Parse(raw).Ok?
    ensures ReadTarget(SshTarget(Parse(raw).value)) == (Parse(raw).value.user, Parse(raw).value.host)
  {
    hide Parse, LastIndexOf;
    ParsedIsParsed(raw);
    var u := Parse(raw).value;
    if u.user.Some? {
      var (user, target) := (u.user.value, SshTarget(u));
      assert target == user + ['@'] + u.host;
      LastIndexOfAppend(user, '@', u.host);
      assert target[..|user|] == user && target[|user| + 1..] == u.host;
    }
  }
}
