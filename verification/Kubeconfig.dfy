/** The rewriting of a fetched kubeconfig (commands/export_argocd.rs): six anchored line
    substitutions, and what they do to the entries and references of a configuration. */
module Kubeconfig {
  import opened Text

  const SERVER := "server:"
  const NAME := "name:"
  const USER := "user:"
  const CLUSTER := "cluster:"
  const CURRENT := "current-context: "
  const ITEM := "- "

  const CONTEXT_DEFAULT := "kubernetes-admin@kubernetes"
  const USER_DEFAULT := "kubernetes-admin"
  const CLUSTER_DEFAULT := "kubernetes"

  // ---- one line ---------------------------------------------------------------------

  predicate IsNameChar(c: char) {
    'a' <= c <= 'z' || 'A' <= c <= 'Z' || '0' <= c <= '9' || c == '.' || c == '_' || c == '-'
  }

  /** `validate_context_name` */
  predicate IsContextName(s: string) {
    s != "" && forall i :: 0 <= i < |s| ==> IsNameChar(s[i])
  }

  /** A context name is letters, digits, dots, underscores and dashes. */
  lemma {:induction false} ContextNameIff(s: string)
    ensures IsContextName(s) <==>
      s != "" && forall c | c in s :: c in DIGITS || c in LOWER || c in UPPER || c in "._-"
  {
    hide DIGITS, LOWER, UPPER;
    forall c: char ensures IsNameChar(c) <==> c in DIGITS || c in LOWER || c in UPPER || c in "._-" {
      NameCharIff(c);
    }
    assert (forall i :: 0 <= i < |s| ==> IsNameChar(s[i])) <==> forall c | c in s :: IsNameChar(c) by {
      assert forall i :: 0 <= i < |s| ==> s[i] in s;
    }
  }

  lemma {:induction false} NameCharIff(c: char)
    ensures IsNameChar(c) <==> c in DIGITS || c in LOWER || c in UPPER || c in "._-"
  {
    hide DIGITS, LOWER, UPPER;
    DigitsIff(c);
    LowerIff(c);
    UpperIff(c);
  }

  datatype Indented = Indented(indent: string, after: string)

  /** `strip_prefix_with_indent` */
  function StripKey(line: string, key: string): Option<Indented> {
    var t := TrimStart(line);
    if key <= t then Some(Indented(line[..|line| - |t|], t[|key|..])) else None
  }

  /** The value of a `name:` whose text is `rest`, if white space separates it from the key. */
  function MatchValue(lead: string, rest: string, target: string): Option<string> {
    if rest == "" || !IsAsciiWhitespace(rest[0]) then None
    else
      var value := TrimStart(rest);
      if value == target then Some(lead + NAME + rest[..|rest| - |value|]) else None
  }

  /** `match_name_kv` */
  function MatchNameKv(line: string, target: string): Option<string> {
    if ITEM <= line then
      if NAME <= line[|ITEM|..] then MatchValue(ITEM, line[|ITEM|..][|NAME|..], target) else None
    else
      match StripKey(line, NAME)
      case None => None
      case Some(s) => if s.indent == "" then None else MatchValue(s.indent, s.after, target)
  }

  /** `rewrite_line` */
  function RewriteLine(line: string, url: string, context: string): string {
    var server := StripKey(line, SERVER);
    var composite := MatchNameKv(line, CONTEXT_DEFAULT);
    var admin := MatchNameKv(line, USER_DEFAULT);
    var user := StripKey(line, USER);
    var kubernetes := MatchNameKv(line, CLUSTER_DEFAULT);
    var cluster := StripKey(line, CLUSTER);
    if server.Some? then server.value.indent + SERVER + " " + url
    else if composite.Some? then composite.value + context
    else if line == CURRENT + CONTEXT_DEFAULT then CURRENT + context
    else if admin.Some? then admin.value + context
    else if user.Some? && user.value.after == " " + USER_DEFAULT then user.value.indent + USER + " " + context
    else if kubernetes.Some? then kubernetes.value + context
    else if cluster.Some? && cluster.value.after == " " + CLUSTER_DEFAULT then cluster.value.indent + CLUSTER + " " + context
    else line
  }

  // ---- the anchored shapes ----------------------------------------------------------

  /** The lines the substitutions are anchored to. */
  datatype Shape =
    | Server(indent: string, after: string)
    | Name(lead: string, gap: string, value: string)
    | Current(value: string)
    | User(indent: string, after: string)
    | Cluster(indent: string, after: string)

  predicate IsSpaces(s: string) {
    forall i :: 0 <= i < |s| ==> IsWhitespace(s[i])
  }

  predicate IsShape(s: Shape) {
    match s
    case Server(indent, _) => IsSpaces(indent)
    case Name(lead, gap, value) =>
      && (lead == ITEM || (lead != "" && IsSpaces(lead)))
      && gap != "" && IsAsciiWhitespace(gap[0]) && IsSpaces(gap)
      && (value == "" || !IsWhitespace(value[0]))
    case Current(_) => true
    case User(indent, _) => IsSpaces(indent)
    case Cluster(indent, _) => IsSpaces(indent)
  }

  function ShapeText(s: Shape): string {
    match s
    case Server(indent, after) => indent + (SERVER + after)
    case Name(lead, gap, value) => lead + (NAME + (gap + value))
    case Current(value) => CURRENT + value
    case User(indent, after) => indent + (USER + after)
    case Cluster(indent, after) => indent + (CLUSTER + after)
  }

  predicate IsDefault(name: string) {
    name == CONTEXT_DEFAULT || name == USER_DEFAULT || name == CLUSTER_DEFAULT
  }

  function NewName(name: string, context: string): string {
    if IsDefault(name) then context else name
  }

  /** A reference is renamed only when it is the default of its own kind. */
  function NewReference(reference: string, own: string, context: string): string {
    if reference == own then context else reference
  }

  function Renamed(s: Shape, url: string, context: string): Shape {
    match s
    case Server(indent, _) => Server(indent, " " + url)
    case Name(lead, gap, value) => Name(lead, gap, NewName(value, context))
    case Current(value) => Current(NewReference(value, CONTEXT_DEFAULT, context))
    case User(indent, after) => User(indent, NewReference(after, " " + USER_DEFAULT, " " + context))
    case Cluster(indent, after) => Cluster(indent, NewReference(after, " " + CLUSTER_DEFAULT, " " + context))
  }

  // ---- keys at the start of lines ---------------------------------------------------

  lemma {:induction false} KeyFirst(key: string, other: string, after: string)
    requires key != "" && other != "" && key[0] != other[0]
    ensures !(other <= key + after)
  {
    assert (key + after)[0] == key[0];
  }

  lemma {:induction false} KeyIsStripped(indent: string, key: string, after: string)
    requires IsSpaces(indent) && key != "" && !IsWhitespace(key[0])
    ensures TrimStart(indent + (key + after)) == key + after
    ensures StripKey(indent + (key + after), key) == Some(Indented(indent, after))
  {
    hide IsWhitespace, TrimStart;
    SpacesAreSkipped(indent, key + after);
    assert (indent + (key + after))[..|indent|] == indent && (key + after)[|key|..] == after;
  }

  lemma {:induction false} SpacesAreSkipped(indent: string, t: string)
    requires IsSpaces(indent) && t != "" && !IsWhitespace(t[0])
    ensures TrimStart(indent + t) == t
  {
    hide IsWhitespace;
    TrimStartSkips(indent, t);
  }

  lemma {:induction false} OtherKey(indent: string, key: string, after: string, other: string)
    requires IsSpaces(indent) && key != "" && !IsWhitespace(key[0]) && other != "" && key[0] != other[0]
    ensures StripKey(indent + (key + after), other) == None
  {
    hide IsWhitespace, TrimStart, IsSpaces;
    KeyIsStripped(indent, key, after);
    KeyFirst(key, other, after);
  }

  lemma {:induction false} KeyFacts()
    ensures SERVER != "" && SERVER[0] == 's' && NAME != "" && NAME[0] == 'n' && USER != "" && USER[0] == 'u'
    ensures CLUSTER != "" && CLUSTER[0] == 'c' && CURRENT != "" && CURRENT[0] == 'c' && ITEM != "" && ITEM[0] == '-'
    ensures !IsWhitespace('s') && !IsWhitespace('n') && !IsWhitespace('u') && !IsWhitespace('c') && !IsWhitespace('-')
  {
  }

  lemma {:induction false} NotItem(indent: string, t: string)
    requires IsSpaces(indent) && t != "" && t[0] != '-'
    ensures !(ITEM <= indent + t)
  {
    assert (indent + t)[0] != '-';
  }

  lemma {:induction false} NotCurrent(indent: string, t: string)
    requires IsSpaces(indent) && t != "" && !(CURRENT <= t)
    ensures !(CURRENT <= indent + t)
  {
    if indent == "" {
      assert indent + t == t;
    } else {
      assert (indent + t)[0] == indent[0] && IsWhitespace(indent[0]);
      assert !IsWhitespace(CURRENT[0]);
    }
  }

  /** A line that starts with a key, but not with `name:`, has no name. */
  lemma {:induction false} NoName(indent: string, key: string, after: string, target: string)
    requires IsSpaces(indent) && key != "" && !IsWhitespace(key[0]) && key[0] != '-' && key[0] != 'n'
    ensures MatchNameKv(indent + (key + after), target) == None
  {
    hide IsWhitespace, IsSpaces, StripKey, MatchValue;
    KeyFacts();
    NotItem(indent, key + after);
    OtherKey(indent, key, after, NAME);
  }

  lemma {:induction false} NameIsMatched(lead: string, gap: string, value: string, target: string)
    requires IsShape(Name(lead, gap, value))
    ensures MatchNameKv(lead + (NAME + (gap + value)), target)
         == if value == target then Some(lead + NAME + gap) else None
  {
    hide IsWhitespace, StripKey, MatchValue, IsSpaces, TrimStart;
    KeyFacts();
    var line := lead + (NAME + (gap + value));
    ValueIsMatched(lead, gap, value, target);
    if lead == ITEM {
      assert line[|ITEM|..] == NAME + (gap + value);
      assert (NAME + (gap + value))[|NAME|..] == gap + value;
    } else {
      NotItem(lead, NAME + (gap + value));
      KeyIsStripped(lead, NAME, gap + value);
    }
  }

  lemma {:induction false} ValueIsMatched(lead: string, gap: string, value: string, target: string)
    requires gap != "" && IsAsciiWhitespace(gap[0]) && IsSpaces(gap) && (value == "" || !IsWhitespace(value[0]))
    ensures MatchValue(lead, gap + value, target) == if value == target then Some(lead + NAME + gap) else None
  {
    hide IsWhitespace, IsAsciiWhitespace;
    assert forall c | c in gap :: IsWhitespace(c);
    TrimStartSkips(gap, value);
    assert TrimStart(value) == value;
    assert (gap + value)[..|gap|] == gap;
  }

  // ---- what each shape becomes ------------------------------------------------------

  lemma {:induction false} ServerBecomes(indent: string, after: string, url: string, context: string)
    requires IsSpaces(indent)
    ensures RewriteLine(indent + (SERVER + after), url, context) == indent + (SERVER + (" " + url))
  {
    hide IsWhitespace, IsSpaces, StripKey, MatchNameKv;
    KeyFacts();
    KeyIsStripped(indent, SERVER, after);
    assert indent + SERVER + " " + url == indent + (SERVER + (" " + url));
  }

  lemma {:induction false} UserBecomes(indent: string, after: string, url: string, context: string)
    requires IsSpaces(indent)
    ensures RewriteLine(indent + (USER + after), url, context)
         == indent + (USER + NewReference(after, " " + USER_DEFAULT, " " + context))
  {
    hide IsWhitespace, IsSpaces, StripKey, MatchNameKv, CURRENT, SERVER, USER, CLUSTER, CONTEXT_DEFAULT, USER_DEFAULT,
         CLUSTER_DEFAULT;
    KeyFacts();
    KeyIsStripped(indent, USER, after);
    OtherKey(indent, USER, after, SERVER);
    OtherKey(indent, USER, after, CLUSTER);
    NoName(indent, USER, after, CONTEXT_DEFAULT);
    NoName(indent, USER, after, USER_DEFAULT);
    NoName(indent, USER, after, CLUSTER_DEFAULT);
    KeyFirst(USER, CURRENT, after);
    NotCurrent(indent, USER + after);
    CurrentPrefix();
    assert indent + USER + " " + context == indent + (USER + (" " + context));
  }

  lemma {:induction false} CurrentPrefix()
    ensures CURRENT <= CURRENT + CONTEXT_DEFAULT
  {
  }

  lemma {:induction false} ClusterIsNotCurrent(after: string)
    ensures !(CURRENT <= CLUSTER + after)
  {
    assert (CLUSTER + after)[1] == CLUSTER[1] == 'l';
    assert CURRENT[1] == 'u';
  }

  lemma {:induction false} ClusterBecomes(indent: string, after: string, url: string, context: string)
    requires IsSpaces(indent)
    ensures RewriteLine(indent + (CLUSTER + after), url, context)
         == indent + (CLUSTER + NewReference(after, " " + CLUSTER_DEFAULT, " " + context))
  {
    hide IsWhitespace, IsSpaces, StripKey, MatchNameKv, CURRENT, SERVER, USER, CLUSTER, CONTEXT_DEFAULT, USER_DEFAULT,
         CLUSTER_DEFAULT;
    var line := indent + (CLUSTER + after);
    KeyFacts();
    KeyIsStripped(indent, CLUSTER, after);
    OtherKey(indent, CLUSTER, after, SERVER);
    OtherKey(indent, CLUSTER, after, USER);
    NoName(indent, CLUSTER, after, CONTEXT_DEFAULT);
    NoName(indent, CLUSTER, after, USER_DEFAULT);
    NoName(indent, CLUSTER, after, CLUSTER_DEFAULT);
    ClusterIsNotCurrent(after);
    NotCurrent(indent, CLUSTER + after);
    CurrentPrefix();
    assert line != CURRENT + CONTEXT_DEFAULT;
    Regroup(indent, CLUSTER, " ", context);
  }

  lemma {:induction false} Regroup(a: string, b: string, c: string, d: string)
    ensures a + b + c + d == a + (b + (c + d))
  {
  }

  lemma {:induction false} CurrentBecomes(value: string, url: string, context: string)
    ensures RewriteLine(CURRENT + value, url, context) == CURRENT + NewReference(value, CONTEXT_DEFAULT, context)
  {
    hide IsWhitespace, StripKey, MatchNameKv;
    KeyFacts();
    assert "" + (CURRENT + value) == CURRENT + value;
    OtherKey("", CURRENT, value, SERVER);
    OtherKey("", CURRENT, value, USER);
    NoName("", CURRENT, value, CONTEXT_DEFAULT);
    NoName("", CURRENT, value, USER_DEFAULT);
    NoName("", CURRENT, value, CLUSTER_DEFAULT);
    CurrentIsNotCluster(value);
    SameTail(CURRENT, value, CONTEXT_DEFAULT);
  }

  lemma {:induction false} SameTail(a: string, b: string, c: string)
    ensures a + b == a + c <==> b == c
  {
    assert (a + b)[|a|..] == b && (a + c)[|a|..] == c;
  }

  lemma {:induction false} CurrentIsNotCluster(value: string)
    ensures StripKey(CURRENT + value, CLUSTER) == None
  {
    hide IsWhitespace;
    KeyFacts();
    var t := CURRENT + value;
    assert t[0] == CURRENT[0];
    assert t[1] == CURRENT[1] == 'u' && CLUSTER[1] == 'l';
  }

  lemma {:induction false} NameBecomes(lead: string, gap: string, value: string, url: string, context: string)
    requires IsShape(Name(lead, gap, value))
    ensures RewriteLine(lead + (NAME + (gap + value)), url, context) == lead + (NAME + (gap + NewName(value, context)))
  {
    hide StripKey, MatchNameKv, IsShape;
    var line := lead + (NAME + (gap + value));
    NameIsMatched(lead, gap, value, CONTEXT_DEFAULT);
    NameIsMatched(lead, gap, value, USER_DEFAULT);
    NameIsMatched(lead, gap, value, CLUSTER_DEFAULT);
    NameHasNoOtherKey(lead, gap, value);
    assert lead + NAME + gap + context == lead + (NAME + (gap + context));
  }

  lemma {:induction false} NameHasNoOtherKey(lead: string, gap: string, value: string)
    requires IsShape(Name(lead, gap, value))
    ensures var line := lead + (NAME + (gap + value));
            && StripKey(line, SERVER) == None && StripKey(line, USER) == None && StripKey(line, CLUSTER) == None
            && line != CURRENT + CONTEXT_DEFAULT
  {
    hide IsWhitespace, IsSpaces, StripKey, IsAsciiWhitespace;
    KeyFacts();
    var after := gap + value;
    if lead == ITEM {
      assert "" + (ITEM + (NAME + after)) == ITEM + (NAME + after);
      NoSpaces();
      OtherKey("", ITEM, NAME + after, SERVER);
      OtherKey("", ITEM, NAME + after, USER);
      OtherKey("", ITEM, NAME + after, CLUSTER);
      KeyFirst(ITEM, CURRENT, NAME + after);
    } else {
      OtherKey(lead, NAME, after, SERVER);
      OtherKey(lead, NAME, after, USER);
      OtherKey(lead, NAME, after, CLUSTER);
      KeyFirst(NAME, CURRENT, after);
      NotCurrent(lead, NAME + after);
    }
    CurrentPrefix();
  }

  lemma {:induction false} NoSpaces()
    ensures IsSpaces("")
  {
  }

  /** Rewriting an anchored line gives the line of the renamed shape. */
  lemma {:induction false} ShapeIsRewritten(s: Shape, url: string, context: string)
    requires IsShape(s)
    ensures RewriteLine(ShapeText(s), url, context) == ShapeText(Renamed(s, url, context))
  {
    hide RewriteLine, NewName, NewReference, IsWhitespace;
    match s
    case Server(indent, after) => ServerBecomes(indent, after, url, context);
    case Name(lead, gap, value) => NameBecomes(lead, gap, value, url, context);
    case Current(value) => CurrentBecomes(value, url, context);
    case User(indent, after) => UserBecomes(indent, after, url, context);
    case Cluster(indent, after) => ClusterBecomes(indent, after, url, context);
  }

  /** The lines that kubeadm writes, and what becomes of them. */
  lemma {:induction false} ServerLine(after: string, url: string, context: string)
    ensures RewriteLine("    server:" + after, url, context) == "    server: " + url
  {
    hide RewriteLine;
    ShapeIsRewritten(Server("    ", after), url, context);
    assert "    " + ("server:" + after) == "    server:" + after;
    assert "    " + ("server:" + (" " + url)) == "    server: " + url;
  }

  lemma {:induction false} NameLines(default: string, url: string, context: string)
    requires default in [CONTEXT_DEFAULT, USER_DEFAULT, CLUSTER_DEFAULT]
    ensures RewriteLine("  name: " + default, url, context) == "  name: " + context
    ensures RewriteLine("- name: " + default, url, context) == "- name: " + context
  {
    hide RewriteLine, NewName, USER_DEFAULT, CONTEXT_DEFAULT, CLUSTER_DEFAULT;
    DefaultIsRenamed(default, context);
    ShapeIsRewritten(Name("  ", " ", default), url, context);
    ShapeIsRewritten(Name("- ", " ", default), url, context);
    NameText(default);
    NameText(context);
  }

  lemma {:induction false} DefaultIsRenamed(default: string, context: string)
    requires default in [CONTEXT_DEFAULT, USER_DEFAULT, CLUSTER_DEFAULT]
    ensures default[0] == 'k' && NewName(default, context) == context
  {
  }

  lemma {:induction false} NameText(value: string)
    ensures "  " + ("name:" + (" " + value)) == "  name: " + value
    ensures "- " + ("name:" + (" " + value)) == "- name: " + value
  {
  }

  lemma {:induction false} CurrentLine(url: string, context: string)
    ensures RewriteLine("current-context: " + CONTEXT_DEFAULT, url, context) == "current-context: " + context
  {
    hide RewriteLine, CONTEXT_DEFAULT;
    ShapeIsRewritten(Current(CONTEXT_DEFAULT), url, context);
  }

  lemma {:induction false} UserLine(url: string, context: string)
    ensures RewriteLine("    user: " + USER_DEFAULT, url, context) == "    user: " + context
  {
    hide RewriteLine, USER_DEFAULT, CONTEXT_DEFAULT, CLUSTER_DEFAULT;
    ShapeIsRewritten(User("    ", " " + USER_DEFAULT), url, context);
    DefaultText(USER_DEFAULT);
    DefaultText(context);
  }

  lemma {:induction false} ClusterLine(url: string, context: string)
    ensures RewriteLine("    cluster: " + CLUSTER_DEFAULT, url, context) == "    cluster: " + context
  {
    hide RewriteLine, USER_DEFAULT, CONTEXT_DEFAULT, CLUSTER_DEFAULT;
    ShapeIsRewritten(Cluster("    ", " " + CLUSTER_DEFAULT), url, context);
    DefaultText(CLUSTER_DEFAULT);
    DefaultText(context);
  }

  lemma {:induction false} DefaultText(value: string)
    ensures "    " + ("user:" + (" " + value)) == "    user: " + value
    ensures "    " + ("cluster:" + (" " + value)) == "    cluster: " + value
  {
  }

  lemma {:induction false} Defaults()
    ensures CONTEXT_DEFAULT == USER_DEFAULT + "@" + CLUSTER_DEFAULT
    ensures USER_DEFAULT == CLUSTER_DEFAULT + "-admin" && CLUSTER_DEFAULT == "kubernetes"
  {
  }

  // ---- all other lines --------------------------------------------------------------

  lemma {:induction false} StrippedIsKeyed(line: string, key: string)
    requires StripKey(line, key).Some?
    ensures var s := StripKey(line, key).value;
            IsSpaces(s.indent) && line == s.indent + (key + s.after)
  {
    hide IsWhitespace, TrimStart;
    assert line == line[..|line| - |TrimStart(line)|] + TrimStart(line);
    assert TrimStart(line) == key + TrimStart(line)[|key|..];
  }

  lemma {:induction false} MatchedIsName(line: string, target: string) returns (s: Shape)
    requires MatchNameKv(line, target).Some?
    ensures s.Name? && IsShape(s) && line == ShapeText(s) && s.value == target
  {
    hide IsWhitespace, StripKey, MatchValue, IsSpaces, IsShape, IsAsciiWhitespace;
    if ITEM <= line {
      var rest := line[|ITEM|..][|NAME|..];
      assert line == ITEM + (NAME + rest);
      s := ValueIsNamed(ITEM, rest, target);
    } else {
      StrippedIsKeyed(line, NAME);
      var k := StripKey(line, NAME).value;
      s := ValueIsNamed(k.indent, k.after, target);
    }
  }

  lemma {:induction false} ValueIsNamed(lead: string, rest: string, target: string) returns (s: Shape)
    requires MatchValue(lead, rest, target).Some?
    requires lead == ITEM || (lead != "" && IsSpaces(lead))
    ensures s.Name? && IsShape(s) && s.lead == lead && s.gap + s.value == rest && s.value == target
  {
    hide IsWhitespace, IsAsciiWhitespace;
    AsciiIsWhitespace(rest[0]);
    var value := TrimStart(rest);
    s := Name(lead, rest[..|rest| - |value|], value);
  }

  lemma {:induction false} AsciiIsWhitespace(c: char)
    requires IsAsciiWhitespace(c)
    ensures IsWhitespace(c)
  {
  }

  /** The shapes that hold what a substitution replaces. */
  predicate IsTarget(s: Shape) {
    match s
    case Server(_, _) => true
    case Name(_, _, value) => IsDefault(value)
    case Current(value) => value == CONTEXT_DEFAULT
    case User(_, after) => after == " " + USER_DEFAULT
    case Cluster(_, after) => after == " " + CLUSTER_DEFAULT
  }

  ghost predicate IsAnchored(line: string) {
    exists s :: IsShape(s) && IsTarget(s) && ShapeText(s) == line
  }

  /** A line that changes has one of the anchored shapes. */
  lemma {:induction false} ChangedIsAnchored(line: string, url: string, context: string) returns (s: Shape)
    requires RewriteLine(line, url, context) != line
    ensures IsShape(s) && IsTarget(s) && ShapeText(s) == line
  {
    hide StripKey, MatchNameKv, IsSpaces, IsWhitespace, IsAsciiWhitespace;
    if StripKey(line, SERVER).Some? {
      StrippedIsKeyed(line, SERVER);
      var k := StripKey(line, SERVER).value;
      s := Server(k.indent, k.after);
    } else if MatchNameKv(line, CONTEXT_DEFAULT).Some? {
      s := MatchedIsName(line, CONTEXT_DEFAULT);
    } else if line == CURRENT + CONTEXT_DEFAULT {
      s := Current(CONTEXT_DEFAULT);
    } else if MatchNameKv(line, USER_DEFAULT).Some? {
      s := MatchedIsName(line, USER_DEFAULT);
    } else if StripKey(line, USER).Some? && StripKey(line, USER).value.after == " " + USER_DEFAULT {
      StrippedIsKeyed(line, USER);
      var k := StripKey(line, USER).value;
      s := User(k.indent, k.after);
    } else if MatchNameKv(line, CLUSTER_DEFAULT).Some? {
      s := MatchedIsName(line, CLUSTER_DEFAULT);
    } else {
      StrippedIsKeyed(line, CLUSTER);
      var k := StripKey(line, CLUSTER).value;
      s := Cluster(k.indent, k.after);
    }
  }

  lemma {:induction false} OthersStay(line: string, url: string, context: string)
    requires !IsAnchored(line)
    ensures RewriteLine(line, url, context) == line
  {
    hide IsShape, IsTarget, ShapeText, RewriteLine;
    if RewriteLine(line, url, context) != line {
      var s := ChangedIsAnchored(line, url, context);
    }
  }

  lemma {:induction false} ContextNameFacts(context: string)
    requires IsContextName(context)
    ensures '\n' !in context && !IsWhitespace(context[0]) && context != CONTEXT_DEFAULT
  {
    assert IsNameChar(context[0]);
    forall c | c in context ensures IsNameChar(c) {
    }
    assert CONTEXT_DEFAULT[16] == '@';
  }

  lemma {:induction false} RenamedIsShape(s: Shape, url: string, context: string)
    requires IsShape(s) && IsContextName(context)
    ensures IsShape(Renamed(s, url, context))
    ensures Renamed(Renamed(s, url, context), url, context) == Renamed(s, url, context)
  {
    hide IsWhitespace, IsContextName, IsAsciiWhitespace, IsSpaces;
    ContextNameFacts(context);
  }

  /** Rewriting a line again changes nothing. */
  lemma {:induction false} LineIdempotent(line: string, url: string, context: string)
    requires IsContextName(context)
    ensures RewriteLine(RewriteLine(line, url, context), url, context) == RewriteLine(line, url, context)
  {
    hide RewriteLine, IsShape, ShapeText, Renamed, IsContextName;
    if RewriteLine(line, url, context) != line {
      var s := ChangedIsAnchored(line, url, context);
      ShapeIsRewritten(s, url, context);
      RenamedIsShape(s, url, context);
      ShapeIsRewritten(Renamed(s, url, context), url, context);
    }
  }

  // ---- the whole text ---------------------------------------------------------------

  /** `split_inclusive('\n')`: the lines with their newlines. */
  function Pieces(s: string): seq<string>
    decreases |s|
  {
    if s == "" then []
    else
      var i := IndexOf(s, '\n');
      if i == |s| then [s] else [s[..i + 1]] + Pieces(s[i + 1..])
  }

  predicate IsEnded(piece: string) {
    piece != "" && piece[|piece| - 1] == '\n'
  }

  function Body(piece: string): string {
    if IsEnded(piece) then piece[..|piece| - 1] else piece
  }

  function RewritePiece(piece: string, url: string, context: string): string {
    RewriteLine(Body(piece), url, context) + if IsEnded(piece) then "\n" else ""
  }

  function RewritePieces(pieces: seq<string>, url: string, context: string): (r: seq<string>)
    ensures |r| == |pieces|
  {
    if pieces == [] then [] else [RewritePiece(pieces[0], url, context)] + RewritePieces(pieces[1..], url, context)
  }

  function Flatten(pieces: seq<string>): string {
    if pieces == [] then "" else pieces[0] + Flatten(pieces[1..])
  }

  function Rewrite(s: string, url: string, context: string): string {
    Flatten(RewritePieces(Pieces(s), url, context))
  }

  /** `rewrite_kubeconfig` */
  method RewriteKubeconfig(input: string, url: string, context: string) returns (out: string)
    ensures out == Rewrite(input, url, context)
  {
    hide RewriteLine, Pieces, RewritePieces, Flatten;
    out := "";
    var pieces := Pieces(input);
    var i := 0;
    assert pieces[0..] == pieces;
    while i < |pieces|
      invariant 0 <= i <= |pieces|
      invariant Rewrite(input, url, context) == out + Flatten(RewritePieces(pieces[i..], url, context))
    {
      var line := pieces[i];
      var ended := line != "" && line[|line| - 1] == '\n';
      var body := if ended then line[..|line| - 1] else line;
      var rewritten := RewriteLine(body, url, context);
      PieceInFront(pieces, i, url, context);
      out := out + rewritten;
      out := out + if ended then "\n" else "";
      i := i + 1;
    }
    assert pieces[i..] == [];
    NothingLeft(url, context);
  }

  lemma {:induction false} PieceInFront(pieces: seq<string>, i: nat, url: string, context: string)
    requires i < |pieces|
    ensures Flatten(RewritePieces(pieces[i..], url, context))
         == RewritePiece(pieces[i], url, context) + Flatten(RewritePieces(pieces[i + 1..], url, context))
  {
    hide RewritePiece;
    assert pieces[i..][1..] == pieces[i + 1..];
  }

  lemma {:induction false} NothingLeft(url: string, context: string)
    ensures Flatten(RewritePieces([], url, context)) == ""
  {
  }

  lemma {:induction false} RewrittenHasNoNewline(line: string, url: string, context: string)
    requires '\n' !in line && '\n' !in url && IsContextName(context)
    ensures '\n' !in RewriteLine(line, url, context)
    ensures line != "" ==> RewriteLine(line, url, context) != ""
  {
    hide RewriteLine, IsWhitespace, IsSpaces, IsContextName, IsDefault, IsAsciiWhitespace;
    ContextNameFacts(context);
    if RewriteLine(line, url, context) != line {
      var s := ChangedIsAnchored(line, url, context);
      ShapeIsRewritten(s, url, context);
      KeyFacts();
      KeysHaveNoNewline();
    }
  }

  lemma {:induction false} KeysHaveNoNewline()
    ensures '\n' !in SERVER && '\n' !in NAME && '\n' !in USER && '\n' !in CLUSTER && '\n' !in CURRENT && '\n' !in ITEM
  {
  }

  lemma {:induction false} FirstPiece(line: string, rest: string)
    requires '\n' !in line
    ensures Pieces(line + ['\n'] + rest) == [line + ['\n']] + Pieces(rest)
  {
    var s := line + ['\n'] + rest;
    IndexOfAppend(line, '\n', rest);
    assert s[..|line| + 1] == line + ['\n'] && s[|line| + 1..] == rest;
  }

  /** The lines of the rewritten text are the rewritten lines. */
  lemma {:induction false} PiecesOfRewritten(s: string, url: string, context: string)
    requires '\n' !in url && IsContextName(context)
    ensures Pieces(Rewrite(s, url, context)) == RewritePieces(Pieces(s), url, context)
    decreases |s|
  {
    hide RewriteLine, IsContextName, IndexOf;
    var i := IndexOf(s, '\n');
    if s == "" {
    } else if i == |s| {
      RewrittenHasNoNewline(s, url, context);
      assert Body(s) == s;
      var r := RewriteLine(s, url, context);
      assert r + "" == r && [s][1..] == [];
      assert RewritePieces([s], url, context) == [r];
      assert Flatten([r]) == r;
    } else {
      var body, rest := s[..i], s[i + 1..];
      PiecesOfRewritten(rest, url, context);
      RewrittenHasNoNewline(body, url, context);
      assert Body(s[..i + 1]) == body;
      assert Pieces(s)[0] == s[..i + 1] && Pieces(s)[1..] == Pieces(rest);
      var r := RewriteLine(body, url, context);
      FirstPiece(r, Rewrite(rest, url, context));
      assert Rewrite(s, url, context) == r + ['\n'] + Rewrite(rest, url, context);
    }
  }

  lemma {:induction false} PiecesIdempotent(pieces: seq<string>, url: string, context: string)
    requires '\n' !in url && IsContextName(context)
    requires forall i :: 0 <= i < |pieces| ==> '\n' !in Body(pieces[i])
    ensures var r := RewritePieces(pieces, url, context); RewritePieces(r, url, context) == r
  {
    hide RewriteLine, IsContextName;
    if pieces != [] {
      var piece := pieces[0];
      LineIdempotent(Body(piece), url, context);
      RewrittenHasNoNewline(Body(piece), url, context);
      assert Body(RewritePiece(piece, url, context)) == RewriteLine(Body(piece), url, context);
      PiecesIdempotent(pieces[1..], url, context);
    }
  }

  lemma {:induction false} PieceBodies(s: string)
    ensures forall i :: 0 <= i < |Pieces(s)| ==> '\n' !in Body(Pieces(s)[i])
    decreases |s|
  {
    var i := IndexOf(s, '\n');
    if s != "" && i < |s| {
      PieceBodies(s[i + 1..]);
      assert Body(s[..i + 1]) == s[..i];
    }
  }

  /** Rewriting a second time changes nothing. */
  lemma {:induction false} RewriteIdempotent(s: string, url: string, context: string)
    requires '\n' !in url && IsContextName(context)
    ensures Rewrite(Rewrite(s, url, context), url, context) == Rewrite(s, url, context)
  {
    hide IsContextName, Pieces, RewritePieces, Body;
    PiecesOfRewritten(s, url, context);
    PieceBodies(s);
    PiecesIdempotent(Pieces(s), url, context);
  }

  lemma {:induction false} PieceAt(pieces: seq<string>, url: string, context: string, k: nat)
    requires k < |pieces|
    ensures RewritePieces(pieces, url, context)[k] == RewritePiece(pieces[k], url, context)
  {
    hide RewritePiece;
    if k > 0 {
      PieceAt(pieces[1..], url, context, k - 1);
    }
  }

  /** The number of lines stays, and so does every line that no substitution is anchored to. */
  lemma {:induction false} OtherLinesStay(s: string, url: string, context: string, k: nat)
    requires '\n' !in url && IsContextName(context) && k < |Pieces(s)|
    ensures |Pieces(Rewrite(s, url, context))| == |Pieces(s)|
    ensures !IsAnchored(Body(Pieces(s)[k])) ==> Pieces(Rewrite(s, url, context))[k] == Pieces(s)[k]
  {
    hide IsContextName, Pieces, RewritePieces, IsAnchored, RewriteLine, Rewrite;
    PiecesOfRewritten(s, url, context);
    PieceAt(Pieces(s), url, context, k);
    var p := Pieces(s)[k];
    if !IsAnchored(Body(p)) {
      OthersStay(Body(p), url, context);
      assert p == Body(p) + if IsEnded(p) then "\n" else "";
    }
  }

  // ---- rendered configurations ------------------------------------------------------

  /** One entry of each list, with further lines that no substitution is anchored to. */
  datatype ClusterEntry = ClusterEntry(extra: seq<string>, server: string, name: string)
  datatype ContextEntry = ContextEntry(cluster: string, user: string, name: string)
  datatype UserEntry = UserEntry(name: string, extra: seq<string>)

  datatype Config = Config(clusters: seq<ClusterEntry>, contexts: seq<ContextEntry>, current: string, users: seq<UserEntry>)

  ghost predicate AreExtra(lines: seq<string>) {
    forall l | l in lines :: '\n' !in l && !IsAnchored(l)
  }

  predicate IsName(name: string) {
    '\n' !in name && (name == "" || !IsWhitespace(name[0]))
  }

  ghost predicate IsConfig(c: Config) {
    && (forall e | e in c.clusters :: AreExtra(e.extra) && '\n' !in e.server && IsName(e.name))
    && (forall e | e in c.contexts :: '\n' !in e.cluster && '\n' !in e.user && IsName(e.name))
    && '\n' !in c.current
    && (forall e | e in c.users :: AreExtra(e.extra) && IsName(e.name))
  }

  function ClusterLines(e: ClusterEntry): seq<string> {
    ["- cluster:"] + e.extra + [ShapeText(Server("    ", " " + e.server)), ShapeText(Name("  ", " ", e.name))]
  }

  function ContextLines(e: ContextEntry): seq<string> {
    ["- context:", ShapeText(Cluster("    ", " " + e.cluster)), ShapeText(User("    ", " " + e.user)),
     ShapeText(Name("  ", " ", e.name))]
  }

  function UserLines(e: UserEntry): seq<string> {
    [ShapeText(Name(ITEM, " ", e.name)), ShapeText(User("  ", ""))] + e.extra
  }

  function AllClusterLines(es: seq<ClusterEntry>): seq<string> {
    if es == [] then [] else ClusterLines(es[0]) + AllClusterLines(es[1..])
  }

  function AllContextLines(es: seq<ContextEntry>): seq<string> {
    if es == [] then [] else ContextLines(es[0]) + AllContextLines(es[1..])
  }

  function AllUserLines(es: seq<UserEntry>): seq<string> {
    if es == [] then [] else UserLines(es[0]) + AllUserLines(es[1..])
  }

  /** The layout in which kubeadm writes a kubeconfig. */
  function ConfigLines(c: Config): seq<string> {
    ["apiVersion: v1", "clusters:"] + (AllClusterLines(c.clusters)
    + (["contexts:"] + (AllContextLines(c.contexts)
    + ([ShapeText(Current(c.current)), "kind: Config", "preferences: {}", "users:"] + AllUserLines(c.users)))))
  }

  function Unlines(lines: seq<string>): string {
    if lines == [] then "" else lines[0] + ['\n'] + Unlines(lines[1..])
  }

  function Render(c: Config): string {
    Unlines(ConfigLines(c))
  }

  function NewClusters(es: seq<ClusterEntry>, url: string, context: string): (r: seq<ClusterEntry>)
    ensures |r| == |es|
  {
    if es == [] then []
    else [ClusterEntry(es[0].extra, url, NewName(es[0].name, context))] + NewClusters(es[1..], url, context)
  }

  function NewContexts(es: seq<ContextEntry>, context: string): (r: seq<ContextEntry>)
    ensures |r| == |es|
  {
    if es == [] then []
    else
      [ContextEntry(NewReference(es[0].cluster, CLUSTER_DEFAULT, context), NewReference(es[0].user, USER_DEFAULT, context),
                    NewName(es[0].name, context))]
      + NewContexts(es[1..], context)
  }

  function NewUsers(es: seq<UserEntry>, context: string): (r: seq<UserEntry>)
    ensures |r| == |es|
  {
    if es == [] then [] else [UserEntry(NewName(es[0].name, context), es[0].extra)] + NewUsers(es[1..], context)
  }

  /** The configuration with the new server everywhere, every default name replaced, and each
      reference replaced that is the default of its kind. */
  function NewConfig(c: Config, url: string, context: string): Config {
    Config(NewClusters(c.clusters, url, context), NewContexts(c.contexts, context),
           NewReference(c.current, CONTEXT_DEFAULT, context), NewUsers(c.users, context))
  }

  function RewriteLines(lines: seq<string>, url: string, context: string): (r: seq<string>)
    ensures |r| == |lines|
  {
    if lines == [] then [] else [RewriteLine(lines[0], url, context)] + RewriteLines(lines[1..], url, context)
  }

  lemma {:induction false} RewriteLinesAppend(a: seq<string>, b: seq<string>, url: string, context: string)
    ensures RewriteLines(a + b, url, context) == RewriteLines(a, url, context) + RewriteLines(b, url, context)
  {
    hide RewriteLine;
    var rest := RewriteLines(b, url, context);
    if a == [] {
      assert a + b == b && [] + rest == rest;
    } else {
      RewriteLinesAppend(a[1..], b, url, context);
      assert a + b == [a[0]] + (a[1..] + b);
      FirstLine(a[0], a[1..] + b, url, context);
      Associate([RewriteLine(a[0], url, context)], RewriteLines(a[1..], url, context), rest);
    }
  }

  lemma {:induction false} FirstLine(line: string, rest: seq<string>, url: string, context: string)
    ensures RewriteLines([line] + rest, url, context) == [RewriteLine(line, url, context)] + RewriteLines(rest, url, context)
  {
    hide RewriteLine;
    assert ([line] + rest)[1..] == rest;
  }

  lemma {:induction false} Associate(a: seq<string>, b: seq<string>, c: seq<string>)
    ensures a + (b + c) == a + b + c
  {
  }

  lemma {:induction false} ExtraStays(lines: seq<string>, url: string, context: string)
    requires AreExtra(lines)
    ensures RewriteLines(lines, url, context) == lines
  {
    hide RewriteLine, IsAnchored;
    if lines != [] {
      OthersStay(lines[0], url, context);
      ExtraStays(lines[1..], url, context);
    }
  }

  // ---- the fixed lines --------------------------------------------------------------

  predicate HasNoKey(line: string) {
    && line != "" && !IsWhitespace(line[0])
    && !(SERVER <= line) && !(USER <= line) && !(CLUSTER <= line) && !(NAME <= line) && !(CURRENT <= line)
    && !(ITEM + NAME <= line)
  }

  lemma {:induction false} NoKeyStays(line: string, url: string, context: string)
    requires HasNoKey(line)
    ensures RewriteLine(line, url, context) == line
  {
    hide IsWhitespace, StripKey, MatchNameKv;
    NotStripped(line, SERVER);
    NotStripped(line, USER);
    NotStripped(line, CLUSTER);
    NotNamed(line, CONTEXT_DEFAULT);
    NotNamed(line, USER_DEFAULT);
    NotNamed(line, CLUSTER_DEFAULT);
    CurrentPrefix();
  }

  lemma {:induction false} NotStripped(line: string, key: string)
    requires line != "" && !IsWhitespace(line[0]) && !(key <= line)
    ensures StripKey(line, key) == None
  {
    assert TrimStart(line) == line;
  }

  lemma {:induction false} NotNamed(line: string, target: string)
    requires line != "" && !IsWhitespace(line[0]) && !(NAME <= line) && !(ITEM + NAME <= line)
    ensures MatchNameKv(line, target) == None
  {
    hide IsWhitespace, StripKey, MatchValue;
    NotStripped(line, NAME);
    ItemName(line);
  }

  lemma {:induction false} ItemName(line: string)
    ensures ITEM <= line && NAME <= line[|ITEM|..] ==> ITEM + NAME <= line
  {
  }

  lemma {:induction false} Differs(key: string, line: string, k: nat)
    requires k < |key| && k < |line| && key[k] != line[k]
    ensures !(key <= line)
  {
  }

  lemma {:induction false} HeadersHaveNoKey()
    ensures HasNoKey("apiVersion: v1") && HasNoKey("clusters:") && HasNoKey("contexts:") && HasNoKey("kind: Config")
    ensures HasNoKey("preferences: {}") && HasNoKey("users:") && HasNoKey("- cluster:") && HasNoKey("- context:")
  {
    hide IsWhitespace;
    assert ITEM + NAME == "- name:";
    KeyFacts();
    assert !IsWhitespace('a') && !IsWhitespace('k') && !IsWhitespace('p') by {
      LettersAreSolid();
    }
    Differs(CLUSTER, "clusters:", 7);
    Differs(CURRENT, "clusters:", 1);
    Differs(CLUSTER, "contexts:", 1);
    Differs(CURRENT, "contexts:", 1);
    Differs(USER, "users:", 4);
    Differs("- name:", "- cluster:", 2);
    Differs("- name:", "- context:", 2);
  }

  lemma {:induction false} LettersAreSolid()
    ensures !IsWhitespace('a') && !IsWhitespace('k') && !IsWhitespace('p')
  {
  }

  // ---- entries ----------------------------------------------------------------------

  lemma {:induction false} OneBlank()
    ensures IsSpaces("  ") && IsSpaces("    ") && IsSpaces(" ") && IsAsciiWhitespace(" "[0])
  {
  }

  lemma {:induction false} NameEntry(lead: string, name: string, url: string, context: string)
    requires IsName(name) && (lead == ITEM || lead == "  ")
    ensures RewriteLine(ShapeText(Name(lead, " ", name)), url, context) == ShapeText(Name(lead, " ", NewName(name, context)))
  {
    hide RewriteLine, ShapeText, IsWhitespace, IsSpaces, NewName, IsAsciiWhitespace;
    OneBlank();
    ShapeIsRewritten(Name(lead, " ", name), url, context);
  }

  lemma {:induction false} ServerEntry(after: string, url: string, context: string)
    ensures RewriteLine(ShapeText(Server("    ", after)), url, context) == ShapeText(Server("    ", " " + url))
  {
    hide RewriteLine, ShapeText, IsSpaces;
    OneBlank();
    ShapeIsRewritten(Server("    ", after), url, context);
  }

  lemma {:induction false} ReferenceText(reference: string, own: string, context: string)
    ensures NewReference(" " + reference, " " + own, " " + context) == " " + NewReference(reference, own, context)
  {
    SameTail(" ", reference, own);
  }

  lemma {:induction false} ClusterReference(reference: string, url: string, context: string)
    ensures RewriteLine(ShapeText(Cluster("    ", " " + reference)), url, context)
         == ShapeText(Cluster("    ", " " + NewReference(reference, CLUSTER_DEFAULT, context)))
  {
    hide RewriteLine, ShapeText, IsSpaces, NewReference;
    OneBlank();
    ReferenceText(reference, CLUSTER_DEFAULT, context);
    ShapeIsRewritten(Cluster("    ", " " + reference), url, context);
  }

  lemma {:induction false} UserReference(reference: string, url: string, context: string)
    ensures RewriteLine(ShapeText(User("    ", " " + reference)), url, context)
         == ShapeText(User("    ", " " + NewReference(reference, USER_DEFAULT, context)))
  {
    hide RewriteLine, ShapeText, IsSpaces, NewReference;
    OneBlank();
    ReferenceText(reference, USER_DEFAULT, context);
    ShapeIsRewritten(User("    ", " " + reference), url, context);
  }

  lemma {:induction false} UserHeader(url: string, context: string)
    ensures RewriteLine(ShapeText(User("  ", "")), url, context) == ShapeText(User("  ", ""))
  {
    hide RewriteLine, ShapeText, IsSpaces;
    OneBlank();
    ShapeIsRewritten(User("  ", ""), url, context);
  }

  lemma {:induction false} CurrentReference(reference: string, url: string, context: string)
    ensures RewriteLine(ShapeText(Current(reference)), url, context)
         == ShapeText(Current(NewReference(reference, CONTEXT_DEFAULT, context)))
  {
    hide RewriteLine, ShapeText, NewReference;
    ShapeIsRewritten(Current(reference), url, context);
  }

  lemma {:induction false} TwoLines(a: string, b: string, url: string, context: string)
    ensures RewriteLines([a, b], url, context) == [RewriteLine(a, url, context), RewriteLine(b, url, context)]
  {
    hide RewriteLine;
    assert [a, b][1..] == [b];
  }

  lemma {:induction false} FourLines(a: string, b: string, c: string, d: string, url: string, context: string)
    ensures RewriteLines([a, b, c, d], url, context)
         == [RewriteLine(a, url, context), RewriteLine(b, url, context),
             RewriteLine(c, url, context), RewriteLine(d, url, context)]
  {
    hide RewriteLine;
    assert [a, b, c, d] == [a, b] + [c, d];
    RewriteLinesAppend([a, b], [c, d], url, context);
    TwoLines(a, b, url, context);
    TwoLines(c, d, url, context);
  }

  lemma {:induction false} ClustersRewritten(es: seq<ClusterEntry>, url: string, context: string)
    requires forall e | e in es :: AreExtra(e.extra) && IsName(e.name)
    ensures RewriteLines(AllClusterLines(es), url, context) == AllClusterLines(NewClusters(es, url, context))
  {
    hide RewriteLine, ShapeText, NewName, IsName, AreExtra, HasNoKey;
    if es != [] {
      var e := es[0];
      ClustersRewritten(es[1..], url, context);
      RewriteLinesAppend(ClusterLines(e), AllClusterLines(es[1..]), url, context);
      HeadersHaveNoKey();
      NoKeyStays("- cluster:", url, context);
      ExtraStays(e.extra, url, context);
      ServerEntry(" " + e.server, url, context);
      NameEntry("  ", e.name, url, context);
      var tail := [ShapeText(Server("    ", " " + e.server)), ShapeText(Name("  ", " ", e.name))];
      RewriteLinesAppend(["- cluster:"], e.extra, url, context);
      RewriteLinesAppend(["- cluster:"] + e.extra, tail, url, context);
      TwoLines(tail[0], tail[1], url, context);
      assert RewriteLines(["- cluster:"], url, context) == ["- cluster:"];
    }
  }

  lemma {:induction false} ContextsRewritten(es: seq<ContextEntry>, url: string, context: string)
    requires forall e | e in es :: IsName(e.name)
    ensures RewriteLines(AllContextLines(es), url, context) == AllContextLines(NewContexts(es, context))
  {
    hide RewriteLine, ShapeText, NewName, IsName, HasNoKey, NewReference;
    if es != [] {
      var e := es[0];
      ContextsRewritten(es[1..], url, context);
      RewriteLinesAppend(ContextLines(e), AllContextLines(es[1..]), url, context);
      HeadersHaveNoKey();
      NoKeyStays("- context:", url, context);
      ClusterReference(e.cluster, url, context);
      UserReference(e.user, url, context);
      NameEntry("  ", e.name, url, context);
      var l := ContextLines(e);
      FourLines(l[0], l[1], l[2], l[3], url, context);
    }
  }

  lemma {:induction false} UsersRewritten(es: seq<UserEntry>, url: string, context: string)
    requires forall e | e in es :: AreExtra(e.extra) && IsName(e.name)
    ensures RewriteLines(AllUserLines(es), url, context) == AllUserLines(NewUsers(es, context))
  {
    hide RewriteLine, ShapeText, NewName, IsName, AreExtra;
    if es != [] {
      var e := es[0];
      UsersRewritten(es[1..], url, context);
      RewriteLinesAppend(UserLines(e), AllUserLines(es[1..]), url, context);
      NameEntry(ITEM, e.name, url, context);
      UserHeader(url, context);
      ExtraStays(e.extra, url, context);
      var head := [ShapeText(Name(ITEM, " ", e.name)), ShapeText(User("  ", ""))];
      RewriteLinesAppend(head, e.extra, url, context);
      TwoLines(head[0], head[1], url, context);
    }
  }

  lemma {:induction false} ConfigRewritten(c: Config, url: string, context: string)
    requires IsConfig(c)
    ensures RewriteLines(ConfigLines(c), url, context) == ConfigLines(NewConfig(c, url, context))
  {
    hide RewriteLine, ShapeText, IsName, AreExtra, HasNoKey, NewReference, AllClusterLines, AllContextLines, AllUserLines;
    HeadersHaveNoKey();
    NoKeyStays("apiVersion: v1", url, context);
    NoKeyStays("clusters:", url, context);
    NoKeyStays("contexts:", url, context);
    NoKeyStays("kind: Config", url, context);
    NoKeyStays("preferences: {}", url, context);
    NoKeyStays("users:", url, context);
    CurrentReference(c.current, url, context);
    ClustersRewritten(c.clusters, url, context);
    ContextsRewritten(c.contexts, url, context);
    UsersRewritten(c.users, url, context);
    var tail := [ShapeText(Current(c.current)), "kind: Config", "preferences: {}", "users:"];
    var users, contexts := AllUserLines(c.users), AllContextLines(c.contexts);
    FourLines(tail[0], tail[1], tail[2], tail[3], url, context);
    TwoLines("apiVersion: v1", "clusters:", url, context);
    assert RewriteLines(["contexts:"], url, context) == ["contexts:"];
    RewriteLinesAppend(tail, users, url, context);
    RewriteLinesAppend(contexts, tail + users, url, context);
    RewriteLinesAppend(["contexts:"], contexts + (tail + users), url, context);
    var middle := ["contexts:"] + (contexts + (tail + users));
    RewriteLinesAppend(AllClusterLines(c.clusters), middle, url, context);
    RewriteLinesAppend(["apiVersion: v1", "clusters:"], AllClusterLines(c.clusters) + middle, url, context);
  }

  lemma {:induction false} UnlinesRewritten(lines: seq<string>, url: string, context: string)
    requires forall l | l in lines :: '\n' !in l
    ensures Rewrite(Unlines(lines), url, context) == Unlines(RewriteLines(lines, url, context))
  {
    hide RewriteLine, Pieces;
    if lines == [] {
      NoPieces();
    } else {
      var rest := Unlines(lines[1..]);
      UnlinesRewritten(lines[1..], url, context);
      FirstPiece(lines[0], rest);
      assert ([lines[0] + ['\n']] + Pieces(rest))[1..] == Pieces(rest);
      assert Body(lines[0] + ['\n']) == lines[0];
      var r := RewriteLine(lines[0], url, context);
      assert Rewrite(Unlines(lines), url, context) == r + ['\n'] + Rewrite(rest, url, context);
    }
  }

  lemma {:induction false} NoPieces()
    ensures Pieces("") == []
  {
  }

  lemma {:induction false} NoNewlineInClusters(es: seq<ClusterEntry>)
    requires forall e | e in es :: AreExtra(e.extra) && '\n' !in e.server && IsName(e.name)
    ensures forall l | l in AllClusterLines(es) :: '\n' !in l
  {
    hide IsWhitespace, IsAnchored;
    if es != [] {
      NoNewlineInClusters(es[1..]);
      KeysHaveNoNewline();
    }
  }

  lemma {:induction false} NoNewlineInContexts(es: seq<ContextEntry>)
    requires forall e | e in es :: '\n' !in e.cluster && '\n' !in e.user && IsName(e.name)
    ensures forall l | l in AllContextLines(es) :: '\n' !in l
  {
    hide IsWhitespace;
    if es != [] {
      NoNewlineInContexts(es[1..]);
      KeysHaveNoNewline();
    }
  }

  lemma {:induction false} NoNewlineInUsers(es: seq<UserEntry>)
    requires forall e | e in es :: AreExtra(e.extra) && IsName(e.name)
    ensures forall l | l in AllUserLines(es) :: '\n' !in l
  {
    hide IsWhitespace, IsAnchored;
    if es != [] {
      NoNewlineInUsers(es[1..]);
      KeysHaveNoNewline();
    }
  }

  /** Rewriting the text of a configuration gives the text of the renamed configuration. */
  lemma {:induction false} RenderedIsRenamed(c: Config, url: string, context: string)
    requires IsConfig(c)
    ensures Rewrite(Render(c), url, context) == Render(NewConfig(c, url, context))
  {
    hide ConfigLines, NewConfig, Rewrite, Unlines, IsConfig;
    NoNewlineInConfig(c);
    ConfigRewritten(c, url, context);
    UnlinesRewritten(ConfigLines(c), url, context);
  }

  lemma {:induction false} NoNewlineInConfig(c: Config)
    requires IsConfig(c)
    ensures forall l | l in ConfigLines(c) :: '\n' !in l
  {
    hide IsName, AreExtra, AllClusterLines, AllContextLines, AllUserLines;
    NoNewlineInClusters(c.clusters);
    NoNewlineInContexts(c.contexts);
    NoNewlineInUsers(c.users);
    KeysHaveNoNewline();
  }

  // ---- references -------------------------------------------------------------------

  function ClusterNames(es: seq<ClusterEntry>): seq<string> {
    if es == [] then [] else [es[0].name] + ClusterNames(es[1..])
  }

  function ContextNames(es: seq<ContextEntry>): seq<string> {
    if es == [] then [] else [es[0].name] + ContextNames(es[1..])
  }

  function UserNames(es: seq<UserEntry>): seq<string> {
    if es == [] then [] else [es[0].name] + UserNames(es[1..])
  }

  function NewNames(names: seq<string>, context: string): (r: seq<string>)
    ensures |r| == |names|
    ensures forall i :: 0 <= i < |names| ==> r[i] == NewName(names[i], context)
  {
    if names == [] then [] else [NewName(names[0], context)] + NewNames(names[1..], context)
  }

  lemma {:induction false} NamesAreRenamed(c: Config, url: string, context: string)
    ensures var n := NewConfig(c, url, context);
            && ClusterNames(n.clusters) == NewNames(ClusterNames(c.clusters), context)
            && ContextNames(n.contexts) == NewNames(ContextNames(c.contexts), context)
            && UserNames(n.users) == NewNames(UserNames(c.users), context)
  {
    NewClusterNames(c.clusters, url, context);
    NewContextNames(c.contexts, context);
    NewUserNames(c.users, context);
  }

  lemma {:induction false} NewClusterNames(es: seq<ClusterEntry>, url: string, context: string)
    ensures ClusterNames(NewClusters(es, url, context)) == NewNames(ClusterNames(es), context)
  {
    hide NewName;
    if es != [] {
      NewClusterNames(es[1..], url, context);
    }
  }

  lemma {:induction false} NewContextNames(es: seq<ContextEntry>, context: string)
    ensures ContextNames(NewContexts(es, context)) == NewNames(ContextNames(es), context)
  {
    hide NewName, NewReference;
    if es != [] {
      NewContextNames(es[1..], context);
    }
  }

  lemma {:induction false} NewUserNames(es: seq<UserEntry>, context: string)
    ensures UserNames(NewUsers(es, context)) == NewNames(UserNames(es), context)
  {
    hide NewName;
    if es != [] {
      NewUserNames(es[1..], context);
    }
  }

  /** The current context names a context, and each context names a cluster and a user. */
  predicate Resolves(c: Config) {
    && c.current in ContextNames(c.contexts)
    && forall i :: 0 <= i < |c.contexts| ==> ContextResolves(c, c.contexts[i])
  }

  predicate ContextResolves(c: Config, e: ContextEntry) {
    e.cluster in ClusterNames(c.clusters) && e.user in UserNames(c.users)
  }

  /** No default name is used outside its own role, unless it is the new name itself. */
  predicate IsInRole(reference: string, own: string, context: string) {
    IsDefault(reference) && reference != own ==> reference == context
  }

  predicate UsesOwnDefaults(c: Config, context: string) {
    && IsInRole(c.current, CONTEXT_DEFAULT, context)
    && forall i :: 0 <= i < |c.contexts| ==> ContextInRole(c.contexts[i], context)
  }

  predicate ContextInRole(e: ContextEntry, context: string) {
    IsInRole(e.cluster, CLUSTER_DEFAULT, context) && IsInRole(e.user, USER_DEFAULT, context)
  }

  lemma {:induction false} ReferenceResolves(names: seq<string>, reference: string, own: string, context: string)
    requires reference in names && IsDefault(own)
    ensures NewReference(reference, own, context) in NewNames(names, context) <==> IsInRole(reference, own, context)
  {
    var i :| 0 <= i < |names| && names[i] == reference;
    assert NewNames(names, context)[i] == NewName(reference, context);
    if !IsInRole(reference, own, context) {
      forall k | 0 <= k < |names| ensures NewNames(names, context)[k] != reference {
      }
    }
  }

  lemma {:induction false} DefaultsAreDefault()
    ensures IsDefault(CONTEXT_DEFAULT) && IsDefault(USER_DEFAULT) && IsDefault(CLUSTER_DEFAULT)
  {
  }

  lemma {:induction false} NewContextAt(es: seq<ContextEntry>, context: string, i: nat)
    requires i < |es|
    ensures NewContexts(es, context)[i].cluster == NewReference(es[i].cluster, CLUSTER_DEFAULT, context)
    ensures NewContexts(es, context)[i].user == NewReference(es[i].user, USER_DEFAULT, context)
  {
    hide NewReference, NewName;
    if i > 0 {
      NewContextAt(es[1..], context, i - 1);
    }
  }

  /** A configuration whose references resolve still resolves after the rewriting exactly when
      no reference is a default name of another role. */
  lemma {:induction false} ReferencesResolve(c: Config, url: string, context: string)
    requires Resolves(c)
    ensures Resolves(NewConfig(c, url, context)) <==> UsesOwnDefaults(c, context)
  {
    hide IsInRole, NewReference, NewName, IsDefault, NewClusters, NewUsers, NewContexts, NewNames,
         ClusterNames, UserNames, ContextNames;
    var n := NewConfig(c, url, context);
    NamesAreRenamed(c, url, context);
    DefaultsAreDefault();
    ReferenceResolves(ContextNames(c.contexts), c.current, CONTEXT_DEFAULT, context);
    forall i | 0 <= i < |c.contexts|
      ensures ContextResolves(n, n.contexts[i]) <==> ContextInRole(c.contexts[i], context)
    {
      assert ContextResolves(c, c.contexts[i]);
      NewContextAt(c.contexts, context, i);
      ReferenceResolves(ClusterNames(c.clusters), c.contexts[i].cluster, CLUSTER_DEFAULT, context);
      ReferenceResolves(UserNames(c.users), c.contexts[i].user, USER_DEFAULT, context);
    }
  }

  /** The first entry with a name. */
  function First(names: seq<string>, name: string): (i: nat)
    ensures i <= |names| && name !in names[..i]
    ensures i < |names| ==> names[i] == name
    ensures i == |names| <==> name !in names
  {
    if names == [] || names[0] == name then 0 else 1 + First(names[1..], name)
  }

  /** A reference that still resolves finds the entry it found before, unless an earlier entry
      had a default name or already the new one. */
  lemma {:induction false} SameEntry(names: seq<string>, reference: string, own: string, context: string)
    requires reference in names && IsDefault(own) && IsInRole(reference, own, context)
    ensures First(NewNames(names, context), NewReference(reference, own, context)) == First(names, reference)
      <==> (reference == own || reference == context ==>
              forall k :: 0 <= k < First(names, reference) ==> !IsDefault(names[k]) && names[k] != context)
  {
    hide IsDefault, NewName, NewReference, First, NewNames, IsInRole;
    var at := First(names, reference);
    var renamed, r := NewNames(names, context), NewReference(reference, own, context);
    SameRename(reference, own, context);
    assert renamed[at] == r;
    FirstIs(renamed, r, at);
    forall k | 0 <= k < at
      ensures renamed[k] == r <==> (reference == own || reference == context) && (IsDefault(names[k]) || names[k] == context)
    {
      assert names[k] == names[..at][k];
      Clash(names[k], reference, own, context);
    }
    assert r in renamed[..at] <==> exists k :: 0 <= k < at && renamed[k] == r;
  }

  lemma {:induction false} SameRename(reference: string, own: string, context: string)
    requires IsDefault(own) && IsInRole(reference, own, context)
    ensures NewName(reference, context) == NewReference(reference, own, context)
  {
    hide IsDefault;
  }

  lemma {:induction false} FirstIs(names: seq<string>, name: string, at: nat)
    requires at < |names| && names[at] == name
    ensures First(names, name) == at <==> name !in names[..at]
  {
    hide First;
    var i := First(names, name);
    forall k | 0 <= k < i ensures names[k] != name {
      assert names[..i][k] == names[k];
    }
    if i < at {
      assert names[..at][i] == name;
    }
  }

  lemma {:induction false} Clash(name: string, reference: string, own: string, context: string)
    requires name != reference && IsDefault(own) && IsInRole(reference, own, context)
    ensures NewName(name, context) == NewReference(reference, own, context)
      <==> (reference == own || reference == context) && (IsDefault(name) || name == context)
  {
    hide IsDefault;
  }

  /** A user called `kubernetes` breaks its context: the entry is renamed, the reference is not. */
  lemma {:induction false} UserNamedAfterCluster()
    ensures var c := Config([ClusterEntry([], "https://cp:6443", "kubernetes")],
                            [ContextEntry("kubernetes", "kubernetes", "main")], "main", [UserEntry("kubernetes", [])]);
            Resolves(c) && !Resolves(NewConfig(c, "https://kvm:6443", "prod"))
  {
    var c := Config([ClusterEntry([], "https://cp:6443", "kubernetes")],
                    [ContextEntry("kubernetes", "kubernetes", "main")], "main", [UserEntry("kubernetes", [])]);
    assert ClusterNames(c.clusters) == ["kubernetes"] && UserNames(c.users) == ["kubernetes"];
    assert ContextNames(c.contexts) == ["main"];
    assert "kubernetes" != "kubernetes-admin" && "kubernetes" != "prod";
    assert !ContextInRole(c.contexts[0], "prod");
    ReferencesResolve(c, "https://kvm:6443", "prod");
  }
}
