/** DHCP reservations kept by text search over a network's XML dump
    (commands/deploy_cluster.rs `classify_dhcp_reservation`, `ensure_dhcp_reservation`;
    hbird-virt `net_update_add_ip_dhcp_host`, `net_update_delete_ip_dhcp_host`,
    `find_ip_dhcp_host_by_name`), against the table of reservations the dump shows. */
module Dhcp {
  import opened Text
  import opened Network

  datatype Host = Host(mac: string, name: Option<string>, ip: string)

  // ---- the dump ---------------------------------------------------------------------

  /** A host element, cut at its quotes. */
  function Pieces(h: Host): (r: seq<string>)
    ensures r != []
  {
    match h.name
    case None => ["<host mac=", h.mac, " ip=", h.ip, "/>"]
    case Some(n) => ["<host mac=", h.mac, " name=", n, " ip=", h.ip, "/>"]
  }

  /** `<host mac='..' name='..' ip='..'/>` */
  function Render(h: Host): string {
    JoinWith(Pieces(h), '\'')
  }

  /** A field that an attribute value can hold in a dump. */
  predicate IsValue(s: string) {
    PlainLine(s) && '\'' !in s
  }

  predicate IsHost(h: Host) {
    IsValue(h.mac) && IsValue(h.ip) && (h.name.Some? ==> IsValue(h.name.value))
  }

  predicate IsNameChar(c: char) {
    IsDigit(c) || 'a' <= c <= 'z' || 'A' <= c <= 'Z' || c == '.' || c == '_' || c == '-' || c == ':'
  }

  /** A domain name, MAC or address as the deployment passes it. */
  predicate IsName(s: string) {
    forall i :: 0 <= i < |s| ==> IsNameChar(s[i])
  }

  /** The text `n` occurs in `s` at `i`. */
  predicate OccursAt(s: string, n: string, i: nat) {
    i + |n| <= |s| && s[i..i + |n|] == n
  }

  predicate Contains(s: string, n: string) {
    exists i :: 0 <= i <= |s| && OccursAt(s, n, i)
  }

  /** The lines of a dump: `before`, one line for each host after `indent`, `after`.  The other
      lines may be anything, `<host>` lines of other sections among them. */
  datatype Frame = Frame(before: seq<string>, indent: string, after: seq<string>)

  function Others(f: Frame): seq<string> {
    f.before + f.after
  }

  predicate IsFrame(f: Frame) {
    && (forall i :: 0 <= i < |Others(f)| ==> PlainLine(Others(f)[i]))
    && f.after != [] && f.after[|f.after| - 1] != ""
    && (forall i :: 0 <= i < |f.indent| ==> f.indent[i] == ' ')
  }

  function HostLines(f: Frame, table: seq<Host>): (r: seq<string>)
    ensures |r| == |table|
  {
    seq(|table|, i requires 0 <= i < |table| => f.indent + Render(table[i]))
  }

  function DumpLines(f: Frame, table: seq<Host>): seq<string> {
    f.before + HostLines(f, table) + f.after
  }

  /** `net-dumpxml` of a network with this table. */
  function Dump(f: Frame, table: seq<Host>): string {
    JoinLines(DumpLines(f, table))
  }

  // ---- the program's searches -------------------------------------------------------

  datatype ReservationCheck = AlreadyPresent | IpTakenByOtherMac | Absent

  function Quoted(attribute: string, value: string): string {
    attribute + ['\''] + (value + ['\''])
  }

  /** `classify_dhcp_reservation` */
  function Classify(xml: string, mac: string, ip: string): ReservationCheck {
    if Contains(Lower(xml), Quoted("mac=", Lower(mac))) then AlreadyPresent
    else if Contains(xml, Quoted("ip=", ip)) then IpTakenByOtherMac
    else Absent
  }

  predicate IsHostLineFor(line: string, name: string) {
    "<host " <= line && Contains(line, Quoted("name=", name))
  }

  function FirstHostLine(lines: seq<string>, name: string): Option<string> {
    if lines == [] then None
    else if IsHostLineFor(Trim(lines[0]), name) then Some(Trim(lines[0]))
    else FirstHostLine(lines[1..], name)
  }

  /** `find_ip_dhcp_host_by_name` */
  function FindHostByName(xml: string, name: string): Option<string> {
    FirstHostLine(Lines(xml), name)
  }

  // ---- occurrences of an attribute --------------------------------------------------

  predicate EndsWith(s: string, t: string) {
    |t| <= |s| && s[|s| - |t|..] == t
  }

  /** Some quoted value `value` stands right after a piece that ends with `attribute`. */
  predicate AttributeAt(pieces: seq<string>, attribute: string, value: string, i: nat) {
    i + 2 < |pieces| && EndsWith(pieces[i], attribute) && pieces[i + 1] == value
  }

  predicate HasAttribute(pieces: seq<string>, attribute: string, value: string) {
    exists i :: 0 <= i < |pieces| && AttributeAt(pieces, attribute, value, i)
  }

  predicate QuoteFree(pieces: seq<string>) {
    forall i :: 0 <= i < |pieces| ==> '\'' !in pieces[i]
  }

  lemma {:induction false} NoOccurrenceWithoutQuote(s: string, attribute: string, value: string, i: nat)
    requires '\'' !in s
    ensures !OccursAt(s, Quoted(attribute, value), i)
  {
    var n := Quoted(attribute, value);
    assert n[|attribute|] == '\'';
    if i + |n| <= |s| {
      assert s[i..i + |n|][|attribute|] == s[i + |attribute|];
    }
  }

  /** An occurrence in `p'rest` uses the first quote, or lies behind it. */
  lemma {:induction false} OccurrenceSplit(p: string, rest: string, attribute: string, value: string, i: nat)
    requires '\'' !in p && '\'' !in attribute
    ensures OccursAt(p + ['\''] + rest, Quoted(attribute, value), i) <==>
      if i + |attribute| < |p| then false
      else if i + |attribute| == |p| then EndsWith(p, attribute) && value + ['\''] <= rest
      else |p| < i && OccursAt(rest, Quoted(attribute, value), i - |p| - 1)
  {
    var s, n := p + ['\''] + rest, Quoted(attribute, value);
    var k := |attribute|;
    assert n[k] == '\'' && n[..k] == attribute && n[k + 1..] == value + ['\''];
    if i + |n| <= |s| {
      var here := s[i..i + |n|];
      assert here[k] == s[i + k];
      if i + k == |p| {
        assert here == p[i..] + ['\''] + rest[..|value| + 1];
        assert here[..k] == p[i..] && here[k + 1..] == rest[..|value| + 1];
        assert here == n <==> here[..k] == n[..k] && here[k + 1..] == n[k + 1..] by {
          assert here == here[..k] + [here[k]] + here[k + 1..];
          assert n == n[..k] + [n[k]] + n[k + 1..];
        }
      } else if |p| < i + k && i <= |p| {
        assert here[|p| - i] == '\'' && n[|p| - i] == attribute[|p| - i];
      } else if |p| < i {
        assert here == rest[i - |p| - 1..i - |p| - 1 + |n|];
      }
    }
  }

  lemma {:induction false} ValuePrefix(value: string, q: string, rest: string)
    requires '\'' !in value && '\'' !in q
    ensures value + ['\''] <= q + ['\''] + rest <==> value == q
    ensures !(value + ['\''] <= q)
  {
    var v, t := value + ['\''], q + ['\''] + rest;
    IndexOfAppend(q, '\'', rest);
    assert v[|value|] == '\'' && forall k :: 0 <= k < |q| ==> q[k] != '\'';
    if v <= t {
      IndexOfAppend(value, '\'', t[|v|..]);
      assert t == value + ['\''] + t[|v|..];
      assert t[..|q|] == q && t[..|value|] == value;
    }
  }

  /** Searching the text for a quoted attribute is looking at the pieces between quotes. */
  lemma {:induction false} ContainsIffAttribute(pieces: seq<string>, attribute: string, value: string)
    requires pieces != [] && QuoteFree(pieces) && '\'' !in attribute && '\'' !in value
    ensures Contains(JoinWith(pieces, '\''), Quoted(attribute, value)) <==> HasAttribute(pieces, attribute, value)
  {
    var s, n := JoinWith(pieces, '\''), Quoted(attribute, value);
    if |pieces| == 1 {
      forall i | 0 <= i <= |s| ensures !OccursAt(s, n, i) {
        NoOccurrenceWithoutQuote(s, attribute, value, i);
      }
    } else {
      var rest := JoinWith(pieces[1..], '\'');
      assert QuoteFree(pieces[1..]);
      ContainsIffAttribute(pieces[1..], attribute, value);
      ContainsStep(pieces[0], rest, attribute, value);
      HeadOfJoin(pieces[1..], value);
      AttributeStep(pieces, attribute, value);
    }
  }

  lemma {:induction false} HeadOfJoin(pieces: seq<string>, value: string)
    requires pieces != [] && QuoteFree(pieces) && '\'' !in value
    ensures value + ['\''] <= JoinWith(pieces, '\'') <==> |pieces| > 1 && pieces[0] == value
  {
    ValuePrefix(value, pieces[0], if |pieces| > 1 then JoinWith(pieces[1..], '\'') else "");
  }

  lemma {:induction false} ContainsStep(p: string, rest: string, attribute: string, value: string)
    requires '\'' !in p && '\'' !in attribute
    ensures Contains(p + ['\''] + rest, Quoted(attribute, value)) <==>
      (EndsWith(p, attribute) && value + ['\''] <= rest) || Contains(rest, Quoted(attribute, value))
  {
    hide OccursAt, EndsWith, Quoted;
    var s, n := p + ['\''] + rest, Quoted(attribute, value);
    forall i: nat
      ensures OccursAt(s, n, i) <==>
        if i + |attribute| < |p| then false
        else if i + |attribute| == |p| then EndsWith(p, attribute) && value + ['\''] <= rest
        else |p| < i && OccursAt(rest, n, i - |p| - 1)
    {
      OccurrenceSplit(p, rest, attribute, value, i);
    }
    if EndsWith(p, attribute) && value + ['\''] <= rest {
      assert |attribute| <= |p| by {
        EndsWithLength(p, attribute);
      }
      assert OccursAt(s, n, |p| - |attribute|);
    }
    if Contains(rest, n) {
      var i :| 0 <= i <= |rest| && OccursAt(rest, n, i);
      assert OccursAt(s, n, i + |p| + 1) by {
        assert i + |p| + 1 - |p| - 1 == i;
      }
    }
    if Contains(s, n) {
      var i :| 0 <= i <= |s| && OccursAt(s, n, i);
      if i + |attribute| != |p| {
        assert OccursAt(rest, n, i - |p| - 1);
      }
    }
  }

  lemma {:induction false} EndsWithLength(s: string, t: string)
    requires EndsWith(s, t)
    ensures |t| <= |s|
  {
  }

  lemma {:induction false} AttributeStep(pieces: seq<string>, attribute: string, value: string)
    requires 1 < |pieces|
    ensures HasAttribute(pieces, attribute, value) <==>
      AttributeAt(pieces, attribute, value, 0) || HasAttribute(pieces[1..], attribute, value)
  {
    hide EndsWith;
    if HasAttribute(pieces[1..], attribute, value) {
      var i :| 0 <= i < |pieces| - 1 && AttributeAt(pieces[1..], attribute, value, i);
      assert AttributeAt(pieces, attribute, value, i + 1);
    }
    if HasAttribute(pieces, attribute, value) && !AttributeAt(pieces, attribute, value, 0) {
      var i :| 0 <= i < |pieces| && AttributeAt(pieces, attribute, value, i);
      assert AttributeAt(pieces[1..], attribute, value, i - 1);
    }
  }

  // ---- a host line ------------------------------------------------------------------

  /** The pieces of an indented host line. */
  function LinePieces(indent: string, h: Host): (r: seq<string>)
    ensures r != []
  {
    [indent + "<host mac="] + Pieces(h)[1..]
  }

  lemma {:induction false} LineIsJoined(indent: string, h: Host)
    ensures indent + Render(h) == JoinWith(LinePieces(indent, h), '\'')
  {
    var p, q := Pieces(h), LinePieces(indent, h);
    assert q[1..] == p[1..];
    assert Render(h) == "<host mac=" + ['\''] + JoinWith(p[1..], '\'');
  }

  lemma {:induction false} NamesAreSolid(s: string)
    requires IsName(s)
    ensures ' ' !in s && '=' !in s && '/' !in s && '\'' !in s && '\n' !in s && '\r' !in s
  {
    forall c | c in s ensures IsNameChar(c) {
      var i :| 0 <= i < |s| && s[i] == c;
      assert IsNameChar(s[i]);
    }
  }

  /** The value searched for is none of the texts between values. */
  lemma {:induction false} ValueIsNotMarkup(value: string)
    requires IsName(value)
    ensures value != " name=" && value != " ip=" && value != "/>"
  {
    NamesAreSolid(value);
    assert " name="[0] == ' ' && " ip="[0] == ' ' && "/>"[0] == '/';
  }

  lemma {:induction false} NamedLineAttributes(first: string, mac: string, name: string, ip: string,
                                               attribute: string, value: string)
    requires value != " name=" && value != " ip=" && value != "/>"
    ensures HasAttribute([first, mac, " name=", name, " ip=", ip, "/>"], attribute, value) <==>
      || (EndsWith(first, attribute) && mac == value)
      || (EndsWith(" name=", attribute) && name == value)
      || (EndsWith(" ip=", attribute) && ip == value)
  {
    hide EndsWith;
    var p := [first, mac, " name=", name, " ip=", ip, "/>"];
    assert AttributeAt(p, attribute, value, 0) <==> EndsWith(first, attribute) && mac == value;
    assert AttributeAt(p, attribute, value, 2) <==> EndsWith(" name=", attribute) && name == value;
    assert AttributeAt(p, attribute, value, 4) <==> EndsWith(" ip=", attribute) && ip == value;
    forall i | 0 <= i < |p| && AttributeAt(p, attribute, value, i) ensures i == 0 || i == 2 || i == 4 {
      assert p[2] == " name=" && p[4] == " ip=" && p[6] == "/>";
    }
  }

  lemma {:induction false} UnnamedLineAttributes(first: string, mac: string, ip: string, attribute: string, value: string)
    requires value != " ip=" && value != "/>"
    ensures HasAttribute([first, mac, " ip=", ip, "/>"], attribute, value) <==>
      || (EndsWith(first, attribute) && mac == value)
      || (EndsWith(" ip=", attribute) && ip == value)
  {
    hide EndsWith;
    var p := [first, mac, " ip=", ip, "/>"];
    assert AttributeAt(p, attribute, value, 0) <==> EndsWith(first, attribute) && mac == value;
    assert AttributeAt(p, attribute, value, 2) <==> EndsWith(" ip=", attribute) && ip == value;
    forall i | 0 <= i < |p| && AttributeAt(p, attribute, value, i) ensures i == 0 || i == 2 {
      assert p[2] == " ip=" && p[4] == "/>";
    }
  }

  /** In a host line, each of the three attributes is found with exactly its own value. */
  lemma {:induction false} LineAttributes(indent: string, h: Host, value: string)
    requires IsName(value)
    ensures HasAttribute(LinePieces(indent, h), "mac=", value) <==> h.mac == value
    ensures HasAttribute(LinePieces(indent, h), "ip=", value) <==> h.ip == value
    ensures HasAttribute(LinePieces(indent, h), "name=", value) <==> h.name == Some(value)
  {
    hide EndsWith, HasAttribute, IsName;
    var first := indent + "<host mac=";
    ValueIsNotMarkup(value);
    MarkupEnds(indent);
    match h.name
    case None =>
      assert LinePieces(indent, h) == [first, h.mac, " ip=", h.ip, "/>"];
      UnnamedLineAttributes(first, h.mac, h.ip, "mac=", value);
      UnnamedLineAttributes(first, h.mac, h.ip, "ip=", value);
      UnnamedLineAttributes(first, h.mac, h.ip, "name=", value);
    case Some(n) =>
      assert LinePieces(indent, h) == [first, h.mac, " name=", n, " ip=", h.ip, "/>"];
      NamedLineAttributes(first, h.mac, n, h.ip, "mac=", value);
      NamedLineAttributes(first, h.mac, n, h.ip, "ip=", value);
      NamedLineAttributes(first, h.mac, n, h.ip, "name=", value);
  }

  /** Which of the pieces that are not values end with which attribute. */
  lemma {:induction false} MarkupEnds(indent: string)
    ensures EndsWith(indent + "<host mac=", "mac=") && !EndsWith(indent + "<host mac=", "ip=")
    ensures !EndsWith(indent + "<host mac=", "name=")
    ensures EndsWith(" name=", "name=") && !EndsWith(" name=", "mac=") && !EndsWith(" name=", "ip=")
    ensures EndsWith(" ip=", "ip=") && !EndsWith(" ip=", "mac=") && !EndsWith(" ip=", "name=")
  {
    hide EndsWith;
    MacMarkupEnds(indent);
    NameMarkupEnds();
    IpMarkupEnds();
  }

  lemma {:induction false} MacMarkupEnds(indent: string)
    ensures EndsWith(indent + "<host mac=", "mac=") && !EndsWith(indent + "<host mac=", "ip=")
    ensures !EndsWith(indent + "<host mac=", "name=")
  {
    var s := indent + "<host mac=";
    assert s[|s| - 4..] == "mac=";
    assert s[|s| - 3..][0] == 'a' && "ip="[0] == 'i';
    assert s[|s| - 5..][0] == ' ' && "name="[0] == 'n';
  }

  lemma {:induction false} NameMarkupEnds()
    ensures EndsWith(" name=", "name=") && !EndsWith(" name=", "mac=") && !EndsWith(" name=", "ip=")
  {
    assert " name="[1..] == "name=";
    assert " name="[2..][0] == 'a' && " name="[3..][0] == 'm';
  }

  lemma {:induction false} IpMarkupEnds()
    ensures EndsWith(" ip=", "ip=") && !EndsWith(" ip=", "mac=") && !EndsWith(" ip=", "name=")
  {
    assert " ip="[1..] == "ip=" && " ip="[0] == ' ';
  }

  // ---- the searches are table lookups -----------------------------------------------

  lemma {:induction false} LinePiecesQuoteFree(indent: string, h: Host)
    requires IsHost(h) && '\'' !in indent
    ensures QuoteFree(LinePieces(indent, h))
  {
    assert '\'' !in "<host mac=";
  }

  lemma {:induction false} LineContains(indent: string, h: Host, value: string)
    requires IsHost(h) && IsName(value) && '\'' !in indent
    ensures Contains(indent + Render(h), Quoted("mac=", value)) <==> h.mac == value
    ensures Contains(indent + Render(h), Quoted("ip=", value)) <==> h.ip == value
    ensures Contains(indent + Render(h), Quoted("name=", value)) <==> h.name == Some(value)
  {
    hide Contains, HasAttribute, Quoted, Render, LinePieces;
    NamesAreSolid(value);
    LineIsJoined(indent, h);
    LinePiecesQuoteFree(indent, h);
    LineAttributes(indent, h, value);
    ContainsIffAttribute(LinePieces(indent, h), "mac=", value);
    ContainsIffAttribute(LinePieces(indent, h), "ip=", value);
    ContainsIffAttribute(LinePieces(indent, h), "name=", value);
  }

  lemma {:induction false} LowerParts(a: string, b: string)
    ensures Lower(a + b) == Lower(a) + Lower(b)
  {
  }

  /** The same host with its values in lower case. */
  function LowerHost(h: Host): Host {
    Host(Lower(h.mac), match h.name case None => None case Some(n) => Some(Lower(n)), Lower(h.ip))
  }

  lemma {:induction false} LowerJoin(pieces: seq<string>, lowered: seq<string>)
    requires pieces != [] && |lowered| == |pieces|
    requires forall i :: 0 <= i < |pieces| ==> lowered[i] == Lower(pieces[i])
    ensures Lower(JoinWith(pieces, '\'')) == JoinWith(lowered, '\'')
  {
    hide Lower;
    if 1 < |pieces| {
      LowerJoin(pieces[1..], lowered[1..]);
      LowerParts(pieces[0] + ['\''], JoinWith(pieces[1..], '\''));
      LowerParts(pieces[0], ['\'']);
      LowerOfQuote();
    }
  }

  lemma {:induction false} LowerOfQuote()
    ensures Lower("'") == "'"
  {
  }

  lemma {:induction false} LowerOfMarkup()
    ensures Lower("<host mac=") == "<host mac=" && Lower(" name=") == " name="
    ensures Lower(" ip=") == " ip=" && Lower("/>") == "/>"
  {
  }

  /** A host line in lower case is the line of the host in lower case. */
  lemma {:induction false} LowerOfLine(indent: string, h: Host)
    requires forall i :: 0 <= i < |indent| ==> indent[i] == ' '
    ensures Lower(indent + Render(h)) == indent + Render(LowerHost(h))
  {
    hide Lower;
    LowerParts(indent, Render(h));
    LowerOfMarkup();
    LowerJoin(Pieces(h), Pieces(LowerHost(h)));
    LowerOfSpaces(indent);
  }

  lemma {:induction false} LowerOfSpaces(indent: string)
    requires forall i :: 0 <= i < |indent| ==> indent[i] == ' '
    ensures Lower(indent) == indent
  {
  }

  lemma {:induction false} LowerKeepsShape(s: string)
    ensures IsName(s) ==> IsName(Lower(s))
    ensures IsValue(s) ==> IsValue(Lower(s))
    ensures '\n' !in s ==> '\n' !in Lower(s)
  {
    if IsName(s) {
      forall i | 0 <= i < |s| ensures IsNameChar(Lower(s)[i]) {
        assert IsNameChar(s[i]);
      }
    }
  }

  lemma {:induction false} LowerHostIsHost(h: Host)
    requires IsHost(h)
    ensures IsHost(LowerHost(h))
  {
    hide Lower, IsValue;
    LowerKeepsShape(h.mac);
    LowerKeepsShape(h.ip);
    if h.name.Some? {
      LowerKeepsShape(h.name.value);
    }
  }

  // A text without a newline occurs in joined lines exactly when it occurs in one of them.

  lemma {:induction false} OccursAcross(line: string, rest: string, n: string, i: nat)
    requires '\n' !in n && n != "" && '\n' !in line
    ensures OccursAt(line + ['\n'] + rest, n, i) <==>
      if i <= |line| then OccursAt(line, n, i) else OccursAt(rest, n, i - |line| - 1)
  {
    var s := line + ['\n'] + rest;
    if i + |n| <= |s| {
      var here := s[i..i + |n|];
      if i + |n| <= |line| {
        assert here == line[i..i + |n|];
      } else if |line| < i {
        assert here == rest[i - |line| - 1..i - |line| - 1 + |n|];
      } else {
        assert here[|line| - i] == '\n';
        assert forall k :: 0 <= k < |n| ==> n[k] != '\n';
      }
    }
  }

  lemma {:induction false} ContainsAcross(line: string, rest: string, n: string)
    requires '\n' !in n && n != "" && '\n' !in line
    ensures Contains(line + ['\n'] + rest, n) <==> Contains(line, n) || Contains(rest, n)
  {
    hide OccursAt;
    var s := line + ['\n'] + rest;
    forall i: nat
      ensures OccursAt(s, n, i) <==> if i <= |line| then OccursAt(line, n, i) else OccursAt(rest, n, i - |line| - 1)
    {
      OccursAcross(line, rest, n, i);
    }
    if Contains(line, n) {
      var i :| 0 <= i <= |line| && OccursAt(line, n, i);
      assert OccursAt(s, n, i);
    }
    if Contains(rest, n) {
      var i :| 0 <= i <= |rest| && OccursAt(rest, n, i);
      assert OccursAt(s, n, i + |line| + 1) by {
        assert i + |line| + 1 - |line| - 1 == i;
      }
    }
    if Contains(s, n) {
      var i :| 0 <= i <= |s| && OccursAt(s, n, i);
      if i > |line| {
        assert OccursAt(rest, n, i - |line| - 1);
      }
    }
  }

  lemma {:induction false} ContainsInLines(lines: seq<string>, n: string)
    requires lines != [] && n != "" && '\n' !in n
    requires forall i :: 0 <= i < |lines| ==> '\n' !in lines[i]
    ensures Contains(JoinLines(lines), n) <==> exists i :: 0 <= i < |lines| && Contains(lines[i], n)
  {
    hide Contains;
    if |lines| > 1 {
      ContainsInLines(lines[1..], n);
      assert JoinLines(lines) == lines[0] + ['\n'] + JoinLines(lines[1..]);
      ContainsAcross(lines[0], JoinLines(lines[1..]), n);
      if exists i :: 0 <= i < |lines| && Contains(lines[i], n) {
        var i :| 0 <= i < |lines| && Contains(lines[i], n);
        if i > 0 {
          assert Contains(lines[1..][i - 1], n);
        }
      }
    } else {
      assert JoinLines(lines) == lines[0];
    }
  }

  lemma {:induction false} LowerOfLines(lines: seq<string>, lowered: seq<string>)
    requires |lowered| == |lines| && forall i :: 0 <= i < |lines| ==> lowered[i] == Lower(lines[i])
    ensures Lower(JoinLines(lines)) == JoinLines(lowered)
  {
    hide Lower;
    if lines == [] {
      assert Lower("") == "" by {
        LowerOfSpaces("");
      }
    } else if |lines| > 1 {
      LowerOfLines(lines[1..], lowered[1..]);
      LowerParts(lines[0] + "\n", JoinLines(lines[1..]));
      LowerParts(lines[0], "\n");
      LowerOfNewline();
    }
  }

  lemma {:induction false} LowerOfNewline()
    ensures Lower("\n") == "\n"
  {
  }

  predicate IsTable(table: seq<Host>) {
    forall i :: 0 <= i < |table| ==> IsHost(table[i])
  }

  predicate MacTaken(table: seq<Host>, mac: string) {
    exists i :: 0 <= i < |table| && Lower(table[i].mac) == Lower(mac)
  }

  predicate IpTaken(table: seq<Host>, ip: string) {
    exists i :: 0 <= i < |table| && table[i].ip == ip
  }

  /** Another line of the dump has the text that is searched for. */
  predicate MacElsewhere(f: Frame, mac: string) {
    exists i :: 0 <= i < |Others(f)| && Contains(Lower(Others(f)[i]), Quoted("mac=", Lower(mac)))
  }

  predicate IpElsewhere(f: Frame, ip: string) {
    exists i :: 0 <= i < |Others(f)| && Contains(Others(f)[i], Quoted("ip=", ip))
  }

  /** Where a line of the dump comes from: a reservation, or one of the other lines. */
  lemma {:induction false} LineAt(f: Frame, table: seq<Host>, i: nat)
    requires i < |DumpLines(f, table)|
    ensures var (l, n) := (DumpLines(f, table)[i], |f.before|);
            if i < n then i < |Others(f)| && l == Others(f)[i]
            else if i < n + |table| then l == f.indent + Render(table[i - n])
            else i - |table| < |Others(f)| && l == Others(f)[i - |table|]
  {
    hide Render;
  }

  lemma {:induction false} OtherAt(f: Frame, table: seq<Host>, k: nat)
    requires k < |Others(f)|
    ensures var i := if k < |f.before| then k else k + |table|;
            i < |DumpLines(f, table)| && DumpLines(f, table)[i] == Others(f)[k]
  {
    hide Render;
  }

  /** The search for an address finds it exactly when some reservation or another line has it. */
  lemma {:induction false} IpSearch(f: Frame, table: seq<Host>, ip: string)
    requires IsFrame(f) && IsTable(table) && IsName(ip)
    ensures Contains(Dump(f, table), Quoted("ip=", ip)) <==> IpTaken(table, ip) || IpElsewhere(f, ip)
  {
    hide Contains, Render, IsHost, IsName, Quoted, DumpLines, Others, HostLines;
    var lines, n := DumpLines(f, table), Quoted("ip=", ip);
    NeedleIsPlain("ip=", ip);
    DumpLinesArePlain(f, table);
    ContainsInLines(lines, n);
    forall i | 0 <= i < |table| ensures |f.before| + i < |lines| && (Contains(lines[|f.before| + i], n) <==> table[i].ip == ip) {
      DumpSize(f, table);
      LineAt(f, table, |f.before| + i);
      LineContains(f.indent, table[i], ip);
    }
    if IpElsewhere(f, ip) {
      var k :| 0 <= k < |Others(f)| && Contains(Others(f)[k], n);
      OtherAt(f, table, k);
    }
    if exists i :: 0 <= i < |lines| && Contains(lines[i], n) {
      var i :| 0 <= i < |lines| && Contains(lines[i], n);
      LineAt(f, table, i);
      assert |f.before| <= i < |f.before| + |table| ==> table[i - |f.before|].ip == ip;
    }
  }

  lemma {:induction false} DumpSize(f: Frame, table: seq<Host>)
    ensures |DumpLines(f, table)| == |f.before| + |table| + |f.after|
  {
  }

  lemma {:induction false} NeedleIsPlain(attribute: string, value: string)
    requires IsName(value) && '\n' !in attribute
    ensures '\n' !in Quoted(attribute, value) && Quoted(attribute, value) != ""
  {
    NamesAreSolid(value);
  }

  lemma {:induction false} RenderIsPlain(h: Host)
    requires IsHost(h)
    ensures PlainLine(Render(h))
  {
    var p := Pieces(h);
    assert forall i :: 0 <= i < |p| ==> PlainLine(p[i]);
    JoinIsPlain(p);
  }

  lemma {:induction false} JoinIsPlain(pieces: seq<string>)
    requires pieces != [] && forall i :: 0 <= i < |pieces| ==> PlainLine(pieces[i])
    ensures PlainLine(JoinWith(pieces, '\''))
  {
    if 1 < |pieces| {
      JoinIsPlain(pieces[1..]);
    }
  }

  lemma {:induction false} DumpLinesArePlain(f: Frame, table: seq<Host>)
    requires IsFrame(f) && IsTable(table)
    ensures DumpLines(f, table) != []
    ensures forall i :: 0 <= i < |DumpLines(f, table)| ==> PlainLine(DumpLines(f, table)[i])
  {
    hide Render, IsHost, Others;
    var lines := DumpLines(f, table);
    forall i | 0 <= i < |lines| ensures PlainLine(lines[i]) {
      LineAt(f, table, i);
      if |f.before| <= i < |f.before| + |table| {
        RenderIsPlain(table[i - |f.before|]);
        assert PlainLine(f.indent);
      }
    }
  }

  /** The search for a MAC, both sides in lower case, finds it exactly when some reservation or
      another line has it up to case. */
  lemma {:induction false} MacSearch(f: Frame, table: seq<Host>, mac: string)
    requires IsFrame(f) && IsTable(table) && IsName(mac)
    ensures Contains(Lower(Dump(f, table)), Quoted("mac=", Lower(mac))) <==> MacTaken(table, mac) || MacElsewhere(f, mac)
  {
    hide Contains, Render, IsHost, IsName, Lower, Quoted, DumpLines, Others, HostLines;
    var lines, n := DumpLines(f, table), Quoted("mac=", Lower(mac));
    var lowered := seq(|lines|, i requires 0 <= i < |lines| => Lower(lines[i]));
    LowerOfLines(lines, lowered);
    LowerKeepsShape(mac);
    NeedleIsPlain("mac=", Lower(mac));
    DumpLinesArePlain(f, table);
    DumpSize(f, table);
    forall i | 0 <= i < |lowered| ensures '\n' !in lowered[i] {
      LowerKeepsShape(lines[i]);
    }
    ContainsInLines(lowered, n);
    forall i | 0 <= i < |table| ensures Contains(lowered[|f.before| + i], n) <==> Lower(table[i].mac) == Lower(mac) {
      LineAt(f, table, |f.before| + i);
      LowerOfLine(f.indent, table[i]);
      LowerHostIsHost(table[i]);
      LineContains(f.indent, LowerHost(table[i]), Lower(mac));
    }
    if MacElsewhere(f, mac) {
      var k :| 0 <= k < |Others(f)| && Contains(Lower(Others(f)[k]), n);
      OtherAt(f, table, k);
      assert Contains(lowered[if k < |f.before| then k else k + |table|], n);
    }
    if MacTaken(table, mac) {
      var i :| 0 <= i < |table| && Lower(table[i].mac) == Lower(mac);
      assert Contains(lowered[|f.before| + i], n);
    }
    if exists i :: 0 <= i < |lowered| && Contains(lowered[i], n) {
      var i :| 0 <= i < |lowered| && Contains(lowered[i], n);
      LineAt(f, table, i);
      assert |f.before| <= i < |f.before| + |table| ==> Lower(table[i - |f.before|].mac) == Lower(mac);
    }
  }

  /** What a lookup in the table itself decides. */
  function Lookup(table: seq<Host>, mac: string, ip: string): ReservationCheck {
    if MacTaken(table, mac) then AlreadyPresent else if IpTaken(table, ip) then IpTakenByOtherMac else Absent
  }

  /** On every dump of the table the text search never overlooks a reservation, and it decides
      what a lookup in the table decides exactly when no other line of the dump has the MAC or
      the address that the table does not have. */
  lemma {:induction false} ClassifyIsLookup(f: Frame, table: seq<Host>, mac: string, ip: string)
    requires IsFrame(f) && IsTable(table) && IsName(mac) && IsName(ip)
    ensures Classify(Dump(f, table), mac, ip) ==
      if MacTaken(table, mac) || MacElsewhere(f, mac) then AlreadyPresent
      else if IpTaken(table, ip) || IpElsewhere(f, ip) then IpTakenByOtherMac
      else Absent
    ensures Classify(Dump(f, table), mac, ip) == Lookup(table, mac, ip) <==>
      (MacElsewhere(f, mac) ==> MacTaken(table, mac))
      && (IpElsewhere(f, ip) ==> MacTaken(table, mac) || IpTaken(table, ip))
  {
    hide Contains, Lower, IsName, Dump, MacTaken, IpTaken, MacElsewhere, IpElsewhere;
    MacSearch(f, table, mac);
    IpSearch(f, table, ip);
  }

  /** The first reservation with this name. */
  function FirstNamed(table: seq<Host>, name: string): (r: Option<nat>)
    ensures r.Some? ==> r.value < |table| && table[r.value].name == Some(name)
                        && forall j :: 0 <= j < r.value ==> table[j].name != Some(name)
    ensures r.None? ==> forall j :: 0 <= j < |table| ==> table[j].name != Some(name)
  {
    if table == [] then None
    else if table[0].name == Some(name) then Some(0)
    else
      match FirstNamed(table[1..], name)
      case None => None
      case Some(i) => Some(i + 1)
  }

  lemma {:induction false} RenderEnds(h: Host)
    ensures "<host " <= Render(h) && Render(h)[|Render(h)| - 1] == '>'
  {
    var p := Pieces(h);
    assert Render(h) == "<host mac=" + ['\''] + JoinWith(p[1..], '\'');
    LastOfJoin(p);
  }

  lemma {:induction false} LastOfJoin(pieces: seq<string>)
    requires pieces != [] && pieces[|pieces| - 1] == "/>"
    ensures var s := JoinWith(pieces, '\''); s != "" && s[|s| - 1] == '>'
  {
    if 1 < |pieces| {
      LastOfJoin(pieces[1..]);
    }
  }

  lemma {:induction false} TrimOfLine(indent: string, h: Host)
    requires forall i :: 0 <= i < |indent| ==> indent[i] == ' '
    ensures Trim(indent + Render(h)) == Render(h)
  {
    hide Render, Trim;
    RenderEnds(h);
    assert Render(h)[0] == "<host "[0] == '<';
    TrimOfIndented(indent, Render(h));
  }

  lemma {:induction false} HostLineSearch(f: Frame, table: seq<Host>, name: string)
    requires IsFrame(f) && IsTable(table) && IsName(name)
    ensures FirstHostLine(HostLines(f, table) + f.after, name) ==
      match FirstNamed(table, name)
      case None => FirstHostLine(f.after, name)
      case Some(i) => Some(Render(table[i]))
  {
    hide Render, Contains, IsHost, IsName, Quoted, Trim;
    var lines := HostLines(f, table) + f.after;
    if table == [] {
      assert lines == f.after;
    } else {
      assert lines[0] == f.indent + Render(table[0]);
      assert lines[1..] == HostLines(f, table[1..]) + f.after;
      TrimOfLine(f.indent, table[0]);
      RenderEnds(table[0]);
      LineContains("", table[0], name);
      assert "" + Render(table[0]) == Render(table[0]);
      HostLineSearch(f, table[1..], name);
    }
  }

  lemma {:induction false} SearchSkips(before: seq<string>, rest: seq<string>, name: string)
    ensures FirstHostLine(before + rest, name)
         == if FirstHostLine(before, name).Some? then FirstHostLine(before, name) else FirstHostLine(rest, name)
  {
    hide IsHostLineFor, Trim;
    if before == [] {
      assert before + rest == rest;
    } else {
      assert (before + rest)[0] == before[0] && (before + rest)[1..] == before[1..] + rest;
      SearchSkips(before[1..], rest, name);
    }
  }

  /** On every dump the search by name returns the element of the first reservation with that
      name, unless a line in front of the reservations is taken for one. */
  lemma {:induction false} FindIsLookup(f: Frame, table: seq<Host>, name: string)
    requires IsFrame(f) && IsTable(table) && IsName(name)
    ensures FindHostByName(Dump(f, table), name) ==
      if FirstHostLine(f.before, name).Some? then FirstHostLine(f.before, name)
      else
        match FirstNamed(table, name)
        case None => FirstHostLine(f.after, name)
        case Some(i) => Some(Render(table[i]))
  {
    hide Render, FirstHostLine, IsHost, IsName, Lines, HostLines;
    var lines := DumpLines(f, table);
    DumpLinesArePlain(f, table);
    assert forall l | l in lines :: PlainLine(l);
    LinesOfJoin(lines, false);
    assert JoinLines(lines) + "" == JoinLines(lines);
    assert lines == f.before + (HostLines(f, table) + f.after);
    SearchSkips(f.before, HostLines(f, table) + f.after, name);
    HostLineSearch(f, table, name);
  }

  // ---- the table over a cluster's life ----------------------------------------------

  /** No two reservations share a MAC, ignoring case, or an address text. */
  predicate IsUnique(table: seq<Host>) {
    forall i, j :: 0 <= i < j < |table| ==> Lower(table[i].mac) != Lower(table[j].mac) && table[i].ip != table[j].ip
  }

  /** `ensure_dhcp_reservation`: a failed dump counts as an empty one, and the add may fail. */
  function AfterEnsure(table: seq<Host>, dump: Option<string>, mac: string, ip: string, name: string,
                       addWorks: bool): seq<Host>
  {
    var xml := match dump case None => "" case Some(x) => x;
    if Classify(xml, mac, ip).Absent? && addWorks then table + [Host(mac, Some(name), ip)] else table
  }

  /** The first entry that renders as the element is removed. */
  function AfterDelete(table: seq<Host>, element: string): seq<Host> {
    if table == [] then []
    else if Render(table[0]) == element then table[1..]
    else [table[0]] + AfterDelete(table[1..], element)
  }

  /** The teardown of one machine's reservation: look it up by name in the dump, delete what
      was found. */
  function AfterRemove(table: seq<Host>, dump: Option<string>, name: string, deleteWorks: bool): seq<Host> {
    match dump
    case None => table
    case Some(xml) =>
      match FindHostByName(xml, name)
      case None => table
      case Some(element) => if deleteWorks then AfterDelete(table, element) else table
  }

  /** The host's network, changed in place by `net-update`. */
  class Net {
    var table: seq<Host>

    constructor ()
      ensures table == []
    {
      table := [];
    }

    method AddIpDhcpHost(mac: string, name: string, ip: string, works: bool) returns (ok: bool)
      modifies this
      ensures ok == works
      ensures table == if works then old(table) + [Host(mac, Some(name), ip)] else old(table)
    {
      ok := works;
      if works {
        table := table + [Host(mac, Some(name), ip)];
      }
    }

    method DeleteIpDhcpHost(element: string, works: bool) returns (ok: bool)
      modifies this
      ensures ok == works
      ensures table == if works then AfterDelete(old(table), element) else old(table)
    {
      ok := works;
      if works {
        table := AfterDelete(table, element);
      }
    }

    method EnsureReservation(dump: Option<string>, mac: string, ip: string, name: string, addWorks: bool)
      modifies this
      ensures table == AfterEnsure(old(table), dump, mac, ip, name, addWorks)
    {
      hide Classify;
      var xml := match dump case None => "" case Some(x) => x;
      if Classify(xml, mac, ip) == Absent {
        var ok := AddIpDhcpHost(mac, name, ip, addWorks);
      }
    }

    method RemoveReservation(dump: Option<string>, name: string, deleteWorks: bool)
      modifies this
      ensures table == AfterRemove(old(table), dump, name, deleteWorks)
    {
      hide FindHostByName, AfterDelete;
      if dump.Some? {
        var found := FindHostByName(dump.value, name);
        if found.Some? {
          var ok := DeleteIpDhcpHost(found.value, deleteWorks);
        }
      }
    }
  }

  /** Whatever the dump said, an add keeps the table unique exactly when neither the MAC nor
      the address is in it already. */
  lemma {:induction false} AddKeepsUniqueIff(table: seq<Host>, mac: string, name: string, ip: string)
    requires IsUnique(table)
    ensures IsUnique(table + [Host(mac, Some(name), ip)]) <==> !MacTaken(table, mac) && !IpTaken(table, ip)
  {
    hide Lower;
    var table' := table + [Host(mac, Some(name), ip)];
    if IsUnique(table') {
      assert forall i :: 0 <= i < |table| ==> table'[i] == table[i];
      forall i | 0 <= i < |table| ensures Lower(table[i].mac) != Lower(mac) && table[i].ip != ip {
        assert Lower(table'[i].mac) != Lower(table'[|table|].mac) && table'[i].ip != table'[|table|].ip;
      }
    }
  }

  lemma {:induction false} EnsureKeepsUnique(f: Frame, table: seq<Host>, mac: string, ip: string, name: string, works: bool)
    requires IsFrame(f) && IsTable(table) && IsName(mac) && IsName(ip) && IsName(name) && IsUnique(table)
    ensures var table' := AfterEnsure(table, Some(Dump(f, table)), mac, ip, name, works);
            IsTable(table') && IsUnique(table') && table <= table'
  {
    hide Classify, Dump, MacTaken, IpTaken, Lower, IsName;
    ClassifyIsLookup(f, table, mac, ip);
    AddKeepsUniqueIff(table, mac, name, ip);
    NamesAreSolid(mac);
    NamesAreSolid(ip);
    NamesAreSolid(name);
  }

  /** Neither value is in the table, the MAC ignoring case, and no other line of the dump has
      one of them as an attribute. */
  predicate IsFree(f: Frame, table: seq<Host>, mac: string, ip: string) {
    && (forall h | h in table :: Lower(h.mac) != Lower(mac) && h.ip != ip)
    && (forall l | l in f.before + f.after ::
          !Contains(Lower(l), "mac='" + Lower(mac) + "'") && !Contains(l, "ip='" + ip + "'"))
  }

  lemma {:induction false} QuotedText(attribute: string, value: string)
    ensures Quoted(attribute, value) == attribute + "'" + value + "'"
  {
  }

  lemma {:induction false} IsFreeIff(f: Frame, table: seq<Host>, mac: string, ip: string)
    ensures IsFree(f, table, mac, ip) <==>
      !MacTaken(table, mac) && !IpTaken(table, ip) && !MacElsewhere(f, mac) && !IpElsewhere(f, ip)
  {
    hide Contains, Lower;
    NotTakenIff(table, mac, ip);
    QuotedText("mac=", Lower(mac));
    QuotedText("ip=", ip);
    assert "mac=" + "'" == "mac='" && "ip=" + "'" == "ip='";
    var (m, i) := (Quoted("mac=", Lower(mac)), Quoted("ip=", ip));
    assert m == "mac='" + Lower(mac) + "'" && i == "ip='" + ip + "'";
    NotElsewhereIff(f, mac, ip);
  }

  lemma {:induction false} NotTakenIff(table: seq<Host>, mac: string, ip: string)
    ensures (forall h | h in table :: Lower(h.mac) != Lower(mac) && h.ip != ip)
       <==> !MacTaken(table, mac) && !IpTaken(table, ip)
  {
    hide Lower;
  }

  lemma {:induction false} NotElsewhereIff(f: Frame, mac: string, ip: string)
    ensures (forall l | l in f.before + f.after ::
               !Contains(Lower(l), Quoted("mac=", Lower(mac))) && !Contains(l, Quoted("ip=", ip)))
       <==> !MacElsewhere(f, mac) && !IpElsewhere(f, ip)
  {
    hide Lower, Contains, Quoted;
    forall i | 0 <= i < |Others(f)| ensures Others(f)[i] in f.before + f.after {
    }
    if !MacElsewhere(f, mac) && !IpElsewhere(f, ip) {
      forall l | l in f.before + f.after
        ensures !Contains(Lower(l), Quoted("mac=", Lower(mac))) && !Contains(l, Quoted("ip=", ip))
      {
        var i :| 0 <= i < |Others(f)| && Others(f)[i] == l;
      }
    }
  }

  /** What an ensure step does on an accurate dump: the reservation is added, behind the others,
      exactly when the add works and both values are free. */
  lemma {:induction false} EnsureEffect(f: Frame, table: seq<Host>, mac: string, ip: string, name: string, works: bool)
    requires IsFrame(f) && IsTable(table) && IsName(mac) && IsName(ip) && IsName(name)
    ensures AfterEnsure(table, Some(Dump(f, table)), mac, ip, name, works)
         == if works && IsFree(f, table, mac, ip) then table + [Host(mac, Some(name), ip)] else table
  {
    hide Classify, Dump, MacTaken, IpTaken, MacElsewhere, IpElsewhere, IsFree, IsName, IsFrame, IsTable;
    ClassifyIsLookup(f, table, mac, ip);
    IsFreeIff(f, table, mac, ip);
  }

  /** Without a dump the program cannot look: an ensure step adds whenever the add works, a
      remove step does nothing.  The table then stays unique exactly if both values were free. */
  lemma {:induction false} FailedDump(table: seq<Host>, mac: string, ip: string, name: string, works: bool)
    ensures AfterEnsure(table, None, mac, ip, name, works)
         == if works then table + [Host(mac, Some(name), ip)] else table
    ensures IsUnique(table) && works ==>
      (IsUnique(AfterEnsure(table, None, mac, ip, name, works))
       <==> forall h | h in table :: Lower(h.mac) != Lower(mac) && h.ip != ip)
    ensures AfterRemove(table, None, name, works) == table
  {
    hide Lower, IsUnique, MacTaken, IpTaken;
    NothingInNothing(mac, ip);
    NotTakenIff(table, mac, ip);
    if IsUnique(table) {
      AddKeepsUniqueIff(table, mac, name, ip);
    }
  }

  lemma {:induction false} NothingInNothing(mac: string, ip: string)
    ensures Classify("", mac, ip) == Absent
  {
    assert Lower("") == "";
  }

  lemma {:induction false} RenderInjective(h: Host, k: Host)
    requires IsHost(h) && IsHost(k) && Render(h) == Render(k)
    ensures h == k
  {
    LinePiecesQuoteFree("", h);
    LinePiecesQuoteFree("", k);
    PiecesAreQuoteFree(h);
    PiecesAreQuoteFree(k);
    SplitOfJoin(Pieces(h), '\'');
    SplitOfJoin(Pieces(k), '\'');
    assert Pieces(h) == Pieces(k);
    assert |Pieces(h)| == 7 <==> h.name.Some?;
    assert Pieces(h)[1] == h.mac && Pieces(k)[1] == k.mac;
    if h.name.Some? {
      assert Pieces(h)[3] == h.name.value && Pieces(k)[3] == k.name.value;
      assert Pieces(h)[5] == h.ip && Pieces(k)[5] == k.ip;
    } else {
      assert Pieces(h)[3] == h.ip && Pieces(k)[3] == k.ip;
    }
  }

  lemma {:induction false} PiecesAreQuoteFree(h: Host)
    requires IsHost(h)
    ensures forall p | p in Pieces(h) :: '\'' !in p
  {
  }

  lemma {:induction false} FoundIsHostLine(lines: seq<string>, name: string)
    ensures FirstHostLine(lines, name).Some? ==> IsHostLineFor(FirstHostLine(lines, name).value, name)
  {
    hide IsHostLineFor, Trim;
    if lines != [] {
      FoundIsHostLine(lines[1..], name);
    }
  }

  /** The table without entry `at`, if there is one. */
  function Without(table: seq<Host>, at: Option<nat>): seq<Host>
    requires at.Some? ==> at.value < |table|
  {
    if at.Some? then table[..at.value] + table[at.value + 1..] else table
  }

  /** Deleting an element removes the first reservation that renders as it, if there is one. */
  lemma {:induction false} DeleteByText(table: seq<Host>, element: string) returns (at: Option<nat>)
    ensures at.None? ==> forall i :: 0 <= i < |table| ==> Render(table[i]) != element
    ensures at.Some? ==> at.value < |table| && Render(table[at.value]) == element
                         && (forall i :: 0 <= i < at.value ==> Render(table[i]) != element)
    ensures AfterDelete(table, element) == Without(table, at)
  {
    hide Render, Without;
    if table == [] {
      at := None;
      DeletedNothing(table);
    } else if Render(table[0]) == element {
      at := Some(0);
      DeletedFirst(table);
    } else {
      at := DeleteByText(table[1..], element);
      DeletedLater(table, at);
      at := if at.Some? then Some(at.value + 1) else None;
    }
  }

  lemma {:induction false} DeletedNothing(table: seq<Host>)
    ensures Without(table, None) == table
  {
  }

  lemma {:induction false} DeletedFirst(table: seq<Host>)
    requires table != []
    ensures Without(table, Some(0)) == table[1..]
  {
  }

  lemma {:induction false} DeletedLater(table: seq<Host>, at: Option<nat>)
    requires table != [] && (at.Some? ==> at.value < |table| - 1)
    ensures [table[0]] + Without(table[1..], at)
         == Without(table, if at.Some? then Some(at.value + 1) else None)
  {
    assert [table[0]] + table[1..] == table;
    if at.Some? {
      assert [table[0]] + (table[1..][..at.value] + table[1..][at.value + 1..])
          == table[..at.value + 1] + table[at.value + 2..];
    }
  }

  /** What removing by name takes away in every case: the first entry of that name, or, if a line
      in front of the reservations is taken for one, the first entry that reads like that line. */
  lemma {:induction false} RemoveEffect(f: Frame, table: seq<Host>, name: string, works: bool) returns (at: Option<nat>)
    requires IsFrame(f) && IsTable(table) && IsName(name)
    ensures at.Some? ==> at.value < |table| && table[at.value].name == Some(name) && works
    ensures AfterRemove(table, Some(Dump(f, table)), name, works) == Without(table, at)
    ensures works && FirstHostLine(f.before, name).None? ==> at == FirstNamed(table, name)
    ensures works && FirstHostLine(f.before, name).Some? ==>
      var line := FirstHostLine(f.before, name).value;
      && (at.None? ==> forall i :: 0 <= i < |table| ==> Render(table[i]) != line)
      && (at.Some? ==> Render(table[at.value]) == line && forall i :: 0 <= i < at.value ==> Render(table[i]) != line)
  {
    hide Render, Dump, IsName, FindHostByName, IsHost, AfterDelete, FirstHostLine, Quoted;
    FindIsLookup(f, table, name);
    FoundIsHostLine(f.before, name);
    FoundIsHostLine(f.after, name);
    var found := FindHostByName(Dump(f, table), name);
    if works && found.Some? {
      at := DeleteByText(table, found.value);
      forall i | 0 <= i < |table| && Render(table[i]) == found.value ensures table[i].name == Some(name) {
        if IsHostLineFor(found.value, name) {
          LineContains("", table[i], name);
          assert "" + Render(table[i]) == Render(table[i]);
        } else {
          RenderInjective(table[i], table[FirstNamed(table, name).value]);
        }
      }
    } else {
      at := None;
    }
  }

  /** In short: whatever else the dump contains, removing by name takes away at most one entry, and one
      that bears the name; it takes away the first of them if the delete works and no line in
      front of the reservations is taken for one. */
  lemma {:induction false} RemoveIsByName(f: Frame, table: seq<Host>, name: string, works: bool) returns (at: Option<nat>)
    requires IsFrame(f) && IsTable(table) && IsName(name)
    ensures at.Some? ==> at.value < |table| && table[at.value].name == Some(name) && works
    ensures AfterRemove(table, Some(Dump(f, table)), name, works) == Without(table, at)
    ensures works && FirstHostLine(f.before, name).None? ==> at == FirstNamed(table, name)
  {
    hide Render, Dump, IsName, IsHost, AfterRemove, FirstHostLine;
    at := RemoveEffect(f, table, name, works);
  }

  datatype Op =
    | Ensure(mac: string, ip: string, host: string, addWorks: bool)
    | Remove(domain: string, deleteWorks: bool)

  predicate IsOp(op: Op) {
    match op
    case Ensure(mac, ip, host, _) => IsName(mac) && IsName(ip) && IsName(host)
    case Remove(domain, _) => IsName(domain)
  }

  /** The table after a sequence of steps, each on an accurate dump. */
  function After(f: Frame, table: seq<Host>, ops: seq<Op>): seq<Host>
    decreases |ops|
  {
    if ops == [] then table
    else
      var before := After(f, table, ops[..|ops| - 1]);
      match ops[|ops| - 1]
      case Ensure(mac, ip, host, works) => AfterEnsure(before, Some(Dump(f, before)), mac, ip, host, works)
      case Remove(domain, works) => AfterRemove(before, Some(Dump(f, before)), domain, works)
  }

  predicate IsRemoved(ops: seq<Op>, name: Option<string>) {
    exists i :: 0 <= i < |ops| && ops[i].Remove? && Some(ops[i].domain) == name
  }

  lemma {:induction false} WithoutOne(table: seq<Host>, i: nat)
    requires i < |table| && IsTable(table) && IsUnique(table)
    ensures IsTable(table[..i] + table[i + 1..]) && IsUnique(table[..i] + table[i + 1..])
    ensures forall h | h in table && h != table[i] :: h in table[..i] + table[i + 1..]
  {
    hide Lower, IsHost;
    assert table == table[..i] + [table[i]] + table[i + 1..];
  }

  /** Over any sequence of ensure and remove steps, no two reservations share a MAC or an
      address, and a reservation stays unless its own name is removed. */
  lemma {:induction false} TableStaysSound(f: Frame, table: seq<Host>, ops: seq<Op>)
    requires IsFrame(f) && IsTable(table) && IsUnique(table)
    requires forall i :: 0 <= i < |ops| ==> IsOp(ops[i])
    ensures IsTable(After(f, table, ops)) && IsUnique(After(f, table, ops))
    ensures forall h | h in table && !IsRemoved(ops, h.name) :: h in After(f, table, ops)
    decreases |ops|
  {
    hide AfterEnsure, AfterRemove, Dump, IsUnique, IsTable, IsName, IsFrame;
    if ops != [] {
      var front := ops[..|ops| - 1];
      TableStaysSound(f, table, front);
      var before := After(f, table, front);
      forall h | h in table && !IsRemoved(ops, h.name) ensures h in before {
        assert !IsRemoved(front, h.name) by {
          RemovedLater(ops, h.name);
        }
      }
      match ops[|ops| - 1]
      case Ensure(mac, ip, host, works) =>
        EnsureKeepsUnique(f, before, mac, ip, host, works);
      case Remove(domain, works) =>
        var at := RemoveIsByName(f, before, domain, works);
        if at.Some? {
          WithoutOne(before, at.value);
        }
    }
  }

  lemma {:induction false} RemovedLater(ops: seq<Op>, name: Option<string>)
    requires ops != []
    ensures IsRemoved(ops[..|ops| - 1], name) ==> IsRemoved(ops, name)
  {
  }
}
