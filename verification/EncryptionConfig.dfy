/** The line-based editor of `EncryptionConfiguration` documents (commands/etcd.rs):
    finding the aesgcm provider's `keys:` list, putting a new key in front of it and
    dropping every key but the first.

    The scan looks at a line only through its `Shape`.  `IsBlock` says in one formula which
    lines make up the list, and the scan finds a block exactly when there is one. */
module EncryptionConfig {
  import opened Text
  import Utf8

  // ---- lines ------------------------------------------------------------------------

  function Utf8Width(c: char): nat {
    if c < '\U{80}' then 1 else if c < '\U{800}' then 2 else if c < '\U{10000}' then 3 else 4
  }

  lemma {:induction false} WidthIsEncoded(c: char)
    ensures Utf8Width(c) == |Utf8.EncodeChar(c)|
  {
  }

  /** `indent_of`: the length in bytes of the leading white space. */
  function IndentOf(line: string): nat {
    if line != "" && IsWhitespace(line[0]) then Utf8Width(line[0]) + IndentOf(line[1..]) else 0
  }

  /** What the scan reads off a line. */
  datatype Shape = Shape(blank: bool, indent: nat, aesgcm: bool, keys: bool, entry: bool)

  function WithoutDash(t: string): string {
    if "- " <= t then t[2..] else t
  }

  function ShapeOf(line: string): Shape {
    var t := TrimStart(line);
    Shape(Trim(line) == "", IndentOf(line), "aesgcm:" <= WithoutDash(t), Trim(line) == "keys:", "- " <= t)
  }

  function Shapes(lines: seq<string>): (r: seq<Shape>)
    ensures |r| == |lines|
  {
    seq(|lines|, i requires 0 <= i < |lines| => ShapeOf(lines[i]))
  }

  // ---- the scan ---------------------------------------------------------------------

  /** Where the `keys:` list is: its line, the column and lines of its entries, and the
      first line after it. */
  datatype KeysBlock = KeysBlock(keysLine: nat, entryIndent: nat, entries: seq<nat>, end: nat)

  datatype Error = NoProvider | NoKeys | NoEntries

  /** The first aesgcm line at or after `i`. */
  function AesLine(s: seq<Shape>, i: nat): (r: Option<nat>)
    ensures r.Some? ==> i <= r.value < |s|
    decreases |s| - i
  {
    if |s| <= i then None
    else if s[i].aesgcm then Some(i)
    else AesLine(s, i + 1)
  }

  /** The `keys:` line at or after `i` that comes before the text moves back to the column
      of the provider. */
  function KeysLine(s: seq<Shape>, i: nat, aesIndent: nat): (r: Option<nat>)
    ensures r.Some? ==> i <= r.value < |s|
    decreases |s| - i
  {
    if |s| <= i then None
    else if s[i].blank then KeysLine(s, i + 1, aesIndent)
    else if s[i].indent <= aesIndent then None
    else if s[i].keys then Some(i)
    else KeysLine(s, i + 1, aesIndent)
  }

  /** The first line at or after `i` that is not blank and not right of `keys:`. */
  function BlockEnd(s: seq<Shape>, i: nat, keysIndent: nat): (r: nat)
    requires i <= |s|
    ensures i <= r <= |s|
    decreases |s| - i
  {
    if |s| == i then |s|
    else if !s[i].blank && s[i].indent <= keysIndent then i
    else BlockEnd(s, i + 1, keysIndent)
  }

  /** The first entry line from `i` up to `end`, at any column. */
  function FirstEntry(s: seq<Shape>, i: nat, end: nat): (r: Option<nat>)
    requires end <= |s|
    ensures r.Some? ==> i <= r.value < end
    decreases end - i
  {
    if end <= i then None
    else if !s[i].blank && s[i].entry then Some(i)
    else FirstEntry(s, i + 1, end)
  }

  predicate EntryAt(s: seq<Shape>, i: nat, indent: nat)
    requires i < |s|
  {
    !s[i].blank && s[i].entry && s[i].indent == indent
  }

  /** The entry lines at column `indent` from `i` up to `end`. */
  function EntriesFrom(s: seq<Shape>, i: nat, end: nat, indent: nat): (r: seq<nat>)
    requires end <= |s|
    decreases end - i
  {
    if end <= i then []
    else if EntryAt(s, i, indent) then [i] + EntriesFrom(s, i + 1, end, indent)
    else EntriesFrom(s, i + 1, end, indent)
  }

  /** `find_aesgcm_keys_block` */
  function FindBlock(s: seq<Shape>): Result<KeysBlock, Error> {
    match AesLine(s, 0)
    case None => Err(NoProvider)
    case Some(aes) =>
      match KeysLine(s, aes + 1, s[aes].indent)
      case None => Err(NoKeys)
      case Some(keys) =>
        var end := BlockEnd(s, keys + 1, s[keys].indent);
        match FirstEntry(s, keys + 1, end)
        case None => Err(NoEntries)
        case Some(first) =>
          Ok(KeysBlock(keys, s[first].indent, EntriesFrom(s, first, end, s[first].indent), end))
  }

  /** The program's scan, loop by loop. */
  method FindAesgcmKeysBlock(lines: seq<string>) returns (r: Result<KeysBlock, Error>)
    ensures r == FindBlock(Shapes(lines))
  {
    hide ShapeOf;
    ghost var s := Shapes(lines);
    var aes := 0;
    while aes < |lines| && !ShapeOf(lines[aes]).aesgcm
      invariant 0 <= aes <= |lines| && AesLine(s, 0) == AesLine(s, aes)
    {
      aes := aes + 1;
    }
    if aes == |lines| {
      return Err(NoProvider);
    }
    var aesIndent := ShapeOf(lines[aes]).indent;

    var keys := aes + 1;
    while keys < |lines|
      invariant aes < keys <= |lines|
      invariant KeysLine(s, aes + 1, aesIndent) == KeysLine(s, keys, aesIndent)
    {
      var shape := ShapeOf(lines[keys]);
      if !shape.blank {
        if shape.indent <= aesIndent {
          return Err(NoKeys);
        }
        if shape.keys {
          break;
        }
      }
      keys := keys + 1;
    }
    if keys == |lines| {
      return Err(NoKeys);
    }
    var keysIndent := ShapeOf(lines[keys]).indent;

    var entryIndent, entries, end := ScanEntries(lines, keys, keysIndent);
    if entryIndent.None? {
      return Err(NoEntries);
    }
    return Ok(KeysBlock(keys, entryIndent.value, entries, end));
  }

  /** The last of the scan's three loops: the entries below the `keys:` line. */
  method ScanEntries(lines: seq<string>, keys: nat, keysIndent: nat)
    returns (entryIndent: Option<nat>, entries: seq<nat>, end: nat)
    requires keys < |lines|
    ensures end == BlockEnd(Shapes(lines), keys + 1, keysIndent)
    ensures var first := FirstEntry(Shapes(lines), keys + 1, end);
            && (entryIndent.None? <==> first.None?)
            && (first.Some? ==>
                  && entryIndent.value == Shapes(lines)[first.value].indent
                  && entries == EntriesFrom(Shapes(lines), first.value, end, entryIndent.value))
  {
    hide ShapeOf;
    ghost var s := Shapes(lines);
    entries, entryIndent := [], None;
    ghost var blockEnd := BlockEnd(s, keys + 1, keysIndent);
    ghost var first := FirstEntry(s, keys + 1, blockEnd);
    end := keys + 1;
    while end < |lines|
      invariant keys < end <= blockEnd && BlockEnd(s, end, keysIndent) == blockEnd
      invariant entryIndent.None? ==> entries == [] && FirstEntry(s, end, blockEnd) == first
      invariant entryIndent.Some? ==>
        && first.Some? && entryIndent.value == s[first.value].indent
        && EntriesFrom(s, first.value, blockEnd, entryIndent.value)
           == entries + EntriesFrom(s, end, blockEnd, entryIndent.value)
    {
      var shape := ShapeOf(lines[end]);
      assert shape == s[end];
      if !shape.blank {
        if shape.indent <= keysIndent {
          break;
        }
        if shape.entry {
          if entryIndent.None? {
            entryIndent := Some(shape.indent);
            entries := entries + [end];
          } else if shape.indent == entryIndent.value {
            entries := entries + [end];
          }
        }
      }
      end := end + 1;
    }
    assert entries + [] == entries;
  }

  // ---- which lines the scan must find -----------------------------------------------

  predicate Increasing(s: seq<nat>) {
    forall i, j :: 0 <= i < j < |s| ==> s[i] < s[j]
  }

  predicate InBlock(s: seq<Shape>, i: nat, keysIndent: nat)
    requires i < |s|
  {
    s[i].blank || keysIndent < s[i].indent
  }

  predicate WellFormed(b: KeysBlock) {
    && b.keysLine < b.end && b.entries != [] && Increasing(b.entries)
    && forall k :: 0 <= k < |b.entries| ==> b.keysLine < b.entries[k] < b.end
  }

  /** The entries are, in order, the entry lines at the column of the first entry line. */
  predicate AreEntries(s: seq<Shape>, b: KeysBlock)
    requires WellFormed(b) && b.end <= |s|
  {
    && (forall k :: 0 <= k < |b.entries| ==> EntryAt(s, b.entries[k], b.entryIndent))
    && (forall i :: b.keysLine < i < b.end && EntryAt(s, i, b.entryIndent) ==> i in b.entries)
    && (forall i :: b.keysLine < i < b.entries[0] ==> s[i].blank || !s[i].entry)
  }

  /** `aes` is the first aesgcm line, `b.keysLine` the first `keys:` line inside that
      provider, and `b` runs to the next line that is back at the column of `keys:`. */
  predicate IsBlock(s: seq<Shape>, aes: nat, b: KeysBlock) {
    && WellFormed(b) && aes < b.keysLine && b.end <= |s|
    && s[aes].aesgcm && (forall i :: 0 <= i < aes ==> !s[i].aesgcm)
    && !s[b.keysLine].blank && s[b.keysLine].keys && s[aes].indent < s[b.keysLine].indent
    && (forall i :: aes < i < b.keysLine ==> s[i].blank || (s[aes].indent < s[i].indent && !s[i].keys))
    && (forall i :: b.keysLine < i < b.end ==> InBlock(s, i, s[b.keysLine].indent))
    && (b.end < |s| ==> !InBlock(s, b.end, s[b.keysLine].indent))
    && AreEntries(s, b)
  }

  lemma {:induction false} AesLineProperty(s: seq<Shape>, i: nat)
    ensures match AesLine(s, i)
            case None => forall k :: i <= k < |s| ==> !s[k].aesgcm
            case Some(r) => s[r].aesgcm && forall k :: i <= k < r ==> !s[k].aesgcm
    decreases |s| - i
  {
    if i < |s| {
      AesLineProperty(s, i + 1);
    }
  }

  lemma {:induction false} KeysLineProperty(s: seq<Shape>, i: nat, aesIndent: nat)
    ensures match KeysLine(s, i, aesIndent)
            case None => true
            case Some(r) =>
              && !s[r].blank && s[r].keys && aesIndent < s[r].indent
              && forall k :: i <= k < r ==> s[k].blank || (aesIndent < s[k].indent && !s[k].keys)
    decreases |s| - i
  {
    if i < |s| {
      KeysLineProperty(s, i + 1, aesIndent);
    }
  }

  lemma {:induction false} KeysLineFound(s: seq<Shape>, i: nat, r: nat, aesIndent: nat)
    requires i <= r < |s| && !s[r].blank && s[r].keys && aesIndent < s[r].indent
    requires forall k :: i <= k < r ==> s[k].blank || (aesIndent < s[k].indent && !s[k].keys)
    ensures KeysLine(s, i, aesIndent) == Some(r)
    decreases r - i
  {
    if i < r {
      KeysLineFound(s, i + 1, r, aesIndent);
    }
  }

  lemma {:induction false} BlockEndProperty(s: seq<Shape>, i: nat, keysIndent: nat)
    requires i <= |s|
    ensures var r := BlockEnd(s, i, keysIndent);
            && (forall k :: i <= k < r ==> InBlock(s, k, keysIndent))
            && (r < |s| ==> !InBlock(s, r, keysIndent))
    decreases |s| - i
  {
    if i < |s| {
      BlockEndProperty(s, i + 1, keysIndent);
    }
  }

  lemma {:induction false} BlockEndFound(s: seq<Shape>, i: nat, r: nat, keysIndent: nat)
    requires i <= r <= |s|
    requires forall k :: i <= k < r ==> InBlock(s, k, keysIndent)
    requires r < |s| ==> !InBlock(s, r, keysIndent)
    ensures BlockEnd(s, i, keysIndent) == r
    decreases r - i
  {
    if i < r {
      assert InBlock(s, i, keysIndent);
      BlockEndFound(s, i + 1, r, keysIndent);
    }
  }

  lemma {:induction false} FirstEntryProperty(s: seq<Shape>, i: nat, end: nat)
    requires end <= |s|
    ensures match FirstEntry(s, i, end)
            case None => forall k :: i <= k < end ==> s[k].blank || !s[k].entry
            case Some(r) =>
              EntryAt(s, r, s[r].indent) && forall k :: i <= k < r ==> s[k].blank || !s[k].entry
    decreases end - i
  {
    if i < end {
      FirstEntryProperty(s, i + 1, end);
    }
  }

  lemma {:induction false} EntriesFromProperty(s: seq<Shape>, i: nat, end: nat, indent: nat)
    requires end <= |s|
    ensures var r := EntriesFrom(s, i, end, indent);
            && Increasing(r)
            && (forall k :: 0 <= k < |r| ==> i <= r[k] < end && EntryAt(s, r[k], indent))
            && (forall k :: i <= k < end && EntryAt(s, k, indent) ==> k in r)
    decreases end - i
  {
    hide EntryAt, Increasing;
    if i < end {
      EntriesFromProperty(s, i + 1, end, indent);
      IncreasingPrepend(i, EntriesFrom(s, i + 1, end, indent));
    } else {
      IncreasingEmpty();
    }
  }

  lemma {:induction false} IncreasingEmpty()
    ensures Increasing([])
  {
  }

  lemma {:induction false} IncreasingPrepend(i: nat, s: seq<nat>)
    requires Increasing(s) && forall k :: 0 <= k < |s| ==> i < s[k]
    ensures Increasing([i] + s)
  {
  }

  /** Two increasing sequences with the same elements are equal. */
  lemma {:induction false} IncreasingUnique(s: seq<nat>, t: seq<nat>)
    requires Increasing(s) && Increasing(t)
    requires forall e :: e in s <==> e in t
    ensures s == t
  {
    assert s != [] ==> s[0] in t;
    assert t != [] ==> t[0] in s;
    if s != [] && t != [] {
      assert s == [s[0]] + s[1..] && t == [t[0]] + t[1..];
      assert s[0] == t[0];
      forall e ensures e in s[1..] <==> e in t[1..] {
        assert s[0] !in s[1..] && t[0] !in t[1..];
        assert e in s <==> e == s[0] || e in s[1..];
        assert e in t <==> e == t[0] || e in t[1..];
      }
      IncreasingUnique(s[1..], t[1..]);
    }
  }

  /** A block the scan returns is the provider's block. */
  lemma {:induction false} FoundIsBlock(s: seq<Shape>) returns (aes: nat)
    requires FindBlock(s).Ok?
    ensures IsBlock(s, aes, FindBlock(s).value)
  {
    var b := FindBlock(s).value;
    AesLineProperty(s, 0);
    aes := AesLine(s, 0).value;
    KeysLineProperty(s, aes + 1, s[aes].indent);
    BlockEndProperty(s, b.keysLine + 1, s[b.keysLine].indent);
    FirstEntryProperty(s, b.keysLine + 1, b.end);
    var first := FirstEntry(s, b.keysLine + 1, b.end).value;
    EntriesFromProperty(s, first, b.end, b.entryIndent);
    assert b.entries == [first] + EntriesFrom(s, first + 1, b.end, b.entryIndent);
  }

  /** A line at or left of the provider's column stands between `aes` and `k`. */
  predicate ProviderEndsBefore(s: seq<Shape>, aes: nat, k: nat)
    requires aes < k < |s|
  {
    exists j :: aes < j < k && !s[j].blank && s[j].indent <= s[aes].indent
  }

  /** A line at or left of the column of `keys:` stands behind it and no later than `k`. */
  predicate ListEndsBy(s: seq<Shape>, keys: nat, k: nat)
    requires keys < k < |s|
  {
    exists j :: keys < j <= k && !InBlock(s, j, s[keys].indent)
  }

  /** Each error says which part is missing, and that part is missing: there is no aesgcm line at
      all; the first one has no `keys:` inside it; or the first of those has no entry in its list. */
  lemma {:induction false} MissingPart(s: seq<Shape>) returns (aes: nat, keys: nat)
    requires FindBlock(s).Err?
    ensures FindBlock(s).error == NoProvider <==> forall i :: 0 <= i < |s| ==> !s[i].aesgcm
    ensures !FindBlock(s).error.NoProvider? ==> aes < |s| && s[aes].aesgcm && forall i :: 0 <= i < aes ==> !s[i].aesgcm
    ensures FindBlock(s).error == NoKeys ==>
      forall k :: aes < k < |s| && !s[k].blank && s[k].keys ==>
        s[k].indent <= s[aes].indent || ProviderEndsBefore(s, aes, k)
    ensures FindBlock(s).error == NoEntries ==>
      && aes < keys < |s| && !s[keys].blank && s[keys].keys && s[aes].indent < s[keys].indent
      && (forall i :: aes < i < keys ==> s[i].blank || (s[aes].indent < s[i].indent && !s[i].keys))
      && forall k :: keys < k < |s| && !s[k].blank && s[k].entry ==> ListEndsBy(s, keys, k)
  {
    hide InBlock, AesLine, KeysLine, BlockEnd, FirstEntry, EntriesFrom, ListEndsBy, ProviderEndsBefore;
    AesLineProperty(s, 0);
    aes, keys := 0, 0;
    if AesLine(s, 0).Some? {
      aes := AesLine(s, 0).value;
      NoKeysInside(s, aes, aes + 1);
      KeysLineProperty(s, aes + 1, s[aes].indent);
      if KeysLine(s, aes + 1, s[aes].indent).Some? {
        keys := KeysLine(s, aes + 1, s[aes].indent).value;
        NoEntryInside(s, keys);
      }
    }
  }

  lemma {:induction false} NoEntryInside(s: seq<Shape>, keys: nat)
    requires keys < |s| && FirstEntry(s, keys + 1, BlockEnd(s, keys + 1, s[keys].indent)).None?
    ensures forall k :: keys < k < |s| && !s[k].blank && s[k].entry ==> ListEndsBy(s, keys, k)
  {
    hide InBlock, BlockEnd, FirstEntry;
    BlockEndProperty(s, keys + 1, s[keys].indent);
    FirstEntryProperty(s, keys + 1, BlockEnd(s, keys + 1, s[keys].indent));
  }

  lemma {:induction false} NoKeysInside(s: seq<Shape>, aes: nat, i: nat)
    requires aes < i && aes < |s|
    requires forall j :: aes < j < i < |s| ==> s[j].blank || s[aes].indent < s[j].indent
    ensures KeysLine(s, i, s[aes].indent).None? ==>
      forall k :: i <= k < |s| && !s[k].blank && s[k].keys ==> s[k].indent <= s[aes].indent || ProviderEndsBefore(s, aes, k)
    decreases |s| - i
  {
    if i < |s| && (s[i].blank || (s[aes].indent < s[i].indent && !s[i].keys)) {
      NoKeysInside(s, aes, i + 1);
    }
  }

  /** The scan returns the provider's block whenever there is one. */
  lemma {:induction false} BlockIsFound(s: seq<Shape>, aes: nat, b: KeysBlock)
    requires IsBlock(s, aes, b)
    ensures FindBlock(s) == Ok(b)
  {
    AesLineProperty(s, 0);
    assert AesLine(s, 0) == Some(aes);
    KeysLineFound(s, aes + 1, b.keysLine, s[aes].indent);
    BlockEndFound(s, b.keysLine + 1, b.end, s[b.keysLine].indent);
    EntriesFound(s, b);
  }

  lemma {:induction false} EntriesFound(s: seq<Shape>, b: KeysBlock)
    requires WellFormed(b) && b.end <= |s| && AreEntries(s, b)
    ensures FirstEntry(s, b.keysLine + 1, b.end) == Some(b.entries[0])
    ensures s[b.entries[0]].indent == b.entryIndent
    ensures EntriesFrom(s, b.entries[0], b.end, b.entryIndent) == b.entries
  {
    var first := b.entries[0];
    assert EntryAt(s, first, b.entryIndent);
    FirstEntryProperty(s, b.keysLine + 1, b.end);
    EntriesFromProperty(s, first, b.end, b.entryIndent);
    var r := EntriesFrom(s, first, b.end, b.entryIndent);
    forall e ensures e in b.entries <==> e in r {
      if e in b.entries {
        var k :| 0 <= k < |b.entries| && b.entries[k] == e;
        assert first <= e;
      }
    }
    IncreasingUnique(b.entries, r);
  }

  // ---- the edits --------------------------------------------------------------------

  /** The two lines of a new entry. */
  function NewEntry(indent: nat, name: string, secret: string): (r: seq<string>)
    ensures |r| == 2
  {
    var pad := seq(indent, _ => ' ');
    [pad + ("- name: " + name), pad + ("  secret: " + secret)]
  }

  /** The line edit of `insert_primary_key`. */
  function InsertLines(lines: seq<string>, b: KeysBlock, name: string, secret: string): seq<string>
    requires WellFormed(b) && b.end <= |lines|
  {
    lines[..b.entries[0]] + NewEntry(b.entryIndent, name, secret) + lines[b.entries[0]..]
  }

  /** The line edit of `drop_non_primary_keys`. */
  function DropLines(lines: seq<string>, b: KeysBlock): seq<string>
    requires WellFormed(b) && b.end <= |lines|
  {
    if |b.entries| < 2 then lines else lines[..b.entries[1]] + lines[b.end..]
  }

  /** The lines of entry `i`: up to the next entry, or to the end of the block. */
  function Chunk(lines: seq<string>, b: KeysBlock, i: nat): seq<string>
    requires WellFormed(b) && b.end <= |lines| && i < |b.entries|
  {
    lines[b.entries[i]..(if i + 1 < |b.entries| then b.entries[i + 1] else b.end)]
  }

  /** The entries of the list, each as its lines. */
  function Chunks(lines: seq<string>, b: KeysBlock): (r: seq<seq<string>>)
    requires WellFormed(b) && b.end <= |lines|
    ensures |r| == |b.entries|
  {
    seq(|b.entries|, i requires 0 <= i < |b.entries| => Chunk(lines, b, i))
  }

  lemma {:induction false} IndentOfPad(pad: string, rest: string)
    requires forall k :: 0 <= k < |pad| ==> pad[k] == ' '
    requires rest != "" && !IsWhitespace(rest[0])
    ensures IndentOf(pad + rest) == |pad|
    ensures TrimStart(pad + rest) == rest
  {
    if pad == "" {
      assert pad + rest == rest;
    } else {
      assert (pad + rest)[1..] == pad[1..] + rest;
      IndentOfPad(pad[1..], rest);
    }
  }

  lemma {:induction false} ShapeOfPadded(pad: string, rest: string)
    requires forall k :: 0 <= k < |pad| ==> pad[k] == ' '
    requires rest != "" && !IsWhitespace(rest[0])
    ensures var s := ShapeOf(pad + rest);
            TrimStart(pad + rest) == rest && !s.blank && s.indent == |pad| && (s.entry <==> "- " <= rest)
  {
    IndentOfPad(pad, rest);
    TrimIsBlank(pad + rest);
  }

  lemma {:induction false} NameLineShape(pad: string, name: string)
    requires forall k :: 0 <= k < |pad| ==> pad[k] == ' '
    ensures var s := ShapeOf(pad + ("- name: " + name));
            && TrimStart(pad + ("- name: " + name)) == "- name: " + name
            && !s.blank && s.indent == |pad| && s.entry
  {
    hide ShapeOf, TrimStart;
    ShapeOfPadded(pad, "- name: " + name);
  }

  lemma {:induction false} SecretLineShape(pad: string, secret: string)
    requires forall k :: 0 <= k < |pad| ==> pad[k] == ' '
    ensures var s := ShapeOf(pad + ("  secret: " + secret));
            && TrimStart(pad + ("  secret: " + secret)) == "secret: " + secret
            && !s.blank && s.indent == |pad| + 2 && !s.entry
  {
    hide ShapeOf, TrimStart;
    ShapeOfPadded(pad + "  ", "secret: " + secret);
    assert "  secret: " + secret == "  " + ("secret: " + secret);
    assert pad + ("  " + ("secret: " + secret)) == (pad + "  ") + ("secret: " + secret);
    assert ("secret: " + secret)[0] == 's';
  }

  /** A new first line is an entry at the column of the others; the second is part of it. */
  lemma {:induction false} NewEntryShapes(indent: nat, name: string, secret: string)
    ensures var e := NewEntry(indent, name, secret);
            && TrimStart(e[0]) == "- name: " + name && TrimStart(e[1]) == "secret: " + secret
            && var (s0, s1) := (ShapeOf(e[0]), ShapeOf(e[1]));
               && !s0.blank && s0.indent == indent && s0.entry
               && !s1.blank && s1.indent == indent + 2 && !s1.entry
  {
    hide ShapeOf, TrimStart;
    var pad := seq(indent, _ => ' ');
    NameLineShape(pad, name);
    SecretLineShape(pad, secret);
  }

  function Shifted(entries: seq<nat>): (r: seq<nat>)
    ensures |r| == |entries| && forall k :: 0 <= k < |r| ==> r[k] == entries[k] + 2
  {
    seq(|entries|, i requires 0 <= i < |entries| => entries[i] + 2)
  }

  /** After an insertion the block has the new entry in front and the old ones two lines
      further down. */
  function InsertedBlock(b: KeysBlock): KeysBlock
    requires WellFormed(b)
  {
    KeysBlock(b.keysLine, b.entryIndent, [b.entries[0]] + Shifted(b.entries), b.end + 2)
  }

  lemma {:induction false} InsertedEntries(s: seq<Shape>, b: KeysBlock, s': seq<Shape>)
    requires WellFormed(b) && b.end <= |s| && AreEntries(s, b) && |s'| == |s| + 2
    requires forall i :: 0 <= i < b.entries[0] ==> s'[i] == s[i]
    requires EntryAt(s', b.entries[0], b.entryIndent) && !s'[b.entries[0] + 1].entry
    requires forall i :: b.entries[0] <= i < |s| ==> s'[i + 2] == s[i]
    ensures WellFormed(InsertedBlock(b)) && AreEntries(s', InsertedBlock(b))
  {
    hide EntryAt;
    var b' := InsertedBlock(b);
    InsertedWellFormed(b);
    forall k | 0 <= k < |b'.entries| ensures EntryAt(s', b'.entries[k], b.entryIndent) {
      if k > 0 {
        SameEntryAt(s, b.entries[k - 1], s', b.entryIndent);
      }
    }
    forall i | b'.keysLine < i < b'.end && EntryAt(s', i, b.entryIndent) ensures i in b'.entries {
      InsertedIsListed(s, b, s', i);
    }
  }

  lemma {:induction false} InsertedWellFormed(b: KeysBlock)
    requires WellFormed(b)
    ensures WellFormed(InsertedBlock(b))
  {
  }

  lemma {:induction false} SameEntryAt(s: seq<Shape>, i: nat, s': seq<Shape>, indent: nat)
    requires i < |s| && i + 2 < |s'| && s'[i + 2] == s[i] && EntryAt(s, i, indent)
    ensures EntryAt(s', i + 2, indent)
  {
  }

  lemma {:induction false} InsertedIsListed(s: seq<Shape>, b: KeysBlock, s': seq<Shape>, i: nat)
    requires WellFormed(b) && b.end <= |s| && AreEntries(s, b) && |s'| == |s| + 2
    requires forall j :: 0 <= j < b.entries[0] ==> s'[j] == s[j]
    requires !s'[b.entries[0] + 1].entry
    requires forall j :: b.entries[0] <= j < |s| ==> s'[j + 2] == s[j]
    requires b.keysLine < i < b.end + 2 && EntryAt(s', i, b.entryIndent)
    ensures i in InsertedBlock(b).entries
  {
    var first := b.entries[0];
    assert InsertedBlock(b).entries[0] == first;
    if first + 2 <= i {
      assert s'[i - 2 + 2] == s[i - 2];
      EntryMoved(s, b, s', i);
    }
  }

  lemma {:induction false} EntryMoved(s: seq<Shape>, b: KeysBlock, s': seq<Shape>, i: nat)
    requires WellFormed(b) && b.end <= |s| && AreEntries(s, b) && |s'| == |s| + 2
    requires b.entries[0] + 2 <= i < b.end + 2 && s'[i] == s[i - 2] && EntryAt(s', i, b.entryIndent)
    ensures i in InsertedBlock(b).entries
  {
    assert EntryAt(s, i - 2, b.entryIndent);
    var k :| 0 <= k < |b.entries| && b.entries[k] == i - 2;
    assert InsertedBlock(b).entries[k + 1] == i;
  }

  /** The edited text's block, at the level of line shapes. */
  lemma {:induction false} InsertedIsBlock(s: seq<Shape>, aes: nat, b: KeysBlock, s': seq<Shape>)
    requires IsBlock(s, aes, b) && |s'| == |s| + 2
    requires forall i :: 0 <= i < b.entries[0] ==> s'[i] == s[i]
    requires EntryAt(s', b.entries[0], b.entryIndent)
    requires !s'[b.entries[0] + 1].entry && b.entryIndent < s'[b.entries[0] + 1].indent
    requires forall i :: b.entries[0] <= i < |s| ==> s'[i + 2] == s[i]
    ensures IsBlock(s', aes, InsertedBlock(b))
  {
    var first, ki := b.entries[0], s[b.keysLine].indent;
    InsertedEntries(s, b, s');
    assert EntryAt(s, first, b.entryIndent) && InBlock(s, first, ki);
    forall i | b.keysLine < i < b.end + 2 ensures InBlock(s', i, ki) {
      if i < first {
        assert InBlock(s, i, ki);
      } else if first + 2 <= i {
        assert InBlock(s, i - 2, ki);
        assert s'[i - 2 + 2] == s[i - 2];
      }
    }
    if b.end < |s| {
      assert !InBlock(s, b.end, ki);
      assert s'[b.end + 2] == s[b.end];
    }
  }

  lemma {:induction false} InsertedChunks(lines: seq<string>, b: KeysBlock, name: string, secret: string)
    requires WellFormed(b) && b.end <= |lines| && WellFormed(InsertedBlock(b))
    ensures |InsertLines(lines, b, name, secret)| == |lines| + 2
    ensures Chunks(InsertLines(lines, b, name, secret), InsertedBlock(b))
         == [NewEntry(b.entryIndent, name, secret)] + Chunks(lines, b)
  {
    hide NewEntry;
    var entry := NewEntry(b.entryIndent, name, secret);
    var out, b' := InsertLines(lines, b, name, secret), InsertedBlock(b);
    assert Chunk(out, b', 0) == entry;
    forall i | 0 <= i < |b.entries| ensures Chunk(out, b', i + 1) == Chunk(lines, b, i) {
      var from, to := b.entries[i], if i + 1 < |b.entries| then b.entries[i + 1] else b.end;
      SliceAfterInsert(lines, b.entries[0], entry, from, to);
    }
  }

  lemma {:induction false} SliceAfterInsert<T>(s: seq<T>, at: nat, added: seq<T>, from: nat, to: nat)
    requires at <= from <= to <= |s|
    ensures (s[..at] + added + s[at..])[from + |added|..to + |added|] == s[from..to]
  {
  }

  /** The shapes after the edit: the old ones, with those of the two new lines in between. */
  lemma {:induction false} InsertedShapes(lines: seq<string>, b: KeysBlock, name: string, secret: string)
    requires WellFormed(b) && b.end <= |lines|
    ensures var (s, s') := (Shapes(lines), Shapes(InsertLines(lines, b, name, secret)));
            var first := b.entries[0];
            && |s'| == |s| + 2
            && (forall i :: 0 <= i < first ==> s'[i] == s[i])
            && EntryAt(s', first, b.entryIndent)
            && !s'[first + 1].entry && b.entryIndent < s'[first + 1].indent
            && (forall i :: first <= i < |s| ==> s'[i + 2] == s[i])
  {
    hide ShapeOf, NewEntry;
    NewEntryShapes(b.entryIndent, name, secret);
  }

  lemma {:induction false} InsertedIsFound(lines: seq<string>, b: KeysBlock, name: string, secret: string)
    requires FindBlock(Shapes(lines)) == Ok(b)
    ensures WellFormed(b) && b.end <= |lines|
    ensures FindBlock(Shapes(InsertLines(lines, b, name, secret))) == Ok(InsertedBlock(b))
    ensures WellFormed(InsertedBlock(b))
  {
    hide FindBlock, InsertLines, AreEntries, EntryAt, InBlock;
    var s := Shapes(lines);
    var aes := FoundIsBlock(s);
    var s' := Shapes(InsertLines(lines, b, name, secret));
    InsertedShapes(lines, b, name, secret);
    InsertedIsBlock(s, aes, b, s');
    BlockIsFound(s', aes, InsertedBlock(b));
  }

  /** `insert_primary_key` puts the new key at the head of the list and keeps every old
      entry, line for line and in order; the lines before and after the list stay. */
  lemma {:induction false} InsertIsPrepend(lines: seq<string>, b: KeysBlock, name: string, secret: string)
    requires FindBlock(Shapes(lines)) == Ok(b)
    ensures WellFormed(b) && b.end <= |lines|
    ensures var out := InsertLines(lines, b, name, secret);
            var b' := InsertedBlock(b);
            && FindBlock(Shapes(out)) == Ok(b')
            && WellFormed(b') && b'.end <= |out|
            && Chunks(out, b') == [NewEntry(b.entryIndent, name, secret)] + Chunks(lines, b)
            && out[..b'.entries[0]] == lines[..b.entries[0]] && out[b'.end..] == lines[b.end..]
  {
    hide ShapeOf, FindBlock, NewEntry;
    InsertedIsFound(lines, b, name, secret);
    InsertedChunks(lines, b, name, secret);
    SliceAfterInsert(lines, b.entries[0], NewEntry(b.entryIndent, name, secret), b.end, |lines|);
  }

  /** After dropping, the block has its first entry alone. */
  function DroppedBlock(b: KeysBlock): KeysBlock
    requires WellFormed(b)
  {
    if |b.entries| < 2 then b else KeysBlock(b.keysLine, b.entryIndent, [b.entries[0]], b.entries[1])
  }

  lemma {:induction false} DroppedIsBlock(s: seq<Shape>, aes: nat, b: KeysBlock, s': seq<Shape>)
    requires IsBlock(s, aes, b) && 2 <= |b.entries|
    requires s' == s[..b.entries[1]] + s[b.end..]
    ensures IsBlock(s', aes, DroppedBlock(b))
  {
    var b', ki := DroppedBlock(b), s[b.keysLine].indent;
    forall i | b'.keysLine < i < b'.end ensures InBlock(s', i, ki) {
      assert InBlock(s, i, ki);
    }
    assert EntryAt(s, b.entries[0], b.entryIndent);
    forall i | b'.keysLine < i < b'.end && EntryAt(s', i, b.entryIndent) ensures i in b'.entries {
      assert EntryAt(s, i, b.entryIndent);
      var k :| 0 <= k < |b.entries| && b.entries[k] == i;
      assert k == 0;
    }
    if b.end < |s| {
      assert !InBlock(s, b.end, ki);
      assert s'[b'.end] == s[b.end];
    }
  }

  /** `drop_non_primary_keys` keeps exactly the head of the list, and the lines before and
      after the list; dropping again changes nothing. */
  lemma {:induction false} DropKeepsHead(lines: seq<string>, b: KeysBlock)
    requires FindBlock(Shapes(lines)) == Ok(b)
    ensures WellFormed(b) && b.end <= |lines|
    ensures var out := DropLines(lines, b);
            var b' := DroppedBlock(b);
            && FindBlock(Shapes(out)) == Ok(b')
            && WellFormed(b') && b'.end <= |out|
            && Chunks(out, b') == [Chunks(lines, b)[0]]
            && out[..b'.entries[0]] == lines[..b.entries[0]] && out[b'.end..] == lines[b.end..]
            && DropLines(out, b') == out
  {
    hide ShapeOf, FindBlock, IsBlock, NewEntry;
    var s := Shapes(lines);
    var aes := FoundIsBlock(s);
    var out := DropLines(lines, b);
    if 2 <= |b.entries| {
      assert Shapes(out) == s[..b.entries[1]] + s[b.end..];
      DroppedIsBlock(s, aes, b, Shapes(out));
      BlockIsFound(Shapes(out), aes, DroppedBlock(b));
      assert Chunk(out, DroppedBlock(b), 0) == Chunk(lines, b, 0);
    }
  }

  /** A whole rotation replaces the span from the first entry to the end of the list by
      the new key's two lines. */
  lemma {:induction false} InsertThenDrop(lines: seq<string>, b: KeysBlock, name: string, secret: string)
    requires FindBlock(Shapes(lines)) == Ok(b)
    ensures WellFormed(b) && b.end <= |lines|
    ensures var dual := InsertLines(lines, b, name, secret);
            && FindBlock(Shapes(dual)) == Ok(InsertedBlock(b))
            && WellFormed(InsertedBlock(b)) && InsertedBlock(b).end <= |dual|
            && DropLines(dual, InsertedBlock(b))
               == lines[..b.entries[0]] + NewEntry(b.entryIndent, name, secret) + lines[b.end..]
  {
    InsertIsPrepend(lines, b, name, secret);
  }
}
