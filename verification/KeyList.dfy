/** The aesgcm key list that an `EncryptionConfiguration` text holds, and what the two
    rewriters of commands/etcd.rs do to it. */
module KeyList {
  import opened Text
  import opened EncryptionConfig

  datatype Key = Key(name: string, secret: string)

  /** The value of the first line of the entry that starts with `field`. */
  function FieldOf(chunk: seq<string>, field: string): string {
    if chunk == [] then ""
    else
      var t := WithoutDash(TrimStart(chunk[0]));
      if field <= t then Trim(t[|field|..]) else FieldOf(chunk[1..], field)
  }

  function KeyOf(chunk: seq<string>): Key {
    Key(FieldOf(chunk, "name:"), FieldOf(chunk, "secret:"))
  }

  function KeysOfChunks(chunks: seq<seq<string>>): (r: seq<Key>)
    ensures |r| == |chunks|
  {
    seq(|chunks|, i requires 0 <= i < |chunks| => KeyOf(chunks[i]))
  }

  lemma {:induction false} FoundIsWellFormed(lines: seq<string>)
    requires FindBlock(Shapes(lines)).Ok?
    ensures WellFormed(FindBlock(Shapes(lines)).value) && FindBlock(Shapes(lines)).value.end <= |lines|
  {
    hide ShapeOf, FindBlock;
    var aes := FoundIsBlock(Shapes(lines));
  }

  /** The keys of the recognised list, in order; the first is the primary one. */
  function KeysOfLines(lines: seq<string>): Option<seq<Key>> {
    match FindBlock(Shapes(lines))
    case Err(_) => None
    case Ok(b) =>
      FoundIsWellFormed(lines);
      Some(KeysOfChunks(Chunks(lines, b)))
  }

  function Keys(config: string): Option<seq<Key>> {
    KeysOfLines(Lines(config))
  }

  predicate EndsWithNewline(config: string) {
    config != "" && config[|config| - 1] == '\n'
  }

  /** `joined` */
  function Joined(lines: seq<string>, original: string): string {
    JoinLines(lines) + (if EndsWithNewline(original) then "\n" else "")
  }

  /** `insert_primary_key` */
  function InsertPrimaryKey(config: string, name: string, secret: string): Result<string, Error> {
    var lines := Lines(config);
    match FindBlock(Shapes(lines))
    case Err(e) => Err(e)
    case Ok(b) =>
      FoundIsWellFormed(lines);
      Ok(Joined(InsertLines(lines, b, name, secret), config))
  }

  /** `drop_non_primary_keys` */
  function DropNonPrimaryKeys(config: string): Result<string, Error> {
    var lines := Lines(config);
    match FindBlock(Shapes(lines))
    case Err(e) => Err(e)
    case Ok(b) =>
      FoundIsWellFormed(lines);
      if |b.entries| < 2 then Ok(config) else Ok(Joined(DropLines(lines, b), config))
  }

  /** A value that stands on a line of its own and has no white space at either end. */
  predicate Clean(value: string) {
    '\n' !in value && Trim(value) == value
  }

  // ---- carriage returns at line ends ------------------------------------------------

  lemma {:induction false} BlankTexts(s: string)
    requires forall i :: 0 <= i < |s| ==> IsWhitespace(s[i])
    ensures TrimStart(s) == ""
  {
    hide IsWhitespace;
    if s != "" {
      BlankTexts(s[1..]);
    }
  }

  lemma {:induction false} TrimWithoutCr(s: string)
    ensures TrimStart(s) == "" <==> TrimStart(WithoutCr(s)) == ""
    ensures TrimStart(s) != "" ==>
      TrimStart(WithoutCr(s)) == WithoutCr(TrimStart(s)) && IndentOf(WithoutCr(s)) == IndentOf(s)
    ensures Trim(WithoutCr(s)) == Trim(s)
  {
    hide IsWhitespace, TrimEnd, WithoutCr, TrimStart, IndentOf;
    TrimEndWithoutCr(TrimStart(s));
    if TrimStart(s) == "" {
      BlankWithoutCr(s);
    } else {
      IndentedWithoutCr(s);
    }
  }

  lemma {:induction false} BlankWithoutCr(s: string)
    requires TrimStart(s) == ""
    ensures TrimStart(WithoutCr(s)) == ""
  {
    hide IsWhitespace, TrimStart;
    BlankTexts(WithoutCr(s));
  }

  lemma {:induction false} IndentedWithoutCr(s: string)
    requires TrimStart(s) != ""
    ensures TrimStart(WithoutCr(s)) == WithoutCr(TrimStart(s)) != "" && IndentOf(WithoutCr(s)) == IndentOf(s)
  {
    hide IsWhitespace, TrimStart, IndentOf, WithoutCr;
    NothingIsBlank();
    if IsWhitespace(s[0]) {
      Unblanked(s);
      IndentedWithoutCr(s[1..]);
      OneDeeper(s[0], s[1..]);
    } else {
      SolidWithoutCr(s);
    }
  }

  lemma {:induction false} Unblanked(s: string)
    requires s != "" && IsWhitespace(s[0])
    ensures s == [s[0]] + s[1..] && TrimStart(s) == TrimStart(s[1..])
    ensures TrimStart(s) != "" ==> s[1..] != ""
  {
    hide IsWhitespace;
  }

  lemma {:induction false} OneDeeper(c: char, rest: string)
    requires IsWhitespace(c) && rest != ""
    requires TrimStart(WithoutCr(rest)) == WithoutCr(TrimStart(rest)) != ""
    requires IndentOf(WithoutCr(rest)) == IndentOf(rest)
    ensures TrimStart(WithoutCr([c] + rest)) == WithoutCr(TrimStart([c] + rest)) != ""
    ensures IndentOf(WithoutCr([c] + rest)) == IndentOf([c] + rest)
  {
    hide IsWhitespace, TrimStart, IndentOf, WithoutCr;
    TrimCons(c, rest);
    ConsWithoutCr(c, rest);
    TrimCons(c, WithoutCr(rest));
  }

  lemma {:induction false} NothingIsBlank()
    ensures TrimStart("") == ""
  {
  }

  lemma {:induction false} TrimCons(c: char, rest: string)
    requires IsWhitespace(c)
    ensures TrimStart([c] + rest) == TrimStart(rest) && IndentOf([c] + rest) == Utf8Width(c) + IndentOf(rest)
  {
    hide IsWhitespace, Utf8Width;
    var s := [c] + rest;
    assert s != "" && s[0] == c && s[1..] == rest;
  }

  lemma {:induction false} ConsWithoutCr(c: char, rest: string)
    requires rest != ""
    ensures WithoutCr([c] + rest) == [c] + WithoutCr(rest)
  {
    assert ([c] + rest)[|rest|] == rest[|rest| - 1];
  }

  lemma {:induction false} SolidWithoutCr(s: string)
    requires s != "" && !IsWhitespace(s[0])
    ensures TrimStart(s) == s && IndentOf(s) == 0
    ensures WithoutCr(s) != "" && TrimStart(WithoutCr(s)) == WithoutCr(s) && IndentOf(WithoutCr(s)) == 0
  {
    hide IsWhitespace;
    CrIsWhitespace();
    assert WithoutCr(s) != "" && WithoutCr(s)[0] == s[0];
  }

  lemma {:induction false} CrIsWhitespace()
    ensures IsWhitespace('\r')
  {
  }

  lemma {:induction false} TrimEndWithoutCr(s: string)
    ensures TrimEnd(WithoutCr(s)) == TrimEnd(s)
  {
    hide IsWhitespace;
    CrIsWhitespace();
  }

  lemma {:induction false} PrefixWithoutCr(f: string, s: string)
    requires f != "" && f[|f| - 1] != '\r'
    ensures f <= s <==> f <= WithoutCr(s)
    ensures f <= s ==> WithoutCr(s)[|f|..] == WithoutCr(s[|f|..])
  {
  }

  lemma {:induction false} DashWithoutCr(s: string)
    ensures WithoutDash(WithoutCr(s)) == WithoutCr(WithoutDash(s))
  {
    hide WithoutCr;
    PrefixWithoutCr("- ", s);
  }

  /** The scan sees no difference: blank lines stay blank and other lines keep their shape. */
  predicate SameToScan(a: Shape, b: Shape) {
    a.blank == b.blank && a.aesgcm == b.aesgcm && (a.blank ==> !a.aesgcm) && (!a.blank ==> a == b)
  }

  lemma {:induction false} ShapeWithoutCr(l: string)
    ensures SameToScan(ShapeOf(l), ShapeOf(l)) && SameToScan(ShapeOf(l), ShapeOf(WithoutCr(l)))
  {
    hide IsWhitespace, WithoutCr, TrimEnd, TrimStart, Trim, WithoutDash, IndentOf;
    TrimWithoutCr(l);
    TrimIsBlank(l);
    TrimIsBlank(WithoutCr(l));
    var t := TrimStart(l);
    DashWithoutCr(t);
    PrefixWithoutCr("aesgcm:", WithoutDash(t));
    PrefixWithoutCr("- ", t);
    NoProviderInBlank();
  }

  lemma {:induction false} NoProviderInBlank()
    ensures !("aesgcm:" <= WithoutDash("")) && !("- " <= "")
  {
  }

  /** The same lines, but for carriage returns at the end of some. */
  predicate SameLines(a: seq<string>, b: seq<string>) {
    |a| == |b| && forall i :: 0 <= i < |a| ==> b[i] == a[i] || b[i] == WithoutCr(a[i])
  }

  predicate SameShapes(s: seq<Shape>, s': seq<Shape>) {
    |s| == |s'| && forall i :: 0 <= i < |s| ==> SameToScan(s[i], s'[i])
  }

  lemma {:induction false} SameBlock(s: seq<Shape>, s': seq<Shape>)
    requires SameShapes(s, s') && FindBlock(s).Ok?
    ensures FindBlock(s') == FindBlock(s)
  {
    hide FindBlock, AreEntries;
    var aes := FoundIsBlock(s);
    var b := FindBlock(s).value;
    SameEntries(s, s', b);
    assert SameToScan(s[aes], s'[aes]) && SameToScan(s[b.keysLine], s'[b.keysLine]);
    forall i | 0 <= i < aes ensures !s'[i].aesgcm {
      assert SameToScan(s[i], s'[i]);
    }
    forall i | aes < i < b.keysLine ensures s'[i].blank || (s'[aes].indent < s'[i].indent && !s'[i].keys) {
      assert SameToScan(s[i], s'[i]);
    }
    forall i | b.keysLine < i < |s| ensures InBlock(s', i, s'[b.keysLine].indent) <==> InBlock(s, i, s[b.keysLine].indent) {
      assert SameToScan(s[i], s'[i]);
    }
    BlockIsFound(s', aes, b);
  }

  lemma {:induction false} SameEntries(s: seq<Shape>, s': seq<Shape>, b: KeysBlock)
    requires SameShapes(s, s') && WellFormed(b) && b.end <= |s| && AreEntries(s, b)
    ensures AreEntries(s', b)
  {
    hide EntryAt;
    forall i, indent | 0 <= i < |s| ensures EntryAt(s', i, indent) <==> EntryAt(s, i, indent) {
      SameEntry(s, s', i, indent);
    }
    forall i | b.keysLine < i < b.entries[0] ensures s'[i].blank || !s'[i].entry {
      assert SameToScan(s[i], s'[i]);
    }
  }

  lemma {:induction false} SameEntry(s: seq<Shape>, s': seq<Shape>, i: nat, indent: nat)
    requires SameShapes(s, s') && i < |s|
    ensures EntryAt(s', i, indent) <==> EntryAt(s, i, indent)
  {
    assert SameToScan(s[i], s'[i]);
  }

  lemma {:induction false} FieldWithoutCr(l: string, field: string)
    requires field != "" && field[|field| - 1] != '\r'
    ensures var (t, u) := (WithoutDash(TrimStart(l)), WithoutDash(TrimStart(WithoutCr(l))));
            (field <= t <==> field <= u) && (field <= t ==> Trim(t[|field|..]) == Trim(u[|field|..]))
  {
    hide IsWhitespace, WithoutCr, TrimEnd, TrimStart, Trim, WithoutDash, IndentOf;
    TrimWithoutCr(l);
    var t := WithoutDash(TrimStart(l));
    DashWithoutCr(TrimStart(l));
    PrefixWithoutCr(field, t);
    if field <= t {
      TrimWithoutCr(t[|field|..]);
    }
  }

  lemma {:induction false} FieldOfSameLines(a: seq<string>, b: seq<string>, field: string)
    requires SameLines(a, b) && field != "" && field[|field| - 1] != '\r'
    ensures FieldOf(b, field) == FieldOf(a, field)
  {
    hide WithoutCr, TrimStart, Trim, WithoutDash;
    if a != [] {
      FieldWithoutCr(a[0], field);
      FieldOfSameLines(a[1..], b[1..], field);
    }
  }

  /** Carriage returns at line ends do not change the keys. */
  lemma {:induction false} KeysOfSameLines(a: seq<string>, b: seq<string>)
    requires SameLines(a, b) && KeysOfLines(a).Some?
    ensures KeysOfLines(b) == KeysOfLines(a)
  {
    hide ShapeOf, FindBlock, FieldOf, SameToScan, WithoutCr;
    forall i | 0 <= i < |a| ensures SameToScan(Shapes(a)[i], Shapes(b)[i]) {
      ShapeWithoutCr(a[i]);
    }
    SameBlock(Shapes(a), Shapes(b));
    var block := FindBlock(Shapes(a)).value;
    FoundIsWellFormed(a);
    forall i | 0 <= i < |block.entries| ensures KeyOf(Chunk(b, block, i)) == KeyOf(Chunk(a, block, i)) {
      SameSlice(a, b, block.entries[i], if i + 1 < |block.entries| then block.entries[i + 1] else block.end);
      FieldOfSameLines(Chunk(a, block, i), Chunk(b, block, i), "name:");
      FieldOfSameLines(Chunk(a, block, i), Chunk(b, block, i), "secret:");
    }
    assert KeysOfChunks(Chunks(b, block)) == KeysOfChunks(Chunks(a, block));
  }

  lemma {:induction false} SameSlice(a: seq<string>, b: seq<string>, i: nat, j: nat)
    requires SameLines(a, b) && i <= j <= |a|
    ensures j <= |b| && SameLines(a[i..j], b[i..j])
  {
    hide WithoutCr;
  }

  /** Reading joined lines back changes carriage returns at line ends only, except that an
      empty last line may disappear. */
  lemma {:induction false} ReadBackIsSame(lines: seq<string>, newline: bool)
    requires lines != []
    ensures newline || lines[|lines| - 1] != "" ==> SameLines(lines, ReadBack(lines, newline))
    ensures !newline && lines[|lines| - 1] == "" ==> SameLines(lines[..|lines| - 1], ReadBack(lines, newline))
    decreases |lines|
  {
    hide WithoutCr;
    if |lines| > 1 {
      ReadBackIsSame(lines[1..], newline);
      assert lines[..|lines| - 1][1..] == lines[1..][..|lines| - 2];
    }
  }

  // ---- the rewriters on the key list ------------------------------------------------

  lemma {:induction false} TrimAfterSpace(value: string)
    ensures Trim(" " + value) == Trim(value)
  {
    TrimStartSkips(" ", value);
  }

  lemma {:induction false} KeyOfNewEntry(indent: nat, name: string, secret: string)
    requires Clean(name) && Clean(secret)
    ensures KeyOf(NewEntry(indent, name, secret)) == Key(name, secret)
  {
    hide ShapeOf, TrimStart, TrimEnd, WithoutDash;
    var e := NewEntry(indent, name, secret);
    NewEntryShapes(indent, name, secret);
    DashRemoved(name, secret);
    assert e[1..] == [e[1]];
    TrimAfterSpace(name);
    TrimAfterSpace(secret);
    assert FieldOf(e[1..], "secret:") == secret;
  }

  lemma {:induction false} DashRemoved(name: string, secret: string)
    ensures var (t0, t1) := (WithoutDash("- name: " + name), WithoutDash("secret: " + secret));
            && "name:" <= t0 && t0[5..] == " " + name && !("secret:" <= t0)
            && "secret:" <= t1 && t1[7..] == " " + secret
  {
    assert ("secret: " + secret)[0] == 's';
    assert ("- name: " + name)[2..][0] == 'n';
    assert ("- name: " + name)[2..] == "name: " + name;
  }

  lemma {:induction false} KeysOfChunksPrepend(chunk: seq<string>, chunks: seq<seq<string>>)
    ensures KeysOfChunks([chunk] + chunks) == [KeyOf(chunk)] + KeysOfChunks(chunks)
  {
    hide KeyOf;
  }

  /** The new key becomes the head of the recognised list and every old one stays behind it. */
  lemma {:induction false} InsertPrepends(config: string, name: string, secret: string)
    requires Clean(name) && Clean(secret) && Keys(config).Some?
    ensures InsertPrimaryKey(config, name, secret).Ok?
    ensures Keys(InsertPrimaryKey(config, name, secret).value) == Some([Key(name, secret)] + Keys(config).value)
  {
    hide ShapeOf, FindBlock, NewEntry, KeyOf, Lines, Clean, InsertLines;
    var lines := Lines(config);
    var b := FindBlock(Shapes(lines)).value;
    FoundIsWellFormed(lines);
    InsertIsPrepend(lines, b, name, secret);
    KeyOfNewEntry(b.entryIndent, name, secret);
    KeysOfChunksPrepend(NewEntry(b.entryIndent, name, secret), Chunks(lines, b));
    InsertedReadsBack(config, b, name, secret);
    KeysOfSameLines(InsertLines(lines, b, name, secret), Lines(InsertPrimaryKey(config, name, secret).value));
  }

  lemma {:induction false} InsertedReadsBack(config: string, b: KeysBlock, name: string, secret: string)
    requires Clean(name) && Clean(secret) && WellFormed(b) && b.end <= |Lines(config)|
    ensures var out := InsertLines(Lines(config), b, name, secret); SameLines(out, Lines(Joined(out, config)))
  {
    hide Lines, JoinLines, SameLines, Trim;
    var lines := Lines(config);
    var out := InsertLines(lines, b, name, secret);
    NoLines();
    LinesOfText(config);
    NewEntryOnLines(b.entryIndent, name, secret);
    assert forall l :: l in out ==> l in lines || l in NewEntry(b.entryIndent, name, secret);
    assert out[|out| - 1] == lines[|lines| - 1];
    LinesOfJoined(out, EndsWithNewline(config));
    ReadBackIsSame(out, EndsWithNewline(config));
  }

  lemma {:induction false} NewEntryOnLines(indent: nat, name: string, secret: string)
    requires '\n' !in name && '\n' !in secret
    ensures forall l | l in NewEntry(indent, name, secret) :: '\n' !in l
  {
  }

  /** Exactly the primary key is left, and dropping again changes nothing. */
  lemma {:induction false} DropKeepsPrimary(config: string)
    requires Keys(config).Some?
    ensures Keys(config).value != []
    ensures DropNonPrimaryKeys(config).Ok?
    ensures Keys(DropNonPrimaryKeys(config).value) == Some([Keys(config).value[0]])
    ensures DropNonPrimaryKeys(DropNonPrimaryKeys(config).value) == DropNonPrimaryKeys(config)
  {
    hide ShapeOf, FindBlock, KeyOf, Lines, DropLines, WellFormed;
    var lines := Lines(config);
    var b := FindBlock(Shapes(lines)).value;
    FoundIsWellFormed(lines);
    HasEntry(b);
    if 2 <= |b.entries| {
      var out := DropLines(lines, b);
      DropKeepsHead(lines, b);
      OneKey(out, DroppedBlock(b));
      var kept := DroppedReadsBack(config, b);
      KeysOfSameLines(kept, Lines(Joined(out, config)));
      assert Chunks(out, DroppedBlock(b))[0] == Chunk(out, DroppedBlock(b), 0);
      assert Keys(Joined(out, config)) == Some([Keys(config).value[0]]);
      OnlyOneEntry(Lines(Joined(out, config)));
    } else {
      OneKey(lines, b);
    }
  }

  lemma {:induction false} HasEntry(b: KeysBlock)
    requires WellFormed(b)
    ensures b.entries != []
  {
  }

  /** A list with one key is left as it is. */
  lemma {:induction false} OnlyOneEntry(lines: seq<string>)
    requires KeysOfLines(lines).Some? && |KeysOfLines(lines).value| == 1
    ensures |FindBlock(Shapes(lines)).value.entries| == 1
  {
    hide ShapeOf, FindBlock, KeyOf;
    FoundIsWellFormed(lines);
  }

  /** What is read back of the text after dropping has the same keys as the edited lines. */
  lemma {:induction false} DroppedReadsBack(config: string, b: KeysBlock) returns (kept: seq<string>)
    requires FindBlock(Shapes(Lines(config))) == Ok(b) && WellFormed(b) && b.end <= |Lines(config)| && 2 <= |b.entries|
    ensures var out := DropLines(Lines(config), b);
            && SameLines(kept, Lines(Joined(out, config)))
            && KeysOfLines(out).Some? && KeysOfLines(kept) == KeysOfLines(out)
    ensures var (lines, out) := (Lines(config), DropLines(Lines(config), b));
            if !EndsWithNewline(config) && out[|out| - 1] == "" then
              && kept == out[..|out| - 1] && b.end == |lines|
              && FindBlock(Shapes(kept)) == Ok(KeysBlock(b.keysLine, b.entryIndent, [b.entries[0]], b.entries[1] - 1))
            else kept == out && FindBlock(Shapes(kept)) == Ok(KeysBlock(b.keysLine, b.entryIndent, [b.entries[0]], b.entries[1]))
  {
    hide ShapeOf, FindBlock, Lines, JoinLines, SameLines, KeyOf;
    var lines := Lines(config);
    var out := DropLines(lines, b);
    var newline := EndsWithNewline(config);
    NoLines();
    LinesOfText(config);
    assert forall l :: l in out ==> l in lines;
    LinesOfJoined(out, newline);
    ReadBackIsSame(out, newline);
    DropKeepsHead(lines, b);
    OneKey(out, DroppedBlock(b));
    kept := out;
    if !newline && out[|out| - 1] == "" {
      DroppedToEnd(lines, b);
      kept := out[..|out| - 1];
      WithoutLastBlank(out, DroppedBlock(b));
      KeyStays(out, DroppedBlock(b));
      OneKey(kept, DroppedBlock(b).(end := |out| - 1));
    }
  }

  lemma {:induction false} DroppedToEnd(lines: seq<string>, b: KeysBlock)
    requires WellFormed(b) && b.end <= |lines| && 2 <= |b.entries|
    requires lines[|lines| - 1] != "" && DropLines(lines, b)[|DropLines(lines, b)| - 1] == ""
    ensures b.end == |lines| && DroppedBlock(b).end == |DropLines(lines, b)|
  {
    LastLineStays(lines, b);
  }

  lemma {:induction false} LastLineStays(lines: seq<string>, b: KeysBlock)
    requires WellFormed(b) && b.end <= |lines| && 2 <= |b.entries|
    ensures b.end < |lines| ==> DropLines(lines, b)[|DropLines(lines, b)| - 1] == lines[|lines| - 1]
  {
  }

  lemma {:induction false} OneKey(lines: seq<string>, b: KeysBlock)
    requires FindBlock(Shapes(lines)) == Ok(b) && |b.entries| == 1
    ensures WellFormed(b) && b.end <= |lines|
    ensures KeysOfLines(lines) == Some([KeyOf(Chunk(lines, b, 0))])
  {
    hide ShapeOf, FindBlock, KeyOf;
    FoundIsWellFormed(lines);
    assert Chunks(lines, b) == [Chunk(lines, b, 0)];
    assert KeysOfChunks(Chunks(lines, b)) == [KeyOf(Chunk(lines, b, 0))];
  }

  lemma {:induction false} FieldWithoutLastBlank(chunk: seq<string>, field: string)
    requires chunk != [] && chunk[|chunk| - 1] == "" && field != ""
    ensures FieldOf(chunk[..|chunk| - 1], field) == FieldOf(chunk, field)
  {
    hide TrimStart, Trim, WithoutDash;
    if |chunk| == 1 {
      assert chunk == [""] && chunk[..0] == [];
      BlankHasNoField(field);
    } else {
      assert chunk[..|chunk| - 1][1..] == chunk[1..][..|chunk| - 2];
      FieldWithoutLastBlank(chunk[1..], field);
    }
  }

  lemma {:induction false} BlankHasNoField(field: string)
    requires field != ""
    ensures FieldOf([""], field) == FieldOf([], field)
  {
  }

  /** A blank last line of a list that ends the document does not matter. */
  lemma {:induction false} WithoutLastBlank(lines: seq<string>, b: KeysBlock)
    requires FindBlock(Shapes(lines)) == Ok(b) && WellFormed(b) && |b.entries| == 1
    requires b.end == |lines| && lines[|lines| - 1] == ""
    ensures WellFormed(b.(end := |lines| - 1))
    ensures FindBlock(Shapes(lines[..|lines| - 1])) == Ok(b.(end := |lines| - 1))
  {
    hide ShapeOf, FindBlock;
    ShorterShapes(lines);
    ShorterIsFound(Shapes(lines), b);
  }

  lemma {:induction false} KeyStays(lines: seq<string>, b: KeysBlock)
    requires WellFormed(b) && |b.entries| == 1 && b.end == |lines|
    requires lines[|lines| - 1] == "" && WellFormed(b.(end := |lines| - 1))
    ensures KeyOf(Chunk(lines[..|lines| - 1], b.(end := |lines| - 1), 0)) == KeyOf(Chunk(lines, b, 0))
  {
    hide KeyOf, Chunk;
    ShorterChunk(lines, b);
    KeyWithoutLastBlank(Chunk(lines, b, 0));
  }

  lemma {:induction false} ShorterShapes(lines: seq<string>)
    requires lines != [] && lines[|lines| - 1] == ""
    ensures Shapes(lines[..|lines| - 1]) == Shapes(lines)[..|lines| - 1]
    ensures Shapes(lines)[|lines| - 1].blank
  {
    hide ShapeOf;
    EmptyLineShape();
  }

  lemma {:induction false} ShorterIsFound(s: seq<Shape>, b: KeysBlock)
    requires FindBlock(s) == Ok(b) && WellFormed(b) && |b.entries| == 1
    requires b.end == |s| && s[|s| - 1].blank
    ensures WellFormed(b.(end := |s| - 1)) && FindBlock(s[..|s| - 1]) == Ok(b.(end := |s| - 1))
  {
    hide FindBlock, IsBlock;
    var aes := FoundIsBlock(s);
    ShorterBlock(s, aes, b);
    BlockIsFound(s[..|s| - 1], aes, b.(end := |s| - 1));
  }

  lemma {:induction false} KeyWithoutLastBlank(chunk: seq<string>)
    requires chunk != [] && chunk[|chunk| - 1] == ""
    ensures KeyOf(chunk[..|chunk| - 1]) == KeyOf(chunk)
  {
    hide FieldOf;
    FieldWithoutLastBlank(chunk, "name:");
    FieldWithoutLastBlank(chunk, "secret:");
  }

  lemma {:induction false} ShorterChunk(lines: seq<string>, b: KeysBlock)
    requires WellFormed(b) && |b.entries| == 1 && b.end == |lines|
    requires WellFormed(b.(end := |lines| - 1))
    ensures var c := Chunk(lines, b, 0);
            c != [] && c[|c| - 1] == lines[|lines| - 1]
            && Chunk(lines[..|lines| - 1], b.(end := |lines| - 1), 0) == c[..|c| - 1]
  {
  }

  lemma {:induction false} ShorterBlock(s: seq<Shape>, aes: nat, b: KeysBlock)
    requires IsBlock(s, aes, b) && |b.entries| == 1 && b.end == |s| && s[|s| - 1].blank
    ensures WellFormed(b.(end := |s| - 1)) && IsBlock(s[..|s| - 1], aes, b.(end := |s| - 1))
  {
    hide AreEntries;
    var s', b' := s[..|s| - 1], b.(end := |s| - 1);
    ShorterEntries(s, b);
    forall i | b.keysLine < i < b'.end ensures InBlock(s', i, s'[b.keysLine].indent) {
      assert InBlock(s, i, s[b.keysLine].indent);
    }
  }

  lemma {:induction false} ShorterEntries(s: seq<Shape>, b: KeysBlock)
    requires WellFormed(b) && |b.entries| == 1 && b.end == |s| && s[|s| - 1].blank && AreEntries(s, b)
    ensures WellFormed(b.(end := |s| - 1)) && AreEntries(s[..|s| - 1], b.(end := |s| - 1))
  {
    var s' := s[..|s| - 1];
    assert EntryAt(s, b.entries[0], b.entryIndent);
    forall i, indent | 0 <= i < |s'| ensures EntryAt(s', i, indent) <==> EntryAt(s, i, indent) {
    }
  }

  lemma {:induction false} EmptyLineShape()
    ensures ShapeOf("").blank
  {
  }

  // ---- the rewriters on the whole text ----------------------------------------------

  /** The same lines, but for carriage returns at the end of some of them in `a`. */
  predicate SameButCr(a: seq<string>, b: seq<string>) {
    |a| == |b| && forall i :: 0 <= i < |a| ==> LosesCr(a[i], b[i])
  }

  predicate LosesCr(l: string, m: string) {
    m <= l && forall k :: |m| <= k < |l| ==> l[k] == '\r'
  }

  lemma {:induction false} SameIsSameButCr(a: seq<string>, b: seq<string>)
    requires SameLines(a, b)
    ensures SameButCr(a, b)
  {
  }

  lemma {:induction false} SameButCrTwice(a: seq<string>, b: seq<string>, c: seq<string>)
    requires SameButCr(a, b) && SameButCr(b, c)
    ensures SameButCr(a, c)
  {
    hide LosesCr;
    forall i | 0 <= i < |a| ensures LosesCr(a[i], c[i]) {
      LosesCrTwice(a[i], b[i], c[i]);
    }
  }

  lemma {:induction false} LosesCrTwice(l: string, m: string, n: string)
    requires LosesCr(l, m) && LosesCr(m, n)
    ensures LosesCr(l, n)
  {
    forall k | |n| <= k < |l| ensures l[k] == '\r' {
      if k < |m| {
        assert l[k] == m[k];
      }
    }
  }

  lemma {:induction false} SameLinesSameBlock(a: seq<string>, b: seq<string>)
    requires SameLines(a, b) && FindBlock(Shapes(a)).Ok?
    ensures FindBlock(Shapes(b)) == FindBlock(Shapes(a))
  {
    hide ShapeOf, FindBlock, SameToScan, WithoutCr;
    forall i | 0 <= i < |a| ensures SameToScan(Shapes(a)[i], Shapes(b)[i]) {
      ShapeWithoutCr(a[i]);
    }
    SameBlock(Shapes(a), Shapes(b));
  }

  /** Joined lines end with a newline exactly when the last of several is empty. */
  lemma {:induction false} JoinedEnd(lines: seq<string>)
    requires lines != [] && forall l | l in lines :: '\n' !in l
    ensures EndsWithNewline(JoinLines(lines)) <==> 1 < |lines| && lines[|lines| - 1] == ""
  {
    if |lines| == 1 {
      assert lines[0] in lines;
    } else {
      JoinedEnd(lines[1..]);
      var rest := JoinLines(lines[1..]);
      assert JoinLines(lines) == lines[0] + "\n" + rest;
      if rest == "" {
        EmptyJoin(lines[1..]);
      }
    }
  }

  lemma {:induction false} EmptyJoin(lines: seq<string>)
    requires lines != [] && JoinLines(lines) == ""
    ensures lines == [""]
  {
  }

  lemma {:induction false} JoinedNewline(lines: seq<string>, config: string)
    requires 1 < |lines| && forall l | l in lines :: '\n' !in l
    ensures EndsWithNewline(Joined(lines, config)) <==> EndsWithNewline(config) || lines[|lines| - 1] == ""
  {
    hide JoinLines;
    JoinedEnd(lines);
    if EndsWithNewline(config) {
      assert (JoinLines(lines) + "\n")[|JoinLines(lines)|] == '\n';
    } else {
      assert JoinLines(lines) + "" == JoinLines(lines);
    }
  }

  /** The two lines of a new entry, with its dash at column `indent`. */
  function EntryLines(indent: nat, name: string, secret: string): seq<string> {
    [seq(indent, _ => ' ') + "- name: " + name, seq(indent + 2, _ => ' ') + "secret: " + secret]
  }

  lemma {:induction false} NewEntryLines(indent: nat, name: string, secret: string)
    ensures NewEntry(indent, name, secret) == EntryLines(indent, name, secret)
  {
    var pad := seq(indent, _ => ' ');
    assert pad + ("- name: " + name) == pad + "- name: " + name;
    assert seq(indent + 2, _ => ' ') == pad + "  ";
    assert pad + ("  secret: " + secret) == pad + "  " + "secret: " + secret;
  }

  /** The text after putting a key in front: every old line as it was and in its place, the
      two new ones in front of the first entry, and the final newline kept. */
  lemma {:induction false} InsertOnTexts(config: string, name: string, secret: string) returns (b: KeysBlock)
    requires Clean(name) && Clean(secret) && Keys(config).Some?
    ensures FindBlock(Shapes(Lines(config))) == Ok(b) && WellFormed(b) && b.end <= |Lines(config)|
    ensures InsertPrimaryKey(config, name, secret).Ok?
    ensures var (lines, r) := (Lines(config), InsertPrimaryKey(config, name, secret).value);
            && SameLines(lines[..b.entries[0]] + EntryLines(b.entryIndent, name, secret) + lines[b.entries[0]..], Lines(r))
            && FindBlock(Shapes(Lines(r))) == Ok(InsertedBlock(b))
            && (EndsWithNewline(r) <==> EndsWithNewline(config))
  {
    hide ShapeOf, FindBlock, NewEntry, Lines, Clean, JoinLines, SameLines, EntryLines, EndsWithNewline, Joined;
    var lines := Lines(config);
    b := FindBlock(Shapes(lines)).value;
    FoundIsWellFormed(lines);
    NewEntryLines(b.entryIndent, name, secret);
    InsertedReadsBack(config, b, name, secret);
    InsertedIsFound(lines, b, name, secret);
    SameLinesSameBlock(InsertLines(lines, b, name, secret), Lines(InsertPrimaryKey(config, name, secret).value));
    InsertedEnd(config, b, name, secret);
  }

  lemma {:induction false} InsertedEnd(config: string, b: KeysBlock, name: string, secret: string)
    requires Clean(name) && Clean(secret) && WellFormed(b) && b.end <= |Lines(config)|
    ensures EndsWithNewline(Joined(InsertLines(Lines(config), b, name, secret), config)) <==> EndsWithNewline(config)
  {
    hide Lines, JoinLines, Joined, Trim, NewEntry;
    var lines, out := Lines(config), InsertLines(Lines(config), b, name, secret);
    NoLines();
    LinesOfText(config);
    NewEntryOnLines(b.entryIndent, name, secret);
    assert forall l :: l in out ==> l in lines || l in NewEntry(b.entryIndent, name, secret);
    assert out[|out| - 1] == lines[|lines| - 1];
    JoinedNewline(out, config);
  }

  /** The lines that stay when the old keys go. */
  function KeptLines(lines: seq<string>, b: KeysBlock): (r: seq<string>)
    requires WellFormed(b) && b.end <= |lines| && 2 <= |b.entries|
    ensures 1 < |r|
  {
    assert b.keysLine < b.entries[0] < b.entries[1];
    lines[..b.entries[1]] + lines[b.end..]
  }

  /** The text after dropping: with one key it is the same text.  With more, the lines up to the
      second entry and those behind the list are as they were; an empty line that is thereby
      left at the end of a text without a final newline becomes that newline. */
  lemma {:induction false} DropOnTexts(config: string) returns (b: KeysBlock)
    requires Keys(config).Some?
    ensures FindBlock(Shapes(Lines(config))) == Ok(b) && WellFormed(b) && b.end <= |Lines(config)|
    ensures DropNonPrimaryKeys(config).Ok?
    ensures |b.entries| == 1 ==> DropNonPrimaryKeys(config).value == config
    ensures 2 <= |b.entries| ==>
      var (lines, r) := (Lines(config), DropNonPrimaryKeys(config).value);
      var kept := KeptLines(lines, b);
      var blank := !EndsWithNewline(config) && kept[|kept| - 1] == "";
      && SameLines(if blank then kept[..|kept| - 1] else kept, Lines(r))
      && (EndsWithNewline(r) <==> EndsWithNewline(config) || blank)
      && (blank ==> b.end == |lines|)
      && FindBlock(Shapes(Lines(r))) == Ok(KeysBlock(b.keysLine, b.entryIndent, [b.entries[0]],
                                                     if blank then b.entries[1] - 1 else b.entries[1]))
  {
    hide ShapeOf, FindBlock, Lines, JoinLines, SameLines, KeyOf, Joined, EndsWithNewline;
    var lines := Lines(config);
    b := FindBlock(Shapes(lines)).value;
    FoundIsWellFormed(lines);
    if 2 <= |b.entries| {
      var out := DropLines(lines, b);
      var kept := DroppedReadsBack(config, b);
      SameLinesSameBlock(kept, Lines(Joined(out, config)));
      LinesOfText(config);
      assert forall l :: l in out ==> l in lines;
      JoinedNewline(out, config);
    }
  }

  lemma {:induction false} SameSlices(a: seq<string>, b: seq<string>, i: nat)
    requires SameLines(a, b) && i <= |a|
    ensures |a| == |b| && SameButCr(a[..i], b[..i]) && SameButCr(a[i..], b[i..])
  {
    hide WithoutCr;
    SameSlice(a, b, 0, i);
    SameSlice(a, b, i, |a|);
    assert a[0..i] == a[..i] && b[0..i] == b[..i] && a[i..|a|] == a[i..] && b[i..|a|] == b[i..];
    SameIsSameButCr(a[..i], b[..i]);
    SameIsSameButCr(a[i..], b[i..]);
  }

  /** A whole rotation on the text: the new entry's two lines stand for the whole old list,
      every other line is as it was, and so is the final newline. */
  lemma {:induction false} RotationOnTexts(config: string, name: string, secret: string) returns (b: KeysBlock, r: string)
    requires Clean(name) && Clean(secret) && Keys(config).Some?
    ensures FindBlock(Shapes(Lines(config))) == Ok(b) && WellFormed(b) && b.end <= |Lines(config)|
    ensures InsertPrimaryKey(config, name, secret).Ok?
    ensures DropNonPrimaryKeys(InsertPrimaryKey(config, name, secret).value) == Ok(r)
    ensures var lines := Lines(config);
            SameButCr(lines[..b.entries[0]] + EntryLines(b.entryIndent, name, secret) + lines[b.end..], Lines(r))
    ensures EndsWithNewline(r) <==> EndsWithNewline(config)
  {
    hide ShapeOf, FindBlock, Lines, SameLines, Keys, InsertPrimaryKey, DropNonPrimaryKeys, Clean, EntryLines, SameButCr,
         EndsWithNewline, KeptLines, InsertedBlock, WithoutCr;
    InsertPrepends(config, name, secret);
    b := InsertOnTexts(config, name, secret);
    var (lines, dual, entry) := (Lines(config), InsertPrimaryKey(config, name, secret).value,
                                 EntryLines(b.entryIndent, name, secret));
    var c := DropOnTexts(dual);
    r := DropNonPrimaryKeys(dual).value;
    InsertedFacts(b);
    EntryIsSolid(b.entryIndent, name, secret);
    KeptAfterInsert(lines, b, entry, Lines(dual), c);
    LastAfterInsert(lines, b, entry, Lines(dual), c);
    LastLineOf(dual, Lines(dual));
    SameIsSameButCr(KeptLines(Lines(dual), c), Lines(r));
    SameButCrTwice(lines[..b.entries[0]] + entry + lines[b.end..], KeptLines(Lines(dual), c), Lines(r));
  }

  lemma {:induction false} LastLineOf(config: string, lines: seq<string>)
    requires lines == Lines(config) && lines != []
    ensures !EndsWithNewline(config) ==> lines[|lines| - 1] != ""
  {
    hide Lines;
    NoLines();
    LinesOfText(config);
  }

  lemma {:induction false} InsertedFacts(b: KeysBlock)
    requires WellFormed(b)
    ensures var c := InsertedBlock(b); 2 <= |c.entries| && c.entries[1] == b.entries[0] + 2 && c.end == b.end + 2
  {
  }

  lemma {:induction false} EntryIsSolid(indent: nat, name: string, secret: string)
    ensures var e := EntryLines(indent, name, secret); |e| == 2 && e[1] != "" && WithoutCr(e[1]) != ""
  {
    assert (seq(indent + 2, _ => ' ') + "secret: " + secret)[indent + 2] == 's';
  }

  lemma {:induction false} KeptAfterInsert(lines: seq<string>, b: KeysBlock, entry: seq<string>, dual: seq<string>, c: KeysBlock)
    requires WellFormed(b) && b.end <= |lines| && |entry| == 2
    requires WellFormed(c) && 2 <= |c.entries| && c.entries[1] == b.entries[0] + 2 && c.end == b.end + 2 <= |dual|
    requires SameLines(lines[..b.entries[0]] + entry + lines[b.entries[0]..], dual)
    ensures SameButCr(lines[..b.entries[0]] + entry + lines[b.end..], KeptLines(dual, c))
  {
    hide SameLines, LosesCr;
    var a, at := lines[..b.entries[0]] + entry + lines[b.entries[0]..], b.entries[0];
    SameSlices(a, dual, at + 2);
    SameSlices(a, dual, b.end + 2);
    assert a[..at + 2] == lines[..at] + entry && a[b.end + 2..] == lines[b.end..];
    SameAppended(a[..at + 2], dual[..at + 2], a[b.end + 2..], dual[b.end + 2..]);
  }

  lemma {:induction false} SameAppended(a: seq<string>, a': seq<string>, b: seq<string>, b': seq<string>)
    requires SameButCr(a, a') && SameButCr(b, b')
    ensures SameButCr(a + b, a' + b')
  {
    hide LosesCr;
  }

  /** The last line that stays is not empty. */
  lemma {:induction false} LastAfterInsert(lines: seq<string>, b: KeysBlock, entry: seq<string>,
                                           dual: seq<string>, c: KeysBlock)
    requires WellFormed(b) && b.end <= |lines|
    requires |entry| == 2 && entry[1] != "" && WithoutCr(entry[1]) != ""
    requires WellFormed(c) && 2 <= |c.entries| && c.entries[1] == b.entries[0] + 2 && c.end == b.end + 2 <= |dual|
    requires SameLines(lines[..b.entries[0]] + entry + lines[b.entries[0]..], dual)
    ensures dual[|dual| - 1] != "" ==> KeptLines(dual, c)[|KeptLines(dual, c)| - 1] != ""
  {
    hide WithoutCr;
    var a, k := lines[..b.entries[0]] + entry + lines[b.entries[0]..], KeptLines(dual, c);
    assert a[b.entries[0] + 1] == entry[1];
    if b.end + 2 == |dual| {
      assert dual[b.end + 2..] == [];
      assert k[|k| - 1] == dual[b.entries[0] + 1];
    } else {
      assert k[|k| - 1] == dual[|dual| - 1];
    }
  }
}
