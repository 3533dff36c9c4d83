/** The key list of an `EncryptionConfiguration` as YAML reads it, beside the list that the scan
    of commands/etcd.rs finds.  To YAML a comment is not content, wherever it is indented, and an
    entry is a dash with a space, a tab or the end of the line behind it (sections 6.6 and 8.2.1
    of YAML 1.2).  To the scan a comment at or left of the column of `keys:` ends the list, and
    an entry is a dash with a space behind it. */
module EncryptionYaml {
  import opened Text
  import opened EncryptionConfig

  predicate IsComment(line: string) {
    var t := TrimStart(line);
    t != "" && t[0] == '#'
  }

  /** The indicator of an entry of a block sequence. */
  predicate IsDash(line: string) {
    var t := TrimStart(line);
    t != "" && t[0] == '-' && (|t| == 1 || t[1] == ' ' || t[1] == '\t')
  }

  function Comments(lines: seq<string>): (r: seq<bool>)
    ensures |r| == |lines|
  {
    seq(|lines|, i requires 0 <= i < |lines| => IsComment(lines[i]))
  }

  function Dashes(lines: seq<string>): (r: seq<bool>)
    ensures |r| == |lines|
  {
    seq(|lines|, i requires 0 <= i < |lines| => IsDash(lines[i]))
  }

  /** The document as the scan sees it, with the comments and the entries that YAML sees. */
  datatype Document = Document(shapes: seq<Shape>, comments: seq<bool>, dashes: seq<bool>)

  function DocumentOf(lines: seq<string>): Document {
    Document(Shapes(lines), Comments(lines), Dashes(lines))
  }

  /** What the scan takes for an entry is one. */
  predicate IsDocument(d: Document) {
    && |d.shapes| == |d.comments| == |d.dashes|
    && (forall i :: 0 <= i < |d.shapes| && !d.shapes[i].blank && d.shapes[i].entry ==> d.dashes[i])
    && (forall i :: 0 <= i < |d.shapes| && d.dashes[i] ==> !d.shapes[i].blank)
  }

  /** The lines with YAML's entries in place of the scan's. */
  function YamlShapes(d: Document): (r: seq<Shape>)
    requires IsDocument(d)
    ensures |r| == |d.shapes|
  {
    seq(|d.shapes|, i requires 0 <= i < |d.shapes| => d.shapes[i].(entry := d.dashes[i]))
  }

  predicate IsFound(d: Document, b: KeysBlock) {
    IsDocument(d) && FindBlock(d.shapes) == Ok(b) && WellFormed(b) && b.end <= |d.shapes|
  }

  /** A line with content at or left of the column of `keys:`. */
  predicate EndsList(d: Document, i: nat, keysIndent: nat)
    requires IsDocument(d) && i < |d.shapes|
  {
    !d.shapes[i].blank && !d.comments[i] && d.shapes[i].indent <= keysIndent
  }

  /** Where the list ends when comments are skipped: the first such line at or after `i`. */
  function ListEnd(d: Document, i: nat, keysIndent: nat): (r: nat)
    requires IsDocument(d) && i <= |d.shapes|
    ensures i <= r <= |d.shapes|
    ensures forall k :: i <= k < r ==> !EndsList(d, k, keysIndent)
    ensures r < |d.shapes| ==> EndsList(d, r, keysIndent)
    decreases |d.shapes| - i
  {
    if i == |d.shapes| || EndsList(d, i, keysIndent) then i else ListEnd(d, i + 1, keysIndent)
  }

  function EndOfList(d: Document, b: KeysBlock): (r: nat)
    requires IsDocument(d) && b.keysLine < |d.shapes|
    ensures r <= |d.shapes|
  {
    ListEnd(d, b.keysLine + 1, d.shapes[b.keysLine].indent)
  }

  /** All entries of the list: those at the column of the first one. */
  function ListEntries(d: Document, b: KeysBlock): seq<nat>
    requires IsDocument(d) && b.keysLine < |d.shapes|
  {
    var s := YamlShapes(d);
    match FirstEntry(s, b.keysLine + 1, EndOfList(d, b))
    case None => []
    case Some(first) => EntriesFrom(s, first, EndOfList(d, b), s[first].indent)
  }

  /** The entries behind the place where the scan stops. */
  function LaterEntries(d: Document, b: KeysBlock): seq<nat>
    requires IsDocument(d) && b.keysLine < |d.shapes|
  {
    EntriesFrom(YamlShapes(d), b.end, EndOfList(d, b), b.entryIndent)
  }

  /** An entry that the scan does not see: its dash stands alone or before a tab. */
  predicate IsUnseen(d: Document, i: nat)
    requires IsDocument(d) && i < |d.shapes|
  {
    d.dashes[i] && !d.shapes[i].entry
  }

  /** No entry in front of the first found one is unseen. */
  predicate NoneInFront(d: Document, b: KeysBlock)
    requires IsDocument(d) && WellFormed(b) && b.end <= |d.shapes|
  {
    forall i :: b.keysLine < i < b.entries[0] ==> !IsUnseen(d, i)
  }

  /** From line `i` up to `end`, no entry at the column is unseen. */
  predicate NoneBetween(d: Document, i: nat, end: nat, indent: nat)
    requires IsDocument(d) && end <= |d.shapes|
  {
    forall k :: i <= k < end && d.shapes[k].indent == indent ==> !IsUnseen(d, k)
  }

  /** The lines of the found block are in the list. */
  lemma {:induction false} ListReachesBlockEnd(d: Document, b: KeysBlock)
    requires IsFound(d, b)
    ensures b.end <= EndOfList(d, b)
    ensures b.end < |d.shapes| ==> !d.shapes[b.end].blank && d.shapes[b.end].indent <= d.shapes[b.keysLine].indent
  {
    hide FindBlock, AreEntries;
    var aes := FoundIsBlock(d.shapes);
    var ki := d.shapes[b.keysLine].indent;
    forall k | b.keysLine < k < b.end ensures !EndsList(d, k, ki) {
      assert InBlock(d.shapes, k, ki);
    }
    assert b.end < |d.shapes| ==> !InBlock(d.shapes, b.end, ki);
  }

  /** The scan stops at the end of the list exactly when it does not stop at a comment. */
  lemma {:induction false} ScanStopsAtListEnd(d: Document, b: KeysBlock)
    requires IsFound(d, b)
    ensures b.end <= EndOfList(d, b)
    ensures b.end == EndOfList(d, b) <==> b.end == |d.shapes| || !d.comments[b.end]
  {
    hide FindBlock;
    ListReachesBlockEnd(d, b);
    var ki := d.shapes[b.keysLine].indent;
    assert b.end < |d.shapes| ==> (EndsList(d, b.end, ki) <==> !d.comments[b.end]);
  }

  lemma {:induction false} EntriesSplit(s: seq<Shape>, i: nat, j: nat, end: nat, indent: nat)
    requires i <= j <= end <= |s|
    ensures EntriesFrom(s, i, end, indent) == EntriesFrom(s, i, j, indent) + EntriesFrom(s, j, end, indent)
    decreases j - i
  {
    if i < j {
      EntriesSplit(s, i + 1, j, end, indent);
    }
  }

  lemma {:induction false} YamlEntry(d: Document, i: nat, indent: nat)
    requires IsDocument(d) && i < |d.shapes|
    ensures EntryAt(YamlShapes(d), i, indent) <==> d.dashes[i] && d.shapes[i].indent == indent
    ensures EntryAt(d.shapes, i, indent) ==> EntryAt(YamlShapes(d), i, indent)
  {
  }

  /** The list starts with the first found entry exactly when no unseen one is in front. */
  lemma {:induction false} ListStart(d: Document, b: KeysBlock)
    requires IsFound(d, b)
    ensures b.end <= EndOfList(d, b)
    ensures ListEntries(d, b) != [] && ListEntries(d, b)[0] <= b.entries[0]
    ensures ListEntries(d, b)[0] == b.entries[0] <==> NoneInFront(d, b)
    ensures NoneInFront(d, b) ==>
      ListEntries(d, b) == EntriesFrom(YamlShapes(d), b.entries[0], EndOfList(d, b), b.entryIndent)
  {
    hide FindBlock, ListEnd, IsBlock, EntriesFrom;
    var s, first, end := YamlShapes(d), b.entries[0], EndOfList(d, b);
    FoundStart(d, b);
    ListReachesBlockEnd(d, b);
    YamlEntry(d, first, b.entryIndent);
    FirstEntryProperty(s, b.keysLine + 1, end);
    assert s[first].entry && !s[first].blank;
    var f := FirstEntry(s, b.keysLine + 1, end).value;
    FirstIsListed(s, f, end);
    assert f < first ==> IsUnseen(d, f);
    forall i | b.keysLine < i < first ensures IsUnseen(d, i) ==> f <= i {
      assert s[i].entry == d.dashes[i] && s[i].blank == d.shapes[i].blank;
    }
  }

  lemma {:induction false} FirstIsListed(s: seq<Shape>, f: nat, end: nat)
    requires f < end <= |s| && EntryAt(s, f, s[f].indent)
    ensures EntriesFrom(s, f, end, s[f].indent) != [] && EntriesFrom(s, f, end, s[f].indent)[0] == f
  {
  }

  /** What the scan says about the lines up to its first entry. */
  lemma {:induction false} FoundStart(d: Document, b: KeysBlock)
    requires IsFound(d, b)
    ensures var first := b.entries[0];
            && b.keysLine < first < b.end && d.dashes[first]
            && !d.shapes[first].blank && d.shapes[first].indent == b.entryIndent
    ensures forall i :: b.keysLine < i < b.entries[0] ==> d.shapes[i].blank || !d.shapes[i].entry
  {
    hide FindBlock, InBlock;
    var aes := FoundIsBlock(d.shapes);
    assert EntryAt(d.shapes, b.entries[0], b.entryIndent);
  }

  /** YAML's entries and the scan's are the same exactly where none is unseen. */
  lemma {:induction false} SameEntriesIff(d: Document, i: nat, end: nat, indent: nat)
    requires IsDocument(d) && i <= end <= |d.shapes|
    ensures EntriesFrom(YamlShapes(d), i, end, indent) == EntriesFrom(d.shapes, i, end, indent)
       <==> NoneBetween(d, i, end, indent)
    decreases end - i
  {
    hide IsDocument, EntryAt, EntriesFrom, IsUnseen;
    var s := YamlShapes(d);
    EntriesStep(s, i, end, indent);
    EntriesStep(d.shapes, i, end, indent);
    if i < end {
      SameEntriesIff(d, i + 1, end, indent);
      YamlEntryIff(d, i, indent);
      EntriesAfter(s, i + 1, end, indent);
      EntriesAfter(d.shapes, i + 1, end, indent);
      SameWithHead(i, EntryAt(s, i, indent), EntriesFrom(s, i + 1, end, indent),
                   EntryAt(d.shapes, i, indent), EntriesFrom(d.shapes, i + 1, end, indent));
      assert NoneBetween(d, i, end, indent) <==>
        NoneBetween(d, i + 1, end, indent) && !(IsUnseen(d, i) && d.shapes[i].indent == indent);
    }
  }

  function WithHead(i: nat, present: bool, s: seq<nat>): seq<nat> {
    if present then [i] + s else s
  }

  lemma {:induction false} EntriesStep(s: seq<Shape>, i: nat, end: nat, indent: nat)
    requires i <= end <= |s|
    ensures EntriesFrom(s, i, end, indent) ==
      if i == end then [] else WithHead(i, EntryAt(s, i, indent), EntriesFrom(s, i + 1, end, indent))
  {
    hide EntryAt;
  }

  lemma {:induction false} SameWithHead(i: nat, a: bool, s: seq<nat>, b: bool, t: seq<nat>)
    requires i !in s && i !in t
    ensures WithHead(i, a, s) == WithHead(i, b, t) <==> a == b && s == t
  {
    assert ([i] + s)[1..] == s && ([i] + t)[1..] == t;
    assert i in [i] + s && i in [i] + t;
  }

  lemma {:induction false} YamlEntryIff(d: Document, i: nat, indent: nat)
    requires IsDocument(d) && i < |d.shapes|
    ensures EntryAt(YamlShapes(d), i, indent) <==>
      EntryAt(d.shapes, i, indent) || (IsUnseen(d, i) && d.shapes[i].indent == indent)
    ensures EntryAt(d.shapes, i, indent) ==> !IsUnseen(d, i)
  {
  }

  lemma {:induction false} EntriesAfter(s: seq<Shape>, i: nat, end: nat, indent: nat)
    requires end <= |s|
    ensures forall e | e in EntriesFrom(s, i, end, indent) :: i <= e < end
  {
    EntriesFromProperty(s, i, end, indent);
  }

  /** The scan finds the whole list exactly when no entry is unseen, before its first one or
      at the column, and none is behind the place where it stops. */
  lemma {:induction false} FoundIsListIff(d: Document, b: KeysBlock)
    requires IsFound(d, b)
    ensures b.entries == ListEntries(d, b) <==>
      NoneInFront(d, b) && NoneBetween(d, b.entries[0], b.end, b.entryIndent) && LaterEntries(d, b) == []
    ensures NoneInFront(d, b) && NoneBetween(d, b.entries[0], b.end, b.entryIndent) ==>
      ListEntries(d, b) == b.entries + LaterEntries(d, b)
  {
    hide FindBlock, ListEnd, EntriesFrom, ListEntries, NoneInFront, NoneBetween;
    var s, first := YamlShapes(d), b.entries[0];
    ListStart(d, b);
    FoundEntries(d, b);
    EntriesSplit(s, first, b.end, EndOfList(d, b), b.entryIndent);
    SameEntriesIff(d, first, b.end, b.entryIndent);
    EntriesAfter(s, b.end, EndOfList(d, b), b.entryIndent);
    assert EntriesFrom(s, first, EndOfList(d, b), b.entryIndent)
        == EntriesFrom(s, first, b.end, b.entryIndent) + LaterEntries(d, b);
    SplitAtEnd(b.entries, EntriesFrom(s, first, b.end, b.entryIndent), LaterEntries(d, b), b.end);
    assert b.entries + [] == b.entries;
  }

  lemma {:induction false} FoundEntries(d: Document, b: KeysBlock)
    requires IsFound(d, b)
    ensures EntriesFrom(d.shapes, b.entries[0], b.end, b.entryIndent) == b.entries
    ensures forall e | e in b.entries :: e < b.end
  {
    hide FindBlock, InBlock, EntriesFrom;
    var aes := FoundIsBlock(d.shapes);
    EntriesFound(d.shapes, b);
  }

  lemma {:induction false} SplitAtEnd(all: seq<nat>, front: seq<nat>, back: seq<nat>, end: nat)
    requires (forall e | e in all :: e < end) && (forall e | e in back :: end <= e)
    ensures all == front + back <==> all == front && back == []
  {
    if back != [] {
      assert (front + back)[|front|] == back[0] && back[0] in back && back[0] in front + back;
    } else {
      assert front + back == front;
    }
  }

  // ---- putting a key in front -------------------------------------------------------

  lemma {:induction false} DocumentIsDocument(lines: seq<string>)
    ensures IsDocument(DocumentOf(lines)) && |DocumentOf(lines).shapes| == |lines|
  {
    hide ShapeOf, IsDash, IsComment;
    forall i | 0 <= i < |lines|
      ensures ShapeOf(lines[i]).entry ==> IsDash(lines[i])
      ensures IsDash(lines[i]) ==> !ShapeOf(lines[i]).blank
    {
      DashFacts(lines[i]);
    }
  }

  lemma {:induction false} DashFacts(line: string)
    ensures ShapeOf(line).entry ==> IsDash(line)
    ensures IsDash(line) ==> !ShapeOf(line).blank
  {
    TrimIsBlank(line);
  }

  /** A new key comes first in the list exactly when no unseen entry is in front of the place
      where the program puts it. */
  lemma {:induction false} InsertIsFirstIff(lines: seq<string>, b: KeysBlock, name: string, secret: string)
    requires IsFound(DocumentOf(lines), b)
    ensures var d := DocumentOf(InsertLines(lines, b, name, secret));
            && IsFound(d, InsertedBlock(b)) && ListEntries(d, InsertedBlock(b)) != []
            && ListEntries(d, InsertedBlock(b))[0] <= b.entries[0]
            && (ListEntries(d, InsertedBlock(b))[0] == b.entries[0] <==> NoneInFront(DocumentOf(lines), b))
  {
    hide FindBlock, ListEntries, IsDocument, ShapeOf, IsDash, IsComment, InsertLines;
    var out := InsertLines(lines, b, name, secret);
    DocumentIsDocument(lines);
    DocumentIsDocument(out);
    InsertedIsFound(lines, b, name, secret);
    InsertedChunks(lines, b, name, secret);
    ListStart(DocumentOf(out), InsertedBlock(b));
    InsertKeepsFront(lines, b, name, secret);
    forall i | b.keysLine < i < b.entries[0]
      ensures IsUnseen(DocumentOf(out), i) <==> IsUnseen(DocumentOf(lines), i)
    {
      assert out[i] == lines[i];
    }
  }

  lemma {:induction false} InsertKeepsFront(lines: seq<string>, b: KeysBlock, name: string, secret: string)
    requires WellFormed(b) && b.end <= |lines|
    ensures |InsertLines(lines, b, name, secret)| == |lines| + 2
    ensures forall i :: 0 <= i < b.entries[0] ==> InsertLines(lines, b, name, secret)[i] == lines[i]
  {
    hide NewEntry;
  }

  // ---- dropping the old keys --------------------------------------------------------

  lemma {:induction false} ListEndMoves(d: Document, i: nat, e: Document, gone: nat, keysIndent: nat)
    requires IsDocument(d) && IsDocument(e) && gone <= i <= |d.shapes| && |e.shapes| == |d.shapes| - gone
    requires forall k :: i <= k < |d.shapes| ==> e.shapes[k - gone] == d.shapes[k] && e.comments[k - gone] == d.comments[k]
    ensures ListEnd(e, i - gone, keysIndent) == ListEnd(d, i, keysIndent) - gone
    decreases |d.shapes| - i
  {
    if i < |d.shapes| && !EndsList(d, i, keysIndent) {
      ListEndMoves(d, i + 1, e, gone, keysIndent);
    }
  }

  lemma {:induction false} EntriesMove(s: seq<Shape>, i: nat, end: nat, t: seq<Shape>, gone: nat, indent: nat)
    requires gone <= i <= end <= |s| && |t| == |s| - gone
    requires forall k :: i <= k < |s| ==> t[k - gone] == s[k]
    ensures |EntriesFrom(t, i - gone, end - gone, indent)| == |EntriesFrom(s, i, end, indent)|
    decreases end - i
  {
    if i < end {
      EntriesMove(s, i + 1, end, t, gone, indent);
    }
  }

  /** From line `i` on, `e` has the lines of `d`, `gone` lines earlier. */
  predicate IsMoved(d: Document, i: nat, e: Document, gone: nat)
    requires IsDocument(d) && IsDocument(e) && gone <= i
  {
    && |e.shapes| == |d.shapes| - gone
    && forall k :: i <= k < |d.shapes| ==>
         e.shapes[k - gone] == d.shapes[k] && e.comments[k - gone] == d.comments[k] && e.dashes[k - gone] == d.dashes[k]
  }

  lemma {:induction false} LaterMove(d: Document, i: nat, e: Document, gone: nat, keysIndent: nat, indent: nat)
    requires IsDocument(d) && IsDocument(e) && gone <= i <= |d.shapes| && IsMoved(d, i, e, gone)
    ensures |EntriesFrom(YamlShapes(e), i - gone, ListEnd(e, i - gone, keysIndent), indent)|
         == |EntriesFrom(YamlShapes(d), i, ListEnd(d, i, keysIndent), indent)|
  {
    hide ListEnd, EntriesFrom;
    ListEndMoves(d, i, e, gone, keysIndent);
    EntriesMove(YamlShapes(d), i, ListEnd(d, i, keysIndent), YamlShapes(e), gone, indent);
  }

  /** The document after dropping the lines of all entries but the first. */
  function Dropped(d: Document, b: KeysBlock): Document
    requires IsDocument(d) && WellFormed(b) && b.end <= |d.shapes|
  {
    if |b.entries| < 2 then d
    else
      var (from, to) := (b.entries[1], b.end);
      Document(d.shapes[..from] + d.shapes[to..], d.comments[..from] + d.comments[to..], d.dashes[..from] + d.dashes[to..])
  }

  lemma {:induction false} DroppedLines(lines: seq<string>, b: KeysBlock)
    requires WellFormed(b) && b.end <= |lines| && IsDocument(DocumentOf(lines))
    ensures DocumentOf(DropLines(lines, b)) == Dropped(DocumentOf(lines), b)
  {
    hide Shapes, Comments, Dashes, IsDocument;
    if 2 <= |b.entries| {
      ShapesWithout(lines, b.entries[1], b.end);
      CommentsWithout(lines, b.entries[1], b.end);
      DashesWithout(lines, b.entries[1], b.end);
    }
  }

  lemma {:induction false} ShapesWithout(lines: seq<string>, from: nat, to: nat)
    requires from <= to <= |lines|
    ensures Shapes(lines[..from] + lines[to..]) == Shapes(lines)[..from] + Shapes(lines)[to..]
  {
    hide ShapeOf;
  }

  lemma {:induction false} CommentsWithout(lines: seq<string>, from: nat, to: nat)
    requires from <= to <= |lines|
    ensures Comments(lines[..from] + lines[to..]) == Comments(lines)[..from] + Comments(lines)[to..]
  {
    hide IsComment;
  }

  lemma {:induction false} DashesWithout(lines: seq<string>, from: nat, to: nat)
    requires from <= to <= |lines|
    ensures Dashes(lines[..from] + lines[to..]) == Dashes(lines)[..from] + Dashes(lines)[to..]
  {
    hide IsDash;
  }

  lemma {:induction false} DroppedIsFound(d: Document, b: KeysBlock)
    requires IsFound(d, b)
    ensures IsFound(Dropped(d, b), DroppedBlock(b))
  {
    hide FindBlock, IsBlock;
    if 2 <= |b.entries| {
      var aes := FoundIsBlock(d.shapes);
      DroppedIsBlock(d.shapes, aes, b, Dropped(d, b).shapes);
      BlockIsFound(Dropped(d, b).shapes, aes, DroppedBlock(b));
    }
  }

  lemma {:induction false} ListEndFrom(d: Document, b: KeysBlock)
    requires IsFound(d, b)
    ensures EndOfList(d, b) == ListEnd(d, b.end, d.shapes[b.keysLine].indent)
  {
    hide FindBlock;
    ListReachesBlockEnd(d, b);
    SkipTo(d, b.keysLine + 1, b.end, d.shapes[b.keysLine].indent);
  }

  lemma {:induction false} SkipTo(d: Document, i: nat, j: nat, keysIndent: nat)
    requires IsDocument(d) && i <= |d.shapes| && i <= j <= ListEnd(d, i, keysIndent)
    ensures ListEnd(d, i, keysIndent) == ListEnd(d, j, keysIndent)
    decreases j - i
  {
    if i < j {
      SkipTo(d, i + 1, j, keysIndent);
    }
  }

  /** Dropping leaves exactly the primary key in the list if and only if no unseen entry is in
      front of it or among its lines and no entry is behind the place where the scan stops. */
  lemma {:induction false} DropLeavesOneIff(lines: seq<string>, b: KeysBlock)
    requires IsFound(DocumentOf(lines), b)
    ensures var (d, e) := (DocumentOf(lines), DocumentOf(DropLines(lines, b)));
            && IsFound(e, DroppedBlock(b)) && DroppedBlock(b).end <= |d.shapes|
            && (ListEntries(e, DroppedBlock(b)) == [b.entries[0]] <==>
                  && NoneInFront(d, b) && NoneBetween(d, b.entries[0], DroppedBlock(b).end, b.entryIndent)
                  && LaterEntries(d, b) == [])
  {
    hide FindBlock, DocumentOf, Dropped, DropLines, ListEntries, LaterEntries, NoneInFront, NoneBetween, IsDocument;
    var d := DocumentOf(lines);
    DocumentIsDocument(lines);
    DroppedLines(lines, b);
    DroppedIsFound(d, b);
    FoundIsListIff(Dropped(d, b), DroppedBlock(b));
    DroppedFront(d, b);
    DroppedLater(d, b);
  }

  lemma {:induction false} DroppedFront(d: Document, b: KeysBlock)
    requires IsFound(d, b) && IsFound(Dropped(d, b), DroppedBlock(b))
    ensures DroppedBlock(b).entries == [b.entries[0]] && DroppedBlock(b).end <= |d.shapes|
    ensures var (e, end, col) := (Dropped(d, b), DroppedBlock(b).end, b.entryIndent);
            && (NoneInFront(e, DroppedBlock(b)) <==> NoneInFront(d, b))
            && (NoneBetween(e, b.entries[0], end, col) <==> NoneBetween(d, b.entries[0], end, col))
  {
    hide FindBlock;
    var e, end := Dropped(d, b), DroppedBlock(b).end;
    forall i | 0 <= i < end ensures IsUnseen(e, i) == IsUnseen(d, i) && e.shapes[i].indent == d.shapes[i].indent {
      assert e.shapes[i] == d.shapes[i] && e.dashes[i] == d.dashes[i];
    }
  }

  lemma {:induction false} DroppedLater(d: Document, b: KeysBlock)
    requires IsFound(d, b) && IsFound(Dropped(d, b), DroppedBlock(b))
    ensures |LaterEntries(Dropped(d, b), DroppedBlock(b))| == |LaterEntries(d, b)|
  {
    hide FindBlock, ListEnd, EntriesFrom, YamlShapes, IsMoved, Dropped;
    var e := Dropped(d, b);
    ListEndFrom(d, b);
    ListEndFrom(e, DroppedBlock(b));
    if 2 <= |b.entries| {
      DroppedTail(d, b);
      LaterMove(d, b.end, e, b.end - b.entries[1], d.shapes[b.keysLine].indent, b.entryIndent);
    } else {
      NothingDropped(d, b);
    }
  }

  lemma {:induction false} DroppedTail(d: Document, b: KeysBlock)
    requires IsDocument(d) && WellFormed(b) && b.end <= |d.shapes| && 2 <= |b.entries| && IsDocument(Dropped(d, b))
    requires |d.shapes| == |d.comments| == |d.dashes|
    ensures IsMoved(d, b.end, Dropped(d, b), b.end - b.entries[1])
    ensures b.keysLine < |Dropped(d, b).shapes| && Dropped(d, b).shapes[b.keysLine] == d.shapes[b.keysLine]
  {
    hide IsDocument;
    TailOfWithout(d.shapes, b.entries[1], b.end);
    TailOfWithout(d.comments, b.entries[1], b.end);
    TailOfWithout(d.dashes, b.entries[1], b.end);
  }

  lemma {:induction false} TailOfWithout<T>(s: seq<T>, from: nat, to: nat)
    requires from <= to <= |s|
    ensures var t := s[..from] + s[to..];
            && |t| == |s| - (to - from)
            && (forall k :: 0 <= k < from ==> t[k] == s[k])
            && forall k :: to <= k < |s| ==> t[k - (to - from)] == s[k]
  {
  }

  lemma {:induction false} NothingDropped(d: Document, b: KeysBlock)
    requires IsDocument(d) && WellFormed(b) && b.end <= |d.shapes| && |b.entries| < 2
    ensures Dropped(d, b) == d && DroppedBlock(b) == b
  {
  }

  // ---- the edits keep the two lists the same ----------------------------------------

  /** What a new entry puts between two lines of the list is seen by the scan. */
  lemma {:induction false} InsertedDocument(lines: seq<string>, b: KeysBlock, name: string, secret: string)
    requires WellFormed(b) && b.end <= |lines|
    ensures var (d, e, at) := (DocumentOf(lines), DocumentOf(InsertLines(lines, b, name, secret)), b.entries[0]);
            && |e.shapes| == |e.comments| == |e.dashes| == |lines| + 2
            && (forall i :: 0 <= i < at ==> e.shapes[i] == d.shapes[i] && e.dashes[i] == d.dashes[i])
            && e.shapes[at].entry && e.shapes[at + 1].indent == b.entryIndent + 2
            && (forall i :: at + 2 <= i < |lines| + 2 ==>
                  e.shapes[i] == d.shapes[i - 2] && e.comments[i] == d.comments[i - 2] && e.dashes[i] == d.dashes[i - 2])
  {
    hide ShapeOf, IsDash, IsComment, NewEntry, TrimStart;
    NewEntryShapes(b.entryIndent, name, secret);
    var out, entry := InsertLines(lines, b, name, secret), NewEntry(b.entryIndent, name, secret);
    assert out[b.entries[0]] == entry[0] && out[b.entries[0] + 1] == entry[1];
    forall i | b.entries[0] + 2 <= i < |lines| + 2 ensures out[i] == lines[i - 2] {
    }
  }

  lemma {:induction false} InsertKeepsLater(d: Document, b: KeysBlock, e: Document)
    requires IsFound(d, b) && IsFound(e, InsertedBlock(b)) && IsMoved(e, b.end + 2, d, 2)
    requires e.shapes[b.keysLine] == d.shapes[b.keysLine]
    ensures |LaterEntries(e, InsertedBlock(b))| == |LaterEntries(d, b)|
  {
    hide FindBlock, ListEnd, EntriesFrom, YamlShapes;
    ListEndFrom(d, b);
    ListEndFrom(e, InsertedBlock(b));
    LaterMove(e, b.end + 2, d, 2, d.shapes[b.keysLine].indent, b.entryIndent);
  }

  /** Where the scan finds the list as YAML reads it, it does so after a key has been put in
      front: the new key is the first of the list, and all old ones follow. */
  lemma {:induction false} InsertKeepsList(lines: seq<string>, b: KeysBlock, name: string, secret: string)
    requires IsFound(DocumentOf(lines), b) && b.entries == ListEntries(DocumentOf(lines), b)
    ensures var e := DocumentOf(InsertLines(lines, b, name, secret));
            IsFound(e, InsertedBlock(b)) && InsertedBlock(b).entries == ListEntries(e, InsertedBlock(b))
  {
    hide FindBlock, ListEntries, LaterEntries, ShapeOf, InsertLines, DocumentOf;
    DocumentIsDocument(lines);
    var (d, e) := (DocumentOf(lines), DocumentOf(InsertLines(lines, b, name, secret)));
    DocumentIsDocument(InsertLines(lines, b, name, secret));
    ShapesOfDocument(lines);
    ShapesOfDocument(InsertLines(lines, b, name, secret));
    InsertedIsFound(lines, b, name, secret);
    InsertedDocument(lines, b, name, secret);
    InsertKeepsLater(d, b, e);
    FoundIsListIff(d, b);
    FoundIsListIff(e, InsertedBlock(b));
    InsertHidesNone(d, b, e);
  }

  lemma {:induction false} ShapesOfDocument(lines: seq<string>)
    ensures DocumentOf(lines).shapes == Shapes(lines)
  {
  }

  lemma {:induction false} InsertHidesNone(d: Document, b: KeysBlock, e: Document)
    requires IsDocument(d) && IsDocument(e) && |e.shapes| == |d.shapes| + 2
    requires WellFormed(b) && b.end <= |d.shapes| && WellFormed(InsertedBlock(b))
    requires forall i :: 0 <= i < b.entries[0] ==> e.shapes[i] == d.shapes[i] && e.dashes[i] == d.dashes[i]
    requires e.shapes[b.entries[0]].entry && e.shapes[b.entries[0] + 1].indent == b.entryIndent + 2
    requires forall i :: b.entries[0] + 2 <= i < |e.shapes| ==>
      e.shapes[i] == d.shapes[i - 2] && e.dashes[i] == d.dashes[i - 2]
    requires NoneInFront(d, b) && NoneBetween(d, b.entries[0], b.end, b.entryIndent)
    ensures NoneInFront(e, InsertedBlock(b))
    ensures NoneBetween(e, b.entries[0], b.end + 2, b.entryIndent)
  {
    var at := b.entries[0];
    assert InsertedBlock(b).entries[0] == at;
    forall k | b.keysLine < k < at ensures !IsUnseen(e, k) {
      assert !IsUnseen(d, k);
    }
    forall k | at <= k < b.end + 2 && e.shapes[k].indent == b.entryIndent ensures !IsUnseen(e, k) {
      if at + 2 <= k {
        assert d.shapes[k - 2].indent == b.entryIndent && !IsUnseen(d, k - 2);
      } else {
        assert k == at;
      }
    }
  }

  /** And after the old keys have been dropped: the first key alone is the list. */
  lemma {:induction false} DropKeepsList(lines: seq<string>, b: KeysBlock)
    requires IsFound(DocumentOf(lines), b) && b.entries == ListEntries(DocumentOf(lines), b)
    ensures var e := DocumentOf(DropLines(lines, b));
            IsFound(e, DroppedBlock(b)) && DroppedBlock(b).entries == ListEntries(e, DroppedBlock(b)) == [b.entries[0]]
  {
    hide FindBlock, ListEntries, LaterEntries, NoneInFront, IsDocument, DocumentOf, DropLines;
    FoundIsListIff(DocumentOf(lines), b);
    DropLeavesOneIff(lines, b);
    FirstAlone(b);
  }

  lemma {:induction false} FirstAlone(b: KeysBlock)
    requires WellFormed(b)
    ensures DroppedBlock(b).entries == [b.entries[0]] && DroppedBlock(b).end <= b.end
  {
  }

  // ---- documents that the scan does not read as YAML does ---------------------------

  const COMMENTED := ["- aesgcm:", "  keys:", "    - name: first", "  # older keys", "    - name: second"]
  const LONE_DASH := ["- aesgcm:", "  keys:", "    - name: first", "    -", "      name: second"]
  const LONE_FIRST := ["- aesgcm:", "  keys:", "    -", "      name: first", "    - name: second"]

  lemma {:induction false} KeysShape()
    ensures ShapeOf("  keys:").keys && !ShapeOf("  keys:").blank && ShapeOf("  keys:").indent == 2
  {
    hide TrimStart, Trim, IndentOf, IsWhitespace, WithoutDash;
    assert !IsWhitespace('k') && !IsWhitespace(':') && IsWhitespace(' ') by {
      KeysAreSolid();
    }
    ShapeOfPadded("  ", "keys:");
    assert "  " + "keys:" == "  keys:";
    TrimOfIndented("  ", "keys:");
  }

  lemma {:induction false} KeysAreSolid()
    ensures !IsWhitespace('k') && !IsWhitespace(':') && IsWhitespace(' ')
  {
  }

  lemma {:induction false} EntryShape(name: string)
    ensures var (l, s) := ("    " + ("- name: " + name), ShapeOf("    " + ("- name: " + name)));
            !s.blank && s.entry && s.indent == 4 && !IsComment(l) && IsDash(l)
  {
    hide ShapeOf;
    NameLineShape("    ", name);
  }

  lemma {:induction false} CommentShape(text: string)
    ensures var (l, s) := ("  " + ("#" + text), ShapeOf("  " + ("#" + text)));
            !s.blank && !s.entry && s.indent == 2 && IsComment(l) && !IsDash(l)
  {
    hide ShapeOf, IsWhitespace, TrimStart;
    MarksAreSolid();
    ShapeOfPadded("  ", "#" + text);
    assert ("#" + text)[0] == '#';
  }

  lemma {:induction false} LoneDashShape()
    ensures var s := ShapeOf("    -");
            !s.blank && !s.entry && s.indent == 4 && !IsComment("    -") && IsDash("    -")
  {
    hide ShapeOf, IsWhitespace, TrimStart;
    MarksAreSolid();
    ShapeOfPadded("    ", "-");
    assert "    " + "-" == "    -";
  }

  lemma {:induction false} FieldShape(name: string)
    ensures var (l, s) := ("      " + ("name: " + name), ShapeOf("      " + ("name: " + name)));
            !s.blank && !s.entry && s.indent == 6 && !IsComment(l) && !IsDash(l)
  {
    hide ShapeOf, IsWhitespace, TrimStart;
    MarksAreSolid();
    assert ("name: " + name)[0] == 'n';
    ShapeOfPadded("      ", "name: " + name);
  }

  /** The lines all three documents start with. */
  lemma {:induction false} HeadShapes()
    ensures var (p, k) := (ShapeOf("- aesgcm:"), ShapeOf("  keys:"));
            p.aesgcm && p.indent == 0 && k.keys && !k.blank && k.indent == 2
  {
    hide ShapeOf;
    KeysShape();
    ProviderShape();
  }

  lemma {:induction false} MarksAreSolid()
    ensures !IsWhitespace('-') && !IsWhitespace('#') && !IsWhitespace('n')
  {
  }

  lemma {:induction false} ProviderShape()
    ensures ShapeOf("- aesgcm:").aesgcm && ShapeOf("- aesgcm:").indent == 0
  {
    hide TrimStart, Trim, IndentOf, IsWhitespace;
    MarksAreSolid();
    ShapeOfPadded("", "- aesgcm:");
    assert "" + "- aesgcm:" == "- aesgcm:";
    assert "- aesgcm:"[2..] == "aesgcm:";
  }

  /** A list of two keys on five lines, the first of them on line 2. */
  lemma {:induction false} TwoListed(d: Document, b: KeysBlock, second: nat)
    requires IsDocument(d) && |d.shapes| == 5 && b.keysLine == 1 && d.shapes[1].indent == 2
    requires !EndsList(d, 2, 2) && !EndsList(d, 3, 2) && !EndsList(d, 4, 2)
    requires d.dashes[2] && d.shapes[2].indent == 4 && (second == 3 || second == 4)
    requires forall k :: 3 <= k < 5 ==> (d.dashes[k] && d.shapes[k].indent == 4 <==> k == second)
    ensures ListEntries(d, b) == [2, second]
  {
    hide EntryAt;
    var s := YamlShapes(d);
    assert EndOfList(d, b) == 5;
    assert FirstEntry(s, 2, 5) == Some(2);
    YamlEntry(d, 2, 4);
    YamlEntry(d, 3, 4);
    YamlEntry(d, 4, 4);
    assert EntriesFrom(s, 5, 5, 4) == [];
    assert EntriesFrom(s, 4, 5, 4) == if second == 4 then [4] else [];
    assert EntriesFrom(s, 3, 5, 4) == [second];
  }

  /** Behind a comment: the list has two keys, the scan finds the first alone, and dropping the
      old keys changes nothing. */
  lemma {:induction false} OldKeyStays()
    ensures var (d, b) := (DocumentOf(COMMENTED), KeysBlock(1, 4, [2], 3));
            IsFound(d, b) && ListEntries(d, b) == [2, 4] && DropLines(COMMENTED, b) == COMMENTED
  {
    hide FindBlock, DocumentOf, IsDocument, ListEntries;
    var (d, b) := (DocumentOf(COMMENTED), KeysBlock(1, 4, [2], 3));
    CommentedShapes();
    DocumentIsDocument(COMMENTED);
    TwoListed(d, b, 4);
    var s := d.shapes;
    assert EntryAt(s, 2, 4) && InBlock(s, 2, 2);
    assert IsBlock(s, 0, b);
    BlockIsFound(s, 0, b);
  }

  lemma {:induction false} CommentedShapes()
    ensures var d := DocumentOf(COMMENTED);
            && |d.shapes| == |d.comments| == |d.dashes| == 5
            && d.shapes[0].aesgcm && d.shapes[0].indent == 0
            && d.shapes[1].keys && !d.shapes[1].blank && d.shapes[1].indent == 2
            && !d.shapes[2].blank && d.shapes[2].entry && d.shapes[2].indent == 4 && d.dashes[2]
            && !d.shapes[3].blank && d.shapes[3].indent == 2 && d.comments[3] && !d.dashes[3]
            && !d.shapes[4].blank && d.shapes[4].indent == 4 && d.dashes[4]
  {
    hide ShapeOf, IsComment, IsDash;
    HeadShapes();
    EntryShape("first");
    assert "    " + ("- name: " + "first") == "    - name: first";
    CommentShape(" older keys");
    assert "  " + ("#" + " older keys") == "  # older keys";
    EntryShape("second");
    assert "    " + ("- name: " + "second") == "    - name: second";
  }

  /** Behind a dash that stands alone: the list has two keys, the scan reaches its end and
      finds the first alone, and dropping the old keys changes nothing. */
  lemma {:induction false} LoneDashStays()
    ensures var (d, b) := (DocumentOf(LONE_DASH), KeysBlock(1, 4, [2], 5));
            && IsFound(d, b) && b.end == EndOfList(d, b) && LaterEntries(d, b) == []
            && ListEntries(d, b) == [2, 3] && DropLines(LONE_DASH, b) == LONE_DASH
  {
    hide FindBlock, DocumentOf, IsDocument, ListEntries, YamlShapes;
    var (d, b) := (DocumentOf(LONE_DASH), KeysBlock(1, 4, [2], 5));
    LoneDashShapes();
    DocumentIsDocument(LONE_DASH);
    TwoListed(d, b, 3);
    var s := d.shapes;
    assert EntryAt(s, 2, 4) && InBlock(s, 2, 2) && InBlock(s, 3, 2) && InBlock(s, 4, 2);
    assert IsBlock(s, 0, b);
    BlockIsFound(s, 0, b);
    ListReachesBlockEnd(d, b);
  }

  lemma {:induction false} LoneDashShapes()
    ensures var d := DocumentOf(LONE_DASH);
            && |d.shapes| == |d.comments| == |d.dashes| == 5
            && d.shapes[0].aesgcm && d.shapes[0].indent == 0
            && d.shapes[1].keys && !d.shapes[1].blank && d.shapes[1].indent == 2
            && !d.shapes[2].blank && d.shapes[2].entry && d.shapes[2].indent == 4 && d.dashes[2]
            && !d.shapes[3].blank && !d.shapes[3].entry && d.shapes[3].indent == 4 && d.dashes[3]
            && !d.shapes[4].blank && !d.shapes[4].entry && d.shapes[4].indent == 6 && !d.dashes[4]
  {
    hide ShapeOf, IsComment, IsDash;
    HeadShapes();
    EntryShape("first");
    assert "    " + ("- name: " + "first") == "    - name: first";
    LoneDashShape();
    FieldShape("second");
    assert "      " + ("name: " + "second") == "      name: second";
  }

  /** With such a dash at the head of the list, the new key is not put in front of it. */
  lemma {:induction false} NewKeyIsNotFirst(name: string, secret: string)
    ensures var (d, b) := (DocumentOf(LONE_FIRST), KeysBlock(1, 4, [4], 5));
            && IsFound(d, b) && ListEntries(d, b) == [2, 4]
            && var e := DocumentOf(InsertLines(LONE_FIRST, b, name, secret));
               IsFound(e, InsertedBlock(b)) && ListEntries(e, InsertedBlock(b)) != []
               && ListEntries(e, InsertedBlock(b))[0] < 4
  {
    hide FindBlock, DocumentOf, IsDocument, ListEntries, InsertLines;
    var (d, b) := (DocumentOf(LONE_FIRST), KeysBlock(1, 4, [4], 5));
    LoneFirstShapes();
    DocumentIsDocument(LONE_FIRST);
    TwoListed(d, b, 4);
    var s := d.shapes;
    assert EntryAt(s, 4, 4) && InBlock(s, 2, 2) && InBlock(s, 3, 2) && InBlock(s, 4, 2);
    assert IsBlock(s, 0, b);
    BlockIsFound(s, 0, b);
    InsertIsFirstIff(LONE_FIRST, b, name, secret);
    assert IsUnseen(d, 2);
  }

  lemma {:induction false} LoneFirstShapes()
    ensures var d := DocumentOf(LONE_FIRST);
            && |d.shapes| == |d.comments| == |d.dashes| == 5
            && d.shapes[0].aesgcm && d.shapes[0].indent == 0
            && d.shapes[1].keys && !d.shapes[1].blank && d.shapes[1].indent == 2
            && !d.shapes[2].blank && !d.shapes[2].entry && d.shapes[2].indent == 4 && d.dashes[2]
            && !d.shapes[3].blank && !d.shapes[3].entry && d.shapes[3].indent == 6 && !d.dashes[3]
            && !d.shapes[4].blank && d.shapes[4].entry && d.shapes[4].indent == 4 && d.dashes[4]
  {
    hide ShapeOf, IsComment, IsDash;
    HeadShapes();
    LoneDashShape();
    FieldShape("first");
    assert "      " + ("name: " + "first") == "      name: first";
    EntryShape("second");
    assert "    " + ("- name: " + "second") == "    - name: second";
  }
}
