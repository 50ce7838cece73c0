/** The catalog file format: directory blocks written post-order, each child directory named by a
    backward offset from its parent's block, and the reader that follows those offsets. */
module Catalog {
  import opened Bytes
  import opened Varint
  import Split

  type Name = seq<byte>

  const MAGIC: seq<byte> := [145, 253, 96, 249, 196, 103, 88, 213]
  /** Length of the parser's name buffer; a name must be shorter. */
  const NAME_BUF: nat := 4096

  datatype Kind = Symlink | Hardlink | BlockDevice | CharDevice | Fifo | Socket
  datatype EntryType = Directory | File | Special(kind: Kind)

  datatype Attr = DirAttr(start: nat) | FileAttr(size: nat, mtime: int) | SpecialAttr(kind: Kind)
  datatype DirEntry = DirEntry(name: Name, attr: Attr)

  /** What the block parser hands to its callback. */
  datatype RawEntry = RawEntry(etype: EntryType, name: Name, offset: nat, size: nat, mtime: int)

  function TypeByte(t: EntryType): (b: byte)
  {
    match t
    case Directory => 100
    case File => 102
    case Special(Symlink) => 108
    case Special(Hardlink) => 104
    case Special(BlockDevice) => 98
    case Special(CharDevice) => 99
    case Special(Fifo) => 112
    case Special(Socket) => 115
  }

  /** Inverse of `TypeByte`; every other byte is rejected. */
  function TypeOfByte(b: byte): (r: Result<EntryType>)
    ensures forall t :: r == Ok(t) <==> TypeByte(t) == b
  {
    if b == 100 then Ok(Directory)
    else if b == 102 then Ok(File)
    else if b == 108 then Ok(Special(Symlink))
    else if b == 104 then Ok(Special(Hardlink))
    else if b == 98 then Ok(Special(BlockDevice))
    else if b == 99 then Ok(Special(CharDevice))
    else if b == 112 then Ok(Special(Fifo))
    else if b == 115 then Ok(Special(Socket))
    else Err("invalid CatalogEntryType value")
  }

  function TypeOf(a: Attr): EntryType
  {
    match a
    case DirAttr(_) => Directory
    case FileAttr(_, _) => File
    case SpecialAttr(k) => Special(k)
  }

  // ----- encoding a directory block

  function EncodeAttr(a: Attr, pos: nat): seq<byte>
  {
    match a
    case DirAttr(start) => EncodeU64(Sub64(pos, start))
    case FileAttr(size, mtime) => EncodeU64(size) + EncodeI64(mtime)
    case SpecialAttr(_) => []
  }

  function EncodeEntry(e: DirEntry, pos: nat): (s: seq<byte>)
    ensures |s| > |e.name|
  {
    [TypeByte(TypeOf(e.attr))] + EncodeU64(|e.name|) + e.name + EncodeAttr(e.attr, pos)
  }

  function EncodeEntries(es: seq<DirEntry>, pos: nat): (s: seq<byte>)
    ensures |s| >= |es|
  {
    if es == [] then [] else EncodeEntry(es[0], pos) + EncodeEntries(es[1..], pos)
  }

  function EncodeTable(es: seq<DirEntry>, pos: nat): (s: seq<byte>)
    ensures |s| > |es|
  {
    EncodeU64(|es|) + EncodeEntries(es, pos)
  }

  /** The block of a directory that starts at file offset `pos`. */
  function EncodeDir(es: seq<DirEntry>, pos: nat): (s: seq<byte>)
    ensures |s| > 0
  {
    EncodeU64(|EncodeTable(es, pos)|) + EncodeTable(es, pos)
  }

  /** Building the block: the table in a loop over the entries, then its length in front. */
  method WriteBlock(es: seq<DirEntry>, pos: nat) returns (data: seq<byte>)
    ensures data == EncodeDir(es, pos)
  {
    hide EncodeEntry, EncodeU64;
    var table := WriteU64(|es|);
    for i := 0 to |es|
      invariant table + EncodeEntries(es[i..], pos) == EncodeTable(es, pos)
    {
      assert es[i..][1..] == es[i + 1..];
      var t := EncodeEntry(es[i], pos);
      assert table + (t + EncodeEntries(es[i + 1..], pos)) == table + t + EncodeEntries(es[i + 1..], pos);
      table := table + t;
    }
    assert table + [] == table;
    var len := WriteU64(|table|);
    data := len + table;
  }

  // ----- parsing a directory block

  /** Type byte, name length and name. */
  function ParseHead(cursor: seq<byte>): (r: Result<(EntryType, Name, seq<byte>)>)
  {
    if cursor == [] then Err("unexpected end of file") else
    var etype :- TypeOfByte(cursor[0]);
    var (len, c1) :- DecodeU64(cursor[1..]);
    if len >= NAME_BUF then Err("directory entry name too long")
    else if |c1| < len then Err("unexpected end of file")
    else Ok((etype, c1[..len], c1[len..]))
  }

  function ParseEntry(cursor: seq<byte>): (r: Result<(RawEntry, seq<byte>)>)
  {
    var (etype, name, c2) :- ParseHead(cursor);
    match etype
    case Directory =>
      var (offset, c3) :- DecodeU64(c2);
      Ok((RawEntry(etype, name, offset, 0, 0), c3))
    case File =>
      var (size, c3) :- DecodeU64(c2);
      var (mtime, c4) :- DecodeI64(c3);
      Ok((RawEntry(etype, name, 0, size, mtime), c4))
    case Special(_) =>
      Ok((RawEntry(etype, name, 0, 0, 0), c2))
  }

  /** The callback asks to stop at the entry with the wanted name, if one is wanted. */
  predicate Stops(wanted: Option<Name>, e: RawEntry)
  {
    wanted == Some(e.name)
  }

  /** The entries handed to the callback, the bytes left, and whether the callback stopped the loop. */
  function ParseEntries(cursor: seq<byte>, n: nat, wanted: Option<Name>): (r: Result<(seq<RawEntry>, seq<byte>, bool)>)
  {
    if n == 0 then Ok(([], cursor, false)) else
    var (e, c1) :- ParseEntry(cursor);
    if Stops(wanted, e) then Ok(([e], c1, true)) else
    var (es, c2, stopped) :- ParseEntries(c1, n - 1, wanted);
    Ok(([e] + es, c2, stopped))
  }

  function Parse(data: seq<byte>, wanted: Option<Name>): (r: Result<seq<RawEntry>>)
  {
    var (n, cursor) :- DecodeU64(data);
    var (es, rest, stopped) :- ParseEntries(cursor, n, wanted);
    if !stopped && rest != [] then Err("unable to parse whole catalog data block") else Ok(es)
  }

  function Prepend(seen: seq<RawEntry>, r: Result<(seq<RawEntry>, seq<byte>, bool)>)
    : Result<(seq<RawEntry>, seq<byte>, bool)>
  {
    if r.Err? then r else Ok((seen + r.value.0, r.value.1, r.value.2))
  }

  lemma PrependOne(seen: seq<RawEntry>, e: RawEntry, r: Result<(seq<RawEntry>, seq<byte>, bool)>)
    ensures Prepend(seen, Prepend([e], r)) == Prepend(seen + [e], r)
  {
    if r.Ok? {
      assert seen + ([e] + r.value.0) == seen + [e] + r.value.0;
    }
  }

  /** One turn of the parser's loop. */
  lemma ParseStep(seen: seq<RawEntry>, cursor: seq<byte>, n: nat, wanted: Option<Name>)
    requires n > 0
    ensures var one := ParseEntry(cursor);
            Prepend(seen, ParseEntries(cursor, n, wanted)) ==
            if one.Err? then Err(one.error)
            else if Stops(wanted, one.value.0) then Ok((seen + [one.value.0], one.value.1, true))
            else Prepend(seen + [one.value.0], ParseEntries(one.value.1, n - 1, wanted))
  {
    var one := ParseEntry(cursor);
    if one.Ok? {
      PrependOne(seen, one.value.0, ParseEntries(one.value.1, n - 1, wanted));
    }
  }

  /** The block parser's loop over the announced number of entries. */
  method ParseLoop(start: seq<byte>, n: nat, wanted: Option<Name>) returns (r: Result<(seq<RawEntry>, seq<byte>, bool)>)
    ensures r == ParseEntries(start, n, wanted)
  {
    hide ParseEntry;
    var cursor := start;
    var seen: seq<RawEntry> := [];
    ghost var all := ParseEntries(start, n, wanted);
    assert all.Ok? ==> [] + all.value.0 == all.value.0;
    for i := 0 to n
      invariant all == Prepend(seen, ParseEntries(cursor, n - i, wanted))
    {
      ParseStep(seen, cursor, n - i, wanted);
      var one := ParseEntry(cursor);
      if one.Err? { return Err(one.error); }
      cursor, seen := one.value.1, seen + [one.value.0];
      if Stops(wanted, one.value.0) {
        return Ok((seen, cursor, true));
      }
    }
    assert seen + [] == seen;
    return Ok((seen, cursor, false));
  }

  // ----- the reader

  function ToDirEntry(e: RawEntry, start: nat): DirEntry
  {
    DirEntry(e.name,
             match e.etype
             case Directory => DirAttr(Sub64(start, e.offset))
             case File => FileAttr(e.size, e.mtime)
             case Special(k) => SpecialAttr(k))
  }

  function ToDirEntries(es: seq<RawEntry>, start: nat): (r: seq<DirEntry>)
    ensures |r| == |es|
  {
    seq(|es|, i requires 0 <= i < |es| => ToDirEntry(es[i], start))
  }

  /** The block at a position: exactly as many bytes as its length says, at least one. */
  function ReadBlock(file: seq<byte>, start: nat): (r: Result<seq<byte>>)
    ensures r.Ok? <==> start <= |file| && DecodeU64(file[start..]).Ok?
                       && 1 <= DecodeU64(file[start..]).value.0 <= |DecodeU64(file[start..]).value.1|
    ensures r.Ok? ==> |r.value| == DecodeU64(file[start..]).value.0 && r.value <= DecodeU64(file[start..]).value.1
  {
    if start > |file| then Err("unexpected end of file") else
    var (size, rest) :- DecodeU64(file[start..]);
    if size < 1 then Err("got small directory size")
    else if |rest| < size then Err("unexpected end of file")
    else Ok(rest[..size])
  }

  function Root(file: seq<byte>): (r: Result<DirEntry>)
  {
    if |file| < 8 then Err("unexpected end of file")
    else if file[..8] != MAGIC then Err("got unexpected magic number for catalog")
    else Ok(DirEntry([], DirAttr(LeValue(file[|file| - 8..]))))
  }

  function ReadDir(file: seq<byte>, parent: DirEntry): (r: Result<seq<DirEntry>>)
  {
    if !parent.attr.DirAttr? then Err("parent is not a directory - internal error") else
    var data :- ReadBlock(file, parent.attr.start);
    var es :- Parse(data, None);
    Ok(ToDirEntries(es, parent.attr.start))
  }

  function Lookup(file: seq<byte>, parent: DirEntry, name: Name): (r: Result<Option<DirEntry>>)
  {
    if !parent.attr.DirAttr? then Err("parent is not a directory - internal error") else
    var data :- ReadBlock(file, parent.attr.start);
    var es :- Parse(data, Some(name));
    if es != [] && es[|es| - 1].name == name
    then Ok(Some(ToDirEntry(es[|es| - 1], parent.attr.start)))
    else Ok(None)
  }

  function LookupComponents(file: seq<byte>, current: DirEntry, comps: seq<Name>): (r: Result<DirEntry>)
    decreases |comps|
  {
    if comps == [] then Ok(current) else
    var found :- Lookup(file, current, comps[0]);
    match found
    case None => Err("path not found in catalog")
    case Some(e) => LookupComponents(file, e, comps[1..])
  }

  const SLASH: byte := 47

  function PathComponents(path: seq<byte>): seq<Name>
  {
    Split.Split(if path != [] && path[0] == SLASH then path[1..] else path, SLASH)
  }

  function LookupRecursive(file: seq<byte>, path: seq<byte>): (r: Result<DirEntry>)
  {
    var root :- Root(file);
    if path == [SLASH] then Ok(root) else LookupComponents(file, root, PathComponents(path))
  }

  /** The path consists of these names with slashes between them, possibly after one more slash; a path that
      begins with a slash begins with that one. */
  ghost predicate Spells(path: seq<byte>, names: seq<Name>)
  {
    && names != [] && (forall i :: 0 <= i < |names| ==> SLASH !in names[i])
    && if path != [] && path[0] == SLASH then path == [SLASH] + Split.Join(names, SLASH)
       else path == Split.Join(names, SLASH)
  }

  lemma ComponentsAre(path: seq<byte>, names: seq<Name>)
    requires Spells(path, names)
    ensures PathComponents(path) == names
  {
    if path != [] && path[0] == SLASH { assert path[1..] == Split.Join(names, SLASH); }
    Split.SplitJoin(names, SLASH);
  }

  /** Every path is spelled by names, and by no others. */
  lemma SpelledOnce(path: seq<byte>) returns (names: seq<Name>)
    ensures Spells(path, names) && forall other :: Spells(path, other) ==> other == names
  {
    hide Split.Split, Split.Join;
    var rest := if path != [] && path[0] == SLASH then path[1..] else path;
    names := Split.Split(rest, SLASH);
    Split.JoinSplit(rest, SLASH);
    forall other | Spells(path, other) ensures other == names { ComponentsAre(path, other); }
  }

  /** The loop over the path's components: from the root, one name after the other. */
  method LookupLoop(file: seq<byte>, path: seq<byte>) returns (r: Result<DirEntry>)
    ensures r == LookupRecursive(file, path)
    ensures path == [SLASH] ==> r == Root(file)
    ensures forall names :: Spells(path, names) && path != [SLASH] && Root(file).Ok? ==>
              r == LookupComponents(file, Root(file).value, names)
  {
    hide Lookup, Root, PathComponents, Spells;
    forall names | Spells(path, names) ensures PathComponents(path) == names { ComponentsAre(path, names); }
    var root := Root(file);
    if root.Err? { return Err(root.error); }
    var current := root.value;
    if path == [SLASH] { return Ok(current); }
    var comps := PathComponents(path);
    for i := 0 to |comps|
      invariant LookupComponents(file, root.value, comps) == LookupComponents(file, current, comps[i..])
    {
      assert comps[i..][1..] == comps[i + 1..];
      var found := Lookup(file, current, comps[i]);
      if found.Err? { return Err(found.error); }
      if found.value.None? { return Err("path not found in catalog"); }
      current := found.value.value;
    }
    return Ok(current);
  }

  // ----- directory trees, and reading one back

  datatype Node =
    | Dir(name: Name, children: seq<Node>)
    | FileNode(name: Name, size: nat, mtime: int)
    | SpecialNode(name: Name, kind: Kind)

  /** Reads a whole directory recursively. A child block that does not lie strictly before its
      parent's is an error here; following it would not terminate. */
  function ReadTree(file: seq<byte>, start: nat): (r: Result<seq<Node>>)
    decreases start, 1, 0
  {
    var es :- ReadDir(file, DirEntry([], DirAttr(start)));
    ReadNodes(file, start, es)
  }

  function ReadNodes(file: seq<byte>, bound: nat, es: seq<DirEntry>): (r: Result<seq<Node>>)
    ensures r.Ok? ==> |r.value| == |es|
    decreases bound, 0, |es|
  {
    if es == [] then Ok([]) else
    var n :- ReadNode(file, bound, es[0]);
    var ns :- ReadNodes(file, bound, es[1..]);
    Ok([n] + ns)
  }

  function ReadNode(file: seq<byte>, bound: nat, e: DirEntry): (r: Result<Node>)
    ensures r.Ok? ==> r.value.name == e.name
    decreases bound, 0, 0
  {
    match e.attr
    case DirAttr(start) =>
      if start >= bound then Err("got wrong directory offset") else
      var children :- ReadTree(file, start);
      Ok(Dir(e.name, children))
    case FileAttr(size, mtime) => Ok(FileNode(e.name, size, mtime))
    case SpecialAttr(kind) => Ok(SpecialNode(e.name, kind))
  }

  // ----- what one block says survives encoding and parsing

  predicate EntryFits(e: DirEntry, pos: nat)
  {
    && |e.name| < TWO_64
    && (e.attr.DirAttr? ==> e.attr.start <= pos)
    && (e.attr.FileAttr? ==> e.attr.size < TWO_64 && -TWO_63 <= e.attr.mtime < TWO_63)
  }

  function RawOf(e: DirEntry, pos: nat): RawEntry
  {
    match e.attr
    case DirAttr(start) => RawEntry(Directory, e.name, Sub64(pos, start), 0, 0)
    case FileAttr(size, mtime) => RawEntry(File, e.name, 0, size, mtime)
    case SpecialAttr(kind) => RawEntry(Special(kind), e.name, 0, 0, 0)
  }

  predicate ShortName(e: DirEntry) { |e.name| < NAME_BUF }

  lemma ParseHeadEncoded(e: DirEntry, pos: nat, rest: seq<byte>)
    requires |e.name| < TWO_64
    ensures var r := ParseHead(EncodeEntry(e, pos) + rest);
            if ShortName(e) then r == Ok((TypeOf(e.attr), e.name, EncodeAttr(e.attr, pos) + rest)) else r.Err?
  {
    hide DecodeU64, EncodeU64, EncodeAttr, TypeByte, TypeOfByte;
    var s := EncodeEntry(e, pos) + rest;
    var tail := EncodeAttr(e.attr, pos) + rest;
    var body := e.name + tail;
    assert s[0] == TypeByte(TypeOf(e.attr));
    assert s[1..] == EncodeU64(|e.name|) + body;
    U64RoundTrip(|e.name|, body);
    assert body[..|e.name|] == e.name && body[|e.name|..] == tail;
  }

  lemma ParseEntryEncoded(e: DirEntry, pos: nat, rest: seq<byte>)
    requires pos < TWO_64 && EntryFits(e, pos)
    ensures if ShortName(e) then ParseEntry(EncodeEntry(e, pos) + rest) == Ok((RawOf(e, pos), rest))
            else ParseEntry(EncodeEntry(e, pos) + rest).Err?
    ensures ToDirEntry(RawOf(e, pos), pos) == e
  {
    hide ParseHead, DecodeU64, DecodeI64, EncodeU64, EncodeI64, EncodeEntry;
    ParseHeadEncoded(e, pos, rest);
    match e.attr
    case DirAttr(start) => U64RoundTrip(Sub64(pos, start), rest);
    case FileAttr(size, mtime) =>
      assert EncodeAttr(e.attr, pos) + rest == EncodeU64(size) + (EncodeI64(mtime) + rest);
      U64RoundTrip(size, EncodeI64(mtime) + rest);
      I64RoundTrip(mtime, rest);
    case SpecialAttr(_) => assert EncodeAttr(e.attr, pos) + rest == rest;
  }

  // ----- what is refused

  lemma ParseHeadStays(s: seq<byte>, t: seq<byte>)
    requires ParseHead(s).Ok?
    ensures var (etype, name, rest) := ParseHead(s).value; ParseHead(s + t) == Ok((etype, name, rest + t))
  {
    hide DecodeU64, TypeOfByte;
    assert (s + t)[1..] == s[1..] + t;
    DecodeStays(s[1..], t);
    var (len, c) := DecodeU64(s[1..]).value;
    SliceStays(c, t, len);
  }

  lemma ParseEntryStays(s: seq<byte>, t: seq<byte>)
    requires ParseEntry(s).Ok?
    ensures ParseEntry(s + t) == Ok((ParseEntry(s).value.0, ParseEntry(s).value.1 + t))
  {
    hide ParseHead, DecodeU64, DecodeI64;
    ParseHeadStays(s, t);
    var (etype, _, c) := ParseHead(s).value;
    DecodeStays(c, t);
    if etype.File? { DecodeStays(DecodeU64(c).value.1, t); }
  }

  lemma {:induction false} ParseEntriesStay(s: seq<byte>, t: seq<byte>, n: nat, wanted: Option<Name>)
    requires ParseEntries(s, n, wanted).Ok?
    ensures var (es, rest, stopped) := ParseEntries(s, n, wanted).value;
            ParseEntries(s + t, n, wanted) == Ok((es, rest + t, stopped))
    decreases n
  {
    hide ParseEntry;
    if n > 0 {
      ParseEntryStays(s, t);
      var (e, c) := ParseEntry(s).value;
      if !Stops(wanted, e) { ParseEntriesStay(c, t, n - 1, wanted); }
    }
  }

  lemma {:induction false} NeverStops(s: seq<byte>, n: nat)
    requires ParseEntries(s, n, None).Ok?
    ensures !ParseEntries(s, n, None).value.2
    decreases n
  {
    hide ParseEntry;
    if n > 0 { NeverStops(ParseEntry(s).value.1, n - 1); }
  }

  /** A block is read to its last byte: with anything after its entries it is refused, and so is every part of it
      that stops short. */
  lemma BlockEnds(data: seq<byte>, more: seq<byte>)
    requires Parse(data, None).Ok? && more != []
    ensures Parse(data + more, None).Err?
  {
    hide DecodeU64, ParseEntries;
    DecodeStays(data, more);
    var (n, cursor) := DecodeU64(data).value;
    ParseEntriesStay(cursor, more, n, None);
    NeverStops(cursor, n);
  }

  /** Nothing is found in a file that does not begin as a catalog does. */
  lemma ReadsOnlyCatalogs(file: seq<byte>, path: seq<byte>)
    ensures Root(file).Ok? <==> MAGIC <= file
    ensures LookupRecursive(file, path).Ok? ==> MAGIC <= file
  {
    hide LookupComponents, PathComponents;
  }

  predicate EntriesFit(es: seq<DirEntry>, pos: nat)
  {
    forall i :: 0 <= i < |es| ==> EntryFits(es[i], pos)
  }

  predicate ShortNames(es: seq<DirEntry>)
  {
    forall i :: 0 <= i < |es| ==> ShortName(es[i])
  }

  function RawsOf(es: seq<DirEntry>, pos: nat): (r: seq<RawEntry>)
    ensures |r| == |es|
  {
    seq(|es|, i requires 0 <= i < |es| => RawOf(es[i], pos))
  }

  lemma {:induction false} ParseEntriesEncoded(es: seq<DirEntry>, pos: nat, rest: seq<byte>)
    requires pos < TWO_64 && EntriesFit(es, pos)
    ensures var r := ParseEntries(EncodeEntries(es, pos) + rest, |es|, None);
            if ShortNames(es) then r == Ok((RawsOf(es, pos), rest, false)) else r.Err?
  {
    hide ParseEntry, EncodeEntry, RawOf;
    var s := EncodeEntries(es, pos) + rest;
    if es == [] {
      assert s == rest;
    } else {
      assert s == EncodeEntry(es[0], pos) + (EncodeEntries(es[1..], pos) + rest);
      ParseEntryEncoded(es[0], pos, EncodeEntries(es[1..], pos) + rest);
      ParseEntriesEncoded(es[1..], pos, rest);
      assert RawsOf(es, pos) == [RawOf(es[0], pos)] + RawsOf(es[1..], pos);
      assert ShortNames(es) <==> ShortName(es[0]) && ShortNames(es[1..]) by {
        assert es == [es[0]] + es[1..];
      }
    }
  }

  /** A block written at the end of `pre` reads back as its entries, whatever follows it, unless a
      name is too long for the parser's buffer. */
  lemma BlockRoundTrip(es: seq<DirEntry>, pre: seq<byte>, post: seq<byte>, file: seq<byte>)
    requires file == pre + EncodeDir(es, |pre|) + post && |file| < TWO_64 && EntriesFit(es, |pre|)
    ensures var r := ReadDir(file, DirEntry([], DirAttr(|pre|)));
            if ShortNames(es) then r == Ok(es) else r.Err?
  {
    hide DecodeU64, EncodeU64, ParseEntries, EncodeEntries, ToDirEntry, RawOf;
    var pos := |pre|;
    var table := EncodeTable(es, pos);
    assert file[pos..] == EncodeU64(|table|) + (table + post);
    U64RoundTrip(|table|, table + post);
    assert (table + post)[..|table|] == table;
    assert ReadBlock(file, pos) == Ok(table);
    U64RoundTrip(|es|, EncodeEntries(es, pos));
    ParseEntriesEncoded(es, pos, []);
    assert EncodeEntries(es, pos) + [] == EncodeEntries(es, pos);
    if ShortNames(es) {
      assert Parse(table, None) == Ok(RawsOf(es, pos));
      forall i | 0 <= i < |es| ensures ToDirEntries(RawsOf(es, pos), pos)[i] == es[i] {
        ParseEntryEncoded(es[i], pos, []);
      }
      assert ToDirEntries(RawsOf(es, pos), pos) == es;
    }
  }
}
