/** Dynamic index files: the sequence of chunk end offsets and digests, written, read back,
    checksummed and searched. */
module DynamicIndex {
  import opened Bytes

  datatype IndexEntry = IndexEntry(end: nat, digest: Digest)

  type Index = seq<IndexEntry>

  // ----- searching

  /** Where chunk `i` starts. */
  function StartOf(index: Index, i: nat): nat
    requires i <= |index|
  {
    if i == 0 then 0 else index[i - 1].end
  }

  /** The binary search needs no sorted ends: it keeps a range whose first chunk starts at or before
      the offset and whose last chunk ends after it. */
  function BinarySearch(index: Index, startIdx: nat, start: nat, endIdx: nat, end: nat, offset: nat): (r: Result<nat>)
    requires startIdx <= endIdx < |index|
    requires start == StartOf(index, startIdx) && end == index[endIdx].end
    ensures r.Ok? <==> start <= offset < end
    ensures r.Ok? ==> startIdx <= r.value <= endIdx && StartOf(index, r.value) <= offset < index[r.value].end
    decreases endIdx - startIdx
  {
    if offset >= end || offset < start then Err("offset out of range")
    else if endIdx == startIdx then Ok(startIdx)
    else
      var middleIdx := (startIdx + endIdx) / 2;
      var middleEnd := index[middleIdx].end;
      if offset < middleEnd then BinarySearch(index, startIdx, start, middleIdx, middleEnd, offset)
      else BinarySearch(index, middleIdx + 1, middleEnd, endIdx, end, offset)
  }

  datatype ChunkReadInfo = ChunkReadInfo(start: nat, end: nat, digest: Digest)

  function ChunkInfo(index: Index, pos: nat): (r: Option<ChunkReadInfo>)
  {
    if pos >= |index| then None
    else Some(ChunkReadInfo(StartOf(index, pos), index[pos].end, index[pos].digest))
  }

  /** Size of the archive: the end of the last chunk. */
  function IndexBytes(index: Index): nat
  {
    if index == [] then 0 else index[|index| - 1].end
  }

  /** The chunk that holds a byte of the archive, and the byte's place in it. A reader never has an
      empty index. */
  function ChunkFromOffset(index: Index, offset: nat): (r: Option<(nat, nat)>)
    requires index != []
    ensures r.Some? <==> offset < IndexBytes(index)
    ensures r.Some? ==> r.value.0 < |index| && StartOf(index, r.value.0) <= offset < index[r.value.0].end
    ensures r.Some? ==> StartOf(index, r.value.0) + r.value.1 == offset
  {
    var endIdx := |index| - 1;
    match BinarySearch(index, 0, 0, endIdx, index[endIdx].end, offset)
    case Err(_) => None
    case Ok(i) => Some((i, offset - StartOf(index, i)))
  }

  ghost predicate Nondecreasing(index: Index)
  {
    forall i, j :: 0 <= i <= j < |index| ==> index[i].end <= index[j].end
  }

  /** With nondecreasing ends, only one chunk holds the offset. */
  lemma FoundIsUnique(index: Index, offset: nat, i: nat)
    requires index != [] && Nondecreasing(index) && offset < IndexBytes(index)
    requires i < |index| && StartOf(index, i) <= offset < index[i].end
    ensures ChunkFromOffset(index, offset) == Some((i, offset - StartOf(index, i)))
  {
    hide BinarySearch;
    var (k, rel) := ChunkFromOffset(index, offset).value;
  }

  // ----- the checksum

  /** What the index checksum is computed over; the entries of the file, byte for byte. */
  function EntryBytes(index: Index): (s: seq<byte>)
    ensures |s| == 40 * |index|
  {
    if index == [] then []
    else EntryBytes(index[..|index| - 1]) + LeBytes(index[|index| - 1].end, 8) + index[|index| - 1].digest
  }

  /** Recomputes the checksum input and the archive size from the entries. */
  method ComputeCsum(index: Index) returns (csum: seq<byte>, size: nat)
    ensures csum == EntryBytes(index) && size == IndexBytes(index)
  {
    hide LeBytes;
    csum, size := [], 0;
    assert index[..0] == [];
    for pos := 0 to |index|
      invariant csum == EntryBytes(index[..pos]) && size == IndexBytes(index[..pos])
    {
      var info := ChunkInfo(index, pos).value;
      size := info.end;
      csum := csum + LeBytes(info.end, 8);
      csum := csum + info.digest;
      assert index[..pos + 1][..pos] == index[..pos];
    }
    assert index[..|index|] == index;
  }

  // ----- the file

  const MAGIC: seq<byte> := [28, 145, 78, 165, 25, 186, 179, 205]

  type Uuid = u: seq<byte> | |u| == 16 witness seq(16, _ => 0)
  type Ctime = u: seq<byte> | |u| == 8 witness seq(8, _ => 0)

  function Header(uuid: Uuid, ctime: Ctime, csum: Digest): (h: seq<byte>)
    ensures |h| == 4096
  {
    MAGIC + uuid + ctime + csum + seq(4032, _ => 0)
  }

  const NO_CSUM: Digest := seq(32, _ => 0)

  class IndexWriter {
    const uuid: Uuid
    const ctime: Ctime
    const sha: seq<byte> -> Digest
    var out: seq<byte>
    var csum: Option<seq<byte>>
    var closed: bool
    ghost var entries: Index

    ghost predicate Valid()
      reads this
    {
      if closed then csum == None && out == Header(uuid, ctime, sha(EntryBytes(entries))) + EntryBytes(entries)
      else csum == Some(EntryBytes(entries)) && out == Header(uuid, ctime, NO_CSUM) + EntryBytes(entries)
    }

    constructor (uuid: Uuid, ctime: Ctime, sha: seq<byte> -> Digest)
      ensures Valid() && !closed && entries == []
      ensures this.uuid == uuid && this.ctime == ctime && this.sha == sha
    {
      this.uuid, this.ctime, this.sha := uuid, ctime, sha;
      out := Header(uuid, ctime, NO_CSUM);
      csum, closed, entries := Some([]), false, [];
    }

    method AddChunk(end: nat, digest: Digest) returns (ok: bool)
      requires Valid()
      modifies this
      ensures Valid() && closed == old(closed) && ok == !closed
      ensures entries == if ok then old(entries) + [IndexEntry(end, digest)] else old(entries)
    {
      hide LeBytes, Header;
      if closed { return false; }
      var le := LeBytes(end, 8);
      EntryBytesSnoc(entries, IndexEntry(end, digest));
      csum := Some(csum.value + le + digest);
      out := out + le;
      out := out + digest;
      entries := entries + [IndexEntry(end, digest)];
      return true;
    }

    /** Puts the checksum into the header, 32 bytes from the start of the file. */
    method Close() returns (r: Option<Digest>)
      requires Valid()
      modifies this
      ensures Valid() && closed && entries == old(entries)
      ensures old(closed) ==> r == None && out == old(out)
      ensures !old(closed) ==> r == Some(sha(EntryBytes(entries)))
    {
      hide EntryBytes;
      if closed { return None; }
      closed := true;
      var indexCsum := sha(csum.value);
      csum := None;
      PatchHeader(uuid, ctime, indexCsum, EntryBytes(entries));
      out := out[..32] + indexCsum + out[64..];
      return Some(indexCsum);
    }
  }

  lemma EntryBytesSnoc(index: Index, e: IndexEntry)
    ensures EntryBytes(index + [e]) == EntryBytes(index) + LeBytes(e.end, 8) + e.digest
  {
    hide LeBytes;
    assert (index + [e])[..|index|] == index;
  }

  lemma HeaderShape(uuid: Uuid, ctime: Ctime, csum: Digest)
    ensures Header(uuid, ctime, csum)[..8] == MAGIC && Header(uuid, ctime, csum)[32..64] == csum
  {
  }

  lemma PatchHeader(uuid: Uuid, ctime: Ctime, csum: Digest, rest: seq<byte>)
    ensures var out := Header(uuid, ctime, NO_CSUM) + rest;
            out[..32] + csum + out[64..] == Header(uuid, ctime, csum) + rest
  {
  }

  /** The entries of the mapped file. */
  function ParseEntries(s: seq<byte>): (index: Index)
    requires |s| % 40 == 0
    ensures 40 * |index| == |s|
  {
    if s == [] then []
    else ParseEntries(s[..|s| - 40]) + [IndexEntry(LeValue(s[|s| - 40..|s| - 32]), s[|s| - 32..])]
  }

  /** An opened index and the checksum its header claims. */
  datatype Opened = Opened(index: Index, csum: Digest)

  function OpenIndex(file: seq<byte>): (r: Result<Opened>)
    ensures r.Ok? ==> r.value.index != []
  {
    if |file| < 4096 then Err("file too small")
    else if (|file| - 4096) % 40 != 0 then Err("index size is not divisible by element size")
    else if file[..8] != MAGIC then Err("got unknown magic number")
    else
      var index := ParseEntries(file[4096..]);
      if index == [] then Err("index must not be empty") else Ok(Opened(index, file[32..64]))
  }

  lemma {:induction false} ParseEntryBytes(index: Index)
    requires forall i :: 0 <= i < |index| ==> index[i].end < TWO_64
    ensures ParseEntries(EntryBytes(index)) == index
    decreases |index|
  {
    hide LeBytes, LeValue;
    if index != [] {
      var init, last := index[..|index| - 1], index[|index| - 1];
      var s := EntryBytes(index);
      ParseEntryBytes(init);
      LeRoundTrip64(last.end);
      assert s[..|s| - 40] == EntryBytes(init);
      assert s[|s| - 40..|s| - 32] == LeBytes(last.end, 8);
      assert s[|s| - 32..] == last.digest;
    }
  }

  /** A closed index opens if and only if it has an entry, with the entries that were added and the
      checksum of their bytes, which is also what recomputing it gives. */
  lemma IndexRoundTrip(uuid: Uuid, ctime: Ctime, sha: seq<byte> -> Digest, index: Index)
    requires forall i :: 0 <= i < |index| ==> index[i].end < TWO_64
    ensures var file := Header(uuid, ctime, sha(EntryBytes(index))) + EntryBytes(index);
            if index == [] then OpenIndex(file).Err? else OpenIndex(file) == Ok(Opened(index, sha(EntryBytes(index))))
  {
    hide EntryBytes, ParseEntries, Header, OpenIndex;
    HeaderShape(uuid, ctime, sha(EntryBytes(index)));
    ParseEntryBytes(index);
    OpenParts(Header(uuid, ctime, sha(EntryBytes(index))), EntryBytes(index), index);
  }

  /** Where the fields of the header are. */
  lemma HeaderFields(uuid: Uuid, ctime: Ctime, csum: Digest)
    ensures var h := Header(uuid, ctime, csum);
            && h[..8] == MAGIC && h[8..24] == uuid && h[24..32] == ctime && h[32..64] == csum
            && forall i :: 64 <= i < 4096 ==> h[i] == 0
  {
  }

  lemma {:induction false} EntryBytesParsed(s: seq<byte>)
    requires |s| % 40 == 0
    ensures EntryBytes(ParseEntries(s)) == s
    decreases |s|
  {
    hide LeBytes, LeValue;
    if s != [] {
      var init, end := s[..|s| - 40], s[|s| - 40..|s| - 32];
      EntryBytesParsed(init);
      LeBytesOfValue(end);
      var last := IndexEntry(LeValue(end), s[|s| - 32..]);
      EntryBytesSnoc(ParseEntries(init), last);
      assert init + end + s[|s| - 32..] == s;
    }
  }

  /** The other way round: exactly the files open that have a header with the magic number and whole entries
      after it, at least one; the index is then all of the file after its header. */
  lemma OpenIsExact(file: seq<byte>)
    ensures OpenIndex(file).Ok? <==> |file| > 4096 && |file| % 40 == 4096 % 40 && file[..8] == MAGIC
    ensures OpenIndex(file).Ok? ==>
              EntryBytes(OpenIndex(file).value.index) == file[4096..] && OpenIndex(file).value.csum == file[32..64]
  {
    hide EntryBytes, ParseEntries;
    if |file| >= 4096 && (|file| - 4096) % 40 == 0 { EntryBytesParsed(file[4096..]); }
  }

  lemma OpenParts(h: seq<byte>, s: seq<byte>, index: Index)
    requires |h| == 4096 && h[..8] == MAGIC
    requires |s| == 40 * |index| && ParseEntries(s) == index
    ensures if index == [] then OpenIndex(h + s).Err? else OpenIndex(h + s) == Ok(Opened(index, h[32..64]))
  {
    hide ParseEntries;
    Slices(h, s);
  }

  lemma Slices(h: seq<byte>, s: seq<byte>)
    requires |h| == 4096
    ensures (h + s)[..8] == h[..8] && (h + s)[32..64] == h[32..64] && (h + s)[4096..] == s
  {
  }
}
