/** The two readers that serve an archive through its dynamic index: a buffered seekable one and
    one that fills a buffer at any offset. */
module Readers {
  import opened Bytes
  import opened DynamicIndex

  type Store = map<Digest, seq<byte>>

  // ----- the archive an index and a chunk store stand for

  /** Chunk `i` is stored with the size the index gives it. */
  ghost predicate ChunkOk(index: Index, store: Store, i: nat)
    requires i < |index|
  {
    index[i].digest in store && StartOf(index, i) + |store[index[i].digest]| == index[i].end
  }

  /** Ends do not decrease and every chunk is stored with its size. */
  ghost predicate Complete(index: Index, store: Store)
  {
    Nondecreasing(index) && forall i :: 0 <= i < |index| ==> ChunkOk(index, store, i)
  }

  ghost function ChunkData(index: Index, store: Store, i: nat): seq<byte>
    requires Complete(index, store) && i < |index|
  {
    assert ChunkOk(index, store, i);
    store[index[i].digest]
  }

  /** The first `n` chunks, one after the other. */
  ghost function ArchiveTo(index: Index, store: Store, n: nat): seq<byte>
    requires Complete(index, store) && n <= |index|
  {
    if n == 0 then [] else ArchiveTo(index, store, n - 1) + ChunkData(index, store, n - 1)
  }

  ghost function Archive(index: Index, store: Store): seq<byte>
    requires Complete(index, store)
  {
    ArchiveTo(index, store, |index|)
  }

  lemma {:induction false} ArchiveLength(index: Index, store: Store, n: nat)
    requires Complete(index, store) && n <= |index|
    ensures |ArchiveTo(index, store, n)| == StartOf(index, n)
  {
    if n > 0 {
      assert ChunkOk(index, store, n - 1);
      ArchiveLength(index, store, n - 1);
    }
  }

  /** A chunk is the slice of the archive between its start and its end. */
  lemma {:induction false} ChunkIsSlice(index: Index, store: Store, i: nat, n: nat)
    requires Complete(index, store) && i < n <= |index|
    ensures StartOf(index, i) <= index[i].end <= |ArchiveTo(index, store, n)|
    ensures ArchiveTo(index, store, n)[StartOf(index, i)..index[i].end] == ChunkData(index, store, i)
    decreases n
  {
    hide Complete, StartOf;
    ArchiveLength(index, store, n - 1);
    ChunkSize(index, store, i);
    var p := ArchiveTo(index, store, n - 1);
    if i < n - 1 {
      ChunkIsSlice(index, store, i, n - 1);
      assert (p + ChunkData(index, store, n - 1))[StartOf(index, i)..index[i].end]
             == p[StartOf(index, i)..index[i].end];
    }
  }

  lemma ChunkSize(index: Index, store: Store, i: nat)
    requires Complete(index, store) && i < |index|
    ensures StartOf(index, i) + |ChunkData(index, store, i)| == index[i].end
    ensures index[i].digest in store && ChunkData(index, store, i) == store[index[i].digest]
  {
    assert ChunkOk(index, store, i);
  }

  /** The bytes of a chunk from one of its places on are the archive's bytes there. */
  lemma ChunkTail(index: Index, store: Store, i: nat, offset: nat, n: nat)
    requires Complete(index, store) && i < |index| && StartOf(index, i) <= offset && offset + n <= index[i].end
    ensures index[i].digest in store && offset + n <= |Archive(index, store)|
    ensures var rel := offset - StartOf(index, i);
            rel + n <= |store[index[i].digest]|
              && store[index[i].digest][rel..rel + n] == Archive(index, store)[offset..offset + n]
  {
    hide Complete, StartOf, ArchiveTo;
    ChunkSize(index, store, i);
    ChunkIsSlice(index, store, i, |index|);
    SliceOfSlice(Archive(index, store), StartOf(index, i), index[i].end, offset, n);
  }

  lemma SliceOfSlice(a: seq<byte>, s: nat, e: nat, offset: nat, n: nat)
    requires s <= offset && offset + n <= e <= |a|
    ensures a[s..e][offset - s..offset - s + n] == a[offset..offset + n]
  {
    var l, r := a[s..e][offset - s..offset - s + n], a[offset..offset + n];
    assert forall k :: 0 <= k < n ==> l[k] == r[k];
  }

  lemma ArchiveSize(index: Index, store: Store)
    requires Complete(index, store)
    ensures |Archive(index, store)| == IndexBytes(index)
  {
    ArchiveLength(index, store, |index|);
  }

  // ----- the buffered reader

  /** Where chunks come from. Every read may fail: `faults` says how the coming ones turn out. */
  class Backend {
    const chunks: Store
    var faults: seq<bool>

    constructor (chunks: Store, faults: seq<bool>)
      ensures this.chunks == chunks && this.faults == faults
    {
      this.chunks, this.faults := chunks, faults;
    }

    /** A chunk is returned if and only if it is there and the read does not fail. */
    method ReadChunk(digest: Digest) returns (r: Option<seq<byte>>)
      modifies this`faults
      ensures r == if digest in chunks && Calm(old(faults), faults) then Some(chunks[digest]) else None
      ensures Calm(old(faults), faults) || Faulted(old(faults), faults)
    {
      if faults != [] {
        var fails := faults[0];
        faults := faults[1..];
        assert old(faults)[..1] == [fails];
        if fails { return None; }
      }
      return if digest in chunks then Some(chunks[digest]) else None;
    }
  }

  /** Between two moments, none of the reads failed. */
  predicate Calm(before: seq<bool>, after: seq<bool>)
  {
    var n := |before| - |after|;
    0 <= n && after == before[n..] && true !in before[..n]
  }

  /** Between two moments, a read failed. */
  predicate Faulted(before: seq<bool>, after: seq<bool>)
  {
    var n := |before| - |after|;
    0 <= n && after == before[n..] && true in before[..n]
  }

  lemma CalmStays(s: seq<bool>)
    ensures Calm(s, s)
  {
  }

  lemma CalmThen(a: seq<bool>, b: seq<bool>, c: seq<bool>)
    requires Calm(a, b)
    ensures Calm(b, c) ==> Calm(a, c)
    ensures Faulted(b, c) ==> Faulted(a, c)
  {
    if |b| >= |c| && c == b[|b| - |c|..] {
      var m, n := |a| - |b|, |b| - |c|;
      assert a[..m + n] == a[..m] + b[..n];
      assert c == a[m + n..];
    }
  }

  datatype CachedChunk = CachedChunk(start: nat, end: nat, data: seq<byte>)

  datatype SeekFrom = Start(u: nat) | End(e: int) | Current(d: int)

  class BufferedReader {
    const index: Index
    const store: Backend
    const archiveSize: nat
    var readBuffer: seq<byte>
    var bufferedChunkIdx: nat
    var bufferedChunkStart: nat
    var readOffset: nat
    var lruCache: map<nat, CachedChunk>

    /** What the cacher fetches for an index. */
    ghost predicate IsFetch(i: nat, c: CachedChunk)
    {
      && i < |index| && index[i].digest in store.chunks
      && c == CachedChunk(StartOf(index, i), index[i].end, store.chunks[index[i].digest])
      && c.start + |c.data| == c.end
    }

    ghost predicate Valid()
      reads this
    {
      && index != [] && archiveSize == IndexBytes(index) && Nondecreasing(index)
      && readOffset <= archiveSize
      && (forall i :: i in lruCache ==> IsFetch(i, lruCache[i]))
      && BufferOk()
    }

    ghost predicate BufferOk()
      reads this
    {
      readBuffer != [] ==>
        bufferedChunkIdx < |index| &&
        IsFetch(bufferedChunkIdx, CachedChunk(bufferedChunkStart, index[bufferedChunkIdx].end, readBuffer))
    }

    constructor (index: Index, store: Backend)
      requires index != [] && Nondecreasing(index)
      ensures Valid() && readOffset == 0 && this.index == index && this.store == store
    {
      this.index, this.store, archiveSize := index, store, IndexBytes(index);
      readBuffer, bufferedChunkIdx, bufferedChunkStart, readOffset := [], 0, 0, 0;
      lruCache := map[];
    }

    /** The chunk is there with its size. */
    ghost predicate Stored(i: nat)
    {
      i < |index| && ChunkOk(index, store.chunks, i)
    }

    /** Reads a chunk from the store and checks its size. It fails only if the read does or if the chunk is
        not there with its size. */
    method Fetch(i: nat) returns (r: Result<CachedChunk>)
      modifies store
      ensures r.Ok? ==> IsFetch(i, r.value) && Calm(old(store.faults), store.faults)
      ensures r.Err? ==> !Stored(i) || Faulted(old(store.faults), store.faults)
    {
      if i >= |index| { return Err("chunk index out of range"); }
      var start := StartOf(index, i);
      var data := store.ReadChunk(index[i].digest);
      if data.None? { return Err("unable to read chunk"); }
      if start + |data.value| != index[i].end { return Err("read chunk with wrong size"); }
      return Ok(CachedChunk(start, index[i].end, data.value));
    }

    /** The cache returns what fetching would return, and may drop any other entry. */
    method Access(i: nat) returns (r: Result<CachedChunk>)
      requires Valid()
      modifies this`lruCache, store
      ensures Valid()
      ensures r.Ok? ==> IsFetch(i, r.value) && Calm(old(store.faults), store.faults)
      ensures r.Err? ==> !Stored(i) || Faulted(old(store.faults), store.faults)
    {
      if i in lruCache {
        CalmStays(store.faults);
        return Ok(lruCache[i]);
      }
      r := Fetch(i);
      if r.Ok? {
        var dropped: set<nat> := *;
        lruCache := (lruCache - dropped)[i := r.value];
      }
    }

    method BufferChunk(i: nat) returns (ok: bool)
      requires Valid()
      modifies this, store
      ensures Valid() && readOffset == old(readOffset)
      ensures ok ==> && i < |index| && IsFetch(i, CachedChunk(bufferedChunkStart, index[i].end, readBuffer))
                     && bufferedChunkIdx == i && Calm(old(store.faults), store.faults)
      ensures !ok ==> !Stored(i) || Faulted(old(store.faults), store.faults)
    {
      var c := Access(i);
      if c.Err? { return false; }
      readBuffer := c.value.data;
      bufferedChunkIdx := i;
      bufferedChunkStart := c.value.start;
      return true;
    }

    /** The bytes of the archive from `offset` to the end of its chunk: by the buffer, by the
        sequential shortcut to the next chunk, or by search. The search always finds a chunk. */
    method BufferedRead(offset: nat) returns (r: Result<seq<byte>>)
      requires Valid() && offset <= archiveSize
      modifies this, store
      ensures Valid() && readOffset == old(readOffset)
      ensures r.Ok? ==> (r.value == [] <==> offset == archiveSize) && Calm(old(store.faults), store.faults)
      ensures r.Ok? && offset < archiveSize ==> InChunk(offset, r.value)
      ensures r.Err? ==> Faulted(old(store.faults), store.faults) || !Complete(index, store.chunks)
    {
      hide BinarySearch, Calm, Faulted, ChunkOk;
      CalmStays(store.faults);
      if offset == archiveSize { return Ok([]); }
      if |readBuffer| > 0 && bufferedChunkIdx + 1 < |index| && offset >= bufferedChunkStart + |readBuffer| {
        var nextIdx := bufferedChunkIdx + 1;
        if offset < index[nextIdx].end {
          var ok := BufferChunk(nextIdx);
          if !ok { return Err("unable to read chunk"); }
          r := Ok(readBuffer[offset - bufferedChunkStart..]);
          assert InChunkAt(nextIdx, offset, r.value);
          return;
        }
      }
      if |readBuffer| == 0 || offset < bufferedChunkStart || offset >= bufferedChunkStart + |readBuffer| {
        var endIdx := |index| - 1;
        var found := BinarySearch(index, 0, 0, endIdx, index[endIdx].end, offset);
        if found.Err? { return Err("offset out of range"); }
        var ok := BufferChunk(found.value);
        if !ok { return Err("unable to read chunk"); }
      }
      r := Ok(readBuffer[offset - bufferedChunkStart..]);
      assert InChunkAt(bufferedChunkIdx, offset, r.value);
    }

    ghost predicate InChunkAt(i: nat, offset: nat, s: seq<byte>)
    {
      && i < |index| && index[i].digest in store.chunks
      && StartOf(index, i) <= offset && offset + |s| == index[i].end
      && StartOf(index, i) + |store.chunks[index[i].digest]| == index[i].end
      && s == store.chunks[index[i].digest][offset - StartOf(index, i)..]
    }

    ghost predicate InChunk(offset: nat, s: seq<byte>)
    {
      exists i :: InChunkAt(i, offset, s)
    }

    lemma InFile(offset: nat, s: seq<byte>, n: nat)
      requires Valid() && n <= |s| && offset <= archiveSize
      requires s == [] || InChunk(offset, s)
      ensures offset + n <= archiveSize
    {
      if s != [] {
        var i: nat :| InChunkAt(i, offset, s);
        assert index[i].end <= index[|index| - 1].end;
      }
    }

    lemma InArchive(offset: nat, s: seq<byte>, n: nat)
      requires Complete(index, store.chunks) && InChunk(offset, s) && n <= |s|
      ensures offset + n <= |Archive(index, store.chunks)| && s[..n] == Archive(index, store.chunks)[offset..offset + n]
    {
      var i: nat :| InChunkAt(i, offset, s);
      ChunkTail(index, store.chunks, i, offset, n);
    }

    /** Reads at the current offset. What is read is the archive's bytes there; nothing is read only
        at the end of the archive or into an empty buffer. If every chunk is stored, reading fails if and
        only if the store does. */
    method Read(buf: array<byte>) returns (r: Result<nat>)
      requires Valid()
      modifies this, store, buf
      ensures Valid()
      ensures r.Ok? ==> Calm(old(store.faults), store.faults)
      ensures r.Err? && Complete(index, store.chunks) ==> Faulted(old(store.faults), store.faults)
      ensures r.Err? ==> readOffset == old(readOffset) && buf[..] == old(buf[..])
      ensures r.Ok? ==> r.value <= buf.Length && readOffset == old(readOffset) + r.value
      ensures r.Ok? && r.value == 0 ==> buf.Length == 0 || readOffset == archiveSize
      ensures r.Ok? ==> buf[r.value..] == old(buf[r.value..])
      ensures r.Ok? && Complete(index, store.chunks) ==> readOffset <= |Archive(index, store.chunks)| == archiveSize
      ensures r.Ok? && Complete(index, store.chunks) ==>
                buf[..r.value] == Archive(index, store.chunks)[old(readOffset)..readOffset]
    {
      hide Complete, Archive, Nondecreasing, Calm, Faulted;
      var data := BufferedRead(readOffset);
      if data.Err? { return Err(data.error); }
      var n := if |data.value| > buf.Length then buf.Length else |data.value|;
      forall i | 0 <= i < n { buf[i] := data.value[i]; }
      assert buf[..n] == data.value[..n];
      InFile(readOffset, data.value, n);
      if Complete(index, store.chunks) {
        ArchiveSize(index, store.chunks);
        if readOffset < archiveSize { InArchive(readOffset, data.value, n); }
      }
      readOffset := readOffset + n;
      return Ok(n);
    }

    /** Seeks in `i64` arithmetic; the target has to lie in the archive. In an archive of 2^63 bytes or
        more no seek succeeds, since its size is negative as an `i64`. */
    method Seek(pos: SeekFrom) returns (r: Result<nat>)
      requires Valid() && archiveSize < TWO_64
      requires match pos
               case Start(u) => u < TWO_64
               case End(e) => -TWO_63 <= e < TWO_63
               case Current(d) => -TWO_63 <= d < TWO_63
      modifies this`readOffset
      ensures Valid()
      ensures var target := match pos
                            case Start(u) => u case End(e) => archiveSize + e case Current(d) => old(readOffset) + d;
              if 0 <= target <= archiveSize < TWO_63 then r == Ok(target) && readOffset == target
              else r.Err? && readOffset == old(readOffset)
    {
      var size := ToI64(archiveSize);
      var newOffset := match pos
        case Start(u) => ToI64(u)
        case End(e) => AddI64(size, e)
        case Current(d) => AddI64(ToI64(readOffset), d);
      if newOffset < 0 || newOffset > size {
        return Err("seek is out of range");
      }
      readOffset := newOffset;
      return Ok(newOffset);
    }
  }

  /** Restoring: reading from the start, buffer by buffer, until nothing comes gives the whole archive,
      unless the store fails. */
  method ReadAll(reader: BufferedReader, buf: array<byte>) returns (r: Result<seq<byte>>)
    requires reader.Valid() && reader.readOffset == 0 && buf.Length > 0
    requires Complete(reader.index, reader.store.chunks)
    modifies reader, reader.store, buf
    ensures r.Ok? ==> r.value == Archive(reader.index, reader.store.chunks)
    ensures r.Ok? ==> Calm(old(reader.store.faults), reader.store.faults)
    ensures r.Err? ==> Faulted(old(reader.store.faults), reader.store.faults)
  {
    hide Complete, Archive, Nondecreasing, Calm, Faulted, BufferedReader.Valid;
    ghost var a := Archive(reader.index, reader.store.chunks);
    ArchiveSize(reader.index, reader.store.chunks);
    ReaderSize(reader);
    CalmStays(reader.store.faults);
    var data: seq<byte> := [];
    while true
      invariant reader.Valid() && reader.readOffset <= |a| && data == a[..reader.readOffset]
      invariant Calm(old(reader.store.faults), reader.store.faults)
      decreases |a| - reader.readOffset
    {
      ghost var faults, at := reader.store.faults, reader.readOffset;
      var n := reader.Read(buf);
      CalmThen(old(reader.store.faults), faults, reader.store.faults);
      if n.Err? { return Err(n.error); }
      if n.value == 0 {
        assert a[..|a|] == a;
        return Ok(data);
      }
      assert a[..at] + a[at..reader.readOffset] == a[..reader.readOffset];
      data := data + buf[..n.value];
    }
  }

  lemma ReaderSize(reader: BufferedReader)
    requires reader.Valid()
    ensures reader.archiveSize == IndexBytes(reader.index)
  {
  }

  /** Wrapping `i64` addition. */
  function AddI64(a: int, b: int): (r: int)
    requires -TWO_63 <= a < TWO_63 && -TWO_63 <= b < TWO_63
    ensures -TWO_63 <= r < TWO_63
    ensures r == a + b || r == a + b - TWO_64 || r == a + b + TWO_64
  {
    var s := a + b;
    if s >= TWO_63 then s - TWO_64 else if s < -TWO_63 then s + TWO_64 else s
  }

  // ----- reading at an offset

  class CachedChunkReader {
    const index: Index
    const store: Backend
    /** The chunks of the archive that the index describes; the store may lack some of them. */
    ghost const full: Store
    var cache: map<Digest, seq<byte>>

    ghost predicate Valid()
      reads this
    {
      && index != [] && Complete(index, full)
      && (forall d :: d in store.chunks && d in full ==> store.chunks[d] == full[d])
      && forall d :: d in cache ==> d in store.chunks && cache[d] == store.chunks[d]
    }

    /** Some chunk of the index is not stored. */
    ghost predicate Incomplete()
    {
      exists i :: 0 <= i < |index| && index[i].digest !in store.chunks
    }

    constructor (index: Index, store: Backend, ghost full: Store)
      requires index != [] && Complete(index, full)
      requires forall d :: d in store.chunks && d in full ==> store.chunks[d] == full[d]
      ensures Valid() && this.index == index && this.store == store && this.full == full
    {
      this.index, this.store, this.full, cache := index, store, full, map[];
    }

    /** The cache returns what reading would return, and may drop any entry. */
    method Access(digest: Digest) returns (r: Option<seq<byte>>)
      requires Valid()
      modifies this, store
      ensures Valid()
      ensures r.Some? ==> digest in store.chunks && r.value == store.chunks[digest]
      ensures r.Some? ==> Calm(old(store.faults), store.faults)
      ensures r.None? ==> digest !in store.chunks || Faulted(old(store.faults), store.faults)
    {
      if digest in cache {
        CalmStays(store.faults);
        return Some(cache[digest]);
      }
      r := store.ReadChunk(digest);
      if r.Some? {
        var dropped: set<Digest> := *;
        cache := (cache - dropped)[digest := r.value];
      }
    }

    /** Fills `buf` with the archive from `offset` on; it stays short only at the end of the archive, and
        fails only if the store does or lacks a chunk. */
    method ReadAt(buf: array<byte>, offset: nat) returns (r: Result<nat>)
      requires Valid()
      modifies this, store, buf
      ensures Valid()
      ensures r.Ok? ==> Calm(old(store.faults), store.faults)
      ensures r.Err? ==> Faulted(old(store.faults), store.faults) || Incomplete()
      ensures r.Ok? ==> r.value <= buf.Length
      ensures r.Ok? ==> r.value == buf.Length || offset + r.value >= |Archive(index, full)|
      ensures r.Ok? && r.value > 0 ==>
                offset + r.value <= |Archive(index, full)|
                  && buf[..r.value] == Archive(index, full)[offset..offset + r.value]
      ensures r.Ok? ==> buf[r.value..] == old(buf[r.value..])
    {
      hide Complete, Archive, Nondecreasing, ChunkFromOffset, StartOf, Calm, Faulted;
      CalmStays(store.faults);
      ghost var a := Archive(index, full);
      ArchiveSize(index, full);
      var size, read := buf.Length, 0;
      while read < size
        invariant Valid() && read <= size && Calm(old(store.faults), store.faults)
        invariant read > 0 ==> offset + read <= |a|
        invariant offset + read <= |a| ==> buf[..read] == a[offset..offset + read]
        invariant buf[read..] == old(buf[read..])
      {
        ghost var faults := store.faults;
        var part := Part(offset + read, size - read);
        CalmThen(old(store.faults), faults, store.faults);
        if part.Err? { return Err(part.error); }
        var data := part.value;
        if data == [] { break; }
        assert buf[read..][|data|..] == buf[read + |data|..];
        assert old(buf[read..])[|data|..] == old(buf[read + |data|..]);
        Copy(buf, read, data);
        Adjacent(a, offset, read, |data|);
        read := read + |data|;
      }
      return Ok(read);
    }

    /** At most `limit` bytes from one place of the archive, out of one chunk; none only at its end. */
    method Part(curOffset: nat, limit: nat) returns (r: Result<seq<byte>>)
      requires Valid() && limit > 0
      modifies this, store
      ensures Valid()
      ensures r.Ok? ==> Calm(old(store.faults), store.faults)
      ensures r.Err? ==> Faulted(old(store.faults), store.faults) || Incomplete()
      ensures r.Ok? ==> |r.value| <= limit
      ensures r.Ok? && r.value == [] ==> curOffset >= |Archive(index, full)|
      ensures r.Ok? && r.value != [] ==> curOffset + |r.value| <= |Archive(index, full)|
                                         && r.value == Archive(index, full)[curOffset..curOffset + |r.value|]
    {
      hide Complete, Archive, Nondecreasing, ChunkFromOffset, Calm, Faulted;
      CalmStays(store.faults);
      ArchiveSize(index, full);
      var chunk := ChunkFromOffset(index, curOffset);
      if chunk.None? { return Ok([]); }
      var (i, intra) := chunk.value;
      var info := ChunkInfo(index, i).value;
      ChunkSize(index, full, i);
      var data := Access(info.digest);
      if data.None? {
        assert index[i].digest == info.digest;
        return Err("unable to read chunk");
      }
      var left := info.end - curOffset;
      var want := if left < limit then left else limit;
      ChunkTail(index, full, i, curOffset, want);
      return Ok(data.value[intra..intra + want]);
    }
  }

  lemma Adjacent(a: seq<byte>, offset: nat, m: nat, n: nat)
    requires offset + m + n <= |a|
    ensures a[offset..offset + m] + a[offset + m..offset + m + n] == a[offset..offset + (m + n)]
  {
  }

  method Copy(buf: array<byte>, at: nat, s: seq<byte>)
    requires at + |s| <= buf.Length
    modifies buf
    ensures buf[..at + |s|] == old(buf[..at]) + s && buf[at + |s|..] == old(buf[at + |s|..])
  {
    forall i | 0 <= i < |s| { buf[at + i] := s[i]; }
  }
}
