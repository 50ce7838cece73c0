/** From backup to restore: what is read through the index of an accepted upload is the input with every
    reused chunk at its place. */
module Restore {
  import opened Bytes
  import opened Buzhash
  import opened Chunker
  import opened Injection
  import opened MergeChunks
  import opened DynamicIndex
  import opened UploadStream
  import opened UploadProtocol
  import opened Readers

  /** The bytes of an archive: payload as it is, reused chunks as they are stored. */
  function Expand(elems: seq<Elem>, store: Store): seq<byte>
  {
    if elems == [] then [] else
    Expand(elems[..|elems| - 1], store) + ElemBytes(elems[|elems| - 1], store)
  }

  function ElemBytes(x: Elem, store: Store): seq<byte>
  {
    match x
    case Payload(b) => [b]
    case Reused(e) => if e.digest in store then store[e.digest] else []
  }

  /** Every chunk that was sent is stored under its digest: a part of the input as it was, a reused chunk
      with its size. */
  ghost predicate Holds(store: Store, log: seq<Sent>)
  {
    forall i :: 0 <= i < |log| ==> HoldsOne(store, log[i])
  }

  predicate HoldsOne(store: Store, s: Sent)
  {
    s.rec.digest in store &&
    match s.content
    case OfData(data) => store[s.rec.digest] == data
    case OfEntry(e) => |store[s.rec.digest]| == e.size
  }

  lemma {:induction false} ExpandAppend(a: seq<Elem>, b: seq<Elem>, store: Store)
    ensures Expand(a + b, store) == Expand(a, store) + Expand(b, store)
    decreases |b|
  {
    hide ElemBytes;
    if b == [] {
      assert a + b == a;
    } else {
      var n := |b| - 1;
      assert (a + b)[..|a| + n] == a + b[..n] && (a + b)[|a| + n] == b[n];
      ExpandAppend(a, b[..n], store);
    }
  }

  lemma {:induction false} ExpandData(data: seq<byte>, store: Store)
    ensures Expand(AsElems(data), store) == data
    decreases |data|
  {
    if data != [] {
      var n := |data| - 1;
      assert AsElems(data)[..n] == AsElems(data[..n]) && AsElems(data)[n] == Payload(data[n]);
      ExpandData(data[..n], store);
    }
  }

  /** The stored chunk is what its content stands for. */
  lemma ExpandContent(s: Sent, digestOf: seq<byte> -> Digest, store: Store)
    requires Fits(digestOf, s) && HoldsOne(store, s)
    ensures Expand(Elems(s.content), store) == store[s.rec.digest] && |store[s.rec.digest]| == s.size
  {
    match s.content
    case OfData(data) => ExpandData(data, store);
    case OfEntry(e) => assert [Reused(e)][..0] == [];
  }

  // ----- archives that grow

  lemma {:induction false} ArchivePrefix(index: Index, e: IndexEntry, store: Store, n: nat)
    requires Complete(index, store) && Complete(index + [e], store) && n <= |index|
    ensures ArchiveTo(index + [e], store, n) == ArchiveTo(index, store, n)
    decreases n
  {
    hide Complete;
    if n > 0 {
      ArchivePrefix(index, e, store, n - 1);
      ChunkSize(index, store, n - 1);
      ChunkSize(index + [e], store, n - 1);
    }
  }

  /** One more chunk: the archive grows by its bytes. */
  lemma ArchiveSnoc(index: Index, e: IndexEntry, store: Store)
    requires Complete(index, store) && e.digest in store && e.end == StartOf(index, |index|) + |store[e.digest]|
    ensures Complete(index + [e], store) && Archive(index + [e], store) == Archive(index, store) + store[e.digest]
  {
    hide ArchiveTo;
    var more := index + [e];
    CompleteSnoc(index, e, store);
    ArchivePrefix(index, e, store, |index|);
    ChunkSize(more, store, |index|);
    LastChunk(more, store);
  }

  lemma LastChunk(index: Index, store: Store)
    requires index != [] && Complete(index, store)
    ensures Archive(index, store) == ArchiveTo(index, store, |index| - 1) + ChunkData(index, store, |index| - 1)
  {
  }

  lemma CompleteSnoc(index: Index, e: IndexEntry, store: Store)
    requires Complete(index, store) && e.digest in store && e.end == StartOf(index, |index|) + |store[e.digest]|
    ensures Complete(index + [e], store)
  {
    var more := index + [e];
    forall i | 0 <= i < |more| ensures ChunkOk(more, store, i) {
      if i < |index| { assert ChunkOk(index, store, i); }
    }
    forall i, j | 0 <= i <= j < |more| ensures more[i].end <= more[j].end {
      if i < j == |index| { assert index[i].end <= index[j - 1].end; }
    }
  }

  lemma EmptyArchive(store: Store)
    ensures Complete([], store) && Archive([], store) == [] && Expand([], store) == []
  {
  }

  // ----- the archive of a log

  /** The archive of the index that belongs to a log is what was sent, byte for byte. */
  lemma {:induction false} ArchiveIsSent(log: seq<Sent>, digestOf: seq<byte> -> Digest, length: Digest -> nat,
      store: Store)
    requires Contiguous(log) && Lengths(log, length) && Genuine(digestOf, log) && Holds(store, log)
    ensures var index := IndexOf(0, LogRecs(log), length);
            && |index| == |log| && StartOf(index, |index|) == TotalSize(log) && Complete(index, store)
            && Archive(index, store) == Expand(LogElems(log), store)
    decreases |log|
  {
    hide LogRecs, IndexOf, Complete, Archive, Expand, Elems, SumLength, Follows;
    if log == [] {
      NoRecs(length);
      EmptyArchive(store);
    } else {
      var init, last := log[..|log| - 1], log[|log| - 1];
      var index := IndexOf(0, LogRecs(init), length);
      var e := IndexEntry(TotalSize(init) + last.size, last.rec.digest);
      ArchiveIsSent(init, digestOf, length, store);
      RecsSnoc(log);
      LogFollows(init, length);
      LastRec(0, LogRecs(init), last.rec, length);
      assert IndexOf(0, LogRecs(log), length) == index + [e];
      ExpandContent(last, digestOf, store);
      ArchiveSnoc(index, e, store);
      ExpandAppend(LogElems(init), Elems(last.content), store);
    }
  }

  // ----- the whole way

  /** A run of the upload queue that gets through, against a server with a new index. */
  ghost predicate Uploaded(run: seq<State>, items: seq<Merged>, server: Server, base: set<Digest>,
      length: Digest -> nat)
  {
    Ready(server, base, length) && IsRun(run, items, server) && AllDone(run[|run| - 1])
  }

  /** A server with a new index that knows the chunks of the previous backup. */
  ghost predicate Ready(server: Server, base: set<Digest>, length: Digest -> nat)
  {
    && server.offset == 0 && server.chunkCount == 0 && server.index == []
    && server.known.Keys == base && Honest(server.known, length)
  }

  /** On every such server there is an upload that gets through. */
  ghost predicate Uploadable(items: seq<Merged>, base: set<Digest>, length: Digest -> nat)
  {
    forall server :: Ready(server, base, length) ==> exists run :: Uploaded(run, items, server, base, length)
  }

  /** The server's index describes these archive positions, byte for byte. */
  ghost predicate Describes(r: Result<Server>, store: Store, elems: seq<Elem>)
  {
    r.Ok? && Complete(r.value.index, store) && Archive(r.value.index, store) == Expand(elems, store)
  }

  /** Whatever run uploads the batches, and whatever store holds what was sent: the server's index describes
      these archive positions. */
  ghost predicate Restorable(items: seq<Merged>, log: seq<Sent>, base: set<Digest>, length: Digest -> nat,
      elems: seq<Elem>)
  {
    forall run: seq<State>, server, store :: Uploaded(run, items, server, base, length) && Holds(store, log) ==>
      Describes(run[|run| - 1].server, store, elems)
  }

  lemma LastIndex(run: seq<State>, items: seq<Merged>, log: seq<Sent>, server: Server, length: Digest -> nat)
    requires IsRun(run, items, server) && Prepared(items, log, server, length) && AllDone(run[|run| - 1])
    ensures var s := run[|run| - 1].server;
            s.Ok? && s.value.index == IndexOf(0, LogRecs(log), length)
  {
    hide Prepared, Next, Init, Inv, Contiguous, Atoms, Available, LogRecs, IndexOf;
    RunKeeps(run, items, log, server, length, |run| - 1);
    DoneIndex(run[|run| - 1], items, log, server, length);
  }

  lemma DoneIndex(s: State, items: seq<Merged>, log: seq<Sent>, server: Server, length: Digest -> nat)
    requires Inv(s, server, LogRecs(log), length) && Prepared(items, log, server, length) && AllDone(s)
    ensures s.server.Ok? && s.server.value.index == IndexOf(0, LogRecs(log), length)
  {
    hide Contiguous, Atoms, Available, Names, Lengths, Covered, Follows, LogRecs, Rest, Recs, HeldList, Honest, IndexOf;
    PrefixOf(s.appended, HeldList(s.merge), Recs(Rest(s)));
    NothingLeft(s);
    assert [] + IndexOf(0, s.appended, length) == IndexOf(0, s.appended, length);
  }

  /** What the pipeline sent can be restored from every upload of it. */
  lemma SentIsRestorable(up: Uploader, items: seq<Merged>)
    requires up.Valid() && Atoms(items) == up.atoms
    ensures Restorable(items, up.log, up.base, up.length, LogElems(up.log))
  {
    hide Next, Init, Contiguous, Available, Names, Lengths, LogRecs, IndexOf, Complete, Archive, Expand, LogElems,
      Genuine,
      Holds, Honest, Covers, LengthOf, CsumBytes, TotalSize;
    forall run: seq<State>, server, store | Uploaded(run, items, server, up.base, up.length) && Holds(store, up.log)
      ensures Describes(run[|run| - 1].server, store, LogElems(up.log))
    {
      LastIndex(run, items, up.log, server, up.length);
      ArchiveIsSent(up.log, up.digestOf, up.length, store);
    }
  }

  /** What the pipeline sent can be uploaded. */
  lemma SentIsUploadable(up: Uploader, items: seq<Merged>)
    requires up.Valid() && Atoms(items) == up.atoms
    ensures Uploadable(items, up.base, up.length)
  {
    hide Next, Contiguous, Available, Names, Lengths, LogRecs, Honest, Covers, LengthOf, CsumBytes, TotalSize, Genuine,
      MergeAll;
    forall server | Ready(server, up.base, up.length)
      ensures exists run :: Uploaded(run, items, server, up.base, up.length)
    {
      var first := State(MergeAll(None, items), [], {}, {}, None, [], Ok(server));
      var run := CanFinish([first], items, up.log, server, up.length);
      assert Uploaded(run, items, server, up.base, up.length);
    }
  }

  /** Backup and restore: the pipeline is made and run; if it succeeds, then after every upload of its batches
      that gets through, and in every store that holds what was sent, the server's index describes the
      input with every injection replaced by its bytes at its offset. */
  method BackupRestores(polls: seq<Poll>, injections: seq<Inject>, avg: nat, table: Table, suggesting: bool,
                        digestOf: seq<byte> -> Digest, build: seq<byte> -> Option<nat>,
                        ghost length: Digest -> nat, ghost base: set<Digest>, known: set<Digest>)
    returns (ok: bool, items: seq<Merged>, ghost log: seq<Sent>)
    requires PowerOfTwo(avg) && Orderly(injections, |Gathered(polls)|) && known <= base
    requires LengthOf(digestOf, length, Gathered(polls)) && ScriptKnown(injections, base, length)
    ensures |injections| > 0 ==> 0 <= PayloadPos(injections, 0)
    ensures ok ==> Genuine(digestOf, log)
    ensures ok ==> Uploadable(items, base, length)
    ensures ok ==> Restorable(items, log, base, length, Splice(Gathered(polls), injections, 0, 0))
    ensures ok ==> Intact(polls)
    ensures Intact(polls) && AllBuild(build, Gathered(polls)) ==> ok
  {
    hide Orderly, PayloadPos, Splice, LogElems, Injected, ScriptKnown, TotalSize, AllBuild, Intact, LengthOf, Gathered,
      Restorable, Uploadable, Genuine;
    var up;
    ok, items, up := BackUp(polls, injections, avg, table, suggesting, digestOf, build, length, base, known);
    log := up.log;
    if ok {
      SentIsRestorable(up, items);
      SentIsUploadable(up, items);
    }
  }

  /** Reading the uploaded index to its end through the buffered reader restores the backup, unless the store
      fails. */
  method RestoreBackup(index: Index, backend: Backend, buf: array<byte>, ghost items: seq<Merged>, ghost log: seq<Sent>,
                       ghost base: set<Digest>, ghost length: Digest -> nat, ghost elems: seq<Elem>,
                       ghost run: seq<State>, ghost server: Server)
    returns (r: Result<seq<byte>>)
    requires Restorable(items, log, base, length, elems)
    requires Uploaded(run, items, server, base, length) && Holds(backend.chunks, log)
    requires index != [] && buf.Length > 0 && {backend} !! {buf}
    requires run[|run| - 1].server.Ok? ==> index == run[|run| - 1].server.value.index
    modifies backend, buf
    ensures r.Ok? ==> r.value == Expand(elems, backend.chunks)
    ensures if r.Ok? then Calm(old(backend.faults), backend.faults) else Faulted(old(backend.faults), backend.faults)
  {
    hide Uploaded, Holds, Archive, Expand, Calm, Faulted;
    assert Describes(run[|run| - 1].server, backend.chunks, elems) by { RunNotEmpty(run, items, server, base, length); }
    RunNotEmpty(run, items, server, base, length);
    var reader := new BufferedReader(index, backend);
    r := ReadAll(reader, buf);
  }

  lemma RunNotEmpty(run: seq<State>, items: seq<Merged>, server: Server, base: set<Digest>, length: Digest -> nat)
    requires Uploaded(run, items, server, base, length)
    ensures run != []
  {
  }
}
