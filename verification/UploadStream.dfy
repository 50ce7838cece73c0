/** From chunk stream to index entries: injecting reused chunks at their places, accounting for
    every chunk, and the running checksum over the index. */
module UploadStream {
  import opened Bytes
  import opened Buzhash
  import opened Chunker
  import opened Injection
  import opened ChunkStream
  import opened MergeChunks

  // ----- counters

  class Counters {
    var injectedChunkCount: nat
    var knownChunkCount: nat
    var totalChunkCount: nat
    var compressedStreamLen: nat
    var injectedStreamLen: nat
    var reusedStreamLen: nat
    var totalStreamLen: nat
    ghost var newChunkCount: nat

    /** On every run: the chunks are the new, the known and the injected ones, and no more bytes
        are reused than were sent. */
    ghost predicate Valid()
      reads this
    {
      && totalChunkCount == newChunkCount + knownChunkCount + injectedChunkCount
      && injectedStreamLen <= reusedStreamLen <= totalStreamLen
    }

    constructor ()
      ensures Valid() && totalStreamLen == 0 && totalChunkCount == 0
    {
      injectedChunkCount, knownChunkCount, totalChunkCount, compressedStreamLen := 0, 0, 0, 0;
      injectedStreamLen, reusedStreamLen, totalStreamLen := 0, 0, 0;
      newChunkCount := 0;
    }

    method AddKnownChunk(len: nat) returns (offset: nat)
      requires Valid()
      modifies this
      ensures Valid() && offset == old(totalStreamLen) && totalStreamLen == offset + len
      ensures totalChunkCount == old(totalChunkCount) + 1 && knownChunkCount == old(knownChunkCount) + 1
      ensures reusedStreamLen == old(reusedStreamLen) + len
      ensures newChunkCount == old(newChunkCount) && injectedChunkCount == old(injectedChunkCount)
      ensures injectedStreamLen == old(injectedStreamLen) && compressedStreamLen == old(compressedStreamLen)
    {
      knownChunkCount := knownChunkCount + 1;
      totalChunkCount := totalChunkCount + 1;
      reusedStreamLen := reusedStreamLen + len;
      offset := totalStreamLen;
      totalStreamLen := totalStreamLen + len;
    }

    method AddNewChunk(len: nat, rawSize: nat) returns (offset: nat)
      requires Valid()
      modifies this
      ensures Valid() && offset == old(totalStreamLen) && totalStreamLen == offset + len
      ensures totalChunkCount == old(totalChunkCount) + 1 && newChunkCount == old(newChunkCount) + 1
      ensures compressedStreamLen == old(compressedStreamLen) + rawSize
      ensures knownChunkCount == old(knownChunkCount) && injectedChunkCount == old(injectedChunkCount)
      ensures reusedStreamLen == old(reusedStreamLen) && injectedStreamLen == old(injectedStreamLen)
    {
      totalChunkCount := totalChunkCount + 1;
      compressedStreamLen := compressedStreamLen + rawSize;
      offset := totalStreamLen;
      totalStreamLen := totalStreamLen + len;
      newChunkCount := newChunkCount + 1;
    }

    method AddInjectedChunk(e: Entry) returns (offset: nat)
      requires Valid()
      modifies this
      ensures Valid() && offset == old(totalStreamLen) && totalStreamLen == offset + e.size
      ensures totalChunkCount == old(totalChunkCount) + 1 && injectedChunkCount == old(injectedChunkCount) + 1
      ensures reusedStreamLen == old(reusedStreamLen) + e.size
      ensures injectedStreamLen == old(injectedStreamLen) + e.size
      ensures newChunkCount == old(newChunkCount) && knownChunkCount == old(knownChunkCount)
      ensures compressedStreamLen == old(compressedStreamLen)
    {
      totalChunkCount := totalChunkCount + 1;
      injectedChunkCount := injectedChunkCount + 1;
      reusedStreamLen := reusedStreamLen + e.size;
      injectedStreamLen := injectedStreamLen + e.size;
      offset := totalStreamLen;
      totalStreamLen := totalStreamLen + e.size;
    }
  }

  // ----- injecting reused chunks

  datatype Info = Reuse(chunks: seq<Entry>) | Raw(data: seq<byte>) | Error(reason: string) | Finished

  const INPUT_FAILED := "input failed"

  function HeldInject(i: Option<Inject>): seq<Inject>
  {
    match i case None => [] case Some(x) => [x]
  }

  class InjectQueue {
    const input: Stream
    const counters: Counters
    var nextInjection: Option<Inject>
    /** Injections handed on. */
    ghost var d: nat

    ghost function Repr(): set<object>
    {
      input.Repr() + {this, counters}
    }

    /** Between the chunk stream and this queue at most one injection is on its way, and the stream
        stands exactly at its place. */
    ghost predicate OnTheWay()
      reads this, input, input.src, input.channel
    {
      var script := input.src.script;
      && d <= input.c <= |script|
      && HeldInject(nextInjection) + input.channel.queue == script[d..input.c]
      && (d < input.c ==> input.c == d + 1 && input.p == PayloadPos(script, d))
    }

    ghost predicate Valid()
      reads this, input, input.src, input.channel, input.chunker.Inner(), input.chunker.Inner().window,
            if input.chunker.Suggesting? then {input.chunker.s} else {}
    {
      input.Valid() && input.chunker.Inner().cfg.min <= input.chunker.Inner().cfg.max && OnTheWay()
    }

    /** The counters have accounted for everything handed on. */
    ghost predicate Synced()
      reads this, input, input.src, counters
      requires d <= |input.src.script|
    {
      counters.totalStreamLen == input.p + Injected(input.src.script, d)
    }

    constructor (input: Stream, counters: Counters)
      requires input.Valid() && input.p == 0 && input.c == 0 && input.channel.queue == []
      requires input.chunker.Inner().cfg.min <= input.chunker.Inner().cfg.max
      requires counters.totalStreamLen == 0
      ensures Valid() && Synced() && d == 0 && this.input == input && this.counters == counters
    {
      this.input, this.counters := input, counters;
      nextInjection := None;
      d := 0;
    }

    /** Takes the next injection and compares its place with what was handed on so far: it is due, it has to wait,
        or it comes too late, which is an error and does not occur while the counters are in step. */
    method TakeInjection() returns (r: Option<Info>)
      requires Valid()
      modifies this, input.channel
      ensures var left := old(HeldInject(nextInjection) + input.channel.queue);
              if left == [] then r.None? && nextInjection.None? && input.channel.queue == [] && d == old(d)
              else if left[0].boundary == counters.totalStreamLen then
                && r == Some(Reuse(left[0].chunks)) && d == old(d) + 1
                && HeldInject(nextInjection) + input.channel.queue == left[1..]
              else if left[0].boundary > counters.totalStreamLen then
                r.None? && nextInjection == Some(left[0]) && input.channel.queue == left[1..] && d == old(d)
              else r == Some(Error("invalid injection boundary")) && nextInjection.None?
      ensures r.None? || r.value.Reuse? ==> Valid()
      ensures old(Synced()) && r.None? ==> d == old(d) == input.c && nextInjection.None? && input.channel.queue == []
      ensures old(Synced()) && r.Some? ==>
                r.value.Reuse? && d == old(d) + 1 <= |input.src.script|
                  && r.value.chunks == input.src.script[old(d)].chunks
                  && input.p == PayloadPos(input.src.script, old(d))
    {
      hide Stream.Valid, Injected, Stream.SizeOk, NoCut, IsChunk;
      if nextInjection.None? { Fetch(); } else { OneLeft(); }
      if nextInjection.Some? {
        var inject := nextInjection.value;
        var offset := counters.totalStreamLen;
        nextInjection := None;
        if inject.boundary == offset {
          d := d + 1;
          return Some(Reuse(inject.chunks));
        } else if inject.boundary > offset {
          nextInjection := Some(inject);
        } else {
          return Some(Error("invalid injection boundary"));
        }
      }
      return None;
    }

    /** Takes an injection off the channel, if there is one. */
    method Fetch()
      requires Valid() && nextInjection.None?
      modifies this`nextInjection, input.channel
      ensures Valid() && input.channel.queue == [] && HeldInject(nextInjection) == old(input.channel.queue)
      ensures nextInjection.Some? ==> d + 1 == input.c && nextInjection.value == input.src.script[d]
      ensures nextInjection.None? ==> d == input.c
    {
      hide Stream.Valid, Injected, Stream.SizeOk, NoCut, IsChunk, PayloadPos;
      if input.channel.queue != [] {
        ghost var queue := input.channel.queue;
        nextInjection := Some(input.channel.queue[0]);
        input.channel.queue := input.channel.queue[1..];
        assert HeldInject(nextInjection) + input.channel.queue == queue;
      }
    }

    lemma OneLeft()
      requires Valid() && nextInjection.Some?
      ensures d + 1 == input.c && nextInjection.value == input.src.script[d] && input.channel.queue == []
    {
      hide Stream.Valid, PayloadPos;
      assert (HeldInject(nextInjection) + input.channel.queue)[0] == nextInjection.value;
    }

    /** Hands on the next chunk or list of reused chunks. The two errors of the queue itself,
        a misplaced and a left-over injection, do not occur. */
    method PollNext() returns (r: Info)
      requires Valid() && Synced()
      modifies input.Repr() + {this}
      ensures Valid()
      ensures r.Raw? ==>
                r.data != [] && input.p == old(input.p) + |r.data| && r.data == input.src.input[old(input.p)..input.p]
                  && d == old(d)
      ensures r.Reuse? ==> d == old(d) + 1 <= |input.src.script| && r.chunks == input.src.script[old(d)].chunks
      ensures r.Reuse? ==> input.p == old(input.p) == PayloadPos(input.src.script, old(d))
      ensures r.Finished? ==> input.p == old(input.p) == |input.src.input| && d == old(d) == |input.src.script|
      ensures r.Error? ==> r.reason == INPUT_FAILED && !Intact(old(input.src.polls))
      ensures !r.Error? ==> (Intact(input.src.polls) <==> Intact(old(input.src.polls)))
      ensures r.Finished? ==> input.src.polls == []
    {
      hide Stream.Valid, Injected, Stream.SizeOk, NoCut, IsChunk, OnTheWay, Stream.Emitted, PayloadPos, Intact;
      InScript();
      while true
        invariant Valid() && input.p == old(input.p) && d == old(d) && d <= |input.src.script|
        invariant Synced() && (Intact(input.src.polls) <==> Intact(old(input.src.polls)))
        decreases |input.src.script| - input.c
      {
        var due := TakeInjection();
        if due.Some? { return due.value; }
        AtRest();
        ghost var p0 := input.p;
        var item := input.PollNext();
        if !item.Chunk? { AtRest(); }
        match item {
          case End =>
            AtEnd(input);
            if nextInjection.Some? || input.channel.queue != [] {
              return Error("injection queue not fully consumed");
            }
            return Finished;
          case Failure => return Error(INPUT_FAILED);
          case Chunk(raw) =>
            AfterChunk(p0, raw);
            if raw != [] { return Raw(raw); }
        }
      }
    }

    lemma InScript()
      requires Valid()
      ensures d <= input.c <= |input.src.script|
    {
      hide Stream.Valid, PayloadPos;
    }

    /** With no injection on its way everything is in its place. */
    lemma AtRest()
      requires nextInjection.None? && input.channel.queue == [] && d == input.c && input.Valid()
      ensures OnTheWay() && d <= |input.src.script|
    {
      hide ChunkerImpl.Valid, Source.Valid, PayloadPos;
    }

    /** A chunk of the stream may bring one injection with it, and brings one if it is empty. */
    lemma AfterChunk(p0: nat, raw: seq<byte>)
      requires nextInjection.None? && d <= |input.src.script| && input.Emitted(p0, d, [], raw)
      requires input.Valid()
      ensures OnTheWay() && d <= input.c && input.p == p0 + |raw| <= |input.src.input|
      ensures raw == input.src.input[p0..input.p] && (raw == [] ==> input.c == d + 1)
    {
      hide ChunkerImpl.Valid, Source.Valid, PayloadPos, Stream.SizeOk, NoCut, IsChunk, Injected;
    }
  }

  /** A finished stream has handed on its whole input and every injection. */
  lemma AtEnd(s: Stream)
    requires s.Valid() && s.inputIsDone
    ensures s.p == |s.src.input| && s.c == |s.src.script|
  {
    hide ChunkerImpl.Valid, Source.Valid;
  }

  // ----- the log of everything sent, and what it has to look like

  /** What a chunk was made from: a part of the input, or a chunk of a previous snapshot. */
  datatype Content = OfData(data: seq<byte>) | OfEntry(e: Entry)

  function Elems(c: Content): seq<Elem>
  {
    match c case OfData(data) => AsElems(data) case OfEntry(e) => [Reused(e)]
  }

  /** One chunk of the archive: the index entry that is sent for it, its size, and what it was made from. */
  datatype Sent = Sent(rec: Rec, size: nat, content: Content)

  /** The index entry names the content: its digest and its size. */
  predicate Fits(digestOf: seq<byte> -> Digest, s: Sent)
  {
    match s.content
    case OfData(data) => s.rec.digest == digestOf(data) && s.size == |data|
    case OfEntry(e) => s.rec.digest == e.digest && s.size == e.size
  }

  ghost predicate Genuine(digestOf: seq<byte> -> Digest, log: seq<Sent>)
  {
    forall i :: 0 <= i < |log| ==> Fits(digestOf, log[i])
  }

  function TotalSize(log: seq<Sent>): (n: nat)
  {
    if log == [] then 0 else TotalSize(log[..|log| - 1]) + log[|log| - 1].size
  }

  /** The bytes that go into the index checksum: end offset and digest of every chunk. */
  function CsumBytes(log: seq<Sent>): (s: seq<byte>)
  {
    if log == [] then [] else
    var last := log[|log| - 1];
    CsumBytes(log[..|log| - 1]) + LeBytes(last.rec.offset + last.size, 8) + last.rec.digest
  }

  function LogElems(log: seq<Sent>): (s: seq<Elem>)
  {
    if log == [] then [] else LogElems(log[..|log| - 1]) + Elems(log[|log| - 1].content)
  }

  /** Every chunk starts where the one before ends. */
  predicate Contiguous(log: seq<Sent>)
  {
    log != [] ==> Contiguous(log[..|log| - 1]) && log[|log| - 1].rec.offset == TotalSize(log[..|log| - 1])
  }

  /** The batches name exactly the chunks of the log. */
  ghost predicate Names(atoms: seq<Atom>, log: seq<Sent>)
  {
    && |atoms| == |log|
    && (forall i :: 0 <= i < |log| ==> atoms[i].rec == log[i].rec)
    && (forall i :: 0 <= i < |log| && atoms[i].NewAtom? ==> atoms[i].len == log[i].size)
  }

  ghost predicate NewBefore(atoms: seq<Atom>, i: nat, digest: Digest)
    requires i <= |atoms|
  {
    exists j :: 0 <= j < i && atoms[j].NewAtom? && atoms[j].rec.digest == digest
  }

  /** A chunk is referenced without being uploaded only if it was known from the start or is
      uploaded earlier in the stream. */
  ghost predicate Available(base: set<Digest>, atoms: seq<Atom>)
  {
    forall i :: 0 <= i < |atoms| && atoms[i].KnownAtom? ==>
      atoms[i].rec.digest in base || NewBefore(atoms, i, atoms[i].rec.digest)
  }

  /** The lengths recorded in the log are those that belong to the digests. */
  ghost predicate Lengths(log: seq<Sent>, length: Digest -> nat)
  {
    forall i :: 0 <= i < |log| ==> log[i].size == length(log[i].rec.digest)
  }

  /** A digest tells the length of the data it was computed from: no two parts of the input that
      differ in length collide. */
  ghost predicate LengthOf(digestOf: seq<byte> -> Digest, length: Digest -> nat, input: seq<byte>)
  {
    forall i, j :: 0 <= i <= j <= |input| ==> length(digestOf(input[i..j])) == j - i
  }

  /** What the client takes for known is known to the server or on its way there. */
  ghost predicate Covers(base: set<Digest>, atoms: seq<Atom>, known: set<Digest>)
  {
    forall d :: d in known ==> d in base || NewBefore(atoms, |atoms|, d)
  }

  lemma LogSnoc(log: seq<Sent>, s: Sent)
    requires Contiguous(log) && s.rec.offset == TotalSize(log)
    ensures Contiguous(log + [s]) && TotalSize(log + [s]) == TotalSize(log) + s.size
    ensures CsumBytes(log + [s]) == CsumBytes(log) + LeBytes(s.rec.offset + s.size, 8) + s.rec.digest
    ensures LogElems(log + [s]) == LogElems(log) + Elems(s.content)
  {
    hide LeBytes;
    assert (log + [s])[..|log|] == log;
  }

  lemma AvailableSnoc(base: set<Digest>, atoms: seq<Atom>, a: Atom)
    requires Available(base, atoms)
    requires a.KnownAtom? ==> a.rec.digest in base || NewBefore(atoms, |atoms|, a.rec.digest)
    ensures Available(base, atoms + [a])
    ensures forall known :: Covers(base, atoms, known) ==> Covers(base, atoms + [a], known)
    ensures forall known :: Covers(base, atoms, known) && a.NewAtom? ==>
              Covers(base, atoms + [a], known + {a.rec.digest})
  {
    var more := atoms + [a];
    forall i | 0 <= i < |more| && more[i].KnownAtom?
      ensures more[i].rec.digest in base || NewBefore(more, i, more[i].rec.digest)
    {
      if i < |atoms| && atoms[i].rec.digest !in base {
        var j :| 0 <= j < i && atoms[j].NewAtom? && atoms[j].rec.digest == atoms[i].rec.digest;
        assert more[j] == atoms[j];
      } else if i == |atoms| && a.rec.digest !in base {
        var j :| 0 <= j < i && atoms[j].NewAtom? && atoms[j].rec.digest == a.rec.digest;
        assert more[j] == atoms[j];
      }
    }
    forall d | NewBefore(atoms, |atoms|, d) ensures NewBefore(more, |more|, d) {
      var j :| 0 <= j < |atoms| && atoms[j].NewAtom? && atoms[j].rec.digest == d;
      assert more[j] == atoms[j];
    }
    assert more[|atoms|] == a;
  }

  lemma NothingSent()
    ensures ListAtoms([]) == [] && Entries([]) == [] && SizeOf([]) == 0
  {
  }

  lemma OneMore(known: seq<Rec>, rec: Rec, chunks: seq<Entry>, i: nat)
    requires i < |chunks|
    ensures ListAtoms(known + [rec]) == ListAtoms(known) + [KnownAtom(rec)]
    ensures Entries(chunks[..i + 1]) == Entries(chunks[..i]) + [Reused(chunks[i])]
    ensures SizeOf(chunks[..i + 1]) == SizeOf(chunks[..i]) + chunks[i].size
  {
    assert chunks[..i + 1] == chunks[..i] + [chunks[i]];
    assert chunks[..i + 1][..i] == chunks[..i];
  }

  // ----- turning chunks into batches

  class Uploader {
    const counters: Counters
    /** The digest function, and the length that belongs to a digest. */
    const digestOf: seq<byte> -> Digest
    /** The size of an encoded chunk; encoding may fail. */
    const build: seq<byte> -> Option<nat>
    ghost const length: Digest -> nat
    /** Chunks the server knows from the previous backup, injected ones included. */
    ghost const base: set<Digest>
    /** The payload that the chunks are cut from. */
    ghost const input: seq<byte>
    var knownChunks: set<Digest>
    var csum: seq<byte>
    ghost var log: seq<Sent>
    ghost var atoms: seq<Atom>

    ghost predicate Valid()
      reads this, counters
    {
      && counters.Valid()
      && Contiguous(log) && Names(atoms, log) && Available(base, atoms) && Lengths(log, length)
      && Genuine(digestOf, log)
      && counters.totalStreamLen == TotalSize(log) && counters.totalChunkCount == |log|
      && csum == CsumBytes(log)
      && Covers(base, atoms, knownChunks) && LengthOf(digestOf, length, input)
    }

    constructor (counters: Counters, digestOf: seq<byte> -> Digest, build: seq<byte> -> Option<nat>,
                 ghost length: Digest -> nat, ghost base: set<Digest>, ghost input: seq<byte>, known: set<Digest>)
      requires counters.Valid() && counters.totalStreamLen == 0 && counters.totalChunkCount == 0
      requires known <= base && LengthOf(digestOf, length, input)
      ensures Valid() && log == [] && atoms == [] && this.counters == counters
      ensures this.base == base && this.length == length && this.digestOf == digestOf && this.input == input
      ensures this.build == build
    {
      this.counters, this.digestOf, this.build := counters, digestOf, build;
      this.length, this.base, this.input := length, base, input;
      knownChunks, csum, log, atoms := known, [], [], [];
    }

    /** Books one chunk in the log. */
    ghost method Record(s: Sent, a: Atom)
      requires Contiguous(log) && Names(atoms, log) && Available(base, atoms) && Lengths(log, length)
      requires Genuine(digestOf, log) && Fits(digestOf, s)
      requires s.rec.offset == TotalSize(log) && s.size == length(s.rec.digest)
      requires a.rec == s.rec && (a.NewAtom? ==> a.len == s.size)
      requires a.KnownAtom? ==> a.rec.digest in base || NewBefore(atoms, |atoms|, a.rec.digest)
      modifies this`log, this`atoms
      ensures log == old(log) + [s] && atoms == old(atoms) + [a]
      ensures Contiguous(log) && Names(atoms, log) && Available(base, atoms) && Lengths(log, length)
      ensures Genuine(digestOf, log)
      ensures TotalSize(log) == TotalSize(old(log)) + s.size && LogElems(log) == LogElems(old(log)) + Elems(s.content)
      ensures CsumBytes(log) == CsumBytes(old(log)) + LeBytes(s.rec.offset + s.size, 8) + s.rec.digest
      ensures Covers(base, old(atoms), knownChunks) ==> Covers(base, atoms, knownChunks)
      ensures Covers(base, old(atoms), knownChunks) && a.NewAtom? ==> Covers(base, atoms, knownChunks + {a.rec.digest})
    {
      hide Contiguous, TotalSize, CsumBytes, LogElems, LeBytes, Available, NewBefore, Covers;
      LogSnoc(log, s);
      AvailableSnoc(base, atoms, a);
      log, atoms := log + [s], atoms + [a];
    }

    /** Accounts for one reused chunk. */
    method SendEntry(e: Entry) returns (rec: Rec)
      requires Valid() && e.digest in base && e.size == length(e.digest)
      modifies this, counters
      ensures Valid() && atoms == old(atoms) + [KnownAtom(rec)]
      ensures rec == Rec(TotalSize(old(log)), e.digest) && log == old(log) + [Sent(rec, e.size, OfEntry(e))]
      ensures LogElems(log) == LogElems(old(log)) + [Reused(e)] && TotalSize(log) == TotalSize(old(log)) + e.size
    {
      hide Contiguous, TotalSize, CsumBytes, LogElems, LeBytes, Available, NewBefore, Names, Lengths, Covers,
        LengthOf, Genuine;
      var offset := counters.AddInjectedChunk(e);
      rec := Rec(offset, e.digest);
      csum := csum + LeBytes(offset + e.size, 8);
      csum := csum + e.digest;
      Record(Sent(rec, e.size, OfEntry(e)), KnownAtom(rec));
    }

    /** Accounts for reused chunks. */
    method SendReused(chunks: seq<Entry>) returns (m: Merged)
      requires Valid()
      requires forall i :: 0 <= i < |chunks| ==> chunks[i].digest in base && chunks[i].size == length(chunks[i].digest)
      modifies this, counters
      ensures Valid() && m.Known?
      ensures |m.list| == |chunks| && forall i :: 0 <= i < |chunks| ==> m.list[i].digest == chunks[i].digest
      ensures atoms == old(atoms) + ItemAtoms(m)
      ensures LogElems(log) == LogElems(old(log)) + Entries(chunks)
      ensures TotalSize(log) == TotalSize(old(log)) + SizeOf(chunks)
    {
      hide Valid, TotalSize, LogElems, ListAtoms, Entries, SizeOf;
      var known: seq<Rec> := [];
      NothingSent();
      assert chunks[..0] == [];
      for i := 0 to |chunks|
        invariant Valid()
        invariant |known| == i && forall k :: 0 <= k < i ==> known[k].digest == chunks[k].digest
        invariant atoms == old(atoms) + ListAtoms(known)
        invariant LogElems(log) == LogElems(old(log)) + Entries(chunks[..i])
        invariant TotalSize(log) == TotalSize(old(log)) + SizeOf(chunks[..i])
      {
        var rec := SendEntry(chunks[i]);
        OneMore(known, rec, chunks, i);
        known := known + [rec];
      }
      assert chunks[..|chunks|] == chunks;
      m := Known(known);
    }

    /** Accounts for a chunk of payload: known if its digest is, otherwise new. Building a new one may
        fail. */
    method SendRaw(data: seq<byte>, ghost p: nat, ghost p': nat) returns (r: Option<Merged>)
      requires Valid() && p <= p' <= |input| && data == input[p..p']
      modifies this, counters
      ensures r.None? <==> digestOf(data) !in old(knownChunks) && build(data).None?
      ensures r.Some? ==> Valid() && atoms == old(atoms) + ItemAtoms(r.value)
      ensures r.Some? ==> LogElems(log) == LogElems(old(log)) + AsElems(data)
      ensures r.Some? ==> TotalSize(log) == TotalSize(old(log)) + |data|
      ensures var rec := Rec(TotalSize(old(log)), digestOf(data));
              r.Some? ==> && log == old(log) + [Sent(rec, |data|, OfData(data))]
                          && r.value == if rec.digest in old(knownChunks) then Known([rec]) else New(rec, |data|)
      ensures r.Some? ==>
                if r.value.Known? then
                  && counters.knownChunkCount == old(counters.knownChunkCount) + 1 && knownChunks == old(knownChunks)
                  && counters.reusedStreamLen == old(counters.reusedStreamLen) + |data|
                else
                  && counters.newChunkCount == old(counters.newChunkCount) + 1 && build(data).Some?
                  && counters.compressedStreamLen == old(counters.compressedStreamLen) + build(data).value
                  && knownChunks == old(knownChunks) + {digestOf(data)}
    {
      hide Contiguous, TotalSize, CsumBytes, LogElems, LeBytes, Available, NewBefore, Names, Lengths, AsElems, Covers,
        LengthOf, ListAtoms, Genuine;
      var digest := digestOf(data);
      UseLength(digestOf, length, input, p, p');
      var offset;
      ghost var a;
      if digest in knownChunks {
        UseCovers(base, atoms, knownChunks, digest);
        offset := counters.AddKnownChunk(|data|);
        var rec := Rec(offset, digest);
        r := Some(Known([rec]));
        a := KnownAtom(rec);
        OneAtom(rec);
      } else {
        var built := build(data);
        if built.None? { return None; }
        offset := counters.AddNewChunk(|data|, built.value);
        var rec := Rec(offset, digest);
        r := Some(New(rec, |data|));
        a := NewAtom(rec, |data|);
      }
      Record(Sent(Rec(offset, digest), |data|, OfData(data)), a);
      if r.value.New? { knownChunks := knownChunks + {digest}; }
      csum := csum + LeBytes(offset + |data|, 8);
      csum := csum + digest;
    }
  }

  lemma UseLength(digestOf: seq<byte> -> Digest, length: Digest -> nat, input: seq<byte>, i: nat, j: nat)
    requires LengthOf(digestOf, length, input) && i <= j <= |input|
    ensures length(digestOf(input[i..j])) == |input[i..j]|
  {
  }

  lemma UseCovers(base: set<Digest>, atoms: seq<Atom>, known: set<Digest>, d: Digest)
    requires Covers(base, atoms, known) && d in known
    ensures d in base || NewBefore(atoms, |atoms|, d)
  {
  }

  lemma OneAtom(rec: Rec)
    ensures ListAtoms([rec]) == [KnownAtom(rec)]
  {
  }

  /** Every reused chunk is known to the server, with the length that belongs to its digest. */
  ghost predicate ScriptKnown(script: seq<Inject>, base: set<Digest>, length: Digest -> nat)
  {
    forall j, i :: 0 <= j < |script| && 0 <= i < |script[j].chunks| ==>
      script[j].chunks[i].digest in base && script[j].chunks[i].size == length(script[j].chunks[i].digest)
  }

  /** What is handed on next fits onto what was handed on before. */
  ghost predicate Progress(q: InjectQueue, up: Uploader)
    requires q.Valid()
    reads q, q.input, q.input.src, q.input.channel, q.input.chunker.Inner(), q.input.chunker.Inner().window, up,
          if q.input.chunker.Suggesting? then {q.input.chunker.s} else {}
  {
    QueuePlace(q);
    var input, script := q.input.src.input, q.input.src.script;
    LogElems(up.log) + Splice(input, script, q.input.p, q.d) == Splice(input, script, 0, 0)
  }

  lemma QueuePlace(q: InjectQueue)
    requires q.Valid()
    ensures var input, script := q.input.src.input, q.input.src.script;
            && Orderly(script, |input|) && q.input.p <= |input| && q.d <= |script|
            && (q.d < |script| ==> q.input.p <= PayloadPos(script, q.d))
            && (|script| > 0 ==> 0 <= PayloadPos(script, 0))
  {
    hide ChunkerImpl.Valid, Injected;
    QBound(q.input.src.input, q.input.src.script, 0);
  }

  /** One reused list was handed on and accounted for. */
  lemma AfterReuse(input: seq<byte>, script: seq<Inject>, d: nat, before: seq<Elem>, after: seq<Elem>)
    requires Orderly(script, |input|) && d < |script|
    requires after == before + Entries(script[d].chunks)
    ensures 0 <= PayloadPos(script, d) < |input|
            && (d + 1 < |script| ==> PayloadPos(script, d) <= PayloadPos(script, d + 1))
    ensures before + Splice(input, script, PayloadPos(script, d), d)
            == after + Splice(input, script, PayloadPos(script, d), d + 1)
    ensures Injected(script, d + 1) == Injected(script, d) + SizeOf(script[d].chunks)
  {
    hide Orderly, PayloadPos, Splice, Entries;
    SpliceInject(input, script, d);
    SizeMatches(input, script, d);
    Assoc(before, Entries(script[d].chunks), Splice(input, script, PayloadPos(script, d), d + 1));
  }

  lemma SizeMatches(input: seq<byte>, script: seq<Inject>, d: nat)
    requires Orderly(script, |input|) && d < |script|
    ensures script[d].size == SizeOf(script[d].chunks)
  {
  }

  lemma AfterRaw(input: seq<byte>, script: seq<Inject>, p: nat, p': nat, d: nat, before: seq<Elem>, after: seq<Elem>)
    requires Orderly(script, |input|) && p <= p' <= |input| && d <= |script|
             && (d < |script| ==> p' <= PayloadPos(script, d))
    requires after == before + AsElems(input[p..p'])
    ensures before + Splice(input, script, p, d) == after + Splice(input, script, p', d)
  {
    hide Orderly, PayloadPos, Splice, AsElems;
    SplicePayload(input, script, p, p', d);
    Assoc(before, AsElems(input[p..p']), Splice(input, script, p', d));
  }

  lemma AfterAll(input: seq<byte>, script: seq<Inject>, elems: seq<Elem>)
    requires Orderly(script, |input|)
    ensures elems + Splice(input, script, |input|, |script|) == elems
  {
    assert input[|input|..] == [];
  }

  /** Runs the pipeline from the producer to the batches. If nothing fails on the way, the chunks
      sent are exactly the input with every injection at its offset: no byte lost, none sent twice,
      nothing out of place; the counters, the offsets and the running checksum agree with them. */
  method Produce(q: InjectQueue, up: Uploader) returns (ok: bool, items: seq<Merged>)
    requires q.Valid() && q.d == 0 && q.input.p == 0 && q.Synced()
    requires up.Valid() && up.counters == q.counters && up.log == [] && up.atoms == [] && up.input == q.input.src.input
    requires ScriptKnown(q.input.src.script, up.base, up.length)
    modifies q.Repr(), up
    ensures q.Valid()
    ensures ok ==> up.Valid() && Atoms(items) == up.atoms
    ensures ok ==> q.d == |q.input.src.script| && q.input.p == |q.input.src.input|
    ensures Orderly(q.input.src.script, |q.input.src.input|)
    ensures |q.input.src.script| > 0 ==> 0 <= PayloadPos(q.input.src.script, 0)
    ensures ok ==> LogElems(up.log) == Splice(q.input.src.input, q.input.src.script, 0, 0)
    ensures ok ==> TotalSize(up.log) == |q.input.src.input| + Injected(q.input.src.script, |q.input.src.script|)
    ensures ok ==> Intact(old(q.input.src.polls))
    ensures Intact(old(q.input.src.polls)) && AllBuild(up.build, q.input.src.input) ==> ok
  {
    hide Orderly, PayloadPos, Splice, AsElems, Entries, LogElems, Injected, ItemAtoms, Uploader.Valid,
      InjectQueue.OnTheWay, Stream.Valid, ScriptKnown, TotalSize, CsumBytes, AllBuild, Intact, ChunkerImpl.Valid,
      SizeOf;
    items := [];
    ghost var input, script := q.input.src.input, q.input.src.script;
    QueuePlace(q);
    NothingLogged(Splice(input, script, 0, 0));
    while true
      invariant q.Valid() && q.d <= |q.input.src.script| && q.Synced() && up.Valid()
      invariant Atoms(items) == up.atoms
      invariant Progress(q, up)
      invariant Intact(q.input.src.polls) <==> Intact(old(q.input.src.polls))
      decreases |input| - q.input.p + |script| - q.d
    {
      QueuePlace(q);
      ghost var p0, d0, elems0 := q.input.p, q.d, LogElems(up.log);
      SyncedSize(q, up);
      var info := q.PollNext();
      QueuePlace(q);
      match info {
        case Error(_) => return false, items;
        case Finished =>
          AfterAll(input, script, LogElems(up.log));
          SyncedSize(q, up);
          NothingBroken();
          return true, items;
        case Reuse(chunks) =>
          EntriesKnown(script, up.base, up.length, d0);
          var m := up.SendReused(chunks);
          AfterReuse(input, script, d0, elems0, LogElems(up.log));
          SyncedSize(q, up);
          AtomsAppend(items, [m]);
          AtomsOne(m);
          items := items + [m];
        case Raw(data) =>
          var m := up.SendRaw(data, p0, q.input.p);
          if m.None? {
            UseBuild(up.build, input, p0, q.input.p);
            return false, items;
          }
          AfterRaw(input, script, p0, q.input.p, d0, elems0, LogElems(up.log));
          SyncedSize(q, up);
          AtomsAppend(items, [m.value]);
          AtomsOne(m.value);
          items := items + [m.value];
      }
    }
  }

  /** Every part of the input can be encoded. */
  ghost predicate AllBuild(build: seq<byte> -> Option<nat>, input: seq<byte>)
  {
    forall i, j :: 0 <= i <= j <= |input| ==> build(input[i..j]).Some?
  }

  lemma UseBuild(build: seq<byte> -> Option<nat>, input: seq<byte>, i: nat, j: nat)
    requires i <= j <= |input| && build(input[i..j]).None?
    ensures !AllBuild(build, input)
  {
  }

  lemma SyncedSize(q: InjectQueue, up: Uploader)
    requires up.Valid() && up.counters == q.counters
    ensures q.counters.totalStreamLen == TotalSize(up.log)
  {
  }

  lemma EntriesKnown(script: seq<Inject>, base: set<Digest>, length: Digest -> nat, d: nat)
    requires ScriptKnown(script, base, length) && d < |script|
    ensures forall i :: 0 <= i < |script[d].chunks| ==>
              script[d].chunks[i].digest in base && script[d].chunks[i].size == length(script[d].chunks[i].digest)
  {
  }

  lemma NothingLogged(s: seq<Elem>)
    ensures LogElems([]) + s == s
  {
  }

  /** A new chunker of either kind. */
  method NewChunker(avg: nat, table: Table, suggesting: bool) returns (chunker: AnyChunker)
    requires PowerOfTwo(avg)
    ensures chunker.Inner().Valid() && chunker.Inner().fed == [] && chunker.Inner().cfg == ConfigOf(avg, table)
    ensures fresh(chunker.Inner()) && fresh(chunker.Inner().window) && (chunker.Suggesting? ==> fresh(chunker.s))
    ensures (chunker.Suggesting? <==> suggesting) && (suggesting ==> chunker.s.Pending() == [])
  {
    hide ConfigOf, ChunkerImpl.Valid;
    if suggesting {
      var payload := new PayloadChunker(avg, table);
      return Suggesting(payload);
    }
    var plain := new ChunkerImpl(avg, table);
    return Plain(plain);
  }

  /** A new queue over a new stream, with new counters. */
  method NewQueue(polls: seq<Poll>, injections: seq<Inject>, avg: nat, table: Table, suggesting: bool)
    returns (queue: InjectQueue)
    requires PowerOfTwo(avg) && Orderly(injections, |Gathered(polls)|)
    ensures fresh(queue.Repr()) && queue.Valid() && queue.d == 0 && queue.input.p == 0 && queue.Synced()
    ensures queue.input.src.input == Gathered(polls) && queue.input.src.script == injections
    ensures queue.input.src.polls == polls
    ensures queue.counters.Valid() && queue.counters.totalStreamLen == 0 && queue.counters.totalChunkCount == 0
  {
    hide Orderly, PayloadPos, Injected, Gathered, ConfigOf, ChunkerImpl.Valid, Source.Valid, Stream.Valid,
      InjectQueue.OnTheWay;
    var src := new Source(polls, injections);
    var counters := new Counters();
    var chunker := NewChunker(avg, table, suggesting);
    var channel := new Channel();
    var stream := new Stream(src, chunker, channel);
    queue := new InjectQueue(stream, counters);
  }

  /** The whole pipeline, from nothing: source, chunker, stream, counters, queue and uploader are made and run.
      What is sent is the input with every injection at its offset; the run succeeds if the input does not
      fail and every part of it can be encoded. */
  method BackUp(polls: seq<Poll>, injections: seq<Inject>, avg: nat, table: Table, suggesting: bool,
                digestOf: seq<byte> -> Digest, build: seq<byte> -> Option<nat>,
                ghost length: Digest -> nat, ghost base: set<Digest>, known: set<Digest>)
    returns (ok: bool, items: seq<Merged>, up: Uploader)
    requires PowerOfTwo(avg) && Orderly(injections, |Gathered(polls)|) && known <= base
    requires LengthOf(digestOf, length, Gathered(polls)) && ScriptKnown(injections, base, length)
    ensures fresh(up) && up.base == base && up.length == length && up.digestOf == digestOf
    ensures |injections| > 0 ==> 0 <= PayloadPos(injections, 0)
    ensures ok ==> up.Valid() && Atoms(items) == up.atoms
    ensures ok ==> LogElems(up.log) == Splice(Gathered(polls), injections, 0, 0)
    ensures ok ==> TotalSize(up.log) == |Gathered(polls)| + Injected(injections, |injections|)
    ensures ok ==> Intact(polls)
    ensures Intact(polls) && AllBuild(build, Gathered(polls)) ==> ok
  {
    hide Orderly, PayloadPos, Splice, LogElems, Injected, ScriptKnown, TotalSize, AllBuild, Intact, LengthOf, Gathered,
      ConfigOf, ChunkerImpl.Valid, Source.Valid, Stream.Valid, InjectQueue.OnTheWay, Contiguous, Names, Available,
      Lengths, Genuine, CsumBytes, Covers;
    var queue := NewQueue(polls, injections, avg, table, suggesting);
    up := new Uploader(queue.counters, digestOf, build, length, base, queue.input.src.input, known);
    ok, items := Produce(queue, up);
  }
}
