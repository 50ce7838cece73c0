/** Splitting a payload stream into chunks at hash boundaries, suggested boundaries and forced ones. */
module ChunkStream {
  import opened Bytes
  import opened Chunker
  import opened Buzhash
  import opened Injection

  /** A stream owns one of the two chunkers. */
  datatype AnyChunker = Plain(c: ChunkerImpl) | Suggesting(s: PayloadChunker) {
    function Inner(): ChunkerImpl
    {
      match this case Plain(c) => c case Suggesting(s) => s.chunker
    }
  }

  ghost predicate AllIn(list: seq<nat>, all: set<nat>)
  {
    forall i :: 0 <= i < |list| ==> list[i] in all
  }

  lemma AllInMore(list: seq<nat>, all: set<nat>, x: nat)
    requires AllIn(list, all)
    ensures AllIn(list + [x], all + {x})
  {
  }

  lemma AllInSlices(list: seq<nat>, all: set<nat>)
    requires AllIn(list, all)
    ensures forall n :: 0 <= n <= |list| ==> AllIn(list[n..], all)
    ensures forall x :: x in list ==> x in all
  {
  }

  lemma ReachFits(e: Extent, cfg: Config, list: seq<nat>)
    ensures InReach(e, cfg, list) ==> Skipped(e, cfg.min, list) < |list|
  {
  }

  datatype Item = Chunk(data: seq<byte>) | Failure | End

  class Stream {
    const src: Source
    const chunker: AnyChunker
    const channel: Channel
    var inputIsDone: bool
    var buffer: seq<byte>
    var scanPos: nat
    var consumed: nat
    var nextBoundary: Option<Inject>
    /** How many injections were taken from the producer. */
    var received: nat
    /** Gathered bytes and injections already handed on. */
    ghost var p: nat
    ghost var c: nat
    /** Every boundary that was ever suggested, as an offset in the archive. */
    ghost var offered: set<nat>

    ghost function Repr(): set<object>
    {
      {this, src, channel, chunker.Inner(), chunker.Inner().window}
      + (if chunker.Suggesting? then {chunker.s} else {})
    }

    ghost predicate Valid()
      reads this, src, chunker.Inner(), chunker.Inner().window, if chunker.Suggesting? then {chunker.s} else {}
    {
      && src.Valid() && chunker.Inner().Valid()
      && Position() && Offsets() && Scanned() && Offered()
    }

    /** What is pending was suggested. */
    ghost predicate Offered()
      reads this, if chunker.Suggesting? then {chunker.s} else {}
    {
      chunker.Suggesting? ==> AllIn(chunker.s.Pending(), offered)
    }

    /** The buffer is the part of the input that was read and not yet handed on. */
    ghost predicate Position()
      reads this, src
    {
      p + |buffer| == src.yielded <= |src.input| && buffer == src.input[p..p + |buffer|]
    }

    /** The stream's archive offset, and the one injection that may be waiting for its place. */
    ghost predicate Offsets()
      reads this, src
    {
      && c <= received <= src.announced <= |src.script|
      && (match nextBoundary case None => received == c case Some(i) => received == c + 1 && i == src.script[c])
      && (c < |src.script| ==> p <= PayloadPos(src.script, c))
      && (if inputIsDone then buffer == [] && p == |src.input| && c == |src.script| && src.polls == []
          else consumed == p + Injected(src.script, c))
    }

    /** Until the end, the inner chunker has seen exactly the scanned part of the buffer. */
    ghost predicate Scanned()
      reads this, chunker.Inner()
    {
      if inputIsDone then scanPos == 0
      else scanPos <= |buffer| && chunker.Inner().fed == buffer[..scanPos]
    }

    constructor (src: Source, chunker: AnyChunker, channel: Channel)
      requires src.Valid() && src.yielded == 0 && channel.queue == []
      requires chunker.Inner().Valid() && chunker.Inner().fed == []
      requires chunker.Suggesting? ==> chunker.s.Pending() == []
      ensures Valid() && offered == {} && p == 0 && c == 0 && !inputIsDone
      ensures this.src == src && this.chunker == chunker && this.channel == channel
    {
      this.src, this.chunker, this.channel := src, chunker, channel;
      inputIsDone, buffer, scanPos, consumed, nextBoundary, received := false, [], 0, 0, None, 0;
      p, c, offered := 0, 0, {};
      new;
      StartInOrder();
    }

    lemma StartInOrder()
      requires src.Valid()
      ensures |src.script| > 0 ==> 0 <= PayloadPos(src.script, 0)
    {
    }

    /** What other threads do between two steps: announce injections, suggest boundaries. */
    method Environment()
      requires Valid()
      modifies src`announced, this`offered, if chunker.Suggesting? then {chunker.s} else {}
      ensures Valid() && old(src.announced) <= src.announced
    {
      hide ChunkerImpl.Valid, Orderly, PayloadPos, Injected, NoCut, Hash, Window, Gathered, ChunkerImpl.Ring, AllIn,
        PayloadChunker.Pending;
      src.Tick();
      if chunker.Suggesting? {
        var more: seq<nat> := *;
        for i := 0 to |more|
          invariant Valid() && src.announced >= old(src.announced)
        {
          Suggest(more[i]);
        }
      }
    }

    /** A boundary is suggested. */
    method Suggest(boundary: nat)
      requires Valid() && chunker.Suggesting?
      modifies this`offered, chunker.s
      ensures Valid() && chunker.s.Pending() == old(chunker.s.Pending()) + [boundary]
      ensures offered == old(offered) + {boundary}
    {
      hide ChunkerImpl.Valid, Orderly, PayloadPos, Injected, NoCut, Hash, Window, Gathered, ChunkerImpl.Ring,
        Source.Valid, AllIn;
      AllInMore(chunker.s.Pending(), offered, boundary);
      ghost var list := chunker.s.Pending();
      chunker.s.suggestedBoundaries := chunker.s.suggestedBoundaries + [boundary];
      assert chunker.s.Pending() == list + [boundary];
      offered := offered + {boundary};
    }

    /** The chunk of the first `n` bytes in the buffer ends at a suggested boundary and is neither too small nor
        too big. */
    ghost predicate Suggested(n: nat)
      reads this, chunker.Inner()
    {
      chunker.Suggesting? && chunker.Inner().cfg.min <= n <= chunker.Inner().cfg.max && consumed + n in offered
    }

    /** Scans the unscanned part of the buffer. */
    method Scan() returns (k: nat)
      requires Valid() && !inputIsDone
      modifies chunker.Inner(), chunker.Inner().window, if chunker.Suggesting? then {chunker.s} else {}
      ensures chunker.Inner().Valid()
      ensures k == 0 ==> chunker.Inner().fed == buffer
      ensures k > 0 ==> chunker.Inner().fed == [] && scanPos + k <= |buffer|
      ensures k > 0 ==> IsChunk(chunker.Inner().cfg, buffer[..scanPos + k]) || Suggested(scanPos + k)
      ensures Offered()
      ensures chunker.Suggesting? ==>
                var e, cfg, list := Extent(consumed, scanPos, |buffer|), chunker.Inner().cfg, old(chunker.s.Pending());
                if Wins(e, cfg, list) then k > 0 && consumed + scanPos + k == list[Skipped(e, cfg.min, list)]
                else FirstCut(cfg, buffer) == if k == 0 then 0 else scanPos + k
    {
      hide ChunkerImpl.Valid, Orderly, IsChunk, FirstCut, PayloadPos, Injected, NoCut, Hash, Window, Gathered,
        ChunkerImpl.Ring, Source.Valid, Position, Offsets, Skipped, InReach, Wins, PayloadChunker.Pending, AllIn;
      var data := buffer[scanPos..];
      ghost var cfg := chunker.Inner().cfg;
      match chunker {
        case Plain(c) => k := c.Scan(data);
        case Suggesting(s) => k := s.Scan(data, consumed, |buffer|);
      }
      assert buffer[..scanPos] + data == buffer;
      assert k > 0 ==> buffer[..scanPos] + data[..k] == buffer[..scanPos + k];
      if chunker.Suggesting? {
        AllInSlices(old(chunker.s.Pending()), offered);
        ReachFits(Extent(consumed, scanPos, |buffer|), cfg, old(chunker.s.Pending()));
      }
    }

    /** Takes the next announced injection if none is waiting. */
    method Receive()
      requires Valid()
      modifies this`nextBoundary, this`received
      ensures Valid()
      ensures nextBoundary.None? ==> received == src.announced
      ensures old(inputIsDone) ==> nextBoundary.None?
    {
      hide AllIn, PayloadChunker.Pending, ChunkerImpl.Valid, Orderly, PayloadPos, Injected, NoCut, Hash, Window,
        Gathered, ChunkerImpl.Ring,
        Source.InTime;
      if nextBoundary.None? && received < src.announced {
        nextBoundary := Some(src.script[received]);
        received := received + 1;
      }
    }

    /** Splits `n` bytes off the front of the buffer. */
    method SplitOff(n: nat) returns (raw: seq<byte>)
      requires Position() && n <= |buffer|
      modifies this`buffer, this`scanPos, this`p
      ensures Position() && p == old(p) + n && scanPos == 0
      ensures raw == old(buffer)[..n] == src.input[old(p)..p] && buffer == old(buffer)[n..]
    {
      raw := buffer[..n];
      assert raw == src.input[p..p + n];
      assert buffer[n..] == src.input[p + n..p + |buffer|];
      buffer, scanPos, p := buffer[n..], 0, p + n;
    }

    /** Every emitted chunk is within the maximum, and above the minimum unless it was forced or
        is the last one. */
    ghost predicate SizeOk(data: seq<byte>, forced: bool, last: bool)
    {
      var cfg := chunker.Inner().cfg;
      && (cfg.max > 64 ==> |data| <= cfg.max)
      && (!forced && !last ==> cfg.min <= |data|)
    }

    /** A forced boundary: the waiting injection's place lies in the buffer, before the next other
        boundary. */
    method Force(inject: Inject) returns (raw: seq<byte>)
      requires src.Valid() && chunker.Inner().Valid() && Position() && Offsets() && Offered() && !inputIsDone
      requires nextBoundary == Some(inject) && inject.boundary <= consumed + |buffer|
      modifies this, channel, chunker.Inner()
      ensures Valid() && !inputIsDone && offered == old(offered)
      ensures p == old(p) + |raw| && raw == src.input[old(p)..p] && raw <= old(buffer)
      ensures |raw| == inject.boundary - old(consumed)
      ensures c == old(c) + 1 && p == PayloadPos(src.script, old(c))
      ensures channel.queue == old(channel.queue) + [src.script[old(c)]]
    {
      hide AllIn, PayloadChunker.Pending, Orderly, NoCut, IsChunk, Hash, Window, Gathered, ChunkerImpl.Ring,
        Source.InTime, ChunkerImpl.Valid;
      QBound(src.input, src.script, c);
      var chunkSize := inject.boundary - consumed;
      raw := SplitOff(chunkSize);
      chunker.Inner().Reset();
      consumed := consumed + chunkSize;
      consumed := consumed + inject.size;
      channel.queue := channel.queue + [inject];
      nextBoundary := None;
      c := c + 1;
    }

    /** A hash or suggested boundary `n` bytes into the buffer, not past a waiting injection. */
    method Cut(n: nat) returns (raw: seq<byte>)
      requires src.Valid() && chunker.Inner().Valid() && Position() && Offsets() && Offered() && !inputIsDone
      requires chunker.Inner().fed == [] && 0 < n <= |buffer|
      requires c < |src.script| ==> p + n <= PayloadPos(src.script, c)
      modifies this
      ensures Valid() && !inputIsDone && c == old(c) && offered == old(offered)
      ensures p == old(p) + n && raw == old(buffer)[..n] == src.input[old(p)..p] && consumed == old(consumed) + n
    {
      hide AllIn, PayloadChunker.Pending, ChunkerImpl.Valid, Orderly, NoCut, Hash, Window, Gathered, ChunkerImpl.Ring,
        Source.InTime;
      raw := SplitOff(n);
      consumed := consumed + n;
    }

    /** With no boundary found, everything read so far is one growing chunk below the maximum. */
    lemma GrowingChunk()
      requires chunker.Inner().Valid() && chunker.Inner().fed == buffer
      ensures NoCut(chunker.Inner().cfg, buffer)
      ensures chunker.Inner().cfg.max > 64 ==> |buffer| < chunker.Inner().cfg.max
    {
      hide NoCut, Hash, Window;
      if chunker.Inner().cfg.max > 64 { NoCutBound(chunker.Inner().cfg, buffer); }
    }

    /** A boundary found by the scan lies between the bounds. */
    lemma FoundBounds(n: nat)
      requires n <= |buffer| && chunker.Inner().cfg.min <= chunker.Inner().cfg.max
      requires IsChunk(chunker.Inner().cfg, buffer[..n])
               || (chunker.Suggesting? && chunker.Inner().cfg.min <= n <= chunker.Inner().cfg.max)
      ensures SizeOk(buffer[..n], false, false)
    {
      hide IsChunk;
      if IsChunk(chunker.Inner().cfg, buffer[..n]) { CutBounds(chunker.Inner().cfg, buffer[..n]); }
    }

    /** The part of an iteration that looks for a boundary in the buffer. */
    method FindBoundary() returns (r: Option<seq<byte>>)
      requires Valid() && chunker.Inner().cfg.min <= chunker.Inner().cfg.max
      requires nextBoundary.None? ==> received == src.announced
      requires inputIsDone ==> nextBoundary.None?
      modifies this, channel, chunker.Inner(), chunker.Inner().window, if chunker.Suggesting? then {chunker.s} else {}
      ensures Valid() && inputIsDone == old(inputIsDone) && offered == old(offered)
      ensures r.None? ==> p == old(p) && c == old(c) && channel.queue == old(channel.queue)
      ensures r.None? ==> scanPos == |buffer|
      ensures r.None? && c < |src.script| ==> src.yielded <= PayloadPos(src.script, c)
      ensures r.Some? ==> !inputIsDone && Emitted(old(p), old(c), old(channel.queue), r.value)
    {
      hide AllIn, PayloadChunker.Pending, ChunkerImpl.Valid, Orderly, PayloadPos, IsChunk, SizeOk, Injected, NoCut,
        Hash, Window, Gathered,
        ChunkerImpl.Ring, Source.InTime;
      if nextBoundary.Some? {
        var inject := nextBoundary.value;
        var pos := 0;
        if scanPos < |buffer| { pos := Scan(); } else { assert buffer[..scanPos] == buffer; }
        r := Waiting(inject, pos);
      } else {
        r := FindRegular();
      }
    }

    /** No injection waits: cut at the next boundary, if there is one in the buffer. */
    method FindRegular() returns (r: Option<seq<byte>>)
      requires Valid() && chunker.Inner().cfg.min <= chunker.Inner().cfg.max
      requires nextBoundary.None? && received == src.announced
      modifies this, chunker.Inner(), chunker.Inner().window, if chunker.Suggesting? then {chunker.s} else {}
      ensures Valid() && inputIsDone == old(inputIsDone) && offered == old(offered) && c == old(c)
      ensures r.None? ==> p == old(p) && scanPos == |buffer|
      ensures c < |src.script| ==> src.yielded <= PayloadPos(src.script, c)
      ensures r.Some? ==> !inputIsDone && Emitted(old(p), old(c), old(channel.queue), r.value)
    {
      hide AllIn, PayloadChunker.Pending, ChunkerImpl.Valid, Orderly, PayloadPos, IsChunk, SizeOk, Injected, NoCut,
        Hash,
        Window, Gathered, ChunkerImpl.Ring, Source.InTime, FirstCut, Wins, Skipped;
      Unannounced();
      if scanPos < |buffer| {
        var pos := Scan();
        if pos == 0 {
          scanPos := |buffer|;
          assert buffer[..scanPos] == buffer;
        } else {
          FoundBounds(scanPos + pos);
          assert Position();
          var raw := Cut(scanPos + pos);
          return Some(raw);
        }
      }
      return None;
    }

    /** Nothing past an unannounced injection has been read. */
    lemma Unannounced()
      requires src.Valid() && Offsets() && nextBoundary.None? && received == src.announced
      ensures c < |src.script| ==> src.yielded <= PayloadPos(src.script, c)
    {
    }

    /** What one emitted chunk is, relative to the state before. */
    ghost predicate Emitted(p0: nat, c0: nat, queue0: seq<Inject>, data: seq<byte>)
      reads this, src, channel
    {
      var cfg := chunker.Inner().cfg;
      && p0 <= p == p0 + |data| <= |src.input| && data == src.input[p0..p]
      && (if c == c0 then
            && data != [] && channel.queue == queue0
            && SizeOk(data, false, inputIsDone)
            && (chunker.Plain? ==> if inputIsDone then p == |src.input| && NoCut(cfg, data) else IsChunk(cfg, data))
            && (!inputIsDone ==> IsChunk(cfg, data) || (c <= |src.script| && p + Injected(src.script, c) in offered))
          else
            && c == c0 + 1 <= |src.script| && p == PayloadPos(src.script, c0)
            && channel.queue == queue0 + [src.script[c0]]
            && SizeOk(data, true, false)
            && (chunker.Plain? ==> NoCut(cfg, data) || IsChunk(cfg, data)))
    }

    /** Forces a boundary within bytes that hold no other boundary, except at their end. */
    method ForceWithin(inject: Inject, ghost n: nat) returns (raw: seq<byte>)
      requires src.Valid() && chunker.Inner().Valid() && Position() && Offsets() && Offered() && !inputIsDone
      requires nextBoundary == Some(inject) && n <= |buffer| && inject.boundary <= consumed + n
      requires chunker.Inner().cfg.max > 64 ==> n <= chunker.Inner().cfg.max
      requires chunker.Plain? ==> NoCut(chunker.Inner().cfg, buffer[..n]) || IsChunk(chunker.Inner().cfg, buffer[..n])
      modifies this, channel, chunker.Inner()
      ensures Valid() && !inputIsDone && offered == old(offered) && c == old(c) + 1
      ensures Emitted(old(p), old(c), old(channel.queue), raw)
    {
      hide AllIn, PayloadChunker.Pending, ChunkerImpl.Valid, Orderly, IsChunk, NoCut, Hash, Window, Gathered,
        ChunkerImpl.Ring, Source.InTime,
        Injected, PayloadPos, Scanned, Source.Valid;
      ghost var cfg, all := chunker.Inner().cfg, buffer[..n];
      BeforeForced();
      raw := Force(inject);
      assert raw == all[..|raw|];
      if chunker.Plain? { ForcedPrefix(cfg, all, |raw|); }
    }

    /** A waiting injection is one of the announced ones. */
    lemma BeforeForced()
      requires src.Valid() && Position() && Offsets() && !inputIsDone && nextBoundary.Some?
      ensures c < |src.script| && consumed <= nextBoundary.value.boundary
    {
      hide ChunkerImpl.Valid, Gathered;
    }

    /** An injection waits: force its boundary, or cut before it, or read on. */
    method Waiting(inject: Inject, pos: nat) returns (r: Option<seq<byte>>)
      requires src.Valid() && chunker.Inner().Valid() && Position() && Offsets() && Offered() && !inputIsDone
      requires chunker.Inner().cfg.min <= chunker.Inner().cfg.max
      requires nextBoundary == Some(inject)
      requires scanPos + pos <= |buffer|
      requires chunker.Inner().fed == if pos == 0 then buffer else []
      requires pos > 0 ==> IsChunk(chunker.Inner().cfg, buffer[..scanPos + pos]) || Suggested(scanPos + pos)
      modifies this, channel, chunker.Inner()
      ensures Valid() && !inputIsDone && offered == old(offered)
      ensures r.None? ==> p == old(p) && c == old(c) && channel.queue == old(channel.queue)
      ensures r.None? ==> scanPos == |buffer|
      ensures r.None? && c < |src.script| ==> src.yielded <= PayloadPos(src.script, c)
      ensures r.Some? ==> Emitted(old(p), old(c), old(channel.queue), r.value)
      ensures r.None? ==> consumed + |buffer| < inject.boundary
      ensures r.Some? && c == old(c) ==> consumed < inject.boundary
    {
      hide AllIn, PayloadChunker.Pending, ChunkerImpl.Valid, Orderly, IsChunk, NoCut, Hash, Window, Gathered,
        ChunkerImpl.Ring, Source.InTime, ConfigOf;
      var found := scanPos + pos;
      var chunkBoundary := if pos == 0 then consumed + |buffer| else consumed + found;
      if pos == 0 { GrowingChunk(); } else { FoundBounds(found); }
      if inject.boundary <= chunkBoundary {
        assert buffer[..|buffer|] == buffer;
        var raw := ForceWithin(inject, if pos == 0 then |buffer| else found);
        return Some(raw);
      } else if pos != 0 {
        var raw := Cut(found);
        return Some(raw);
      } else {
        scanPos := |buffer|;
        assert buffer[..scanPos] == buffer;
        return None;
      }
    }

    /** Polls the stream for its next chunk. */
    method PollNext() returns (r: Item)
      requires Valid() && chunker.Inner().cfg.min <= chunker.Inner().cfg.max
      modifies Repr()
      ensures Valid()
      ensures r.Chunk? ==> Emitted(old(p), old(c), old(channel.queue), r.data)
      ensures !r.Chunk? ==> p == old(p) && c == old(c) && channel.queue == old(channel.queue)
      ensures r.End? ==> inputIsDone && src.polls == []
      ensures r.Failure? ==> !inputIsDone && !Intact(old(src.polls))
      ensures !r.Failure? ==> (Intact(src.polls) <==> Intact(old(src.polls)))
    {
      hide AllIn, PayloadChunker.Pending, ChunkerImpl.Valid, Orderly, PayloadPos, IsChunk, SizeOk, Emitted, Injected,
        NoCut, Hash, Window,
        Gathered,
        ChunkerImpl.Ring, Source.InTime;
      while true
        invariant Valid() && p == old(p) && c == old(c) && channel.queue == old(channel.queue)
        invariant Intact(src.polls) <==> Intact(old(src.polls))
        decreases |src.polls|
      {
        Environment();
        Receive();
        var found := FindBoundary();
        if found.Some? { return Chunk(found.value); }
        if inputIsDone { return End; }
        var more := ReadMore();
        if more.Some? { return more.value; }
      }
    }

    /** Reads one more piece of the input, or finishes. */
    method ReadMore() returns (r: Option<Item>)
      requires Valid() && !inputIsDone && scanPos == |buffer|
      requires c < |src.script| ==> src.yielded <= PayloadPos(src.script, c)
      modifies this, src
      ensures Valid() && c == old(c) && offered == old(offered)
      ensures r.None? ==> p == old(p) && |src.polls| < |old(src.polls)|
      ensures r.Some? && r.value.Chunk? ==> Emitted(old(p), old(c), old(channel.queue), r.value.data)
      ensures r.Some? && !r.value.Chunk? ==> p == old(p)
      ensures r.Some? && r.value.End? ==> inputIsDone
      ensures r.Some? && r.value.Failure? ==> !inputIsDone && !Intact(old(src.polls))
      ensures r.None? || !r.value.Failure? ==> (Intact(src.polls) <==> Intact(old(src.polls)))
    {
      hide AllIn, PayloadChunker.Pending, ChunkerImpl.Valid, Orderly, PayloadPos, IsChunk, SizeOk, Emitted, Injected,
        NoCut, Hash, Window,
        Gathered,
        Source.InTime, Intact;
      if src.polls != [] { IntactStep(src.polls); }
      var next := src.Next();
      match next {
        case Failed => return Some(Failure);
        case Done =>
          AllReached();
          var last := Flush();
          return Some(last);
        case Piece(data) =>
          Extend(data);
          return None;
      }
    }

    /** When the whole input was read, no injection is left. */
    lemma AllReached()
      requires src.Valid() && src.yielded == |src.input| && c <= |src.script|
      requires c < |src.script| ==> src.yielded <= PayloadPos(src.script, c)
      ensures c == |src.script|
    {
    }

    method Extend(data: seq<byte>)
      requires src.Valid() && chunker.Inner().Valid() && Offsets() && Scanned() && Offered() && !inputIsDone
      requires scanPos == |buffer|
      requires p + |buffer| + |data| == src.yielded <= |src.input|
      requires buffer == src.input[p..p + |buffer|] && data == src.input[p + |buffer|..src.yielded]
      modifies this`buffer
      ensures Valid()
    {
      hide AllIn, PayloadChunker.Pending, ChunkerImpl.Valid, Orderly, PayloadPos, Injected, NoCut, Hash, Window,
        Gathered, ChunkerImpl.Ring,
        Source.InTime;
      buffer := buffer + data;
      assert buffer[..scanPos] == old(buffer)[..scanPos];
    }

    /** The end of the input: the rest of the buffer is the last chunk. */
    method Flush() returns (r: Item)
      requires Valid() && !inputIsDone && scanPos == |buffer|
      requires src.yielded == |src.input| && c == |src.script| && src.polls == []
      modifies this
      ensures Valid() && inputIsDone && c == old(c) && offered == old(offered)
      ensures r.Chunk? ==> Emitted(old(p), old(c), old(channel.queue), r.data)
      ensures !r.Chunk? ==> r.End? && p == old(p)
    {
      hide AllIn, PayloadChunker.Pending, ChunkerImpl.Valid, Orderly, PayloadPos, Injected, NoCut, Hash, Window,
        Gathered, ChunkerImpl.Ring,
        Source.InTime;
      assert buffer[..scanPos] == buffer;
      GrowingChunk();
      inputIsDone, scanPos := true, 0;
      if buffer == [] {
        return End;
      }
      var raw := SplitOff(|buffer|);
      return Chunk(raw);
    }
  }

  /** Before the first boundary of a chunk, or of data without one, there is none. */
  lemma ForcedPrefix(cfg: Config, s: seq<byte>, n: nat)
    requires n <= |s| && (NoCut(cfg, s) || IsChunk(cfg, s))
    ensures NoCut(cfg, s[..n]) || IsChunk(cfg, s[..n])
  {
    hide IsCut;
    if n == |s| {
      assert s[..n] == s;
    } else {
      var p := s[..|s| - 1];
      forall k | 0 <= k <= n ensures !IsCut(cfg, s[..n][..k]) {
        assert s[..n][..k] == s[..k] == p[..k];
      }
    }
  }

  // ----- piece independence

  lemma ChunksStep(cfg: Config, data: seq<byte>, rest: seq<byte>)
    requires data != []
    requires IsChunk(cfg, data) || (rest == [] && NoCut(cfg, data))
    ensures Chunks(cfg, data + rest) == [data] + Chunks(cfg, rest)
  {
    hide NoCut, IsCut;
    if IsChunk(cfg, data) {
      FirstCutIs(cfg, data, rest);
      assert (data + rest)[..|data|] == data && (data + rest)[|data|..] == rest;
    } else {
      assert data + rest == data;
      NoCutIsZero(cfg, data);
    }
  }

  /** The chunks of what remains after `p` payload bytes and `c` injections: every stretch of payload between
      two injections is chunked by itself. */
  ghost function SegmentChunks(cfg: Config, input: seq<byte>, script: seq<Inject>, p: nat, c: nat): seq<seq<byte>>
    requires Orderly(script, |input|)
    requires p <= |input| && c <= |script| && (c < |script| ==> p <= PayloadPos(script, c))
    decreases |script| - c
  {
    if c == |script| then Chunks(cfg, input[p..])
    else
      var q := PayloadPos(script, c);
      Chunks(cfg, input[p..q]) + SegmentChunks(cfg, input, script, q, c + 1)
  }

  /** A chunk that ends at a boundary, or is the last one, is the head of what remains. */
  lemma SegmentCut(cfg: Config, input: seq<byte>, script: seq<Inject>, p: nat, p': nat, c: nat)
    requires Orderly(script, |input|)
    requires p < p' <= |input| && c <= |script| && (c < |script| ==> p' <= PayloadPos(script, c))
    requires IsChunk(cfg, input[p..p']) || (c == |script| && p' == |input| && NoCut(cfg, input[p..p']))
    ensures SegmentChunks(cfg, input, script, p, c) == [input[p..p']] + SegmentChunks(cfg, input, script, p', c)
  {
    hide Chunks, IsChunk, NoCut, PayloadPos, Orderly;
    var q := if c < |script| then PayloadPos(script, c) else |input|;
    QBound(input, script, c);
    var data, rest := input[p..p'], input[p'..q];
    assert input[p..q] == data + rest && input[|input|..] == [];
    ChunksStep(cfg, data, rest);
    if c < |script| {
      Assoc([data], Chunks(cfg, rest), SegmentChunks(cfg, input, script, q, c + 1));
    } else {
      assert input[p..] == input[p..q] && input[p'..] == rest;
    }
  }

  /** A forced chunk, if it is not empty, ends its stretch. */
  lemma SegmentForced(cfg: Config, input: seq<byte>, script: seq<Inject>, p: nat, c: nat)
    requires Orderly(script, |input|) && c < |script| && p <= PayloadPos(script, c) <= |input|
    requires var data := input[p..PayloadPos(script, c)]; NoCut(cfg, data) || IsChunk(cfg, data)
    ensures var q := PayloadPos(script, c);
            && (c + 1 < |script| ==> q <= PayloadPos(script, c + 1))
            && SegmentChunks(cfg, input, script, p, c)
               == (if p < q then [input[p..q]] else []) + SegmentChunks(cfg, input, script, q, c + 1)
  {
    hide Chunks, IsChunk, NoCut, PayloadPos, Orderly;
    QBound(input, script, c);
    var data := input[p..PayloadPos(script, c)];
    ChunksNone(cfg);
    if data != [] {
      assert data + [] == data;
      ChunksStep(cfg, data, []);
      assert [data] + [] == [data];
    }
  }

  lemma SegmentsEnd(cfg: Config, input: seq<byte>, script: seq<Inject>)
    requires Orderly(script, |input|)
    ensures SegmentChunks(cfg, input, script, |input|, |script|) == []
  {
    hide Chunks;
    ChunksNone(cfg);
    assert input[|input|..] == [];
  }

  lemma OneSegment(cfg: Config, input: seq<byte>)
    ensures Orderly([], |input|) && SegmentChunks(cfg, input, [], 0, 0) == Chunks(cfg, input)
  {
    hide Chunks;
    assert input[0..] == input;
  }

  /** Piece independence: however the input is cut into pieces, and whenever injections are announced in time,
      the stream without suggestions emits the same chunks: those of every stretch of payload between two
      injections, and without injections those of the concatenated input. It fails if and only if the input
      does. */
  method SplitPlain(polls: seq<Poll>, injections: seq<Inject>, avg: nat, table: Table)
    returns (ok: bool, chunks: seq<seq<byte>>)
    requires PowerOfTwo(avg) && Orderly(injections, |Gathered(polls)|)
    ensures |injections| > 0 ==> 0 <= PayloadPos(injections, 0)
    ensures ok <==> Intact(polls)
    ensures ok ==> chunks == SegmentChunks(ConfigOf(avg, table), Gathered(polls), injections, 0, 0)
    ensures ok && injections == [] ==> chunks == Chunks(ConfigOf(avg, table), Gathered(polls))
  {
    hide Gathered, NoCut, IsChunk, Hash, Window, Concat, ConfigOf, Chunks, ChunkerImpl.Valid, Source.Valid, Injected,
      PayloadPos, Stream.SizeOk, Stream.Valid, Orderly, SegmentChunks;
    var src := new Source(polls, injections);
    var chunker := new ChunkerImpl(avg, table);
    var channel := new Channel();
    var stream := new Stream(src, Plain(chunker), channel);
    chunks := [];
    ghost var cfg, input, script := ConfigOf(avg, table), src.input, src.script;
    QBound(input, script, 0);
    if injections == [] { OneSegment(cfg, input); }
    ghost var all := SegmentChunks(cfg, input, script, 0, 0);
    assert [] + all == all;
    while true
      invariant stream.Valid() && fresh(stream.Repr()) && stream.src == src && stream.chunker == Plain(chunker)
      invariant chunker.cfg == cfg && (Intact(src.polls) <==> Intact(polls))
      invariant stream.p <= |input| && stream.c <= |script|
      invariant stream.c < |script| ==> stream.p <= PayloadPos(script, stream.c)
      invariant chunks + SegmentChunks(cfg, input, script, stream.p, stream.c) == all
      decreases |input| - stream.p + |script| - stream.c
    {
      ghost var p0, c0 := stream.p, stream.c;
      var item := stream.PollNext();
      match item {
        case Failure => return false, chunks;
        case End =>
          StreamPlace(stream);
          SegmentsEnd(cfg, input, script);
          assert chunks + [] == chunks;
          return true, chunks;
        case Chunk(data) =>
          StreamPlace(stream);
          if stream.c == c0 {
            SegmentCut(cfg, input, script, p0, stream.p, c0);
          } else {
            SegmentForced(cfg, input, script, p0, c0);
          }
          ghost var rest := SegmentChunks(cfg, input, script, stream.p, stream.c);
          Assoc(chunks, if data != [] then [data] else [], rest);
          if data != [] { chunks := chunks + [data]; } else { assert chunks + [] == chunks; }
      }
    }
  }

  lemma StreamPlace(s: Stream)
    requires s.Valid()
    ensures s.p <= |s.src.input| && s.c <= |s.src.script|
    ensures s.c < |s.src.script| ==> s.p <= PayloadPos(s.src.script, s.c)
    ensures s.inputIsDone ==> s.p == |s.src.input| && s.c == |s.src.script|
  {
    hide ChunkerImpl.Valid, Source.Valid, PayloadPos;
  }

  lemma ChunksNone(cfg: Config)
    ensures Chunks(cfg, []) == []
  {
  }

  /** The chunks of an input put together are the input, each is at most the maximum, and each but
      the last at least the minimum. */
  lemma {:induction false} ChunksCover(cfg: Config, s: seq<byte>)
    requires cfg.min <= cfg.max
    ensures Concat(Chunks(cfg, s)) == s
    ensures var cs := Chunks(cfg, s);
            && (forall i :: 0 <= i < |cs| ==> cs[i] != [] && (cfg.max > 64 ==> |cs[i]| <= cfg.max))
            && (forall i :: 0 <= i < |cs| - 1 ==> cfg.min <= |cs[i]|)
    decreases |s|
  {
    hide IsCut;
    if s != [] {
      var n := FirstCut(cfg, s);
      if n == 0 {
        NoCutIsZero(cfg, s);
        if cfg.max > 64 { NoCutBound(cfg, s); }
        assert Concat([s]) == s by { assert [s][1..] == []; }
      } else {
        FirstCutIsChunk(cfg, s);
        CutBounds(cfg, s[..n]);
        ChunksCover(cfg, s[n..]);
        assert Chunks(cfg, s)[1..] == Chunks(cfg, s[n..]);
      }
    }
  }

  lemma FirstCutIsChunk(cfg: Config, s: seq<byte>)
    requires FirstCut(cfg, s) > 0
    ensures IsChunk(cfg, s[..FirstCut(cfg, s)])
  {
    hide IsCut;
    var n := FirstCut(cfg, s);
    var q := s[..n][..n - 1];
    forall k | 0 <= k <= |q| ensures !IsCut(cfg, q[..k]) {
      assert q[..k] == s[..k];
      IsCutLong(cfg, s[..k]);
    }
  }
}
