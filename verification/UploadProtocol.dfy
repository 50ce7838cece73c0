/** Uploading chunks and appending index entries: the client's queue of upload responses, the
    second merge, and the server that refuses entries for chunks it does not know. */
module UploadProtocol {
  import opened Bytes
  import opened MergeChunks
  import opened DynamicIndex
  import opened UploadStream

  // ----- the server

  /** The server's view of one dynamic index: the lengths of registered chunks, and the writer. */
  datatype Server = Server(known: map<Digest, nat>, offset: nat, chunkCount: nat, index: Index)

  function AppendOne(s: Server, rec: Rec): (r: Result<Server>)
  {
    if rec.digest !in s.known then Err("no such chunk")
    else if s.offset != rec.offset then Err("got strange chunk offset")
    else
      var end := s.offset + s.known[rec.digest];
      Ok(Server(s.known, end, s.chunkCount + 1, s.index + [IndexEntry(end, rec.digest)]))
  }

  /** One append request: digest and offset lists, entry by entry. */
  function AppendList(s: Server, list: seq<Rec>): (r: Result<Server>)
    decreases |list|
  {
    if list == [] then Ok(s) else
    var s' :- AppendOne(s, list[0]);
    AppendList(s', list[1..])
  }

  /** Closing compares what the client counted and hashed with what the server has. */
  predicate CloseAccepts(s: Server, chunkCount: nat, size: nat, csum: Digest, sha: seq<byte> -> Digest)
  {
    s.chunkCount == chunkCount && s.offset == size && csum == sha(EntryBytes(s.index))
  }

  // ----- the client's upload queue

  datatype Response = Response(digest: Digest, size: nat)

  /** A batch and, for a new chunk, the upload response it has to wait for. */
  datatype Waiting = Waiting(batch: seq<Rec>, response: Option<Response>)

  datatype State = State(
    todo: seq<Merged>,
    queue: seq<Waiting>,
    inflight: set<Response>,
    acked: set<Digest>,
    merge: Option<Merged>,
    appended: seq<Rec>,
    server: Result<Server>)

  /** The next batch of the merged stream: a new chunk is sent to the server first. */
  predicate Send(s: State, s': State)
  {
    s.todo != [] && |s.queue| < 64 &&
    match s.todo[0]
    case New(rec, len) =>
      s' == s.(todo := s.todo[1..], inflight := s.inflight + {Response(rec.digest, len)},
               queue := s.queue + [Waiting([rec], Some(Response(rec.digest, len)))])
    case Known(list) =>
      s' == s.(todo := s.todo[1..], queue := s.queue + [Waiting(list, None)])
  }

  /** The server stores an uploaded chunk and registers its length. */
  predicate Upload(s: State, s': State, up: Response)
  {
    up in s.inflight && s.server.Ok? &&
    s' == s.(server := Ok(s.server.value.(known := s.server.value.known[up.digest := up.size])))
  }

  /** A response reaches the client, at any time after the upload and in any order. */
  predicate Acknowledge(s: State, s': State, up: Response)
  {
    up in s.inflight && s.server.Ok? && up.digest in s.server.value.known &&
    s' == s.(acked := s.acked + {up.digest})
  }

  function Append(s: State, out: Option<Merged>): State
  {
    match out
    case Some(Known(list)) =>
      s.(appended := s.appended + list,
         server := if s.server.Err? then s.server else AppendList(s.server.value, list))
    case _ => s
  }

  /** The head of the queue is taken once its response is there; it goes through the merge. */
  predicate Take(s: State, s': State)
  {
    s.queue != [] && (s.queue[0].response.Some? ==> s.queue[0].response.value.digest in s.acked) &&
    var (held, out) := Step(s.merge, Known(s.queue[0].batch));
    s' == Append(s.(queue := s.queue[1..], merge := held), out)
  }

  /** At the end the merge hands on what it holds. */
  predicate Flush(s: State, s': State)
  {
    s.todo == [] && s.queue == [] && s.merge.Some? &&
    s' == Append(s.(merge := None), s.merge)
  }

  ghost predicate Next(s: State, s': State)
  {
    || Send(s, s') || Take(s, s') || Flush(s, s')
    || (exists up :: Upload(s, s', up)) || (exists up :: Acknowledge(s, s', up))
  }

  predicate Init(s: State, items: seq<Merged>, server: Server)
  {
    s == State(MergeAll(None, items), [], {}, {}, None, [], Ok(server))
  }

  /** Nothing is left to send, to wait for or to append. */
  predicate AllDone(s: State)
  {
    s.todo == [] && s.queue == [] && s.merge == None
  }

  ghost predicate IsRun(run: seq<State>, items: seq<Merged>, server: Server)
  {
    && run != [] && Init(run[0], items, server)
    && forall i :: 0 <= i < |run| - 1 ==> Next(run[i], run[i + 1])
  }

  // ----- what is still to come

  function WaitAtoms(w: Waiting): seq<Atom>
  {
    if w.response.Some? && |w.batch| == 1 then [NewAtom(w.batch[0], w.response.value.size)] else ListAtoms(w.batch)
  }

  function QueueAtoms(q: seq<Waiting>): seq<Atom>
  {
    if q == [] then [] else QueueAtoms(q[..|q| - 1]) + WaitAtoms(q[|q| - 1])
  }

  /** The chunks that have not passed the queue, in order. */
  function Rest(s: State): seq<Atom>
  {
    QueueAtoms(s.queue) + Atoms(s.todo)
  }

  function HeldList(m: Option<Merged>): seq<Rec>
  {
    match m case Some(Known(list)) => list case _ => []
  }

  /** Read from the front: a chunk that is not new is known, or was new before. */
  predicate Covered(known: set<Digest>, atoms: seq<Atom>)
    decreases |atoms|
  {
    atoms != [] ==>
      match atoms[0]
      case KnownAtom(rec) => rec.digest in known && Covered(known, atoms[1..])
      case NewAtom(rec, _) => Covered(known + {rec.digest}, atoms[1..])
  }

  /** Read from the front: entries follow each other without gap, from `offset` on. */
  predicate Follows(offset: nat, recs: seq<Rec>, length: Digest -> nat)
    decreases |recs|
  {
    recs != [] ==> recs[0].offset == offset && Follows(offset + length(recs[0].digest), recs[1..], length)
  }

  function SumLength(recs: seq<Rec>, length: Digest -> nat): nat
  {
    if recs == [] then 0 else length(recs[0].digest) + SumLength(recs[1..], length)
  }

  /** The index entries for a list of chunks that starts at `offset`. */
  function IndexOf(offset: nat, recs: seq<Rec>, length: Digest -> nat): (r: Index)
    decreases |recs|
  {
    if recs == [] then [] else
    var end := offset + length(recs[0].digest);
    [IndexEntry(end, recs[0].digest)] + IndexOf(end, recs[1..], length)
  }

  // ----- facts about these notions

  lemma {:induction false} CoveredMore(a: set<Digest>, b: set<Digest>, atoms: seq<Atom>)
    requires a <= b && Covered(a, atoms)
    ensures Covered(b, atoms)
    decreases |atoms|
  {
    if atoms != [] {
      match atoms[0]
      case KnownAtom(rec) => CoveredMore(a, b, atoms[1..]);
      case NewAtom(rec, _) => CoveredMore(a + {rec.digest}, b + {rec.digest}, atoms[1..]);
    }
  }

  lemma {:induction false} CoveredList(known: set<Digest>, list: seq<Rec>, rest: seq<Atom>)
    requires Covered(known, ListAtoms(list) + rest)
    ensures Covered(known, rest) && forall i :: 0 <= i < |list| ==> list[i].digest in known
    decreases |list|
  {
    if list == [] {
      assert ListAtoms(list) + rest == rest;
    } else {
      assert (ListAtoms(list) + rest)[1..] == ListAtoms(list[1..]) + rest;
      CoveredList(known, list[1..], rest);
      assert forall i :: 1 <= i < |list| ==> list[i] == list[1..][i - 1];
    }
  }

  lemma {:induction false} FollowsAppend(offset: nat, a: seq<Rec>, b: seq<Rec>, length: Digest -> nat)
    ensures Follows(offset, a + b, length)
            <==> Follows(offset, a, length) && Follows(offset + SumLength(a, length), b, length)
    decreases |a|
  {
    if a == [] {
      assert a + b == b;
    } else {
      assert (a + b)[1..] == a[1..] + b;
      FollowsAppend(offset + length(a[0].digest), a[1..], b, length);
    }
  }

  lemma {:induction false} IndexAppend(offset: nat, a: seq<Rec>, b: seq<Rec>, length: Digest -> nat)
    ensures IndexOf(offset, a + b, length)
            == IndexOf(offset, a, length) + IndexOf(offset + SumLength(a, length), b, length)
    decreases |a|
  {
    if a == [] {
      assert a + b == b;
    } else {
      assert (a + b)[1..] == a[1..] + b;
      var end := offset + length(a[0].digest);
      IndexAppend(end, a[1..], b, length);
      Assoc([IndexEntry(end, a[0].digest)], IndexOf(end, a[1..], length),
            IndexOf(end + SumLength(a[1..], length), b, length));
    }
  }

  lemma {:induction false} SumAppend(a: seq<Rec>, b: seq<Rec>, length: Digest -> nat)
    ensures SumLength(a + b, length) == SumLength(a, length) + SumLength(b, length)
    decreases |a|
  {
    if a == [] {
      assert a + b == b;
    } else {
      assert (a + b)[1..] == a[1..] + b;
      SumAppend(a[1..], b, length);
    }
  }

  lemma QueueSnoc(q: seq<Waiting>, w: Waiting)
    ensures QueueAtoms(q + [w]) == QueueAtoms(q) + WaitAtoms(w)
  {
    assert (q + [w])[..|q|] == q;
  }

  lemma {:induction false} QueueFront(q: seq<Waiting>)
    requires q != []
    ensures QueueAtoms(q) == WaitAtoms(q[0]) + QueueAtoms(q[1..])
    decreases |q|
  {
    hide WaitAtoms;
    if |q| == 1 {
      assert q[..0] == [] && q[1..] == [];
    } else {
      var init := q[..|q| - 1];
      QueueFront(init);
      assert q[1..][..|q| - 2] == init[1..];
      assert q[1..][|q| - 2] == q[|q| - 1];
    }
  }

  // ----- the server accepts what follows and is known

  /** Every length the server has registered is the one that belongs to the digest. */
  ghost predicate Honest(known: map<Digest, nat>, length: Digest -> nat)
  {
    forall d :: d in known ==> known[d] == length(d)
  }

  lemma {:induction false} AppendAccepted(s: Server, list: seq<Rec>, length: Digest -> nat)
    requires Honest(s.known, length) && Follows(s.offset, list, length)
    requires forall i :: 0 <= i < |list| ==> list[i].digest in s.known
    ensures AppendList(s, list)
            == Ok(Server(s.known, s.offset + SumLength(list, length), s.chunkCount + |list|,
                         s.index + IndexOf(s.offset, list, length)))
    decreases |list|
  {
    if list == [] {
      assert s.index + [] == s.index;
    } else {
      var s' := AppendOne(s, list[0]).value;
      assert forall i :: 1 <= i < |list| ==> list[i] == list[1..][i - 1];
      AppendAccepted(s', list[1..], length);
      Assoc(s.index, [IndexEntry(s'.offset, list[0].digest)], IndexOf(s'.offset, list[1..], length));
    }
  }

  /** The server takes a list exactly if it knows every chunk and every offset is where the index ends then. */
  lemma {:induction false} AppendIsExact(s: Server, list: seq<Rec>, length: Digest -> nat)
    requires Honest(s.known, length)
    ensures AppendList(s, list).Ok? <==>
              Follows(s.offset, list, length) && forall i :: 0 <= i < |list| ==> list[i].digest in s.known
    decreases |list|
  {
    if list != [] {
      var one := AppendOne(s, list[0]);
      assert forall i :: 1 <= i < |list| ==> list[i] == list[1..][i - 1];
      if one.Ok? {
        AppendIsExact(one.value, list[1..], length);
        assert forall i :: 0 <= i < |list[1..]| ==> list[1..][i] == list[i + 1];
      } else {
        assert list[0].digest !in s.known || list[0].offset != s.offset;
      }
    }
  }

  // ----- the invariant

  /** The server has accepted every append so far. */
  ghost predicate ServerInv(s: State, start: Server, length: Digest -> nat)
  {
    && s.server.Ok? && Honest(s.server.value.known, length)
    && s.server.value.offset == start.offset + SumLength(s.appended, length)
    && s.server.value.chunkCount == start.chunkCount + |s.appended|
    && s.server.value.index == start.index + IndexOf(start.offset, s.appended, length)
  }

  /** What the client may reference: chunks known before, and acknowledged uploads. */
  function Referable(s: State, start: Server): set<Digest>
  {
    start.known.Keys + s.acked
  }

  ghost predicate Inv(s: State, start: Server, all: seq<Rec>, length: Digest -> nat)
  {
    && s.server.Ok? && ServerInv(s, start, length)
    && (s.merge.Some? ==> s.merge.value.Known?)
    && s.appended + HeldList(s.merge) + Recs(Rest(s)) == all
    && Follows(start.offset, all, length)
    && Referable(s, start) <= s.server.value.known.Keys
    && (forall i :: 0 <= i < |s.appended| ==> s.appended[i].digest in Referable(s, start))
    && (forall i :: 0 <= i < |HeldList(s.merge)| ==> HeldList(s.merge)[i].digest in Referable(s, start))
    && Covered(Referable(s, start), Rest(s))
    && (forall i :: 0 <= i < |s.queue| && s.queue[i].response.Some? ==>
          WaitsForItself(s.queue[i]) && s.queue[i].response.value in s.inflight)
    && (forall up :: up in s.inflight ==> up.size == length(up.digest))
    && (forall i :: 0 <= i < |s.todo| && s.todo[i].New? ==> s.todo[i].len == length(s.todo[i].rec.digest))
  }

  predicate WaitsForItself(w: Waiting)
    requires w.response.Some?
  {
    |w.batch| == 1 && w.batch[0].digest == w.response.value.digest
  }

  lemma SendKeeps(s: State, s': State, start: Server, all: seq<Rec>, length: Digest -> nat)
    requires Inv(s, start, all, length) && Send(s, s')
    ensures Inv(s', start, all, length)
  {
    hide Covered, Follows, ServerInv, ListAtoms, Rest, Recs;
    var w := s'.queue[|s.queue|];
    assert WaitAtoms(w) == ItemAtoms(s.todo[0]);
    SendRest(s, s', w);
    SameServer(s, s', start, length);
  }

  lemma SendRest(s: State, s': State, w: Waiting)
    requires s.todo != [] && s'.todo == s.todo[1..] && s'.queue == s.queue + [w] && WaitAtoms(w) == ItemAtoms(s.todo[0])
    ensures Rest(s') == Rest(s)
  {
    hide WaitAtoms, ItemAtoms;
    QueueSnoc(s.queue, w);
    Assoc(QueueAtoms(s.queue), WaitAtoms(w), Atoms(s'.todo));
  }

  lemma UploadKeeps(s: State, s': State, up: Response, start: Server, all: seq<Rec>, length: Digest -> nat)
    requires Inv(s, start, all, length) && Upload(s, s', up)
    ensures Inv(s', start, all, length)
  {
    hide Covered, Follows, QueueAtoms, IndexOf, SumLength;
  }

  lemma AcknowledgeKeeps(s: State, s': State, up: Response, start: Server, all: seq<Rec>, length: Digest -> nat)
    requires Inv(s, start, all, length) && Acknowledge(s, s', up)
    ensures Inv(s', start, all, length)
  {
    hide Covered, Follows, QueueAtoms, ServerInv;
    SameServer(s, s', start, length);
    CoveredMore(Referable(s, start), Referable(s', start), Rest(s));
  }

  /** Appending a list that continues the index, out of chunks the server knows. */
  lemma AppendKeeps(s: State, list: seq<Rec>, rest: seq<Rec>, start: Server, length: Digest -> nat)
    requires ServerInv(s, start, length)
    requires Follows(start.offset, s.appended + list + rest, length)
    requires forall i :: 0 <= i < |list| ==> list[i].digest in s.server.value.known
    ensures var s' := Append(s, Some(Known(list)));
            s'.server.Ok? && ServerInv(s', start, length) && s'.server.value.known == s.server.value.known
  {
    hide Follows, IndexOf, SumLength, AppendList;
    var sv := s.server.value;
    FollowsAppend(start.offset, s.appended + list, rest, length);
    FollowsAppend(start.offset, s.appended, list, length);
    IndexAppend(start.offset, s.appended, list, length);
    SumAppend(s.appended, list, length);
    AppendAccepted(sv, list, length);
    assert start.index + IndexOf(start.offset, s.appended, length) + IndexOf(sv.offset, list, length)
        == start.index + (IndexOf(start.offset, s.appended, length) + IndexOf(sv.offset, list, length));
  }

  /** The batch at the head of the queue is known to the server when it is taken. */
  lemma TakenIsKnown(s: State, s': State, start: Server, all: seq<Rec>, length: Digest -> nat)
    requires Inv(s, start, all, length) && Take(s, s')
    ensures var keys := Referable(s, start);
            && (forall i :: 0 <= i < |s.queue[0].batch| ==> s.queue[0].batch[i].digest in keys)
            && Covered(keys, Rest(s'))
            && Recs(Rest(s)) == s.queue[0].batch + Recs(Rest(s'))
  {
    hide Follows, ServerInv, QueueAtoms, Step, Atoms, AppendList;
    var w, keys := s.queue[0], Referable(s, start);
    var rest := QueueAtoms(s.queue[1..]) + Atoms(s.todo);
    QueueFront(s.queue);
    Assoc(WaitAtoms(w), QueueAtoms(s.queue[1..]), Atoms(s.todo));
    RecsAppend(WaitAtoms(w), rest);
    assert Rest(s') == rest;
    if w.response.Some? {
      assert (WaitAtoms(w) + rest)[1..] == rest;
      assert keys + {w.batch[0].digest} == keys;
    } else {
      CoveredList(keys, w.batch, rest);
    }
  }

  lemma TakeKeeps(s: State, s': State, start: Server, all: seq<Rec>, length: Digest -> nat)
    requires Inv(s, start, all, length) && Take(s, s')
    ensures Inv(s', start, all, length)
  {
    hide Covered, Follows, ServerInv, Rest, Recs, AppendList, IndexOf, SumLength;
    TakenIsKnown(s, s', start, all, length);
    var batch, held := s.queue[0].batch, HeldList(s.merge);
    var (b, out) := Step(s.merge, Known(batch));
    var mid := s.(queue := s.queue[1..], merge := b);
    SameServer(s, mid, start, length);
    assert s.appended + held + (batch + Recs(Rest(s'))) == s.appended + (held + batch) + Recs(Rest(s'));
    if out.Some? {
      assert out.value.list == held + batch;
      AppendKeeps(mid, held + batch, Recs(Rest(s')), start, length);
      assert s.appended + (held + batch) + [] == s.appended + (held + batch);
    } else {
      assert HeldList(b) == held + batch;
    }
  }

  lemma SameServer(s: State, t: State, start: Server, length: Digest -> nat)
    requires ServerInv(s, start, length) && t.server == s.server && t.appended == s.appended
    ensures ServerInv(t, start, length)
  {
  }

  lemma FlushKeeps(s: State, s': State, start: Server, all: seq<Rec>, length: Digest -> nat)
    requires Inv(s, start, all, length) && Flush(s, s')
    ensures Inv(s', start, all, length)
  {
    hide Covered, Follows, ServerInv, AppendList, IndexOf, SumLength;
    var mid := s.(merge := None);
    SameServer(s, mid, start, length);
    AppendKeeps(mid, HeldList(s.merge), Recs(Rest(s)), start, length);
    assert Rest(s') == Rest(s);
    assert s.appended + HeldList(s.merge) + [] == s.appended + HeldList(s.merge);
  }

  lemma NextKeeps(s: State, s': State, start: Server, all: seq<Rec>, length: Digest -> nat)
    requires Inv(s, start, all, length) && Next(s, s')
    ensures Inv(s', start, all, length)
  {
    hide Inv, Send, Take, Flush, Upload, Acknowledge;
    if Send(s, s') {
      SendKeeps(s, s', start, all, length);
    } else if Take(s, s') {
      TakeKeeps(s, s', start, all, length);
    } else if Flush(s, s') {
      FlushKeeps(s, s', start, all, length);
    } else if up :| Upload(s, s', up) {
      UploadKeeps(s, s', up, start, all, length);
    } else {
      var up :| Acknowledge(s, s', up);
      AcknowledgeKeeps(s, s', up, start, all, length);
    }
  }

  // ----- from the sent chunks to a state that satisfies the invariant

  lemma {:induction false} CoveredFrom(base: set<Digest>, atoms: seq<Atom>, i: nat, known: set<Digest>)
    requires Available(base, atoms) && i <= |atoms| && base <= known
    requires forall j :: 0 <= j < i && atoms[j].NewAtom? ==> atoms[j].rec.digest in known
    ensures Covered(known, atoms[i..])
    decreases |atoms| - i
  {
    if i < |atoms| {
      assert atoms[i..][0] == atoms[i] && atoms[i..][1..] == atoms[i + 1..];
      match atoms[i]
      case KnownAtom(rec) =>
        assert rec.digest in base || NewBefore(atoms, i, rec.digest);
        CoveredFrom(base, atoms, i + 1, known);
      case NewAtom(rec, _) =>
        CoveredFrom(base, atoms, i + 1, known + {rec.digest});
    }
  }

  function LogRecs(log: seq<Sent>): (r: seq<Rec>)
    ensures |r| == |log|
  {
    seq(|log|, i requires 0 <= i < |log| => log[i].rec)
  }

  /** A contiguous log gives index entries that follow each other; their bytes are exactly what the
      client hashed, and their total is what it counted. */
  lemma {:induction false} LogFollows(log: seq<Sent>, length: Digest -> nat)
    requires Contiguous(log) && Lengths(log, length)
    ensures Follows(0, LogRecs(log), length) && SumLength(LogRecs(log), length) == TotalSize(log)
    ensures EntryBytes(IndexOf(0, LogRecs(log), length)) == CsumBytes(log)
    decreases |log|
  {
    hide LeBytes, LogRecs, Follows, SumLength, IndexOf, EntryBytes;
    if log == [] {
      NoRecs(length);
    } else {
      var init, last := log[..|log| - 1], log[|log| - 1];
      LogFollows(init, length);
      RecsSnoc(log);
      LastRec(0, LogRecs(init), last.rec, length);
      var end := TotalSize(init) + last.size;
      EntryBytesSnoc(IndexOf(0, LogRecs(init), length), IndexEntry(end, last.rec.digest));
    }
  }

  lemma NoRecs(length: Digest -> nat)
    ensures LogRecs([]) == [] && Follows(0, [], length) && SumLength([], length) == 0
    ensures IndexOf(0, [], length) == [] && EntryBytes([]) == []
  {
  }

  lemma RecsSnoc(log: seq<Sent>)
    requires log != []
    ensures LogRecs(log) == LogRecs(log[..|log| - 1]) + [log[|log| - 1].rec]
  {
  }

  lemma LastRec(offset: nat, recs: seq<Rec>, rec: Rec, length: Digest -> nat)
    ensures SumLength(recs + [rec], length) == SumLength(recs, length) + length(rec.digest)
    ensures Follows(offset, recs + [rec], length)
            <==> Follows(offset, recs, length) && rec.offset == offset + SumLength(recs, length)
    ensures IndexOf(offset, recs + [rec], length)
            == IndexOf(offset, recs, length)
               + [IndexEntry(offset + SumLength(recs, length) + length(rec.digest), rec.digest)]
  {
    SumAppend(recs, [rec], length);
    FollowsAppend(offset, recs, [rec], length);
    IndexAppend(offset, recs, [rec], length);
    assert [rec][1..] == [];
    var at := offset + SumLength(recs, length);
    assert IndexOf(at, [rec], length) == [IndexEntry(at + length(rec.digest), rec.digest)];
  }

  lemma {:induction false} NewLengths(items: seq<Merged>, length: Digest -> nat, i: nat)
    requires i < |items| && items[i].New?
    requires forall k :: 0 <= k < |Atoms(items)| && Atoms(items)[k].NewAtom? ==>
               Atoms(items)[k].len == length(Atoms(items)[k].rec.digest)
    ensures items[i].len == length(items[i].rec.digest)
    decreases |items|
  {
    var rest := Atoms(items[1..]);
    var n := |ItemAtoms(items[0])|;
    if i == 0 {
      assert Atoms(items)[0] == NewAtom(items[0].rec, items[0].len);
    } else {
      assert forall k :: 0 <= k < |rest| ==> rest[k] == Atoms(items)[n + k];
      NewLengths(items[1..], length, i - 1);
    }
  }

  /** The server at the start of an index, and a client whose log is in order. */
  ghost predicate Prepared(items: seq<Merged>, log: seq<Sent>, server: Server, length: Digest -> nat)
  {
    && server.offset == 0 && server.chunkCount == 0 && server.index == [] && Honest(server.known, length)
    && Contiguous(log) && Names(Atoms(items), log) && Lengths(log, length)
    && Available(server.known.Keys, Atoms(items))
  }

  lemma InitInv(s: State, items: seq<Merged>, log: seq<Sent>, server: Server, length: Digest -> nat)
    requires Prepared(items, log, server, length) && Init(s, items, server)
    ensures Inv(s, server, LogRecs(log), length)
  {
    hide Contiguous, MergeAll, CsumBytes, TotalSize, Atoms, Covered, Follows, Available;
    var atoms := Atoms(items);
    MergeKeeps(None, items);
    NoAtoms();
    assert Rest(s) == atoms;
    assert Recs(atoms) == LogRecs(log);
    LogFollows(log, length);
    CoveredFrom(server.known.Keys, atoms, 0, server.known.Keys);
    assert atoms[0..] == atoms && server.known.Keys + {} == server.known.Keys;
    forall i | 0 <= i < |s.todo| && s.todo[i].New? ensures s.todo[i].len == length(s.todo[i].rec.digest) {
      NewLengths(s.todo, length, i);
    }
  }

  lemma NoAtoms()
    ensures Atoms([]) == [] && QueueAtoms([]) == []
  {
  }

  lemma {:induction false} RunKeeps(run: seq<State>, items: seq<Merged>, log: seq<Sent>, server: Server,
      length: Digest -> nat, i: nat)
    requires IsRun(run, items, server) && Prepared(items, log, server, length) && i < |run|
    ensures Inv(run[i], server, LogRecs(log), length)
    decreases i
  {
    hide Inv, Next, Prepared, Init;
    if i == 0 {
      InitInv(run[0], items, log, server, length);
    } else {
      RunKeeps(run, items, log, server, length, i - 1);
      assert Next(run[i - 1], run[i]);
      NextKeeps(run[i - 1], run[i], server, LogRecs(log), length);
    }
  }

  /** Upload before reference, over every run and with responses in any order: the server refuses no
      append; every appended digest was known to the server at the start or is acknowledged; what
      was appended is a prefix of the sent chunks. When all is done, the whole log was appended and
      closing the index with the client's count, size and checksum is accepted. */
  lemma UploadIsSafe(run: seq<State>, items: seq<Merged>, log: seq<Sent>, server: Server, length: Digest -> nat,
      sha: seq<byte> -> Digest, i: nat)
    requires IsRun(run, items, server) && Prepared(items, log, server, length) && i < |run|
    ensures var s := run[i];
            && s.server.Ok?
            && s.appended <= LogRecs(log)
            && (forall k :: 0 <= k < |s.appended| ==>
                s.appended[k].digest in server.known || s.appended[k].digest in s.acked)
            && (s.todo == [] && s.queue == [] && s.merge == None ==>
                  s.appended == LogRecs(log)
                    && CloseAccepts(s.server.value, |log|, TotalSize(log), sha(CsumBytes(log)), sha))
  {
    hide Inv, IsRun, Prepared;
    RunKeeps(run, items, log, server, length, i);
    SafeState(run[i], items, log, server, length, sha);
  }

  lemma SafeState(s: State, items: seq<Merged>, log: seq<Sent>, server: Server, length: Digest -> nat,
      sha: seq<byte> -> Digest)
    requires Inv(s, server, LogRecs(log), length) && Prepared(items, log, server, length)
    ensures && s.server.Ok?
            && s.appended <= LogRecs(log)
            && (forall k :: 0 <= k < |s.appended| ==>
                s.appended[k].digest in server.known || s.appended[k].digest in s.acked)
            && (s.todo == [] && s.queue == [] && s.merge == None ==>
                  s.appended == LogRecs(log)
                    && CloseAccepts(s.server.value, |log|, TotalSize(log), sha(CsumBytes(log)), sha))
  {
    hide Contiguous, Atoms, Available, Names, Lengths, Covered, Follows, LogRecs, Rest, Recs, HeldList, Honest,
      CloseAccepts, ServerInv;
    PrefixOf(s.appended, HeldList(s.merge), Recs(Rest(s)));
    if s.todo == [] && s.queue == [] && s.merge == None {
      NothingLeft(s);
      Closes(s, log, server, length, sha);
    }
  }

  lemma PrefixOf(a: seq<Rec>, b: seq<Rec>, c: seq<Rec>)
    ensures a <= a + b + c
    ensures b == [] == c ==> a + b + c == a
  {
    assert a + b + c == a + (b + c);
  }

  lemma NothingLeft(s: State)
    requires s.todo == [] && s.queue == [] && s.merge == None
    ensures HeldList(s.merge) == [] && Recs(Rest(s)) == []
  {
    NoAtoms();
  }

  /** Closing is accepted once the whole log is appended. */
  lemma Closes(s: State, log: seq<Sent>, server: Server, length: Digest -> nat, sha: seq<byte> -> Digest)
    requires ServerInv(s, server, length) && s.appended == LogRecs(log)
    requires server.offset == 0 && server.chunkCount == 0 && server.index == [] && Contiguous(log)
             && Lengths(log, length)
    ensures CloseAccepts(s.server.value, |log|, TotalSize(log), sha(CsumBytes(log)), sha)
  {
    hide Contiguous, Lengths, EntryBytes, CsumBytes, TotalSize, IndexOf, SumLength, Follows, LogRecs, Honest;
    LogFollows(log, length);
    assert [] + IndexOf(0, s.appended, length) == IndexOf(0, s.appended, length);
  }

  /** An index that the server closes with the client's values is the client's, unless the checksum collides. */
  lemma ClosedIsWhole(s: Server, log: seq<Sent>, sha: seq<byte> -> Digest)
    requires CloseAccepts(s, |log|, TotalSize(log), sha(CsumBytes(log)), sha)
    requires sha(EntryBytes(s.index)) == sha(CsumBytes(log)) ==> EntryBytes(s.index) == CsumBytes(log)
    ensures EntryBytes(s.index) == CsumBytes(log) && s.offset == TotalSize(log) && s.chunkCount == |log|
  {
  }

  // ----- every upload can get through

  /** Steps that are left at most until a new chunk at the head of the queue is acknowledged. */
  function HeadWork(s: State): nat
  {
    if s.queue == [] || s.queue[0].response.None? || s.queue[0].response.value.digest in s.acked then 0
    else if s.server.Ok? && s.queue[0].response.value.digest in s.server.value.known then 1
    else 2
  }

  function Rank(s: State): nat
  {
    7 * |s.todo| + 4 * |s.queue| + HeadWork(s) + if s.merge.Some? then 1 else 0
  }

  /** The client never gets stuck: as long as something is left to do, a step is possible that brings the end
      nearer. */
  lemma NotStuck(s: State, start: Server, all: seq<Rec>, length: Digest -> nat) returns (s': State)
    requires Inv(s, start, all, length) && !AllDone(s)
    ensures Next(s, s') && Rank(s') < Rank(s)
  {
    hide Follows, ServerInv, Covered, Rest, Recs, AppendList;
    if s.queue != [] {
      var w := s.queue[0];
      if w.response.None? || w.response.value.digest in s.acked {
        var (held, out) := Step(s.merge, Known(w.batch));
        s' := Append(s.(queue := s.queue[1..], merge := held), out);
        assert Take(s, s');
      } else if w.response.value.digest in s.server.value.known {
        s' := s.(acked := s.acked + {w.response.value.digest});
        assert Acknowledge(s, s', w.response.value);
      } else {
        var up, server := w.response.value, s.server.value;
        s' := s.(server := Ok(server.(known := server.known[up.digest := up.size])));
        assert Upload(s, s', up);
      }
    } else if s.todo != [] {
      s' := match s.todo[0]
        case New(rec, len) =>
          s.(todo := s.todo[1..], inflight := s.inflight + {Response(rec.digest, len)},
             queue := s.queue + [Waiting([rec], Some(Response(rec.digest, len)))])
        case Known(list) => s.(todo := s.todo[1..], queue := s.queue + [Waiting(list, None)]);
      assert Send(s, s');
    } else {
      s' := Append(s.(merge := None), s.merge);
      assert Flush(s, s');
    }
  }

  /** From wherever a run has come to, it can be continued until all is done. */
  lemma {:induction false} CanFinish(run: seq<State>, items: seq<Merged>, log: seq<Sent>, server: Server,
      length: Digest -> nat) returns (more: seq<State>)
    requires IsRun(run, items, server) && Prepared(items, log, server, length)
    ensures run <= more && IsRun(more, items, server) && AllDone(more[|more| - 1])
    decreases Rank(run[|run| - 1])
  {
    hide Next, Prepared, Inv, Init, Rank;
    var s := run[|run| - 1];
    if AllDone(s) {
      more := run;
    } else {
      RunKeeps(run, items, log, server, length, |run| - 1);
      var s' := NotStuck(s, server, LogRecs(log), length);
      more := CanFinish(run + [s'], items, log, server, length);
    }
  }

  /** The two halves together: after a complete run of the pipeline, any run of the upload queue that
      gets through makes the server close the index with the values of the client's counters and of
      its running checksum. */
  lemma BackupIsAccepted(up: Uploader, items: seq<Merged>, run: seq<State>, server: Server, sha: seq<byte> -> Digest)
    requires up.Valid() && Atoms(items) == up.atoms
    requires server.offset == 0 && server.chunkCount == 0 && server.index == []
    requires server.known.Keys == up.base && Honest(server.known, up.length)
    requires IsRun(run, items, server)
    ensures var s := run[|run| - 1];
            && s.server.Ok?
            && (s.todo == [] && s.queue == [] && s.merge == None ==>
                  CloseAccepts(s.server.value, up.counters.totalChunkCount, up.counters.totalStreamLen, sha(up.csum),
                               sha))
  {
    hide Next, Contiguous, Atoms, Available, CloseAccepts, CsumBytes, TotalSize, Honest, Covers, LengthOf;
    UploadIsSafe(run, items, up.log, server, up.length, sha, |run| - 1);
  }
}
