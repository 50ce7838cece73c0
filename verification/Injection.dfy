/** Reused chunks that are spliced into a payload stream at forced boundaries, the stream that
    results, and the producer that sends payload pieces and announces the boundaries. */
module Injection {
  import opened Bytes

  /** A chunk of a previous snapshot that is referenced instead of being read again. */
  datatype Entry = Entry(digest: Digest, size: nat)

  /** `boundary` is an offset in the resulting archive, where the injected chunks count too. */
  datatype Inject = Inject(boundary: nat, chunks: seq<Entry>, size: nat)

  function SizeOf(chunks: seq<Entry>): (n: nat)
  {
    if chunks == [] then 0 else SizeOf(chunks[..|chunks| - 1]) + chunks[|chunks| - 1].size
  }

  /** Total size of the first `j` injections. */
  function Injected(script: seq<Inject>, j: nat): (n: nat)
    requires j <= |script|
  {
    if j == 0 then 0 else Injected(script, j - 1) + script[j - 1].size
  }

  /** How many payload bytes come before injection `j`. */
  function PayloadPos(script: seq<Inject>, j: nat): int
    requires j < |script|
  {
    script[j].boundary - Injected(script, j)
  }

  /** Injections in order, each with its announced size, and at least one payload byte after the last. */
  ghost predicate Orderly(script: seq<Inject>, len: nat)
  {
    && (forall j :: 0 <= j < |script| ==>
        0 <= PayloadPos(script, j) < len && script[j].size == SizeOf(script[j].chunks))
    && (forall i, j :: 0 <= i < j < |script| ==> PayloadPos(script, i) <= PayloadPos(script, j))
  }

  // ----- the archive that has to come out

  /** A position of the archive: a payload byte, or a whole injected chunk. */
  datatype Elem = Payload(b: byte) | Reused(e: Entry)

  function AsElems(s: seq<byte>): (r: seq<Elem>)
    ensures |r| == |s|
  {
    seq(|s|, i requires 0 <= i < |s| => Payload(s[i]))
  }

  function Entries(s: seq<Entry>): (r: seq<Elem>)
    ensures |r| == |s|
  {
    seq(|s|, i requires 0 <= i < |s| => Reused(s[i]))
  }

  /** What remains of the archive after `p` payload bytes and `c` injections: the input with every
      injection placed at its offset. */
  ghost function Splice(input: seq<byte>, script: seq<Inject>, p: nat, c: nat): (r: seq<Elem>)
    requires Orderly(script, |input|)
    requires p <= |input| && c <= |script| && (c < |script| ==> p <= PayloadPos(script, c))
    decreases |script| - c
  {
    if c == |script| then AsElems(input[p..])
    else
      var q := PayloadPos(script, c);
      AsElems(input[p..q]) + Entries(script[c].chunks) + Splice(input, script, q, c + 1)
  }

  lemma ElemsAppend(a: seq<byte>, b: seq<byte>)
    ensures AsElems(a + b) == AsElems(a) + AsElems(b)
  {
  }

  /** Taking payload bytes off the front of what remains. */
  lemma SplicePayload(input: seq<byte>, script: seq<Inject>, p: nat, p': nat, c: nat)
    requires Orderly(script, |input|)
    requires p <= p' <= |input| && c <= |script| && (c < |script| ==> p' <= PayloadPos(script, c))
    ensures Splice(input, script, p, c) == AsElems(input[p..p']) + Splice(input, script, p', c)
  {
    hide Orderly, PayloadPos, AsElems, Entries;
    QBound(input, script, c);
    if c == |script| {
      assert input[p..] == input[p..p'] + input[p'..];
      ElemsAppend(input[p..p'], input[p'..]);
    } else {
      var q := PayloadPos(script, c);
      assert input[p..q] == input[p..p'] + input[p'..q];
      ElemsAppend(input[p..p'], input[p'..q]);
      ConcatFour(AsElems(input[p..p']), AsElems(input[p'..q]), Entries(script[c].chunks),
                 Splice(input, script, q, c + 1));
    }
  }

  lemma ConcatFour<T>(a: seq<T>, b: seq<T>, c: seq<T>, d: seq<T>)
    ensures a + b + c + d == a + (b + c + d)
  {
  }

  lemma QBound(input: seq<byte>, script: seq<Inject>, c: nat)
    requires Orderly(script, |input|) && c <= |script|
    ensures c < |script| ==> 0 <= PayloadPos(script, c) < |input|
    ensures c + 1 < |script| ==> PayloadPos(script, c) <= PayloadPos(script, c + 1)
  {
  }

  /** Taking an injection off the front when its place is reached. */
  lemma SpliceInject(input: seq<byte>, script: seq<Inject>, c: nat)
    requires Orderly(script, |input|) && c < |script|
    ensures var q := PayloadPos(script, c);
            && 0 <= q < |input|
            && (c + 1 < |script| ==> q <= PayloadPos(script, c + 1))
            && Splice(input, script, q, c) == Entries(script[c].chunks) + Splice(input, script, q, c + 1)
  {
    hide Entries, AsElems;
    QBound(input, script, c);
    var q := PayloadPos(script, c);
    assert input[q..q] == [];
    assert AsElems([]) == [];
    assert [] + Entries(script[c].chunks) == Entries(script[c].chunks);
  }

  // ----- the producer

  function Concat(pieces: seq<seq<byte>>): seq<byte>
  {
    if pieces == [] then [] else pieces[0] + Concat(pieces[1..])
  }

  /** What the input answers when it is polled: data, possibly none, or an error. */
  datatype Poll = Data(bytes: seq<byte>) | Broken

  function Gathered(polls: seq<Poll>): seq<byte>
  {
    if polls == [] then []
    else (match polls[0] case Data(bytes) => bytes case Broken => []) + Gathered(polls[1..])
  }

  /** The input does not fail. */
  predicate Intact(polls: seq<Poll>)
  {
    Broken !in polls
  }

  datatype Yield = Piece(data: seq<byte>) | Failed | Done

  /** The producer's side: it yields the input in pieces and announces each injection, in order and
      at any time before it yields a byte past the injection's place. A pending input is an empty
      piece. */
  class Source {
    ghost const input: seq<byte>
    const script: seq<Inject>
    var polls: seq<Poll>
    var yielded: nat
    var announced: nat

    constructor (polls: seq<Poll>, injections: seq<Inject>)
      requires Orderly(injections, |Gathered(polls)|)
      ensures Valid() && input == Gathered(polls) && script == injections
      ensures yielded == 0 && this.polls == polls
    {
      input := Gathered(polls);
      script, this.polls, yielded, announced := injections, polls, 0, 0;
    }

    ghost predicate Valid()
      reads this
    {
      && Orderly(script, |input|)
      && yielded <= |input| && Gathered(polls) == input[yielded..]
      && announced <= |script| && InTime(announced, yielded)
    }

    /** Every injection not among the first `a` lies at or after payload position `y`. */
    predicate InTime(a: nat, y: nat)
    {
      forall j :: a <= j < |script| ==> y <= PayloadPos(script, j)
    }

    /** The producer may announce more at any time. */
    method Tick()
      requires Valid()
      modifies this`announced
      ensures Valid() && old(announced) <= announced
    {
      var a: nat := *;
      if announced < a <= |script| {
        announced := a;
      }
    }

    method Next() returns (r: Yield)
      requires Valid()
      modifies this`polls, this`yielded, this`announced
      ensures Valid() && old(announced) <= announced
      ensures r.Done? ==> old(polls) == polls == [] && yielded == old(yielded) == |input|
      ensures !r.Done? ==> old(polls) != [] && polls == old(polls)[1..]
      ensures r.Piece? ==> old(polls)[0] == Data(r.data)
      ensures r.Piece? ==> yielded == old(yielded) + |r.data| && r.data == input[old(yielded)..yielded]
      ensures r.Failed? ==> old(polls)[0] == Broken && yielded == old(yielded)
    {
      hide Orderly, PayloadPos;
      if polls == [] {
        return Done;
      }
      if polls[0] == Broken {
        polls := polls[1..];
        return Failed;
      }
      var d := polls[0].bytes;
      var a: nat := *;
      if !(announced <= a <= |script| && InTime(a, yielded + |d|)) {
        a := |script|;
      }
      announced := a;
      ghost var rest := Gathered(polls[1..]);
      assert input[yielded..] == d + rest;
      assert input[yielded..yielded + |d|] == (d + rest)[..|d|] == d;
      assert input[yielded + |d|..] == (d + rest)[|d|..] == rest;
      polls, yielded := polls[1..], yielded + |d|;
      return Piece(d);
    }
  }

  lemma NothingBroken()
    ensures Intact([])
  {
  }

  lemma IntactStep(polls: seq<Poll>)
    requires polls != []
    ensures Intact(polls) <==> polls[0] != Broken && Intact(polls[1..])
  {
    assert polls == [polls[0]] + polls[1..];
  }

  /** The queue that carries an injection from the chunk stream to its consumer. */
  class Channel {
    var queue: seq<Inject>

    constructor ()
      ensures queue == []
    {
      queue := [];
    }
  }
}
