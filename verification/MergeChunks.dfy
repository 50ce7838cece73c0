/** Merging adjacent batches of known chunks, so that they are appended to the index together. */
module MergeChunks {
  import opened Bytes

  /** An index entry to append: where the chunk starts in the archive, and its digest. */
  datatype Rec = Rec(offset: nat, digest: Digest)

  datatype Merged = Known(list: seq<Rec>) | New(rec: Rec, len: nat)

  /** A single chunk of a stream of batches. */
  datatype Atom = KnownAtom(rec: Rec) | NewAtom(rec: Rec, len: nat)

  function ListAtoms(list: seq<Rec>): (r: seq<Atom>)
    ensures |r| == |list|
  {
    seq(|list|, i requires 0 <= i < |list| => KnownAtom(list[i]))
  }

  function ItemAtoms(m: Merged): seq<Atom>
  {
    match m case Known(list) => ListAtoms(list) case New(rec, len) => [NewAtom(rec, len)]
  }

  /** The chunks of a stream of batches, in order. */
  function Atoms(items: seq<Merged>): seq<Atom>
  {
    if items == [] then [] else ItemAtoms(items[0]) + Atoms(items[1..])
  }

  function Held(buffer: Option<Merged>): seq<Merged>
  {
    match buffer case None => [] case Some(m) => [m]
  }

  /** What one input item does: the new buffer, and the batch that is passed on, if any. */
  function Step(buffer: Option<Merged>, item: Merged): (Option<Merged>, Option<Merged>)
  {
    match item
    case Known(list) => (
      match buffer
      case None => (Some(item), None)
      case Some(Known(last)) =>
        if |last + list| >= 64 then (None, Some(Known(last + list))) else (Some(Known(last + list)), None)
      case Some(New(_, _)) => (Some(item), buffer))
    case New(_, _) =>
      if buffer.Some? then (Some(item), buffer) else (None, Some(item))
  }

  /** Everything that is passed on for a whole input. */
  function MergeAll(buffer: Option<Merged>, input: seq<Merged>): (out: seq<Merged>)
    decreases |input|
  {
    if input == [] then Held(buffer) else
    var (b, o) := Step(buffer, input[0]);
    Held(o) + MergeAll(b, input[1..])
  }

  class Queue {
    var input: seq<Merged>
    var buffer: Option<Merged>

    constructor (items: seq<Merged>)
      ensures input == items && buffer == None
    {
      input, buffer := items, None;
    }

    /** Pulls input until a batch can be passed on. */
    method PollNext() returns (r: Option<Merged>)
      modifies this
      ensures MergeAll(old(buffer), old(input)) == Held(r) + MergeAll(buffer, input)
      ensures r.None? ==> input == [] && buffer == None
      ensures r.Some? ==> |input| + |Held(buffer)| < |old(input)| + |Held(old(buffer))|
    {
      ghost var all := MergeAll(buffer, input);
      while true
        invariant MergeAll(buffer, input) == all
        invariant |input| + |Held(buffer)| <= |old(input)| + |Held(old(buffer))|
        decreases |input|
      {
        if input == [] {
          r, buffer := buffer, None;
          assert Held(r) + [] == Held(r);
          return;
        }
        var item := input[0];
        input := input[1..];
        match item {
          case Known(list) =>
            match buffer {
              case None => buffer := Some(Known(list));
              case Some(Known(last)) =>
                var longer := last + list;
                buffer := Some(Known(longer));
                if |longer| >= 64 {
                  r, buffer := buffer, None;
                  return;
                }
              case Some(New(_, _)) =>
                r, buffer := buffer, Some(Known(list));
                return;
            }
          case New(_, _) =>
            if buffer.Some? {
              r, buffer := buffer, Some(item);
            } else {
              r := Some(item);
            }
            return;
        }
      }
    }
  }

  method MergeStream(items: seq<Merged>) returns (out: seq<Merged>)
    ensures out == MergeAll(None, items)
  {
    var q := new Queue(items);
    out := [];
    while true
      invariant out + MergeAll(q.buffer, q.input) == MergeAll(None, items)
      decreases |q.input| + |Held(q.buffer)|
    {
      ghost var b, i := q.buffer, q.input;
      var r := q.PollNext();
      assert out + (Held(r) + MergeAll(q.buffer, q.input)) == out + Held(r) + MergeAll(q.buffer, q.input);
      if r.None? { return; }
      out := out + [r.value];
    }
  }

  // ----- what merging keeps

  lemma {:induction false} AtomsAppend(a: seq<Merged>, b: seq<Merged>)
    ensures Atoms(a + b) == Atoms(a) + Atoms(b)
    decreases |a|
  {
    hide ItemAtoms;
    if a == [] {
      assert a + b == b;
    } else {
      assert (a + b)[1..] == a[1..] + b;
      AtomsAppend(a[1..], b);
    }
  }

  lemma AtomsOne(m: Merged)
    ensures Atoms([m]) == ItemAtoms(m)
  {
    assert [m][1..] == [];
  }

  lemma StepKeeps(buffer: Option<Merged>, item: Merged)
    ensures var (b, o) := Step(buffer, item);
            Atoms(Held(o)) + Atoms(Held(b)) == Atoms(Held(buffer)) + ItemAtoms(item)
  {
    AtomsOne(item);
    if buffer.Some? {
      AtomsOne(buffer.value);
      if buffer.value.Known? && item.Known? {
        AtomsOne(Known(buffer.value.list + item.list));
        assert ListAtoms(buffer.value.list + item.list) == ListAtoms(buffer.value.list) + ListAtoms(item.list);
      }
    }
  }

  /** Merging keeps every chunk, its kind and the order, whatever the buffer holds. */
  lemma {:induction false} MergeKeeps(buffer: Option<Merged>, input: seq<Merged>)
    ensures Atoms(MergeAll(buffer, input)) == Atoms(Held(buffer)) + Atoms(input)
    decreases |input|
  {
    hide Step, ItemAtoms;
    if input != [] {
      var (b, o) := Step(buffer, input[0]);
      StepKeeps(buffer, input[0]);
      MergeKeeps(b, input[1..]);
      AtomsAppend(Held(o), MergeAll(b, input[1..]));
      Assoc(Atoms(Held(o)), Atoms(Held(b)), Atoms(input[1..]));
      Assoc(Atoms(Held(buffer)), ItemAtoms(input[0]), Atoms(input[1..]));
    }
  }

  /** Two adjacent batches of known chunks are passed on only if the first holds at least 64. */
  ghost predicate Spaced(out: seq<Merged>)
  {
    forall i :: 0 <= i < |out| - 1 && out[i].Known? && out[i + 1].Known? ==> |out[i].list| >= 64
  }

  lemma NewComesFirst(rec: Rec, len: nat, input: seq<Merged>)
    ensures MergeAll(Some(New(rec, len)), input) != [] && MergeAll(Some(New(rec, len)), input)[0] == New(rec, len)
  {
  }

  lemma {:induction false} MergeSpaced(buffer: Option<Merged>, input: seq<Merged>)
    ensures Spaced(MergeAll(buffer, input))
    decreases |input|
  {
    if input != [] {
      var (b, o) := Step(buffer, input[0]);
      MergeSpaced(b, input[1..]);
      if input[0].New? { NewComesFirst(input[0].rec, input[0].len, input[1..]); }
    }
  }

  predicate NoLonger(m: Merged, bound: nat)
  {
    m.Known? ==> |m.list| <= bound
  }

  /** A batch is passed on as soon as it holds 64: if no input batch holds more than `k`, none grows to more than
      63 and one such batch, or to two of them. Grown from single chunks, it is passed on with exactly 64. */
  lemma {:induction false} MergeBound(buffer: Option<Merged>, input: seq<Merged>, k: nat)
    requires forall i :: 0 <= i < |input| ==> NoLonger(input[i], k)
    requires buffer.Some? ==> NoLonger(buffer.value, if k < 63 then 63 else k)
    ensures forall i :: 0 <= i < |MergeAll(buffer, input)| ==>
              NoLonger(MergeAll(buffer, input)[i], (if k < 63 then 63 else k) + k)
    decreases |input|
  {
    if input != [] {
      MergeBound(Step(buffer, input[0]).0, input[1..], k);
    }
  }

  /** What goes into the second merge: once its upload is answered, a new chunk is a known one. */
  function Acknowledged(items: seq<Merged>): (r: seq<Merged>)
    ensures |r| == |items| && forall i :: 0 <= i < |r| ==> r[i].Known?
  {
    if items == [] then [] else
    [match items[0] case Known(_) => items[0] case New(rec, _) => Known([rec])] + Acknowledged(items[1..])
  }

  function Recs(atoms: seq<Atom>): (r: seq<Rec>)
    ensures |r| == |atoms|
  {
    seq(|atoms|, i requires 0 <= i < |atoms| => atoms[i].rec)
  }

  lemma RecsAppend(a: seq<Atom>, b: seq<Atom>)
    ensures Recs(a + b) == Recs(a) + Recs(b)
  {
  }

  lemma {:induction false} AcknowledgedKeeps(items: seq<Merged>)
    ensures Recs(Atoms(Acknowledged(items))) == Recs(Atoms(items))
    decreases |items|
  {
    hide Recs, ListAtoms;
    if items != [] {
      var head := Acknowledged(items)[0];
      AcknowledgedKeeps(items[1..]);
      assert Acknowledged(items)[1..] == Acknowledged(items[1..]);
      RecsAppend(ItemAtoms(head), Atoms(Acknowledged(items[1..])));
      RecsAppend(ItemAtoms(items[0]), Atoms(items[1..]));
      OneRec(items[0]);
    }
  }

  lemma OneRec(m: Merged)
    ensures m.New? ==> Recs(ListAtoms([m.rec])) == Recs([NewAtom(m.rec, m.len)])
  {
  }

  lemma {:induction false} KnownStaysKnown(buffer: Option<Merged>, input: seq<Merged>)
    requires (buffer.Some? ==> buffer.value.Known?) && forall i :: 0 <= i < |input| ==> input[i].Known?
    ensures forall i :: 0 <= i < |MergeAll(buffer, input)| ==> MergeAll(buffer, input)[i].Known?
    decreases |input|
  {
    if input != [] {
      KnownStaysKnown(Step(buffer, input[0]).0, input[1..]);
    }
  }

  /** The pipeline merges twice, before the upload and after its answers: what is appended in the end are
      known chunks only, all of them, in order, in batches of at least 64 except for the last. */
  lemma MergeTwice(input: seq<Merged>)
    ensures var out := MergeAll(None, Acknowledged(MergeAll(None, input)));
            && Recs(Atoms(out)) == Recs(Atoms(input))
            && (forall i :: 0 <= i < |out| ==> out[i].Known?)
            && (forall i :: 0 <= i < |out| - 1 ==> |out[i].list| >= 64)
  {
    hide MergeAll, Recs;
    var first := MergeAll(None, input);
    NoneHeld();
    MergeKeeps(None, input);
    AcknowledgedKeeps(first);
    MergeKeeps(None, Acknowledged(first));
    KnownStaysKnown(None, Acknowledged(first));
    MergeSpaced(None, Acknowledged(first));
    var out := MergeAll(None, Acknowledged(first));
    forall i | 0 <= i < |out| - 1 ensures |out[i].list| >= 64 {
      assert out[i].Known? && out[i + 1].Known?;
    }
  }

  lemma NoneHeld()
    ensures forall s :: Atoms(Held(None)) + s == s
  {
  }
}
