/** Inserting and touching chunks while a garbage-collection sweep removes unused ones. Every
    operation holds the store's mutex, so each is one atomic step. */
module ChunkStore {
  import opened Bytes

  // ----- files

  /** What the first eight bytes of a chunk file say. */
  datatype Magic = Uncompressed | Compressed | Encrypted | EncrCompr | Unknown

  datatype File = File(atime: int, size: nat, magic: Magic, regular: bool)

  /** Chunk files, damaged copies set aside, and the in-use markers of a remote backend. */
  datatype Ext = Plain | Bad(n: nat) | UsedMarker

  datatype Name = Name(digest: Digest, ext: Ext)

  type Files = map<Name, File>

  /** A chunk to insert: its encoded form. */
  datatype Blob = Blob(size: nat, encrypted: bool, compressed: bool)

  function MagicOf(b: Blob): Magic
  {
    if b.encrypted then (if b.compressed then EncrCompr else Encrypted)
    else (if b.compressed then Compressed else Uncompressed)
  }

  // ----- inserting and touching

  /** Sets the access time of an existing file. */
  function Touched(files: Files, name: Name, now: int): Files
    requires name in files
  {
    files[name := files[name].(atime := now)]
  }

  datatype Inserted = Inserted(files: Files, existed: bool, size: nat)

  /** Inserting a chunk: an existing file of the same size is kept, an empty or bigger one replaced,
      a smaller one kept; an encrypted chunk never replaces a file of another size. */
  function InsertChunk(files: Files, digest: Digest, b: Blob, now: int): (r: Result<Inserted>)
  {
    var name := Name(digest, Plain);
    var replaced := Ok(Inserted(files[name := File(now, b.size, MagicOf(b), true)], false, b.size));
    if name !in files then replaced else
    var there := files[name];
    var kept := Ok(Inserted(Touched(files, name, now), true, there.size));
    if !there.regular then Err("got unexpected file type")
    else if b.size == there.size then kept
    else if there.size == 0 then replaced
    else if b.encrypted then
      if there.size < 8 then Err("Failed to read magic number")
      else if there.magic == Uncompressed || there.magic == Compressed then
        Err("Cannot overwrite existing unencrypted chunk")
      else if there.magic == Encrypted && !b.compressed then Err("Found existing encrypted chunk of different size")
      else kept
    else if there.size < b.size then kept
    else replaced
  }

  /** Touching a chunk; a missing one is an error only if it has to exist. */
  function CondTouch(files: Files, digest: Digest, assertExists: bool, now: int): (r: Result<(Files, bool)>)
  {
    var name := Name(digest, Plain);
    if name in files then Ok((Touched(files, name, now), true))
    else if assertExists then Err("update atime failed")
    else Ok((files, false))
  }

  /** A successful insert leaves exactly this chunk changed, present and accessed now. */
  lemma InsertLeaves(files: Files, digest: Digest, b: Blob, now: int)
    requires InsertChunk(files, digest, b, now).Ok?
    ensures var r := InsertChunk(files, digest, b, now).value;
            var name := Name(digest, Plain);
            && r.files.Keys == files.Keys + {name}
            && r.files[name].atime == now && r.files[name].size == r.size
            && (forall n :: n in files && n != name ==> r.files[n] == files[n])
            && (r.existed ==> name in files && r.files[name] == files[name].(atime := now))
            && (!r.existed ==> r.size == b.size)
            && (name in files && !r.existed ==> files[name].size == 0 || b.size < files[name].size)
            && (b.encrypted && name in files && files[name].size > 0 ==> r.existed)
  {
  }

  /** An encrypted chunk does not go over a file of another size: the file is too short to tell, holds
      unencrypted data, or both are encrypted and uncompressed, so that one of them has to be damaged. */
  predicate Refuses(there: File, b: Blob)
  {
    && there.size != b.size && there.size > 0 && b.encrypted
    && (there.size < 8 || there.magic in {Uncompressed, Compressed} || (there.magic == Encrypted && !b.compressed))
  }

  /** What an insert does, by the file that is there: it fails exactly if that is no regular file or refuses the
      chunk; it writes the chunk exactly if there is no file, an empty one, or a bigger unencrypted one; else
      the file stays. An unencrypted chunk ends up at the smallest size seen that is not 0. */
  lemma InsertDecides(files: Files, digest: Digest, b: Blob, now: int)
    ensures var r, name := InsertChunk(files, digest, b, now), Name(digest, Plain);
            && (r.Err? <==> name in files && (!files[name].regular || Refuses(files[name], b)))
            && (r.Ok? ==>
                  && (!r.value.existed <==> name !in files || (files[name].size == 0 && b.size > 0)
                                            || (!b.encrypted && b.size < files[name].size))
                  && (!r.value.existed ==> r.value.size == b.size && r.value.files.Keys == files.Keys + {name}
                                           && Holds(r.value.files[name], b) && r.value.files[name].atime == now)
                  && (r.value.existed ==> name in files && r.value.size == files[name].size
                                          && r.value.files == files[name := files[name].(atime := now)])
                  && (b.size > 0 ==> r.value.files[name].size > 0)
                  && (!b.encrypted && name in files && files[name].size > 0 ==>
                        r.value.size <= b.size && r.value.size <= files[name].size))
  {
  }

  /** The file is the chunk as it was encoded. */
  predicate Holds(f: File, b: Blob)
  {
    && f.regular && f.size == b.size
    && (f.magic in {Encrypted, EncrCompr} <==> b.encrypted) && (f.magic in {Compressed, EncrCompr} <==> b.compressed)
    && f.magic != Unknown
  }

  /** Inserting a chunk again finds it and changes nothing. */
  lemma InsertTwice(files: Files, digest: Digest, b: Blob, now: int)
    requires InsertChunk(files, digest, b, now).Ok?
    ensures var r := InsertChunk(files, digest, b, now).value;
            InsertChunk(r.files, digest, b, now) == Ok(Inserted(r.files, true, r.size))
  {
    var r, name := InsertChunk(files, digest, b, now).value, Name(digest, Plain);
    assert r.files[name := r.files[name]] == r.files;
  }

  // ----- the sweep

  datatype Status = Status(
    removedBytes: nat, pendingBytes: nat, diskBytes: nat,
    removedChunks: nat, pendingChunks: nat, diskChunks: nat,
    removedBad: nat, stillBad: nat)

  /** What the sweep does with a file of the given age; whether it removes it. */
  function Account(st: Status, f: File, bad: bool, minAtime: int, oldestWriter: int): (r: (Status, bool))
  {
    if f.atime < minAtime then
      ((if bad then st.(removedBad := st.removedBad + 1) else st.(removedChunks := st.removedChunks + 1))
         .(removedBytes := st.removedBytes + f.size), true)
    else if f.atime < oldestWriter then
      ((if bad then st.(stillBad := st.stillBad + 1) else st.(pendingChunks := st.pendingChunks + 1))
         .(pendingBytes := st.pendingBytes + f.size), false)
    else
      ((if bad then st else st.(diskChunks := st.diskChunks + 1)).(diskBytes := st.diskBytes + f.size), false)
  }

  datatype Swept = Swept(files: Files, status: Status)

  /** One entry of the directory iterator. The entry may be gone; markers are removed uncounted. */
  function SweepOne(files: Files, st: Status, name: Name, minAtime: int, oldestWriter: int): (r: Swept)
  {
    if name !in files || !files[name].regular then Swept(files, st)
    else if name.ext == UsedMarker then Swept(files - {name}, st)
    else
      var (st', remove) := Account(st, files[name], name.ext.Bad?, minAtime, oldestWriter);
      Swept(if remove then files - {name} else files, st')
  }

  /** Whether the sweep counts this entry. */
  predicate Examined(files: Files, name: Name)
  {
    name in files && files[name].regular && name.ext != UsedMarker
  }

  // ----- all interleavings

  datatype Config = Config(minAtime: int, oldestWriter: int)

  /** `touched` are the chunks successfully inserted or touched at or after the minimum access time;
      `examined` are the files the sweep has counted. */
  datatype State = State(files: Files, now: int, status: Status, touched: set<Digest>, examined: seq<(File, bool)>)

  function Protect(s: State, cfg: Config, digest: Digest): set<Digest>
  {
    if s.now >= cfg.minAtime then s.touched + {digest} else s.touched
  }

  /** The clock does not run backwards. */
  predicate TickStep(s: State, s': State)
  {
    s'.now >= s.now && s' == s.(now := s'.now)
  }

  predicate InsertStep(s: State, s': State, cfg: Config, digest: Digest, b: Blob)
  {
    var r := InsertChunk(s.files, digest, b, s.now);
    s' == if r.Err? then s else s.(files := r.value.files, touched := Protect(s, cfg, digest))
  }

  predicate TouchStep(s: State, s': State, cfg: Config, digest: Digest, assertExists: bool)
  {
    var r := CondTouch(s.files, digest, assertExists, s.now);
    s' == if r.Err? || !r.value.1 then s else s.(files := r.value.0, touched := Protect(s, cfg, digest))
  }

  predicate SweepStep(s: State, s': State, cfg: Config, name: Name)
  {
    var r := SweepOne(s.files, s.status, name, cfg.minAtime, cfg.oldestWriter);
    s' == s.(files := r.files, status := r.status,
             examined := if Examined(s.files, name) then s.examined + [(s.files[name], name.ext.Bad?)] else s.examined)
  }

  /** One step of one thread. A chunk to insert has at least its header. */
  ghost predicate Next(s: State, s': State, cfg: Config)
  {
    || TickStep(s, s')
    || (exists d, b: Blob :: b.size > 0 && InsertStep(s, s', cfg, d, b))
    || (exists d, a :: TouchStep(s, s', cfg, d, a))
    || (exists n :: SweepStep(s, s', cfg, n))
  }

  const ZERO := Status(0, 0, 0, 0, 0, 0, 0, 0)

  ghost predicate IsRun(run: seq<State>, cfg: Config)
  {
    && run != [] && run[0].status == ZERO && run[0].touched == {} && run[0].examined == []
    && forall i :: 0 <= i < |run| - 1 ==> Next(run[i], run[i + 1], cfg)
  }

  // ----- safety and conservation

  function SumSizes(ex: seq<(File, bool)>): nat
  {
    if ex == [] then 0 else SumSizes(ex[..|ex| - 1]) + ex[|ex| - 1].0.size
  }

  datatype Age = Unused | Waiting | Current

  /** Unused since the minimum access time, not used since the oldest writer began, or in use. */
  function AgeOf(f: File, cfg: Config): Age
  {
    if f.atime >= cfg.minAtime && f.atime >= cfg.oldestWriter then Current
    else if f.atime >= cfg.minAtime then Waiting
    else Unused
  }

  /** The bytes of the counted files of one age. */
  function BytesOf(ex: seq<(File, bool)>, cfg: Config, age: Age): nat
  {
    if ex == [] then 0 else
    var (f, _) := ex[|ex| - 1];
    BytesOf(ex[..|ex| - 1], cfg, age) + if AgeOf(f, cfg) == age then f.size else 0
  }

  /** The number of counted files of one age, chunks or damaged copies. */
  function CountOf(ex: seq<(File, bool)>, cfg: Config, age: Age, bad: bool): nat
  {
    if ex == [] then 0 else
    var (f, b) := ex[|ex| - 1];
    CountOf(ex[..|ex| - 1], cfg, age, bad) + if b == bad && AgeOf(f, cfg) == age then 1 else 0
  }

  /** Every sum is that of the counted files of its age. Damaged copies in use are in no number. */
  ghost predicate Balanced(st: Status, ex: seq<(File, bool)>, cfg: Config)
  {
    && st.removedBytes == BytesOf(ex, cfg, Unused) && st.pendingBytes == BytesOf(ex, cfg, Waiting)
    && st.diskBytes == BytesOf(ex, cfg, Current)
    && st.removedChunks == CountOf(ex, cfg, Unused, false) && st.pendingChunks == CountOf(ex, cfg, Waiting, false)
    && st.diskChunks == CountOf(ex, cfg, Current, false)
    && st.removedBad == CountOf(ex, cfg, Unused, true) && st.stillBad == CountOf(ex, cfg, Waiting, true)
  }

  function Count(ex: seq<(File, bool)>, bad: bool): nat
  {
    if ex == [] then 0 else Count(ex[..|ex| - 1], bad) + if ex[|ex| - 1].1 == bad then 1 else 0
  }

  /** Conservation: every byte and every chunk counted is in exactly one of the sums, every damaged copy is in
      one or in use. */
  lemma {:induction false} NothingLost(ex: seq<(File, bool)>, cfg: Config)
    ensures BytesOf(ex, cfg, Unused) + BytesOf(ex, cfg, Waiting) + BytesOf(ex, cfg, Current) == SumSizes(ex)
    ensures forall bad :: CountOf(ex, cfg, Unused, bad) + CountOf(ex, cfg, Waiting, bad)
                          + CountOf(ex, cfg, Current, bad) == Count(ex, bad)
    decreases |ex|
  {
    if ex != [] { NothingLost(ex[..|ex| - 1], cfg); }
  }

  ghost predicate Safe(s: State, cfg: Config)
  {
    && (s.touched != {} ==> s.now >= cfg.minAtime)
    && (forall d :: d in s.touched ==> Name(d, Plain) in s.files && s.files[Name(d, Plain)].atime >= cfg.minAtime)
  }

  ghost predicate Inv(s: State, cfg: Config)
  {
    Safe(s, cfg) && Balanced(s.status, s.examined, cfg)
  }

  lemma InsertKeeps(s: State, s': State, cfg: Config, d: Digest, b: Blob)
    requires Inv(s, cfg) && InsertStep(s, s', cfg, d, b)
    ensures Inv(s', cfg)
  {
    hide InsertChunk, Balanced;
    if InsertChunk(s.files, d, b, s.now).Ok? { InsertLeaves(s.files, d, b, s.now); }
  }

  lemma TouchKeeps(s: State, s': State, cfg: Config, d: Digest, a: bool)
    requires Inv(s, cfg) && TouchStep(s, s', cfg, d, a)
    ensures Inv(s', cfg)
  {
    hide Balanced;
  }

  lemma SweepKeeps(s: State, s': State, cfg: Config, name: Name)
    requires Inv(s, cfg) && SweepStep(s, s', cfg, name)
    ensures Inv(s', cfg)
  {
    hide Balanced;
    if Examined(s.files, name) {
      AccountBalances(s.status, s.examined, s.files[name], name.ext.Bad?, cfg);
    }
  }

  lemma AccountBalances(st: Status, ex: seq<(File, bool)>, f: File, bad: bool, cfg: Config)
    requires Balanced(st, ex, cfg)
    ensures Balanced(Account(st, f, bad, cfg.minAtime, cfg.oldestWriter).0, ex + [(f, bad)], cfg)
  {
    assert (ex + [(f, bad)])[..|ex|] == ex;
  }

  lemma NextKeeps(s: State, s': State, cfg: Config)
    requires Inv(s, cfg) && Next(s, s', cfg)
    ensures Inv(s', cfg)
  {
    hide InsertStep, TouchStep, SweepStep, Balanced;
    if TickStep(s, s') {
    } else if d, b: Blob :| b.size > 0 && InsertStep(s, s', cfg, d, b) {
      InsertKeeps(s, s', cfg, d, b);
    } else if d, a :| TouchStep(s, s', cfg, d, a) {
      TouchKeeps(s, s', cfg, d, a);
    } else {
      var n :| SweepStep(s, s', cfg, n);
      SweepKeeps(s, s', cfg, n);
    }
  }

  lemma {:induction false} RunKeeps(run: seq<State>, cfg: Config, i: nat)
    requires IsRun(run, cfg) && i < |run|
    ensures Inv(run[i], cfg)
    decreases i
  {
    if i > 0 {
      RunKeeps(run, cfg, i - 1);
      NextKeeps(run[i - 1], run[i], cfg);
    }
  }

  lemma {:induction false} TouchedGrows(run: seq<State>, cfg: Config, i: nat, j: nat)
    requires IsRun(run, cfg) && i <= j < |run|
    ensures run[i].touched <= run[j].touched
    decreases j
  {
    if i < j {
      TouchedGrows(run, cfg, i, j - 1);
      assert Next(run[j - 1], run[j], cfg);
    }
  }

  /** Sweep safety over every interleaving: a chunk inserted or touched in time is there from then on,
      and the bytes removed, pending and kept are those of the files examined. */
  lemma SweepIsSafe(run: seq<State>, cfg: Config, i: nat, j: nat, d: Digest)
    requires IsRun(run, cfg) && i <= j < |run| && d in run[i].touched
    ensures Name(d, Plain) in run[j].files && run[j].files[Name(d, Plain)].atime >= cfg.minAtime
    ensures var st := run[j].status;
            && Balanced(st, run[j].examined, cfg)
            && st.removedBytes + st.pendingBytes + st.diskBytes == SumSizes(run[j].examined)
            && st.removedChunks + st.pendingChunks + st.diskChunks == Count(run[j].examined, false)
            && st.removedBad + st.stillBad + CountOf(run[j].examined, cfg, Current, true)
               == Count(run[j].examined, true)
  {
    TouchedGrows(run, cfg, i, j);
    RunKeeps(run, cfg, j);
    NothingLost(run[j].examined, cfg);
  }

  /** The step inserts the chunk, or touches it where it exists. */
  ghost predicate Uses(s: State, s': State, cfg: Config, d: Digest)
  {
    || (exists b :: InsertStep(s, s', cfg, d, b) && InsertChunk(s.files, d, b, s.now).Ok?)
    || (exists a :: TouchStep(s, s', cfg, d, a) && CondTouch(s.files, d, a, s.now) == Ok((s'.files, true)))
  }

  /** In terms of the steps alone: whatever the sweep and the other threads do after a successful
      insert or touch at or after the minimum access time, the chunk is there. */
  lemma UsedInTimeStays(run: seq<State>, cfg: Config, i: nat, j: nat, d: Digest)
    requires IsRun(run, cfg) && i < j < |run| && run[i].now >= cfg.minAtime && Uses(run[i], run[i + 1], cfg, d)
    ensures Name(d, Plain) in run[j].files && run[j].files[Name(d, Plain)].atime >= cfg.minAtime
  {
    hide IsRun, InsertChunk, CondTouch;
    assert d in run[i + 1].touched;
    SweepIsSafe(run, cfg, i + 1, j, d);
  }

  lemma NextFilled(s: State, s': State, cfg: Config, n: Name)
    requires Next(s, s', cfg) && n in s.files && n in s'.files && s.files[n].size > 0
    ensures s'.files[n].size > 0
  {
    hide InsertChunk;
    if d, b: Blob :| b.size > 0 && InsertStep(s, s', cfg, d, b) {
      InsertDecides(s.files, d, b, s.now);
      if InsertChunk(s.files, d, b, s.now).Ok? { InsertLeaves(s.files, d, b, s.now); }
    }
  }

  lemma {:induction false} FilledStays(run: seq<State>, cfg: Config, i: nat, j: nat, d: Digest)
    requires IsRun(run, cfg) && i <= j < |run| && d in run[i].touched
    requires Name(d, Plain) in run[i].files && run[i].files[Name(d, Plain)].size > 0
    ensures Name(d, Plain) in run[j].files && run[j].files[Name(d, Plain)].size > 0
    decreases j
  {
    hide Next;
    if i < j {
      FilledStays(run, cfg, i, j - 1, d);
      SweepIsSafe(run, cfg, i, j, d);
      assert Next(run[j - 1], run[j], cfg);
      NextFilled(run[j - 1], run[j], cfg, Name(d, Plain));
    }
  }

  /** A chunk that was inserted in time stays stored: whatever the sweep and the other threads do, and whatever
      was there before, its file is there and is not empty. */
  lemma InsertedStays(run: seq<State>, cfg: Config, i: nat, j: nat, d: Digest, b: Blob)
    requires IsRun(run, cfg) && i < j < |run| && run[i].now >= cfg.minAtime && b.size > 0
    requires InsertStep(run[i], run[i + 1], cfg, d, b) && InsertChunk(run[i].files, d, b, run[i].now).Ok?
    ensures Name(d, Plain) in run[j].files && run[j].files[Name(d, Plain)].size > 0
    ensures run[j].files[Name(d, Plain)].atime >= cfg.minAtime
  {
    hide IsRun, InsertChunk;
    InsertDecides(run[i].files, d, b, run[i].now);
    InsertLeaves(run[i].files, d, b, run[i].now);
    FilledStays(run, cfg, i + 1, j, d);
    SweepIsSafe(run, cfg, i + 1, j, d);
  }

  // ----- a whole sweep

  /** What other threads make of the store between two turns of the sweep: chunks are inserted or touched,
      at the time at which that happens; nothing is removed and nothing but chunks changes. */
  ghost predicate Quiet(s: State, t: State)
  {
    && s.now <= t.now && t.status == s.status && t.examined == s.examined && s.touched <= t.touched
    && (forall n :: n in s.files ==> n in t.files)
    && (forall n :: n in t.files ==>
          || (n in s.files && t.files[n] == s.files[n])
          || (n.ext == Plain && s.now <= t.files[n].atime <= t.now))
  }

  /** The state after the turn of one entry. */
  function AfterTurn(s: State, cfg: Config, name: Name): State
  {
    var r := SweepOne(s.files, s.status, name, cfg.minAtime, cfg.oldestWriter);
    s.(files := r.files, status := r.status, examined := s.examined + CountedOne(s, name))
  }

  /** The entry, if it is there, regular and no marker. */
  function CountedOne(s: State, name: Name): seq<(File, bool)>
  {
    if Examined(s.files, name) then [(s.files[name], name.ext.Bad?)] else []
  }

  /** The state in which entry `k` waits for its turn. */
  ghost function Before(start: State, cfg: Config, entries: seq<Name>, turns: seq<State>, k: nat): State
    requires k <= |turns| == |entries|
  {
    if k == 0 then start else AfterTurn(turns[k - 1], cfg, entries[k - 1])
  }

  /** The entries have their turns one after the other, with other threads in between. */
  ghost predicate IsSweep(start: State, cfg: Config, entries: seq<Name>, turns: seq<State>)
  {
    |turns| == |entries| && forall k :: 0 <= k < |turns| ==> Quiet(Before(start, cfg, entries, turns, k), turns[k])
  }

  /** The files counted, in order: those that were there, regular and no markers at their turn. */
  function Counted(entries: seq<Name>, turns: seq<State>): seq<(File, bool)>
    requires |turns| == |entries|
  {
    if entries == [] then [] else
    var n := |entries| - 1;
    Counted(entries[..n], turns[..n]) + CountedOne(turns[n], entries[n])
  }

  /** What an entry has come to: it is gone, or no regular file; otherwise it is no marker, and is as new as
      the minimum access time or is a chunk that was used since. */
  predicate Settled(files: Files, cfg: Config, name: Name, since: int)
  {
    || name !in files || !files[name].regular
    || (name.ext != UsedMarker && files[name].atime >= cfg.minAtime)
    || (name.ext == Plain && files[name].atime >= since)
  }

  lemma QuietStays(s: State)
    ensures Quiet(s, s)
  {
  }

  lemma QuietThen(s: State, t: State, u: State)
    requires Quiet(s, t) && Quiet(t, u)
    ensures Quiet(s, u)
  {
  }

  lemma InsertIsQuiet(s: State, s': State, cfg: Config, d: Digest, b: Blob)
    requires InsertStep(s, s', cfg, d, b)
    ensures Quiet(s, s')
  {
    hide InsertChunk;
    if InsertChunk(s.files, d, b, s.now).Ok? { InsertLeaves(s.files, d, b, s.now); }
  }

  lemma TouchIsQuiet(s: State, s': State, cfg: Config, d: Digest, a: bool)
    requires TouchStep(s, s', cfg, d, a)
    ensures Quiet(s, s')
  {
  }

  /** A turn settles its entry, keeps new files and every other one, and takes no time. */
  lemma TurnSettles(s: State, cfg: Config, name: Name, since: int)
    ensures var t := AfterTurn(s, cfg, name);
            && t.now == s.now && Settled(t.files, cfg, name, since)
            && (forall n :: n in t.files ==> n in s.files && t.files[n] == s.files[n])
            && (forall n :: n in s.files && (n != name || (n.ext != UsedMarker && s.files[n].atime >= cfg.minAtime)) ==>
                  n in t.files)
  {
  }

  lemma QuietSettled(s: State, t: State, cfg: Config, name: Name, since: int)
    requires Quiet(s, t) && Settled(s.files, cfg, name, since) && s.now >= since
    ensures Settled(t.files, cfg, name, since) && t.now >= since
  {
  }

  lemma FewerSettled(s: State, t: State, cfg: Config, name: Name, since: int)
    requires Settled(s.files, cfg, name, since) && forall n :: n in t.files ==> n in s.files && t.files[n] == s.files[n]
    ensures Settled(t.files, cfg, name, since)
  {
  }

  /** An entry that had its turn stays settled to the end of the sweep. */
  lemma {:induction false} StaysSettled(start: State, cfg: Config, entries: seq<Name>, turns: seq<State>, k: nat,
      j: nat)
    requires IsSweep(start, cfg, entries, turns) && k < j <= |turns|
    ensures var end := Before(start, cfg, entries, turns, j);
            Settled(end.files, cfg, entries[k], turns[k].now) && end.now >= turns[k].now
    decreases j
  {
    hide AfterTurn, Quiet, Settled;
    var s, since := turns[j - 1], turns[k].now;
    TurnSettles(s, cfg, entries[j - 1], since);
    if k + 1 < j {
      var waiting := Before(start, cfg, entries, turns, j - 1);
      StaysSettled(start, cfg, entries, turns, k, j - 1);
      assert Quiet(waiting, s);
      QuietSettled(waiting, s, cfg, entries[k], since);
      FewerSettled(s, AfterTurn(s, cfg, entries[j - 1]), cfg, entries[k], since);
    }
  }

  lemma QuietKeeps(s: State, t: State, cfg: Config, n: Name)
    requires Quiet(s, t) && n in s.files
    ensures n in t.files && t.now >= s.now
    ensures s.now >= cfg.minAtime && s.files[n].atime >= cfg.minAtime ==> t.files[n].atime >= cfg.minAtime
  {
  }

  /** A file that no entry names, or that is as new as a minimum access time in the past, is not removed. */
  lemma {:induction false} KeepsNew(start: State, cfg: Config, entries: seq<Name>, turns: seq<State>, j: nat, n: Name)
    requires IsSweep(start, cfg, entries, turns) && j <= |turns| && n in start.files
    requires n !in entries || (n.ext != UsedMarker && start.now >= cfg.minAtime && start.files[n].atime >= cfg.minAtime)
    ensures var end := Before(start, cfg, entries, turns, j);
            && n in end.files && end.now >= start.now
            && (n in entries ==> end.files[n].atime >= cfg.minAtime)
    decreases j
  {
    hide AfterTurn, Quiet, Settled;
    if j > 0 {
      var s, waiting := turns[j - 1], Before(start, cfg, entries, turns, j - 1);
      KeepsNew(start, cfg, entries, turns, j - 1, n);
      assert Quiet(waiting, s);
      QuietKeeps(waiting, s, cfg, n);
      TurnSettles(s, cfg, entries[j - 1], 0);
      assert entries[j - 1] in entries;
    }
  }

  lemma {:induction false} CountsAll(start: State, cfg: Config, entries: seq<Name>, turns: seq<State>, j: nat)
    requires IsSweep(start, cfg, entries, turns) && j <= |turns|
    ensures Before(start, cfg, entries, turns, j).examined == start.examined + Counted(entries[..j], turns[..j])
    decreases j
  {
    hide AfterTurn, Quiet, CountedOne, Counted;
    if j == 0 {
      NothingCounted(entries, turns);
      assert start.examined + [] == start.examined;
    } else {
      var s, waiting := turns[j - 1], Before(start, cfg, entries, turns, j - 1);
      CountsAll(start, cfg, entries, turns, j - 1);
      assert Quiet(waiting, s);
      QuietLater(waiting, s);
      TurnCounts(s, cfg, entries[j - 1]);
      CountedSnoc(entries, turns, j);
      assert start.examined + Counted(entries[..j - 1], turns[..j - 1]) + CountedOne(s, entries[j - 1])
          == start.examined + (Counted(entries[..j - 1], turns[..j - 1]) + CountedOne(s, entries[j - 1]));
    }
  }

  lemma NothingCounted(entries: seq<Name>, turns: seq<State>)
    requires |turns| == |entries|
    ensures Counted(entries[..0], turns[..0]) == []
  {
  }

  lemma TurnCounts(s: State, cfg: Config, name: Name)
    ensures AfterTurn(s, cfg, name).examined == s.examined + CountedOne(s, name)
  {
  }

  lemma CountedSnoc(entries: seq<Name>, turns: seq<State>, j: nat)
    requires 0 < j <= |turns| == |entries|
    ensures Counted(entries[..j], turns[..j])
            == Counted(entries[..j - 1], turns[..j - 1]) + CountedOne(turns[j - 1], entries[j - 1])
  {
    hide CountedOne;
    assert entries[..j][..j - 1] == entries[..j - 1] && turns[..j][..j - 1] == turns[..j - 1];
  }

  /** A whole sweep sweeps: at its end every entry is settled, nothing else was removed, and exactly the files
      that were there at their turn were counted. */
  lemma SweepSweeps(start: State, cfg: Config, entries: seq<Name>, turns: seq<State>)
    requires IsSweep(start, cfg, entries, turns)
    ensures var end := Before(start, cfg, entries, turns, |turns|);
            && (forall k :: 0 <= k < |entries| ==>
                start.now <= turns[k].now && Settled(end.files, cfg, entries[k], turns[k].now))
            && (forall n :: n in start.files && n !in entries ==> n in end.files)
            && (start.now >= cfg.minAtime ==>
                  forall n :: n in start.files && n.ext != UsedMarker && start.files[n].atime >= cfg.minAtime ==>
                    n in end.files)
            && end.examined == start.examined + Counted(entries, turns)
  {
    hide Before, Settled, Counted, Quiet;
    var end := Before(start, cfg, entries, turns, |turns|);
    CountsAll(start, cfg, entries, turns, |turns|);
    assert entries[..|entries|] == entries && turns[..|turns|] == turns;
    forall k | 0 <= k < |entries|
      ensures start.now <= turns[k].now && Settled(end.files, cfg, entries[k], turns[k].now)
    {
      StaysSettled(start, cfg, entries, turns, k, |turns|);
      TimePasses(start, cfg, entries, turns, k);
    }
    forall n | n in start.files
               && (n !in entries
                   || (n.ext != UsedMarker && start.now >= cfg.minAtime && start.files[n].atime >= cfg.minAtime))
      ensures n in end.files
    {
      KeepsNew(start, cfg, entries, turns, |turns|, n);
    }
  }

  lemma {:induction false} TimePasses(start: State, cfg: Config, entries: seq<Name>, turns: seq<State>, k: nat)
    requires IsSweep(start, cfg, entries, turns) && k < |turns|
    ensures start.now <= turns[k].now
    decreases k
  {
    hide AfterTurn, Quiet, Settled;
    if k > 0 {
      TimePasses(start, cfg, entries, turns, k - 1);
      TurnSettles(turns[k - 1], cfg, entries[k - 1], 0);
    }
    assert Quiet(Before(start, cfg, entries, turns, k), turns[k]);
    QuietLater(Before(start, cfg, entries, turns, k), turns[k]);
  }

  lemma QuietLater(s: State, t: State)
    requires Quiet(s, t)
    ensures s.now <= t.now && t.examined == s.examined
  {
  }

  // ----- the store itself

  class Store {
    const cfg: Config
    var files: Files
    var now: int
    var status: Status
    ghost var touched: set<Digest>
    ghost var examined: seq<(File, bool)>

    ghost function AsState(): State
      reads this
    {
      State(files, now, status, touched, examined)
    }

    constructor (cfg: Config, files: Files, now: int)
      ensures this.cfg == cfg && AsState() == State(files, now, ZERO, {}, [])
    {
      this.cfg, this.files, this.now, status := cfg, files, now, ZERO;
      touched, examined := {}, [];
    }

    method Insert(digest: Digest, b: Blob) returns (r: Result<(bool, nat)>)
      modifies this`files, this`touched
      ensures InsertStep(old(AsState()), AsState(), cfg, digest, b)
      ensures var f := InsertChunk(old(files), digest, b, now);
              if f.Ok? then r == Ok((f.value.existed, f.value.size)) else r.Err?
      ensures r.Err? ==> files == old(files)
      ensures r.Ok? && b.size > 0 ==> Name(digest, Plain) in files && files[Name(digest, Plain)].size == r.value.1 > 0
    {
      hide InsertChunk;
      InsertDecides(files, digest, b, now);
      if InsertChunk(files, digest, b, now).Ok? { InsertLeaves(files, digest, b, now); }
      var f := InsertChunk(files, digest, b, now);
      if f.Err? { return Err(f.error); }
      touched := Protect(AsState(), cfg, digest);
      files := f.value.files;
      return Ok((f.value.existed, f.value.size));
    }

    method Touch(digest: Digest, assertExists: bool) returns (r: Result<bool>)
      modifies this`files, this`touched
      ensures TouchStep(old(AsState()), AsState(), cfg, digest, assertExists)
      ensures var name := Name(digest, Plain);
              var there := name in old(files);
              && (if there || !assertExists then r == Ok(there) else r.Err?)
              && files == if there then old(files)[name := old(files)[name].(atime := now)] else old(files)
    {
      var f := CondTouch(files, digest, assertExists, now);
      if f.Err? { return Err(f.error); }
      if f.value.1 { touched := Protect(AsState(), cfg, digest); }
      files := f.value.0;
      return Ok(f.value.1);
    }

    /** What other threads do while the sweep does not hold the mutex. */
    method Others(steps: nat)
      requires Inv(AsState(), cfg)
      modifies this`files, this`touched, this`now
      ensures Inv(AsState(), cfg) && Quiet(old(AsState()), AsState())
    {
      hide Inv, InsertStep, TouchStep, Quiet;
      QuietStays(AsState());
      for i := 0 to steps
        invariant Inv(AsState(), cfg) && Quiet(old(AsState()), AsState())
      {
        var insert: bool, d: Digest, b: Blob, must: bool, later: nat := *, *, *, *, *;
        ghost var s := AsState();
        if insert {
          var _ := Insert(d, b);
          InsertKeeps(s, AsState(), cfg, d, b);
          InsertIsQuiet(s, AsState(), cfg, d, b);
        } else {
          var _ := Touch(d, must);
          TouchKeeps(s, AsState(), cfg, d, must);
          TouchIsQuiet(s, AsState(), cfg, d, must);
        }
        ghost var t := AsState();
        QuietThen(old(AsState()), s, t);
        now := now + later;
        NextKeeps(t, AsState(), cfg);
        TickIsQuiet(t, AsState());
        QuietThen(old(AsState()), t, AsState());
      }
    }

    /** The sweep over the names the directory iterator yields, with other threads in between. Every entry
        has its turn, in order; at the end it is gone, new enough or used since, and nothing else was
        removed. Every chunk inserted or touched in time, before or during the sweep, is there; the files
        counted are those that were there at their turn, and the sums of the status are theirs. */
    method SweepUnused(entries: seq<Name>) returns (ghost turns: seq<State>)
      requires Inv(AsState(), cfg)
      modifies this
      ensures IsSweep(old(AsState()), cfg, entries, turns)
      ensures AsState() == Before(old(AsState()), cfg, entries, turns, |turns|)
      ensures Inv(AsState(), cfg) && old(touched) <= touched
      ensures forall d :: d in touched ==> Name(d, Plain) in files
      ensures examined == old(examined) + Counted(entries, turns) && Balanced(status, examined, cfg)
      ensures forall i :: 0 <= i < |entries| ==>
                old(now) <= turns[i].now && Settled(files, cfg, entries[i], turns[i].now)
      ensures forall n :: n in old(files) && n !in entries ==> n in files
    {
      hide Inv, Balanced, SweepOne, Quiet, Settled, Counted, CountedOne, IsSweep, AfterTurn;
      turns := [];
      NoSweep(AsState(), cfg);
      for i := 0 to |entries|
        invariant |turns| == |entries[..i]| == i && IsSweep(old(AsState()), cfg, entries[..i], turns)
        invariant AsState() == Before(old(AsState()), cfg, entries[..i], turns, i)
        invariant Inv(AsState(), cfg) && old(touched) <= touched
      {
        ghost var waiting := AsState();
        var steps: nat := *;
        Others(steps);
        QuietTouched(waiting, AsState());
        ghost var s := AsState();
        var name := entries[i];
        examined := examined + CountedOne(s, name);
        var r := SweepOne(files, status, name, cfg.minAtime, cfg.oldestWriter);
        files, status := r.files, r.status;
        AfterIsSweep(s, AsState(), cfg, name);
        SweepKeeps(s, AsState(), cfg, name);
        SweepSnoc(old(AsState()), cfg, entries[..i], turns, name, s);
        assert entries[..i + 1] == entries[..i] + [name];
        turns := turns + [s];
      }
      assert entries[..|entries|] == entries;
      SweepSweeps(old(AsState()), cfg, entries, turns);
      InvMeans(AsState(), cfg);
    }
  }

  lemma AfterIsSweep(s: State, s': State, cfg: Config, name: Name)
    requires s' == s.(files := SweepOne(s.files, s.status, name, cfg.minAtime, cfg.oldestWriter).files,
                      status := SweepOne(s.files, s.status, name, cfg.minAtime, cfg.oldestWriter).status,
                      examined := s.examined + CountedOne(s, name))
    ensures SweepStep(s, s', cfg, name) && s' == AfterTurn(s, cfg, name)
  {
    hide SweepOne;
    assert s.examined + [] == s.examined;
  }

  lemma NoSweep(start: State, cfg: Config)
    ensures IsSweep(start, cfg, [], []) && Before(start, cfg, [], [], 0) == start
  {
  }

  lemma InvMeans(s: State, cfg: Config)
    requires Inv(s, cfg)
    ensures Balanced(s.status, s.examined, cfg) && forall d :: d in s.touched ==> Name(d, Plain) in s.files
  {
    hide Balanced;
  }

  lemma SweepSnoc(start: State, cfg: Config, entries: seq<Name>, turns: seq<State>, name: Name, s: State)
    requires IsSweep(start, cfg, entries, turns) && Quiet(Before(start, cfg, entries, turns, |turns|), s)
    ensures IsSweep(start, cfg, entries + [name], turns + [s])
    ensures Before(start, cfg, entries + [name], turns + [s], |turns| + 1) == AfterTurn(s, cfg, name)
  {
    hide Quiet, AfterTurn;
    forall k | 0 <= k <= |turns|
      ensures Before(start, cfg, entries + [name], turns + [s], k) == Before(start, cfg, entries, turns, k)
    {
    }
  }

  lemma TickIsQuiet(s: State, t: State)
    requires t.now >= s.now && t == s.(now := t.now)
    ensures Quiet(s, t)
  {
  }

  lemma QuietTouched(s: State, t: State)
    requires Quiet(s, t)
    ensures s.touched <= t.touched
  {
  }
}
