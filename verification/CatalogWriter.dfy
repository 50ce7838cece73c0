/** The catalog writer with its stack of open directories, and the round trip of a whole tree
    through the writer and the offset-following reader. */
module CatalogWriter {
  import opened Bytes
  import opened Catalog

  // ----- the writer's state and its operations as functions

  datatype DirInfo = DirInfo(name: Name, entries: seq<DirEntry>)

  datatype State = State(out: seq<byte>, dirstack: seq<DirInfo>, pos: nat)

  function Push(st: State, e: DirEntry): (r: Result<State>)
  {
    var n := |st.dirstack|;
    if n == 0 then Err("outside root")
    else Ok(st.(dirstack := st.dirstack[..n - 1] + [st.dirstack[n - 1].(entries := st.dirstack[n - 1].entries + [e])]))
  }

  /** State after writing the innermost open directory's block and closing it. */
  function WriteDir(st: State): State
    requires st.dirstack != []
  {
    var n := |st.dirstack|;
    var data := EncodeDir(st.dirstack[n - 1].entries, st.pos);
    State(st.out + data, st.dirstack[..n - 1], st.pos + |data|)
  }

  datatype Event =
    | StartDirectory(name: Name)
    | EndDirectory
    | AddFile(name: Name, size: nat, mtime: int)
    | AddSpecial(name: Name, kind: Kind)

  /** One call on the writer; on an error the run stops. */
  function Apply(st: State, ev: Event): (r: Result<State>)
  {
    match ev
    case StartDirectory(name) => Ok(st.(dirstack := st.dirstack + [DirInfo(name, [])]))
    case EndDirectory =>
      if st.dirstack == [] then Err("got unexpected end_directory level 0")
      else Push(WriteDir(st), DirEntry(st.dirstack[|st.dirstack| - 1].name, DirAttr(st.pos)))
    case AddFile(name, size, mtime) => Push(st, DirEntry(name, FileAttr(size, mtime)))
    case AddSpecial(name, kind) => Push(st, DirEntry(name, SpecialAttr(kind)))
  }

  function Run(st: State, evs: seq<Event>): (r: Result<State>)
    decreases |evs|
  {
    if evs == [] then Ok(st) else
    var st' :- Apply(st, evs[0]);
    Run(st', evs[1..])
  }

  const INIT := State(MAGIC, [DirInfo([SLASH], [])], 8)

  /** The finished file: the root block, then its position in eight little-endian bytes. */
  function Finish(st: State): (r: Result<seq<byte>>)
  {
    if |st.dirstack| != 1 then Err("unable to finish catalog")
    else Ok(WriteDir(st).out + LeBytes(st.pos, 8))
  }

  // ----- the writer itself

  class Writer {
    var out: seq<byte>
    var dirstack: seq<DirInfo>
    var pos: nat

    function AsState(): State
      reads this
    {
      State(out, dirstack, pos)
    }

    /** The position is the number of bytes written. */
    ghost predicate Valid()
      reads this
    {
      pos == |out|
    }

    constructor ()
      ensures Valid() && AsState() == INIT
    {
      out, dirstack, pos := MAGIC, [DirInfo([SLASH], [])], 8;
    }

    method WriteAll(data: seq<byte>)
      requires Valid()
      modifies this`out, this`pos
      ensures Valid()
      ensures out == old(out) + data && pos == old(pos) + |data|
    {
      out := out + data;
      pos := pos + |data|;
    }

    method AddEntry(e: DirEntry) returns (ok: bool)
      requires Valid()
      modifies this`dirstack
      ensures Valid()
      ensures ok <==> Push(old(AsState()), e).Ok?
      ensures AsState() == if ok then Push(old(AsState()), e).value else old(AsState())
    {
      if dirstack == [] { return false; }
      var last := dirstack[|dirstack| - 1];
      dirstack := dirstack[..|dirstack| - 1] + [last.(entries := last.entries + [e])];
      return true;
    }

    method Start(name: Name)
      requires Valid()
      modifies this`dirstack
      ensures Valid()
      ensures Apply(old(AsState()), StartDirectory(name)) == Ok(AsState())
    {
      dirstack := dirstack + [DirInfo(name, [])];
    }

    /** Closing the root directory writes its block before the missing parent is noticed. */
    method End() returns (ok: bool)
      requires Valid()
      modifies this
      ensures Valid()
      ensures ok <==> Apply(old(AsState()), EndDirectory).Ok?
      ensures ok ==> Ok(AsState()) == Apply(old(AsState()), EndDirectory)
      ensures !ok ==> AsState() == if old(dirstack) == [] then old(AsState()) else WriteDir(old(AsState()))
    {
      if dirstack == [] { return false; }
      var dir := dirstack[|dirstack| - 1];
      dirstack := dirstack[..|dirstack| - 1];
      var start := pos;
      var data := WriteBlock(dir.entries, start);
      WriteAll(data);
      ok := AddEntry(DirEntry(dir.name, DirAttr(start)));
    }

    method Close() returns (ok: bool)
      requires Valid()
      modifies this
      ensures Valid()
      ensures ok <==> Finish(old(AsState())).Ok?
      ensures ok ==> Ok(out) == Finish(old(AsState()))
      ensures !ok ==> AsState() == old(AsState())
    {
      if |dirstack| != 1 { return false; }
      var dir := dirstack[0];
      dirstack := [];
      var start := pos;
      var data := WriteBlock(dir.entries, start);
      WriteAll(data);
      WriteAll(LeBytes(start, 8));
      return true;
    }

    /** Drives the writer over a forest the way an archiver does. */
    method WriteNodes(nodes: seq<Node>) returns (ok: bool)
      requires Valid()
      modifies this
      ensures Valid()
      ensures ok <==> Run(old(AsState()), Events(nodes)).Ok?
      ensures ok ==> Ok(AsState()) == Run(old(AsState()), Events(nodes))
      decreases nodes
    {
      hide Apply;
      if nodes == [] { return true; }
      ghost var st := AsState();
      ghost var tail := Events(nodes[1..]);
      match nodes[0] {
        case Dir(name, children) =>
          RunAppend(st, [StartDirectory(name)] + Events(children) + [EndDirectory], tail);
          RunAppend(st, [StartDirectory(name)] + Events(children), [EndDirectory]);
          RunAppend(st, [StartDirectory(name)], Events(children));
          RunOne(st, StartDirectory(name));
          Start(name);
          ok := WriteNodes(children);
          if !ok { return; }
          RunOne(AsState(), EndDirectory);
          ok := End();
          if !ok { return; }
        case FileNode(name, size, mtime) =>
          RunAppend(st, [AddFile(name, size, mtime)], tail);
          RunOne(st, AddFile(name, size, mtime));
          ApplyAdd(st, nodes[0]);
          ok := AddEntry(DirEntry(name, FileAttr(size, mtime)));
          if !ok { return; }
        case SpecialNode(name, kind) =>
          RunAppend(st, [AddSpecial(name, kind)], tail);
          RunOne(st, AddSpecial(name, kind));
          ApplyAdd(st, nodes[0]);
          ok := AddEntry(DirEntry(name, SpecialAttr(kind)));
          if !ok { return; }
      }
      ok := WriteNodes(nodes[1..]);
    }
  }

  lemma ApplyAdd(st: State, n: Node)
    requires !n.Dir?
    ensures n.FileNode? ==>
              Apply(st, AddFile(n.name, n.size, n.mtime)) == Push(st, DirEntry(n.name, FileAttr(n.size, n.mtime)))
    ensures n.SpecialNode? ==> Apply(st, AddSpecial(n.name, n.kind)) == Push(st, DirEntry(n.name, SpecialAttr(n.kind)))
  {
  }

  // ----- the calls that describe a tree, and the recursive form of what they write

  function Events(nodes: seq<Node>): (evs: seq<Event>)
    decreases nodes
  {
    if nodes == [] then []
    else (match nodes[0]
          case Dir(name, children) => [StartDirectory(name)] + Events(children) + [EndDirectory]
          case FileNode(name, size, mtime) => [AddFile(name, size, mtime)]
          case SpecialNode(name, kind) => [AddSpecial(name, kind)]) + Events(nodes[1..])
  }

  /** The blocks of all directories inside `nodes`, innermost first, when the first one starts at
      `pos`, and the entries that describe `nodes` in their parent. */
  function Emit(nodes: seq<Node>, pos: nat): (r: (seq<byte>, seq<DirEntry>))
    ensures |r.1| == |nodes|
    decreases nodes
  {
    if nodes == [] then ([], []) else
    match nodes[0]
    case Dir(name, children) =>
      var (inner, es) := Emit(children, pos);
      var start := pos + |inner|;
      var block := EncodeDir(es, start);
      var (after, fs) := Emit(nodes[1..], start + |block|);
      (inner + block + after, [DirEntry(name, DirAttr(start))] + fs)
    case FileNode(name, size, mtime) =>
      var (after, fs) := Emit(nodes[1..], pos);
      (after, [DirEntry(name, FileAttr(size, mtime))] + fs)
    case SpecialNode(name, kind) =>
      var (after, fs) := Emit(nodes[1..], pos);
      (after, [DirEntry(name, SpecialAttr(kind))] + fs)
  }

  lemma RunOne(st: State, ev: Event)
    ensures Run(st, [ev]) == Apply(st, ev)
  {
    var r := Apply(st, ev);
    assert [ev][1..] == [];
    if r.Ok? { assert Run(r.value, []) == Ok(r.value); }
  }

  lemma {:induction false} RunAppend(st: State, a: seq<Event>, b: seq<Event>)
    ensures Run(st, a + b) == if Run(st, a).Ok? then Run(Run(st, a).value, b) else Run(st, a)
    decreases |a|
  {
    hide Apply;
    if a == [] {
      assert a + b == b;
    } else {
      assert (a + b)[1..] == a[1..] + b;
      var r := Apply(st, a[0]);
      if r.Ok? { RunAppend(r.value, a[1..], b); }
    }
  }

  /** The innermost open directory. */
  function Top(st: State): DirInfo
    requires st.dirstack != []
  {
    st.dirstack[|st.dirstack| - 1]
  }

  /** `st` after `out` grew by `bytes` and the innermost open directory by the entries `es`. */
  function Grown(st: State, bytes: seq<byte>, es: seq<DirEntry>): State
    requires st.dirstack != []
  {
    State(st.out + bytes,
          st.dirstack[..|st.dirstack| - 1] + [Top(st).(entries := Top(st).entries + es)],
          st.pos + |bytes|)
  }

  lemma GrownTwice(st: State, b1: seq<byte>, e1: seq<DirEntry>, b2: seq<byte>, e2: seq<DirEntry>)
    requires st.dirstack != []
    ensures Grown(Grown(st, b1, e1), b2, e2) == Grown(st, b1 + b2, e1 + e2)
  {
    var g := Grown(st, b1, e1);
    assert st.out + b1 + b2 == st.out + (b1 + b2);
    assert Top(st).entries + e1 + e2 == Top(st).entries + (e1 + e2);
    assert g.dirstack[..|g.dirstack| - 1] == st.dirstack[..|st.dirstack| - 1];
  }

  /** Closing a directory that gathered `es` while `inner` was written. */
  lemma EndGrown(st: State, name: Name, inner: seq<byte>, es: seq<DirEntry>)
    requires st.dirstack != []
    ensures var open := Apply(st, StartDirectory(name)).value;
            var start := st.pos + |inner|;
            Apply(Grown(open, inner, es), EndDirectory)
            == Ok(Grown(st, inner + EncodeDir(es, start), [DirEntry(name, DirAttr(start))]))
  {
    hide EncodeDir;
    var open := Apply(st, StartDirectory(name)).value;
    var g := Grown(open, inner, es);
    assert [] + es == es;
    assert Top(g) == DirInfo(name, es);
    assert g.dirstack[..|g.dirstack| - 1] == st.dirstack;
    var block := EncodeDir(es, g.pos);
    assert st.out + inner + block == st.out + (inner + block);
  }

  /** The explicit stack of open directories computes the recursive form: every event of a forest
      is accepted, and together they emit its blocks and add its entries to the open directory. */
  lemma {:induction false} RunIsEmit(st: State, nodes: seq<Node>)
    requires st.dirstack != []
    ensures Run(st, Events(nodes)) == Ok(Grown(st, Emit(nodes, st.pos).0, Emit(nodes, st.pos).1))
    decreases nodes
  {
    hide Run, Apply, EncodeDir;
    if nodes == [] {
      RunNone(st);
    } else {
      var tail := Events(nodes[1..]);
      match nodes[0]
      case Dir(name, children) =>
        var evs := [StartDirectory(name)] + Events(children);
        var (inner, es) := Emit(children, st.pos);
        var start := st.pos + |inner|;
        var st1 := Grown(st, inner + EncodeDir(es, start), [DirEntry(name, DirAttr(start))]);
        assert Run(st, evs + [EndDirectory]) == Ok(st1) by {
          RunAppend(st, evs, [EndDirectory]);
          RunAppend(st, [StartDirectory(name)], Events(children));
          RunOne(st, StartDirectory(name));
          ApplyStart(st, name);
          var open := Apply(st, StartDirectory(name)).value;
          RunIsEmit(open, children);
          RunOne(Grown(open, inner, es), EndDirectory);
          EndGrown(st, name, inner, es);
        }
        RunAppend(st, evs + [EndDirectory], tail);
        RunIsEmit(st1, nodes[1..]);
        var (after, fs) := Emit(nodes[1..], st1.pos);
        GrownTwice(st, inner + EncodeDir(es, start), [DirEntry(name, DirAttr(start))], after, fs);
      case FileNode(name, size, mtime) =>
        ApplyAdd(st, nodes[0]);
        RunLeaf(st, AddFile(name, size, mtime), DirEntry(name, FileAttr(size, mtime)), nodes);
      case SpecialNode(name, kind) =>
        ApplyAdd(st, nodes[0]);
        RunLeaf(st, AddSpecial(name, kind), DirEntry(name, SpecialAttr(kind)), nodes);
    }
  }

  lemma RunNone(st: State)
    requires st.dirstack != []
    ensures Run(st, []) == Ok(Grown(st, [], []))
  {
    assert st.out + [] == st.out && Top(st).entries + [] == Top(st).entries;
    assert st.dirstack[..|st.dirstack| - 1] + [Top(st)] == st.dirstack;
  }

  lemma ApplyStart(st: State, name: Name)
    ensures Apply(st, StartDirectory(name)) == Ok(st.(dirstack := st.dirstack + [DirInfo(name, [])]))
  {
  }

  lemma {:induction false} RunLeaf(st: State, ev: Event, e: DirEntry, nodes: seq<Node>)
    requires st.dirstack != [] && nodes != []
    requires Apply(st, ev) == Push(st, e)
    requires Events(nodes) == [ev] + Events(nodes[1..])
    requires Emit(nodes, st.pos) == (Emit(nodes[1..], st.pos).0, [e] + Emit(nodes[1..], st.pos).1)
    ensures Run(st, Events(nodes)) == Ok(Grown(st, Emit(nodes, st.pos).0, Emit(nodes, st.pos).1))
    decreases nodes, 0
  {
    hide Run, Apply, Emit, Events;
    var st1 := Grown(st, [], [e]);
    assert st.out + [] == st.out;
    assert Apply(st, ev) == Ok(st1);
    RunOne(st, ev);
    RunAppend(st, [ev], Events(nodes[1..]));
    RunIsEmit(st1, nodes[1..]);
    var (after, fs) := Emit(nodes[1..], st.pos);
    GrownTwice(st, [], [e], after, fs);
    assert [] + after == after;
  }

  // ----- reading back

  /** File sizes and times are machine integers. */
  predicate InRange(nodes: seq<Node>)
    decreases nodes
  {
    nodes != [] ==>
      && InRange(nodes[1..])
      && match nodes[0]
         case Dir(_, children) => InRange(children)
         case FileNode(_, size, mtime) => size < TWO_64 && -TWO_63 <= mtime < TWO_63
         case SpecialNode(_, _) => true
  }

  predicate ShortNodeNames(nodes: seq<Node>)
  {
    forall i :: 0 <= i < |nodes| ==> |nodes[i].name| < NAME_BUF
  }

  /** Every name strictly inside one of `nodes` is shorter than the parser's name buffer. */
  predicate ShortInside(nodes: seq<Node>)
    decreases nodes
  {
    nodes != [] ==>
      && ShortInside(nodes[1..])
      && (nodes[0].Dir? ==> ShortNodeNames(nodes[0].children) && ShortInside(nodes[0].children))
  }

  /** The entries of emitted nodes carry the nodes' names and values and point into what was emitted. */
  lemma {:induction false} EmitEntries(nodes: seq<Node>, pos: nat)
    requires InRange(nodes)
    ensures var (bytes, es) := Emit(nodes, pos);
            && (forall i :: 0 <= i < |es| ==> es[i].name == nodes[i].name)
            && (forall i :: 0 <= i < |es| && es[i].attr.DirAttr? ==> es[i].attr.start < pos + |bytes|)
            && (forall i :: 0 <= i < |es| && es[i].attr.FileAttr? ==>
                  es[i].attr.size < TWO_64 && -TWO_63 <= es[i].attr.mtime < TWO_63)
    decreases nodes
  {
    hide EncodeDir;
    if nodes != [] {
      match nodes[0]
      case Dir(name, children) =>
        var (inner, es) := Emit(children, pos);
        var start := pos + |inner|;
        EmitEntries(nodes[1..], start + |EncodeDir(es, start)|);
      case FileNode(_, _, _) => EmitEntries(nodes[1..], pos);
      case SpecialNode(_, _) => EmitEntries(nodes[1..], pos);
    }
  }

  lemma {:induction false} NameFits(es: seq<DirEntry>, pos: nat, i: nat)
    requires i < |es|
    ensures |es[i].name| < |EncodeDir(es, pos)|
    decreases |es|
  {
    NameInEntries(es, pos, i);
  }

  lemma {:induction false} NameInEntries(es: seq<DirEntry>, pos: nat, i: nat)
    requires i < |es|
    ensures |es[i].name| < |EncodeEntries(es, pos)|
    decreases |es|
  {
    hide EncodeEntry;
    if i > 0 { NameInEntries(es[1..], pos, i - 1); }
  }

  /** A directory written after its subdirectories' blocks reads back whole, if and only if no name
      in it is too long for the parser. */
  lemma {:induction false} ReadEmittedDir(children: seq<Node>, pre: seq<byte>, post: seq<byte>, file: seq<byte>)
    requires InRange(children)
    requires var (inner, es) := Emit(children, |pre|);
             file == pre + inner + EncodeDir(es, |pre| + |inner|) + post
    requires |file| < TWO_64
    ensures var r := ReadTree(file, |pre| + |Emit(children, |pre|).0|);
            if ShortNodeNames(children) && ShortInside(children) then r == Ok(children) else r.Err?
    decreases children, 1
  {
    hide EncodeDir, ReadDir, ReadNodes, Emit, InRange, ShortInside;
    var (inner, es) := Emit(children, |pre|);
    var start := |pre| + |inner|;
    var block := EncodeDir(es, start);
    EmitEntries(children, |pre|);
    forall i | 0 <= i < |es| ensures |es[i].name| < TWO_64 { NameFits(es, start, i); }
    assert EntriesFit(es, start);
    BlockRoundTrip(es, pre + inner, post, file);
    assert ShortNames(es) <==> ShortNodeNames(children) by {
      if ShortNames(es) {
        forall i | 0 <= i < |children| ensures |children[i].name| < NAME_BUF { assert ShortName(es[i]); }
      }
    }
    assert file == pre + inner + (block + post);
    ReadEmitted(children, pre, block + post, file, start);
  }

  /** Emitted entries read back, whatever precedes and follows their blocks in the file, if and
      only if no name inside them is too long for the parser. */
  lemma {:induction false} ReadEmitted(nodes: seq<Node>, pre: seq<byte>, post: seq<byte>, file: seq<byte>, bound: nat)
    requires InRange(nodes)
    requires file == pre + Emit(nodes, |pre|).0 + post && |file| < TWO_64
    requires bound >= |pre| + |Emit(nodes, |pre|).0|
    ensures var r := ReadNodes(file, bound, Emit(nodes, |pre|).1);
            if ShortInside(nodes) then r == Ok(nodes) else r.Err?
    decreases nodes, 0
  {
    hide EncodeDir, ReadTree;
    if nodes != [] {
      match nodes[0]
      case Dir(name, children) =>
        var (inner, es) := Emit(children, |pre|);
        var start := |pre| + |inner|;
        var block := EncodeDir(es, start);
        var (after, fs) := Emit(nodes[1..], start + |block|);
        assert file == pre + inner + block + (after + post);
        ReadEmittedDir(children, pre, after + post, file);
        var pre' := pre + inner + block;
        assert file == pre' + after + post;
        ReadEmitted(nodes[1..], pre', post, file, bound);
        ReadStep(nodes, file, bound, DirEntry(name, DirAttr(start)), fs);
      case FileNode(name, size, mtime) =>
        ReadEmitted(nodes[1..], pre, post, file, bound);
        ReadStep(nodes, file, bound, DirEntry(name, FileAttr(size, mtime)), Emit(nodes[1..], |pre|).1);
      case SpecialNode(name, kind) =>
        ReadEmitted(nodes[1..], pre, post, file, bound);
        ReadStep(nodes, file, bound, DirEntry(name, SpecialAttr(kind)), Emit(nodes[1..], |pre|).1);
    }
  }

  lemma ReadStep(nodes: seq<Node>, file: seq<byte>, bound: nat, e: DirEntry, fs: seq<DirEntry>)
    requires nodes != []
    requires var good := nodes[0].Dir? ==> ShortNodeNames(nodes[0].children) && ShortInside(nodes[0].children);
             if good then ReadNode(file, bound, e) == Ok(nodes[0]) else ReadNode(file, bound, e).Err?
    requires var r := ReadNodes(file, bound, fs);
             if ShortInside(nodes[1..]) then r == Ok(nodes[1..]) else r.Err?
    ensures var r := ReadNodes(file, bound, [e] + fs);
            if ShortInside(nodes) then r == Ok(nodes) else r.Err?
  {
    hide ReadNode;
    assert ([e] + fs)[1..] == fs;
    assert [nodes[0]] + nodes[1..] == nodes;
  }

  // ----- the whole catalog

  /** The file that the writer produces for a directory tree. */
  function CatalogOf(nodes: seq<Node>): (r: Result<seq<byte>>)
  {
    var st :- Run(INIT, Events(nodes));
    Finish(st)
  }

  lemma CatalogShape(nodes: seq<Node>)
    ensures var (bytes, es) := Emit(nodes, 8);
            var start := 8 + |bytes|;
            CatalogOf(nodes) == Ok(MAGIC + bytes + EncodeDir(es, start) + LeBytes(start, 8))
  {
    hide Run, Emit, EncodeDir, LeBytes;
    RunIsEmit(INIT, nodes);
    assert [] + Emit(nodes, 8).1 == Emit(nodes, 8).1;
  }

  /** Whole-catalog round trip. Every tree can be written. If the file is shorter than 2^64 bytes,
      then reading it recursively from its root gives the tree back if and only if every name is
      shorter than 4096 bytes; otherwise reading fails. The root directory's block, and with it
      every block, starts strictly before the end of the file. */
  lemma CatalogRoundTrip(nodes: seq<Node>)
    requires InRange(nodes)
    ensures CatalogOf(nodes).Ok?
    ensures var file := CatalogOf(nodes).value;
            |file| < TWO_64 ==>
              && Root(file).Ok? && Root(file).value.attr.DirAttr?
              && Root(file).value.attr.start < |file|
              && var r := ReadTree(file, Root(file).value.attr.start);
                 if ShortNodeNames(nodes) && ShortInside(nodes) then r == Ok(nodes) else r.Err?
  {
    hide CatalogOf, Emit, EncodeDir, LeBytes, LeValue, ReadTree;
    CatalogShape(nodes);
    var (bytes, es) := Emit(nodes, 8);
    var start := 8 + |bytes|;
    var file := CatalogOf(nodes).value;
    if |file| < TWO_64 {
      assert file[..8] == MAGIC;
      assert file[|file| - 8..] == LeBytes(start, 8);
      LeRoundTrip64(start);
      ReadEmittedDir(nodes, MAGIC, LeBytes(start, 8), file);
    }
  }

  /** The writer object, driven over a tree, produces a file that reads back as that tree. */
  method WriteCatalog(nodes: seq<Node>) returns (file: seq<byte>)
    requires InRange(nodes)
    ensures Ok(file) == CatalogOf(nodes)
    ensures |file| < TWO_64 && ShortNodeNames(nodes) && ShortInside(nodes) ==>
              Root(file).Ok? && Root(file).value.attr.DirAttr?
                && ReadTree(file, Root(file).value.attr.start) == Ok(nodes)
  {
    CatalogRoundTrip(nodes);
    var w := new Writer();
    RunIsEmit(INIT, nodes);
    var ok := w.WriteNodes(nodes);
    ok := w.Close();
    file := w.out;
  }

  // ----- looking up paths

  /** The first child with the given name. */
  function Child(nodes: seq<Node>, name: Name): (r: Option<Node>)
  {
    if nodes == [] then None
    else if nodes[0].name == name then Some(nodes[0])
    else Child(nodes[1..], name)
  }

  /** Walks the tree: the node a path leads to, or none if a component is missing or lies below
      something that is not a directory. */
  function Walk(node: Node, comps: seq<Name>): (r: Option<Node>)
    decreases |comps|
  {
    if comps == [] then Some(node)
    else if !node.Dir? then None
    else match Child(node.children, comps[0])
         case None => None
         case Some(n) => Walk(n, comps[1..])
  }

  /** Stopping the parser at the wanted name sees the same entries, up to that name. */
  lemma {:induction false} ParseStopsAtName(cursor: seq<byte>, n: nat, name: Name)
    requires ParseEntries(cursor, n, None).Ok?
    ensures ParseEntries(cursor, n, Some(name)).Ok?
    ensures var all := ParseEntries(cursor, n, None).value;
            var got := ParseEntries(cursor, n, Some(name)).value;
            && got.0 <= all.0
            && (forall i :: 0 <= i < |got.0| - 1 ==> got.0[i].name != name)
            && (got.2 <==> got.0 != [] && got.0[|got.0| - 1].name == name)
            && (!got.2 ==> got == all)
    decreases n
  {
    hide ParseEntry;
    if n > 0 {
      var (e, c1) := ParseEntry(cursor).value;
      if e.name != name {
        ParseStopsAtName(c1, n - 1, name);
      }
    }
  }

  /** `Lookup` returns the first entry of `ReadDir` with the wanted name, if there is one. */
  lemma LookupIsFirst(file: seq<byte>, parent: DirEntry, name: Name)
    requires ReadDir(file, parent).Ok?
    ensures Lookup(file, parent, name).Ok?
    ensures var es := ReadDir(file, parent).value;
            match Lookup(file, parent, name).value
            case None => forall i :: 0 <= i < |es| ==> es[i].name != name
            case Some(e) => exists k :: 0 <= k < |es| && es[k] == e && e.name == name
                                        && forall i :: 0 <= i < k ==> es[i].name != name
  {
    hide ParseEntries, ReadBlock;
    var data := ReadBlock(file, parent.attr.start).value;
    var (n, cursor) := Varint.DecodeU64(data).value;
    ParseStopsAtName(cursor, n, name);
    var es := ReadDir(file, parent).value;
    var got := ParseEntries(cursor, n, Some(name)).value.0;
    assert forall i :: 0 <= i < |got| ==> es[i] == ToDirEntry(got[i], parent.attr.start);
    assert forall i :: 0 <= i < |got| ==> es[i].name == got[i].name;
    if got != [] && got[|got| - 1].name == name {
      var k := |got| - 1;
      assert es[k].name == name;
    }
  }

  lemma {:induction false} ChildOfEntries(file: seq<byte>, bound: nat, es: seq<DirEntry>, k: nat, name: Name)
    requires ReadNodes(file, bound, es).Ok?
    requires k <= |es| && forall i :: 0 <= i < k ==> es[i].name != name
    requires k < |es| ==> es[k].name == name
    ensures var nodes := ReadNodes(file, bound, es).value;
            if k == |es| then Child(nodes, name) == None
            else Child(nodes, name).Some? && ReadNode(file, bound, es[k]) == Ok(Child(nodes, name).value)
    decreases |es|
  {
    hide ReadNode;
    if es != [] {
      var nodes := ReadNodes(file, bound, es).value;
      assert nodes[1..] == ReadNodes(file, bound, es[1..]).value;
      if k > 0 {
        ChildOfEntries(file, bound, es[1..], k - 1, name);
      }
    }
  }

  /** Following a path through the file finds what following it through the tree finds: an entry
      that reads back as the node, or an error where the tree has nothing. */
  lemma {:induction false} LookupFollowsTree(file: seq<byte>, bound: nat, e: DirEntry, comps: seq<Name>)
    requires ReadNode(file, bound, e).Ok?
    ensures var r := LookupComponents(file, e, comps);
            match Walk(ReadNode(file, bound, e).value, comps)
            case None => r.Err?
            case Some(n) => r.Ok? && ReadNode(file, bound, r.value) == Ok(n)
    decreases |comps|
  {
    hide ReadDir, Lookup, ReadNodes;
    if comps != [] && e.attr.DirAttr? {
      var start := e.attr.start;
      var dir := DirEntry([], DirAttr(start));
      SameDir(file, e, comps[0]);
      LookupIsFirst(file, dir, comps[0]);
      var es := ReadDir(file, dir).value;
      match Lookup(file, dir, comps[0]).value
      case None =>
        ChildOfEntries(file, start, es, |es|, comps[0]);
      case Some(f) =>
        var k :| 0 <= k < |es| && es[k] == f && f.name == comps[0] && forall i :: 0 <= i < k ==> es[i].name != comps[0];
        ChildOfEntries(file, start, es, k, comps[0]);
        Rebound(file, start, bound, f);
        LookupFollowsTree(file, bound, f, comps[1..]);
    } else if comps != [] {
      SameDir(file, e, comps[0]);
    }
  }

  /** A directory's own name plays no part in reading it. */
  lemma SameDir(file: seq<byte>, e: DirEntry, name: Name)
    ensures e.attr.DirAttr? ==> Lookup(file, e, name) == Lookup(file, DirEntry([], e.attr), name)
    ensures !e.attr.DirAttr? ==> Lookup(file, e, name).Err?
  {
    hide ReadBlock, Parse;
  }

  lemma Rebound(file: seq<byte>, a: nat, b: nat, e: DirEntry)
    requires a <= b && ReadNode(file, a, e).Ok?
    ensures ReadNode(file, b, e) == ReadNode(file, a, e)
  {
    hide ReadTree;
  }

  /** Path lookup in a written catalog agrees with the tree it was written from, for every path. */
  lemma LookupRecursiveAgrees(nodes: seq<Node>, path: seq<byte>)
    requires InRange(nodes) && ShortNodeNames(nodes) && ShortInside(nodes)
    requires CatalogOf(nodes).Ok? ==> |CatalogOf(nodes).value| < TWO_64
    ensures CatalogOf(nodes).Ok?
    ensures var file := CatalogOf(nodes).value;
            var r := LookupRecursive(file, path);
            match Walk(Dir([], nodes), if path == [SLASH] then [] else PathComponents(path))
            case None => r.Err?
            case Some(n) => r.Ok? && ReadNode(file, |file|, r.value) == Ok(n)
  {
    hide CatalogOf, ReadTree, LookupComponents, Walk, PathComponents;
    CatalogRoundTrip(nodes);
    var file := CatalogOf(nodes).value;
    var root := Root(file).value;
    assert ReadNode(file, |file|, root) == Ok(Dir([], nodes));
    LookupFollowsTree(file, |file|, root, if path == [SLASH] then [] else PathComponents(path));
    if path == [SLASH] {
      NoComponents(file, root);
    }
  }

  /** The same by names: a path that is spelled by names, with or without a slash before them, leads through
      the directories of these names, and "/" to the root. */
  lemma LookupByNames(nodes: seq<Node>, path: seq<byte>, names: seq<Name>)
    requires InRange(nodes) && ShortNodeNames(nodes) && ShortInside(nodes)
    requires CatalogOf(nodes).Ok? ==> |CatalogOf(nodes).value| < TWO_64
    requires Spells(path, names)
    ensures CatalogOf(nodes).Ok?
    ensures var file := CatalogOf(nodes).value;
            var r := LookupRecursive(file, path);
            match Walk(Dir([], nodes), if path == [SLASH] then [] else names)
            case None => r.Err?
            case Some(n) => r.Ok? && ReadNode(file, |file|, r.value) == Ok(n)
  {
    hide CatalogOf, ReadTree, LookupComponents, Walk, PathComponents, Spells;
    ComponentsAre(path, names);
    LookupRecursiveAgrees(nodes, path);
  }

  lemma NoComponents(file: seq<byte>, e: DirEntry)
    ensures LookupComponents(file, e, []) == Ok(e)
  {
  }
}
