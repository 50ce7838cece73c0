/** The per-process cache of verified API token secrets, kept valid by a generation counter that all
    processes share: threads of many processes verify, one process also changes secrets. */
module TokenShadow {
  import opened Bytes

  type Token = string
  type Secret = string
  type Hash = int
  type Pid = nat
  type Tid = nat

  /** The contents of the shadow file. */
  type Shadow = map<Token, Hash>

  const TTL_SECS: int := 60

  datatype ShadowFileInfo = ShadowFileInfo(mtime: int, len: int, lastChecked: int)

  datatype Cache = Cache(secrets: map<Token, Secret>, cachedGen: nat, fileInfo: Option<ShadowFileInfo>)

  const EMPTY := Cache(map[], 0, None)

  function ResetAndSetGen(gen: nat): Cache
  {
    Cache(map[], gen, None)
  }

  predicate WithinTtl(c: Cache, now: int)
  {
    c.fileInfo.Some? && now >= c.fileInfo.value.lastChecked && now - c.fileInfo.value.lastChecked < TTL_SECS
  }

  predicate SecretMatches(c: Cache, tok: Token, sec: Secret)
  {
    tok in c.secrets && c.secrets[tok] == sec
  }

  /** The file at one moment, and what it held before a change that is written but not yet
      announced by the generation counter. */
  datatype View = View(file: Shadow, prev: Option<Shadow>)

  /** How a new secret and its stored hash fit together, which process a thread belongs to, and the
      one process that changes secrets. */
  datatype Env = Env(verify: (Secret, Hash) -> bool, proc: Tid -> Pid, mutator: Pid)

  datatype Op = Generate(secret: Secret, hash: Hash) | Delete

  /** Where a thread is. Verifying: checking the cache, refreshing it, then verifying against the file
      and inserting. Changing: read, written, bumped, applied to the own cache. */
  datatype Pc =
    | Idle
    | Checking(tok: Token, sec: Secret)
    | Refreshing(tok: Token, sec: Secret)
    | Stating(tok: Token, sec: Secret, view: View)
    | Bumping(tok: Token, sec: Secret)
    | ReadingGen(tok: Token, sec: Secret)
    | ReadingFile(tok: Token, sec: Secret, genBefore: nat)
    | Inserting(tok: Token, sec: Secret, genBefore: nat)
    | Accepted(tok: Token, sec: Secret, hit: Option<View>)
    | Rejected
    | Reading(tok: Token, op: Op)
    | Written(tok: Token, op: Op)
    | Bumped(tok: Token, op: Op, gen: nat)
    | Applied(tok: Token, gen: nat)

  /** `writer` holds the cache's write lock, per process; `mutation` holds the configuration lock. */
  datatype State = State(
    view: View, gen: nat, caches: map<Pid, Cache>, writer: map<Pid, Tid>, threads: map<Tid, Pc>, mutation: Option<Tid>)

  function CacheOf(s: State, p: Pid): Cache
  {
    if p in s.caches then s.caches[p] else EMPTY
  }

  function PcOf(s: State, t: Tid): Pc
  {
    if t in s.threads then s.threads[t] else Idle
  }

  function Go(s: State, t: Tid, pc: Pc): State
  {
    s.(threads := s.threads[t := pc])
  }

  function SetCache(s: State, p: Pid, c: Cache): State
  {
    s.(caches := s.caches[p := c])
  }

  function Lock(s: State, p: Pid, t: Tid): State
  {
    s.(writer := s.writer[p := t])
  }

  function Unlock(s: State, p: Pid): State
  {
    s.(writer := s.writer - {p})
  }

  // ----- matching

  predicate Matches(env: Env, file: Shadow, tok: Token, sec: Secret)
  {
    tok in file && env.verify(sec, file[tok])
  }

  /** The secret is right for the file, or for what the unfinished change has just replaced. */
  predicate Good(env: Env, v: View, tok: Token, sec: Secret)
  {
    Matches(env, v.file, tok, sec) || (v.prev.Some? && Matches(env, v.prev.value, tok, sec))
  }

  // ----- steps of a verifying thread

  /** The fast path, at the moment it reads the generation; the try-lock may fail. */
  predicate CheckStep(env: Env, s: State, s': State, t: Tid, now: int, gotLock: bool)
  {
    var pc, c := PcOf(s, t), CacheOf(s, env.proc(t));
    && pc.Checking? && (gotLock ==> env.proc(t) !in s.writer)
    && s' == Go(s, t,
         if !gotLock then ReadingGen(pc.tok, pc.sec)
         else if c.cachedGen == s.gen && WithinTtl(c, now) then
           if SecretMatches(c, pc.tok, pc.sec)
           then Accepted(pc.tok, pc.sec, Some(s.view)) else ReadingGen(pc.tok, pc.sec)
         else Refreshing(pc.tok, pc.sec))
  }

  /** The slow path under the write lock, at the moment it reads the generation again. */
  predicate RefreshStep(env: Env, s: State, s': State, t: Tid, now: int, gotLock: bool)
  {
    var pc, p := PcOf(s, t), env.proc(t);
    && pc.Refreshing? && (gotLock ==> p !in s.writer)
    && if !gotLock then s' == Go(s, t, ReadingGen(pc.tok, pc.sec)) else
       var c := if CacheOf(s, p).cachedGen != s.gen then ResetAndSetGen(s.gen) else CacheOf(s, p);
       if WithinTtl(c, now) then
         s' == Go(SetCache(s, p, c), t,
                  if SecretMatches(c, pc.tok, pc.sec)
                  then Accepted(pc.tok, pc.sec, Some(s.view)) else ReadingGen(pc.tok, pc.sec))
       else s' == Go(Lock(SetCache(s, p, c), p, t), t, Stating(pc.tok, pc.sec, s.view))
  }

  /** Still under the write lock: the file's metadata, or an error, and what follows from it. */
  predicate StatStep(env: Env, s: State, s': State, t: Tid, now: int, meta: Option<(int, int)>)
  {
    var pc, p := PcOf(s, t), env.proc(t);
    var c := CacheOf(s, p);
    && pc.Stating?
    && if meta.None? then s' == Go(Unlock(s, p), t, ReadingGen(pc.tok, pc.sec)) else
       var info := ShadowFileInfo(meta.value.0, meta.value.1, now);
       if c.fileInfo.Some? && c.fileInfo.value.mtime == info.mtime && c.fileInfo.value.len == info.len then
         s' == Go(Unlock(SetCache(s, p, c.(fileInfo := Some(info))), p), t,
                  if SecretMatches(c, pc.tok, pc.sec)
                  then Accepted(pc.tok, pc.sec, Some(pc.view)) else ReadingGen(pc.tok, pc.sec))
       else
         var cleared := SetCache(s, p, c.(secrets := map[], fileInfo := Some(info)));
         if c.fileInfo.Some? then s' == Go(cleared, t, Bumping(pc.tok, pc.sec))
         else s' == Go(Unlock(cleared, p), t, ReadingGen(pc.tok, pc.sec))
  }

  /** A changed file was noticed: the generation is bumped for the other processes. */
  predicate BumpStep(env: Env, s: State, s': State, t: Tid)
  {
    var pc, p := PcOf(s, t), env.proc(t);
    && pc.Bumping?
    && s' == Go(Unlock(SetCache(s, p, CacheOf(s, p).(cachedGen := s.gen + 1)), p).(gen := s.gen + 1), t,
                ReadingGen(pc.tok, pc.sec))
  }

  predicate ReadGenStep(s: State, s': State, t: Tid)
  {
    var pc := PcOf(s, t);
    pc.ReadingGen? && s' == Go(s, t, ReadingFile(pc.tok, pc.sec, s.gen))
  }

  predicate ReadFileStep(env: Env, s: State, s': State, t: Tid)
  {
    var pc := PcOf(s, t);
    pc.ReadingFile? &&
    s' == Go(s, t,
             if Matches(env, s.view.file, pc.tok, pc.sec) then Inserting(pc.tok, pc.sec, pc.genBefore) else Rejected)
  }

  /** Inserting under the write lock, at the moment the generation is read. */
  predicate InsertStep(env: Env, s: State, s': State, t: Tid, gotLock: bool)
  {
    var pc, p := PcOf(s, t), env.proc(t);
    && pc.Inserting? && (gotLock ==> p !in s.writer)
    && if !gotLock then s' == Go(s, t, Accepted(pc.tok, pc.sec, None)) else
       var c := if CacheOf(s, p).cachedGen != s.gen then ResetAndSetGen(s.gen) else CacheOf(s, p);
       var c' := if s.gen == pc.genBefore then c.(secrets := c.secrets[pc.tok := pc.sec], cachedGen := s.gen) else c;
       s' == Go(SetCache(s, p, c'), t, Accepted(pc.tok, pc.sec, None))
  }

  /** A new request, or the end of one. */
  predicate RequestStep(s: State, s': State, t: Tid, tok: Token, sec: Secret)
  {
    (PcOf(s, t).Idle? && s' == Go(s, t, Checking(tok, sec)))
      || ((PcOf(s, t).Accepted? || PcOf(s, t).Rejected?) && s' == Go(s, t, Idle))
  }

  // ----- steps of a changing thread

  predicate BeginStep(env: Env, s: State, s': State, t: Tid, tok: Token, op: Op)
  {
    && PcOf(s, t).Idle? && env.proc(t) == env.mutator && s.mutation == None
    && (op.Generate? ==> env.verify(op.secret, op.hash))
    && s' == Go(s, t, Reading(tok, op)).(mutation := Some(t))
  }

  function Changed(file: Shadow, tok: Token, op: Op): Shadow
  {
    match op case Generate(_, hash) => file[tok := hash] case Delete => file - {tok}
  }

  predicate WriteStep(s: State, s': State, t: Tid)
  {
    var pc := PcOf(s, t);
    && pc.Reading?
    && s' == Go(s, t, Written(pc.tok, pc.op))
             .(view := View(Changed(s.view.file, pc.tok, pc.op), Some(s.view.file)))
  }

  predicate AnnounceStep(s: State, s': State, t: Tid)
  {
    var pc := PcOf(s, t);
    pc.Written? && s' == Go(s, t, Bumped(pc.tok, pc.op, s.gen + 1)).(gen := s.gen + 1, view := View(s.view.file, None))
  }

  /** The change goes into the own cache; `clear` if the file was changed by hand before. */
  predicate ApplyStep(env: Env, s: State, s': State, t: Tid, clear: bool)
  {
    var pc, p := PcOf(s, t), env.proc(t);
    var c := CacheOf(s, p);
    && pc.Bumped? && p !in s.writer
    && if pc.gen != s.gen then s' == Go(SetCache(s, p, ResetAndSetGen(s.gen)), t, Idle).(mutation := None) else
       var kept := if clear then map[] else c.secrets;
       var secrets := match pc.op case Generate(secret, _) => kept[pc.tok := secret] case Delete => kept - {pc.tok};
       s' == Go(Lock(SetCache(s, p, Cache(secrets, s.gen, c.fileInfo)), p, t), t, Applied(pc.tok, s.gen))
  }

  predicate FinishStep(env: Env, s: State, s': State, t: Tid, now: int, meta: Option<(int, int)>)
  {
    var pc, p := PcOf(s, t), env.proc(t);
    && pc.Applied?
    && s' == Go(Unlock(SetCache(s, p,
         match meta
         case None => ResetAndSetGen(pc.gen)
         case Some(m) => CacheOf(s, p).(fileInfo := Some(ShadowFileInfo(m.0, m.1, now)))), p), t, Idle)
       .(mutation := None)
  }

  /** The steps of a thread that changes secrets. */
  ghost predicate ChangeStep(env: Env, s: State, s': State, t: Tid)
  {
    || (exists tok, op :: BeginStep(env, s, s', t, tok, op))
    || WriteStep(s, s', t) || AnnounceStep(s, s', t)
    || (exists c :: ApplyStep(env, s, s', t, c))
    || (exists now, m :: FinishStep(env, s, s', t, now, m))
  }

  ghost predicate ThreadStep(env: Env, s: State, s': State, t: Tid)
  {
    || (exists now, l :: CheckStep(env, s, s', t, now, l))
    || (exists now, l :: RefreshStep(env, s, s', t, now, l))
    || (exists now, m :: StatStep(env, s, s', t, now, m))
    || BumpStep(env, s, s', t) || ReadGenStep(s, s', t) || ReadFileStep(env, s, s', t)
    || (exists l :: InsertStep(env, s, s', t, l))
    || (exists tok, sec :: RequestStep(s, s', t, tok, sec))
    || ChangeStep(env, s, s', t)
  }

  ghost predicate Next(env: Env, s: State, s': State)
  {
    exists t :: ThreadStep(env, s, s', t)
  }

  predicate Init(s: State)
  {
    s.view.prev == None && s.caches == map[] && s.writer == map[] && s.threads == map[] && s.mutation == None
  }

  ghost predicate IsRun(env: Env, run: seq<State>)
  {
    && run != [] && Init(run[0])
    && forall i :: 0 <= i < |run| - 1 ==> Next(env, run[i], run[i + 1])
  }

  // ----- the invariant

  /** A cache of the current generation holds only secrets that are right; and a cache never runs
      ahead of the generation. */
  ghost predicate CacheInv(env: Env, s: State, p: Pid)
  {
    var c := CacheOf(s, p);
    && c.cachedGen <= s.gen
    && (c.cachedGen == s.gen ==> forall tok :: tok in c.secrets ==> Good(env, s.view, tok, c.secrets[tok]))
    && (p == env.mutator ==> forall tok :: tok in c.secrets ==>
          Matches(env, s.view.file, tok, c.secrets[tok]) || Pending(s, tok))
  }

  /** The token is being changed, and the mutating process' own cache does not know yet. */
  predicate Pending(s: State, tok: Token)
  {
    s.mutation.Some? && var pc := PcOf(s, s.mutation.value); (pc.Written? || pc.Bumped?) && pc.tok == tok
  }

  ghost predicate ThreadInv(env: Env, s: State, t: Tid)
  {
    var p := env.proc(t);
    match PcOf(s, t)
    case Stating(_, _, view) =>
      && p in s.writer && s.writer[p] == t
      && forall tok :: tok in CacheOf(s, p).secrets ==> Good(env, view, tok, CacheOf(s, p).secrets[tok])
    case Bumping(_, _) => p in s.writer && s.writer[p] == t && CacheOf(s, p).secrets == map[]
    case ReadingFile(_, _, gen) => gen <= s.gen
    case Inserting(tok, sec, gen) => gen <= s.gen && (gen == s.gen ==> Good(env, s.view, tok, sec))
    case Accepted(tok, sec, hit) => hit.Some? ==> Good(env, hit.value, tok, sec)
    case Reading(_, op) => s.mutation == Some(t) && p == env.mutator
      && (op.Generate? ==> env.verify(op.secret, op.hash))
    case Written(tok, op) => s.mutation == Some(t) && p == env.mutator && Stored(env, s.view.file, tok, op)
    case Bumped(tok, op, gen) => s.mutation == Some(t) && p == env.mutator && Stored(env, s.view.file, tok, op)
      && gen <= s.gen
    case Applied(_, gen) => s.mutation == Some(t) && p == env.mutator && p in s.writer && s.writer[p] == t
      && gen <= s.gen
    case _ => true
  }

  /** The file holds what the change put there. */
  predicate Stored(env: Env, file: Shadow, tok: Token, op: Op)
  {
    match op
    case Generate(secret, _) => Matches(env, file, tok, secret)
    case Delete => tok !in file
  }

  /** A replaced content is remembered exactly while the change is unannounced, and differs from the
      file only in the changed token. */
  ghost predicate ViewInv(s: State)
  {
    && (s.mutation.Some? ==> Changing(PcOf(s, s.mutation.value)))
    && (s.view.prev.Some? <==> s.mutation.Some? && PcOf(s, s.mutation.value).Written?)
    && (s.view.prev.Some? ==> forall tok :: tok != PcOf(s, s.mutation.value).tok ==>
          (tok in s.view.prev.value <==> tok in s.view.file)
          && (tok in s.view.file ==> s.view.prev.value[tok] == s.view.file[tok]))
  }

  predicate Changing(pc: Pc)
  {
    pc.Reading? || pc.Written? || pc.Bumped? || pc.Applied?
  }

  ghost predicate Inv(env: Env, s: State)
  {
    && ViewInv(s)
    && (forall p :: CacheInv(env, s, p))
    && (forall t :: ThreadInv(env, s, t))
  }

  lemma InitInv(env: Env, s: State)
    requires Init(s)
    ensures Inv(env, s)
  {
  }

  /** A good secret is right for the file or belongs to the token that is being changed. */
  lemma GoodOrPending(env: Env, s: State, tok: Token, sec: Secret)
    requires ViewInv(s) && Good(env, s.view, tok, sec)
    ensures Matches(env, s.view.file, tok, sec) || Pending(s, tok)
  {
  }

  // ----- each step keeps the invariant

  /** A thread that does not move keeps its part of the invariant if what it relies on stays. */
  lemma Stays(env: Env, s: State, s': State, u: Tid)
    requires ThreadInv(env, s, u) && PcOf(s', u) == PcOf(s, u) && s'.gen >= s.gen
    requires Changing(PcOf(s, u)) && s.mutation == Some(u) ==> s'.mutation == s.mutation && s'.view.file == s.view.file
    requires var p := env.proc(u);
             p in s.writer && s.writer[p] == u ==>
               p in s'.writer && s'.writer[p] == u && CacheOf(s', p) == CacheOf(s, p)
    requires s'.gen > s.gen || forall tok, sec :: Good(env, s.view, tok, sec) ==> Good(env, s'.view, tok, sec)
    ensures ThreadInv(env, s', u)
  {
    hide Good, Matches, Stored;
  }

  /** A verifying thread changes its own place and, if nobody else holds the write lock, its own
      process' cache: everybody else's part of the invariant is kept. */
  lemma Local(env: Env, s: State, s': State, t: Tid)
    requires Inv(env, s) && !Changing(PcOf(s, t))
    requires s'.view == s.view && s'.gen == s.gen && s'.mutation == s.mutation
    requires forall u :: u != t ==> PcOf(s', u) == PcOf(s, u)
    requires var p := env.proc(t);
             && (forall q :: q != p ==>
                 CacheOf(s', q) == CacheOf(s, q) && (q in s'.writer <==> q in s.writer)
                   && (q in s.writer ==> s'.writer[q] == s.writer[q]))
             && (p in s.writer && s.writer[p] != t ==>
                 CacheOf(s', p) == CacheOf(s, p) && p in s'.writer && s'.writer[p] == s.writer[p])
    ensures ViewInv(s') && (forall q :: q != env.proc(t) ==> CacheInv(env, s', q))
            && (forall u :: u != t ==> ThreadInv(env, s', u))
    ensures forall tok :: Pending(s', tok) <==> Pending(s, tok)
  {
    hide Good, Matches, Stored;
    assert s.mutation != Some(t);
    forall u | u != t ensures ThreadInv(env, s', u) { Stays(env, s, s', u); }
    assert forall tok :: Pending(s', tok) <==> Pending(s, tok);
    forall q | q != env.proc(t) ensures CacheInv(env, s', q) {
      assert CacheInv(env, s, q) && CacheOf(s', q) == CacheOf(s, q);
    }
  }

  lemma CheckKeeps(env: Env, s: State, s': State, t: Tid, now: int, l: bool)
    requires Inv(env, s) && CheckStep(env, s, s', t, now, l)
    ensures Inv(env, s')
  {
    hide Good, Matches, Stored, WithinTtl, ViewInv;
    Local(env, s, s', t);
    assert CacheInv(env, s, env.proc(t));
    assert CacheInv(env, s', env.proc(t));
    assert ThreadInv(env, s', t);
  }

  lemma RefreshKeeps(env: Env, s: State, s': State, t: Tid, now: int, l: bool)
    requires Inv(env, s) && RefreshStep(env, s, s', t, now, l)
    ensures Inv(env, s')
  {
    hide Good, Matches, Stored, WithinTtl, ViewInv;
    Local(env, s, s', t);
    RefreshOwn(env, s, s', t, now, l);
  }

  lemma RefreshOwn(env: Env, s: State, s': State, t: Tid, now: int, l: bool)
    requires RefreshStep(env, s, s', t, now, l) && CacheInv(env, s, env.proc(t))
    requires forall tok :: Pending(s', tok) <==> Pending(s, tok)
    ensures CacheInv(env, s', env.proc(t)) && ThreadInv(env, s', t)
  {
    hide Good, Matches, Stored, WithinTtl, Pending;
  }

  lemma StatKeeps(env: Env, s: State, s': State, t: Tid, now: int, m: Option<(int, int)>)
    requires Inv(env, s) && StatStep(env, s, s', t, now, m)
    ensures Inv(env, s')
  {
    hide Good, Matches, Stored, ViewInv;
    assert ThreadInv(env, s, t);
    Local(env, s, s', t);
    assert CacheInv(env, s, env.proc(t));
    assert CacheInv(env, s', env.proc(t));
    assert ThreadInv(env, s', t);
  }

  lemma ReadKeeps(env: Env, s: State, s': State, t: Tid)
    requires Inv(env, s) && (ReadGenStep(s, s', t) || ReadFileStep(env, s, s', t))
    ensures Inv(env, s')
  {
    hide Matches, Stored, ViewInv;
    assert ThreadInv(env, s, t);
    Local(env, s, s', t);
    assert CacheInv(env, s, env.proc(t));
    assert CacheInv(env, s', env.proc(t));
    assert ThreadInv(env, s', t);
  }

  lemma RequestKeeps(env: Env, s: State, s': State, t: Tid, tok: Token, sec: Secret)
    requires Inv(env, s) && RequestStep(s, s', t, tok, sec)
    ensures Inv(env, s')
  {
    hide Good, Matches, Stored, ViewInv;
    Local(env, s, s', t);
    assert CacheInv(env, s, env.proc(t));
    assert CacheInv(env, s', env.proc(t));
    assert ThreadInv(env, s', t);
  }

  lemma InsertKeeps(env: Env, s: State, s': State, t: Tid, l: bool)
    requires Inv(env, s) && InsertStep(env, s, s', t, l)
    ensures Inv(env, s')
  {
    hide Good, Matches, Stored;
    assert ThreadInv(env, s, t);
    Local(env, s, s', t);
    var pc, p := PcOf(s, t), env.proc(t);
    assert CacheInv(env, s, p);
    if l && s.gen == pc.genBefore { GoodOrPending(env, s, pc.tok, pc.sec); }
    assert CacheInv(env, s', p);
    assert ThreadInv(env, s', t);
  }

  /** After a bump every cache is of an older generation, the bumping one is empty. */
  lemma BumpKeeps(env: Env, s: State, s': State, t: Tid)
    requires Inv(env, s) && BumpStep(env, s, s', t)
    ensures Inv(env, s')
  {
    hide Good, Matches, Stored;
    assert ThreadInv(env, s, t);
    assert s.mutation != Some(t);
    assert forall tok :: Pending(s', tok) <==> Pending(s, tok);
    forall p ensures CacheInv(env, s', p) { assert CacheInv(env, s, p); }
    assert ThreadInv(env, s', t);
    forall u | u != t ensures ThreadInv(env, s', u) {
      assert ThreadInv(env, s, u);
      Stays(env, s, s', u);
    }
  }

  lemma BeginKeeps(env: Env, s: State, s': State, t: Tid, tok: Token, op: Op)
    requires Inv(env, s) && BeginStep(env, s, s', t, tok, op)
    ensures Inv(env, s')
  {
    hide Good, Matches, Stored;
    forall p ensures CacheInv(env, s', p) { assert CacheInv(env, s, p); }
    assert ThreadInv(env, s', t);
    forall u | u != t ensures ThreadInv(env, s', u) {
      assert ThreadInv(env, s, u);
      Stays(env, s, s', u);
    }
  }

  lemma WriteKeeps(env: Env, s: State, s': State, t: Tid)
    requires Inv(env, s) && WriteStep(s, s', t)
    ensures Inv(env, s')
  {
    assert ThreadInv(env, s, t);
    var pc := PcOf(s, t);
    assert s.view.prev.None?;
    assert forall tok, sec :: Good(env, s.view, tok, sec) ==> Good(env, s'.view, tok, sec);
    assert forall tok, sec :: tok != pc.tok ==>
             (Matches(env, s'.view.file, tok, sec) <==> Matches(env, s.view.file, tok, sec));
    assert forall tok :: !Pending(s, tok);
    assert Pending(s', pc.tok);
    WriteCaches(env, s, s', t);
    assert ThreadInv(env, s', t);
    forall u | u != t ensures ThreadInv(env, s', u) {
      assert ThreadInv(env, s, u);
      Stays(env, s, s', u);
    }
  }

  lemma WriteCaches(env: Env, s: State, s': State, t: Tid)
    requires Inv(env, s) && WriteStep(s, s', t)
    requires forall tok, sec :: Good(env, s.view, tok, sec) ==> Good(env, s'.view, tok, sec)
    requires forall tok, sec :: tok != PcOf(s, t).tok ==>
               (Matches(env, s'.view.file, tok, sec) <==> Matches(env, s.view.file, tok, sec))
    requires (forall tok :: !Pending(s, tok)) && Pending(s', PcOf(s, t).tok)
    ensures forall p :: CacheInv(env, s', p)
  {
    hide Good, Matches, Changed;
    forall p ensures CacheInv(env, s', p) {
      assert CacheInv(env, s, p) && CacheOf(s', p) == CacheOf(s, p);
    }
  }

  lemma AnnounceKeeps(env: Env, s: State, s': State, t: Tid)
    requires Inv(env, s) && AnnounceStep(s, s', t)
    ensures Inv(env, s')
  {
    hide Good, Matches, Stored;
    assert ThreadInv(env, s, t);
    assert forall tok :: Pending(s', tok) <==> Pending(s, tok);
    forall p ensures CacheInv(env, s', p) { assert CacheInv(env, s, p); }
    assert ThreadInv(env, s', t);
    forall u | u != t ensures ThreadInv(env, s', u) {
      assert ThreadInv(env, s, u);
      Stays(env, s, s', u);
    }
  }

  /** Applying the change to the own cache: the other secrets in it, of whatever generation, are right
      for the file, because no other process has changed it. */
  lemma ApplyKeeps(env: Env, s: State, s': State, t: Tid, clear: bool)
    requires Inv(env, s) && ApplyStep(env, s, s', t, clear)
    ensures Inv(env, s')
  {
    assert ThreadInv(env, s, t);
    var pc, p := PcOf(s, t), env.proc(t);
    assert CacheInv(env, s, p);
    assert forall tok :: Pending(s, tok) <==> tok == pc.tok;
    assert forall tok :: !Pending(s', tok);
    ApplyOthers(env, s, s', t, clear);
    assert CacheInv(env, s', p);
    assert ThreadInv(env, s', t);
  }

  lemma ApplyOthers(env: Env, s: State, s': State, t: Tid, clear: bool)
    requires Inv(env, s) && ApplyStep(env, s, s', t, clear)
    ensures ViewInv(s') && (forall q :: q != env.proc(t) ==> CacheInv(env, s', q))
            && (forall u :: u != t ==> ThreadInv(env, s', u))
  {
    hide Good, Matches, Stored;
    assert ThreadInv(env, s, t);
    forall q | q != env.proc(t) ensures CacheInv(env, s', q) {
      assert CacheInv(env, s, q) && CacheOf(s', q) == CacheOf(s, q);
    }
    forall u | u != t ensures ThreadInv(env, s', u) {
      assert ThreadInv(env, s, u);
      Stays(env, s, s', u);
    }
  }

  lemma FinishKeeps(env: Env, s: State, s': State, t: Tid, now: int, m: Option<(int, int)>)
    requires Inv(env, s) && FinishStep(env, s, s', t, now, m)
    ensures Inv(env, s')
  {
    hide Good, Matches, Stored;
    assert ThreadInv(env, s, t);
    assert forall tok :: !Pending(s, tok) && !Pending(s', tok);
    forall q ensures CacheInv(env, s', q) {
      assert CacheInv(env, s, q);
      assert q != env.proc(t) ==> CacheOf(s', q) == CacheOf(s, q);
    }
    assert ThreadInv(env, s', t);
    forall u | u != t ensures ThreadInv(env, s', u) {
      assert ThreadInv(env, s, u);
      Stays(env, s, s', u);
    }
  }

  lemma NextKeeps(env: Env, s: State, s': State)
    requires Inv(env, s) && Next(env, s, s')
    ensures Inv(env, s')
  {
    hide Inv, CheckStep, RefreshStep, StatStep, BumpStep, ReadGenStep, ReadFileStep, InsertStep, RequestStep, BeginStep,
      WriteStep, AnnounceStep, ApplyStep, FinishStep;
    var t :| ThreadStep(env, s, s', t);
    if now, l :| CheckStep(env, s, s', t, now, l) { CheckKeeps(env, s, s', t, now, l); }
    else if now, l :| RefreshStep(env, s, s', t, now, l) { RefreshKeeps(env, s, s', t, now, l); }
    else if now, m :| StatStep(env, s, s', t, now, m) { StatKeeps(env, s, s', t, now, m); }
    else if BumpStep(env, s, s', t) { BumpKeeps(env, s, s', t); }
    else if ReadGenStep(s, s', t) || ReadFileStep(env, s, s', t) { ReadKeeps(env, s, s', t); }
    else if l :| InsertStep(env, s, s', t, l) { InsertKeeps(env, s, s', t, l); }
    else if tok, sec :| RequestStep(s, s', t, tok, sec) { RequestKeeps(env, s, s', t, tok, sec); }
    else if tok, op :| BeginStep(env, s, s', t, tok, op) { BeginKeeps(env, s, s', t, tok, op); }
    else if WriteStep(s, s', t) { WriteKeeps(env, s, s', t); }
    else if AnnounceStep(s, s', t) { AnnounceKeeps(env, s, s', t); }
    else if c :| ApplyStep(env, s, s', t, c) { ApplyKeeps(env, s, s', t, c); }
    else { var now, m :| FinishStep(env, s, s', t, now, m); FinishKeeps(env, s, s', t, now, m); }
  }

  lemma {:induction false} RunKeeps(env: Env, run: seq<State>, i: nat)
    requires IsRun(env, run) && i < |run|
    ensures Inv(env, run[i])
    decreases i
  {
    hide Inv, Next;
    if i == 0 {
      InitInv(env, run[0]);
    } else {
      RunKeeps(env, run, i - 1);
      assert Next(env, run[i - 1], run[i]);
      NextKeeps(env, run[i - 1], run[i]);
    }
  }

  // ----- where a hit comes from

  /** The thread is in a request for the secret and has read the generation when `view` was current. */
  predicate Decided(pc: Pc, tok: Token, sec: Secret, view: View)
  {
    pc == Stating(tok, sec, view) || pc == Accepted(tok, sec, Some(view))
  }

  /** A thread that has decided had decided before, or has just read the generation. */
  lemma DecisionStep(env: Env, s: State, s': State, t: Tid, tok: Token, sec: Secret, view: View)
    requires Next(env, s, s') && Decided(PcOf(s', t), tok, sec, view)
    ensures Decided(PcOf(s, t), tok, sec, view)
            || (s.view == view && (PcOf(s, t) == Checking(tok, sec) || PcOf(s, t) == Refreshing(tok, sec)))
  {
    hide CheckStep, RefreshStep, StatStep, ThreadStep;
    var u :| ThreadStep(env, s, s', u);
    OneMoves(env, s, s', u);
    if u == t {
      Deciders(env, s, s', t);
      if now, l :| CheckStep(env, s, s', t, now, l) { CheckDecides(env, s, s', t, now, l); }
      else if now, l :| RefreshStep(env, s, s', t, now, l) { RefreshDecides(env, s, s', t, now, l); }
      else if now, m :| StatStep(env, s, s', t, now, m) { StatDecides(env, s, s', t, now, m); }
    }
  }

  /** A step moves one thread. */
  lemma OneMoves(env: Env, s: State, s': State, u: Tid)
    requires ThreadStep(env, s, s', u)
    ensures forall t :: t != u ==> PcOf(s', t) == PcOf(s, t)
  {
    hide CheckStep, RefreshStep, StatStep, Matches, BeginStep, WriteStep, AnnounceStep, ApplyStep, FinishStep, CacheOf;
    if now, l :| CheckStep(env, s, s', u, now, l) {
      CheckDecides(env, s, s', u, now, l);
    } else if now, l :| RefreshStep(env, s, s', u, now, l) {
      RefreshDecides(env, s, s', u, now, l);
    } else if now, m :| StatStep(env, s, s', u, now, m) {
      StatDecides(env, s, s', u, now, m);
    } else if BumpStep(env, s, s', u) || ReadGenStep(s, s', u) || ReadFileStep(env, s, s', u) {
    } else if l :| InsertStep(env, s, s', u, l) {
    } else if tok, sec :| RequestStep(s, s', u, tok, sec) {
    } else {
      ChangeMoves(env, s, s', u);
    }
  }

  lemma ChangeMoves(env: Env, s: State, s': State, u: Tid)
    requires ChangeStep(env, s, s', u)
    ensures forall t :: t != u ==> PcOf(s', t) == PcOf(s, t)
  {
    hide Changed, CacheOf;
    if tok, op :| BeginStep(env, s, s', u, tok, op) {
    } else if WriteStep(s, s', u) || AnnounceStep(s, s', u) {
    } else if c :| ApplyStep(env, s, s', u, c) {
    } else {
      var now, m :| FinishStep(env, s, s', u, now, m);
    }
  }

  /** Only the three steps that look into the cache decide. */
  lemma Deciders(env: Env, s: State, s': State, t: Tid)
    requires ThreadStep(env, s, s', t)
    ensures (exists tok, sec, view :: Decided(PcOf(s', t), tok, sec, view)) ==>
              || (exists now, l :: CheckStep(env, s, s', t, now, l))
              || (exists now, l :: RefreshStep(env, s, s', t, now, l))
              || (exists now, m :: StatStep(env, s, s', t, now, m))
  {
    hide CheckStep, RefreshStep, StatStep, Matches, Changed, CacheOf;
    if BumpStep(env, s, s', t) || ReadGenStep(s, s', t) || ReadFileStep(env, s, s', t) {
    } else if l :| InsertStep(env, s, s', t, l) {
    } else if tok, sec :| RequestStep(s, s', t, tok, sec) {
    } else if tok, op :| BeginStep(env, s, s', t, tok, op) {
    } else if WriteStep(s, s', t) || AnnounceStep(s, s', t) {
    } else if c :| ApplyStep(env, s, s', t, c) {
    } else if now, m :| FinishStep(env, s, s', t, now, m) {
    }
  }

  lemma CheckDecides(env: Env, s: State, s': State, t: Tid, now: int, l: bool)
    requires CheckStep(env, s, s', t, now, l)
    ensures forall u :: u != t ==> PcOf(s', u) == PcOf(s, u)
    ensures forall tok, sec, view :: Decided(PcOf(s', t), tok, sec, view) ==>
              s.view == view && PcOf(s, t) == Checking(tok, sec)
  {
    hide SecretMatches, WithinTtl;
  }

  lemma RefreshDecides(env: Env, s: State, s': State, t: Tid, now: int, l: bool)
    requires RefreshStep(env, s, s', t, now, l)
    ensures forall u :: u != t ==> PcOf(s', u) == PcOf(s, u)
    ensures forall tok, sec, view :: Decided(PcOf(s', t), tok, sec, view) ==>
              s.view == view && PcOf(s, t) == Refreshing(tok, sec)
  {
    hide SecretMatches, WithinTtl;
  }

  lemma StatDecides(env: Env, s: State, s': State, t: Tid, now: int, m: Option<(int, int)>)
    requires StatStep(env, s, s', t, now, m)
    ensures forall u :: u != t ==> PcOf(s', u) == PcOf(s, u)
    ensures forall tok, sec, view :: Decided(PcOf(s', t), tok, sec, view) ==> Decided(PcOf(s, t), tok, sec, view)
  {
    hide SecretMatches, WithinTtl;
  }

  lemma {:induction false} Origin(env: Env, run: seq<State>, i: nat, t: Tid, tok: Token, sec: Secret, view: View)
      returns (k: nat)
    requires IsRun(env, run) && i < |run| && Decided(PcOf(run[i], t), tok, sec, view)
    ensures k < i && run[k].view == view
    ensures PcOf(run[k], t) == Checking(tok, sec) || PcOf(run[k], t) == Refreshing(tok, sec)
    ensures forall j :: k < j <= i ==> Decided(PcOf(run[j], t), tok, sec, view)
    decreases i
  {
    hide Next;
    if i == 0 {
      assert false;
    } else {
      assert Next(env, run[i - 1], run[i]);
      DecisionStep(env, run[i - 1], run[i], t, tok, sec, view);
      if Decided(PcOf(run[i - 1], t), tok, sec, view) {
        k := Origin(env, run, i - 1, t, tok, sec, view);
      } else {
        k := i - 1;
      }
    }
  }

  /** Cache safety over every run: a secret accepted from the cache was, at a moment during that very
      request, right for the shadow file, or for the contents that the one unfinished change had just
      replaced. */
  lemma HitIsSound(env: Env, run: seq<State>, i: nat, t: Tid, tok: Token, sec: Secret, view: View) returns (k: nat)
    requires IsRun(env, run) && i < |run| && PcOf(run[i], t) == Accepted(tok, sec, Some(view))
    ensures k < i && Good(env, run[k].view, tok, sec)
    ensures PcOf(run[k], t) == Checking(tok, sec) || PcOf(run[k], t) == Refreshing(tok, sec)
    ensures forall j :: k < j <= i ==> Decided(PcOf(run[j], t), tok, sec, view)
  {
    hide Next, Good;
    RunKeeps(env, run, i);
    k := Origin(env, run, i, t, tok, sec, view);
    assert ThreadInv(env, run[i], t);
  }

  /** The thread accepts the secret because its process' cache holds it, is of the current generation, and had its
      file metadata checked less than 60 seconds ago; or because that metadata is what it was. */
  ghost predicate Confirms(env: Env, s: State, s': State, t: Tid, tok: Token, sec: Secret)
  {
    var c := CacheOf(s, env.proc(t));
    && tok in c.secrets && c.secrets[tok] == sec && c.fileInfo.Some?
    && var info := c.fileInfo.value;
       || (exists now, l ::
            && (CheckStep(env, s, s', t, now, l) || RefreshStep(env, s, s', t, now, l))
            && c.cachedGen == s.gen && info.lastChecked <= now < info.lastChecked + 60)
       || (exists now :: StatStep(env, s, s', t, now, Some((info.mtime, info.len))))
  }

  lemma CheckConfirms(env: Env, s: State, s': State, t: Tid, tok: Token, sec: Secret, now: int, l: bool)
    requires CheckStep(env, s, s', t, now, l) || RefreshStep(env, s, s', t, now, l)
    requires PcOf(s', t).Accepted? && Verifies(PcOf(s', t), tok, sec)
    ensures Confirms(env, s, s', t, tok, sec)
  {
  }

  lemma StatConfirms(env: Env, s: State, s': State, t: Tid, tok: Token, sec: Secret, now: int, m: Option<(int, int)>)
    requires StatStep(env, s, s', t, now, m)
    requires PcOf(s', t).Accepted? && Verifies(PcOf(s', t), tok, sec)
    ensures Confirms(env, s, s', t, tok, sec)
  {
    var info := CacheOf(s, env.proc(t)).fileInfo.value;
    assert m == Some((info.mtime, info.len));
  }

  /** Every secret accepted from a cache was confirmed by the step that accepted it. */
  lemma {:induction false} HitIsFresh(env: Env, run: seq<State>, i: nat, t: Tid, tok: Token, sec: Secret, view: View)
      returns (k: nat)
    requires IsRun(env, run) && i < |run| && PcOf(run[i], t) == Accepted(tok, sec, Some(view))
    ensures k < i && Confirms(env, run[k], run[k + 1], t, tok, sec)
    ensures forall j :: k < j <= i ==> PcOf(run[j], t) == Accepted(tok, sec, Some(view))
    decreases i
  {
    hide Next, Confirms;
    if i == 0 {
      assert false;
    } else if PcOf(run[i - 1], t) == PcOf(run[i], t) {
      k := HitIsFresh(env, run, i - 1, t, tok, sec, view);
    } else {
      assert Next(env, run[i - 1], run[i]);
      HitStep(env, run[i - 1], run[i], t, tok, sec, view);
      k := i - 1;
    }
  }

  lemma HitStep(env: Env, s: State, s': State, t: Tid, tok: Token, sec: Secret, view: View)
    requires Next(env, s, s') && PcOf(s', t) == Accepted(tok, sec, Some(view)) && PcOf(s, t) != PcOf(s', t)
    ensures Confirms(env, s, s', t, tok, sec)
  {
    hide CheckStep, RefreshStep, StatStep, ThreadStep, Confirms;
    var u :| ThreadStep(env, s, s', u);
    OneMoves(env, s, s', u);
    Deciders(env, s, s', t);
    assert Decided(PcOf(s', t), tok, sec, view);
    if now, l :| CheckStep(env, s, s', t, now, l) {
      CheckConfirms(env, s, s', t, tok, sec, now, l);
    } else if now, l :| RefreshStep(env, s, s', t, now, l) {
      CheckConfirms(env, s, s', t, tok, sec, now, l);
    } else {
      var now, m :| StatStep(env, s, s', t, now, m);
      StatConfirms(env, s, s', t, tok, sec, now, m);
    }
  }

  /** A cache whose file is not certain to be the one that it knows is emptied: when the metadata is new or has
      changed, when it cannot be read after a change, and before a change if the file was changed by hand. */
  lemma DoubtEmpties(env: Env, s: State, s': State, t: Tid, now: int, m: Option<(int, int)>)
    ensures var p := env.proc(t);
            var c, secrets := CacheOf(s, p), CacheOf(s', p).secrets;
            && (StatStep(env, s, s', t, now, m) && m.Some? ==>
                  c.fileInfo.None? || (c.fileInfo.value.mtime, c.fileInfo.value.len) != m.value ==> secrets == map[])
            && (FinishStep(env, s, s', t, now, None) ==> secrets == map[] && CacheOf(s', p).fileInfo == None)
            && (ApplyStep(env, s, s', t, true) ==> forall tok :: tok in secrets ==> tok == PcOf(s, t).tok)
  {
  }

  // ----- where a verdict comes from

  /** The thread verifies this secret of this token, or has accepted it. */
  predicate Verifies(pc: Pc, tok: Token, sec: Secret)
  {
    match pc
    case Idle | Rejected | Reading(_, _) | Written(_, _) | Bumped(_, _, _) | Applied(_, _) => false
    case _ => pc.tok == tok && pc.sec == sec
  }

  /** How a thread may get from one place to another while `file` is the shadow file: a request keeps its token
      and its secret, and only the file leads to a verdict that does not come from the cache. */
  ghost predicate Allowed(env: Env, file: Shadow, pc: Pc, pc': Pc)
  {
    && (forall tok, sec :: Verifies(pc', tok, sec) ==>
          Verifies(pc, tok, sec) || (pc.Idle? && pc' == Checking(tok, sec)))
    && (pc'.Checking? ==> pc.Idle?)
    && (pc'.Accepted? && pc'.hit.None? ==> pc.Inserting?)
    && (pc'.Inserting? ==> pc.ReadingFile? && pc'.genBefore == pc.genBefore
                           && pc.tok in file && env.verify(pc.sec, file[pc.tok]))
    && (pc'.Rejected? ==> pc.ReadingFile? && (pc.tok in file ==> !env.verify(pc.sec, file[pc.tok])))
  }

  lemma CacheAllowed(env: Env, s: State, s': State, t: Tid, now: int, l: bool, m: Option<(int, int)>)
    requires CheckStep(env, s, s', t, now, l) || RefreshStep(env, s, s', t, now, l) || StatStep(env, s, s', t, now, m)
    ensures Allowed(env, s.view.file, PcOf(s, t), PcOf(s', t))
  {
    hide SecretMatches, WithinTtl, CacheOf;
  }

  lemma StepAllowed(env: Env, s: State, s': State, t: Tid)
    requires ThreadStep(env, s, s', t)
    ensures Allowed(env, s.view.file, PcOf(s, t), PcOf(s', t))
  {
    hide CheckStep, RefreshStep, StatStep, BeginStep, WriteStep, AnnounceStep, ApplyStep, FinishStep, CacheOf;
    if now, l :| CheckStep(env, s, s', t, now, l) {
      CacheAllowed(env, s, s', t, now, l, None);
    } else if now, l :| RefreshStep(env, s, s', t, now, l) {
      CacheAllowed(env, s, s', t, now, l, None);
    } else if now, m :| StatStep(env, s, s', t, now, m) {
      CacheAllowed(env, s, s', t, now, false, m);
    } else if BumpStep(env, s, s', t) || ReadGenStep(s, s', t) || ReadFileStep(env, s, s', t) {
    } else if l :| InsertStep(env, s, s', t, l) {
    } else if tok, sec :| RequestStep(s, s', t, tok, sec) {
    } else {
      ChangeAllowed(env, s, s', t);
    }
  }

  /** A thread that changes secrets leaves its requests alone. */
  lemma ChangeAllowed(env: Env, s: State, s': State, t: Tid)
    requires ChangeStep(env, s, s', t)
    ensures Allowed(env, s.view.file, PcOf(s, t), PcOf(s', t))
  {
    hide Changed, CacheOf;
    if tok, op :| BeginStep(env, s, s', t, tok, op) {
    } else if WriteStep(s, s', t) || AnnounceStep(s, s', t) {
    } else if c :| ApplyStep(env, s, s', t, c) {
    } else {
      var now, m :| FinishStep(env, s, s', t, now, m);
    }
  }

  lemma MoveAllowed(env: Env, s: State, s': State, t: Tid)
    requires Next(env, s, s')
    ensures PcOf(s', t) == PcOf(s, t) || Allowed(env, s.view.file, PcOf(s, t), PcOf(s', t))
  {
    hide ThreadStep, Allowed;
    var u :| ThreadStep(env, s, s', u);
    OneMoves(env, s, s', u);
    if u == t { StepAllowed(env, s, s', t); }
  }

  /** No request gets stuck: whatever the other threads hold, its thread can move on until there is a verdict. */
  lemma VerifierMoves(env: Env, s: State, t: Tid, tok: Token, sec: Secret, now: int) returns (s': State)
    requires Verifies(PcOf(s, t), tok, sec) && !PcOf(s, t).Accepted?
    ensures Next(env, s, s') && PcOf(s', t) != PcOf(s, t)
  {
    var p := env.proc(t);
    match PcOf(s, t) {
      case Checking(_, _) =>
        s' := Go(s, t, ReadingGen(tok, sec));
        assert CheckStep(env, s, s', t, now, false);
      case Refreshing(_, _) =>
        s' := Go(s, t, ReadingGen(tok, sec));
        assert RefreshStep(env, s, s', t, now, false);
      case Stating(_, _, _) =>
        s' := Go(Unlock(s, p), t, ReadingGen(tok, sec));
        assert StatStep(env, s, s', t, now, None);
      case Bumping(_, _) =>
        s' := Go(Unlock(SetCache(s, p, CacheOf(s, p).(cachedGen := s.gen + 1)), p).(gen := s.gen + 1), t,
                 ReadingGen(tok, sec));
        assert BumpStep(env, s, s', t);
      case ReadingGen(_, _) =>
        s' := Go(s, t, ReadingFile(tok, sec, s.gen));
        assert ReadGenStep(s, s', t);
      case ReadingFile(_, _, gen) =>
        s' := Go(s, t, if Matches(env, s.view.file, tok, sec) then Inserting(tok, sec, gen) else Rejected);
        assert ReadFileStep(env, s, s', t);
      case Inserting(_, _, _) =>
        s' := Go(s, t, Accepted(tok, sec, None));
        assert InsertStep(env, s, s', t, false);
    }
    assert ThreadStep(env, s, s', t);
  }

  /** Once a change is written, and until it has reached the own cache, the file holds it: the hash of the new
      secret, or nothing for a deleted token. */
  lemma ChangeIsStored(env: Env, run: seq<State>, i: nat, t: Tid)
    requires IsRun(env, run) && i < |run| && (PcOf(run[i], t).Written? || PcOf(run[i], t).Bumped?)
    ensures var tok, file := PcOf(run[i], t).tok, run[i].view.file;
            match PcOf(run[i], t).op
            case Generate(secret, _) => tok in file && env.verify(secret, file[tok])
            case Delete => tok !in file
  {
    hide Next, CacheInv, ViewInv;
    RunKeeps(env, run, i);
    assert ThreadInv(env, run[i], t);
  }

  /** Every verification answers the request that was made: it goes back to the moment at which the thread took
      the request for this token and this secret, and has dealt with nothing else since. */
  lemma {:induction false} RequestOf(env: Env, run: seq<State>, i: nat, t: Tid, tok: Token, sec: Secret)
      returns (k: nat)
    requires IsRun(env, run) && i < |run| && Verifies(PcOf(run[i], t), tok, sec)
    ensures 0 < k <= i && PcOf(run[k - 1], t).Idle? && PcOf(run[k], t) == Checking(tok, sec)
    ensures forall j :: k <= j <= i ==> Verifies(PcOf(run[j], t), tok, sec)
    decreases i
  {
    hide Next;
    if i == 0 {
      assert false;
    } else {
      assert Next(env, run[i - 1], run[i]);
      MoveAllowed(env, run[i - 1], run[i], t);
      if Verifies(PcOf(run[i - 1], t), tok, sec) {
        k := RequestOf(env, run, i - 1, t, tok, sec);
      } else {
        k := i;
      }
    }
  }

  /** A secret that was accepted, but not from the cache, had the hash that the shadow file held for the token at
      a moment during that very request. */
  lemma {:induction false} AcceptIsSound(env: Env, run: seq<State>, i: nat, t: Tid, tok: Token, sec: Secret)
      returns (k: nat)
    requires IsRun(env, run) && i < |run| && Verifies(PcOf(run[i], t), tok, sec)
    requires PcOf(run[i], t).Inserting? || PcOf(run[i], t) == Accepted(tok, sec, None)
    ensures k < i && PcOf(run[k], t).ReadingFile? && Verifies(PcOf(run[k], t), tok, sec)
    ensures tok in run[k].view.file && env.verify(sec, run[k].view.file[tok])
    ensures forall j :: k < j <= i ==> Verifies(PcOf(run[j], t), tok, sec)
    decreases i
  {
    hide Next;
    if i == 0 {
      assert false;
    } else {
      assert Next(env, run[i - 1], run[i]);
      MoveAllowed(env, run[i - 1], run[i], t);
      var was := PcOf(run[i - 1], t);
      if was.ReadingFile? {
        k := i - 1;
      } else {
        k := AcceptIsSound(env, run, i - 1, t, tok, sec);
      }
    }
  }

  /** A request that was rejected asked for a secret that did not fit the shadow file, at a moment during that
      very request. */
  lemma {:induction false} RejectIsJust(env: Env, run: seq<State>, i: nat, t: Tid)
      returns (k: nat, tok: Token, sec: Secret)
    requires IsRun(env, run) && i < |run| && PcOf(run[i], t).Rejected?
    ensures k < i && PcOf(run[k], t).ReadingFile? && Verifies(PcOf(run[k], t), tok, sec)
    ensures tok in run[k].view.file ==> !env.verify(sec, run[k].view.file[tok])
    ensures forall j :: k < j <= i ==> PcOf(run[j], t).Rejected?
    decreases i
  {
    hide Next;
    if i == 0 {
      assert false;
    } else {
      assert Next(env, run[i - 1], run[i]);
      MoveAllowed(env, run[i - 1], run[i], t);
      var was := PcOf(run[i - 1], t);
      if was.Rejected? {
        k, tok, sec := RejectIsJust(env, run, i - 1, t);
      } else {
        k, tok, sec := i - 1, was.tok, was.sec;
      }
    }
  }

  /** When no change is under way, every secret in a cache of the current generation, and every secret
      in the mutating process' own cache, is right for the file as it is. */
  lemma QuietCachesAreRight(env: Env, run: seq<State>, i: nat, p: Pid, tok: Token)
    requires IsRun(env, run) && i < |run| && run[i].mutation == None
    requires tok in CacheOf(run[i], p).secrets
    requires CacheOf(run[i], p).cachedGen == run[i].gen || p == env.mutator
    ensures Matches(env, run[i].view.file, tok, CacheOf(run[i], p).secrets[tok])
  {
    hide Next, Matches, ThreadInv;
    RunKeeps(env, run, i);
    assert CacheInv(env, run[i], p);
  }
}
