/** Lock files that may be deleted while others wait for them: opening, `flock`, the comparison of
    the locked inode with the one at the path, and unlinking by an exclusive holder. */
module LockFile {

  type Path = string
  type Inode = nat
  type Handle = nat

  datatype Mode = Shared | Exclusive

  /** How far one attempt to lock has come. `Held` is what the caller gets as a lock guard;
      `Removed` is a guard whose holder has deleted the lock file. */
  datatype Guard =
    | Idle
    | Opened(path: Path, inode: Inode, mode: Mode)
    | Locked(path: Path, inode: Inode, mode: Mode)
    | Held(path: Path, inode: Inode, mode: Mode)
    | Removed(path: Path, inode: Inode)

  /** The directory entries, and all handles; a handle that is not in the map is idle. */
  datatype State = State(files: map<Path, Inode>, guards: map<Handle, Guard>)

  function At(s: State, h: Handle): Guard
  {
    if h in s.guards then s.guards[h] else Idle
  }

  /** The open file of a handle keeps its inode from being used again. */
  predicate InUse(s: State, i: Inode)
  {
    || (exists p :: p in s.files && s.files[p] == i)
    || (exists h :: h in s.guards && !s.guards[h].Idle? && s.guards[h].inode == i)
  }

  /** Whether the handle owns a `flock` on the inode. */
  predicate Flocks(s: State, h: Handle, i: Inode)
  {
    var g := At(s, h);
    (g.Locked? || g.Held? || g.Removed?) && g.inode == i
  }

  predicate FlocksExclusively(s: State, h: Handle, i: Inode)
  {
    Flocks(s, h, i) && (At(s, h).Removed? || At(s, h).mode == Exclusive)
  }

  // ----- the steps

  predicate OpenStep(s: State, s': State, h: Handle, path: Path, mode: Mode, i: Inode)
  {
    && At(s, h) == Idle
    && (if path in s.files then i == s.files[path] && s'.files == s.files
        else !InUse(s, i) && s'.files == s.files[path := i])
    && s'.guards == s.guards[h := Opened(path, i, mode)]
  }

  /** The kernel grants a shared lock beside shared ones and an exclusive one beside none. */
  ghost predicate FlockStep(s: State, s': State, h: Handle)
  {
    var g := At(s, h);
    && g.Opened?
    && (forall k :: k != h && Flocks(s, k, g.inode) ==> g.mode == Shared && !FlocksExclusively(s, k, g.inode))
    && s' == s.(guards := s.guards[h := Locked(g.path, g.inode, g.mode)])
  }

  /** The lock was not granted in time. */
  predicate TimeoutStep(s: State, s': State, h: Handle)
  {
    At(s, h).Opened? && s' == s.(guards := s.guards[h := Idle])
  }

  /** The second stat: the lock counts only if the path still leads to the locked file. */
  predicate CompareStep(s: State, s': State, h: Handle)
  {
    var g := At(s, h);
    && g.Locked?
    && var current := g.path in s.files && s.files[g.path] == g.inode;
       s' == s.(guards := s.guards[h := if current then Held(g.path, g.inode, g.mode) else Idle])
  }

  /** An exclusive holder deletes the lock file with the object it protects. */
  predicate UnlinkStep(s: State, s': State, h: Handle)
  {
    var g := At(s, h);
    && g.Held? && g.mode == Exclusive
    && s' == State(s.files - {g.path}, s.guards[h := Removed(g.path, g.inode)])
  }

  predicate ReleaseStep(s: State, s': State, h: Handle)
  {
    (At(s, h).Held? || At(s, h).Removed?) && s' == s.(guards := s.guards[h := Idle])
  }

  ghost predicate HandleStep(s: State, s': State, h: Handle)
  {
    || (exists path, mode, i :: OpenStep(s, s', h, path, mode, i))
    || FlockStep(s, s', h) || TimeoutStep(s, s', h) || CompareStep(s, s', h)
    || UnlinkStep(s, s', h) || ReleaseStep(s, s', h)
  }

  ghost predicate Next(s: State, s': State)
  {
    exists h :: HandleStep(s, s', h)
  }

  /** A run starts with any files, all of them different, and no handle. */
  ghost predicate IsRun(run: seq<State>)
  {
    && run != [] && run[0].guards == map[] && Distinct(run[0])
    && forall i :: 0 <= i < |run| - 1 ==> Next(run[i], run[i + 1])
  }

  // ----- the invariant

  ghost predicate Distinct(s: State)
  {
    forall p, q :: p in s.files && q in s.files && s.files[p] == s.files[q] ==> p == q
  }

  ghost predicate KernelLocks(s: State)
  {
    forall h, k, i :: h != k && Flocks(s, h, i) && Flocks(s, k, i) ==> !FlocksExclusively(s, h, i)
  }

  /** A guard in the caller's hands is for the file that is at the path now. */
  ghost predicate HeldAreCurrent(s: State)
  {
    forall h :: At(s, h).Held? ==> At(s, h).path in s.files && s.files[At(s, h).path] == At(s, h).inode
  }

  ghost predicate Inv(s: State)
  {
    Distinct(s) && KernelLocks(s) && HeldAreCurrent(s)
  }

  lemma OtherGuards(s: State, s': State, h: Handle, g: Guard)
    requires s'.guards == s.guards[h := g]
    ensures At(s', h) == g && forall k :: k != h ==> At(s', k) == At(s, k)
  {
  }

  lemma OpenKeeps(s: State, s': State, h: Handle, path: Path, mode: Mode, i: Inode)
    requires Inv(s) && OpenStep(s, s', h, path, mode, i)
    ensures Inv(s')
  {
    OtherGuards(s, s', h, Opened(path, i, mode));
    assert forall k, j :: Flocks(s', k, j) ==> Flocks(s, k, j);
    assert forall k, j :: FlocksExclusively(s', k, j) ==> FlocksExclusively(s, k, j);
  }

  lemma FlockKeeps(s: State, s': State, h: Handle)
    requires Inv(s) && FlockStep(s, s', h)
    ensures Inv(s')
  {
    var g := At(s, h);
    OtherGuards(s, s', h, Locked(g.path, g.inode, g.mode));
    assert forall k, j :: k != h ==> (Flocks(s', k, j) <==> Flocks(s, k, j));
    assert forall k, j :: k != h ==> (FlocksExclusively(s', k, j) <==> FlocksExclusively(s, k, j));
  }

  lemma LeaveKeeps(s: State, s': State, h: Handle)
    requires Inv(s) && s' == s.(guards := s.guards[h := Idle])
    ensures Inv(s')
  {
    OtherGuards(s, s', h, Idle);
    assert forall k, j :: Flocks(s', k, j) ==> Flocks(s, k, j);
    assert forall k, j :: FlocksExclusively(s', k, j) ==> FlocksExclusively(s, k, j);
  }

  lemma CompareKeeps(s: State, s': State, h: Handle)
    requires Inv(s) && CompareStep(s, s', h)
    ensures Inv(s')
  {
    var g := At(s, h);
    if g.path in s.files && s.files[g.path] == g.inode {
      OtherGuards(s, s', h, Held(g.path, g.inode, g.mode));
      assert forall k, j :: Flocks(s', k, j) <==> Flocks(s, k, j);
      assert forall k, j :: FlocksExclusively(s', k, j) <==> FlocksExclusively(s, k, j);
    } else {
      LeaveKeeps(s, s', h);
    }
  }

  /** Deleting the file leaves no other guard behind: one for the same path would be for the same
      inode, which this handle locks exclusively. */
  lemma UnlinkKeeps(s: State, s': State, h: Handle)
    requires Inv(s) && UnlinkStep(s, s', h)
    ensures Inv(s')
  {
    var g := At(s, h);
    OtherGuards(s, s', h, Removed(g.path, g.inode));
    assert forall k, j :: Flocks(s', k, j) <==> Flocks(s, k, j);
    assert forall k, j :: FlocksExclusively(s', k, j) <==> FlocksExclusively(s, k, j);
    forall k | At(s', k).Held? ensures At(s', k).path in s'.files && s'.files[At(s', k).path] == At(s', k).inode {
      assert k != h && At(s', k) == At(s, k);
      if At(s, k).path == g.path {
        assert Flocks(s, k, g.inode) && FlocksExclusively(s, h, g.inode);
      }
    }
  }

  lemma NextKeeps(s: State, s': State)
    requires Inv(s) && Next(s, s')
    ensures Inv(s')
  {
    hide Inv, OpenStep, FlockStep, CompareStep, UnlinkStep;
    var h :| HandleStep(s, s', h);
    if path, mode, i :| OpenStep(s, s', h, path, mode, i) {
      OpenKeeps(s, s', h, path, mode, i);
    } else if FlockStep(s, s', h) {
      FlockKeeps(s, s', h);
    } else if CompareStep(s, s', h) {
      CompareKeeps(s, s', h);
    } else if UnlinkStep(s, s', h) {
      UnlinkKeeps(s, s', h);
    } else {
      LeaveKeeps(s, s', h);
    }
  }

  lemma {:induction false} RunKeeps(run: seq<State>, i: nat)
    requires IsRun(run) && i < |run|
    ensures Inv(run[i])
    decreases i
  {
    if i > 0 {
      RunKeeps(run, i - 1);
      NextKeeps(run[i - 1], run[i]);
    }
  }

  /** Mutual exclusion over every run: two guards for one path are both shared, and each is for the
      file that is at the path; so no second guard exists beside an exclusive one. */
  lemma MutualExclusion(run: seq<State>, i: nat, h: Handle, k: Handle)
    requires IsRun(run) && i < |run| && h != k
    requires At(run[i], h).Held? && At(run[i], k).Held? && At(run[i], h).path == At(run[i], k).path
    ensures At(run[i], h).mode == Shared && At(run[i], k).mode == Shared
    ensures At(run[i], h).path in run[i].files
    ensures At(run[i], h).inode == At(run[i], k).inode == run[i].files[At(run[i], h).path]
  {
    RunKeeps(run, i);
    var s := run[i];
    assert Flocks(s, h, At(s, h).inode) && Flocks(s, k, At(s, h).inode);
  }

  /** Nobody holds a lock on the file at the path that a lock of this mode would have to wait for. */
  ghost predicate Free(s: State, h: Handle, path: Path, mode: Mode)
  {
    path in s.files ==> forall k :: k != h && Flocks(s, k, s.files[path]) ==>
      mode == Shared && !FlocksExclusively(s, k, s.files[path])
  }

  /** A lock that nobody is in the way of can be had: an idle handle opens the file, which is made if it is not
      there, locks it, finds it still at the path and holds it. Shared locks are not in each other's way. */
  lemma FreeLockIsHeld(s: State, h: Handle, path: Path, mode: Mode, unused: Inode)
      returns (s1: State, s2: State, s3: State)
    requires At(s, h) == Idle && !InUse(s, unused) && Free(s, h, path, mode)
    ensures Next(s, s1) && Next(s1, s2) && Next(s2, s3)
    ensures At(s3, h).Held? && At(s3, h).path == path && At(s3, h).mode == mode
    ensures path in s3.files && s3.files[path] == At(s3, h).inode
    ensures forall k :: k != h ==> At(s3, k) == At(s, k)
    ensures forall p :: p in s.files ==> p in s3.files && s3.files[p] == s.files[p]
  {
    var i := if path in s.files then s.files[path] else unused;
    s1 := State(s.files[path := i], s.guards[h := Opened(path, i, mode)]);
    assert path in s.files ==> s.files[path := i] == s.files;
    assert OpenStep(s, s1, h, path, mode, i);
    OtherGuards(s, s1, h, Opened(path, i, mode));
    forall k | k != h && Flocks(s1, k, i) ensures mode == Shared && !FlocksExclusively(s1, k, i) {
      assert Flocks(s, k, i);
      if path !in s.files { NotFlocked(s, k, unused); }
    }
    s2 := s1.(guards := s1.guards[h := Locked(path, i, mode)]);
    assert FlockStep(s1, s2, h);
    OtherGuards(s1, s2, h, Locked(path, i, mode));
    s3 := s2.(guards := s2.guards[h := Held(path, i, mode)]);
    assert CompareStep(s2, s3, h);
    OtherGuards(s2, s3, h, Held(path, i, mode));
    assert HandleStep(s, s1, h) && HandleStep(s1, s2, h) && HandleStep(s2, s3, h);
  }

  lemma NotFlocked(s: State, k: Handle, i: Inode)
    requires !InUse(s, i)
    ensures !Flocks(s, k, i)
  {
  }

  /** A handle that holds a lock can let go of it, and one that holds it alone can delete the file first. */
  lemma HeldCanLeave(s: State, h: Handle) returns (s': State)
    requires At(s, h).Held? || At(s, h).Removed?
    ensures Next(s, s') && At(s', h) == Idle && s'.files == s.files
  {
    s' := s.(guards := s.guards[h := Idle]);
    assert ReleaseStep(s, s', h) && HandleStep(s, s', h);
  }

  lemma HeldCanUnlink(s: State, h: Handle) returns (s': State)
    requires At(s, h).Held? && At(s, h).mode == Exclusive
    ensures Next(s, s') && At(s', h).Removed? && s'.files == s.files - {At(s, h).path}
  {
    s' := State(s.files - {At(s, h).path}, s.guards[h := Removed(At(s, h).path, At(s, h).inode)]);
    assert UnlinkStep(s, s', h) && HandleStep(s, s', h);
  }

  /** Deleting a lock file that is held exclusively takes the guard of nobody else: whoever holds a
      guard for that path afterwards has opened a new file. */
  lemma RemovedIsGone(run: seq<State>, i: nat, h: Handle, k: Handle)
    requires IsRun(run) && i < |run|
    requires At(run[i], h).Removed? && At(run[i], k).Held? && At(run[i], h).path == At(run[i], k).path
    ensures At(run[i], k).inode != At(run[i], h).inode
  {
    RunKeeps(run, i);
    var s := run[i];
    assert Flocks(s, h, At(s, h).inode) && FlocksExclusively(s, h, At(s, h).inode);
    assert At(s, k).inode == At(s, h).inode ==> Flocks(s, k, At(s, h).inode);
  }
}
