/** Printing an access control tree and parsing the result keeps the meaning: the roles of every id
    on every path. */
module AclRoundTrip {
  import opened Bytes
  import opened AclTree
  import opened AclConfig
  import Split

  // ----- what a node's lines hold

  lemma HoldersClean(env: Env, n: Node, role: Role, flag: bool)
    requires EnvOk(env) && TreeOk(n, env.known)
    ensures CleanNames(env.order(Holders(env, n, role, flag)))
  {
    hide TreeOk;
    var xs := Holders(env, n, role, flag);
    var list := env.order(xs);
    assert Lists(list, xs);
    forall i | 0 <= i < |list| ensures CleanName(list[i]) {
      assert list[i] in xs;
      if a :| a in n.users && env.show(a) == list[i] {
        IdValid(n, env.known, a);
        assert CleanName(env.show(a));
      } else {
        var g :| g in n.groups && list[i] == "@" + g;
        GroupClean(n, env.known, g);
      }
    }
  }

  lemma IdValid(n: Node, known: Known, a: Authid)
    requires TreeOk(n, known) && a in n.users
    ensures known.valid(a)
  {
  }

  lemma GroupClean(n: Node, known: Known, g: string)
    requires TreeOk(n, known) && g in n.groups
    ensures CleanName("@" + g)
  {
  }

  lemma RoleHeld(env: Env, n: Node, role: Role, flag: bool)
    requires EnvOk(env) && TreeOk(n, env.known) && role in RolesWith(env, n, flag)
    ensures role in env.known.roles && CleanName(role)
    ensures env.order(Holders(env, n, role, flag)) != []
  {
    var xs := Holders(env, n, role, flag);
    assert Lists(env.order(xs), xs);
    if a :| a in n.users && !IsRoot(a) && role in n.users[a] && n.users[a][role] == flag {
      assert env.show(a) in xs;
      assert MapOk(n.users[a], env.known);
    } else {
      var g :| g in n.groups && role in n.groups[g] && n.groups[g][role] == flag;
      assert "@" + g in xs;
      assert MapOk(n.groups[g], env.known);
    }
  }

  /** A key splits into the holders of any of its roles. */
  lemma KeySplits(env: Env, n: Node, role: Role, flag: bool)
    requires EnvOk(env) && TreeOk(n, env.known) && role in RolesWith(env, n, flag)
    ensures Split.Split(Key(env, n, role, flag), ',') == env.order(Holders(env, n, role, flag))
  {
    hide EnvOk, TreeOk, Holders, RolesWith, Split.Split;
    HoldersClean(env, n, role, flag);
    RoleHeld(env, n, role, flag);
    JoinClean(env.order(Holders(env, n, role, flag)));
  }

  /** Roles with the same key have the same holders. */
  lemma KeyDeterminesHolders(env: Env, n: Node, r1: Role, r2: Role, flag: bool)
    requires EnvOk(env) && TreeOk(n, env.known) && r1 in RolesWith(env, n, flag) && r2 in RolesWith(env, n, flag)
    requires Key(env, n, r1, flag) == Key(env, n, r2, flag)
    ensures forall x :: x in Holders(env, n, r1, flag) <==> x in Holders(env, n, r2, flag)
  {
    hide TreeOk, Holders, RolesWith, Key, Split.Split;
    KeySplits(env, n, r1, flag);
    KeySplits(env, n, r2, flag);
    assert Lists(env.order(Holders(env, n, r1, flag)), Holders(env, n, r1, flag));
    assert Lists(env.order(Holders(env, n, r2, flag)), Holders(env, n, r2, flag));
  }

  /** Since `NoAccess` is alone in its maps, no other role shares a line with it. */
  lemma NoAccessLine(env: Env, n: Node, flag: bool, role: Role)
    requires EnvOk(env) && TreeOk(n, env.known)
    requires NO_ACCESS in RolesWith(env, n, flag) && role in RolesWith(env, n, flag)
    requires Key(env, n, NO_ACCESS, flag) == Key(env, n, role, flag)
    ensures role == NO_ACCESS
  {
    hide Key;
    KeyDeterminesHolders(env, n, NO_ACCESS, role, flag);
    if a :| a in n.users && !IsRoot(a) && NO_ACCESS in n.users[a] && n.users[a][NO_ACCESS] == flag {
      assert env.show(a) in Holders(env, n, NO_ACCESS, flag);
      ShownIsRead(env, n, a);
      HolderIsUser(env, n, role, flag, env.show(a), a);
      assert MapOk(n.users[a], env.known);
    } else {
      var g :| g in n.groups && NO_ACCESS in n.groups[g] && n.groups[g][NO_ACCESS] == flag;
      assert "@" + g in Holders(env, n, NO_ACCESS, flag);
      HolderIsGroup(env, n, role, flag, g);
      assert MapOk(n.groups[g], env.known);
    }
  }

  /** The text is read as this id or as this group. */
  predicate ReadAs(env: Env, who: string, to: Subject)
  {
    match to
    case User(a) => who != "" && who[0] != '@' && env.parse(who) == Some(a)
    case Group(g) => who == "@" + g
  }

  predicate IsSuper(to: Subject)
  {
    to == User(Authid("root@pam", None))
  }

  /** An id of the tree is read as itself and never like a group. */
  lemma ShownIsRead(env: Env, n: Node, a: Authid)
    requires EnvOk(env) && TreeOk(n, env.known) && a in n.users
    ensures ReadAs(env, env.show(a), User(a)) && forall g :: env.show(a) != "@" + g
  {
    hide TreeOk;
    IdValid(n, env.known, a);
    forall g ensures env.show(a) != "@" + g {
      assert ("@" + g)[0] == '@';
    }
  }

  lemma HolderIsUser(env: Env, n: Node, role: Role, flag: bool, who: string, a: Authid)
    requires EnvOk(env) && TreeOk(n, env.known) && ReadAs(env, who, User(a)) && who in Holders(env, n, role, flag)
    ensures a in n.users && !IsRoot(a) && role in n.users[a] && n.users[a][role] == flag && who == env.show(a)
  {
    hide EnvOk, TreeOk;
    forall g ensures who != "@" + g {
      assert ("@" + g)[0] == '@';
    }
    var b :| b in n.users && !IsRoot(b) && role in n.users[b] && n.users[b][role] == flag && env.show(b) == who;
    ShownIsRead(env, n, b);
  }

  lemma HolderIsGroup(env: Env, n: Node, role: Role, flag: bool, g: string)
    requires EnvOk(env) && TreeOk(n, env.known) && "@" + g in Holders(env, n, role, flag)
    ensures g in n.groups && role in n.groups[g] && n.groups[g][role] == flag
  {
    hide EnvOk, TreeOk;
    forall b | b in n.users ensures env.show(b) != "@" + g { ShownIsRead(env, n, b); }
    var h :| h in n.groups && role in n.groups[h] && n.groups[h][role] == flag && "@" + h == "@" + g;
    assert ("@" + h)[1..] == h && ("@" + g)[1..] == g;
  }

  /** The role list of a key, as a list: exactly the key's roles. */
  lemma RoleListSplits(env: Env, n: Node, flag: bool, key: string) returns (list: seq<Role>)
    requires EnvOk(env) && TreeOk(n, env.known) && key in Keys(env, n, flag)
    ensures list != [] && CleanNames(list) && RoleList(env, RolesOfKey(env, n, flag, key)) == Split.Join(list, ',')
    ensures Split.Split(RoleList(env, RolesOfKey(env, n, flag, key)), ',') == list
    ensures forall r :: r in list <==> r in RolesOfKey(env, n, flag, key)
  {
    hide TreeOk, Key, RolesWith, Split.Split;
    var roles := RolesOfKey(env, n, flag, key);
    var r0 :| r0 in RolesWith(env, n, flag) && Key(env, n, r0, flag) == key;
    assert r0 in roles;
    if NO_ACCESS in roles {
      forall r | r in roles ensures r == NO_ACCESS { NoAccessLine(env, n, flag, r); }
      list := [NO_ACCESS];
    } else {
      list := env.order(roles);
      assert Lists(list, roles);
    }
    forall i | 0 <= i < |list| ensures CleanName(list[i]) {
      assert list[i] in roles;
      RoleHeld(env, n, list[i], flag);
    }
    JoinClean(list);
  }

  // ----- the text parses as the insertions

  /** A line that is neither empty nor changed by trimming. */
  predicate Tidy(line: string)
  {
    line != "" && '\n' !in line && Trim(line) == line
  }

  lemma {:induction false} ParseLinesAppend(env: Env, root: Node, a: seq<string>, b: seq<string>)
    ensures ParseLines(env, root, a + b)
            == if ParseLines(env, root, a).Err? then ParseLines(env, root, a)
               else ParseLines(env, ParseLines(env, root, a).value, b)
    decreases |a|
  {
    hide ParseAclLine, Trim;
    if a == [] {
      assert a + b == b;
    } else {
      assert (a + b)[1..] == a[1..] + b;
      if Trim(a[0]) == "" {
        ParseLinesAppend(env, root, a[1..], b);
      } else {
        var r := ParseAclLine(env, root, Trim(a[0]));
        if r.Ok? { ParseLinesAppend(env, r.value, a[1..], b); }
      }
    }
  }

  /** Lines that parse, from any tree, as the insertions they stand for. */
  ghost predicate Speaks(env: Env, lines: seq<string>, ins: seq<Insertion>)
  {
    && (forall i :: 0 <= i < |lines| ==> Tidy(lines[i]))
    && (forall root :: ParseLines(env, root, lines) == Perform(env, root, ins))
  }

  lemma SpeaksNothing(env: Env)
    ensures Speaks(env, [], [])
  {
  }

  lemma SpeaksAppend(env: Env, l1: seq<string>, i1: seq<Insertion>, l2: seq<string>, i2: seq<Insertion>)
    requires Speaks(env, l1, i1) && Speaks(env, l2, i2)
    ensures Speaks(env, l1 + l2, i1 + i2)
  {
    hide ParseLines, Perform, Tidy;
    forall root ensures ParseLines(env, root, l1 + l2) == Perform(env, root, i1 + i2) {
      ParseLinesAppend(env, root, l1, l2);
      PerformAppend(env, root, i1, i2);
      assert ParseLines(env, root, l1) == Perform(env, root, i1);
    }
  }

  lemma SpeaksLine(env: Env, comps: seq<string>, flag: bool, whos: seq<string>, roles: seq<Role>)
    requires CleanPath(comps) && whos != [] && roles != [] && CleanNames(whos) && CleanNames(roles)
    ensures Speaks(env, [Render(flag, PathText(comps), Split.Join(whos, ','), Split.Join(roles, ','))],
                   ForHolders(comps, whos, roles, flag))
  {
    hide Render, PathText, ForHolders, Perform, ParseAclLine, Trim, CleanPath, CleanNames;
    var line := Render(flag, PathText(comps), Split.Join(whos, ','), Split.Join(roles, ','));
    RenderParses(env, EMPTY, comps, flag, whos, roles);
    forall root ensures ParseLines(env, root, [line]) == Perform(env, root, ForHolders(comps, whos, roles, flag)) {
      RenderParses(env, root, comps, flag, whos, roles);
      OneLine(env, root, line);
    }
  }

  lemma OneLine(env: Env, root: Node, line: string)
    requires Tidy(line)
    ensures ParseLines(env, root, [line]) == ParseAclLine(env, root, line)
  {
    hide ParseAclLine, Trim;
    assert [line][1..] == [];
    var r := ParseAclLine(env, root, line);
    if r.Ok? { assert ParseLines(env, r.value, []) == Ok(r.value); }
  }

  lemma {:induction false} KeyLinesSpeak(env: Env, n: Node, comps: seq<string>, flag: bool, keys: seq<string>)
    requires EnvOk(env) && TreeOk(n, env.known) && CleanPath(comps)
    requires forall i :: 0 <= i < |keys| ==> keys[i] in Keys(env, n, flag)
    ensures Speaks(env, KeyLines(env, n, PathText(comps), flag, keys), KeyInsertions(env, n, comps, flag, keys))
    decreases |keys|
  {
    hide EnvOk, TreeOk, RolesOfKey, RoleList, Render, ForHolders, Speaks, Split.Split, Key, RolesWith, Holders,
      CleanPath, PathText;
    if keys == [] {
      SpeaksNothing(env);
    } else {
      var key := keys[0];
      var role :| role in RolesWith(env, n, flag) && key == Key(env, n, role, flag);
      var whos := env.order(Holders(env, n, role, flag));
      HoldersClean(env, n, role, flag);
      RoleHeld(env, n, role, flag);
      KeySplits(env, n, role, flag);
      KeyIsJoin(env, n, role, flag);
      var roles := RoleListSplits(env, n, flag, key);
      SpeaksLine(env, comps, flag, whos, roles);
      KeyLinesSpeak(env, n, comps, flag, keys[1..]);
      SpeaksAppend(env, [Render(flag, PathText(comps), key, RoleList(env, RolesOfKey(env, n, flag, key)))],
                   ForHolders(comps, whos, roles, flag),
                   KeyLines(env, n, PathText(comps), flag, keys[1..]), KeyInsertions(env, n, comps, flag, keys[1..]));
    }
  }

  lemma KeyIsJoin(env: Env, n: Node, role: Role, flag: bool)
    ensures Key(env, n, role, flag) == Split.Join(env.order(Holders(env, n, role, flag)), ',')
  {
  }

  lemma AllListed(env: Env, xs: set<string>)
    requires EnvOk(env)
    ensures forall i :: 0 <= i < |env.order(xs)| ==> env.order(xs)[i] in xs
    ensures forall x :: x in xs ==> x in env.order(xs)
    ensures forall i, j :: 0 <= i < j < |env.order(xs)| ==> env.order(xs)[i] != env.order(xs)[j]
  {
    assert Lists(env.order(xs), xs);
  }

  lemma OwnLinesSpeak(env: Env, n: Node, comps: seq<string>)
    requires EnvOk(env) && TreeOk(n, env.known) && CleanPath(comps)
    ensures Speaks(env, OwnLines(env, n, PathText(comps)), OwnInsertions(env, n, comps))
  {
    hide EnvOk, TreeOk, KeyLines, KeyInsertions, Speaks, Keys, CleanPath, PathText;
    var k0, k1 := env.order(Keys(env, n, false)), env.order(Keys(env, n, true));
    AllListed(env, Keys(env, n, false));
    AllListed(env, Keys(env, n, true));
    KeyLinesSpeak(env, n, comps, false, k0);
    KeyLinesSpeak(env, n, comps, true, k1);
    SpeaksAppend(env, KeyLines(env, n, PathText(comps), false, k0), KeyInsertions(env, n, comps, false, k0),
                 KeyLines(env, n, PathText(comps), true, k1), KeyInsertions(env, n, comps, true, k1));
  }

  lemma {:induction false} LinesSpeak(env: Env, n: Node, comps: seq<string>)
    requires EnvOk(env) && TreeOk(n, env.known) && CleanPath(comps)
    ensures Speaks(env, Lines(env, n, PathText(comps)), Insertions(env, n, comps))
    decreases n, 1, 0
  {
    hide EnvOk, TreeOk, OwnLines, OwnInsertions, ChildLines, ChildInsertions, Speaks, CleanPath, PathText;
    var names := env.order(n.children.Keys);
    OwnLinesSpeak(env, n, comps);
    ChildLinesSpeak(env, n, comps, names);
    SpeaksAppend(env, OwnLines(env, n, PathText(comps)), OwnInsertions(env, n, comps),
                 ChildLines(env, n, PathText(comps), names), ChildInsertions(env, n, comps, names));
  }

  lemma {:induction false} ChildLinesSpeak(env: Env, n: Node, comps: seq<string>, names: seq<string>)
    requires EnvOk(env) && TreeOk(n, env.known) && CleanPath(comps)
    ensures Speaks(env, ChildLines(env, n, PathText(comps), names), ChildInsertions(env, n, comps, names))
    decreases n, 0, |names|
  {
    hide EnvOk, Lines, Insertions, Speaks, CleanComponent, MapOk, CleanName, PathText;
    if names == [] {
      SpeaksNothing(env);
    } else {
      ChildLinesSpeak(env, n, comps, names[1..]);
      var rest, more := ChildLines(env, n, PathText(comps), names[1..]), ChildInsertions(env, n, comps, names[1..]);
      if names[0] in n.children {
        var below := comps + [names[0]];
        PathTextSnoc(comps, names[0]);
        LinesSpeak(env, n.children[names[0]], below);
        SpeaksAppend(env, Lines(env, n.children[names[0]], PathText(below)),
                     Insertions(env, n.children[names[0]], below), rest, more);
      } else {
        SpeaksNothing(env);
        SpeaksAppend(env, [], [], rest, more);
      }
    }
  }

  lemma PathTextSnoc(comps: seq<string>, c: string)
    ensures PathText(comps + [c]) == PathText(comps) + "/" + c
  {
    assert (comps + [c])[..|comps|] == comps;
  }

  lemma {:induction false} TerminatedIsJoin(lines: seq<string>)
    ensures Terminated(lines) == Split.Join(lines + [""], '\n')
    decreases |lines|
  {
    if lines == [] {
      assert lines + [""] == [""];
    } else {
      assert (lines + [""])[1..] == lines[1..] + [""];
      TerminatedIsJoin(lines[1..]);
    }
  }

  /** Parsing what was printed performs the insertions, one after the other. */
  lemma ConfigSpeaks(env: Env, root: Node)
    requires EnvOk(env) && TreeOk(root, env.known)
    ensures ParseConfig(env, WriteConfig(env, root)) == Perform(env, EMPTY, Insertions(env, root, []))
  {
    hide EnvOk, TreeOk, Lines, Insertions, Perform, ParseLines, Split.Split, Terminated, Trim;
    var lines := Lines(env, root, "");
    assert PathText([]) == "";
    LinesSpeak(env, root, []);
    TerminatedIsJoin(lines);
    assert forall i :: 0 <= i < |lines| ==> Tidy(lines[i]);
    Split.SplitJoin(lines + [""], '\n');
    ParseLinesAppend(env, EMPTY, lines, [""]);
    assert ParseLines(env, EMPTY, lines) == Perform(env, EMPTY, Insertions(env, root, []));
    var r := ParseLines(env, EMPTY, lines);
    if r.Ok? { BlankLine(env, r.value); }
  }

  lemma BlankLine(env: Env, root: Node)
    ensures ParseLines(env, root, [""]) == Ok(root)
  {
    assert Trim("") == "";
    assert [""][1..] == [];
  }

  // ----- what the insertions do to one id on one path

  /** The roles that a list of insertions puts into one map. */
  function PutsFor(env: Env, ins: seq<Insertion>, q: seq<string>, to: Subject): seq<(Role, bool)>
  {
    if ins == [] then []
    else (if ins[0].comps == q && ReadAs(env, ins[0].who, to) then [(ins[0].role, ins[0].flag)] else [])
         + PutsFor(env, ins[1..], q, to)
  }

  function PutAll(m: RoleMap, puts: seq<(Role, bool)>): RoleMap
    decreases |puts|
  {
    if puts == [] then m else PutAll(Put(m, puts[0].0, puts[0].1), puts[1..])
  }

  /** An insertion that names a known role and an id or a group. */
  ghost predicate Proper(env: Env, i: Insertion)
  {
    && i.role in env.known.roles
    && ((i.who != "" && i.who[0] == '@') || exists a :: env.known.valid(a) && i.who == env.show(a))
  }

  lemma ProperPerforms(env: Env, root: Node, i: Insertion, q: seq<string>, to: Subject)
    requires EnvOk(env) && Proper(env, i)
    ensures var r := ParsePair(env, root, i.comps, i.who, i.role, i.flag);
            r.Ok? && RolesAt(r.value, q, to) == PutAll(RolesAt(root, q, to), PutsFor(env, [i], q, to))
  {
    hide RolesAt, Put, InsertUserRole, InsertGroupRole, PutAll, PutsFor;
    OnePut(env, i, q, to, RolesAt(root, q, to));
    if to.Group? { assert ("@" + to.g)[0] == '@' && ("@" + to.g)[1..] == to.g; }
    if i.who != "" && i.who[0] == '@' {
      assert i.who == "@" + i.who[1..];
      InsertGroupAt(root, i.comps, i.who[1..], i.role, i.flag, q, to);
    } else {
      var b :| env.known.valid(b) && i.who == env.show(b);
      assert CleanName(env.show(b)) && env.parse(env.show(b)) == Some(b);
      InsertUserAt(root, i.comps, b, i.role, i.flag, q, to);
    }
  }

  lemma OnePut(env: Env, i: Insertion, q: seq<string>, to: Subject, m: RoleMap)
    ensures PutAll(m, PutsFor(env, [i], q, to))
            == if i.comps == q && ReadAs(env, i.who, to) then Put(m, i.role, i.flag) else m
  {
    hide Put;
    assert [i][1..] == [];
    assert PutsFor(env, [], q, to) == [];
    assert [(i.role, i.flag)] + [] == [(i.role, i.flag)];
    assert [(i.role, i.flag)][1..] == [];
  }

  lemma {:induction false} PutAllAppend(m: RoleMap, p: seq<(Role, bool)>, q: seq<(Role, bool)>)
    ensures PutAll(m, p + q) == PutAll(PutAll(m, p), q)
    decreases |p|
  {
    hide Put;
    if p == [] {
      assert p + q == q;
    } else {
      assert (p + q)[1..] == p[1..] + q;
      PutAllAppend(Put(m, p[0].0, p[0].1), p[1..], q);
    }
  }

  lemma {:induction false} PutsAppend(env: Env, x: seq<Insertion>, y: seq<Insertion>, q: seq<string>, to: Subject)
    ensures PutsFor(env, x + y, q, to) == PutsFor(env, x, q, to) + PutsFor(env, y, q, to)
    decreases |x|
  {
    if x == [] {
      assert x + y == y;
    } else {
      assert (x + y)[1..] == x[1..] + y;
      PutsAppend(env, x[1..], y, q, to);
    }
  }

  ghost predicate AllProper(env: Env, ins: seq<Insertion>)
  {
    forall i :: 0 <= i < |ins| ==> Proper(env, ins[i])
  }

  lemma {:induction false} PerformAt(env: Env, root: Node, ins: seq<Insertion>, q: seq<string>, to: Subject)
    requires EnvOk(env) && AllProper(env, ins)
    ensures var r := Perform(env, root, ins);
            r.Ok? && RolesAt(r.value, q, to) == PutAll(RolesAt(root, q, to), PutsFor(env, ins, q, to))
    decreases |ins|
  {
    hide EnvOk, ParsePair, RolesAt, PutAll, Proper;
    if ins == [] {
      NoPuts(RolesAt(root, q, to));
    } else {
      ProperPerforms(env, root, ins[0], q, to);
      var root' := ParsePair(env, root, ins[0].comps, ins[0].who, ins[0].role, ins[0].flag).value;
      PerformAt(env, root', ins[1..], q, to);
      PutsAppend(env, [ins[0]], ins[1..], q, to);
      assert [ins[0]] + ins[1..] == ins;
      PutAllAppend(RolesAt(root, q, to), PutsFor(env, [ins[0]], q, to), PutsFor(env, ins[1..], q, to));
    }
  }

  lemma NoPuts(m: RoleMap)
    ensures PutAll(m, []) == m
  {
  }

  // ----- which insertions a tree makes for one id on one path

  /** Membership in the insertions of one line. */
  lemma {:induction false} ForRolesHas(comps: seq<string>, who: string, roles: seq<Role>, flag: bool, x: Insertion)
    ensures x in ForRoles(comps, who, roles, flag)
            <==> x.comps == comps && x.who == who && x.flag == flag && x.role in roles
    decreases |roles|
  {
    if roles != [] {
      ForRolesHas(comps, who, roles[1..], flag, x);
      assert roles == [roles[0]] + roles[1..];
    }
  }

  lemma {:induction false} ForHoldersHas(comps: seq<string>, whos: seq<string>, roles: seq<Role>, flag: bool,
      x: Insertion)
    ensures x in ForHolders(comps, whos, roles, flag)
            <==> x.comps == comps && x.who in whos && x.flag == flag && x.role in roles
    decreases |whos|
  {
    hide ForRoles;
    if whos != [] {
      ForRolesHas(comps, whos[0], roles, flag, x);
      ForHoldersHas(comps, whos[1..], roles, flag, x);
      assert whos == [whos[0]] + whos[1..];
    }
  }

  /** One key makes an insertion for each of its roles and each of their holders. */
  lemma KeyHas(env: Env, n: Node, comps: seq<string>, flag: bool, key: string, x: Insertion)
    requires EnvOk(env) && TreeOk(n, env.known) && key in Keys(env, n, flag)
    ensures x in ForHolders(comps, Split.Split(key, ','),
                            Split.Split(RoleList(env, RolesOfKey(env, n, flag, key)), ','), flag)
            <==> x.comps == comps && x.flag == flag && x.role in RolesOfKey(env, n, flag, key)
                 && x.who in Holders(env, n, x.role, flag)
  {
    hide TreeOk, ForHolders, RoleList, Split.Split, Key, RolesWith, Holders;
    var r0 :| r0 in RolesWith(env, n, flag) && key == Key(env, n, r0, flag);
    KeySplits(env, n, r0, flag);
    var roles := RoleListSplits(env, n, flag, key);
    ForHoldersHas(comps, Split.Split(key, ','), roles, flag, x);
    assert Lists(env.order(Holders(env, n, r0, flag)), Holders(env, n, r0, flag));
    if x.role in RolesOfKey(env, n, flag, key) {
      KeyDeterminesHolders(env, n, r0, x.role, flag);
    }
  }

  lemma {:induction false} KeysHave(env: Env, n: Node, comps: seq<string>, flag: bool, keys: seq<string>, x: Insertion)
    requires EnvOk(env) && TreeOk(n, env.known)
    requires forall i :: 0 <= i < |keys| ==> keys[i] in Keys(env, n, flag)
    ensures x in KeyInsertions(env, n, comps, flag, keys)
            <==> x.comps == comps && x.flag == flag && x.role in RolesWith(env, n, flag)
                 && Key(env, n, x.role, flag) in keys
                 && x.who in Holders(env, n, x.role, flag)
    decreases |keys|
  {
    hide EnvOk, TreeOk, ForHolders, RoleList, Split.Split, Key, RolesWith, Holders;
    if keys != [] {
      KeyHas(env, n, comps, flag, keys[0], x);
      KeysHave(env, n, comps, flag, keys[1..], x);
      assert keys == [keys[0]] + keys[1..];
    }
  }

  /** A node's own insertions are those of its role maps, the superuser's left out. */
  lemma OwnHave(env: Env, n: Node, comps: seq<string>, x: Insertion)
    requires EnvOk(env) && TreeOk(n, env.known)
    ensures x in OwnInsertions(env, n, comps)
            <==> x.comps == comps && x.role in RolesWith(env, n, x.flag) && x.who in Holders(env, n, x.role, x.flag)
  {
    hide EnvOk, TreeOk, KeyInsertions, Key, RolesWith, Holders;
    AllListed(env, Keys(env, n, false));
    AllListed(env, Keys(env, n, true));
    KeysHave(env, n, comps, false, env.order(Keys(env, n, false)), x);
    KeysHave(env, n, comps, true, env.order(Keys(env, n, true)), x);
    assert x.role in RolesWith(env, n, x.flag) ==> Key(env, n, x.role, x.flag) in Keys(env, n, x.flag);
  }

  lemma {:induction false} PutsHave(env: Env, ins: seq<Insertion>, q: seq<string>, to: Subject, r: Role, f: bool)
    ensures (r, f) in PutsFor(env, ins, q, to) <==> exists who :: ReadAs(env, who, to) && Insertion(q, who, r, f) in ins
    decreases |ins|
  {
    hide ReadAs;
    if ins != [] {
      PutsHave(env, ins[1..], q, to, r, f);
      assert ins == [ins[0]] + ins[1..];
    }
  }

  lemma OwnPuts(env: Env, n: Node, comps: seq<string>, to: Subject, r: Role, f: bool)
    requires EnvOk(env) && TreeOk(n, env.known)
    ensures (r, f) in PutsFor(env, OwnInsertions(env, n, comps), comps, to)
            <==> !IsSuper(to) && r in SubjectRoles(n, to) && SubjectRoles(n, to)[r] == f
  {
    hide TreeOk, OwnInsertions, Holders, RolesWith;
    PutsHave(env, OwnInsertions(env, n, comps), comps, to, r, f);
    if !IsSuper(to) && r in SubjectRoles(n, to) && SubjectRoles(n, to)[r] == f {
      OwnHave(env, n, comps, Insertion(comps, TextOf(env, to), r, f));
      SubjectHasRole(env, n, to, r, f);
    }
    forall who | ReadAs(env, who, to) && Insertion(comps, who, r, f) in OwnInsertions(env, n, comps)
      ensures !IsSuper(to) && r in SubjectRoles(n, to) && SubjectRoles(n, to)[r] == f
    {
      OwnHave(env, n, comps, Insertion(comps, who, r, f));
      match to
      case User(a) => HolderIsUser(env, n, r, f, who, a);
      case Group(g) => HolderIsGroup(env, n, r, f, g);
    }
  }

  function TextOf(env: Env, to: Subject): string
  {
    match to case User(a) => env.show(a) case Group(g) => "@" + g
  }

  lemma SubjectHasRole(env: Env, n: Node, to: Subject, r: Role, f: bool)
    requires EnvOk(env) && TreeOk(n, env.known) && !IsSuper(to) && r in SubjectRoles(n, to)
             && SubjectRoles(n, to)[r] == f
    ensures r in RolesWith(env, n, f) && TextOf(env, to) in Holders(env, n, r, f) && ReadAs(env, TextOf(env, to), to)
  {
    hide EnvOk, TreeOk;
    if to.User? { ShownIsRead(env, n, to.a); }
  }

  /** Every insertion of a subtree is proper and for a path at or below the subtree's root. */
  ghost predicate Below(env: Env, ins: seq<Insertion>, comps: seq<string>)
  {
    forall x :: x in ins ==> Proper(env, x) && comps <= x.comps
  }

  lemma OwnBelow(env: Env, n: Node, comps: seq<string>)
    requires EnvOk(env) && TreeOk(n, env.known)
    ensures Below(env, OwnInsertions(env, n, comps), comps)
    ensures forall x :: x in OwnInsertions(env, n, comps) ==> x.comps == comps
  {
    hide TreeOk, OwnInsertions, RolesWith;
    forall x | x in OwnInsertions(env, n, comps) ensures Proper(env, x) && x.comps == comps {
      OwnHave(env, n, comps, x);
      RoleHeld(env, n, x.role, x.flag);
      assert x.who in Holders(env, n, x.role, x.flag);
      if g :| g in n.groups && x.who == "@" + g {
        assert x.who[0] == '@';
      } else {
        var a :| a in n.users && x.who == env.show(a);
        IdValid(n, env.known, a);
      }
    }
  }

  lemma {:induction false} TreeBelow(env: Env, n: Node, comps: seq<string>)
    requires EnvOk(env) && TreeOk(n, env.known)
    ensures Below(env, Insertions(env, n, comps), comps)
    decreases n, 1, 0
  {
    hide EnvOk, TreeOk, OwnInsertions, ChildInsertions, Proper;
    OwnBelow(env, n, comps);
    ChildrenBelow(env, n, comps, env.order(n.children.Keys));
  }

  lemma {:induction false} ChildrenBelow(env: Env, n: Node, comps: seq<string>, names: seq<string>)
    requires EnvOk(env) && TreeOk(n, env.known)
    ensures Below(env, ChildInsertions(env, n, comps, names), comps)
    decreases n, 0, |names|
  {
    hide EnvOk, Insertions, Proper, MapOk, CleanName, CleanComponent;
    if names != [] {
      ChildrenBelow(env, n, comps, names[1..]);
      if names[0] in n.children {
        var ins := Insertions(env, n.children[names[0]], comps + [names[0]]);
        TreeBelow(env, n.children[names[0]], comps + [names[0]]);
        assert comps <= comps + [names[0]];
        forall x | x in ins ensures Proper(env, x) && comps <= x.comps {
          assert comps + [names[0]] <= x.comps;
        }
      }
    }
  }

  lemma {:induction false} NoneElsewhere(env: Env, ins: seq<Insertion>, q: seq<string>, to: Subject)
    requires forall x :: x in ins ==> x.comps != q
    ensures PutsFor(env, ins, q, to) == []
    decreases |ins|
  {
    if ins != [] {
      assert ins[0] in ins;
      NoneElsewhere(env, ins[1..], q, to);
    }
  }

  /** Among the children, only the one on the way to the path makes insertions for it. */
  lemma {:induction false} ChildPuts(env: Env, n: Node, base: seq<string>, names: seq<string>, q: seq<string>,
      to: Subject)
    requires EnvOk(env) && TreeOk(n, env.known)
    requires forall i, j :: 0 <= i < j < |names| ==> names[i] != names[j]
    ensures PutsFor(env, ChildInsertions(env, n, base, names), base + q, to)
            == if q != [] && q[0] in names && q[0] in n.children
               then PutsFor(env, Insertions(env, n.children[q[0]], base + [q[0]]), base + q, to) else []
    decreases |names|
  {
    hide EnvOk, TreeOk, Insertions, Proper, PutsFor, Below;
    if names == [] {
      NoInsertions(env, base + q, to);
    } else {
      ChildPuts(env, n, base, names[1..], q, to);
      assert names == [names[0]] + names[1..];
      var rest := ChildInsertions(env, n, base, names[1..]);
      if names[0] in n.children {
        var below := base + [names[0]];
        var ins := Insertions(env, n.children[names[0]], below);
        PutsAppend(env, ins, rest, base + q, to);
        if q == [] || q[0] != names[0] {
          ChildOk(n, env.known, names[0]);
          TreeBelow(env, n.children[names[0]], below);
          NotThere(env, ins, base, names[0], q);
          NoneElsewhere(env, ins, base + q, to);
        }
      } else {
        assert [] + rest == rest;
      }
    }
  }

  lemma NoInsertions(env: Env, q: seq<string>, to: Subject)
    ensures PutsFor(env, [], q, to) == []
  {
  }

  lemma ChildOk(n: Node, known: Known, c: string)
    requires TreeOk(n, known) && c in n.children
    ensures TreeOk(n.children[c], known)
  {
  }

  lemma NotThere(env: Env, ins: seq<Insertion>, base: seq<string>, name: string, q: seq<string>)
    requires Below(env, ins, base + [name]) && (q == [] || q[0] != name)
    ensures forall x :: x in ins ==> x.comps != base + q
  {
    hide Proper;
    var below := base + [name];
    forall x | x in ins ensures x.comps != base + q {
      assert below <= x.comps && below[|base|] == name;
    }
  }

  /** For one id on one path a tree makes just the insertions of the node there. */
  lemma {:induction false} TreePuts(env: Env, n: Node, base: seq<string>, q: seq<string>, to: Subject)
    requires EnvOk(env) && TreeOk(n, env.known)
    ensures PutsFor(env, Insertions(env, n, base), base + q, to)
            == match NodeAt(n, q)
               case None => []
               case Some(m) => PutsFor(env, OwnInsertions(env, m, base + q), base + q, to)
    decreases |q|
  {
    hide EnvOk, OwnInsertions, ChildInsertions, Proper, MapOk, CleanName, CleanComponent, PutsFor;
    var names := env.order(n.children.Keys);
    AllListed(env, n.children.Keys);
    PutsAppend(env, OwnInsertions(env, n, base), ChildInsertions(env, n, base, names), base + q, to);
    ChildPuts(env, n, base, names, q, to);
    if q == [] {
      assert base + [] == base;
    } else {
      OwnBelow(env, n, base);
      NoneElsewhere(env, OwnInsertions(env, n, base), base + q, to);
      if q[0] in n.children {
        assert base + q == base + [q[0]] + q[1..];
        TreePuts(env, n.children[q[0]], base + [q[0]], q[1..], to);
      }
    }
  }

  // ----- putting the roles of a map gives the map

  /** If `NoAccess` is alone, then putting roles of a map, in any order and any number of times, gives
      the part of the map that was put. */
  lemma {:induction false} PutAllGives(m: RoleMap, puts: seq<(Role, bool)>, start: RoleMap)
    requires NoAccessAlone(m)
    requires forall i :: 0 <= i < |puts| ==> puts[i].0 in m && m[puts[i].0] == puts[i].1
    requires forall r :: r in start ==> r in m && start[r] == m[r]
    ensures var r := PutAll(start, puts);
            && (forall x :: x in r ==> x in m && r[x] == m[x])
            && (forall x :: x in start ==> x in r)
            && (forall i :: 0 <= i < |puts| ==> puts[i].0 in r)
    decreases |puts|
  {
    if puts != [] {
      var next := Put(start, puts[0].0, puts[0].1);
      assert forall x :: x in start ==> x in next;
      PutAllGives(m, puts[1..], next);
      assert puts == [puts[0]] + puts[1..];
    }
  }

  lemma PutAllIsMap(m: RoleMap, puts: seq<(Role, bool)>)
    requires NoAccessAlone(m)
    requires forall i :: 0 <= i < |puts| ==> puts[i].0 in m && m[puts[i].0] == puts[i].1
    requires forall r :: r in m ==> (r, m[r]) in puts
    ensures PutAll(map[], puts) == m
  {
    hide PutAll, NoAccessAlone;
    PutAllGives(m, puts, map[]);
    var r := PutAll(map[], puts);
    forall x | x in m ensures x in r {
      var i :| 0 <= i < |puts| && puts[i] == (x, m[x]);
    }
    assert r.Keys == m.Keys;
  }

  lemma {:induction false} NodeOk(n: Node, q: seq<string>, known: Known)
    requires TreeOk(n, known)
    ensures NodeAt(n, q).Some? ==> TreeOk(NodeAt(n, q).value, known)
    decreases |q|
  {
    hide MapOk, CleanName, CleanComponent;
    if q != [] && q[0] in n.children { NodeOk(n.children[q[0]], q[1..], known); }
  }

  lemma SubjectMapOk(n: Node, to: Subject, known: Known)
    requires TreeOk(n, known)
    ensures NoAccessAlone(SubjectRoles(n, to))
  {
    match to
    case User(a) => if a in n.users { assert MapOk(n.users[a], known); }
    case Group(g) => if g in n.groups { assert MapOk(n.groups[g], known); }
  }

  lemma NoneAlone()
    ensures NoAccessAlone(map[])
  {
  }

  /** After printing and parsing, every id but the superuser, and every group, has the same role map on every
      path; the superuser, who needs none, has none. */
  lemma MapsSurvive(env: Env, root: Node, q: seq<string>, to: Subject)
    requires EnvOk(env) && TreeOk(root, env.known)
    ensures var r := ParseConfig(env, WriteConfig(env, root));
            r.Ok? && RolesAt(r.value, q, to) == if IsSuper(to) then map[] else RolesAt(root, q, to)
  {
    hide EnvOk, TreeOk, ParseConfig, WriteConfig, Perform, Insertions, OwnInsertions, NodeAt, PutAll, PutsFor, Proper,
      NoAccessAlone;
    var ins := Insertions(env, root, []);
    ConfigSpeaks(env, root);
    TreeBelow(env, root, []);
    forall i | 0 <= i < |ins| ensures Proper(env, ins[i]) { assert ins[i] in ins; }
    PerformAt(env, EMPTY, ins, q, to);
    NothingAt(q, to);
    TreePuts(env, root, [], q, to);
    assert [] + q == q;
    NodeOk(root, q, env.known);
    match NodeAt(root, q)
    case None => NoPuts(map[]);
    case Some(m) =>
      var puts := PutsFor(env, OwnInsertions(env, m, q), q, to);
      var roles: RoleMap := if IsSuper(to) then map[] else SubjectRoles(m, to);
      forall i | 0 <= i < |puts| ensures puts[i].0 in roles && roles[puts[i].0] == puts[i].1 {
        OwnPuts(env, m, q, to, puts[i].0, puts[i].1);
        assert puts[i] == (puts[i].0, puts[i].1);
      }
      forall r | r in roles ensures (r, roles[r]) in puts { OwnPuts(env, m, q, to, r, roles[r]); }
      SubjectMapOk(m, to, env.known);
      NoneAlone();
      PutAllIsMap(roles, puts);
  }

  /** Print and parse keep the meaning: whatever operations with known roles and clean names built the
      tree, its printed form parses, and every id but the superuser has the same roles on every path. */
  lemma PrintParseKeepsRoles(env: Env, ops: seq<Op>, a: Authid, comps: seq<string>)
    requires EnvOk(env) && !IsRoot(a) && forall i :: 0 <= i < |ops| ==> OpOk(ops[i], env.known)
    ensures var r := ParseConfig(env, WriteConfig(env, Build(ops)));
            r.Ok? && Roles(r.value, a, comps) == Roles(Build(ops), a, comps)
  {
    hide EnvOk, TreeOk, OpOk, ParseConfig, WriteConfig, Build, NodeAt, Roles;
    BuildOk(ops, env.known);
    MapsSurvive(env, Build(ops), [], User(a));
    var parsed := ParseConfig(env, WriteConfig(env, Build(ops))).value;
    forall k | 0 <= k <= |comps| ensures MapAt(parsed, comps[..k], a) == MapAt(Build(ops), comps[..k], a) {
      MapsSurvive(env, Build(ops), comps[..k], User(a));
    }
    SameMapsSameRoles(parsed, Build(ops), a, comps);
  }
}
