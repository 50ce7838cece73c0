/** The configuration file of the access control tree: the printer, which groups users and roles
    into few lines, and the parser. */
module AclConfig {
  import opened Bytes
  import opened AclTree
  import Split

  /** What comes from outside: the order in which sorted sets are listed, how ids are written and
      read, and the known roles. */
  datatype Env = Env(
    order: set<string> -> seq<string>, show: Authid -> string, parse: string -> Option<Authid>, known: Known)

  ghost predicate Lists(s: seq<string>, xs: set<string>)
  {
    && (forall x :: x in s <==> x in xs)
    && (forall i, j :: 0 <= i < j < |s| ==> s[i] != s[j])
  }

  ghost predicate EnvOk(env: Env)
  {
    && (forall xs :: Lists(env.order(xs), xs))
    && (forall a :: env.known.valid(a) ==>
          CleanName(env.show(a)) && env.show(a)[0] != '@' && env.parse(env.show(a)) == Some(a))
    && (forall r :: r in env.known.roles ==> CleanName(r))
    && NO_ACCESS in env.known.roles
  }

  // ----- the printer

  /** Users and groups that have the role with the flag on this node. The superuser is not saved. */
  ghost function Holders(env: Env, n: Node, role: Role, flag: bool): set<string>
  {
    (set a | a in n.users && !IsRoot(a) && role in n.users[a] && n.users[a][role] == flag :: env.show(a))
    + (set g | g in n.groups && role in n.groups[g] && n.groups[g][role] == flag :: "@" + g)
  }

  ghost function RolesWith(env: Env, n: Node, flag: bool): set<Role>
  {
    (set a, r | a in n.users && !IsRoot(a) && r in n.users[a] && n.users[a][r] == flag :: r)
    + (set g, r | g in n.groups && r in n.groups[g] && n.groups[g][r] == flag :: r)
  }

  /** The list of holders as text; roles with the same list share a line. */
  ghost function Key(env: Env, n: Node, role: Role, flag: bool): string
  {
    Split.Join(env.order(Holders(env, n, role, flag)), ',')
  }

  ghost function Keys(env: Env, n: Node, flag: bool): set<string>
  {
    set r | r in RolesWith(env, n, flag) :: Key(env, n, r, flag)
  }

  ghost function RolesOfKey(env: Env, n: Node, flag: bool, key: string): set<Role>
  {
    set r | r in RolesWith(env, n, flag) && Key(env, n, r, flag) == key
  }

  /** `NoAccess` is written alone. */
  function RoleList(env: Env, roles: set<Role>): string
  {
    if NO_ACCESS in roles then NO_ACCESS else Split.Join(env.order(roles), ',')
  }

  function Render(flag: bool, path: string, key: string, roles: string): string
  {
    Split.Join(["acl", if flag then "1" else "0", if path == "" then "/" else path, key, roles], ':')
  }

  ghost function KeyLines(env: Env, n: Node, path: string, flag: bool, keys: seq<string>): seq<string>
  {
    if keys == [] then []
    else [Render(flag, path, keys[0], RoleList(env, RolesOfKey(env, n, flag, keys[0])))]
         + KeyLines(env, n, path, flag, keys[1..])
  }

  ghost function OwnLines(env: Env, n: Node, path: string): seq<string>
  {
    KeyLines(env, n, path, false, env.order(Keys(env, n, false)))
      + KeyLines(env, n, path, true, env.order(Keys(env, n, true)))
  }

  /** The lines of a node and of everything below it. */
  ghost function Lines(env: Env, n: Node, path: string): seq<string>
    decreases n, 1, 0
  {
    OwnLines(env, n, path) + ChildLines(env, n, path, env.order(n.children.Keys))
  }

  ghost function ChildLines(env: Env, n: Node, path: string, names: seq<string>): seq<string>
    decreases n, 0, |names|
  {
    if names == [] then []
    else (if names[0] in n.children then Lines(env, n.children[names[0]], path + "/" + names[0]) else [])
         + ChildLines(env, n, path, names[1..])
  }

  function Terminated(lines: seq<string>): string
  {
    if lines == [] then "" else lines[0] + "\n" + Terminated(lines[1..])
  }

  ghost function WriteConfig(env: Env, root: Node): string
  {
    Terminated(Lines(env, root, ""))
  }

  // ----- the parser

  function TrimStart(s: string): string
  {
    if s != "" && IsSpace(s[0]) then TrimStart(s[1..]) else s
  }

  function TrimEnd(s: string): string
  {
    if s != "" && IsSpace(s[|s| - 1]) then TrimEnd(s[..|s| - 1]) else s
  }

  function Trim(s: string): string
  {
    TrimEnd(TrimStart(s))
  }

  ghost predicate AllSpace(s: string)
  {
    forall i :: 0 <= i < |s| ==> IsSpace(s[i])
  }

  /** The string is white space around a rest that neither begins nor ends with white space. */
  ghost predicate Trims(s: string, before: string, rest: string, after: string)
  {
    && s == before + rest + after && AllSpace(before) && AllSpace(after)
    && (rest == "" || (!IsSpace(rest[0]) && !IsSpace(rest[|rest| - 1])))
  }

  lemma {:induction false} TrimStartIs(s: string) returns (before: string)
    ensures s == before + TrimStart(s) && AllSpace(before) && (TrimStart(s) == "" || !IsSpace(TrimStart(s)[0]))
    decreases |s|
  {
    if s != "" && IsSpace(s[0]) {
      var b := TrimStartIs(s[1..]);
      before := [s[0]] + b;
    } else {
      before := "";
    }
  }

  lemma {:induction false} TrimEndIs(s: string) returns (after: string)
    ensures s == TrimEnd(s) + after && AllSpace(after)
    ensures TrimEnd(s) == "" || !IsSpace(TrimEnd(s)[|TrimEnd(s)| - 1])
    decreases |s|
  {
    if s != "" && IsSpace(s[|s| - 1]) {
      var a := TrimEndIs(s[..|s| - 1]);
      after := a + [s[|s| - 1]];
    } else {
      after := "";
    }
  }

  /** Trimming takes white space off both ends, all of it and nothing else. */
  lemma TrimIs(s: string) returns (before: string, after: string)
    ensures Trims(s, before, Trim(s), after)
  {
    hide TrimStart, TrimEnd;
    before := TrimStartIs(s);
    after := TrimEndIs(TrimStart(s));
    assert Trim(s) != "" ==> Trim(s)[0] == TrimStart(s)[0];
    assert before + (Trim(s) + after) == before + Trim(s) + after;
  }

  function TrimAll(parts: seq<string>): (r: seq<string>)
    ensures |r| == |parts|
  {
    seq(|parts|, i requires 0 <= i < |parts| => Trim(parts[i]))
  }

  /** One role for one user or group. */
  function ParsePair(env: Env, root: Node, comps: seq<string>, who: string, role: Role, flag: bool): Result<Node>
  {
    if role !in env.known.roles then Err("unknown role")
    else if who != "" && who[0] == '@' then Ok(InsertGroupRole(root, comps, who[1..], role, flag))
    else match env.parse(who)
         case None => Err("invalid id")
         case Some(a) => Ok(InsertUserRole(root, comps, a, role, flag))
  }

  function ParseRoles(env: Env, root: Node, comps: seq<string>, who: string, roles: seq<Role>, flag: bool): Result<Node>
    decreases |roles|
  {
    if roles == [] then Ok(root) else
    var root' :- ParsePair(env, root, comps, who, roles[0], flag);
    ParseRoles(env, root', comps, who, roles[1..], flag)
  }

  function ParseHolders(env: Env, root: Node, comps: seq<string>, whos: seq<string>, roles: seq<Role>,
      flag: bool): Result<Node>
    decreases |whos|
  {
    if whos == [] then Ok(root) else
    var root' :- ParseRoles(env, root, comps, whos[0], roles, flag);
    ParseHolders(env, root', comps, whos[1..], roles, flag)
  }

  function ParseAclLine(env: Env, root: Node, line: string): Result<Node>
  {
    var items := Split.Split(line, ':');
    if |items| != 5 then Err("wrong number of items.")
    else if items[0] != "acl" then Err("line does not start with 'acl'.")
    else if items[1] != "0" && items[1] != "1" then Err("expected '0' or '1' for propagate flag.")
    else ParseHolders(env, root, SplitAclPath(items[2]), TrimAll(Split.Split(items[3], ',')),
                      TrimAll(Split.Split(items[4], ',')), items[1] == "1")
  }

  function ParseLines(env: Env, root: Node, lines: seq<string>): Result<Node>
    decreases |lines|
  {
    if lines == [] then Ok(root)
    else if Trim(lines[0]) == "" then ParseLines(env, root, lines[1..])
    else
      var root' :- ParseAclLine(env, root, Trim(lines[0]));
      ParseLines(env, root', lines[1..])
  }

  function ParseConfig(env: Env, raw: string): Result<Node>
  {
    ParseLines(env, EMPTY, Split.Split(raw, '\n'))
  }

  /** The nested loops over holders and roles of a line, on the tree. An error leaves the tree with the
      roles that came before it. */
  method ParseInto(env: Env, tree: Tree, path: string, whos: seq<string>, roles: seq<Role>, flag: bool)
    returns (error: Option<string>)
    modifies tree
    ensures var r := ParseHolders(env, old(tree.root), SplitAclPath(path), whos, roles, flag);
            if error.None? then r == Ok(tree.root) else r == Err(error.value)
  {
    hide SplitAclPath, InsertUserRole, InsertGroupRole, Effect, TreeOk, OpOk;
    ghost var comps, all := SplitAclPath(path), ParseHolders(env, tree.root, SplitAclPath(path), whos, roles, flag);
    for i := 0 to |whos|
      invariant all == ParseHolders(env, tree.root, comps, whos[i..], roles, flag)
    {
      assert whos[i..][1..] == whos[i + 1..];
      ghost var start := tree.root;
      for j := 0 to |roles|
        invariant ParseRoles(env, start, comps, whos[i], roles, flag)
               == ParseRoles(env, tree.root, comps, whos[i], roles[j..], flag)
      {
        assert roles[j..][1..] == roles[j + 1..];
        var who, role := whos[i], roles[j];
        if role !in env.known.roles { return Some("unknown role"); }
        if who != "" && who[0] == '@' {
          tree.Do(AddGroup(path, who[1..], role, flag));
        } else {
          var a := env.parse(who);
          if a.None? { return Some("invalid id"); }
          tree.Do(AddUser(path, a.value, role, flag));
        }
      }
    }
    return None;
  }

  method ParseLine(env: Env, tree: Tree, line: string) returns (error: Option<string>)
    modifies tree
    ensures var r := ParseAclLine(env, old(tree.root), line);
            if error.None? then r == Ok(tree.root) else r == Err(error.value)
  {
    hide SplitAclPath, Split.Split, ParseHolders, TrimAll;
    var items := Split.Split(line, ':');
    if |items| != 5 { return Some("wrong number of items."); }
    if items[0] != "acl" { return Some("line does not start with 'acl'."); }
    if items[1] != "0" && items[1] != "1" { return Some("expected '0' or '1' for propagate flag."); }
    error := ParseInto(env, tree, items[2], TrimAll(Split.Split(items[3], ',')), TrimAll(Split.Split(items[4], ',')),
                       items[1] == "1");
  }

  /** The loop over the lines of the file. */
  method Load(env: Env, raw: string) returns (r: Result<Node>)
    ensures r == ParseConfig(env, raw)
  {
    hide ParseAclLine, Trim, Split.Split;
    var tree := new Tree();
    var lines := Split.Split(raw, '\n');
    for i := 0 to |lines|
      invariant ParseLines(env, EMPTY, lines) == ParseLines(env, tree.root, lines[i..])
    {
      assert lines[i..][1..] == lines[i + 1..];
      var line := Trim(lines[i]);
      if line == "" { continue; }
      var error := ParseLine(env, tree, line);
      if error.Some? { return Err(error.value); }
    }
    return Ok(tree.root);
  }

  // ----- what the lines say, as insertions

  /** An insertion into the role map of an id on a path. Groups are written and read the same way. */
  datatype Insertion = Insertion(comps: seq<string>, who: string, role: Role, flag: bool)

  function ForRoles(comps: seq<string>, who: string, roles: seq<Role>, flag: bool): seq<Insertion>
  {
    if roles == [] then [] else [Insertion(comps, who, roles[0], flag)] + ForRoles(comps, who, roles[1..], flag)
  }

  function ForHolders(comps: seq<string>, whos: seq<string>, roles: seq<Role>, flag: bool): seq<Insertion>
  {
    if whos == [] then [] else ForRoles(comps, whos[0], roles, flag) + ForHolders(comps, whos[1..], roles, flag)
  }

  ghost function KeyInsertions(env: Env, n: Node, comps: seq<string>, flag: bool, keys: seq<string>): seq<Insertion>
  {
    if keys == [] then []
    else ForHolders(comps, Split.Split(keys[0], ','),
                    Split.Split(RoleList(env, RolesOfKey(env, n, flag, keys[0])), ','), flag)
         + KeyInsertions(env, n, comps, flag, keys[1..])
  }

  ghost function OwnInsertions(env: Env, n: Node, comps: seq<string>): seq<Insertion>
  {
    KeyInsertions(env, n, comps, false, env.order(Keys(env, n, false)))
      + KeyInsertions(env, n, comps, true, env.order(Keys(env, n, true)))
  }

  ghost function Insertions(env: Env, n: Node, comps: seq<string>): seq<Insertion>
    decreases n, 1, 0
  {
    OwnInsertions(env, n, comps) + ChildInsertions(env, n, comps, env.order(n.children.Keys))
  }

  ghost function ChildInsertions(env: Env, n: Node, comps: seq<string>, names: seq<string>): seq<Insertion>
    decreases n, 0, |names|
  {
    if names == [] then []
    else (if names[0] in n.children then Insertions(env, n.children[names[0]], comps + [names[0]]) else [])
         + ChildInsertions(env, n, comps, names[1..])
  }

  /** All insertions, one after the other; each parses as one role for one holder. */
  function Perform(env: Env, root: Node, ins: seq<Insertion>): Result<Node>
    decreases |ins|
  {
    if ins == [] then Ok(root) else
    var root' :- ParsePair(env, root, ins[0].comps, ins[0].who, ins[0].role, ins[0].flag);
    Perform(env, root', ins[1..])
  }

  lemma {:induction false} PerformAppend(env: Env, root: Node, a: seq<Insertion>, b: seq<Insertion>)
    ensures Perform(env, root, a + b)
            == if Perform(env, root, a).Ok? then Perform(env, Perform(env, root, a).value, b) else Perform(env, root, a)
    decreases |a|
  {
    hide ParsePair;
    if a == [] {
      assert a + b == b;
    } else {
      assert (a + b)[1..] == a[1..] + b;
      var r := ParsePair(env, root, a[0].comps, a[0].who, a[0].role, a[0].flag);
      if r.Ok? { PerformAppend(env, r.value, a[1..], b); }
    }
  }

  lemma {:induction false} RolesPerform(env: Env, root: Node, comps: seq<string>, who: string, roles: seq<Role>,
      flag: bool)
    ensures ParseRoles(env, root, comps, who, roles, flag) == Perform(env, root, ForRoles(comps, who, roles, flag))
    decreases |roles|
  {
    hide ParsePair;
    if roles != [] {
      assert ForRoles(comps, who, roles, flag)[1..] == ForRoles(comps, who, roles[1..], flag);
      var r := ParsePair(env, root, comps, who, roles[0], flag);
      if r.Ok? { RolesPerform(env, r.value, comps, who, roles[1..], flag); }
    }
  }

  lemma {:induction false} HoldersPerform(env: Env, root: Node, comps: seq<string>, whos: seq<string>,
      roles: seq<Role>, flag: bool)
    ensures ParseHolders(env, root, comps, whos, roles, flag)
            == Perform(env, root, ForHolders(comps, whos, roles, flag))
    decreases |whos|
  {
    hide ParseRoles, Perform;
    if whos != [] {
      RolesPerform(env, root, comps, whos[0], roles, flag);
      PerformAppend(env, root, ForRoles(comps, whos[0], roles, flag), ForHolders(comps, whos[1..], roles, flag));
      var r := ParseRoles(env, root, comps, whos[0], roles, flag);
      if r.Ok? { HoldersPerform(env, r.value, comps, whos[1..], roles, flag); }
    } else {
      PerformNone(env, root);
    }
  }

  lemma PerformNone(env: Env, root: Node)
    ensures Perform(env, root, []) == Ok(root)
  {
  }

  // ----- text

  lemma TrimNothing(s: string)
    requires s != "" ==> !IsSpace(s[0]) && !IsSpace(s[|s| - 1])
    ensures Trim(s) == s
  {
  }

  lemma TrimClean(parts: seq<string>)
    requires CleanNames(parts)
    ensures TrimAll(parts) == parts
  {
    forall i | 0 <= i < |parts| ensures Trim(parts[i]) == parts[i] { TrimNothing(parts[i]); }
  }

  ghost predicate CleanNames(parts: seq<string>)
  {
    forall i :: 0 <= i < |parts| ==> CleanName(parts[i])
  }

  /** A list of clean names, joined by commas, holds no colon or newline and splits again. */
  lemma {:induction false} JoinClean(parts: seq<string>)
    requires parts != [] && CleanNames(parts)
    ensures var s := Split.Join(parts, ',');
            && s != "" && !IsSpace(s[0]) && !IsSpace(s[|s| - 1])
            && ':' !in s && '\n' !in s && Split.Split(s, ',') == parts
    decreases |parts|
  {
    Split.SplitJoin(parts, ',');
    assert CleanName(parts[0]);
    if |parts| > 1 {
      JoinClean(parts[1..]);
    }
  }

  /** The text of a path: a slash before every component. */
  function PathText(comps: seq<string>): string
  {
    if comps == [] then "" else PathText(comps[..|comps| - 1]) + "/" + comps[|comps| - 1]
  }

  lemma {:induction false} PathClean(comps: seq<string>)
    requires CleanPath(comps)
    ensures ':' !in PathText(comps) && '\n' !in PathText(comps)
    ensures comps != [] ==> PathText(comps) != "" && PathText(comps)[0] == '/'
    decreases |comps|
  {
    if comps != [] {
      PathClean(comps[..|comps| - 1]);
      assert CleanComponent(comps[|comps| - 1]);
    }
  }

  lemma {:induction false} PathIsJoin(comps: seq<string>)
    requires comps != []
    ensures PathText(comps) == Split.Join([""] + comps, '/')
    decreases |comps|
  {
    var init, last := comps[..|comps| - 1], comps[|comps| - 1];
    if init == [] {
      assert [""] + comps == ["", last];
      assert ["", last][1..] == [last];
    } else {
      PathIsJoin(init);
      JoinSnoc([""] + init, last, '/');
      assert [""] + comps == [""] + init + [last];
    }
  }

  lemma {:induction false} JoinSnoc(parts: seq<string>, last: string, sep: char)
    requires parts != []
    ensures Split.Join(parts + [last], sep) == Split.Join(parts, sep) + [sep] + last
    decreases |parts|
  {
    if |parts| == 1 {
      assert (parts + [last])[1..] == [last];
    } else {
      assert (parts + [last])[1..] == parts[1..] + [last];
      JoinSnoc(parts[1..], last, sep);
    }
  }

  lemma {:induction false} NonEmptyClean(comps: seq<string>)
    requires forall i :: 0 <= i < |comps| ==> comps[i] != ""
    ensures NonEmpty(comps) == comps
  {
    if comps != [] { NonEmptyClean(comps[1..]); }
  }

  /** The parser finds the components that the printer wrote. */
  lemma PathRoundTrip(comps: seq<string>)
    requires CleanPath(comps)
    ensures SplitAclPath(if PathText(comps) == "" then "/" else PathText(comps)) == comps
  {
    hide PathText, Split.Join, Split.Split;
    PathClean(comps);
    if comps == [] {
      NoPath();
    } else {
      PathIsJoin(comps);
      var parts := [""] + comps;
      assert forall i :: 0 <= i < |comps| ==> CleanComponent(comps[i]);
      Split.SplitJoin(parts, '/');
      assert parts[1..] == comps;
      NonEmptyClean(comps);
    }
  }

  lemma NoPath()
    ensures PathText([]) == "" && SplitAclPath("/") == []
  {
    Split.SplitJoin(["", ""], '/');
    assert ["", ""][1..] == [""];
    assert Split.Join(["", ""], '/') == "/";
    assert NonEmpty(["", ""]) == [] by { assert NonEmpty([""]) == [] by { assert [""][1..] == []; } }
  }

  /** A rendered line parses as the insertions it stands for. */
  lemma RenderParses(env: Env, root: Node, comps: seq<string>, flag: bool, whos: seq<string>, roles: seq<Role>)
    requires CleanPath(comps) && whos != [] && roles != [] && CleanNames(whos) && CleanNames(roles)
    ensures var line := Render(flag, PathText(comps), Split.Join(whos, ','), Split.Join(roles, ','));
            && line != "" && '\n' !in line && Trim(line) == line
            && ParseAclLine(env, root, line) == Perform(env, root, ForHolders(comps, whos, roles, flag))
  {
    hide PathText, ParseHolders, Perform, Split.Split, SplitAclPath, TrimAll, Trim, CleanNames;
    var path := if PathText(comps) == "" then "/" else PathText(comps);
    var key, rl := Split.Join(whos, ','), Split.Join(roles, ',');
    var items := ["acl", if flag then "1" else "0", path, key, rl];
    JoinClean(whos);
    JoinClean(roles);
    PathClean(comps);
    PathRoundTrip(comps);
    LineShape(items);
    Split.SplitJoin(items, ':');
    TrimClean(whos);
    TrimClean(roles);
    HoldersPerform(env, root, comps, whos, roles, flag);
  }

  lemma LineShape(items: seq<string>)
    requires |items| == 5 && items[0] == "acl" && items[4] != "" && !IsSpace(items[4][|items[4]| - 1])
    requires forall i :: 0 <= i < 5 ==> '\n' !in items[i]
    ensures var line := Split.Join(items, ':');
            line != "" && '\n' !in line && Trim(line) == line
  {
    var line := Split.Join(items, ':');
    assert items[1..][1..] == items[2..] && items[2..][1..] == items[3..]
           && items[3..][1..] == items[4..] == [items[4]];
    assert Split.Join(items[3..], ':') == items[3] + ":" + items[4];
    assert Split.Join(items[2..], ':') == items[2] + ":" + Split.Join(items[3..], ':');
    assert Split.Join(items[1..], ':') == items[1] + ":" + Split.Join(items[2..], ':');
    assert line == items[0] + ":" + Split.Join(items[1..], ':');
    TrimNothing(line);
  }
}
