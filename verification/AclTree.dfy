/** The access control tree: roles of users, tokens and groups on paths, and how they are inherited. */
module AclTree {
  import opened Bytes
  import opened Split

  type Role = string

  const NO_ACCESS: Role := "NoAccess"

  datatype Authid = Authid(user: string, token: Option<string>)

  const ROOT_USER := "root@pam"

  /** The superuser itself, not one of its tokens. */
  predicate IsRoot(a: Authid)
  {
    a.token.None? && a.user == ROOT_USER
  }

  /** Roles with their propagate flags. */
  type RoleMap = map<Role, bool>

  datatype Node = Node(users: map<Authid, RoleMap>, groups: map<string, RoleMap>, children: map<string, Node>)

  const EMPTY := Node(map[], map[], map[])

  // ----- paths

  function NonEmpty(parts: seq<string>): (r: seq<string>)
    ensures forall i :: 0 <= i < |r| ==> r[i] != "" && r[i] in parts
  {
    if parts == [] then [] else (if parts[0] == "" then [] else [parts[0]]) + NonEmpty(parts[1..])
  }

  /** The non-empty components of a path. */
  function SplitAclPath(path: string): (r: seq<string>)
    ensures forall i :: 0 <= i < |r| ==> r[i] != "" && '/' !in r[i]
  {
    NonEmpty(Split.Split(path, '/'))
  }

  lemma {:induction false} NonEmptyAppend(a: seq<string>, b: seq<string>)
    ensures NonEmpty(a + b) == NonEmpty(a) + NonEmpty(b)
    decreases |a|
  {
    if a == [] {
      assert a + b == b;
    } else {
      assert (a + b)[1..] == a[1..] + b;
      NonEmptyAppend(a[1..], b);
    }
  }

  /** The components of a path, by cases: a name is one, nothing is none, and a slash stands between those of
      what is before it and of what is after it. */
  lemma SplitAclPathIs(a: string, b: string)
    ensures SplitAclPath("") == []
    ensures a != "" && '/' !in a ==> SplitAclPath(a) == [a]
    ensures SplitAclPath(a + "/" + b) == SplitAclPath(a) + SplitAclPath(b)
  {
    hide NonEmpty, Find;
    NoneLeft("");
    if '/' !in a {
      SplitNone(a, '/');
      NoneLeft(a);
    }
    SplitNone("", '/');
    SplitAppend(a, b, '/');
    NonEmptyAppend(Split.Split(a, '/'), Split.Split(b, '/'));
  }

  lemma NoneLeft(a: string)
    ensures NonEmpty([a]) == if a == "" then [] else [a]
  {
    assert [a][1..] == [];
  }

  /** All components of a path that is given in parts, each of which may hold slashes. */
  function Flatten(path: seq<string>): seq<string>
  {
    if path == [] then [] else Split.Split(path[0], '/') + Flatten(path[1..])
  }

  function NodeAt(n: Node, comps: seq<string>): Option<Node>
    decreases |comps|
  {
    if comps == [] then Some(n)
    else if comps[0] !in n.children then None
    else NodeAt(n.children[comps[0]], comps[1..])
  }

  function ChildOr(n: Node, name: string): Node
  {
    if name in n.children then n.children[name] else EMPTY
  }

  // ----- changing the tree

  /** Adds a role: `NoAccess` replaces everything, anything else replaces `NoAccess`. */
  function Put(m: RoleMap, role: Role, propagate: bool): RoleMap
  {
    if role == NO_ACCESS then map[role := propagate] else (m - {NO_ACCESS})[role := propagate]
  }

  function UserRoles(n: Node, a: Authid): RoleMap
  {
    if a in n.users then n.users[a] else map[]
  }

  function GroupRoles(n: Node, g: string): RoleMap
  {
    if g in n.groups then n.groups[g] else map[]
  }

  function InsertUserRole(n: Node, comps: seq<string>, a: Authid, role: Role, propagate: bool): Node
    decreases |comps|
  {
    if comps == [] then n.(users := n.users[a := Put(UserRoles(n, a), role, propagate)])
    else n.(children := n.children[comps[0] := InsertUserRole(ChildOr(n, comps[0]), comps[1..], a, role, propagate)])
  }

  function InsertGroupRole(n: Node, comps: seq<string>, g: string, role: Role, propagate: bool): Node
    decreases |comps|
  {
    if comps == [] then n.(groups := n.groups[g := Put(GroupRoles(n, g), role, propagate)])
    else n.(children := n.children[comps[0] := InsertGroupRole(ChildOr(n, comps[0]), comps[1..], g, role, propagate)])
  }

  function DeleteUserRole(n: Node, comps: seq<string>, a: Authid, role: Role): Node
    decreases |comps|
  {
    if comps == [] then (if a in n.users then n.(users := n.users[a := n.users[a] - {role}]) else n)
    else if comps[0] !in n.children then n
    else n.(children := n.children[comps[0] := DeleteUserRole(n.children[comps[0]], comps[1..], a, role)])
  }

  function DeleteGroupRole(n: Node, comps: seq<string>, g: string, role: Role): Node
    decreases |comps|
  {
    if comps == [] then (if g in n.groups then n.(groups := n.groups[g := n.groups[g] - {role}]) else n)
    else if comps[0] !in n.children then n
    else n.(children := n.children[comps[0] := DeleteGroupRole(n.children[comps[0]], comps[1..], g, role)])
  }

  /** Deletes the node at the path with everything below; the root stays. */
  function DeleteNode(n: Node, comps: seq<string>): Node
    decreases |comps|
  {
    if comps == [] then n
    else if |comps| == 1 then n.(children := n.children - {comps[0]})
    else if comps[0] !in n.children then n
    else n.(children := n.children[comps[0] := DeleteNode(n.children[comps[0]], comps[1..])])
  }

  function DeleteAuthid(n: Node, a: Authid): Node
    decreases n
  {
    Node(n.users - {a}, n.groups, map c | c in n.children :: DeleteAuthid(n.children[c], a))
  }

  /** The operations of the tree, on textual paths. */
  datatype Op =
    | AddUser(path: string, a: Authid, role: Role, propagate: bool)
    | AddGroup(path: string, g: string, role: Role, propagate: bool)
    | DropUser(path: string, a: Authid, role: Role)
    | DropGroup(path: string, g: string, role: Role)
    | DropNode(path: string)
    | DropAuthid(a: Authid)

  function Apply(n: Node, op: Op): Node
  {
    match op
    case AddUser(path, a, role, propagate) => InsertUserRole(n, SplitAclPath(path), a, role, propagate)
    case AddGroup(path, g, role, propagate) => InsertGroupRole(n, SplitAclPath(path), g, role, propagate)
    case DropUser(path, a, role) => DeleteUserRole(n, SplitAclPath(path), a, role)
    case DropGroup(path, g, role) => DeleteGroupRole(n, SplitAclPath(path), g, role)
    case DropNode(path) => DeleteNode(n, SplitAclPath(path))
    case DropAuthid(a) => DeleteAuthid(n, a)
  }

  function Build(ops: seq<Op>): Node
  {
    if ops == [] then EMPTY else Apply(Build(ops[..|ops| - 1]), ops[|ops| - 1])
  }

  // ----- what the operations mean

  datatype Subject = User(a: Authid) | Group(g: string)

  /** The roles that a user, token or group has on a path itself; none where there is no node. */
  function RolesAt(n: Node, q: seq<string>, who: Subject): RoleMap
  {
    match NodeAt(n, q)
    case None => map[]
    case Some(m) => SubjectRoles(m, who)
  }

  function SubjectRoles(n: Node, who: Subject): RoleMap
  {
    match who case User(a) => UserRoles(n, a) case Group(g) => GroupRoles(n, g)
  }

  /** After a role was added it is there with its flag. `NoAccess` is there alone; any other role has driven
      out `NoAccess`, and the other roles are as before. */
  ghost predicate Added(before: RoleMap, after: RoleMap, role: Role, flag: bool)
  {
    && role in after && after[role] == flag
    && if role == NO_ACCESS then forall r :: r in after ==> r == NO_ACCESS
       else
         && NO_ACCESS !in after
         && forall r :: r != role && r != NO_ACCESS ==>
              (r in after <==> r in before) && (r in before ==> after[r] == before[r])
  }

  lemma PutAdds(before: RoleMap, role: Role, flag: bool)
    ensures Added(before, Put(before, role, flag), role, flag)
  {
  }

  /** What an operation makes of the roles of one subject on one path. */
  function Effect(op: Op, q: seq<string>, who: Subject, before: RoleMap): RoleMap
  {
    match op
    case AddUser(path, a, role, propagate) =>
      if q == SplitAclPath(path) && who == User(a) then Put(before, role, propagate) else before
    case AddGroup(path, g, role, propagate) =>
      if q == SplitAclPath(path) && who == Group(g) then Put(before, role, propagate) else before
    case DropUser(path, a, role) =>
      if q == SplitAclPath(path) && who == User(a) then before - {role} else before
    case DropGroup(path, g, role) =>
      if q == SplitAclPath(path) && who == Group(g) then before - {role} else before
    case DropNode(path) => if SplitAclPath(path) != [] && SplitAclPath(path) <= q then map[] else before
    case DropAuthid(a) => if who == User(a) then map[] else before
  }

  lemma {:induction false} NothingAt(q: seq<string>, who: Subject)
    ensures RolesAt(EMPTY, q, who) == map[]
  {
  }

  /** The roles on a path are those of the node, or those on the rest of the path below a child. */
  lemma OneDown(n: Node, q: seq<string>, who: Subject)
    ensures RolesAt(n, q, who)
            == if q == [] then SubjectRoles(n, who)
               else if q[0] in n.children then RolesAt(n.children[q[0]], q[1..], who) else map[]
  {
    hide SubjectRoles;
  }

  lemma SameHead(p: seq<string>, q: seq<string>)
    requires p != [] && q != [] && p[0] == q[0]
    ensures (q == p <==> q[1..] == p[1..]) && (p <= q <==> p[1..] <= q[1..])
  {
    assert q == [q[0]] + q[1..] && p == [p[0]] + p[1..];
  }

  lemma {:induction false} InsertUserAt(n: Node, p: seq<string>, b: Authid, role: Role, flag: bool, q: seq<string>,
      who: Subject)
    ensures RolesAt(InsertUserRole(n, p, b, role, flag), q, who)
            == if q == p && who == User(b) then Put(RolesAt(n, q, who), role, flag) else RolesAt(n, q, who)
    ensures q == p && who == User(b) ==>
              Added(RolesAt(n, q, who), RolesAt(InsertUserRole(n, p, b, role, flag), q, who), role, flag)
    decreases |p|
  {
    hide Put, RolesAt, Added;
    PutAdds(RolesAt(n, q, who), role, flag);
    OneDown(n, q, who);
    OneDown(InsertUserRole(n, p, b, role, flag), q, who);
    if p != [] && q != [] && p[0] == q[0] {
      InsertUserAt(ChildOr(n, p[0]), p[1..], b, role, flag, q[1..], who);
      NothingAt(q[1..], who);
      SameHead(p, q);
    }
  }

  lemma {:induction false} InsertGroupAt(n: Node, p: seq<string>, g: string, role: Role, flag: bool, q: seq<string>,
      who: Subject)
    ensures RolesAt(InsertGroupRole(n, p, g, role, flag), q, who)
            == if q == p && who == Group(g) then Put(RolesAt(n, q, who), role, flag) else RolesAt(n, q, who)
    ensures q == p && who == Group(g) ==>
              Added(RolesAt(n, q, who), RolesAt(InsertGroupRole(n, p, g, role, flag), q, who), role, flag)
    decreases |p|
  {
    hide Put, RolesAt, Added;
    PutAdds(RolesAt(n, q, who), role, flag);
    OneDown(n, q, who);
    OneDown(InsertGroupRole(n, p, g, role, flag), q, who);
    if p != [] && q != [] && p[0] == q[0] {
      InsertGroupAt(ChildOr(n, p[0]), p[1..], g, role, flag, q[1..], who);
      NothingAt(q[1..], who);
      SameHead(p, q);
    }
  }

  lemma NoneLess(role: Role)
    ensures var none: RoleMap := map[]; none - {role} == none
  {
  }

  lemma {:induction false} DeleteUserAt(n: Node, p: seq<string>, b: Authid, role: Role, q: seq<string>, who: Subject)
    ensures RolesAt(DeleteUserRole(n, p, b, role), q, who)
            == if q == p && who == User(b) then RolesAt(n, q, who) - {role} else RolesAt(n, q, who)
    decreases |p|
  {
    hide RolesAt;
    OneDown(n, q, who);
    OneDown(DeleteUserRole(n, p, b, role), q, who);
    if p == [] {
      NoneLess(role);
    } else if q != [] && p[0] == q[0] {
      SameHead(p, q);
      if p[0] in n.children {
        DeleteUserAt(n.children[p[0]], p[1..], b, role, q[1..], who);
      } else {
        NoneLess(role);
      }
    }
  }

  lemma {:induction false} DeleteGroupAt(n: Node, p: seq<string>, g: string, role: Role, q: seq<string>, who: Subject)
    ensures RolesAt(DeleteGroupRole(n, p, g, role), q, who)
            == if q == p && who == Group(g) then RolesAt(n, q, who) - {role} else RolesAt(n, q, who)
    decreases |p|
  {
    hide RolesAt;
    OneDown(n, q, who);
    OneDown(DeleteGroupRole(n, p, g, role), q, who);
    if p == [] {
      NoneLess(role);
    } else if q != [] && p[0] == q[0] {
      SameHead(p, q);
      if p[0] in n.children {
        DeleteGroupAt(n.children[p[0]], p[1..], g, role, q[1..], who);
      } else {
        NoneLess(role);
      }
    }
  }

  lemma {:induction false} DeleteNodeAt(n: Node, p: seq<string>, q: seq<string>, who: Subject)
    ensures RolesAt(DeleteNode(n, p), q, who) == if p != [] && p <= q then map[] else RolesAt(n, q, who)
    decreases |p|
  {
    if p != [] && q != [] && p[0] == q[0] {
      SameHead(p, q);
      if |p| > 1 && p[0] in n.children {
        DeleteNodeAt(n.children[p[0]], p[1..], q[1..], who);
      }
    }
  }

  lemma {:induction false} DeleteAuthidAt(n: Node, b: Authid, q: seq<string>, who: Subject)
    ensures RolesAt(DeleteAuthid(n, b), q, who) == if who == User(b) then map[] else RolesAt(n, q, who)
    decreases |q|
  {
    if q != [] && q[0] in n.children {
      DeleteAuthidAt(n.children[q[0]], b, q[1..], who);
    }
  }

  /** The operation adds a role for this subject on this path. */
  predicate Adds(op: Op, q: seq<string>, who: Subject)
  {
    || (op.AddUser? && q == SplitAclPath(op.path) && who == User(op.a))
    || (op.AddGroup? && q == SplitAclPath(op.path) && who == Group(op.g))
  }

  /** Every operation changes the roles it names and those of nobody else, on no other path. */
  lemma ApplyAt(n: Node, op: Op, q: seq<string>, who: Subject)
    ensures RolesAt(Apply(n, op), q, who) == Effect(op, q, who, RolesAt(n, q, who))
    ensures Adds(op, q, who) ==> Added(RolesAt(n, q, who), RolesAt(Apply(n, op), q, who), op.role, op.propagate)
  {
    hide SplitAclPath, Put, RolesAt, Added;
    if Adds(op, q, who) { PutAdds(RolesAt(n, q, who), op.role, op.propagate); }
    match op
    case AddUser(path, a, role, propagate) => InsertUserAt(n, SplitAclPath(path), a, role, propagate, q, who);
    case AddGroup(path, g, role, propagate) => InsertGroupAt(n, SplitAclPath(path), g, role, propagate, q, who);
    case DropUser(path, a, role) => DeleteUserAt(n, SplitAclPath(path), a, role, q, who);
    case DropGroup(path, g, role) => DeleteGroupAt(n, SplitAclPath(path), g, role, q, who);
    case DropNode(path) => DeleteNodeAt(n, SplitAclPath(path), q, who);
    case DropAuthid(a) => DeleteAuthidAt(n, a, q, who);
  }

  /** The tree object. */
  class Tree {
    var root: Node

    /** In a new tree nobody has a role anywhere. */
    constructor ()
      ensures root == EMPTY && forall q, who :: RolesAt(root, q, who) == map[]
    {
      root := EMPTY;
      forall q, who ensures RolesAt(EMPTY, q, who) == map[] { NothingAt(q, who); }
    }

    /** An operation has its effect for every subject on every path, and keeps the tree in order. */
    method Do(op: Op)
      modifies this
      ensures root == Apply(old(root), op)
      ensures forall q, who :: RolesAt(root, q, who) == Effect(op, q, who, RolesAt(old(root), q, who))
      ensures forall q, who :: Adds(op, q, who) ==>
                Added(RolesAt(old(root), q, who), RolesAt(root, q, who), op.role, op.propagate)
      ensures forall known :: TreeOk(old(root), known) && OpOk(op, known) ==> TreeOk(root, known)
    {
      hide Apply, RolesAt, Effect, TreeOk, OpOk, SplitAclPath, Added;
      root := Apply(root, op);
      forall q, who
        ensures RolesAt(root, q, who) == Effect(op, q, who, RolesAt(old(root), q, who))
        ensures Adds(op, q, who) ==>
                  Added(RolesAt(old(root), q, who), RolesAt(root, q, who), op.role, op.propagate)
      {
        ApplyAt(old(root), op, q, who);
      }
      forall known | TreeOk(old(root), known) && OpOk(op, known) ensures TreeOk(root, known) {
        ApplyOk(old(root), op, known);
      }
    }
  }

  // ----- what every operation keeps

  predicate NoAccessAlone(m: RoleMap)
  {
    NO_ACCESS in m ==> m.Keys == {NO_ACCESS}
  }

  /** The known roles, and the ids that are written without separators. */
  datatype Known = Known(roles: set<Role>, valid: Authid -> bool)

  ghost predicate MapOk(m: RoleMap, known: Known)
  {
    NoAccessAlone(m) && m.Keys <= known.roles
  }

  /** A path component that survives in a configuration line. */
  predicate CleanComponent(c: string)
  {
    c != "" && '/' !in c && ':' !in c && '\n' !in c
  }

  predicate IsSpace(c: char)
  {
    c == ' ' || c == '\t' || c == '\n' || c == '\r' || c == '\U{000B}' || c == '\U{000C}'
  }

  /** A user, group or role name that survives in a list. */
  predicate CleanName(s: string)
  {
    s != "" && forall i :: 0 <= i < |s| ==> s[i] != ':' && s[i] != ',' && !IsSpace(s[i])
  }

  /** Everywhere in the tree: `NoAccess` is alone in its map, roles are known, names are clean and ids
      are valid. */
  ghost predicate TreeOk(n: Node, known: Known)
    decreases n
  {
    && (forall a :: a in n.users ==> known.valid(a) && MapOk(n.users[a], known))
    && (forall g :: g in n.groups ==> MapOk(n.groups[g], known) && CleanName(g))
    && (forall c :: c in n.children ==> CleanComponent(c) && TreeOk(n.children[c], known))
  }

  ghost predicate OpOk(op: Op, known: Known)
  {
    match op
    case AddUser(path, a, role, _) => role in known.roles && known.valid(a) && CleanPath(SplitAclPath(path))
    case AddGroup(path, g, role, _) => role in known.roles && CleanName(g) && CleanPath(SplitAclPath(path))
    case _ => true
  }

  ghost predicate CleanPath(comps: seq<string>)
  {
    forall i :: 0 <= i < |comps| ==> CleanComponent(comps[i])
  }

  lemma PutOk(m: RoleMap, role: Role, propagate: bool, known: Known)
    requires MapOk(m, known) && role in known.roles
    ensures MapOk(Put(m, role, propagate), known) && Added(m, Put(m, role, propagate), role, propagate)
  {
  }

  lemma {:induction false} InsertUserOk(n: Node, comps: seq<string>, a: Authid, role: Role, propagate: bool,
      known: Known)
    requires TreeOk(n, known) && role in known.roles && known.valid(a) && CleanPath(comps)
    ensures TreeOk(InsertUserRole(n, comps, a, role, propagate), known)
    decreases |comps|
  {
    hide Put, CleanComponent, MapOk, CleanName, Added;
    if comps == [] {
      MapOkEmpty(known);
      PutOk(UserRoles(n, a), role, propagate, known);
    } else {
      EmptyOk(known);
      assert CleanComponent(comps[0]);
      InsertUserOk(ChildOr(n, comps[0]), comps[1..], a, role, propagate, known);
    }
  }

  lemma {:induction false} InsertGroupOk(n: Node, comps: seq<string>, g: string, role: Role, propagate: bool,
      known: Known)
    requires TreeOk(n, known) && role in known.roles && CleanName(g) && CleanPath(comps)
    ensures TreeOk(InsertGroupRole(n, comps, g, role, propagate), known)
    decreases |comps|
  {
    hide Put, CleanComponent, MapOk, CleanName, Added;
    if comps == [] {
      MapOkEmpty(known);
      PutOk(GroupRoles(n, g), role, propagate, known);
    } else {
      EmptyOk(known);
      assert CleanComponent(comps[0]);
      InsertGroupOk(ChildOr(n, comps[0]), comps[1..], g, role, propagate, known);
    }
  }

  lemma MapOkEmpty(known: Known)
    ensures MapOk(map[], known)
  {
  }

  lemma EmptyOk(known: Known)
    ensures TreeOk(EMPTY, known)
  {
  }

  lemma DropOk(m: RoleMap, role: Role, known: Known)
    requires MapOk(m, known)
    ensures MapOk(m - {role}, known)
  {
  }

  lemma {:induction false} DeleteUserOk(n: Node, comps: seq<string>, a: Authid, role: Role, known: Known)
    requires TreeOk(n, known)
    ensures TreeOk(DeleteUserRole(n, comps, a, role), known)
    decreases |comps|
  {
    hide CleanComponent, MapOk, CleanName;
    if comps == [] {
      if a in n.users { DropOk(n.users[a], role, known); }
    } else if comps[0] in n.children {
      DeleteUserOk(n.children[comps[0]], comps[1..], a, role, known);
    }
  }

  lemma {:induction false} DeleteGroupOk(n: Node, comps: seq<string>, g: string, role: Role, known: Known)
    requires TreeOk(n, known)
    ensures TreeOk(DeleteGroupRole(n, comps, g, role), known)
    decreases |comps|
  {
    hide CleanComponent, MapOk, CleanName;
    if comps == [] {
      if g in n.groups { DropOk(n.groups[g], role, known); }
    } else if comps[0] in n.children {
      DeleteGroupOk(n.children[comps[0]], comps[1..], g, role, known);
    }
  }

  lemma {:induction false} DeleteNodeOk(n: Node, comps: seq<string>, known: Known)
    requires TreeOk(n, known)
    ensures TreeOk(DeleteNode(n, comps), known)
    decreases |comps|
  {
    hide CleanComponent, MapOk, CleanName;
    if |comps| > 1 && comps[0] in n.children {
      DeleteNodeOk(n.children[comps[0]], comps[1..], known);
    }
  }

  lemma {:induction false} DeleteAuthidOk(n: Node, a: Authid, known: Known)
    requires TreeOk(n, known)
    ensures TreeOk(DeleteAuthid(n, a), known)
    decreases n
  {
    hide CleanComponent, MapOk, CleanName;
    forall c | c in n.children ensures TreeOk(DeleteAuthid(n.children[c], a), known) {
      DeleteAuthidOk(n.children[c], a, known);
    }
  }

  lemma ApplyOk(n: Node, op: Op, known: Known)
    requires TreeOk(n, known) && OpOk(op, known)
    ensures TreeOk(Apply(n, op), known)
  {
    hide TreeOk, SplitAclPath;
    match op
    case AddUser(path, a, role, propagate) => InsertUserOk(n, SplitAclPath(path), a, role, propagate, known);
    case AddGroup(path, g, role, propagate) => InsertGroupOk(n, SplitAclPath(path), g, role, propagate, known);
    case DropUser(path, a, role) => DeleteUserOk(n, SplitAclPath(path), a, role, known);
    case DropGroup(path, g, role) => DeleteGroupOk(n, SplitAclPath(path), g, role, known);
    case DropNode(path) => DeleteNodeOk(n, SplitAclPath(path), known);
    case DropAuthid(a) => DeleteAuthidOk(n, a, known);
  }

  /** Every tree that the operations can build is in order. */
  lemma {:induction false} BuildOk(ops: seq<Op>, known: Known)
    requires forall i :: 0 <= i < |ops| ==> OpOk(ops[i], known)
    ensures TreeOk(Build(ops), known)
    decreases |ops|
  {
    hide TreeOk, OpOk, Apply;
    if ops == [] {
      EmptyOk(known);
    } else {
      BuildOk(ops[..|ops| - 1], known);
      ApplyOk(Build(ops[..|ops| - 1]), ops[|ops| - 1], known);
    }
  }

  // ----- the roles in effect

  /** The roles of an id on one node: on an inner node only the propagating ones. `NoAccess` stands
      alone. Groups have no members, so they add nothing. */
  function Extract(m: RoleMap, leaf: bool): RoleMap
  {
    if NO_ACCESS in m && (m[NO_ACCESS] || leaf) then map[NO_ACCESS := false]
    else map r | r in m && (m[r] || leaf) :: m[r]
  }

  function ExtractRoles(n: Node, a: Authid, leaf: bool): RoleMap
  {
    Extract(UserRoles(n, a), leaf)
  }

  /** The loop over the roles, in any order. */
  method ExtractLoop(m: RoleMap, leaf: bool) returns (r: RoleMap)
    ensures r == Extract(m, leaf)
  {
    r := map[];
    var todo := m.Keys;
    while todo != {}
      invariant todo <= m.Keys
      invariant r == map x | x in m && x !in todo && (m[x] || leaf) :: m[x]
      invariant NO_ACCESS in m && (m[NO_ACCESS] || leaf) ==> NO_ACCESS in todo
      decreases |todo|
    {
      var role :| role in todo;
      todo := todo - {role};
      if m[role] || leaf {
        if role == NO_ACCESS {
          return map[role := false];
        }
        r := r[role := m[role]];
      }
    }
  }

  function Override(acc: RoleMap, m: RoleMap): RoleMap
  {
    if m == map[] then acc else m
  }

  /** Walks down; a map found further down replaces what was found above. */
  function Walk(n: Node, a: Authid, comps: seq<string>, acc: RoleMap): RoleMap
    decreases |comps|
  {
    if comps == [] || comps[0] !in n.children then acc
    else
      var child := n.children[comps[0]];
      Walk(child, a, comps[1..], Override(acc, ExtractRoles(child, a, |comps| == 1)))
  }

  /** The roles of an id on the path with the given components. */
  function Roles(root: Node, a: Authid, comps: seq<string>): RoleMap
  {
    Walk(root, a, comps, ExtractRoles(root, a, comps == []))
  }

  lemma {:induction false} FlattenNonempty(path: seq<string>)
    requires path != []
    ensures Flatten(path) != []
  {
  }

  /** The nested loops over parts and their components compute the roles on the flattened path. */
  method RolesLoop(root: Node, a: Authid, path: seq<string>) returns (roleMap: RoleMap)
    ensures roleMap == Roles(root, a, Flatten(path))
  {
    hide ExtractRoles, Split.Split;
    if path != [] { FlattenNonempty(path); }
    var node := root;
    roleMap := ExtractRoles(node, a, path == []);
    for i := 0 to |path|
      invariant Walk(node, a, Flatten(path[i..]), roleMap) == Roles(root, a, Flatten(path))
    {
      var subs := Split.Split(path[i], '/');
      assert path[i..][1..] == path[i + 1..];
      ghost var rest := Flatten(path[i + 1..]);
      if i + 1 < |path| { FlattenNonempty(path[i + 1..]); }
      for j := 0 to |subs|
        invariant Walk(node, a, subs[j..] + rest, roleMap) == Roles(root, a, Flatten(path))
      {
        var last := i == |path| - 1 && j == |subs| - 1;
        ghost var comps := subs[j..] + rest;
        assert comps[1..] == subs[j + 1..] + rest;
        if subs[j] !in node.children { return; }
        node := node.children[subs[j]];
        var newMap := ExtractRoles(node, a, last);
        if newMap != map[] { roleMap := newMap; }
      }
      assert subs[|subs|..] + rest == rest;
    }
  }

  // ----- roles depend only on the role maps along the path

  /** The role map of an id on a path; empty where there is no node. */
  function MapAt(root: Node, comps: seq<string>, a: Authid): RoleMap
  {
    match NodeAt(root, comps) case None => map[] case Some(n) => UserRoles(n, a)
  }

  /** A role of a map is in effect: on the end of the path every one is, above it only the propagating ones. */
  predicate Applies(m: RoleMap, leaf: bool, r: Role)
  {
    r in m && (leaf || m[r])
  }

  /** The same for the node at the first `k` components of a path. */
  predicate AppliesAt(root: Node, a: Authid, comps: seq<string>, k: nat, r: Role)
    requires k <= |comps|
  {
    Applies(MapAt(root, comps[..k], a), k == |comps|, r)
  }

  /** That node has roles in effect, and no node further down has. */
  ghost predicate Nearest(root: Node, a: Authid, comps: seq<string>, k: nat)
  {
    && k <= |comps| && (exists r :: AppliesAt(root, a, comps, k, r))
    && (forall j, r :: k < j <= |comps| ==> !AppliesAt(root, a, comps, j, r))
  }

  lemma ExtractMeans(m: RoleMap, leaf: bool)
    ensures forall r :: r in Extract(m, leaf) <==>
                          Applies(m, leaf, r) && (Applies(m, leaf, NO_ACCESS) ==> r == NO_ACCESS)
    ensures forall r :: r in Extract(m, leaf) ==> (Extract(m, leaf)[r] <==> m[r] && r != NO_ACCESS)
    ensures Extract(m, leaf) != map[] <==> exists r :: Applies(m, leaf, r)
  {
    if r :| Applies(m, leaf, r) {
      var x := if Applies(m, leaf, NO_ACCESS) then NO_ACCESS else r;
      assert x in Extract(m, leaf);
    }
    if Extract(m, leaf) != map[] {
      var r :| r in Extract(m, leaf);
      assert Applies(m, leaf, r);
    }
  }

  /** Walking down ends with the last roles in effect that it met, or with what it began with. */
  lemma {:induction false} WalkNearest(n: Node, a: Authid, comps: seq<string>, acc: RoleMap) returns (k: nat)
    ensures k <= |comps|
    ensures forall j :: k < j <= |comps| ==> Extract(MapAt(n, comps[..j], a), j == |comps|) == map[]
    ensures k == 0 ==> Walk(n, a, comps, acc) == acc
    ensures k > 0 ==> Walk(n, a, comps, acc) == Extract(MapAt(n, comps[..k], a), k == |comps|) != map[]
    decreases |comps|
  {
    hide Extract;
    NothingIn(true);
    NothingIn(false);
    if comps == [] || comps[0] !in n.children {
      k := 0;
    } else {
      var child := n.children[comps[0]];
      var here := ExtractRoles(child, a, |comps| == 1);
      var i := WalkNearest(child, a, comps[1..], Override(acc, here));
      assert comps[..1] == [comps[0]] && [comps[0]][1..] == [] && NodeAt(child, []) == Some(child);
      assert MapAt(n, comps[..1], a) == UserRoles(child, a);
      forall j | 1 < j <= |comps| ensures MapAt(n, comps[..j], a) == MapAt(child, comps[1..][..j - 1], a) {
        assert comps[..j][1..] == comps[1..][..j - 1];
      }
      k := if i > 0 then i + 1 else if here != map[] then 1 else 0;
    }
  }

  lemma NothingIn(leaf: bool)
    ensures Extract(map[], leaf) == map[]
  {
  }

  /** What is extracted on the first `k` components of a path. */
  function ExtractAt(root: Node, a: Authid, comps: seq<string>, k: nat): RoleMap
    requires k <= |comps|
  {
    Extract(MapAt(root, comps[..k], a), k == |comps|)
  }

  lemma EffectAt(root: Node, a: Authid, comps: seq<string>, k: nat)
    requires k <= |comps|
    ensures ExtractAt(root, a, comps, k) != map[] <==> exists r :: AppliesAt(root, a, comps, k, r)
  {
    hide Applies, MapAt, Extract;
    var m, leaf := MapAt(root, comps[..k], a), k == |comps|;
    ExtractMeans(m, leaf);
    if r :| Applies(m, leaf, r) { assert AppliesAt(root, a, comps, k, r); }
  }

  lemma RolesStop(root: Node, a: Authid, comps: seq<string>) returns (k: nat)
    ensures k <= |comps| && Roles(root, a, comps) == ExtractAt(root, a, comps, k)
    ensures forall j: nat :: k < j <= |comps| ==> ExtractAt(root, a, comps, j) == map[]
    ensures k > 0 ==> ExtractAt(root, a, comps, k) != map[]
  {
    hide Extract, Walk, MapAt;
    k := WalkNearest(root, a, comps, ExtractRoles(root, a, comps == []));
    assert comps[..0] == [];
    RootMap(root, a);
  }

  lemma NearestIs(root: Node, a: Authid, comps: seq<string>, k: nat, i: nat)
    requires k <= |comps| && (k > 0 ==> ExtractAt(root, a, comps, k) != map[])
    requires forall j: nat :: k < j <= |comps| ==> ExtractAt(root, a, comps, j) == map[]
    ensures Nearest(root, a, comps, i) <==> i == k && ExtractAt(root, a, comps, k) != map[]
  {
    hide ExtractAt, AppliesAt;
    EffectAt(root, a, comps, k);
    forall j: nat, r | k < j <= |comps| ensures !AppliesAt(root, a, comps, j, r) {
      EffectAt(root, a, comps, j);
    }
  }

  /** The roles on a path are those of the deepest node on it that has roles in effect for the id; without such a
      node there are none. */
  lemma RolesAreNearest(root: Node, a: Authid, comps: seq<string>) returns (k: nat)
    ensures k <= |comps| && Roles(root, a, comps) == ExtractAt(root, a, comps, k)
    ensures forall i: nat :: Nearest(root, a, comps, i) <==> i == k && Roles(root, a, comps) != map[]
  {
    hide ExtractAt, AppliesAt, Roles, Nearest;
    k := RolesStop(root, a, comps);
    forall i: nat ensures Nearest(root, a, comps, i) <==> i == k && Roles(root, a, comps) != map[] {
      NearestIs(root, a, comps, k, i);
    }
  }

  lemma RootMap(root: Node, a: Authid)
    ensures MapAt(root, [], a) == UserRoles(root, a)
  {
  }

  /** Trees that agree on the id's role maps along a path agree on its roles there. */
  lemma {:induction false} SameMapsSameRoles(r1: Node, r2: Node, a: Authid, comps: seq<string>)
    requires forall k :: 0 <= k <= |comps| ==> MapAt(r1, comps[..k], a) == MapAt(r2, comps[..k], a)
    ensures Roles(r1, a, comps) == Roles(r2, a, comps)
  {
    assert comps[..0] == [];
    assert MapAt(r1, [], a) == MapAt(r2, [], a);
    WalkSame(Some(r1), Some(r2), a, comps, ExtractRoles(r1, a, comps == []));
  }

  /** The walk, started below a node that may be missing. */
  function WalkOpt(n: Option<Node>, a: Authid, comps: seq<string>, acc: RoleMap): RoleMap
  {
    if n.None? then acc else Walk(n.value, a, comps, acc)
  }

  function Child(n: Option<Node>, name: string): Option<Node>
  {
    if n.Some? && name in n.value.children then Some(n.value.children[name]) else None
  }

  function MapOpt(n: Option<Node>, comps: seq<string>, a: Authid): RoleMap
  {
    if n.None? then map[] else MapAt(n.value, comps, a)
  }

  lemma {:induction false} WalkSame(n1: Option<Node>, n2: Option<Node>, a: Authid, comps: seq<string>, acc: RoleMap)
    requires forall k :: 1 <= k <= |comps| ==> MapOpt(n1, comps[..k], a) == MapOpt(n2, comps[..k], a)
    ensures WalkOpt(n1, a, comps, acc) == WalkOpt(n2, a, comps, acc)
    decreases |comps|
  {
    hide Extract;
    if comps != [] {
      var c1, c2 := Child(n1, comps[0]), Child(n2, comps[0]);
      assert comps[..1] == [comps[0]] && comps[..1][1..] == [];
      assert MapOpt(c1, [], a) == MapOpt(n1, comps[..1], a) && MapOpt(c2, [], a) == MapOpt(n2, comps[..1], a);
      var acc' := Override(acc, Extract(MapOpt(c1, [], a), |comps| == 1));
      forall k | 1 <= k <= |comps[1..]| ensures MapOpt(c1, comps[1..][..k], a) == MapOpt(c2, comps[1..][..k], a) {
        assert comps[..k + 1][1..] == comps[1..][..k] && comps[..k + 1][0] == comps[0];
        assert MapOpt(n1, comps[..k + 1], a) == MapOpt(n2, comps[..k + 1], a);
      }
      WalkSame(c1, c2, a, comps[1..], acc');
      WalkChild(n1, a, comps, acc);
      WalkChild(n2, a, comps, acc);
    }
  }

  lemma WalkChild(n: Option<Node>, a: Authid, comps: seq<string>, acc: RoleMap)
    requires comps != []
    ensures var c := Child(n, comps[0]);
            WalkOpt(n, a, comps, acc)
              == WalkOpt(c, a, comps[1..], Override(acc, Extract(MapOpt(c, [], a), |comps| == 1)))
  {
    if Child(n, comps[0]).None? {
      assert Extract(map[], |comps| == 1) == map[];
    }
  }
}
