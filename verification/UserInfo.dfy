/** Privileges of users and tokens on paths, and the query whether an id has any of some privileges
    below a path. */
module UserInfo {
  import opened Bytes
  import opened AclTree
  import AclConfig
  import Split

  /** A `u64` of privilege bits, as the set of its bits. */
  type Privs = set<nat>

  /** The tree, the privileges of the known roles, and those of the superuser. */
  datatype Info = Info(tree: Node, roles: map<Role, Privs>, admin: Privs)

  function PrivsOfRole(info: Info, r: Role): Privs
  {
    if r in info.roles then info.roles[r] else {}
  }

  function Collected(info: Info, roles: set<Role>): Privs
  {
    set r, b | r in roles && b in PrivsOfRole(info, r) :: b
  }

  /** The propagating roles, without those of a given set. */
  function Flags(m: RoleMap, without: set<Role>): set<Role>
  {
    set r | r in m && r !in without && m[r]
  }

  /** The privileges of a role map; with `propagated` only those of its propagating roles. */
  function PrivsOf(info: Info, m: RoleMap, propagated: bool): Privs
  {
    Collected(info, if propagated then Flags(m, {}) else m.Keys)
  }

  lemma CollectOne(info: Info, roles: set<Role>, r: Role)
    ensures Collected(info, roles + {r}) == Collected(info, roles) + PrivsOfRole(info, r)
  {
    forall b | b in PrivsOfRole(info, r) ensures b in Collected(info, roles + {r}) {
      assert r in roles + {r};
    }
    forall b | b in Collected(info, roles) ensures b in Collected(info, roles + {r}) {
      var x :| x in roles && b in PrivsOfRole(info, x);
      assert x in roles + {r};
    }
  }

  /** The loop that collects privileges, in any order of the roles. */
  method CollectPrivs(info: Info, m: RoleMap) returns (privs: Privs, propagated: Privs)
    ensures privs == PrivsOf(info, m, false) && propagated == PrivsOf(info, m, true)
  {
    hide Collected, Flags;
    privs, propagated := {}, {};
    var todo := m.Keys;
    CollectNone(info, m);
    while todo != {}
      invariant todo <= m.Keys
      invariant privs == Collected(info, m.Keys - todo) && propagated == Collected(info, Flags(m, todo))
      decreases |todo|
    {
      var role :| role in todo;
      CollectStep(info, m, todo, role);
      todo := todo - {role};
      if role in info.roles {
        if m[role] { propagated := propagated + info.roles[role]; }
        privs := privs + info.roles[role];
      }
    }
    assert m.Keys - {} == m.Keys;
  }

  lemma CollectStep(info: Info, m: RoleMap, todo: set<Role>, role: Role)
    requires role in todo && todo <= m.Keys
    ensures Collected(info, m.Keys - (todo - {role})) == Collected(info, m.Keys - todo) + PrivsOfRole(info, role)
    ensures Collected(info, Flags(m, todo - {role}))
         == Collected(info, Flags(m, todo)) + if m[role] then PrivsOfRole(info, role) else {}
  {
    hide Collected, PrivsOfRole;
    assert m.Keys - (todo - {role}) == m.Keys - todo + {role};
    CollectOne(info, m.Keys - todo, role);
    if m[role] {
      assert Flags(m, todo - {role}) == Flags(m, todo) + {role};
      CollectOne(info, Flags(m, todo), role);
    } else {
      assert Flags(m, todo - {role}) == Flags(m, todo);
    }
  }

  lemma CollectNone(info: Info, m: RoleMap)
    ensures Collected(info, m.Keys - m.Keys) == {} == Collected(info, Flags(m, m.Keys))
  {
  }

  function Owner(a: Authid): Authid
  {
    Authid(a.user, None)
  }

  /** Privileges on a path and the part that propagates; a token has no more than its owner. */
  function LookupDetails(info: Info, a: Authid, comps: seq<string>): (Privs, Privs)
    decreases if a.token.Some? then 1 else 0
  {
    if IsRoot(a) then (info.admin, info.admin) else
    var m := Roles(info.tree, a, comps);
    var privs, propagated := PrivsOf(info, m, false), PrivsOf(info, m, true);
    if a.token.Some? then
      var owner := LookupDetails(info, Owner(a), comps);
      (privs * owner.0, propagated * owner.1)
    else (privs, propagated)
  }

  function LookupPrivs(info: Info, a: Authid, comps: seq<string>): Privs
  {
    LookupDetails(info, a, comps).0
  }

  // ----- what having a privilege means

  /** A role gives the id the privilege on the path: it is in effect on the deepest node on the path that has
      roles in effect for the id. `NoAccess` in effect drives out the other roles there. A privilege propagates
      if its role does. */
  ghost predicate Grants(info: Info, a: Authid, comps: seq<string>, b: nat, propagated: bool)
  {
    exists k, r :: Nearest(info.tree, a, comps, k) && GrantsAt(info, a, comps, k, r, b, propagated)
  }

  ghost predicate GrantsAt(info: Info, a: Authid, comps: seq<string>, k: nat, r: Role, b: nat, propagated: bool)
  {
    && k <= |comps| && r in info.roles && b in info.roles[r]
    && var m := MapAt(info.tree, comps[..k], a);
       && Applies(m, k == |comps|, r)
       && (Applies(m, k == |comps|, NO_ACCESS) ==> r == NO_ACCESS)
       && (propagated ==> m[r] && r != NO_ACCESS)
  }

  lemma RolesGrant(info: Info, a: Authid, comps: seq<string>, b: nat, propagated: bool)
    ensures b in PrivsOf(info, Roles(info.tree, a, comps), propagated) <==> Grants(info, a, comps, b, propagated)
  {
    hide Roles, Nearest, Extract, MapAt, Applies, GrantsAt;
    var roles := Roles(info.tree, a, comps);
    var k := RolesAreNearest(info.tree, a, comps);
    if b in PrivsOf(info, roles, propagated) {
      var r :| r in roles && (propagated ==> roles[r]) && b in PrivsOfRole(info, r);
      RoleGrants(info, a, comps, k, r, b, propagated);
    }
    if i, r :| Nearest(info.tree, a, comps, i) && GrantsAt(info, a, comps, i, r, b, propagated) {
      RoleGrants(info, a, comps, k, r, b, propagated);
    }
  }

  lemma RoleGrants(info: Info, a: Authid, comps: seq<string>, k: nat, r: Role, b: nat, propagated: bool)
    requires k <= |comps|
    ensures var m := ExtractAt(info.tree, a, comps, k);
            GrantsAt(info, a, comps, k, r, b, propagated)
            <==> r in m && (propagated ==> m[r]) && b in PrivsOfRole(info, r)
  {
    hide Extract, MapAt, Applies;
    ExtractMeans(MapAt(info.tree, comps[..k], a), k == |comps|);
  }

  /** The privileges of an id on a path, in terms of the role maps in the tree: the superuser has those of the
      administrator, everybody else what a role grants, and a token only what its owner has as well. A token
      of the superuser is not the superuser. */
  lemma LookupMeans(info: Info, a: Authid, comps: seq<string>, b: nat)
    ensures var (privs, propagated) := LookupDetails(info, a, comps);
            if a == Authid("root@pam", None) then (b in privs <==> b in info.admin) && (b in propagated <==> b in privs)
            else
              var owner := LookupDetails(info, Authid(a.user, None), comps);
              && (b in privs <==> Grants(info, a, comps, b, false) && (a.token.Some? ==> b in owner.0))
              && (b in propagated <==> Grants(info, a, comps, b, true) && (a.token.Some? ==> b in owner.1))
  {
    hide Grants, PrivsOf, Roles;
    RolesGrant(info, a, comps, b, false);
    RolesGrant(info, a, comps, b, true);
  }

  /** The textual paths of all nodes below on which the id has a role of its own. */
  function ChildPaths(n: Node, path: string, a: Authid): set<string>
    decreases n
  {
    (set c | c in n.children && ExtractRoles(n.children[c], a, true) != map[] :: path + "/" + c)
    + (set c, p | c in n.children && p in ChildPaths(n.children[c], path + "/" + c, a) :: p)
  }

  /** The paths that the query looks at below its anchor. */
  function Candidates(info: Info, a: Authid, path: seq<string>): set<string>
  {
    match NodeAt(info.tree, Flatten(path))
    case None => {}
    case Some(n) => ChildPaths(n, Split.Join(path, '/'), a)
  }

  ghost predicate AnyPrivsBelow(info: Info, a: Authid, path: seq<string>, wanted: Privs)
  {
    || LookupDetails(info, a, Flatten(path)).1 * wanted != {}
    || exists p :: p in Candidates(info, a, path) && LookupPrivs(info, a, Flatten([p])) * wanted != {}
  }

  /** The query with its shortcut at the anchor and its early return. */
  method QueryBelow(info: Info, a: Authid, path: seq<string>, wanted: Privs) returns (r: bool)
    ensures r <==> AnyPrivsBelow(info, a, path, wanted)
  {
    hide LookupDetails, Candidates, Flatten;
    if LookupDetails(info, a, Flatten(path)).1 * wanted != {} { return true; }
    var todo := Candidates(info, a, path);
    while todo != {}
      invariant todo <= Candidates(info, a, path)
      invariant forall p :: p in Candidates(info, a, path) && p !in todo ==>
                  LookupPrivs(info, a, Flatten([p])) * wanted == {}
      decreases |todo|
    {
      var p :| p in todo;
      assert LookupPrivs(info, a, Flatten([p])) * wanted == wanted * LookupPrivs(info, a, Flatten([p]));
      if wanted * LookupPrivs(info, a, Flatten([p])) != {} { return true; }
      todo := todo - {p};
    }
    return false;
  }

  /** What the query is about: the id has one of the privileges on some path strictly below. */
  ghost predicate HasBelow(info: Info, a: Authid, comps: seq<string>, wanted: Privs)
  {
    exists ext :: ext != [] && LookupPrivs(info, a, comps + ext) * wanted != {}
  }

  // ----- paths as text

  lemma {:induction false} SplitJoinIsFlatten(path: seq<string>)
    requires path != []
    ensures Split.Split(Split.Join(path, '/'), '/') == Flatten(path)
    decreases |path|
  {
    hide Split.Split;
    if |path| == 1 {
      assert path[1..] == [];
    } else {
      SplitJoinIsFlatten(path[1..]);
      Split.SplitAppend(path[0], Split.Join(path[1..], '/'), '/');
    }
  }

  /** A path given as one text below the anchor's text, split again. */
  lemma FlattenBelow(path: seq<string>, rest: string)
    requires path != []
    ensures Flatten([Split.Join(path, '/') + "/" + rest]) == Flatten(path) + Split.Split(rest, '/')
  {
    hide Split.Split, Split.Join;
    var p := Split.Join(path, '/') + "/" + rest;
    assert [p][1..] == [];
    Split.SplitAppend(Split.Join(path, '/'), rest, '/');
    SplitJoinIsFlatten(path);
  }

  /** Every candidate is the anchor's path, a slash, and the way to a node below with roles of the id. */
  lemma {:induction false} ListedIsNode(n: Node, path: string, a: Authid, p: string) returns (ext: seq<string>)
    requires p in ChildPaths(n, path, a)
    ensures ext != [] && p == path + "/" + Split.Join(ext, '/')
    ensures NodeAt(n, ext).Some? && Extract(MapAt(n, ext, a), true) != map[]
    decreases n
  {
    hide Extract;
    if c :| c in n.children && ExtractRoles(n.children[c], a, true) != map[] && p == path + "/" + c {
      ext := [c];
      assert ext[1..] == [] && NodeAt(n.children[c], ext[1..]) == Some(n.children[c]);
    } else {
      var c :| c in n.children && p in ChildPaths(n.children[c], path + "/" + c, a);
      var r := ListedIsNode(n.children[c], path + "/" + c, a, p);
      ext := [c] + r;
      assert ext[1..] == r;
      Regroup(path, c, Split.Join(r, '/'));
    }
  }

  lemma Regroup(s: string, c: string, r: string)
    ensures (s + "/" + c) + "/" + r == s + "/" + (c + "/" + r)
  {
  }

  // ----- what reaches below a path

  /** The roles that reach what lies below a path. */
  function Inherit(n: Node, a: Authid, comps: seq<string>, acc: RoleMap): RoleMap
    decreases |comps|
  {
    if comps == [] || comps[0] !in n.children then acc
    else Inherit(n.children[comps[0]], a, comps[1..], Override(acc, ExtractRoles(n.children[comps[0]], a, false)))
  }

  function Inherited(root: Node, a: Authid, comps: seq<string>): RoleMap
  {
    Inherit(root, a, comps, ExtractRoles(root, a, false))
  }

  /** The privileges that reach what lies below a path. */
  function BelowPrivs(info: Info, a: Authid, comps: seq<string>): Privs
    decreases if a.token.Some? then 1 else 0
  {
    if IsRoot(a) then info.admin else
    var privs := PrivsOf(info, Inherited(info.tree, a, comps), false);
    if a.token.Some? then privs * BelowPrivs(info, Owner(a), comps) else privs
  }

  /** One component further: roles of the node there replace the inherited ones, on the path itself all
      of them, for what lies below only the propagating ones. */
  lemma {:induction false} WalkSnoc(n: Node, a: Authid, comps: seq<string>, c: string, acc: RoleMap)
    ensures var m := MapAt(n, comps + [c], a);
            && Walk(n, a, comps + [c], acc) == Override(Inherit(n, a, comps, acc), Extract(m, true))
            && Inherit(n, a, comps + [c], acc) == Override(Inherit(n, a, comps, acc), Extract(m, false))
    decreases |comps|
  {
    hide Extract;
    NothingExtracted();
    if comps == [] {
      assert comps + [c] == [c];
      if c in n.children { OneStep(n, a, [c], acc); }
    } else {
      assert (comps + [c])[1..] == comps[1..] + [c];
      if comps[0] in n.children {
        WalkSnoc(n.children[comps[0]], a, comps[1..], c, Override(acc, ExtractRoles(n.children[comps[0]], a, false)));
      }
    }
  }

  lemma NothingExtracted()
    ensures Extract(map[], true) == map[] == Extract(map[], false)
  {
  }

  lemma OneStep(n: Node, a: Authid, comps: seq<string>, acc: RoleMap)
    requires |comps| == 1 && comps[0] in n.children
    ensures var m := UserRoles(n.children[comps[0]], a);
            && MapAt(n, comps, a) == m
            && Walk(n, a, comps, acc) == Override(acc, Extract(m, true))
            && Inherit(n, a, comps, acc) == Override(acc, Extract(m, false))
  {
    hide Extract;
    var child := n.children[comps[0]];
    assert comps[1..] == [];
    assert NodeAt(child, comps[1..]) == Some(child);
  }

  /** The roles on a path and those that reach below it, from those that reach below its parent. */
  lemma RolesSnoc(root: Node, a: Authid, comps: seq<string>, c: string)
    ensures var m := MapAt(root, comps + [c], a);
            && Roles(root, a, comps + [c]) == Override(Inherited(root, a, comps), Extract(m, true))
            && Inherited(root, a, comps + [c]) == Override(Inherited(root, a, comps), Extract(m, false))
  {
    WalkSnoc(root, a, comps, c, ExtractRoles(root, a, false));
  }

  // ----- a path below on which nothing is configured

  ghost predicate AllShort(names: set<string>, bound: nat)
  {
    forall x :: x in names ==> |x| <= bound
  }

  lemma {:induction false} BoundExists(names: set<string>) returns (bound: nat)
    ensures AllShort(names, bound)
    decreases |names|
  {
    if names == {} {
      bound := 0;
    } else {
      var x :| x in names;
      var b := BoundExists(names - {x});
      bound := if |x| > b then |x| else b;
      assert forall y :: y in names ==> y == x || y in names - {x};
    }
  }

  /** A name that leads out of the tree. */
  lemma FreshName(root: Node, comps: seq<string>) returns (name: string)
    ensures NodeAt(root, comps).Some? ==> name !in NodeAt(root, comps).value.children
  {
    name := "x";
    if NodeAt(root, comps).Some? {
      var b := BoundExists(NodeAt(root, comps).value.children.Keys);
      name := seq(b + 1, _ => 'x');
    }
  }

  lemma {:induction false} NodeAtAppend(n: Node, comps: seq<string>, ext: seq<string>)
    ensures NodeAt(n, comps + ext)
            == match NodeAt(n, comps) case None => None case Some(m) => NodeAt(m, ext)
    decreases |comps|
  {
    if comps == [] {
      assert comps + ext == ext;
    } else {
      assert (comps + ext)[1..] == comps[1..] + ext;
      if comps[0] in n.children { NodeAtAppend(n.children[comps[0]], comps[1..], ext); }
    }
  }

  /** On a path below that leads out of the tree, the privileges are the inherited ones. */
  lemma PrivsOut(info: Info, a: Authid, comps: seq<string>, name: string)
    requires NodeAt(info.tree, comps).Some? ==> name !in NodeAt(info.tree, comps).value.children
    ensures LookupPrivs(info, a, comps + [name]) == BelowPrivs(info, a, comps)
    decreases if a.token.Some? then 1 else 0
  {
    hide PrivsOf, Roles, Inherited, Extract;
    NodeAtAppend(info.tree, comps, [name]);
    RolesSnoc(info.tree, a, comps, name);
    NothingExtracted();
    if a.token.Some? { PrivsOut(info, Owner(a), comps, name); }
  }

  // ----- soundness

  /** A propagating role that is in effect on a path reaches what lies below. */
  lemma {:induction false} PropagatingReaches(n: Node, a: Authid, comps: seq<string>, acc: RoleMap, r: Role)
    requires comps != [] && r in Walk(n, a, comps, acc) && Walk(n, a, comps, acc)[r]
    ensures r in Inherit(n, a, comps, acc)
    decreases |comps|
  {
    hide Extract;
    if comps[0] in n.children {
      var child := n.children[comps[0]];
      if |comps| == 1 {
        assert comps[1..] == [];
        LeafPropagates(UserRoles(child, a), acc, r);
      } else {
        PropagatingReaches(child, a, comps[1..], Override(acc, ExtractRoles(child, a, false)), r);
      }
    }
  }

  lemma LeafPropagates(m: RoleMap, acc: RoleMap, r: Role)
    requires r in Override(acc, Extract(m, true)) && Override(acc, Extract(m, true))[r]
    ensures r in Override(acc, Extract(m, false))
  {
    if m == map[] {
      assert Extract(m, false) == map[] == Extract(m, true);
    } else {
      SomeIsExtracted(m);
      assert r in Extract(m, false);
    }
  }

  lemma SomeIsExtracted(m: RoleMap)
    requires m != map[]
    ensures Extract(m, true) != map[]
  {
    if NO_ACCESS in m {
      assert NO_ACCESS in Extract(m, true);
    } else {
      var x :| x in m;
      assert x in Extract(m, true);
    }
  }

  /** What propagates on a path reaches what lies below. */
  lemma PropagatedReaches(info: Info, a: Authid, comps: seq<string>)
    requires comps != []
    ensures LookupDetails(info, a, comps).1 <= BelowPrivs(info, a, comps)
    decreases if a.token.Some? then 1 else 0
  {
    hide Walk, Inherit;
    if !IsRoot(a) {
      var m := Roles(info.tree, a, comps);
      forall r | r in m && m[r] ensures r in Inherited(info.tree, a, comps) {
        PropagatingReaches(info.tree, a, comps, ExtractRoles(info.tree, a, false), r);
      }
      CollectMore(info, m, true, Inherited(info.tree, a, comps), false);
      if a.token.Some? { PropagatedReaches(info, Owner(a), comps); }
    }
  }

  lemma CollectMore(info: Info, m: RoleMap, p: bool, m': RoleMap, p': bool)
    requires forall r :: r in m && (p ==> m[r]) && PrivsOfRole(info, r) != {} ==> r in m' && (p' ==> m'[r])
    ensures PrivsOf(info, m, p) <= PrivsOf(info, m', p')
  {
  }

  /** Soundness, for users and for tokens: if the query says yes, there is such a path below. */
  lemma QueryIsSound(info: Info, a: Authid, path: seq<string>, wanted: Privs)
    requires path != [] && AnyPrivsBelow(info, a, path, wanted)
    ensures HasBelow(info, a, Flatten(path), wanted)
  {
    hide LookupDetails, Flatten, Split.Split, ChildPaths;
    var comps := Flatten(path);
    if LookupDetails(info, a, comps).1 * wanted != {} {
      FlattenNonempty(path);
      PropagatedReaches(info, a, comps);
      InheritedIsBelow(info, a, comps, wanted);
    } else {
      var p :| p in Candidates(info, a, path) && LookupPrivs(info, a, Flatten([p])) * wanted != {};
      var ext := ListedIsNode(NodeAt(info.tree, comps).value, Split.Join(path, '/'), a, p);
      FlattenBelow(path, Split.Join(ext, '/'));
    }
  }

  lemma InheritedIsBelow(info: Info, a: Authid, comps: seq<string>, wanted: Privs)
    requires BelowPrivs(info, a, comps) * wanted != {}
    ensures HasBelow(info, a, comps, wanted)
  {
    hide LookupDetails, BelowPrivs;
    var name := FreshName(info.tree, comps);
    PrivsOut(info, a, comps, name);
    assert [name] != [];
  }

  // ----- completeness

  /** The id has roles of its own here, and none of them propagates. */
  predicate Hides(m: RoleMap)
  {
    Extract(m, true) != map[] && Extract(m, false) == map[]
  }

  /** On the anchor, roles of the id or of its owner end there. */
  predicate Hidden(info: Info, a: Authid, comps: seq<string>)
    decreases if a.token.Some? then 1 else 0
  {
    !IsRoot(a) && (Hides(MapAt(info.tree, comps, a)) || (a.token.Some? && Hidden(info, Owner(a), comps)))
  }

  /** What is inherited on an inner node propagates, except for `NoAccess`. */
  ghost predicate Flagged(m: RoleMap)
  {
    forall r :: r in m && r != NO_ACCESS ==> m[r]
  }

  lemma {:induction false} ReachingPropagates(n: Node, a: Authid, comps: seq<string>, acc: RoleMap, known: Known,
      r: Role)
    requires TreeOk(n, known) && Flagged(acc) && comps != [] && !Hides(MapAt(n, comps, a))
    requires r in Inherit(n, a, comps, acc) && r != NO_ACCESS
    ensures r in Walk(n, a, comps, acc) && Walk(n, a, comps, acc)[r]
    decreases |comps|
  {
    hide Extract, CleanComponent, CleanName;
    if comps[0] in n.children {
      var child := n.children[comps[0]];
      var m := UserRoles(child, a);
      ExtractFlagged(m);
      if |comps| == 1 {
        OneStep(n, a, comps, acc);
        LeafKeeps(m, known, r);
      } else {
        ReachingPropagates(child, a, comps[1..], Override(acc, ExtractRoles(child, a, false)), known, r);
      }
    }
  }

  lemma ExtractFlagged(m: RoleMap)
    ensures Flagged(Extract(m, false))
  {
  }

  lemma LeafKeeps(m: RoleMap, known: Known, r: Role)
    requires MapOk(m, known)
    ensures r in Extract(m, false) && r != NO_ACCESS ==> r in Extract(m, true) && Extract(m, true)[r]
    ensures Extract(m, false) != map[] ==> Extract(m, true) != map[]
  {
    if m == map[] {
      assert Extract(m, false) == map[];
    } else {
      SomeIsExtracted(m);
    }
  }

  /** Unless roles end on the anchor, what reaches below it propagates on it. */
  lemma ReachingIsPropagated(info: Info, a: Authid, comps: seq<string>, known: Known)
    requires comps != [] && TreeOk(info.tree, known) && PrivsOfRole(info, NO_ACCESS) == {} && !Hidden(info, a, comps)
    ensures BelowPrivs(info, a, comps) <= LookupDetails(info, a, comps).1
    decreases if a.token.Some? then 1 else 0
  {
    hide Walk, Inherit, TreeOk, Extract;
    if !IsRoot(a) {
      var m := Inherited(info.tree, a, comps);
      ExtractFlagged(UserRoles(info.tree, a));
      var here := Roles(info.tree, a, comps);
      forall r | r in m && r != NO_ACCESS ensures r in here && here[r] {
        ReachingPropagates(info.tree, a, comps, ExtractRoles(info.tree, a, false), known, r);
      }
      CollectMore(info, m, false, here, true);
      if a.token.Some? { ReachingIsPropagated(info, Owner(a), comps, known); }
    }
  }

  /** A node below with roles of the id is among the candidates. */
  lemma {:induction false} NodeIsListed(n: Node, path: string, a: Authid, ext: seq<string>)
    requires ext != [] && NodeAt(n, ext).Some? && Extract(MapAt(n, ext, a), true) != map[]
    ensures path + "/" + Split.Join(ext, '/') in ChildPaths(n, path, a)
    decreases |ext|
  {
    hide Extract;
    var c := ext[0];
    var child := n.children[c];
    if |ext| == 1 {
      assert ext[1..] == [];
    } else {
      NodeIsListed(child, path + "/" + c, a, ext[1..]);
      Regroup(path, c, Split.Join(ext[1..], '/'));
      assert Split.Join(ext, '/') == c + "/" + Split.Join(ext[1..], '/');
    }
  }

  /** The names on the way to a node hold no slash. */
  lemma {:induction false} NamesAreClean(n: Node, ext: seq<string>, known: Known)
    requires TreeOk(n, known) && NodeAt(n, ext).Some?
    ensures TreeOk(NodeAt(n, ext).value, known)
    ensures forall i :: 0 <= i < |ext| ==> '/' !in ext[i]
    decreases |ext|
  {
    hide CleanName, MapOk;
    if ext != [] {
      assert CleanComponent(ext[0]);
      NamesAreClean(n.children[ext[0]], ext[1..], known);
      assert forall i :: 1 <= i < |ext| ==> ext[i] == ext[1..][i - 1];
    }
  }

  lemma OwnMapOk(n: Node, a: Authid, known: Known)
    requires TreeOk(n, known)
    ensures MapOk(UserRoles(n, a), known)
  {
  }

  lemma LeafGivesMore(info: Info, m: RoleMap, leaf: bool, known: Known)
    requires MapOk(m, known) && PrivsOfRole(info, NO_ACCESS) == {} && Extract(m, leaf) != map[]
    ensures Extract(m, true) != map[]
    ensures PrivsOf(info, Extract(m, leaf), false) <= PrivsOf(info, Extract(m, true), false)
  {
    hide Extract, PrivsOf;
    if !leaf {
      forall r | r in Extract(m, false) && r != NO_ACCESS ensures r in Extract(m, true) { LeafKeeps(m, known, r); }
      LeafKeeps(m, known, NO_ACCESS);
      CollectMore(info, Extract(m, false), false, Extract(m, true), false);
    }
  }

  // ----- where the privileges below a path are found

  /** On the path is a node with roles of the id. */
  predicate HasRoles(tree: Node, a: Authid, comps: seq<string>)
  {
    NodeAt(tree, comps).Some? && Extract(MapAt(tree, comps, a), true) != map[]
  }

  /** On a node below with roles of the id, the id has one of the privileges. */
  ghost predicate OwnMeets(info: Info, a: Authid, comps: seq<string>, wanted: Privs)
  {
    exists up :: up != [] && HasRoles(info.tree, a, comps + up) && LookupPrivs(info, a, comps + up) * wanted != {}
  }

  /** The id is a token, and on a node below with roles of its owner, or below that node, it has one of
      the privileges. */
  ghost predicate OwnerMeets(info: Info, a: Authid, comps: seq<string>, wanted: Privs)
  {
    a.token.Some? && exists up :: up != [] && HasRoles(info.tree, Owner(a), comps + up)
                                  && Meets(info, a, comps + up, wanted)
  }

  predicate Meets(info: Info, a: Authid, comps: seq<string>, wanted: Privs)
  {
    LookupPrivs(info, a, comps) * wanted != {} || BelowPrivs(info, a, comps) * wanted != {}
  }

  ghost predicate Found(info: Info, a: Authid, comps: seq<string>, wanted: Privs)
  {
    BelowPrivs(info, a, comps) * wanted != {} || OwnMeets(info, a, comps, wanted) || OwnerMeets(info, a, comps, wanted)
  }

  /** Nothing changes on a path where neither the id nor its owner has roles. */
  lemma PlainStep(info: Info, a: Authid, comps: seq<string>, c: string)
    requires !HasRoles(info.tree, a, comps + [c]) && (a.token.Some? ==> !HasRoles(info.tree, Owner(a), comps + [c]))
    ensures LookupPrivs(info, a, comps + [c]) == BelowPrivs(info, a, comps + [c]) == BelowPrivs(info, a, comps)
    decreases if a.token.Some? then 1 else 0
  {
    hide PrivsOf, Roles, Inherited, Extract;
    RolesSnoc(info.tree, a, comps, c);
    NothingExtracted();
    NoneIsNone(MapAt(info.tree, comps + [c], a));
    if a.token.Some? { PlainStep(info, Owner(a), comps, c); }
  }

  lemma NoneIsNone(m: RoleMap)
    ensures Extract(m, true) == map[] ==> Extract(m, false) == map[]
  {
    if m == map[] {
      NothingExtracted();
    } else {
      SomeIsExtracted(m);
    }
  }

  /** Where only the id itself has roles, what reaches below is what it has there or what reached the
      node. */
  lemma OwnStep(info: Info, a: Authid, comps: seq<string>, c: string, known: Known)
    requires TreeOk(info.tree, known) && PrivsOfRole(info, NO_ACCESS) == {} && HasRoles(info.tree, a, comps + [c])
    requires a.token.Some? ==> !HasRoles(info.tree, Owner(a), comps + [c])
    ensures || BelowPrivs(info, a, comps + [c]) <= LookupPrivs(info, a, comps + [c])
            || BelowPrivs(info, a, comps + [c]) == BelowPrivs(info, a, comps)
  {
    hide PrivsOf, Roles, Inherited, Extract, TreeOk;
    var m := MapAt(info.tree, comps + [c], a);
    RolesSnoc(info.tree, a, comps, c);
    NodeOf(info.tree, comps + [c], a, known);
    if a.token.Some? { PlainStep(info, Owner(a), comps, c); }
    if Extract(m, false) != map[] { LeafGivesMore(info, m, false, known); }
  }

  lemma NodeOf(n: Node, comps: seq<string>, a: Authid, known: Known)
    requires TreeOk(n, known)
    ensures MapOk(MapAt(n, comps, a), known)
  {
    hide TreeOk;
    if NodeAt(n, comps).Some? {
      NamesAreClean(n, comps, known);
      OwnMapOk(NodeAt(n, comps).value, a, known);
    }
  }

  /** What reaches below a path below reaches below the anchor, or is found on a node between. */
  lemma {:induction false} ReachingIsFound(info: Info, a: Authid, comps: seq<string>, ext: seq<string>, wanted: Privs,
      known: Known)
    requires TreeOk(info.tree, known) && PrivsOfRole(info, NO_ACCESS) == {}
    requires BelowPrivs(info, a, comps + ext) * wanted != {}
    ensures Found(info, a, comps, wanted)
    decreases |ext|
  {
    hide TreeOk, LookupPrivs, BelowPrivs, HasRoles;
    if ext == [] {
      assert comps + ext == comps;
    } else if a.token.Some? && HasRoles(info.tree, Owner(a), comps + ext) {
      assert Meets(info, a, comps + ext, wanted);
    } else {
      var init, c := ext[..|ext| - 1], ext[|ext| - 1];
      assert comps + init + [c] == comps + ext;
      if HasRoles(info.tree, a, comps + ext) {
        OwnStep(info, a, comps + init, c, known);
        if BelowPrivs(info, a, comps + ext) == BelowPrivs(info, a, comps + init) {
          ReachingIsFound(info, a, comps, init, wanted, known);
        } else {
          var b :| b in BelowPrivs(info, a, comps + ext) * wanted;
          assert b in LookupPrivs(info, a, comps + ext) * wanted;
        }
      } else {
        PlainStep(info, a, comps + init, c);
        ReachingIsFound(info, a, comps, init, wanted, known);
      }
    }
  }

  /** Where the privileges below a path are found, for every id and every anchor: among those that reach
      below the anchor, or on a node below with roles of the id or of its owner. */
  lemma BelowIsFound(info: Info, a: Authid, comps: seq<string>, wanted: Privs, known: Known)
    requires TreeOk(info.tree, known) && PrivsOfRole(info, NO_ACCESS) == {}
    ensures HasBelow(info, a, comps, wanted) <==> Found(info, a, comps, wanted)
  {
    hide TreeOk, LookupPrivs, BelowPrivs, HasRoles;
    if ext :| ext != [] && LookupPrivs(info, a, comps + ext) * wanted != {} {
      if a.token.Some? && HasRoles(info.tree, Owner(a), comps + ext) {
        assert Meets(info, a, comps + ext, wanted);
      } else if !HasRoles(info.tree, a, comps + ext) {
        var init, c := ext[..|ext| - 1], ext[|ext| - 1];
        assert comps + init + [c] == comps + ext;
        PlainStep(info, a, comps + init, c);
        ReachingIsFound(info, a, comps, ext, wanted, known);
      }
    }
    if BelowPrivs(info, a, comps) * wanted != {} { InheritedIsBelow(info, a, comps, wanted); }
    if OwnerMeets(info, a, comps, wanted) {
      var up :| up != [] && HasRoles(info.tree, Owner(a), comps + up) && Meets(info, a, comps + up, wanted);
      if BelowPrivs(info, a, comps + up) * wanted != {} {
        InheritedIsBelow(info, a, comps + up, wanted);
        var ext :| ext != [] && LookupPrivs(info, a, comps + up + ext) * wanted != {};
        assert comps + up + ext == comps + (up + ext);
      }
    }
  }

  // ----- what the query misses

  /** A node below with roles of the id is looked at, unless the anchor is empty. */
  lemma OwnIsAsked(info: Info, a: Authid, path: seq<string>, wanted: Privs, known: Known)
    requires path != [] && TreeOk(info.tree, known) && OwnMeets(info, a, Flatten(path), wanted)
    ensures AnyPrivsBelow(info, a, path, wanted)
  {
    hide Extract, Flatten, Split.Split, ChildPaths, TreeOk, LookupPrivs, LookupDetails, Split.Join;
    var comps := Flatten(path);
    var up :| up != [] && HasRoles(info.tree, a, comps + up) && LookupPrivs(info, a, comps + up) * wanted != {};
    NodeAtAppend(info.tree, comps, up);
    var anchor := NodeAt(info.tree, comps).value;
    NamesAreClean(info.tree, comps, known);
    NamesAreClean(anchor, up, known);
    NodeIsListed(anchor, Split.Join(path, '/'), a, up);
    var p := Split.Join(path, '/') + "/" + Split.Join(up, '/');
    FlattenBelow(path, Split.Join(up, '/'));
    Split.SplitJoin(up, '/');
    assert p in Candidates(info, a, path);
  }

  /** The answer in closed form: what propagates on the anchor, and the nodes below with roles of the id. */
  lemma AnswerIs(info: Info, a: Authid, path: seq<string>, wanted: Privs, known: Known)
    requires path != [] && TreeOk(info.tree, known)
    ensures AnyPrivsBelow(info, a, path, wanted)
            <==> LookupDetails(info, a, Flatten(path)).1 * wanted != {} || OwnMeets(info, a, Flatten(path), wanted)
  {
    hide Extract, Flatten, Split.Split, ChildPaths, TreeOk, LookupPrivs, LookupDetails, Split.Join;
    var comps := Flatten(path);
    if OwnMeets(info, a, comps, wanted) { OwnIsAsked(info, a, path, wanted, known); }
    if p :| p in Candidates(info, a, path) && LookupPrivs(info, a, Flatten([p])) * wanted != {} {
      var anchor := NodeAt(info.tree, comps).value;
      var up := ListedIsNode(anchor, Split.Join(path, '/'), a, p);
      NamesAreClean(info.tree, comps, known);
      NamesAreClean(anchor, up, known);
      FlattenBelow(path, Split.Join(up, '/'));
      Split.SplitJoin(up, '/');
      NodeAtAppend(info.tree, comps, up);
      assert HasRoles(info.tree, a, comps + up);
    }
  }

  /** What the query does see: privileges that propagate on the anchor, and on nodes below with roles of the
      id; from an empty anchor only those that reach below the root. */
  ghost predicate Seen(info: Info, a: Authid, path: seq<string>, wanted: Privs)
  {
    var comps := Flatten(path);
    if path == [] then BelowPrivs(info, a, comps) * wanted != {}
    else LookupDetails(info, a, comps).1 * wanted != {} || OwnMeets(info, a, comps, wanted)
  }

  /** When the query fails to see a privilege below: roles end on the anchor and the privilege is
      inherited past them; or it is found on or below a node with roles of a token's owner; or the
      anchor is empty and it is found on a node below with roles of the id. */
  ghost predicate Missed(info: Info, a: Authid, path: seq<string>, wanted: Privs)
  {
    var comps := Flatten(path);
    || (path != [] && Hidden(info, a, comps) && BelowPrivs(info, a, comps) * wanted != {})
    || OwnerMeets(info, a, comps, wanted)
    || (path == [] && OwnMeets(info, a, comps, wanted))
  }

  /** Completeness and its limit, for every id and every anchor: there is a path below exactly if the
      query says yes or one of the three cases applies that it misses. The answer is wrong exactly if one of
      these applies and none of what the query sees does. */
  lemma QueryIsExact(info: Info, a: Authid, path: seq<string>, wanted: Privs, known: Known)
    requires TreeOk(info.tree, known) && PrivsOfRole(info, NO_ACCESS) == {}
    ensures HasBelow(info, a, Flatten(path), wanted)
            <==> AnyPrivsBelow(info, a, path, wanted) || Missed(info, a, path, wanted)
    ensures AnyPrivsBelow(info, a, path, wanted) <==> Seen(info, a, path, wanted)
    ensures (HasBelow(info, a, Flatten(path), wanted) <==> AnyPrivsBelow(info, a, path, wanted))
            <==> !(Missed(info, a, path, wanted) && !Seen(info, a, path, wanted))
  {
    hide LookupDetails, BelowPrivs, Hidden, TreeOk, OwnMeets, OwnerMeets, HasBelow, AnyPrivsBelow, Flatten;
    var comps := Flatten(path);
    BelowIsFound(info, a, comps, wanted, known);
    if path == [] {
      EmptyAnchor(info, a, wanted, known);
      assert comps == [] by { NoParts(); }
    } else {
      AnswerIs(info, a, path, wanted, known);
      if AnyPrivsBelow(info, a, path, wanted) { QueryIsSound(info, a, path, wanted); }
      if BelowPrivs(info, a, comps) * wanted != {} && !Hidden(info, a, comps) {
        ReachingIsAsked(info, a, path, wanted, known);
      }
    }
  }

  lemma NoParts()
    ensures Flatten([]) == []
  {
  }

  lemma ReachingIsAsked(info: Info, a: Authid, path: seq<string>, wanted: Privs, known: Known)
    requires path != [] && TreeOk(info.tree, known) && PrivsOfRole(info, NO_ACCESS) == {}
    requires !Hidden(info, a, Flatten(path)) && BelowPrivs(info, a, Flatten(path)) * wanted != {}
    ensures AnyPrivsBelow(info, a, path, wanted)
  {
    hide LookupDetails, BelowPrivs, Hidden, TreeOk, Candidates, Flatten;
    FlattenNonempty(path);
    ReachingIsPropagated(info, a, Flatten(path), known);
  }

  /** A state that the system can be in: the tree was built by its operations, and `NoAccess` gives nothing. */
  ghost predicate Possible(info: Info, ops: seq<Op>)
  {
    info.tree == Build(ops) && PrivsOfRole(info, NO_ACCESS) == {}
  }

  lemma {:induction false} BuildSnoc(ops: seq<Op>, op: Op)
    ensures Build(ops + [op]) == Apply(Build(ops), op)
  {
    hide Apply;
    assert (ops + [op])[..|ops|] == ops;
  }

  /** The text of a path, as an operation is given it. */
  function TextOf(comps: seq<string>): string
  {
    if comps == [] then "/" else AclConfig.PathText(comps)
  }

  lemma TextIs(comps: seq<string>)
    requires CleanPath(comps)
    ensures SplitAclPath(TextOf(comps)) == comps
  {
    hide SplitAclPath, AclConfig.PathText;
    AclConfig.PathRoundTrip(comps);
    AclConfig.NoPath();
    AclConfig.PathClean(comps);
  }

  /** Adding a role for a user to whom nothing was given on that path. */
  lemma AddFirst(ops: seq<Op>, n: Node, comps: seq<string>, a: Authid, role: Role, flag: bool)
    requires Build(ops) == n && CleanPath(comps)
    ensures Build(ops + [AddUser(TextOf(comps), a, role, flag)]) == InsertUserRole(n, comps, a, role, flag)
  {
    hide Build, SplitAclPath, InsertUserRole, TextOf;
    BuildSnoc(ops, AddUser(TextOf(comps), a, role, flag));
    TextIs(comps);
  }

  lemma FirstPut(role: Role, flag: bool)
    requires role != NO_ACCESS
    ensures Put(map[], role, flag) == map[role := flag]
  {
  }

  /** A user who is an administrator everywhere, but only an auditor on one store itself: the query
      misses what the user may do below that store. */
  lemma QueryMisses()
    ensures exists info, ops, a, path, wanted ::
              && Possible(info, ops) && HasBelow(info, a, Flatten(path), wanted)
              && !AnyPrivsBelow(info, a, path, wanted)
              && a.token.None? && path != [] && Hidden(info, a, Flatten(path))
  {
    hide Split.Split, LookupDetails, BelowPrivs, PrivsOf, Walk, Inherit, Candidates, Build;
    var a := Authid("u", None);
    var audit, admin: RoleMap := map["Audit" := false], map["Admin" := true];
    var store := Node(map[a := audit], map[], map[]);
    var tree := Node(map[a := admin], map[], map["s" := store]);
    var info := Info(tree, map["Admin" := {0}, "Audit" := {1}], {0});
    var path, wanted := ["s"], {0};
    var ops := AuditorOps(a, tree, store);
    SplitOne("s");
    assert path[1..] == [] && NodeAt(tree, path) == Some(store);
    NoCandidates(info, a, path, store);
    assert "Audit" in audit && Extract(audit, true) == audit && Extract(audit, false) == map[];
    assert Extract(admin, false) == admin;
    LookupOne(info, a, path, admin, audit);
    NonePropagates(info, audit);
    HoldsRole(info, admin, "Admin", 0);
    assert 0 in BelowPrivs(info, a, path) * wanted;
    InheritedIsBelow(info, a, path, wanted);
    assert Possible(info, ops);
  }

  lemma AuditorOps(a: Authid, tree: Node, store: Node) returns (ops: seq<Op>)
    requires store == Node(map[a := map["Audit" := false]], map[], map[])
    requires tree == Node(map[a := map["Admin" := true]], map[], map["s" := store])
    ensures Build(ops) == tree
  {
    hide Put, Build, SplitAclPath, TextOf;
    FirstPut("Admin", true);
    FirstPut("Audit", false);
    NothingBuilt();
    AddFirst([], EMPTY, [], a, "Admin", true);
    ops := [] + [AddUser(TextOf([]), a, "Admin", true)];
    var n := Build(ops);
    assert n == Node(map[a := map["Admin" := true]], map[], map[]);
    AddFirst(ops, n, ["s"], a, "Audit", false);
    ops := ops + [AddUser(TextOf(["s"]), a, "Audit", false)];
    assert ["s"][1..] == [];
    assert Build(ops) == InsertUserRole(n, ["s"], a, "Audit", false);
    assert InsertUserRole(EMPTY, [], a, "Audit", false) == store;
  }

  lemma NothingBuilt()
    ensures Build([]) == EMPTY
  {
  }

  /** A token that is an administrator everywhere, whose owner is one only on a namespace of a store: the
      query for the store looks only at nodes with roles of the token, and there are none. */
  lemma QueryMissesToken()
    ensures exists info, ops, a, path, wanted ::
              && Possible(info, ops) && HasBelow(info, a, Flatten(path), wanted)
              && !AnyPrivsBelow(info, a, path, wanted)
              && a.token.Some? && path != [] && !Hidden(info, a, Flatten(path))
  {
    hide Split.Split, PrivsOf, LookupDetails, Hidden, Candidates, Build;
    var a := Authid("u", Some("t"));
    var admin: RoleMap := map["Admin" := true];
    var space := Node(map[Owner(a) := admin], map[], map[]);
    var store := Node(map[], map[], map["n" := space]);
    var tree := Node(map[a := admin], map[], map["s" := store]);
    var info := Info(tree, map["Admin" := {0}], {0});
    var ops := TokenOps(a, tree, store, space);
    SplitOne("s");
    TokenLookups(info, a, store, space, admin);
    assert 0 in LookupPrivs(info, a, ["s", "n"]) * {0} by { HoldsRole(info, admin, "Admin", 0); }
    assert ["s"] + ["n"] == ["s", "n"];
    assert ["n"] != [] && HasBelow(info, a, ["s"], {0});
    assert !AnyPrivsBelow(info, a, ["s"], {0});
    assert Possible(info, ops);
  }

  lemma TokenOps(a: Authid, tree: Node, store: Node, space: Node) returns (ops: seq<Op>)
    requires space == Node(map[Owner(a) := map["Admin" := true]], map[], map[])
    requires store == Node(map[], map[], map["n" := space])
    requires tree == Node(map[a := map["Admin" := true]], map[], map["s" := store])
    ensures Build(ops) == tree
  {
    hide Put, Build, SplitAclPath, TextOf;
    FirstPut("Admin", true);
    NothingBuilt();
    AddFirst([], EMPTY, [], a, "Admin", true);
    ops := [] + [AddUser(TextOf([]), a, "Admin", true)];
    var n := Build(ops);
    assert n == Node(map[a := map["Admin" := true]], map[], map[]);
    AddFirst(ops, n, ["s", "n"], Owner(a), "Admin", true);
    ops := ops + [AddUser(TextOf(["s", "n"]), Owner(a), "Admin", true)];
    assert ["s", "n"][1..] == ["n"] && ["n"][1..] == [];
    assert InsertUserRole(EMPTY, [], Owner(a), "Admin", true) == space;
    assert InsertUserRole(EMPTY, ["n"], Owner(a), "Admin", true) == store;
  }

  lemma TokenLookups(info: Info, a: Authid, store: Node, space: Node, admin: RoleMap)
    requires a == Authid("u", Some("t")) && admin == map["Admin" := true]
    requires space == Node(map[Owner(a) := admin], map[], map[]) && store == Node(map[], map[], map["n" := space])
    requires info.tree == Node(map[a := admin], map[], map["s" := store])
    ensures LookupDetails(info, a, ["s"]).1 == {} && Candidates(info, a, ["s"]) == {} && !Hidden(info, a, ["s"])
    ensures LookupPrivs(info, a, ["s", "n"]) == PrivsOf(info, admin, false)
  {
    hide PrivsOf, Split.Split, ChildPaths, Roles;
    var tree, o := info.tree, Owner(a);
    SplitOne("s");
    assert NodeAt(tree, ["s"]) == Some(store) by { assert ["s"][1..] == []; }
    assert NodeAt(tree, ["s", "n"]) == Some(space) by { assert ["s", "n"][1..] == ["n"] && ["n"][1..] == []; }
    NothingExtracted();
    assert Extract(admin, true) == admin == Extract(admin, false);
    assert [] + ["s"] == ["s"] && ["s"] + ["n"] == ["s", "n"];
    RolesSnoc(tree, a, [], "s");
    RolesSnoc(tree, o, [], "s");
    RolesSnoc(tree, a, ["s"], "n");
    RolesSnoc(tree, o, ["s"], "n");
    assert Roles(tree, o, ["s"]) == map[] && Roles(tree, a, ["s", "n"]) == admin == Roles(tree, o, ["s", "n"]);
    NonePropagates(info, map[]);
    NoChildPaths(store, space, Split.Join(["s"], '/'), a);
  }

  lemma NoChildPaths(store: Node, space: Node, path: string, a: Authid)
    requires store.children == map["n" := space] && space.children == map[] && ExtractRoles(space, a, true) == map[]
    ensures ChildPaths(store, path, a) == {}
  {
    assert ChildPaths(space, path + "/" + "n", a) == {};
  }

  /** A user who is an administrator on a store: asked from the root, the query does not see it. */
  lemma QueryMissesFromRoot()
    ensures exists info, ops, a, wanted ::
              && Possible(info, ops) && HasBelow(info, a, Flatten([]), wanted)
              && !AnyPrivsBelow(info, a, [], wanted) && a.token.None?
  {
    hide PrivsOf, LookupDetails, BelowPrivs, AnyPrivsBelow, TreeOk, Build;
    var a := Authid("u", None);
    var admin: RoleMap := map["Admin" := true];
    var store := Node(map[a := admin], map[], map[]);
    var tree := Node(map[], map[], map["s" := store]);
    var info := Info(tree, map["Admin" := {0}], {0});
    var known := Known({"Admin"}, _ => true);
    var ops := StoreOps(a, tree, store);
    RootLookups(info, a, store, admin, known);
    EmptyAnchor(info, a, {0}, known);
    HoldsRole(info, admin, "Admin", 0);
    assert 0 in LookupPrivs(info, a, [] + ["s"]) * {0};
    NoParts();
    assert ["s"] != [] && HasBelow(info, a, Flatten([]), {0});
    assert !AnyPrivsBelow(info, a, [], {0});
    assert Possible(info, ops);
  }

  lemma StoreOps(a: Authid, tree: Node, store: Node) returns (ops: seq<Op>)
    requires store == Node(map[a := map["Admin" := true]], map[], map[])
    requires tree == Node(map[], map[], map["s" := store])
    ensures Build(ops) == tree
  {
    hide Put, Build, SplitAclPath, TextOf;
    FirstPut("Admin", true);
    NothingBuilt();
    AddFirst([], EMPTY, ["s"], a, "Admin", true);
    ops := [] + [AddUser(TextOf(["s"]), a, "Admin", true)];
    assert ["s"][1..] == [];
    assert InsertUserRole(EMPTY, [], a, "Admin", true) == store;
  }

  lemma RootLookups(info: Info, a: Authid, store: Node, admin: RoleMap, known: Known)
    requires a == Authid("u", None) && admin == map["Admin" := true] && store == Node(map[a := admin], map[], map[])
    requires info.tree == Node(map[], map[], map["s" := store]) && known.roles == {"Admin"} && known.valid(a)
    ensures BelowPrivs(info, a, []) == {} && LookupPrivs(info, a, [] + ["s"]) == PrivsOf(info, admin, false)
    ensures TreeOk(info.tree, known)
  {
    hide PrivsOf;
    NothingExtracted();
    assert Extract(admin, true) == admin;
    OneStep(info.tree, a, ["s"], map[]);
    assert [] + ["s"] == ["s"];
    assert PrivsOf(info, map[], false) == {} by { NoRolesNoPrivs(info); }
    assert TreeOk(store, known);
  }

  lemma NoRolesNoPrivs(info: Info)
    ensures PrivsOf(info, map[], false) == {}
  {
  }

  lemma NoCandidates(info: Info, a: Authid, path: seq<string>, n: Node)
    requires NodeAt(info.tree, Flatten(path)) == Some(n) && n.children == map[]
    ensures Candidates(info, a, path) == {}
  {
  }

  lemma NonePropagates(info: Info, m: RoleMap)
    requires forall r :: r in m ==> !m[r]
    ensures PrivsOf(info, m, true) == {}
  {
  }

  lemma HoldsRole(info: Info, m: RoleMap, r: Role, b: nat)
    requires r in m && b in PrivsOfRole(info, r)
    ensures b in PrivsOf(info, m, false)
  {
  }

  lemma LookupOne(info: Info, a: Authid, path: seq<string>, above: RoleMap, here: RoleMap)
    requires !IsRoot(a) && a.token.None? && |path| == 1 && path[0] in info.tree.children
    requires ExtractRoles(info.tree, a, false) == above
    requires ExtractRoles(info.tree.children[path[0]], a, true) == here != map[]
    requires ExtractRoles(info.tree.children[path[0]], a, false) == map[]
    ensures LookupDetails(info, a, path).1 == PrivsOf(info, here, true)
    ensures BelowPrivs(info, a, path) == PrivsOf(info, above, false)
  {
    hide PrivsOf, Extract;
    OneStep(info.tree, a, path, above);
  }

  /** With an empty anchor the candidates' texts begin with a slash, so nothing below the root is looked
      at: the answer is what reaches from the root to everything below. */
  lemma EmptyAnchor(info: Info, a: Authid, wanted: Privs, known: Known)
    requires TreeOk(info.tree, known) && PrivsOfRole(info, NO_ACCESS) == {}
    ensures AnyPrivsBelow(info, a, [], wanted) <==> BelowPrivs(info, a, []) * wanted != {}
  {
    hide LookupDetails, BelowPrivs, Split.Split, ChildPaths, TreeOk;
    RootPropagates(info, a, known);
    forall p | p in Candidates(info, a, [])
      ensures LookupPrivs(info, a, Flatten([p])) == BelowPrivs(info, a, [])
    {
      var ext := ListedIsNode(info.tree, "", a, p);
      Split.SplitAppend("", Split.Join(ext, '/'), '/');
      SplitOne("");
      assert [p][1..] == [];
      assert Flatten([p])[0] == "";
      OutsideTheTree(info, a, Flatten([p]), known);
    }
  }

  /** What propagates on the root is what reaches below it. */
  lemma RootPropagates(info: Info, a: Authid, known: Known)
    requires TreeOk(info.tree, known) && PrivsOfRole(info, NO_ACCESS) == {}
    ensures LookupDetails(info, a, []).1 == BelowPrivs(info, a, [])
    decreases if a.token.Some? then 1 else 0
  {
    hide Extract, PrivsOf, TreeOk;
    if !IsRoot(a) {
      var m := UserRoles(info.tree, a);
      OwnMapOk(info.tree, a, known);
      ExtractFlagged(m);
      forall r | r in Extract(m, false) && r != NO_ACCESS ensures r in Extract(m, true) && Extract(m, true)[r] {
        LeafKeeps(m, known, r);
      }
      forall r | r in Extract(m, true) && Extract(m, true)[r] ensures r in Extract(m, false) {
        LeafPropagates(m, map[], r);
      }
      CollectMore(info, Extract(m, false), false, Extract(m, true), true);
      CollectMore(info, Extract(m, true), true, Extract(m, false), false);
      if a.token.Some? { RootPropagates(info, Owner(a), known); }
    }
  }

  lemma OutsideTheTree(info: Info, a: Authid, comps: seq<string>, known: Known)
    requires TreeOk(info.tree, known) && comps != [] && comps[0] == ""
    ensures LookupPrivs(info, a, comps) == BelowPrivs(info, a, [])
    decreases if a.token.Some? then 1 else 0
  {
    hide Extract, PrivsOf;
    if a.token.Some? { OutsideTheTree(info, Owner(a), comps, known); }
  }

  lemma SplitOne(s: string)
    requires '/' !in s
    ensures Flatten([s]) == [s]
  {
    assert s[..|s|] == s;
    Split.FindIs(s, '/', |s|);
    assert [s][1..] == [];
  }
}
