/** The mount tree of kernel/vfs/vfs.c. */
module Vfs {
  import opened Machine
  import opened Paths

  /** A file system node as far as mounting looks at it: its name, whether it is a stub directory,
      and what it stands for. */
  datatype Inode = Inode(name: string, stub: bool, content: int)


  /** Tree nodes by number, with the node mounted at each and the list of sub-trees; node 0 is the
      root, and a tree without nodes is the state before anything is mounted. */
  datatype Tree = Tree(data: map<nat, Inode>, kids: map<nat, seq<nat>>, next: nat)

  ghost predicate Listed(t: Tree, n: nat, c: nat) {
    n in t.kids && c in t.kids[n]
  }

  /** Two sub-trees of one list never carry the same name. */
  ghost predicate DistinctNames(data: map<nat, Inode>, kids: seq<nat>) {
    && (forall i :: 0 <= i < |kids| ==> kids[i] in data)
    && (forall i, j :: 0 <= i < j < |kids| ==> data[kids[i]].name != data[kids[j]].name)
  }

  ghost predicate SiblingsOk(t: Tree, n: nat)
    requires n in t.kids
  {
    DistinctNames(t.data, t.kids[n])
  }

  ghost predicate Ok(t: Tree) {
    && 0 in t.data && (forall n :: n in t.data <==> n in t.kids) && (forall n :: n in t.data ==> n < t.next)
    && (forall n, c {:trigger Listed(t, n, c)} :: Listed(t, n, c) ==> c in t.data && n < c)
    && (forall n {:trigger SiblingsOk(t, n)} :: n in t.kids ==> SiblingsOk(t, n))
  }

  // ---------------------------------------------------------------- walking

  /** The loop over the sub-trees: the last one with the name. */
  function LastNamed(data: map<nat, Inode>, kids: seq<nat>, name: string): Option<nat>
    requires forall i :: 0 <= i < |kids| ==> kids[i] in data
  {
    if kids == [] then None
    else if data[kids[|kids| - 1]].name == name then Some(kids[|kids| - 1])
    else LastNamed(data, kids[..|kids| - 1], name)
  }

  ghost function Named(t: Tree, n: nat, name: string): Option<nat>
    requires Ok(t) && n in t.data
  {
    assert SiblingsOk(t, n);
    LastNamed(t.data, t.kids[n], name)
  }

  lemma {:induction false} LastNamedIs(data: map<nat, Inode>, kids: seq<nat>, name: string, c: nat)
    requires DistinctNames(data, kids)
    ensures LastNamed(data, kids, name) == Some(c) <==> c in kids && data[c].name == name
    decreases |kids|
  {
    if kids != [] {
      var front := kids[..|kids| - 1];
      assert kids == front + [kids[|kids| - 1]];
      LastNamedIs(data, front, name, c);
    }
  }

  lemma NamedIs(t: Tree, n: nat, name: string, c: nat)
    requires Ok(t) && n in t.data
    ensures Named(t, n, name) == Some(c) <==> Listed(t, n, c) && t.data[c].name == name
  {
    assert SiblingsOk(t, n);
    LastNamedIs(t.data, t.kids[n], name, c);
  }

  lemma NamedChild(t: Tree, n: nat, name: string)
    requires Ok(t) && n in t.data
    ensures Named(t, n, name).Some? ==> var c := Named(t, n, name).value; Listed(t, n, c) && c in t.data && n < c && t.data[c].name == name
  {
    if Named(t, n, name).Some? {
      NamedIs(t, n, name, Named(t, n, name).value);
    }
  }

  /** Following the parts of a path from n. */
  ghost function Walk(t: Tree, n: nat, parts: seq<string>): Option<nat>
    requires Ok(t) && n in t.data
    decreases |parts|
  {
    if parts == [] then Some(n)
    else
      NamedChild(t, n, parts[0]);
      var c := Named(t, n, parts[0]);
      if c.None? then None else Walk(t, c.value, parts[1..])
  }

  // ---------------------------------------------------------------- mounting

  function Stub(name: string): Inode {
    Inode(name, true, 0)
  }

  /** vfs_create_stub_directory and generic_tree_create under n. */
  function AddStub(t: Tree, n: nat, name: string): Tree
    requires n in t.kids
  {
    Tree(t.data[t.next := Stub(name)], t.kids[n := t.kids[n] + [t.next]][t.next := []], t.next + 1)
  }

  lemma AddStubOk(t: Tree, n: nat, name: string)
    requires Ok(t) && n in t.data && Named(t, n, name).None?
    ensures Ok(AddStub(t, n, name)) && Grew(t, AddStub(t, n, name))
    ensures Named(AddStub(t, n, name), n, name) == Some(t.next)
  {
    var u := AddStub(t, n, name);
    forall m, c | Listed(u, m, c) ensures c in u.data && m < c {
      assert c != t.next ==> Listed(t, m, c);
    }
    forall m | m in u.kids ensures SiblingsOk(u, m) {
      if m != t.next {
        assert SiblingsOk(t, m);
        AddedDistinct(t, n, name, m);
      }
    }
    assert u.kids[n][|t.kids[n]|] == t.next;
    NamedIs(u, n, name, t.next);
  }

  lemma AddedDistinct(t: Tree, n: nat, name: string, m: nat)
    requires Ok(t) && n in t.data && m in t.data && Named(t, n, name).None?
    ensures DistinctNames(AddStub(t, n, name).data, AddStub(t, n, name).kids[m])
  {
    assert SiblingsOk(t, m);
    assert t.next !in t.data;
    if m == n {
      forall i | 0 <= i < |t.kids[n]| ensures t.data[t.kids[n][i]].name != name {
        NamedIs(t, n, name, t.kids[n][i]);
        assert Listed(t, n, t.kids[n][i]);
      }
    }
  }

  /** u has all that t has, in the same places: nodes, and sub-trees in front of any new ones. */
  ghost predicate Grew(t: Tree, u: Tree) {
    && (forall n :: n in t.data ==> n in u.data && u.data[n] == t.data[n])
    && (forall n, c {:trigger Listed(t, n, c)} :: Listed(t, n, c) ==> Listed(u, n, c))
    && (forall n :: n in u.data && n !in t.data ==> u.data[n].stub)
  }

  /** The loop of mount_in_vfs: walk down, and make stubs for what is missing. */
  ghost function Extend(t: Tree, n: nat, parts: seq<string>): (Tree, nat)
    requires Ok(t) && n in t.data
    decreases |parts|
  {
    if parts == [] then (t, n)
    else
      NamedChild(t, n, parts[0]);
      var c := Named(t, n, parts[0]);
      if c.Some? then Extend(t, c.value, parts[1..])
      else AddStubOk(t, n, parts[0]); Extend(AddStub(t, n, parts[0]), t.next, parts[1..])
  }

  /** Nothing is lost on the way, and the path walked leads to the end. */
  lemma {:induction false} ExtendOk(t: Tree, n: nat, parts: seq<string>)
    requires Ok(t) && n in t.data
    ensures var (u, m) := Extend(t, n, parts);
            && Ok(u) && Grew(t, u) && m in u.data && Walk(u, n, parts) == Some(m)
            && (Walk(t, n, parts).Some? ==> u == t && Walk(t, n, parts) == Some(m))
            && (Walk(t, n, parts).None? ==> m !in t.data)
            && (parts != [] ==> m != 0 && u.data[m].name == parts[|parts| - 1])
    decreases |parts|
  {
    if parts != [] {
      NamedChild(t, n, parts[0]);
      var c := Named(t, n, parts[0]);
      var rest := parts[1..];
      var next, at := t, t.next;
      if c.Some? {
        at := c.value;
      } else {
        AddStubOk(t, n, parts[0]);
        next := AddStub(t, n, parts[0]);
        NamedIs(next, n, parts[0], at);
      }
      ExtendOk(next, at, rest);
      var (u, m) := Extend(next, at, rest);
      assert Listed(next, n, at);
      NamedIs(u, n, parts[0], at);
      if c.None? {
        NewHasNoPaths(t, n, parts[0], rest);
      }
    }
  }

  /** Under a new stub nothing is mounted yet. */
  lemma NewHasNoPaths(t: Tree, n: nat, name: string, rest: seq<string>)
    requires Ok(t) && n in t.data && Named(t, n, name).None? && Ok(AddStub(t, n, name))
    ensures rest != [] ==> Walk(AddStub(t, n, name), t.next, rest).None?
    ensures rest == [] ==> Walk(AddStub(t, n, name), t.next, rest) == Some(t.next)
  {
    if rest != [] {
      var u := AddStub(t, n, name);
      assert u.kids[t.next] == [];
    }
  }

  /** What grew resolves every path as before. */
  lemma {:induction false} WalkStays(t: Tree, u: Tree, n: nat, parts: seq<string>)
    requires Ok(t) && Ok(u) && n in t.data && Walk(t, n, parts).Some?
    requires forall m :: m in t.data ==> m in u.data && (m != 0 ==> u.data[m].name == t.data[m].name)
    requires forall m, c {:trigger Listed(t, m, c)} :: Listed(t, m, c) ==> Listed(u, m, c)
    ensures Walk(u, n, parts) == Walk(t, n, parts)
    decreases |parts|
  {
    if parts != [] {
      NamedChild(t, n, parts[0]);
      var c := Named(t, n, parts[0]).value;
      NamedIs(u, n, parts[0], c);
      WalkStays(t, u, c, parts[1..]);
    }
  }

  /** mount_in_vfs: the tree afterwards, and whether the node was mounted. A path other than "/"
      needs a root; without one the code follows a NULL. */
  ghost function Mount(t: Option<Tree>, node: Inode, path: string): (Option<Tree>, bool)
    requires t.Some? ==> Ok(t.value)
    requires path != "" && path[0] == '/' && path != "/" ==> t.Some?
  {
    if path == "" || path[0] != '/' then (t, false)
    else if path == "/" then
      if t.None? then (Some(Tree(map[0 := node], map[0 := []], 1)), true)
      else if !t.value.data[0].stub then (t, false)
      else (Some(t.value.(data := t.value.data[0 := node])), true)
    else
      var (u, n) := Extend(t.value, 0, Split(path, 1));
      ExtendOk(t.value, 0, Split(path, 1));
      if u.data[n].name == node.name && u.data[n].stub then (Some(u.(data := u.data[n := node])), true)
      else (Some(u), false)
  }

  /** The parts that a path is walked by; none for the root. */
  function Parts(path: string): seq<string>
    requires path != ""
  {
    if path == "/" then [] else Split(path, 1)
  }

  /** A node replaced by one of the same name, or the root, leaves the names in order. */
  lemma ReplaceOk(t: Tree, n: nat, node: Inode)
    requires Ok(t) && n in t.data && (n == 0 || t.data[n].name == node.name)
    ensures Ok(t.(data := t.data[n := node]))
  {
    var u := t.(data := t.data[n := node]);
    forall m, c | Listed(u, m, c) ensures c in u.data && m < c {
      assert Listed(t, m, c);
    }
    forall m | m in u.kids ensures SiblingsOk(u, m) {
      assert SiblingsOk(t, m);
      forall i | 0 <= i < |t.kids[m]| ensures u.data[t.kids[m][i]].name == t.data[t.kids[m][i]].name {
        assert Listed(t, m, t.kids[m][i]);
      }
    }
  }

  /** t' keeps every node of t in its place, under its name, and keeps every node that is no stub. */
  ghost predicate Kept(t: Tree, t': Tree) {
    && (forall n :: n in t.data ==> n in t'.data && (n != 0 ==> t'.data[n].name == t.data[n].name))
    && (forall n :: n in t.data && !t.data[n].stub ==> t'.data[n] == t.data[n])
    && (forall n, c {:trigger Listed(t, n, c)} :: Listed(t, n, c) ==> Listed(t', n, c))
  }

  /** One mount: sibling names stay distinct, what is mounted stays, and on success the path
      leads to the node. */
  lemma MountKeeps(t: Tree, node: Inode, path: string)
    requires Ok(t)
    ensures var (r, ok) := Mount(Some(t), node, path);
            && r.Some? && Ok(r.value) && Kept(t, r.value)
            && (ok ==> path != "" && var at := Walk(r.value, 0, Parts(path)); at.Some? && at.value in r.value.data && r.value.data[at.value] == node)
  {
    if path != "" && path[0] == '/' {
      var parts := Parts(path);
      if path == "/" {
        if t.data[0].stub {
          ReplaceOk(t, 0, node);
          KeptReplaced(t, t, 0, node);
        }
      } else {
        ExtendOk(t, 0, parts);
        var (u, n) := Extend(t, 0, parts);
        if u.data[n].name == node.name && u.data[n].stub {
          ReplaceOk(u, n, node);
          KeptReplaced(t, u, n, node);
          var v := u.(data := u.data[n := node]);
          forall m, c | Listed(u, m, c) ensures Listed(v, m, c) {
          }
          WalkStays(u, v, 0, parts);
        }
      }
    }
  }

  lemma KeptReplaced(t: Tree, u: Tree, n: nat, node: Inode)
    requires Grew(t, u) && n in u.data && u.data[n].stub && (n == 0 || u.data[n].name == node.name)
    ensures Kept(t, u.(data := u.data[n := node]))
  {
    var v := u.(data := u.data[n := node]);
    forall m, c | Listed(t, m, c) ensures Listed(v, m, c) {
      assert Listed(u, m, c);
    }
  }

  /** When a mount below the root succeeds: the last part is the node's name, and the path leads
      nowhere yet or to a stub. */
  lemma MountSucceedsIff(t: Tree, node: Inode, path: string)
    requires Ok(t) && path != "" && path[0] == '/' && path != "/"
    ensures var parts := Split(path, 1);
            Mount(Some(t), node, path).1 <==>
              && parts[|parts| - 1] == node.name
              && (Walk(t, 0, parts).Some? ==> WalkEnd(t, parts) in t.data && t.data[WalkEnd(t, parts)].stub)
  {
    var parts := Split(path, 1);
    ExtendOk(t, 0, parts);
    var (u, n) := Extend(t, 0, parts);
    assert Walk(t, 0, parts).None? ==> u.data[n].stub;
  }

  /** A mount at the root: it succeeds without a root, or over a stub, and then the node stands there with
      all sub-trees as they were; refused, it changes nothing. */
  lemma MountAtRoot(t: Option<Tree>, node: Inode)
    requires t.Some? ==> Ok(t.value)
    ensures RootMounted(t, node, Mount(t, node, "/").0, Mount(t, node, "/").1)
  {
  }

  predicate RootMounted(t: Option<Tree>, node: Inode, u: Option<Tree>, ok: bool)
    requires t.Some? ==> 0 in t.value.data
  {
    match t
    case None => ok && u == Some(Tree(map[0 := node], map[0 := []], 1))
    case Some(v) => (ok <==> v.data[0].stub) && u == if ok then Some(Tree(v.data[0 := node], v.kids, v.next)) else t
  }

  /** u is t with what mounting the node at the parts of a path leaves: the path leads to at, with a new
      stub for each part that led nowhere, behind the sub-trees that were there; at holds the node
      if it was mounted, and nothing else is changed. */
  ghost predicate MountedBelow(t: Tree, node: Inode, parts: seq<string>, u: Tree, ok: bool, at: nat)
    requires Ok(t) && Ok(u) && parts != []
  {
    && Walk(u, 0, parts) == Some(at) && at in u.data
    && (forall n :: n in t.data ==> n in u.data && t.kids[n] <= u.kids[n] && (n != at ==> u.data[n] == t.data[n]))
    && (forall n :: n in u.data && n !in t.data ==> n >= t.next && NewOn(u, parts, n) && (n != at ==> u.data[n] == Stub(u.data[n].name)))
    && (Walk(t, 0, parts).Some? ==> u.kids == t.kids && u.next == t.next && Walk(t, 0, parts) == Some(at))
    && (ok <==> parts[|parts| - 1] == node.name && (at in t.data ==> t.data[at].stub))
    && u.data[at] == if ok then node else if at in t.data then t.data[at] else Stub(parts[|parts| - 1])
  }

  /** The node stands where some first parts of the path lead. */
  ghost predicate NewOn(u: Tree, parts: seq<string>, n: nat)
    requires Ok(u)
  {
    exists k :: 0 < k <= |parts| && Walk(u, 0, parts[..k]) == Some(n)
  }

  lemma MountBelow(t: Tree, node: Inode, path: string)
    requires Ok(t) && path != "" && path[0] == '/' && path != "/"
    ensures var (r, ok) := Mount(Some(t), node, path);
            r.Some? && Ok(r.value) && exists at :: MountedBelow(t, node, Split(path, 1), r.value, ok, at)
  {
    var parts := Split(path, 1);
    ExtendOk(t, 0, parts);
    ExtendMade(t, 0, parts);
    var (u, at) := Extend(t, 0, parts);
    if u.data[at].name == node.name && u.data[at].stub {
      ReplaceOk(u, at, node);
      ReplacedBelow(t, node, parts, u, at);
    } else {
      assert MountedBelow(t, node, parts, u, false, at);
    }
  }

  lemma ReplacedBelow(t: Tree, node: Inode, parts: seq<string>, u: Tree, at: nat)
    requires Ok(t) && Ok(u) && parts != [] && at in u.data && MountedBelow(t, u.data[at], parts, u, true, at) && u.data[at].name == node.name
    requires Ok(u.(data := u.data[at := node]))
    ensures MountedBelow(t, node, parts, u.(data := u.data[at := node]), true, at)
  {
    var v := u.(data := u.data[at := node]);
    SameWalks(u, v, 0, parts, at);
    forall n | n in v.data && n !in t.data ensures NewOn(v, parts, n) {
      var k :| 0 < k <= |parts| && Walk(u, 0, parts[..k]) == Some(n);
      SameWalks(u, v, 0, parts[..k], n);
    }
  }

  /** A node in the place of another one of its name changes no walk. */
  lemma SameWalks(u: Tree, v: Tree, n: nat, parts: seq<string>, at: nat)
    requires Ok(u) && Ok(v) && n in u.data && Walk(u, n, parts) == Some(at)
    requires v.kids == u.kids && forall m :: m in u.data ==> m in v.data && (m != 0 ==> v.data[m].name == u.data[m].name)
    ensures Walk(v, n, parts) == Some(at)
  {
    forall m, c | Listed(u, m, c) ensures Listed(v, m, c) {
    }
    WalkStays(u, v, n, parts);
  }

  /** Each list of sub-trees is still there, in front of new ones. */
  ghost predicate Before(kids: map<nat, seq<nat>>, kids': map<nat, seq<nat>>) {
    forall m :: m in kids ==> m in kids' && kids[m] <= kids'[m]
  }

  lemma BeforeStub(t: Tree, n: nat, name: string, u: Tree)
    requires Ok(t) && n in t.data && Before(AddStub(t, n, name).kids, u.kids)
    ensures Before(t.kids, u.kids)
  {
    var next := AddStub(t, n, name);
    forall m | m in t.kids ensures t.kids[m] <= next.kids[m] {
      assert m < t.next;
    }
  }

  /** The nodes made on the way, from n on. */
  ghost predicate Made(t: Tree, u: Tree, n: nat, parts: seq<string>)
    requires Ok(u) && n in u.data
  {
    && t.next <= u.next && Before(t.kids, u.kids)
    && forall m :: m in u.data && m !in t.data ==> m >= t.next && MadeAt(u, n, parts, m)
  }

  ghost predicate MadeAt(u: Tree, n: nat, parts: seq<string>, m: nat)
    requires Ok(u) && n in u.data && m in u.data
  {
    exists k :: 0 < k <= |parts| && Walk(u, n, parts[..k]) == Some(m) && u.data[m] == Stub(parts[k - 1])
  }

  lemma MadeFirst(u: Tree, n: nat, parts: seq<string>, at: nat)
    requires Ok(u) && n in u.data && parts != [] && Named(u, n, parts[0]) == Some(at) && at in u.data && u.data[at] == Stub(parts[0])
    ensures MadeAt(u, n, parts, at)
  {
    assert parts[..1][1..] == [];
    assert Walk(u, n, parts[..1]) == Some(at);
  }

  lemma MadeFurther(u: Tree, n: nat, parts: seq<string>, at: nat, m: nat)
    requires Ok(u) && n in u.data && parts != [] && Named(u, n, parts[0]) == Some(at) && at in u.data && m in u.data
    requires MadeAt(u, at, parts[1..], m)
    ensures MadeAt(u, n, parts, m)
  {
    var rest := parts[1..];
    var k :| 0 < k <= |rest| && Walk(u, at, rest[..k]) == Some(m) && u.data[m] == Stub(rest[k - 1]);
    assert parts[..k + 1][1..] == rest[..k];
    assert Walk(u, n, parts[..k + 1]) == Some(m);
  }

  lemma {:induction false} ExtendMade(t: Tree, n: nat, parts: seq<string>)
    requires Ok(t) && n in t.data
    ensures var (u, at) := Extend(t, n, parts); Ok(u) && n in u.data && Made(t, u, n, parts)
    ensures var (u, at) := Extend(t, n, parts); parts != [] && at !in t.data ==> at in u.data && u.data[at] == Stub(parts[|parts| - 1])
    decreases |parts|
  {
    ExtendOk(t, n, parts);
    if parts != [] {
      NamedChild(t, n, parts[0]);
      var c := Named(t, n, parts[0]);
      var u := Extend(t, n, parts).0;
      if c.Some? {
        ExtendOk(t, c.value, parts[1..]);
        ExtendMade(t, c.value, parts[1..]);
        NamedIs(t, n, parts[0], c.value);
        NamedIs(u, n, parts[0], c.value);
        forall m | m in u.data && m !in t.data ensures MadeAt(u, n, parts, m) {
          MadeFurther(u, n, parts, c.value, m);
        }
      } else {
        ExtendStubs(t, n, parts);
      }
    }
  }

  lemma {:induction false} ExtendStubs(t: Tree, n: nat, parts: seq<string>)
    requires Ok(t) && n in t.data && parts != [] && Named(t, n, parts[0]).None?
    ensures var (u, at) := Extend(t, n, parts); Ok(u) && n in u.data && Made(t, u, n, parts)
    ensures var (u, at) := Extend(t, n, parts); at !in t.data ==> at in u.data && u.data[at] == Stub(parts[|parts| - 1])
    decreases |parts|, 0
  {
    AddStubOk(t, n, parts[0]);
    var next, at, rest := AddStub(t, n, parts[0]), t.next, parts[1..];
    ExtendOk(next, at, rest);
    ExtendMade(next, at, rest);
    var u := Extend(next, at, rest).0;
    BeforeStub(t, n, parts[0], u);
    NamedIs(next, n, parts[0], at);
    NamedIs(u, n, parts[0], at);
    forall m | m in u.data && m !in t.data ensures m >= t.next && MadeAt(u, n, parts, m) {
      if m == at {
        MadeFirst(u, n, parts, at);
      } else {
        MadeFurther(u, n, parts, at, m);
      }
    }
  }

  ghost function WalkEnd(t: Tree, parts: seq<string>): nat
    requires Ok(t) && Walk(t, 0, parts).Some?
  {
    Walk(t, 0, parts).value
  }

  // ---------------------------------------------------------------- sequences of mounts

  datatype Request = Request(node: Inode, path: string)

  ghost function MountAll(t: Tree, rs: seq<Request>): Tree
    requires Ok(t)
    decreases |rs|
  {
    if rs == [] then t
    else MountKeeps(t, rs[0].node, rs[0].path); MountAll(Mount(Some(t), rs[0].node, rs[0].path).0.value, rs[1..])
  }

  /** Over any sequence of mounts the tree stays in order and every path keeps leading where it led;
      a node that is no stub stays mounted there. */
  lemma {:induction false} MountAllKeeps(t: Tree, rs: seq<Request>, parts: seq<string>)
    requires Ok(t)
    ensures Ok(MountAll(t, rs))
    ensures Walk(t, 0, parts).Some? ==>
              && Walk(MountAll(t, rs), 0, parts) == Walk(t, 0, parts)
              && var n := Walk(t, 0, parts).value;
                 n in t.data && (!t.data[n].stub ==> n in MountAll(t, rs).data && MountAll(t, rs).data[n] == t.data[n])
    decreases |rs|
  {
    WalkInside(t, 0, parts);
    if rs != [] {
      MountKeeps(t, rs[0].node, rs[0].path);
      var u := Mount(Some(t), rs[0].node, rs[0].path).0.value;
      MountAllKeeps(u, rs[1..], parts);
      if Walk(t, 0, parts).Some? {
        WalkStays(t, u, 0, parts);
      }
    }
  }

  lemma {:induction false} WalkInside(t: Tree, n: nat, parts: seq<string>)
    requires Ok(t) && n in t.data
    ensures Walk(t, n, parts).Some? ==> Walk(t, n, parts).value in t.data
    decreases |parts|
  {
    if parts != [] {
      NamedChild(t, n, parts[0]);
      if Named(t, n, parts[0]).Some? {
        WalkInside(t, Named(t, n, parts[0]).value, parts[1..]);
      }
    }
  }

  /** A node that is no stub, once mounted, is found under its path after any further mounts. */
  lemma MountedStays(t: Tree, node: Inode, path: string, rs: seq<Request>)
    requires Ok(t) && Mount(Some(t), node, path).1 && !node.stub
    ensures var u := Mount(Some(t), node, path).0;
            && u.Some? && Ok(u.value) && path != "" && Ok(MountAll(u.value, rs))
            && var at := Walk(MountAll(u.value, rs), 0, Parts(path));
               at.Some? && at.value in MountAll(u.value, rs).data && MountAll(u.value, rs).data[at.value] == node
  {
    MountKeeps(t, node, path);
    MountAllKeeps(Mount(Some(t), node, path).0.value, rs, Parts(path));
  }

  // ---------------------------------------------------------------- mount_in_vfs

  class MountTable {
    var data: map<nat, Inode>
    var kids: map<nat, seq<nat>>
    var next: nat
    var mounted: bool

    ghost function T(): Option<Tree>
      reads this
    {
      if mounted then Some(Tree(data, kids, next)) else None
    }

    /** initialise_vfs_layer: a stub directory at the root. */
    constructor ()
      ensures T() == Some(Tree(map[0 := Stub("/")], map[0 := []], 1)) && Ok(T().value)
    {
      mounted := false;
      data, kids, next := map[], map[], 0;
      new;
      var ok := MountNode(Stub("/"), "/");
      RootOk(Stub("/"));
    }

    /** The loop over the sub-trees of one tree node. */
    method Descend(n: nat, name: string) returns (hit: bool, at: nat)
      requires mounted && Ok(T().value) && n in data
      ensures Named(T().value, n, name) == if hit then Some(at) else None
      ensures !hit ==> at == n
    {
      hit, at := false, n;
      ghost var t := T().value;
      assert SiblingsOk(t, n);
      var list := kids[n];
      for i := 0 to |list|
        invariant LastNamed(t.data, list[..i], name) == if hit then Some(at) else None
        invariant !hit ==> at == n
      {
        assert list[..i + 1][..i] == list[..i];
        if data[list[i]].name == name {
          hit, at := true, list[i];
        }
      }
      assert list[..|list|] == list;
    }

    /** One turn of the loop of mount_in_vfs. */
    method Enter(n: nat, name: string) returns (at: nat)
      requires mounted && Ok(T().value) && n in data
      modifies this`data, this`kids, this`next
      ensures mounted && Ok(T().value) && at in data
      ensures forall rest :: Extend(T().value, at, rest) == Extend(old(T().value), n, [name] + rest)
    {
      ghost var t := T().value;
      NamedChild(t, n, name);
      var hit;
      hit, at := Descend(n, name);
      if !hit {
        AddStubOk(t, n, name);
        at := next;
        data := data[at := Stub(name)];
        kids := kids[n := kids[n] + [at]][at := []];
        next := next + 1;
      }
      forall rest ensures Extend(T().value, at, rest) == Extend(t, n, [name] + rest) {
        assert ([name] + rest)[1..] == rest;
      }
    }

    /** The walk of mount_in_vfs along the C strings of the cut-up path. */
    method Follow(path: string, buf: string, segments: nat) returns (n: nat)
      requires mounted && Ok(T().value) && path != "" && path[0] == '/' && NUL !in path
      requires CutUp(buf, path) && segments == |Split(path, 1)|
      modifies this`data, this`kids, this`next
      ensures mounted && (T().value, n) == Extend(old(T().value), 0, Split(path, 1))
    {
      n := 0;
      var at: nat, left := 1, segments;
      ghost var rest := Split(path, 1);
      ghost var goal := Extend(T().value, 0, rest);
      while left > 0
        invariant mounted && Ok(T().value) && n in data && left == |rest|
        invariant PartsFrom(path, at, rest)
        invariant Extend(T().value, n, rest) == goal
        decreases left
      {
        var name := CString(buf, at);
        NextPart(buf, path, at, rest);
        n := Enter(n, name);
        at := at + |name| + 1;
        rest := rest[1..];
        left := left - 1;
      }
    }

    method MountNode(node: Inode, path: string) returns (ok: bool)
      requires (mounted ==> Ok(T().value)) && NUL !in path
      requires path != "" && path[0] == '/' && path != "/" ==> mounted
      modifies this
      ensures (T(), ok) == Mount(old(T()), node, path)
      ensures path == "/" ==> RootMounted(old(T()), node, T(), ok)
      ensures path == "" || path[0] != '/' ==> !ok && T() == old(T())
      ensures path != "" && path[0] == '/' && path != "/" ==>
                mounted && Ok(T().value) && exists at :: MountedBelow(old(T().value), node, Split(path, 1), T().value, ok, at)
    {
      if mounted && path != "" && path[0] == '/' && path != "/" {
        MountBelow(T().value, node, path);
      }
      if path == "" || path[0] != '/' {
        return false;
      }
      var buf := new char[|path| + 1](_ => NUL);
      var segments := ParsePath(path, buf);
      SplitCounts(path, 1);
      if segments == 1 && |path| == 1 {
        if !mounted {
          data, kids, next := map[0 := node], map[0 := []], 1;
          mounted := true;
          return true;
        }
        if !data[0].stub {
          return false;
        }
        data := data[0 := node];
        return true;
      }
      ExtendOk(T().value, 0, Split(path, 1));
      var n := Follow(path, buf[..], segments);
      var ret := data[n];
      if ret.name == node.name {
        if ret.stub {
          data := data[n := node];
          return true;
        }
        return false;
      }
      return false;
    }
  }

  lemma RootOk(node: Inode)
    ensures Ok(Tree(map[0 := node], map[0 := []], 1))
  {
    var t := Tree(map[0 := node], map[0 := []], 1);
    assert SiblingsOk(t, 0);
  }
}
