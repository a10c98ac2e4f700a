/** The process tree of kernel/process/process.c on kernel/util/generic_tree.c: each process has
    one tree node, with a list of sub-trees, and one parent field. */
module ProcessTree {
  import opened Links

  type Pid = nat

  const KERNEL: Pid := 1

  /** parent holds the parent fields, subs the sub-tree lists. */
  datatype Tree = Tree(parent: map<Pid, Pid>, subs: map<Pid, seq<Pid>>)

  ghost predicate NoDup<T>(s: seq<T>) {
    forall i, j :: 0 <= i < j < |s| ==> s[i] != s[j]
  }

  ghost predicate Hangs(t: Tree, p: Pid)
    requires p in t.parent
  {
    var q := t.parent[p];
    q in t.subs && q < p && p in t.subs[q]
  }

  ghost predicate Listed(t: Tree, q: Pid, c: Pid) {
    q in t.subs && c in t.subs[q]
  }

  ghost predicate Once(t: Tree, q: Pid)
    requires q in t.subs
  {
    NoDup(t.subs[q])
  }

  /** Every process but the kernel hangs in exactly one list, the one of its parent, and a parent
      is older than its children; so the parent fields lead to the kernel. */
  ghost predicate Ok(t: Tree) {
    && KERNEL in t.subs && (forall p :: p in t.parent <==> p in t.subs && p != KERNEL)
    && (forall p :: p in t.subs ==> KERNEL <= p)
    && (forall p {:trigger Hangs(t, p)} :: p in t.parent ==> Hangs(t, p))
    && (forall q, c {:trigger Listed(t, q, c)} :: Listed(t, q, c) ==> c in t.parent && t.parent[c] == q)
    && (forall q {:trigger Once(t, q)} :: q in t.subs ==> Once(t, q))
  }

  lemma Child(t: Tree, q: Pid, c: Pid)
    requires Ok(t) && q in t.subs && c in t.subs[q]
    ensures c in t.parent && c in t.subs && t.parent[c] == q && q < c
  {
    assert Listed(t, q, c) && Hangs(t, c);
  }

  /** p lies in the sub-tree of a. */
  ghost predicate Under(t: Tree, a: Pid, p: Pid)
    requires Ok(t)
    decreases p
  {
    p == a || (p in t.parent && (assert Hangs(t, p); Under(t, a, t.parent[p])))
  }

  /** The tree is rooted at the kernel: its nodes are exactly the processes under it. */
  lemma {:induction false} Rooted(t: Tree, p: Pid)
    requires Ok(t)
    ensures p in t.subs <==> Under(t, KERNEL, p)
    decreases p
  {
    if p in t.parent {
      assert Hangs(t, p);
      Rooted(t, t.parent[p]);
    }
  }

  // ---------------------------------------------------------------- operations

  /** generic_tree_create under a parent. */
  function Create(t: Tree, p: Pid, parent: Pid): Tree
    requires parent in t.subs
  {
    Tree(t.parent[p := parent], t.subs[parent := t.subs[parent] + [p]][p := []])
  }

  /** s without its first x: linked_list_find, then linked_list_remove. */
  function RemoveFirst<T(==)>(s: seq<T>, x: T): seq<T> {
    if s == [] then [] else if s[0] == x then s[1..] else [s[0]] + RemoveFirst(s[1..], x)
  }

  /** The parent fields after the children in kids were moved to q. */
  function Adopt(parent: map<Pid, Pid>, kids: seq<Pid>, q: Pid): map<Pid, Pid> {
    map p | p in parent.Keys + (set k | k in kids) :: if p in kids then q else parent[p]
  }

  /** The reparenting of proc_destroy, and generic_tree_destroy. */
  function Destroy(t: Tree, p: Pid): Tree
    requires p in t.subs && p in t.parent && t.parent[p] in t.subs
  {
    var q := t.parent[p];
    Tree(Adopt(t.parent, t.subs[p], q) - {p},
         t.subs[q := RemoveFirst(t.subs[q] + t.subs[p], p)] - {p})
  }

  lemma CreateOk(t: Tree, p: Pid, parent: Pid)
    requires Ok(t) && parent in t.subs && p !in t.subs && forall q :: q in t.subs ==> q < p
    ensures Ok(Create(t, p, parent))
  {
    var u := Create(t, p, parent);
    if p in t.subs[parent] {
      Child(t, parent, p);
    }
    assert Once(t, parent);
    NoDupConcat(t.subs[parent], [p]);
    forall q | q in u.subs ensures Once(u, q) {
      assert q != p ==> Once(t, q);
    }
    forall q, c | Listed(u, q, c) ensures c in u.parent && u.parent[c] == q {
      if q != parent || c != p {
        Child(t, q, c);
      }
    }
    forall c | c in u.parent ensures Hangs(u, c) {
      if c == p {
        assert u.subs[parent][|t.subs[parent]|] == p;
      } else {
        assert Hangs(t, c);
      }
    }
  }

  lemma {:induction false} RemoveFirstIs<T>(s: seq<T>, x: T)
    requires NoDup(s)
    ensures NoDup(RemoveFirst(s, x))
    ensures forall y :: y in RemoveFirst(s, x) <==> y in s && y != x
    decreases |s|
  {
    if s != [] && s[0] != x {
      RemoveFirstIs(s[1..], x);
      assert s == [s[0]] + s[1..] && s[0] !in s[1..];
    }
  }

  lemma NoDupConcat<T>(a: seq<T>, b: seq<T>)
    requires NoDup(a) && NoDup(b) && forall x :: x in a ==> x !in b
    ensures NoDup(a + b)
  {
    forall i, j | 0 <= i < j < |a + b| ensures (a + b)[i] != (a + b)[j] {
      if i < |a| <= j {
        assert a[i] in a && b[j - |a|] in b;
      }
    }
  }

  /** Exactly p is gone, p's children belong to p's parent next to those it had, and every other
      parent field and list is as it was. */
  ghost predicate Rehung(t: Tree, p: Pid, u: Tree)
    requires p in t.parent && p in t.subs
  {
    var q := t.parent[p];
    && q in u.subs && (forall a :: a in u.subs <==> a in t.subs && a != p)
    && (forall c :: c in u.parent <==> c in t.parent && c != p)
    && (forall c :: c in u.parent ==> u.parent[c] == if t.parent[c] == p then q else t.parent[c])
    && Once(u, q) && q in t.subs
    && (forall c :: c in u.subs[q] <==> (c in t.subs[q] && c != p) || c in t.subs[p])
    && (forall a :: a in u.subs && a != q ==> u.subs[a] == t.subs[a])
  }

  /** The list of p's parent takes over p's children and loses p. */
  lemma DestroyLists(t: Tree, p: Pid)
    requires Ok(t) && p in t.subs && p != KERNEL
    ensures Hangs(t, p)
    ensures var q, list := t.parent[p], RemoveFirst(t.subs[t.parent[p]] + t.subs[p], p);
            && NoDup(list) && forall c :: c in list <==> (c in t.subs[q] && c != p) || c in t.subs[p]
  {
    assert Hangs(t, p);
    var q := t.parent[p];
    forall x | x in t.subs[q] ensures x !in t.subs[p] {
      Child(t, q, x);
      assert !Listed(t, p, x);
    }
    assert Once(t, q) && Once(t, p);
    NoDupConcat(t.subs[q], t.subs[p]);
    RemoveFirstIs(t.subs[q] + t.subs[p], p);
    if p in t.subs[p] {
      Child(t, p, p);
    }
  }

  lemma DestroyRehangs(t: Tree, p: Pid)
    requires Ok(t) && p in t.subs && p != KERNEL
    ensures Hangs(t, p) && Rehung(t, p, Destroy(t, p))
  {
    DestroyLists(t, p);
    forall c | c in t.subs[p] ensures c in t.parent && c != p {
      Child(t, p, c);
    }
    forall c | c in t.parent && c != p ensures c in t.subs[p] <==> t.parent[c] == p {
      assert Hangs(t, c) && (c in t.subs[p] ==> Listed(t, p, c));
    }
  }

  lemma RehungOk(t: Tree, p: Pid, u: Tree)
    requires Ok(t) && p in t.subs && p != KERNEL && Rehung(t, p, u)
    ensures Ok(u)
  {
    assert Hangs(t, p);
    forall c | c in u.parent ensures Hangs(u, c) {
      assert Hangs(t, c);
    }
    forall a, c | Listed(u, a, c) ensures c in u.parent && u.parent[c] == a {
      if c in t.subs[p] {
        Child(t, p, c);
      }
      if c in t.subs[a] {
        Child(t, a, c);
      }
    }
    forall a | a in u.subs ensures Once(u, a) {
      assert Once(t, a);
    }
  }

  /** proc_destroy keeps a tree rooted at the kernel, with the parent fields in agreement. */
  lemma DestroyOk(t: Tree, p: Pid)
    requires Ok(t) && p in t.subs && p != KERNEL
    ensures Hangs(t, p) && Rehung(t, p, Destroy(t, p)) && Ok(Destroy(t, p))
  {
    DestroyRehangs(t, p);
    RehungOk(t, p, Destroy(t, p));
  }

  /** Being under a surviving process does not change: the destroyed one is only cut out. */
  lemma {:induction false} DestroyKeepsUnder(t: Tree, p: Pid, a: Pid, c: Pid)
    requires Ok(t) && p in t.subs && p != KERNEL && a != p && c != p
    ensures Hangs(t, p) && Ok(Destroy(t, p)) && (Under(Destroy(t, p), a, c) <==> Under(t, a, c))
    decreases c
  {
    DestroyOk(t, p);
    var u := Destroy(t, p);
    if c != a && c in u.parent {
      assert Hangs(t, c) && Hangs(u, c);
      if t.parent[c] == p {
        DestroyKeepsUnder(t, p, a, t.parent[p]);
        assert Under(t, a, c) <==> Under(t, a, p);
      } else {
        DestroyKeepsUnder(t, p, a, t.parent[c]);
      }
    }
  }

  // ---------------------------------------------------------------- searches

  /** proc_find_recur: it looks at the first child only, and goes on below it. */
  function Find(t: Tree, at: Pid, pid: int, last: Pid): (r: Pid)
    requires Ok(t) && at in t.subs && forall p :: p in t.subs ==> p <= last
    ensures r == 0 || (r == pid && r in t.subs)
    decreases last - at
  {
    if pid == 0 then 0
    else if at == pid then at
    else if t.subs[at] == [] then 0
    else
      var child := t.subs[at][0];
      Child(t, at, child);
      if child == pid then child else Find(t, child, pid, last)
  }

  /** generic_tree_traverse with the comparison of generic_tree_find_subtree. */
  function Traverse(t: Tree, at: Pid, pid: Pid, last: Pid): (r: bool)
    requires Ok(t) && at in t.subs && forall p :: p in t.subs ==> p <= last
    decreases last - at, 1, 0
  {
    at == pid || TraverseAll(t, at, 0, pid, last)
  }

  /** The inner loop of generic_tree_traverse, from the i-th sub-tree on. */
  function TraverseAll(t: Tree, at: Pid, i: nat, pid: Pid, last: Pid): (r: bool)
    requires Ok(t) && at in t.subs && i <= |t.subs[at]| && forall p :: p in t.subs ==> p <= last
    decreases last - at, 0, |t.subs[at]| - i
  {
    if i == |t.subs[at]| then false
    else
      var child := t.subs[at][i];
      Child(t, at, child);
      Traverse(t, child, pid, last) || TraverseAll(t, at, i + 1, pid, last)
  }

  /** The traversal reaches exactly the processes under its root, so from the kernel all of them. */
  lemma {:induction false} TraverseIff(t: Tree, at: Pid, pid: Pid, last: Pid)
    requires Ok(t) && at in t.subs && forall p :: p in t.subs ==> p <= last
    ensures Traverse(t, at, pid, last) <==> Under(t, at, pid)
    decreases last - at, 1, 0
  {
    TraverseAllIff(t, at, 0, pid, last);
    if Under(t, at, pid) && pid != at {
      var c := Below(t, at, pid);
      var i :| 0 <= i < |t.subs[at]| && t.subs[at][i] == c;
    }
    if i: nat :| i < |t.subs[at]| && Under(t, t.subs[at][i], pid) {
      Child(t, at, t.subs[at][i]);
      UnderUp(t, at, t.subs[at][i], pid);
    }
  }

  lemma {:induction false} TraverseAllIff(t: Tree, at: Pid, i: nat, pid: Pid, last: Pid)
    requires Ok(t) && at in t.subs && i <= |t.subs[at]| && forall p :: p in t.subs ==> p <= last
    ensures TraverseAll(t, at, i, pid, last) <==> exists j :: i <= j < |t.subs[at]| && Under(t, t.subs[at][j], pid)
    decreases last - at, 0, |t.subs[at]| - i
  {
    if i < |t.subs[at]| {
      Child(t, at, t.subs[at][i]);
      TraverseIff(t, t.subs[at][i], pid, last);
      TraverseAllIff(t, at, i + 1, pid, last);
    }
  }

  /** The child of a through which p hangs under a. */
  lemma {:induction false} Below(t: Tree, a: Pid, p: Pid) returns (c: Pid)
    requires Ok(t) && a in t.subs && Under(t, a, p) && p != a
    ensures c in t.subs[a] && Under(t, c, p)
    decreases p
  {
    assert Hangs(t, p);
    if t.parent[p] == a {
      c := p;
    } else {
      c := Below(t, a, t.parent[p]);
    }
  }

  lemma {:induction false} UnderUp(t: Tree, a: Pid, c: Pid, p: Pid)
    requires Ok(t) && c in t.parent && t.parent[c] == a && Under(t, c, p)
    ensures Under(t, a, p)
    decreases p
  {
    assert Hangs(t, c);
    if p != c {
      assert Hangs(t, p);
      UnderUp(t, a, c, t.parent[p]);
    }
  }

  lemma {:induction false} TraverseFindsAll(t: Tree, pid: Pid, last: Pid)
    requires Ok(t) && forall p :: p in t.subs ==> p <= last
    ensures Traverse(t, KERNEL, pid, last) <==> pid in t.subs
  {
    TraverseIff(t, KERNEL, pid, last);
    Rooted(t, pid);
  }

  /** proc_find misses processes that a full search finds: a second child is never looked at. */
  lemma FindMissesSecondChild()
    ensures var t := Tree(map[2 := 1, 3 := 1], map[1 := [2, 3], 2 := [], 3 := []]);
            Ok(t) && Find(t, KERNEL, 3, 3) == 0 && Traverse(t, KERNEL, 3, 3)
  {
    var t := Tree(map[2 := 1, 3 := 1], map[1 := [2, 3], 2 := [], 3 := []]);
    assert t.subs[1][0] == 2 && t.subs[1][1] == 3;
    TraverseFindsAll(t, 3, 3);
  }

  /** p is the first child of its parent. */
  predicate FirstChild(t: Tree, p: Pid) {
    p in t.parent && t.parent[p] in t.subs && t.subs[t.parent[p]] != [] && t.subs[t.parent[p]][0] == p
  }

  /** Every process on the way from p up to a, p included and a not, is a first child. */
  ghost predicate FirstsBelow(t: Tree, a: Pid, p: Pid)
    requires Ok(t)
  {
    forall c {:trigger FirstChild(t, c)} :: c != a && Under(t, a, c) && Under(t, c, p) ==> FirstChild(t, c)
  }

  lemma {:induction false} UnderAtMost(t: Tree, a: Pid, p: Pid)
    requires Ok(t) && Under(t, a, p)
    ensures a <= p
    decreases p
  {
    if p != a {
      assert Hangs(t, p);
      UnderAtMost(t, a, t.parent[p]);
    }
  }

  lemma {:induction false} UnderTrans(t: Tree, a: Pid, b: Pid, p: Pid)
    requires Ok(t) && Under(t, a, b) && Under(t, b, p)
    ensures Under(t, a, p)
    decreases p
  {
    if p != b {
      assert Hangs(t, p);
      UnderTrans(t, a, b, t.parent[p]);
    }
  }

  /** The way up is one line: two ancestors are one above the other. */
  lemma {:induction false} OneLine(t: Tree, a: Pid, b: Pid, p: Pid)
    requires Ok(t) && Under(t, a, p) && Under(t, b, p)
    ensures Under(t, a, b) || Under(t, b, a)
    decreases p
  {
    if p != a && p != b {
      assert Hangs(t, p);
      OneLine(t, a, b, t.parent[p]);
    }
  }

  /** So p lies under one child of a process only. */
  lemma OneChild(t: Tree, a: Pid, c: Pid, d: Pid, p: Pid)
    requires Ok(t) && Listed(t, a, c) && Listed(t, a, d) && Under(t, c, p) && Under(t, d, p)
    ensures c == d
  {
    OneLine(t, c, d, p);
    Child(t, a, c);
    Child(t, a, d);
    if c != d {
      if Under(t, c, d) {
        UnderAtMost(t, c, a);
      } else {
        UnderAtMost(t, d, a);
      }
    }
  }

  /** What proc_find finds below at: the processes reached from at by first children only. */
  lemma {:induction false} FindBelowIff(t: Tree, at: Pid, pid: Pid, last: Pid)
    requires Ok(t) && at in t.subs && pid != 0 && (forall p :: p in t.subs ==> p <= last)
    ensures Find(t, at, pid, last) == pid <==> Under(t, at, pid) && FirstsBelow(t, at, pid)
    decreases last - at
  {
    if at == pid {
      forall c | Under(t, at, c) && Under(t, c, pid) ensures c == at {
        UnderAtMost(t, at, c);
        UnderAtMost(t, c, pid);
      }
    } else if t.subs[at] == [] {
      if Under(t, at, pid) {
        var c := Below(t, at, pid);
      }
    } else {
      var child := t.subs[at][0];
      Child(t, at, child);
      FindBelowIff(t, child, pid, last);
      if Under(t, child, pid) && FirstsBelow(t, child, pid) {
        FirstsUp(t, at, child, pid);
      }
      if Under(t, at, pid) && FirstsBelow(t, at, pid) {
        FirstsDown(t, at, child, pid);
      }
    }
  }

  lemma FirstsUp(t: Tree, at: Pid, child: Pid, pid: Pid)
    requires Ok(t) && at in t.subs && t.subs[at] != [] && child == t.subs[at][0]
    requires Under(t, child, pid) && FirstsBelow(t, child, pid)
    ensures Under(t, at, pid) && FirstsBelow(t, at, pid)
  {
    assert Listed(t, at, child);
    Child(t, at, child);
    UnderUp(t, at, child, pid);
    forall c | c != at && Under(t, at, c) && Under(t, c, pid) ensures FirstChild(t, c) {
      var d := Below(t, at, c);
      assert Listed(t, at, d);
      UnderTrans(t, d, c, pid);
      OneChild(t, at, child, d, pid);
      assert c != child ==> FirstChild(t, c);
    }
  }

  lemma FirstsDown(t: Tree, at: Pid, child: Pid, pid: Pid)
    requires Ok(t) && at in t.subs && t.subs[at] != [] && child == t.subs[at][0] && pid != at
    requires Under(t, at, pid) && FirstsBelow(t, at, pid)
    ensures Under(t, child, pid) && FirstsBelow(t, child, pid)
  {
    var d := Below(t, at, pid);
    Child(t, at, d);
    UnderUp(t, at, d, d);
    assert FirstChild(t, d);
    forall c | c != child && Under(t, child, c) && Under(t, c, pid) ensures FirstChild(t, c) {
      UnderUp(t, at, child, c);
      UnderAtMost(t, child, c);
      assert c != at;
      assert FirstChild(t, c);
    }
  }

  /** proc_find finds a process if and only if the process itself and each of its ancestors below
      the kernel is the first child of its parent. */
  lemma FindIff(t: Tree, pid: Pid, last: Pid)
    requires Ok(t) && pid != 0 && (forall p :: p in t.subs ==> p <= last)
    ensures Find(t, KERNEL, pid, last) == pid
       <==> pid in t.subs && forall c :: c in t.parent && Under(t, c, pid) ==> FirstChild(t, c)
  {
    FindBelowIff(t, KERNEL, pid, last);
    Rooted(t, pid);
    forall c ensures c in t.parent <==> c != KERNEL && Under(t, KERNEL, c) {
      Rooted(t, c);
    }
  }
}
