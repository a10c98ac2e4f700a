/** The doubly linked queue of kernel/util/queue.c, refined to a bounded sequence. */
module Queue {
  import opened Machine
  import opened Links

  lemma FilterEnds<T>(all: seq<T>, x: T)
    ensures Without(all[..0], x) + all[0..] == all
    ensures Without(all[..|all|], x) + all[|all|..] == Without(all, x)
  {
    assert all[..|all|] == all;
  }

  lemma FilterStep<T>(all: seq<T>, d: nat, x: T)
    requires d < |all|
    ensures var kept := Without(all[..d], x);
            && all[d..][0] == all[d] && (kept + all[d..])[|kept|] == all[d]
            && Without(all[..d + 1], x) == kept + (if all[d] == x then [] else [all[d]])
            && (if all[d] == x then Cut(kept + all[d..], |kept|) else kept + all[d..])
               == Without(all[..d + 1], x) + all[d + 1..]
  {
    assert all[..d + 1][..d] == all[..d];
  }

  class Queue<T(==)> {
    var head: Node?<T>
    var tail: Node?<T>
    var length: int
    var limit: int
    ghost var nodes: seq<Node<T>>
    ghost var Contents: seq<T>
    ghost var Repr: set<Node<T>>

    /** Both link directions, the ends, the length and the data agree with one sequence of nodes. */
    ghost predicate Valid()
      reads this, Repr
    {
      && length == |nodes|
      && (forall i :: 0 <= i < |nodes| ==> nodes[i] in Repr)
      && Holds(nodes, Contents)
      && Distinct(nodes)
      && head == (if nodes == [] then null else nodes[0])
      && tail == (if nodes == [] then null else nodes[|nodes| - 1])
      && Linked(nodes)
    }

    constructor (limit: int)
      ensures Valid() && fresh(Repr) && Contents == [] && this.limit == limit
    {
      head, tail, length := null, null, 0;
      this.limit := limit;
      nodes, Contents, Repr := [], [], {};
    }

    /** queue_enqueue: append, or refuse at the limit; -1 means no limit. */
    method Enqueue(data: Option<T>) returns (r: Node?<T>)
      requires Valid()
      modifies this, Repr`p, Repr`n
      ensures Valid() && fresh(Repr - old(Repr)) && limit == old(limit)
      ensures if data.Some? && (|old(Contents)| < limit || limit == -1)
              then r != null && Contents == old(Contents) + [data.value] && nodes == old(nodes) + [r]
              else r == null && Contents == old(Contents) && nodes == old(nodes)
    {
      if data.None? {
        return null;
      }
      var node := new Node(data.value);
      if length < limit || limit == -1 {
        Link(node);
        return node;
      }
      return null;
    }

    /** Hang a new node behind the tail. */
    method Link(node: Node<T>)
      requires Valid() && node !in Repr && node.p == null && node.n == null
      modifies this, Repr`p, Repr`n, node`p, node`n
      ensures Valid() && Repr == old(Repr) + {node} && limit == old(limit)
      ensures nodes == old(nodes) + [node] && Contents == old(Contents) + [node.data]
    {
      ghost var all := nodes;
      if head == null && tail == null {
        head, tail := node, node;
      } else {
        tail.n := node;
        node.p := tail;
        tail := node;
        tail.n := null;
      }
      length := length + 1;
      nodes, Contents, Repr := nodes + [node], Contents + [node.data], Repr + {node};
      forall i | 0 <= i < |nodes| ensures nodes[i].p == PrevOf(nodes, i) && nodes[i].n == NextOf(nodes, i) {
        if i < |all| {
          assert old(nodes[i].p) == PrevOf(all, i) && old(nodes[i].n) == NextOf(all, i);
        }
      }
    }

    /** queue_dequeue: the head, or NULL when the queue is empty. */
    method Dequeue() returns (data: Option<T>)
      requires Valid()
      modifies this, Repr`p, Repr`n
      ensures Valid() && Repr == old(Repr) && limit == old(limit)
      ensures if old(Contents) == [] then data == None && Contents == []
              else data == Some(old(Contents)[0]) && Contents == old(Contents)[1..] && nodes == old(nodes)[1..]
    {
      if head == null {
        return None;
      }
      var node := head;
      if head == tail && length == 1 {
        head, tail := null, null;
      } else {
        assert nodes[0].n == NextOf(nodes, 0);
        head := head.n;
        head.p := null;
      }
      data := Some(node.data);
      length := length - 1;
      ghost var all := nodes;
      nodes, Contents := nodes[1..], Contents[1..];
      forall i | 0 <= i < |nodes| ensures nodes[i].p == PrevOf(nodes, i) && nodes[i].n == NextOf(nodes, i) {
        assert old(nodes[i + 1].p) == PrevOf(all, i + 1) && old(nodes[i + 1].n) == NextOf(all, i + 1);
      }
    }

    /** The four cases of queue_force_remove: link the neighbours of a node to each other. */
    method Bypass(node: Node<T>, ghost k: nat)
      requires Valid() && k < |nodes| && nodes[k] == node
      modifies this`head, this`tail, Repr`p, Repr`n
      ensures Linked(Cut(nodes, k))
      ensures head == (if |nodes| == 1 then null else Cut(nodes, k)[0])
      ensures tail == (if |nodes| == 1 then null else Cut(nodes, k)[|nodes| - 2])
    {
      assert nodes[k].p == PrevOf(nodes, k) && nodes[k].n == NextOf(nodes, k);
      if length == 1 {
        head, tail := null, null;
      } else if node == head {
        assert k == 0;
        head := head.n;
        head.p := null;
      } else if node == tail {
        assert k == |nodes| - 1;
        tail := tail.p;
        tail.n := null;
      } else {
        assert 0 < k < |nodes| - 1;
        node.p.n := node.n;
        node.n.p := node.p;
      }
      ghost var cut := Cut(nodes, k);
      forall i | 0 <= i < |cut| ensures cut[i].p == PrevOf(cut, i) && cut[i].n == NextOf(cut, i) {
        ghost var j := if i < k then i else i + 1;
        assert old(nodes[j].p) == PrevOf(nodes, j) && old(nodes[j].n) == NextOf(nodes, j);
      }
    }

    method Unlink(node: Node<T>, ghost k: nat)
      requires Valid() && k < |nodes| && nodes[k] == node
      modifies this, Repr`p, Repr`n
      ensures Valid() && Repr == old(Repr) && limit == old(limit)
      ensures nodes == Cut(old(nodes), k) && Contents == Cut(old(Contents), k)
    {
      CutDistinct(nodes, k);
      CutHolds(nodes, Contents, k);
      Bypass(node, k);
      length := length - 1;
      nodes, Contents := Cut(nodes, k), Cut(Contents, k);
    }

    /** Where queue_force_remove stands after d elements of all: the kept ones, then the rest. */
    ghost predicate Filtered(all: seq<T>, d: nat, data: T, tmp: Node?<T>)
      requires d <= |all|
      reads this
    {
      && Contents == Without(all[..d], data) + all[d..]
      && |nodes| == |Contents|
      && tmp == if d == |all| then null else nodes[|Without(all[..d], data)|]
    }

    method Visit(tmp: Node<T>, data: T, ghost all: seq<T>, ghost d: nat) returns (n: Node?<T>)
      requires Valid() && d < |all| && Filtered(all, d, data, tmp)
      modifies this, Repr`p, Repr`n
      ensures Valid() && Repr == old(Repr) && limit == old(limit)
      ensures Filtered(all, d + 1, data, n)
    {
      ghost var kept := Without(all[..d], data);
      FilterStep(all, d, data);
      assert tmp.n == NextOf(nodes, |kept|);
      n := tmp.n;
      if tmp.data == data {
        Unlink(tmp, |kept|);
      }
    }

    /** queue_force_remove: filter out every occurrence, adjacent ones included. */
    method ForceRemove(data: Option<T>)
      requires Valid()
      modifies this, Repr`p, Repr`n
      ensures Valid() && Repr == old(Repr) && limit == old(limit)
      ensures Contents == if data.None? then old(Contents) else Without(old(Contents), data.value)
    {
      if data.None? || length == 0 {
        return;
      }
      ghost var all, d := Contents, 0;
      FilterEnds(all, data.value);
      var tmp := head;
      while tmp != null
        invariant Valid() && Repr == old(Repr) && limit == old(limit)
        invariant 0 <= d <= |all| && Filtered(all, d, data.value, tmp)
        decreases |all| - d
      {
        tmp := Visit(tmp, data.value, all, d);
        d := d + 1;
      }
      assert d == |all|;
    }
  }
}
