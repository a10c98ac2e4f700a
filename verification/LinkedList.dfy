/** The doubly linked list of kernel/util/linked_list.c, refined to a sequence. */
module LinkedList {
  import opened Machine
  import opened Links

  class List<T(==)> {
    var head: Node?<T>
    var tail: Node?<T>
    var length: int
    ghost var nodes: seq<Node<T>>
    ghost var Contents: seq<T>
    ghost var Repr: set<Node<T>>

    ghost predicate Valid()
      reads this, Repr
    {
      && length == |nodes|
      && (forall i :: 0 <= i < |nodes| ==> nodes[i] in Repr)
      && Holds(nodes, Contents)
      && Distinct(nodes)
      && head == (if nodes == [] then null else nodes[0])
      && tail == (if nodes == [] then null else nodes[|nodes| - 1])
      && Linked(nodes)
    }

    constructor ()
      ensures Valid() && fresh(Repr) && Contents == [] && nodes == []
    {
      head, tail, length := null, null, 0;
      nodes, Contents, Repr := [], [], {};
    }

    /** The bookkeeping that follows once a node is linked in at position k. */
    ghost method Record(node: Node<T>, k: nat)
      requires k <= |nodes| && length == |nodes| + 1 && node !in Repr
      requires (forall i :: 0 <= i < |nodes| ==> nodes[i] in Repr) && Holds(nodes, Contents) && Distinct(nodes)
      requires Linked(Put(nodes, k, node))
      requires head == Put(nodes, k, node)[0] && tail == Put(nodes, k, node)[|nodes|]
      modifies this`nodes, this`Contents, this`Repr
      ensures Valid() && Repr == old(Repr) + {node}
      ensures nodes == Put(old(nodes), k, node) && Contents == Put(old(Contents), k, node.data)
    {
      PutDistinct(nodes, k, node);
      PutHolds(nodes, Contents, k, node);
      nodes, Contents, Repr := Put(nodes, k, node), Put(Contents, k, node.data), Repr + {node};
    }

    /** linked_list_append: the data goes to the end; NULL is refused. */
    method Append(data: Option<T>) returns (r: Node?<T>)
      requires Valid()
      modifies this, Repr`p, Repr`n
      ensures Valid() && fresh(Repr - old(Repr))
      ensures if data.Some?
              then r != null && nodes == old(nodes) + [r] && Contents == old(Contents) + [data.value]
              else r == null && nodes == old(nodes) && Contents == old(Contents)
    {
      if data.None? {
        return null;
      }
      var node := new Node(data.value);
      AppendLinks(node);
      length := length + 1;
      Record(node, |nodes|);
      return node;
    }

    /** The link updates of linked_list_append. */
    method AppendLinks(node: Node<T>)
      requires Valid() && node !in Repr && node.p == null && node.n == null
      modifies this`head, this`tail, Repr`p, Repr`n, node`p, node`n
      ensures Linked(Put(nodes, |nodes|, node))
      ensures head == Put(nodes, |nodes|, node)[0] && tail == node
    {
      if length == 0 && head == null {
        head, tail := node, node;
        node.p, node.n := null, null;
      } else if length > 0 {
        assert tail.n == NextOf(nodes, |nodes| - 1);
        if head == tail {
          tail := node;
          head.n := tail;
          tail.p := head;
          tail.n := null;
        } else {
          tail.n := node;
          node.p := tail;
          tail := node;
        }
      }
      PutLinked(node, |nodes|);
    }

    /** Links around position k are in place and all others are as they were. */
    twostate lemma PutLinked(new node: Node<T>, k: nat)
      requires k <= |nodes| && node !in nodes && nodes == old(nodes)
      requires old(Linked(nodes)) && Distinct(nodes)
      requires node.p == (if k == 0 then null else nodes[k - 1]) && node.n == (if k == |nodes| then null else nodes[k])
      requires forall i {:trigger nodes[i]} :: 0 <= i < |nodes| ==>
                 && nodes[i].p == (if i == k then node else old(nodes[i].p))
                 && nodes[i].n == (if i == k - 1 then node else old(nodes[i].n))
      ensures Linked(Put(nodes, k, node))
    {
      var put := Put(nodes, k, node);
      forall i | 0 <= i < |put| ensures put[i].p == PrevOf(put, i) && put[i].n == NextOf(put, i) {
        if i != k {
          var j := if i < k then i else i - 1;
          assert old(nodes[j].p) == PrevOf(nodes, j) && old(nodes[j].n) == NextOf(nodes, j);
        }
      }
    }

    /** The link updates of linked_list_insert_at_index, in front of position k or at the end. */
    method InsertLinks(node: Node<T>, index: int) returns (ghost k: nat)
      requires Valid() && node !in Repr && node.p == null && node.n == null
      requires index >= 0 && (index == 0 || length > 0)
      modifies this`head, this`tail, Repr`p, Repr`n, node`p, node`n
      ensures k == (if index <= |nodes| then index else |nodes|)
      ensures Linked(Put(nodes, k, node))
      ensures head == Put(nodes, k, node)[0] && tail == Put(nodes, k, node)[|nodes|]
    {
      k := if index <= |nodes| then index else |nodes|;
      if index == 0 {
        if length == 0 {
          head, tail := node, node;
        } else {
          assert nodes[0].p == PrevOf(nodes, 0);
          node.p := null;
          node.n := head;
          head.p := node;
          head := node;
        }
      } else if index >= length {
        assert tail.n == NextOf(nodes, |nodes| - 1);
        tail.n := node;
        node.p := tail;
        node.n := null;
        tail := node;
      } else {
        var tmp := NodeAt(index);
        assert nodes[index].p == PrevOf(nodes, index) && nodes[index - 1].n == NextOf(nodes, index - 1);
        tmp.p.n := node;
        node.p := tmp.p;
        node.n := tmp;
        tmp.p := node;
      }
      PutLinked(node, k);
    }

    /** The walk of linked_list_insert_at_index to the node at an index. */
    method NodeAt(index: int) returns (tmp: Node<T>)
      requires Valid() && 0 <= index < length
      ensures tmp == nodes[index]
    {
      var i := 0;
      var at := head;
      while i < index && at != null
        invariant 0 <= i <= index && at == nodes[i]
      {
        assert nodes[i].n == NextOf(nodes, i);
        i := i + 1;
        at := at.n;
      }
      tmp := at;
    }

    /** linked_list_insert_at_index: in front of the element at index, or at the end when there is none.
        An index above 0 on an empty list makes the code follow the NULL tail. */
    method InsertAt(data: Option<T>, index: int) returns (r: Node?<T>)
      requires Valid()
      requires data.Some? && index > 0 ==> length > 0
      modifies this, Repr`p, Repr`n
      ensures Valid() && fresh(Repr - old(Repr))
      ensures if data.Some? && index >= 0
              then var k := if index <= |old(nodes)| then index else |old(nodes)|;
                   r != null && nodes == Put(old(nodes), k, r) && Contents == Put(old(Contents), k, data.value)
              else r == null && nodes == old(nodes) && Contents == old(Contents)
    {
      if data.None? || index < 0 {
        return null;
      }
      var node := new Node(data.value);
      ghost var k := InsertLinks(node, index);
      length := length + 1;
      Record(node, k);
      return node;
    }

    /** linked_list_find: the first node holding data, or NULL when none does. */
    method Find(data: Option<T>) returns (r: Node?<T>)
      requires Valid()
      ensures r == null <==> data.None? || data.value !in Contents
      ensures r != null ==> exists k :: 0 <= k < |nodes| && nodes[k] == r && Contents[k] == data.value && data.value !in Contents[..k]
    {
      if data.Some? {
        var at := head;
        ghost var i := 0;
        while at != null
          invariant 0 <= i <= |nodes| && at == (if i == |nodes| then null else nodes[i])
          invariant data.value !in Contents[..i]
          decreases |nodes| - i
        {
          assert nodes[i].n == NextOf(nodes, i);
          if at.data == data.value {
            return at;
          }
          at := at.n;
          i := i + 1;
        }
      }
      return null;
    }

    /** The search that opens linked_list_remove. */
    method Contains(node: Node<T>) returns (found: bool, ghost k: nat)
      requires Valid()
      ensures found <==> node in nodes
      ensures found ==> k < |nodes| && nodes[k] == node
    {
      var tmp := head;
      k := 0;
      while tmp != null
        invariant 0 <= k <= |nodes| && tmp == (if k == |nodes| then null else nodes[k])
        invariant node !in nodes[..k]
        decreases |nodes| - k
      {
        assert nodes[k].n == NextOf(nodes, k);
        if tmp == node {
          break;
        }
        tmp := tmp.n;
        k := k + 1;
      }
      found := tmp == node;
    }

    /** The link updates of linked_list_remove. */
    method RemoveLinks(node: Node<T>, ghost k: nat)
      requires Valid() && k < |nodes| && nodes[k] == node
      modifies this`head, this`tail, Repr`p, Repr`n
      ensures Linked(Cut(nodes, k))
      ensures head == (if |nodes| == 1 then null else Cut(nodes, k)[0])
      ensures tail == (if |nodes| == 1 then null else Cut(nodes, k)[|nodes| - 2])
    {
      assert nodes[k].p == PrevOf(nodes, k) && nodes[k].n == NextOf(nodes, k);
      if node == head {
        assert k == 0;
        if head.n != null {
          head := node.n;
          head.p := null;
        } else {
          head, tail := null, null;
        }
      } else if node == tail {
        assert k == |nodes| - 1;
        tail := node.p;
        tail.n := null;
      } else {
        assert 0 < k < |nodes| - 1;
        node.p.n := node.n;
        node.n.p := node.p;
      }
      node.n := null;
      node.p := null;
      ghost var cut := Cut(nodes, k);
      forall i | 0 <= i < |cut| ensures cut[i].p == PrevOf(cut, i) && cut[i].n == NextOf(cut, i) {
        ghost var j := if i < k then i else i + 1;
        assert old(nodes[j].p) == PrevOf(nodes, j) && old(nodes[j].n) == NextOf(nodes, j);
      }
    }

    /** linked_list_remove: take out exactly that node; a node of another list, or NULL, changes nothing. */
    method Remove(node: Node?<T>)
      requires Valid()
      modifies this, Repr`p, Repr`n
      ensures Valid() && Repr == old(Repr)
      ensures node == null || node !in old(nodes) ==> nodes == old(nodes) && Contents == old(Contents)
      ensures forall k :: 0 <= k < |old(nodes)| && old(nodes)[k] == node ==>
                nodes == Cut(old(nodes), k) && Contents == Cut(old(Contents), k)
    {
      if node != null {
        var found, k := Contains(node);
        if !found {
          return;
        }
        CutDistinct(nodes, k);
        CutHolds(nodes, Contents, k);
        RemoveLinks(node, k);
        length := length - 1;
        nodes, Contents := Cut(nodes, k), Cut(Contents, k);
      }
    }
  }
}
