/** Doubly linked nodes, and what it means that both link directions spell out one sequence. */
module Links {

  class Node<T> {
    var p: Node?<T>
    var n: Node?<T>
    const data: T

    constructor (data: T)
      ensures this.data == data && p == null && n == null
    {
      this.data := data;
      p, n := null, null;
    }
  }

  ghost function PrevOf<T>(nodes: seq<Node<T>>, i: int): Node?<T>
    requires 0 <= i < |nodes|
  {
    if i == 0 then null else nodes[i - 1]
  }

  ghost function NextOf<T>(nodes: seq<Node<T>>, i: int): Node?<T>
    requires 0 <= i < |nodes|
  {
    if i == |nodes| - 1 then null else nodes[i + 1]
  }

  ghost predicate Linked<T>(nodes: seq<Node<T>>)
    reads nodes
  {
    && (forall i {:trigger PrevOf(nodes, i)} :: 0 <= i < |nodes| ==> nodes[i].p == PrevOf(nodes, i))
    && (forall i {:trigger NextOf(nodes, i)} :: 0 <= i < |nodes| ==> nodes[i].n == NextOf(nodes, i))
  }

  /** The elements of s other than x, in order. */
  function Without<T(==)>(s: seq<T>, x: T): seq<T> {
    if s == [] then []
    else Without(s[..|s| - 1], x) + if s[|s| - 1] == x then [] else [s[|s| - 1]]
  }

  /** s with position k cut out. */
  ghost function Cut<T>(s: seq<T>, k: nat): (r: seq<T>)
    requires k < |s|
    ensures |r| == |s| - 1
    ensures forall i {:trigger r[i]} :: 0 <= i < |r| ==> r[i] == s[if i < k then i else i + 1]
  {
    s[..k] + s[k + 1..]
  }

  /** s with x put in front of position k. */
  ghost function Put<T>(s: seq<T>, k: nat, x: T): (r: seq<T>)
    requires k <= |s|
    ensures |r| == |s| + 1 && r[k] == x
    ensures forall i {:trigger r[i]} :: 0 <= i < |r| && i != k ==> r[i] == s[if i < k then i else i - 1]
  {
    s[..k] + [x] + s[k..]
  }

  ghost predicate Distinct<T>(nodes: seq<Node<T>>) {
    forall i, j :: 0 <= i < j < |nodes| ==> nodes[i] != nodes[j]
  }

  lemma CutDistinct<T>(nodes: seq<Node<T>>, k: nat)
    requires k < |nodes| && Distinct(nodes)
    ensures Distinct(Cut(nodes, k))
  {
  }

  ghost predicate Holds<T>(nodes: seq<Node<T>>, data: seq<T>)
  {
    |nodes| == |data| && forall i {:trigger nodes[i]} :: 0 <= i < |nodes| ==> nodes[i].data == data[i]
  }

  lemma CutHolds<T>(nodes: seq<Node<T>>, data: seq<T>, k: nat)
    requires k < |nodes| && Holds(nodes, data)
    ensures Holds(Cut(nodes, k), Cut(data, k))
  {
  }

  lemma PutDistinct<T>(nodes: seq<Node<T>>, k: nat, x: Node<T>)
    requires k <= |nodes| && Distinct(nodes) && x !in nodes
    ensures Distinct(Put(nodes, k, x))
  {
  }

  lemma PutHolds<T>(nodes: seq<Node<T>>, data: seq<T>, k: nat, x: Node<T>)
    requires k <= |nodes| && Holds(nodes, data)
    ensures Holds(Put(nodes, k, x), Put(data, k, x.data))
  {
  }
}
