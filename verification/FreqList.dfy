/** The doubly linked list of one frequency, between two sentinels. */
module FreqLists {

  class Node<K(0), V(0)> {
    var freq: int
    const key: K
    var value: V
    var pre: Node?<K, V>
    var next: Node?<K, V>
    ghost var owner: FreqList?<K, V>  // the list this node is linked into, if any

    twostate predicate SameLinks()
      reads this
    {
      pre == old(pre) && next == old(next) && owner == old(owner)
    }

    /** A sentinel: default key and value, frequency one. */
    constructor Sentinel()
      ensures freq == 1 && pre == null && next == null && owner == null
    {
      freq, pre, next, owner := 1, null, null, null;
    }

    constructor (key: K, value: V)
      ensures this.key == key && this.value == value && freq == 1
      ensures pre == null && next == null && owner == null
    {
      this.key, this.value := key, value;
      freq, pre, next, owner := 1, null, null, null;
    }
  }

  class FreqList<K(0), V(0)> {
    const freq: int
    const head: Node<K, V>
    const tail: Node<K, V>
    ghost var spine: seq<Node<K, V>>  // head, the nodes in order of arrival, tail

    ghost predicate Valid()
      reads `spine, spine`owner, spine`pre, spine`next
    {
      && |spine| >= 2 && spine[0] == head && spine[|spine| - 1] == tail
      && (forall i :: 0 <= i < |spine| ==> spine[i].owner == this)
      && (forall i, j :: 0 <= i < j < |spine| ==> spine[i] != spine[j])
      && (forall i {:trigger spine[i].next} :: 0 <= i < |spine| - 1 ==> spine[i].next == spine[i + 1])
      && (forall i {:trigger spine[i].pre} :: 0 < i < |spine| ==> spine[i].pre == spine[i - 1])
      && head.pre == null && tail.next == null
    }

    /** The nodes between the sentinels, oldest first. */
    ghost function Nodes(): seq<Node<K, V>>
      reads `spine
    {
      Inner(spine)
    }

    ghost function Keys(): seq<K>
      reads `spine
    {
      KeysOf(Nodes())
    }

    static ghost function KeysOf(nodes: seq<Node<K, V>>): seq<K> {
      seq(|nodes|, i requires 0 <= i < |nodes| => nodes[i].key)
    }

    constructor (n: int)
      ensures Valid() && fresh(spine)
      ensures freq == n && spine == [head, tail]
    {
      freq := n;
      var h := new Node<K, V>.Sentinel();
      var t := new Node<K, V>.Sentinel();
      head, tail := h, t;
      spine := [h, t];
      new;
      head.next := tail;
      tail.pre := head;
      head.owner, tail.owner := this, this;
    }

    method IsEmpty() returns (empty: bool)
      requires Valid()
      ensures empty == (Nodes() == [])
    {
      empty := head.next == tail;
      assert spine[0].next == spine[1];
    }

    method GetFirstNode() returns (node: Node?<K, V>)
      requires Valid()
      ensures node == spine[1]
    {
      node := head.next;
      assert spine[0].next == spine[1];
    }

    /** Appends a node that is in no list. */
    method AddNode(node: Node<K, V>)
      requires Valid() && node.owner == null
      modifies this`spine, node`pre, node`next, node`owner, tail`pre, spine`next
      ensures Valid()
      ensures spine == old(spine[..|spine| - 1]) + [node, tail]
      ensures Nodes() == old(Nodes()) + [node]
      ensures forall n :: n in old(spine) && n != old(spine[|spine| - 2]) ==> n.next == old(n.next)
    {
      var last := spine[|spine| - 2];
      assert tail.pre == last by { assert spine[|spine| - 1].pre == last; }
      node.pre := tail.pre;
      node.next := tail;
      tail.pre.next := node;
      tail.pre := node;
      node.owner := this;
      spine := spine[..|spine| - 1] + [node, tail];
    }

    static ghost function Inner(spine: seq<Node<K, V>>): seq<Node<K, V>> {
      if |spine| < 2 then [] else spine[1..|spine| - 1]
    }

    static lemma InnerWithout(spine: seq<Node<K, V>>, i: nat)
      requires 0 < i < |spine| - 1
      ensures Inner(spine[..i] + spine[i + 1..]) == Inner(spine)[..i - 1] + Inner(spine)[i..]
    {
    }

    ghost predicate Linked(node: Node<K, V>)
      reads node
    {
      node.pre != null && node.next != null
    }

    /** Takes a linked node, at position `i`, out; a node without both neighbours is left alone. */
    method RemoveNode(node: Node<K, V>, ghost i: nat)
      requires Valid()
      requires Linked(node) ==> 0 < i < |spine| - 1 && spine[i] == node
      modifies this`spine, spine`pre, spine`next, node`pre, node`next, node`owner
      ensures Valid()
      ensures !old(Linked(node)) ==> spine == old(spine) && unchanged(node) && unchanged(spine)
      ensures old(Linked(node)) ==>
        && spine == old(spine[..i] + spine[i + 1..])
        && Nodes() == old(Nodes()[..i - 1] + Nodes()[i..])
        && node.pre == null && node.next == null && node.owner == null
    {
      hide Inner;
      if node.pre == null || node.next == null {
        return;
      }
      assert node.pre == spine[i - 1] && node.next == spine[i + 1];
      InnerWithout(spine, i);
      node.pre.next := node.next;
      node.next.pre := node.pre;
      node.pre := null;
      node.next := null;
      node.owner := null;
      spine := spine[..i] + spine[i + 1..];
    }

    /** A list none of whose links changed is still well formed. */
    twostate lemma Kept()
      requires old(Valid()) && spine == old(spine)
      requires forall i :: 0 <= i < |spine| ==> spine[i].SameLinks()
      ensures Valid()
    {
    }
  }
}
