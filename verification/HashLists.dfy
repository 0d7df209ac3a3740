/** The singly linked chunk lists of hashlist.c. */
module HashLists {
  import opened Basics

  datatype Addr = Addr(ip: int, port: int)

  type Hash = seq<byte>

  /** What a node is about: the peer it came from, the chunk's hash and its number. */
  datatype Item = Item(from: Addr, hash: Hash, chunkid: int)

  class Node {
    const item: Item
    var timestamp: int
    var next: Node?

    constructor (item: Item)
      ensures this.item == item && timestamp == 0 && next == null
    {
      this.item := item;
      timestamp, next := 0, null;
    }
  }

  /** The nodes reached from `head` are exactly s, in order, and none occurs twice. */
  ghost predicate Chain(head: Node?, s: seq<Node>)
    reads s
  {
    && head == At(s, 0)
    && (forall i {:trigger s[i].next} :: 0 <= i < |s| ==> s[i].next == At(s, i + 1))
    && Distinct(s)
  }

  function At(s: seq<Node>, i: nat): Node? { if i < |s| then s[i] else null }

  predicate Distinct<T(==)>(s: seq<T>) { forall i, j :: 0 <= i < j < |s| ==> s[i] != s[j] }

  function Items(s: seq<Node>): (r: seq<Item>)
    ensures |r| == |s|
  {
    seq(|s|, i requires 0 <= i < |s| => s[i].item)
  }

  function Without<T>(s: seq<T>, i: int): seq<T>
    requires 0 <= i < |s|
  {
    s[..i] + s[i + 1..]
  }

  lemma ItemsPush(n: Node, s: seq<Node>)
    ensures Items([n] + s) == [n.item] + Items(s)
  {
  }

  lemma ItemsWithout(s: seq<Node>, i: nat)
    requires i < |s|
    ensures Items(Without(s, i)) == Without(Items(s), i)
  {
  }

  /** The first position at or after i of an item with the given hash, or the length. */
  function HashIndex(s: seq<Item>, hash: Hash, i: nat): (k: nat)
    requires i <= |s|
    ensures i <= k <= |s|
    ensures k < |s| ==> s[k].hash == hash
    ensures forall j :: i <= j < k ==> s[j].hash != hash
    decreases |s| - i
  {
    if i == |s| || s[i].hash == hash then i else HashIndex(s, hash, i + 1)
  }

  /** What find_node_by_addr takes for the same peer: it also compares the dotted addresses, but both inet_ntoa calls
      return the same static buffer, so only the port decides. */
  predicate SamePeer(x: Addr, y: Addr) { x.port == y.port }

  /** The first position at or after i of an item from the given peer, or the length. */
  function AddrIndex(s: seq<Item>, addr: Addr, i: nat): (k: nat)
    requires i <= |s|
    ensures i <= k <= |s|
    ensures k < |s| ==> SamePeer(s[k].from, addr)
    ensures forall j :: i <= j < k ==> !SamePeer(s[j].from, addr)
    decreases |s| - i
  {
    if i == |s| || SamePeer(s[i].from, addr) then i else AddrIndex(s, addr, i + 1)
  }

  /** The first position of an item from exactly that address, or the length. */
  function OwnIndex(s: seq<Item>, addr: Addr, i: nat): (k: nat)
    requires i <= |s|
    ensures i <= k <= |s|
    ensures k < |s| ==> s[k].from == addr
    ensures forall j :: i <= j < k ==> s[j].from != addr
    decreases |s| - i
  {
    if i == |s| || s[i].from == addr then i else OwnIndex(s, addr, i + 1)
  }

  predicate FirstAtPort(s: seq<Item>, port: int, k: nat)
    requires k < |s|
  {
    s[k].from.port == port && forall j :: 0 <= j < k ==> s[j].from.port != port
  }

  /** The search finds what the whole address would find exactly when the first item with the port, if there is
      one, is from the same host. */
  lemma FindsOwnIff(s: seq<Item>, addr: Addr)
    ensures AddrIndex(s, addr, 0) == OwnIndex(s, addr, 0)
            <==> forall k :: 0 <= k < |s| && FirstAtPort(s, addr.port, k) ==> s[k].from.ip == addr.ip
  {
    var i, k := AddrIndex(s, addr, 0), OwnIndex(s, addr, 0);
    assert i < |s| ==> FirstAtPort(s, addr.port, i);
    assert i < |s| && s[i].from.ip == addr.ip ==> s[i].from == addr;
    assert k < |s| ==> SamePeer(s[k].from, addr);
  }

  /** A peer on another host with the same port is taken for this one. */
  lemma OtherHostFound(from: Addr, other: Addr, hash: Hash, id: int)
    requires from.port == other.port && from.ip != other.ip
    ensures HasAddr([Item(from, hash, id)], other) && OwnIndex([Item(from, hash, id)], other, 0) == 1
  {
    assert AddrIndex([Item(from, hash, id)], other, 0) == 0;
  }

  predicate HasHash(s: seq<Item>, hash: Hash) { HashIndex(s, hash, 0) < |s| }

  predicate HasAddr(s: seq<Item>, addr: Addr) { AddrIndex(s, addr, 0) < |s| }

  /** find_node, from any point of a chain */
  method FindNode(head: Node?, hash: Hash, ghost s: seq<Node>) returns (curr: Node?)
    requires Chain(head, s)
    ensures curr == At(s, HashIndex(Items(s), hash, 0))
  {
    curr := head;
    ghost var i := 0;
    while curr != null
      invariant 0 <= i <= |s| && curr == At(s, i)
      invariant HashIndex(Items(s), hash, 0) == HashIndex(Items(s), hash, i)
      decreases |s| - i
    {
      if curr.item.hash == hash { break; }
      curr := curr.next;
      i := i + 1;
    }
  }

  /** find_node_by_addr, from any point of a chain */
  method FindNodeByAddr(head: Node?, addr: Addr, ghost s: seq<Node>) returns (curr: Node?)
    requires Chain(head, s)
    ensures curr == At(s, AddrIndex(Items(s), addr, 0))
  {
    curr := head;
    ghost var i := 0;
    while curr != null
      invariant 0 <= i <= |s| && curr == At(s, i)
      invariant AddrIndex(Items(s), addr, 0) == AddrIndex(Items(s), addr, i)
      decreases |s| - i
    {
      if SamePeer(curr.item.from, addr) { break; }
      curr := curr.next;
      i := i + 1;
    }
  }

  /** A list head (`hash_chunk*` variable) with the nodes hanging off it. */
  class HashList {
    var head: Node?
    ghost var nodes: seq<Node>

    ghost predicate Valid()
      reads this, nodes
    {
      Chain(head, nodes)
    }

    ghost function Contents(): seq<Item>
      reads this
    {
      Items(nodes)
    }

    constructor ()
      ensures Valid() && nodes == []
    {
      head, nodes := null, [];
    }

    /** append_node: despite its name it pushes at the front */
    method AppendNode(node: Node)
      requires Valid() && node !in nodes
      modifies this, node`next
      ensures Valid() && nodes == [node] + old(nodes)
      ensures node.next == old(head)
    {
      node.next := head;
      head := node;
      nodes := [node] + nodes;
    }

    /** find_prev_node */
    method FindPrevNode(now: Node, ghost k: nat) returns (curr: Node)
      requires Valid() && 0 < k < |nodes| && nodes[k] == now
      ensures curr == nodes[k - 1]
    {
      var c := head;
      ghost var i := 0;
      while c.next != now
        invariant 0 <= i < k && c == nodes[i]
        decreases |nodes| - i
      {
        c := c.next;
        i := i + 1;
      }
      curr := c;
    }

    /** The unlinking shared by move_node and delete_node. */
    method Unlink(node: Node, ghost k: nat)
      requires Valid() && k < |nodes| && nodes[k] == node
      modifies this, (set n | n in nodes)`next
      ensures Valid() && nodes == Without(old(nodes), k)
      ensures node.next == old(node.next)
    {
      if head == node {
        head := node.next;
      } else {
        var prev := FindPrevNode(node, k);
        prev.next := node.next;
      }
      nodes := Without(nodes, k);
    }

    /** delete_node: complains and does nothing for a null node or an empty list */
    method DeleteNode(node: Node?, ghost k: nat)
      requires Valid() && (node != null && nodes != [] ==> k < |nodes| && nodes[k] == node)
      modifies this, (set n | n in nodes)`next
      ensures Valid()
      ensures nodes == if node == null || old(nodes) == [] then old(nodes) else Without(old(nodes), k)
      ensures node != null ==> node.next == old(node.next)
    {
      if node == null || head == null { return; }
      Unlink(node, k);
    }

    /** delete_node_by_hash: the first node with the hash, which must exist */
    method DeleteNodeByHash(hash: Hash)
      requires Valid() && HasHash(Contents(), hash)
      modifies this, (set n | n in nodes)`next
      ensures Valid() && nodes == Without(old(nodes), HashIndex(old(Contents()), hash, 0))
    {
      ghost var k := HashIndex(Contents(), hash, 0);
      var curr := FindNode(head, hash, nodes);
      Unlink(curr, k);
    }

    /** length_of_list */
    method Length() returns (count: nat)
      requires Valid()
      ensures count == |nodes|
    {
      count := 0;
      var list := head;
      while list != null
        invariant 0 <= count <= |nodes| && list == At(nodes, count)
        decreases |nodes| - count
      {
        list := list.next;
        count := count + 1;
      }
    }

    /** clear_hashchunk_list: delete the head until nothing is left */
    method Clear() returns (count: nat)
      requires Valid()
      modifies this, (set n | n in nodes)`next
      ensures Valid() && nodes == [] && count == old(|nodes|)
    {
      count := 0;
      ghost var all := nodes;
      var curr := head;
      while curr != null
        invariant Valid() && curr == head && count + |nodes| == |all| && nodes == all[count..]
        decreases |nodes|
      {
        var next := curr.next;
        DeleteNode(curr, 0);
        curr := next;
        count := count + 1;
      }
    }
  }

  /** move_node: unlink from one list, push at the front of the other */
  method MoveNode(to: HashList, from: HashList, node: Node, ghost k: nat)
    requires to != from && to.Valid() && from.Valid()
    requires (forall n :: n in to.nodes ==> n !in from.nodes)
    requires k < |from.nodes| && from.nodes[k] == node
    modifies to, from, (set n | n in from.nodes)`next
    ensures to.Valid() && from.Valid()
    ensures from.nodes == Without(old(from.nodes), k)
    ensures to.nodes == [node] + old(to.nodes)
    ensures node.next == old(to.head)
  {
    from.Unlink(node, k);
    to.AppendNode(node);
  }
}
