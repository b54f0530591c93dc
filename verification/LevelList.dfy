/** One price level: a doubly linked FIFO of order nodes, shared by the two bucketed books
    (internal/matching/level_book.go, levell_book_heap.go). */
module LevelList {
  import opened Orders

  const NO_ORDER := Order(0, 0, 0, 0, 0)

  class Node {
    var prev: Node?
    var next: Node?
    var order: Order
    var lv: Level?
    var side: int

    constructor (order: Order, lv: Level?, side: int)
      ensures this.order == order && this.lv == lv && this.side == side
      ensures prev == null && next == null
    {
      this.prev, this.next, this.order, this.lv, this.side := null, null, order, lv, side;
    }
  }

  lemma DropMembers<T>(s: seq<T>, k: nat)
    requires k < |s|
    ensures forall x :: x in s && x != s[k] ==> x in s[..k] + s[k + 1..]
  {
    assert s == s[..k] + [s[k]] + s[k + 1..];
  }

  class Level {
    const price: int
    var head: Node?
    var tail: Node?
    var size: int
    ghost var nodes: seq<Node>
    ghost var repr: set<Node>
    ghost var queue: seq<Order>

    /** The links spell out `nodes`, forwards and backwards, and size counts them. */
    ghost predicate Linked()
      reads `head, `tail, `size, `nodes, `repr, repr`prev, repr`next
    {
      && (forall i :: 0 <= i < |nodes| ==> nodes[i] in repr)
      && size == |nodes|
      && head == (if nodes == [] then null else nodes[0])
      && tail == (if nodes == [] then null else nodes[|nodes| - 1])
      && (nodes != [] ==> nodes[0].prev == null && nodes[|nodes| - 1].next == null)
      && (forall i {:trigger nodes[i].prev} :: 1 <= i < |nodes| ==> nodes[i].prev == nodes[i - 1])
      && (forall i {:trigger nodes[i].next} :: 0 <= i < |nodes| - 1 ==> nodes[i].next == nodes[i + 1])
      && (forall i, j :: 0 <= i < j < |nodes| ==> nodes[i] != nodes[j])
    }

    ghost predicate Spelled()
      reads `nodes, `queue, nodes`order
    {
      |queue| == |nodes| && forall i :: 0 <= i < |nodes| ==> queue[i] == nodes[i].order
    }

    /** Well linked, every node points back to this level at its price, and the nodes' orders
        spell out the queue. */
    ghost predicate Valid()
      reads this, repr
      ensures Valid() ==> forall n :: n in repr ==> n.lv == this && n.order.price == price
      ensures Valid() ==> size == |queue|
      ensures Valid() && queue == [] ==> repr == {}
      ensures Valid() && queue != [] ==> head != null && head in repr && head.order == queue[0]
    {
      && Linked()
      && Spelled()
      && forall n :: n in repr ==> n.lv == this && n.order.price == price && n in nodes
    }

    constructor (price: int)
      ensures this.price == price && queue == [] && repr == {} && Valid()
    {
      this.price := price;
      head, tail, size, nodes, repr, queue := null, null, 0, [], {}, [];
    }

    predicate Empty()
      reads this
    {
      size == 0
    }

    method PushBack(n: Node)
      requires Valid() && n !in repr && n.lv == this && n.order.price == price
      modifies this, n`prev, n`next, repr`next
      ensures Valid() && queue == old(queue) + [n.order] && repr == old(repr) + {n}
    {
      hide Linked;
      Attach(n);
      queue := queue + [n.order];
    }

    /** Hangs n behind the tail. */
    method Attach(n: Node)
      requires Linked() && n !in repr
      modifies `head, `tail, `size, `nodes, `repr, n`prev, n`next, repr`next
      ensures Linked() && nodes == old(nodes) + [n] && repr == old(repr) + {n}
    {
      n.prev, n.next := tail, null;
      if tail != null {
        tail.next := n;
      } else {
        head := n;
      }
      tail := n;
      size := size + 1;
      nodes, repr := nodes + [n], repr + {n};
    }

    ghost function Neighbours(n: Node): set<Node>
      reads n
    {
      (if n.prev == null then {} else {n.prev}) + (if n.next == null then {} else {n.next})
    }

    /** Joins the neighbours of n, if it has any, and clears its links. Nothing checks that n hangs here. */
    method Unhook(n: Node)
      requires n !in Neighbours(n) && (n.prev != null ==> n.prev != n.next)
      modifies `head, `tail, `size, n`prev, n`next, Neighbours(n)`prev, Neighbours(n)`next
      ensures n.prev == null && n.next == null && size == old(size) - 1
      ensures head == if old(n.prev) == null then old(n.next) else old(head)
      ensures tail == if old(n.next) == null then old(n.prev) else old(tail)
      ensures old(n.prev) != null ==> old(n.prev).next == old(n.next) && old(n.prev).prev == old(n.prev.prev)
      ensures old(n.next) != null ==> old(n.next).prev == old(n.prev) && old(n.next).next == old(n.next.next)
    {
      if n.prev != null {
        n.prev.next := n.next;
      } else {
        head := n.next;
      }
      if n.next != null {
        n.next.prev := n.prev;
      } else {
        tail := n.prev;
      }
      n.prev, n.next := null, null;
      size := size - 1;
    }

    /** Takes the k-th node out of the list. */
    method Bypass(n: Node, ghost k: nat)
      requires Linked() && k < |nodes| && nodes[k] == n
      modifies `head, `tail, `size, `nodes, `repr, repr`prev, repr`next
      ensures Linked() && nodes == old(nodes)[..k] + old(nodes)[k + 1..] && repr == old(repr) - {n}
      ensures n.prev == null && n.next == null
      ensures old(head) == n ==> k == 0
    {
      assert n.prev == (if k == 0 then null else nodes[k - 1]);
      assert n.next == (if k == |nodes| - 1 then null else nodes[k + 1]);
      Unhook(n);
      nodes, repr := nodes[..k] + nodes[k + 1..], repr - {n};
    }

    method Remove(n: Node) returns (ghost k: nat)
      requires Valid() && n in repr
      modifies this, repr`prev, repr`next
      ensures Valid() && repr == old(repr) - {n} && n.prev == null && n.next == null
      ensures k < |old(queue)| && old(queue)[k] == n.order && queue == old(queue)[..k] + old(queue)[k + 1..]
      ensures old(head) == n ==> k == 0
    {
      hide Linked;
      k :| 0 <= k < |nodes| && nodes[k] == n;
      DropMembers(nodes, k);
      Bypass(n, k);
      queue := queue[..k] + queue[k + 1..];
    }

    /** Run on a node without neighbours that does not hang here any more, the unhooking cuts off the whole
        list and counts one node less. */
    method RemoveStray(n: Node)
      requires n.prev == null && n.next == null && n.lv == this
      modifies `head, `tail, `size, n`prev, n`next
      ensures head == null && tail == null && size == old(size) - 1 && n.prev == null && n.next == null
    {
      Unhook(n);
    }

    /** A linked node without a predecessor is the head. */
    lemma NoPrev(n: Node)
      requires Valid() && n in repr && n.prev == null
      ensures head == n
    {
      var i :| 0 <= i < |nodes| && nodes[i] == n;
    }

    lemma HeadFirst()
      requires Valid() && queue != []
      ensures nodes != [] && head == nodes[0] && forall i :: 1 <= i < |nodes| ==> nodes[i] != head
    {
    }

    /** Takes quantity off the order at the head. */
    method ReduceHead(exec: int)
      requires Valid() && queue != []
      modifies `queue, head`order
      ensures Valid() && head.order.id == old(head.order.id)
      ensures queue == [old(queue)[0].(qty := old(queue)[0].qty - exec)] + old(queue)[1..]
    {
      HeadFirst();
      hide Linked;
      head.order := head.order.(qty := head.order.qty - exec);
      queue := [queue[0].(qty := queue[0].qty - exec)] + queue[1..];
    }
  }

  /** The free list nodes are recycled through. */
  class NodePool {
    var free: seq<Node>
    ghost var repr: set<Node>

    ghost predicate Valid()
      reads this, repr
    {
      && (forall i :: 0 <= i < |free| ==> free[i] in repr)
      && (forall i, j :: 0 <= i < j < |free| ==> free[i] != free[j])
    }

    constructor ()
      ensures Valid() && free == [] && repr == {}
    {
      free, repr := [], {};
    }

    /** Every field of a recycled node is reset. */
    method Get(order: Order, lv: Level, side: int) returns (n: Node)
      requires Valid()
      modifies this, repr
      ensures Valid() && repr <= old(repr) && n !in repr && (n in old(repr) || fresh(n))
      ensures n.order == order && n.lv == lv && n.side == side && n.prev == null && n.next == null
    {
      if free == [] {
        n := new Node(order, lv, side);
      } else {
        n := free[|free| - 1];
        free := free[..|free| - 1];
        repr := repr - {n};
        n.prev, n.next, n.order, n.lv, n.side := null, null, order, lv, side;
      }
    }

    /** Every field of the node, its side included, is wiped as it goes back. */
    method Put(n: Node)
      requires Valid() && n !in repr
      modifies this, n
      ensures Valid() && free == old(free) + [n] && repr == old(repr) + {n} && n.side == 0
    {
      n.prev, n.next, n.order, n.lv, n.side := null, null, NO_ORDER, null, 0;
      free := free + [n];
      repr := repr + {n};
    }
  }
}
