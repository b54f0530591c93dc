/** One side of the bucketed book: the price-to-level map with its lazily cleaned heap. */
module BookSide {
  import opened Basics
  import opened Orders
  import opened BookSpec
  import opened BookRuns
  import opened HeapModel
  import opened LevelList
  import PriceHeap

  class BookSide {
    const ask: bool
    const heap: PriceHeap.PriceHeap
    var levels: map<int, Level>

    ghost var queues: map<int, seq<Order>>
    ghost var known: set<int>
    ghost var owned: set<Level>
    ghost var nodes: set<Node>

    /** The value this side stands for. */
    ghost function Abs(): Half
      reads this
    {
      Half(queues, known)
    }

    /** Every level is keyed by its price and spells out the model's queue; `nodes` are exactly
        the nodes linked in some level of this side. */
    ghost predicate LevelsValid()
      reads `levels, `queues, `owned, `nodes, owned, nodes
    {
      && levels.Keys == queues.Keys
      && (forall p :: p in levels ==>
            && levels[p] in owned && levels[p].price == p && levels[p].repr <= nodes
            && levels[p].Valid() && levels[p].queue == queues[p])
      && (forall n :: n in nodes ==> Placed(n))
    }

    ghost predicate Placed(n: Node)
      reads `levels, `owned, n, owned
    {
      && n.side == (if ask then SELL else BUY)
      && n.lv != null && n.lv in owned && n.lv.price in levels && levels[n.lv.price] == n.lv && n in n.lv.repr
    }

    /** The heap's entries, stale ones and duplicates included, are the known prices. */
    ghost predicate HeapValid()
      reads `known, heap
    {
      heap.ask == ask && heap.Valid() && forall x :: x in known <==> x in heap.a
    }

    ghost predicate Valid()
      reads this, heap, owned, nodes
    {
      LevelsValid() && HeapValid()
    }

    constructor (ask: bool)
      ensures Valid() && this.ask == ask && Abs() == Half(map[], {})
      ensures fresh(heap) && owned == {} && nodes == {} && Repr() == {this, heap}
    {
      this.ask := ask;
      heap := new PriceHeap.PriceHeap(ask);
      levels, queues, known, owned, nodes := map[], map[], {}, {}, {};
    }

    method AddLevel(p: int) returns (lv: Level)
      requires LevelsValid() && p !in levels
      modifies `levels, `queues, `owned
      ensures LevelsValid() && levels == old(levels)[p := lv] && owned == old(owned) + {lv} && fresh(lv)
      ensures queues == old(queues)[p := []] && lv.repr == {}
    {
      hide LevelsValid, Level.Valid;
      lv := new Level(p);
      Enlist(lv);
    }

    method Enlist(lv: Level)
      requires LevelsValid() && lv.price !in levels && lv.Valid() && lv.queue == [] && lv.repr == {}
      modifies `levels, `queues, `owned
      ensures LevelsValid() && levels == old(levels)[lv.price := lv] && owned == old(owned) + {lv}
      ensures queues == old(queues)[lv.price := []]
    {
      hide Level.Valid;
      levels := levels[lv.price := lv];
      owned := owned + {lv};
      queues := queues[lv.price := []];
    }

    /** The level of a price; a price without one gets an empty level and a heap entry. */
    method OpenLevel(p: int) returns (lv: Level)
      requires Valid()
      modifies this, heap
      ensures Valid() && p in levels && levels[p] == lv && nodes == old(nodes) && fresh(owned - old(owned))
      ensures old(owned) <= owned && lv in owned && lv.repr <= nodes
      ensures Abs() == if p in old(queues) then old(Abs()) else Half(old(queues)[p := []], old(known) + {p})
    {
      hide LevelsValid;
      LevelKeys();
      if p in levels {
        lv := levels[p];
        LevelAt(p);
      } else {
        lv := AddLevel(p);
        heap.Push(p);
        known := known + {p};
      }
    }

    lemma LevelAt(p: int)
      requires LevelsValid() && p in levels
      ensures levels[p] in owned && levels[p].price == p && levels[p].repr <= nodes
    {
    }

    lemma LevelKeys()
      requires LevelsValid()
      ensures levels.Keys == queues.Keys
    {
    }

    /** Valid but for the queue noted for level lv, and with ns as the linked nodes. */
    ghost predicate ValidBut(lv: Level, ns: set<Node>)
      reads `levels, `queues, `owned, owned, ns
    {
      && levels.Keys == queues.Keys
      && (forall p :: p in levels ==>
            && levels[p] in owned && levels[p].price == p && levels[p].repr <= ns
            && levels[p].Valid() && (levels[p] != lv ==> levels[p].queue == queues[p]))
      && (forall n :: n in ns ==> Placed(n))
    }

    /** Notes what the level lv spells out now. */
    ghost method Note(lv: Level)
      requires ValidBut(lv, nodes) && lv.price in levels && levels[lv.price] == lv
      modifies `queues
      ensures LevelsValid() && queues == old(queues)[lv.price := lv.queue]
    {
      hide Level.Valid;
      queues := queues[lv.price := lv.queue];
    }

    lemma Apart(lv: Level)
      requires LevelsValid() && lv.price in levels && levels[lv.price] == lv
      ensures forall p :: p in levels && levels[p] != lv ==> levels[p].repr !! lv.repr
    {
      hide Level.Valid;
    }

    method PushOn(lv: Level, n: Node)
      requires LevelsValid() && n !in nodes && n.order.price in levels && levels[n.order.price] == lv
      requires n.lv == lv && n.side == (if ask then SELL else BUY)
      modifies lv, n`prev, n`next, lv.repr`next
      ensures ValidBut(lv, nodes + {n}) && lv.queue == old(queues)[lv.price] + [n.order]
    {
      hide Level.Valid;
      Apart(lv);
      lv.PushBack(n);
    }

    method Append(lv: Level, n: Node)
      requires LevelsValid() && n !in nodes && n.order.price in levels && levels[n.order.price] == lv
      requires n.lv == lv && n.side == (if ask then SELL else BUY)
      modifies `queues, `nodes, lv, n`prev, n`next, lv.repr`next
      ensures LevelsValid() && nodes == old(nodes) + {n}
      ensures queues == old(queues)[n.order.price := old(queues)[n.order.price] + [n.order]]
    {
      hide LevelsValid, ValidBut, Level.Valid;
      LevelAt(n.order.price);
      PushOn(lv, n);
      nodes := nodes + {n};
      Note(lv);
    }

    method RemoveFrom(lv: Level, n: Node) returns (ghost k: nat)
      requires LevelsValid() && n in nodes && n.lv == lv
      modifies lv, lv.repr`prev, lv.repr`next
      ensures ValidBut(lv, nodes - {n}) && n.lv == lv && n.prev == null && n.next == null
      ensures lv.price in levels && levels[lv.price] == lv && lv.price in old(queues)
      ensures k < |old(queues)[lv.price]| && old(queues)[lv.price][k] == n.order
      ensures lv.queue == Without(old(queues)[lv.price], k) && n.order == old(n.order)
      ensures old(lv.head) == n ==> k == 0
    {
      hide Level.Valid;
      Apart(lv);
      k := lv.Remove(n);
    }

    /** Takes a node out of its level; the level stays, even when that empties it. */
    method Unlink(n: Node) returns (ghost k: nat)
      requires LevelsValid() && n in nodes
      modifies `queues, `nodes, n.lv, n.lv.repr`prev, n.lv.repr`next
      ensures LevelsValid() && nodes == old(nodes) - {n} && n.lv == old(n.lv) && n.prev == null && n.next == null
      ensures var p := n.lv.price;
              && p in old(queues) && k < |old(queues)[p]| && old(queues)[p][k] == n.order
              && queues == old(queues)[p := Without(old(queues)[p], k)]
      ensures old(n.lv.head) == n ==> k == 0
    {
      hide LevelsValid, ValidBut, Level.Valid;
      PlacedIn(n);
      k := RemoveFrom(n.lv, n);
      nodes := nodes - {n};
      Note(n.lv);
    }

    method ReduceIn(lv: Level, exec: int)
      requires LevelsValid() && lv.price in levels && levels[lv.price] == lv && queues[lv.price] != []
      modifies lv`queue, lv.head`order
      ensures ValidBut(lv, nodes) && lv.head != null && lv.head.order.id == old(lv.head.order.id)
      ensures var q := old(queues)[lv.price]; q != [] && lv.queue == [q[0].(qty := q[0].qty - exec)] + q[1..]
    {
      hide Level.Valid;
      Apart(lv);
      lv.ReduceHead(exec);
    }

    /** Takes quantity off the first order of a level. */
    method ReduceHead(lv: Level, exec: int)
      requires LevelsValid() && lv.price in levels && levels[lv.price] == lv && queues[lv.price] != []
      modifies `queues, lv`queue, lv.head`order
      ensures LevelsValid() && lv.head != null && lv.head.order.id == old(lv.head.order.id)
      ensures var q := old(queues)[lv.price];
              queues == old(queues)[lv.price := [q[0].(qty := q[0].qty - exec)] + q[1..]]
    {
      hide LevelsValid, ValidBut, Level.Valid;
      HeadOf(lv.price);
      ReduceIn(lv, exec);
      Note(lv);
    }

    /** Deletes the level of a price, if there is one. Orders still in it would hang in no level. */
    method DropLevel(p: int)
      requires LevelsValid()
      modifies `levels, `queues
      ensures levels == old(levels) - {p} && queues == old(queues) - {p}
      ensures LevelsValid() <==> Queue(old(queues), p) == []
    {
      hide Level.Valid;
      ghost var orphan: Node? := null;
      if p in queues && queues[p] != [] {
        LevelKeys();
        HeadOf(p);
        orphan := levels[p].head;
      }
      levels := levels - {p};
      queues := queues - {p};
      assert orphan != null ==> !Placed(orphan);
    }

    /** What the popping loop keeps: only entries of prices without orders have gone, and nothing
        better than a gone entry is left behind it. */
    ghost predicate Popping(old_known: set<int>)
      reads `queues, heap
    {
      && heap.ask == ask && heap.Valid()
      && (forall x :: x in heap.a ==> x in old_known)
      && (forall x :: x in old_known && x !in heap.a ==>
            Queue(queues, x) == [] && forall y :: y in heap.a ==> !Better(ask, y, x))
    }

    lemma TopIsBest(h: Half)
      requires h.levels == queues && Popping(h.heap) && heap.a != [] && Queue(queues, heap.a[0]) != []
      ensures Visible(h) != {} && BestOf(ask, Visible(h)) == heap.a[0]
      ensures heap.ask == ask && heap.Valid()
      ensures Pruned(ask, h).levels == queues && forall x :: x in Pruned(ask, h).heap <==> x in heap.a
    {
      var p := heap.a[0];
      PriceHeap.RootsBest(ask, heap.a);
      assert p in Visible(h);
      forall x | x in Visible(h)
        ensures !Better(ask, x, p)
      {
        assert x in heap.a;
      }
      BestIs(ask, Visible(h), p);
    }

    lemma AllGone(h: Half)
      requires h.levels == queues && Popping(h.heap) && heap.a == []
      ensures heap.ask == ask && heap.Valid()
      ensures Visible(h) == {} && Pruned(ask, h) == Half(queues, {})
    {
      forall x
        ensures x !in Visible(h)
      {
      }
    }

    /** Pops entries until the top of the heap is a price with an order. */
    method PopStale(ghost old_known: set<int>)
      requires LevelsValid() && Popping(old_known)
      modifies heap`a
      ensures Popping(old_known)
      ensures heap.a == [] || Queue(queues, heap.a[0]) != []
    {
      hide LevelsValid, Popping;
      LevelKeys();
      while |heap.a| > 0
        invariant Popping(old_known)
        decreases |heap.a|
      {
        var p := heap.a[0];
        if p in levels {
          LevelQueue(p);
          if !levels[p].Empty() {
            return;
          }
        }
        DropTop(old_known);
      }
    }

    lemma PoppingStarts()
      requires Valid()
      ensures LevelsValid() && Popping(known)
    {
      hide LevelsValid;
    }

    /** From here on the heap knows what is left in it. */
    ghost method Know(h: Half)
      requires LevelsValid() && heap.ask == ask && heap.Valid()
      requires forall x :: x in Pruned(ask, h).heap <==> x in heap.a
      modifies `known
      ensures Valid() && known == Pruned(ask, h).heap
    {
      hide LevelsValid, Pruned;
      known := Pruned(ask, h).heap;
    }

    method Best() returns (r: Option<int>)
      requires Valid()
      modifies `known, heap
      ensures Valid() && Abs() == Pruned(ask, old(Abs()))
      ensures r == (if Visible(old(Abs())) == {} then None else Some(BestOf(ask, Visible(old(Abs())))))
    {
      hide LevelsValid, HeapValid, Popping, Visible, Pruned, BestOf;
      ghost var h := Abs();
      PoppingStarts();
      PopStale(h.heap);
      if |heap.a| > 0 {
        TopIsBest(h);
        r := Some(heap.a[0]);
        Know(h);
      } else {
        AllGone(h);
        r := None;
        Know(h);
      }
    }

    lemma LevelQueue(p: int)
      requires LevelsValid() && p in levels
      ensures p in queues && levels[p].size == |queues[p]|
    {
      hide Level.Valid;
    }

    method DropTop(ghost old_known: set<int>)
      requires Popping(old_known) && heap.a != [] && Queue(queues, heap.a[0]) == []
      modifies heap`a
      ensures Popping(old_known) && |heap.a| == old(|heap.a|) - 1
    {
      var x := heap.Pop();
    }

    // ---- what an index over the nodes may rely on -------------------------------------------

    ghost function Repr(): set<object>
      reads this
    {
      {this, heap} + owned + nodes
    }

    lemma PlacedIn(n: Node)
      requires LevelsValid() && n in nodes
      ensures Placed(n) && n.lv.repr <= nodes && n.order.price == n.lv.price
    {
      hide Level.Valid;
    }

    lemma HeadOf(p: int)
      requires LevelsValid() && p in levels && queues[p] != []
      ensures var lv := levels[p];
              lv.price == p && lv.head != null && lv.head in nodes && lv.head.order == queues[p][0]
              && lv.head.lv == lv && lv in owned
    {
      hide Level.Valid;
    }

    lemma HeadIn(p: int)
      requires LevelsValid() && p in levels
      ensures levels[p].head == null || levels[p].head in nodes
    {
      if queues[p] != [] {
        HeadOf(p);
      } else {
        NoHead(p);
      }
      hide LevelsValid, Level.Valid;
    }

    lemma NoPrev(n: Node)
      requires LevelsValid() && n in nodes && n.prev == null
      ensures n.lv != null && n.lv.head == n
    {
      assert Placed(n);
      n.lv.NoPrev(n);
    }

    lemma NoHead(p: int)
      requires LevelsValid() && p in levels && queues[p] == []
      ensures levels[p].head == null
    {
      assert levels[p].Valid();
    }

    /** Each queued order sits in one node, at that place of its level. */
    lemma NodeOf(p: int, i: nat) returns (n: Node)
      requires LevelsValid() && p in queues && i < |queues[p]|
      ensures n in nodes && n.order == queues[p][i] && n.lv == levels[p]
      ensures i < |levels[p].nodes| && levels[p].nodes[i] == n
    {
      var lv := levels[p];
      assert lv.Valid();
      n := lv.nodes[i];
    }

    lemma SamePlace(p: int, i: nat, j: nat)
      requires LevelsValid() && p in levels && i < |levels[p].nodes| && j < |levels[p].nodes|
      requires levels[p].nodes[i] == levels[p].nodes[j]
      ensures i == j
    {
      assert levels[p].Valid();
    }

    lemma PlaceOf(n: Node) returns (i: nat)
      requires LevelsValid() && n in nodes
      ensures n.lv != null && n.lv.price in queues && i < |queues[n.lv.price]| && queues[n.lv.price][i] == n.order
    {
      var lv := levels[n.lv.price];
      assert lv.Valid();
      i :| 0 <= i < |lv.nodes| && lv.nodes[i] == n;
    }
  }
}
