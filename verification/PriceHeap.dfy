/** Binary heap of prices (internal/matching/heap_price.go) with the sift loops that its five
    methods are driven by. `ask` selects the order: lowest price first, or highest first. */
module PriceHeap {
  import opened Orders

  function Parent(j: int): int
    requires j >= 1
  {
    (j - 1) / 2
  }

  /** No entry is better than its parent. */
  ghost predicate Heaped(ask: bool, a: seq<int>) {
    forall j :: 1 <= j < |a| ==> !Better(ask, a[j], a[Parent(j)])
  }

  /** Heap everywhere except possibly between j and its parent. */
  ghost predicate HeapedButUp(ask: bool, a: seq<int>, j: int) {
    && (forall k :: 1 <= k < |a| && k != j ==> !Better(ask, a[k], a[Parent(k)]))
    && (forall k :: 1 <= k < |a| && Parent(k) == j && 1 <= j < |a| ==> !Better(ask, a[k], a[Parent(j)]))
  }

  /** Heap everywhere except possibly between i and its children. */
  ghost predicate HeapedButDown(ask: bool, a: seq<int>, i: int) {
    && (forall k :: 1 <= k < |a| && Parent(k) != i ==> !Better(ask, a[k], a[Parent(k)]))
    && (forall k :: 1 <= k < |a| && Parent(k) == i && 1 <= i < |a| ==> !Better(ask, a[k], a[Parent(i)]))
  }

  function Swapped(a: seq<int>, i: nat, j: nat): (b: seq<int>)
    requires i < |a| && j < |a|
    ensures multiset(b) == multiset(a)
  {
    a[i := a[j]][j := a[i]]
  }

  /** The root of a heap is its best entry. */
  lemma {:induction false} RootIsBest(ask: bool, a: seq<int>, i: nat)
    requires Heaped(ask, a) && i < |a|
    ensures !Better(ask, a[i], a[0])
    decreases i
  {
    if i > 0 {
      RootIsBest(ask, a, Parent(i));
    }
  }

  lemma SiftedUp(ask: bool, a: seq<int>, j: nat)
    requires 1 <= j < |a| && HeapedButUp(ask, a, j) && Better(ask, a[j], a[Parent(j)])
    ensures HeapedButUp(ask, Swapped(a, Parent(j), j), Parent(j))
  {
    var i := Parent(j);
    var b := Swapped(a, i, j);
    forall k | 1 <= k < |b| && k != i
      ensures !Better(ask, b[k], b[Parent(k)])
    {
      assert !Better(ask, a[k], a[Parent(k)]) || k == j;
    }
    forall k | 1 <= k < |b| && Parent(k) == i && 1 <= i
      ensures !Better(ask, b[k], b[Parent(i)])
    {
      assert !Better(ask, a[i], a[Parent(i)]);
    }
  }

  lemma SiftedDown(ask: bool, a: seq<int>, i: nat, j: nat)
    requires i < |a| && (j == 2 * i + 1 || j == 2 * i + 2) && j < |a|
    requires HeapedButDown(ask, a, i) && Better(ask, a[j], a[i])
    requires forall k :: 2 * i + 1 <= k <= 2 * i + 2 && k < |a| ==> !Better(ask, a[k], a[j])
    ensures HeapedButDown(ask, Swapped(a, i, j), j)
  {
    var b := Swapped(a, i, j);
    forall k | 1 <= k < |b| && Parent(k) != j
      ensures !Better(ask, b[k], b[Parent(k)])
    {
      if Parent(k) == i {
        assert k == 2 * i + 1 || k == 2 * i + 2;
      }
    }
  }

  class PriceHeap {
    const ask: bool
    var a: seq<int>

    ghost predicate Valid()
      reads this
    {
      Heaped(ask, a)
    }

    constructor (ask: bool)
      ensures Valid() && a == [] && this.ask == ask
    {
      this.ask := ask;
      a := [];
    }

    predicate Less(i: nat, j: nat)
      requires i < |a| && j < |a|
      reads this
    {
      Better(ask, a[i], a[j])
    }

    method Up(start: nat)
      requires start < |a| && HeapedButUp(ask, a, start)
      modifies this`a
      ensures Valid() && multiset(a) == old(multiset(a))
    {
      hide HeapedButUp;
      var j := start;
      while j > 0 && Less(j, Parent(j))
        invariant 0 <= j < |a| && HeapedButUp(ask, a, j)
        invariant multiset(a) == old(multiset(a))
        decreases j
      {
        SiftedUp(ask, a, j);
        a := Swapped(a, Parent(j), j);
        j := Parent(j);
      }
      UpDone(ask, a, j);
    }

    method Down(start: nat)
      requires HeapedButDown(ask, a, start) && start <= |a|
      modifies this`a
      ensures Valid() && multiset(a) == old(multiset(a))
    {
      hide HeapedButDown;
      var i := start;
      while true
        invariant 0 <= i <= |a| && HeapedButDown(ask, a, i)
        invariant multiset(a) == old(multiset(a))
        decreases |a| - i
      {
        var j := 2 * i + 1;
        if j >= |a| {
          DownDone(ask, a, i);
          return;
        }
        if j + 1 < |a| && Less(j + 1, j) {
          j := j + 1;
        }
        if !Less(j, i) {
          DownDone(ask, a, i);
          return;
        }
        SiftedDown(ask, a, i, j);
        a := Swapped(a, i, j);
        i := j;
      }
    }

    method Push(x: int)
      requires Valid()
      modifies this`a
      ensures Valid() && multiset(a) == old(multiset(a)) + multiset{x}
      ensures forall y :: y in a <==> y == x || y in old(a)
    {
      a := a + [x];
      Up(|a| - 1);
      assert forall y :: y in a <==> y in multiset(a);
    }

    /** Moves the last entry to the root, drops the slot and sifts down. */
    method Pop() returns (x: int)
      requires Valid() && a != []
      modifies this`a
      ensures Valid() && x == old(a[0]) && |a| == old(|a|) - 1
      ensures multiset(a) == old(multiset(a)) - multiset{x}
      ensures forall y :: y in old(a) ==> !Better(ask, y, x) && (y == x || y in a)
      ensures forall y :: y in a ==> y in old(a)
    {
      ghost var was := a;
      RootsBest(ask, was);
      var n := |a| - 1;
      x := a[0];
      SlotDropped(was);
      a := Swapped(a, 0, n)[..n];
      ghost var moved := a;
      Down(0);
      SameMembers(a, moved);
    }
  }

  lemma SameMembers(a: seq<int>, b: seq<int>)
    requires multiset(a) == multiset(b)
    ensures forall y :: y in a <==> y in b
  {
    forall y
      ensures y in a <==> y in b
    {
      assert y in a <==> y in multiset(a);
      assert y in b <==> y in multiset(b);
    }
  }

  /** Moving the last entry over the root drops one copy of the root. */
  lemma SlotDropped(a: seq<int>)
    requires a != []
    ensures var b := Swapped(a, 0, |a| - 1)[..|a| - 1];
            && multiset(b) == multiset(a) - multiset{a[0]}
            && (forall y :: y in a ==> y == a[0] || y in b)
            && (forall y :: y in b ==> y in a)
  {
    var c := Swapped(a, 0, |a| - 1);
    assert c == c[..|a| - 1] + [a[0]];
    SameMembers(a, c);
  }

  lemma RootsBest(ask: bool, a: seq<int>)
    requires Heaped(ask, a) && a != []
    ensures forall y :: y in a ==> !Better(ask, y, a[0])
  {
    forall y | y in a
      ensures !Better(ask, y, a[0])
    {
      var i :| 0 <= i < |a| && a[i] == y;
      RootIsBest(ask, a, i);
    }
  }

  lemma UpDone(ask: bool, a: seq<int>, j: nat)
    requires j < |a| && HeapedButUp(ask, a, j)
    requires j > 0 ==> !Better(ask, a[j], a[Parent(j)])
    ensures Heaped(ask, a)
  {
  }

  lemma DownDone(ask: bool, a: seq<int>, i: nat)
    requires HeapedButDown(ask, a, i)
    requires forall k :: 2 * i + 1 <= k <= 2 * i + 2 && k < |a| ==> !Better(ask, a[k], a[i])
    ensures Heaped(ask, a)
  {
    forall k | 1 <= k < |a|
      ensures !Better(ask, a[k], a[Parent(k)])
    {
      if Parent(k) == i {
        assert k == 2 * i + 1 || k == 2 * i + 2;
      }
    }
  }
}
