/** The binary heap of price levels (internal/limitbook/heap.go), with the sift operations of
    Go's container/heap that the book drives it through. */
module PriceHeaps {
  import opened Types
  import opened Greedy

  /** All orders at one price, in arrival order. */
  class PriceLevel {
    const price: int
    var orders: seq<Resting>

    constructor (price: int)
      ensures this.price == price && orders == []
    {
      this.price := price;
      orders := [];
    }
  }

  function Parent(i: int): int { (i - 1) / 2 }

  /** Level `a` must leave the heap before level `b`. */
  predicate Before(side: Side, a: PriceLevel, b: PriceLevel) { Better(side, a.price, b.price) }

  /** Heap order on the first `n` slots. */
  ghost predicate Ordered(side: Side, s: seq<PriceLevel>, n: int)
    requires 0 <= n <= |s|
  {
    forall i :: 0 < i < n ==> !Before(side, s[i], s[Parent(i)])
  }

  ghost predicate Edge(side: Side, s: seq<PriceLevel>, i: int)
    requires 0 < i < |s|
  {
    !Before(side, s[i], s[Parent(i)])
  }

  /** The whole slice is a heap. Said through `Edge`, so that clients do not walk the tree. */
  ghost predicate HeapOrdered(side: Side, s: seq<PriceLevel>) {
    forall i :: 0 < i < |s| ==> Edge(side, s, i)
  }

  lemma HeapIsOrdered(side: Side, s: seq<PriceLevel>)
    ensures HeapOrdered(side, s) <==> Ordered(side, s, |s|)
  {
    forall i | 0 < i < |s| && HeapOrdered(side, s) ensures !Before(side, s[i], s[Parent(i)]) {
      assert Edge(side, s, i);
    }
  }

  /** Heap order on the first `n` slots, except that slot `j` may belong above its parent (`up`) or
      below its children (`down`); its children still respect its parent. */
  ghost predicate OrderedAround(side: Side, s: seq<PriceLevel>, n: int, j: int, up: bool, down: bool)
    requires 0 <= n <= |s|
  {
    && (forall i :: 0 < i < n && !(up && i == j) && !(down && Parent(i) == j) ==> !Before(side, s[i], s[Parent(i)]))
    && (forall i :: 0 < i < n && Parent(i) == j && 0 < j ==> !Before(side, s[i], s[Parent(j)]))
  }

  /** The root of a heap is best: no level anywhere in the heap has a better price. */
  lemma {:induction false} RootIsBest(side: Side, s: seq<PriceLevel>, i: int)
    requires HeapOrdered(side, s) && 0 <= i < |s|
    ensures !Before(side, s[i], s[0])
    decreases i
  {
    if i > 0 {
      RootIsBest(side, s, Parent(i));
      assert Edge(side, s, i);
    }
  }

  /** The slots from `n` on are the same. */
  ghost predicate Same(s: seq<PriceLevel>, t: seq<PriceLevel>, n: int)
    requires 0 <= n <= |s| == |t|
  {
    forall k :: n <= k < |s| ==> s[k] == t[k]
  }

  /** One step of sifting up: swapping a child with its parent moves the exception there. */
  lemma SwapUp(side: Side, s: seq<PriceLevel>, n: int, j: int)
    requires 0 < j < n <= |s|
    requires OrderedAround(side, s, n, j, true, false)
    requires Before(side, s[j], s[Parent(j)])
    ensures OrderedAround(side, s[Parent(j) := s[j]][j := s[Parent(j)]], n, Parent(j), true, false)
  {
    var i := Parent(j);
    var t := s[i := s[j]][j := s[i]];
    forall k | 0 < k < n && k != i ensures !Before(side, t[k], t[Parent(k)]) {
      if k != j { assert !Before(side, s[k], s[Parent(k)]); }
    }
    forall k | 0 < k < n && Parent(k) == i && 0 < i ensures !Before(side, t[k], t[Parent(i)]) {
      assert !Before(side, s[i], s[Parent(i)]);
      if k != j { assert !Before(side, s[k], s[Parent(k)]); }
    }
  }

  /** One step of sifting down: swapping a parent with its best child moves the exception there. */
  lemma SwapDown(side: Side, s: seq<PriceLevel>, n: int, i: int, j: int, up: bool)
    requires 0 <= i < n <= |s| && 2 * i + 1 <= j <= 2 * i + 2 && j < n
    requires OrderedAround(side, s, n, i, up, true)
    requires Before(side, s[j], s[i])
    requires !Before(side, s[2 * i + 1], s[j]) && (2 * i + 2 < n ==> !Before(side, s[2 * i + 2], s[j]))
    ensures OrderedAround(side, s[i := s[j]][j := s[i]], n, j, false, true)
  {
    var t := s[i := s[j]][j := s[i]];
    assert 0 < i ==> !Before(side, s[j], s[Parent(i)]);
    forall k | 0 < k < n && Parent(k) != j ensures !Before(side, t[k], t[Parent(k)]) {
      if k != i {
        if Parent(k) == i {
          assert k == 2 * i + 1 || k == 2 * i + 2;
        } else {
          assert !Before(side, s[k], s[Parent(k)]);
        }
      }
    }
    forall k | 0 < k < n && Parent(k) == j ensures !Before(side, t[k], t[Parent(j)]) {
      assert Parent(j) == i && !Before(side, s[k], s[Parent(k)]);
    }
  }

  /** Sifting down stops at a slot without a better child. */
  lemma StopDown(side: Side, s: seq<PriceLevel>, n: int, i: int, up: bool)
    requires 0 <= i <= n <= |s|
    requires OrderedAround(side, s, n, i, up, true)
    requires 2 * i + 1 < n ==> !Before(side, s[2 * i + 1], s[i])
    requires 2 * i + 2 < n ==> !Before(side, s[2 * i + 2], s[i])
    ensures OrderedAround(side, s, n, i, up, false)
    ensures !up ==> Ordered(side, s, n)
  {
    forall k | 0 < k < n && !(up && k == i) ensures !Before(side, s[k], s[Parent(k)]) {
      if Parent(k) == i { assert k == 2 * i + 1 || k == 2 * i + 2; }
    }
  }

  class PriceHeap {
    const side: Side
    var items: seq<PriceLevel>

    constructor (side: Side)
      ensures this.side == side && items == []
    {
      this.side := side;
      items := [];
    }

    predicate Less(i: int, j: int)
      requires 0 <= i < |items| && 0 <= j < |items|
      reads this
    {
      Before(side, items[i], items[j])
    }

    method Swap(i: int, j: int)
      requires 0 <= i < |items| && 0 <= j < |items|
      modifies this
      ensures items == old(items)[i := old(items)[j]][j := old(items)[i]]
      ensures multiset(items) == old(multiset(items))
    {
      items := items[i := items[j]][j := items[i]];
    }

    /** Sift the level at `j0` towards the root, within the first `n` slots. */
    method Up(j0: int, ghost n: int)
      requires 0 <= j0 < n <= |items|
      requires OrderedAround(side, items, n, j0, true, false)
      modifies this
      ensures |items| == |old(items)| && Ordered(side, items, n) && Same(items, old(items), n)
      ensures multiset(items) == old(multiset(items))
    {
      var j := j0;
      while j > 0 && Less(j, Parent(j))
        invariant 0 <= j < n <= |items| == |old(items)| && Same(items, old(items), n)
        invariant OrderedAround(side, items, n, j, true, false)
        invariant multiset(items) == old(multiset(items))
        decreases j
      {
        var i := Parent(j);
        SwapUp(side, items, n, j);
        Swap(i, j);
        j := i;
      }
    }

    /** Swap a parent with its best child, which must leave before it. */
    method SwapChild(i: int, j: int, n: int, ghost up: bool)
      requires 0 <= i < n <= |items| && 2 * i + 1 <= j <= 2 * i + 2 && j < n
      requires OrderedAround(side, items, n, i, up, true) && Before(side, items[j], items[i])
      requires !Before(side, items[2 * i + 1], items[j])
        && (2 * i + 2 < n ==> !Before(side, items[2 * i + 2], items[j]))
      modifies this
      ensures |items| == |old(items)| && Same(items, old(items), n) && multiset(items) == old(multiset(items))
      ensures OrderedAround(side, items, n, j, false, true)
    {
      SwapDown(side, items, n, i, j, up);
      Swap(i, j);
    }

    /** Sift the level at `i0` away from the root, within the first `n` slots. */
    method Down(i0: int, n: int) returns (moved: bool)
      requires 0 <= i0 <= n <= |items|
      requires OrderedAround(side, items, n, i0, true, true)
      modifies this
      ensures |items| == |old(items)| && Same(items, old(items), n)
      ensures multiset(items) == old(multiset(items))
      ensures moved ==> Ordered(side, items, n)
      ensures !moved ==> items == old(items) && OrderedAround(side, items, n, i0, true, false)
    {
      var i := i0;
      while 2 * i + 1 < n
        invariant i0 <= i <= n <= |items| == |old(items)| && Same(items, old(items), n)
        invariant multiset(items) == old(multiset(items))
        invariant i == i0 ==> items == old(items)
        invariant OrderedAround(side, items, n, i, i == i0, true)
        decreases n - i
      {
        var j := 2 * i + 1;
        if j + 1 < n && Less(j + 1, j) { j := j + 1; }
        if !Less(j, i) { break; }
        SwapChild(i, j, n, i == i0);
        i := j;
      }
      StopDown(side, items, n, i, i == i0);
      moved := i > i0;
    }

    // h.Push in heap.go; the receiver is the heap itself
    method Append(x: PriceLevel)
      modifies this
      ensures items == old(items) + [x]
    {
      items := items + [x];
    }

    // h.Pop in heap.go
    method DropLast() returns (x: PriceLevel)
      requires items != []
      modifies this
      ensures old(items) == items + [x] && x == old(items)[|old(items)| - 1]
    {
      x := items[|items| - 1];
      items := items[..|items| - 1];
    }

    /** Drop the last slot, whatever it is; the others are in order. */
    method TakeLast() returns (x: PriceLevel)
      requires items != [] && Ordered(side, items, |items| - 1)
      modifies this
      ensures HeapOrdered(side, items) && x == old(items)[|old(items)| - 1]
      ensures multiset(items) == old(multiset(items)) - multiset{x}
    {
      x := DropLast();
      HeapIsOrdered(side, items);
    }

    method PushLevel(x: PriceLevel)
      requires HeapOrdered(side, items)
      modifies this
      ensures HeapOrdered(side, items)
      ensures multiset(items) == old(multiset(items)) + multiset{x}
    {
      HeapIsOrdered(side, items);
      Append(x);
      Up(|items| - 1, |items|);
      HeapIsOrdered(side, items);
    }

    method PopLevel() returns (x: PriceLevel)
      requires HeapOrdered(side, items) && items != []
      modifies this
      ensures HeapOrdered(side, items)
      ensures x == old(items)[0]
      ensures multiset(items) == old(multiset(items)) - multiset{x}
    {
      var n := |items| - 1;
      HeapIsOrdered(side, items);
      Swap(0, n);
      assert items[n] == old(items)[0];
      var _ := Down(0, n);
      x := TakeLast();
    }

    /** Put slot `i` of the first `n` where it belongs. */
    method Resift(i: int, n: int)
      requires 0 <= i < n <= |items|
      requires OrderedAround(side, items, n, i, true, true)
      modifies this
      ensures |items| == |old(items)| && Same(items, old(items), n) && Ordered(side, items, n)
      ensures multiset(items) == old(multiset(items))
    {
      var moved := Down(i, n);
      if !moved { Up(i, n); }
    }

    method Remove(i: int) returns (x: PriceLevel)
      requires HeapOrdered(side, items) && 0 <= i < |items|
      modifies this
      ensures HeapOrdered(side, items)
      ensures x == old(items)[i]
      ensures multiset(items) == old(multiset(items)) - multiset{x}
    {
      var n := |items| - 1;
      HeapIsOrdered(side, items);
      if n != i {
        Swap(i, n);
        assert items[n] == old(items)[i];
        Resift(i, n);
      }
      x := TakeLast();
    }
  }
}
