/** One side of the book: a price map and a heap over the same levels (internal/limitbook/orderbook.go).

    Two repairs to the source, without which its own comments are false (see AsWritten.dfy): the heap
    compares for its side, and a level leaves the heap when its last order leaves it. */
module BookSides {
  import opened Types
  import opened Greedy
  import opened PriceHeaps
  import opened BookView

  ghost function LevelsIn(m: map<int, PriceLevel>): set<PriceLevel> { set p | p in m :: m[p] }

  lemma LevelAdded(m: map<int, PriceLevel>, p: int, l: PriceLevel)
    requires p !in m
    ensures LevelsIn(m[p := l]) == LevelsIn(m) + {l}
  {
    forall x | x in LevelsIn(m) + {l} ensures x in LevelsIn(m[p := l]) {
      if x in LevelsIn(m) {
        var q :| q in m && m[q] == x;
        assert q in m[p := l] && m[p := l][q] == x;
      } else {
        assert p in m[p := l] && m[p := l][p] == x;
      }
    }
  }

  lemma LevelRemoved(m: map<int, PriceLevel>, p: int)
    requires p in m && forall q :: q in m ==> m[q].price == q
    ensures LevelsIn(m - {p}) == LevelsIn(m) - {m[p]}
  {
    forall x | x in LevelsIn(m) - {m[p]} ensures x in LevelsIn(m - {p}) {
      var q :| q in m && m[q] == x;
      assert q in m - {p} && (m - {p})[q] == x;
    }
  }

  class BookSide {
    const side: Side
    var levels: map<int, PriceLevel>
    const heap: PriceHeap
    ghost var snap: Levels
    ghost var Repr: set<object>

    /** The resting orders, best price first, then arrival. */
    ghost function View(): seq<Resting>
      reads this
    {
      Flatten(side, snap)
    }

    /** The heap and the map hold exactly the same levels, once each, and the heap is heap-ordered. */
    ghost predicate Agree()
      reads this, heap
    {
      && heap.side == side
      && HeapOrdered(side, heap.items)
      && multiset(heap.items) == multiset(LevelsIn(levels))
      && (forall p :: p in levels ==> levels[p].price == p)
    }

    /** The levels hold these orders. */
    ghost predicate Holds(m: Levels)
      reads this, Repr
    {
      && this in Repr && heap in Repr
      && levels.Keys == m.Keys
      && (forall p :: p in levels ==> levels[p] in Repr && levels[p].orders == m[p])
    }

    /** Everything but non-emptiness, which the matching loop breaks for one level at a time. */
    ghost predicate Core()
      reads this, Repr
    {
      Holds(snap) && Agree() && Listed(side, snap)
    }

    ghost predicate Valid()
      reads this, Repr
    {
      Core() && Full(snap)
    }

    constructor (side: Side)
      ensures Valid() && this.side == side && View() == []
      ensures fresh(Repr)
    {
      this.side := side;
      levels := map[];
      heap := new PriceHeap(side);
      snap := map[];
      Repr := {this, heap};
    }

    lemma HeapHasLevel(l: PriceLevel)
      requires Agree()
      ensures l in heap.items <==> l in LevelsIn(levels)
    {
      assert l in heap.items <==> multiset(heap.items)[l] > 0;
    }

    /** The heap's root is the level of the best price. */
    lemma RootLevel()
      requires Agree() && heap.items != []
      ensures var l := heap.items[0];
        l.price in levels && levels[l.price] == l && IsBest(side, levels.Keys, l.price)
    {
      var l := heap.items[0];
      HeapHasLevel(l);
      forall q | q in levels ensures !Better(side, q, l.price) {
        HeapHasLevel(levels[q]);
        var i :| 0 <= i < |heap.items| && heap.items[i] == levels[q];
        RootIsBest(side, heap.items, i);
      }
    }

    lemma EmptyHeap()
      requires Agree()
      ensures heap.items == [] <==> levels.Keys == {}
    {
      if heap.items != [] {
        RootLevel();
      } else {
        forall p | p in levels ensures false { HeapHasLevel(levels[p]); }
      }
    }

    method GetBestLevel() returns (level: PriceLevel?)
      requires Core()
      ensures level == null <==> levels.Keys == {}
      ensures level != null ==>
        level.price in levels && levels[level.price] == level && IsBest(side, levels.Keys, level.price)
    {
      EmptyHeap();
      if |heap.items| == 0 { return null; }
      RootLevel();
      level := heap.items[0];
    }

    /** The true best price over every resting order: highest bid or lowest ask. */
    method GetBestPrice() returns (price: Option<int>)
      requires Valid()
      ensures price.None? <==> View() == []
      ensures price.Some? ==> View()[0].price == price.value
      ensures price.Some? ==> forall i :: 0 <= i < |View()| ==> !Better(side, View()[i].price, price.value)
    {
      EmptyHeap();
      if |heap.items| == 0 { return None; }
      RootLevel();
      ghost var p := heap.items[0].price;
      FlattenAtBest(side, snap, p, []);
      assert snap[p][0] == View()[0];
      price := Some(heap.items[0].price);
      forall i | 0 <= i < |View()| ensures !Better(side, View()[i].price, p) {
        if i > 0 { assert !Better(side, View()[i].price, View()[0].price); }
      }
    }

    /** Enter a level in the map and push it on the heap. */
    method Enter(level: PriceLevel)
      requires Agree() && level.price !in levels
      modifies this`levels, heap
      ensures Agree() && levels == old(levels)[level.price := level]
    {
      LevelAdded(levels, level.price, level);
      heap.PushLevel(level);
      levels := levels[level.price := level];
    }

    /** Take a level out of the map and, repairing the source, out of the heap. */
    method Leave(level: PriceLevel)
      requires Agree() && level.price in levels && levels[level.price] == level
      modifies this`levels, heap
      ensures Agree() && levels == old(levels) - {level.price}
    {
      LevelRemoved(levels, level.price);
      HeapHasLevel(level);
      var i :| 0 <= i < |heap.items| && heap.items[i] == level;
      var _ := heap.Remove(i);
      levels := levels - {level.price};
    }

    /** Take note of what the levels hold. */
    ghost method Adopt(m: Levels)
      requires Holds(m) && Agree() && Listed(side, m)
      modifies this`snap
      ensures Core() && snap == m
    {
      snap := m;
    }

    method NewLevel(p: int) returns (level: PriceLevel)
      requires Core() && p !in levels
      modifies this, heap
      ensures Core() && p in levels && level.price == p && level == levels[p] && level.orders == []
      ensures snap == old(snap)[p := []] && View() == old(View())
      ensures fresh(Repr - old(Repr))
    {
      level := new PriceLevel(p);
      EmptyListed(side, snap, p);
      Enter(level);
      Repr := Repr + {level};
      Adopt(snap[p := []]);
    }

    /** Change one level's queue; the rest of the side stands. */
    method SetQueue(level: PriceLevel, q: seq<Resting>)
      requires Core() && level.price in levels && levels[level.price] == level
      requires Listed(side, snap[level.price := q])
      modifies this`snap, level`orders
      ensures Core() && snap == old(snap)[level.price := q] && level.orders == q
    {
      level.orders := q;
      Adopt(snap[level.price := q]);
    }

    method Append(level: PriceLevel, order: Order)
      requires Core() && level.price in levels && levels[level.price] == level
      requires order.price == Some(level.price) && order.side == side && Live([order.AsResting()])
      requires forall i :: 0 <= i < |View()| ==> View()[i].id != order.id
      modifies this`snap, level`orders
      ensures Core() && View() == Insert(side, old(View()), order.AsResting())
      ensures forall p :: p in snap && p != level.price ==> p in old(snap) && snap[p] == old(snap)[p]
      ensures level.price in snap && snap[level.price] != []
    {
      var x := order.AsResting();
      assert View() == Flatten(side, snap);
      QueuedListed(side, snap, x);
      assert Queued(snap, x) == snap[level.price := snap[level.price] + [x]];
      SetQueue(level, level.orders + [x]);
    }

    method AddOrder(order: Order)
      requires Valid()
      requires order.price.Some? && order.side == side && Live([order.AsResting()])
      requires forall i :: 0 <= i < |View()| ==> View()[i].id != order.id
      modifies Repr
      ensures Valid() && fresh(Repr - old(Repr))
      ensures View() == Insert(side, old(View()), order.AsResting())
    {
      var p := order.price.value;
      var level;
      if p in levels { level := levels[p]; } else { level := NewLevel(p); }
      Append(level, order);
    }

    /** Remove the order with this id, wherever it rests. The map is searched in no particular order. */
    method RemoveOrder(id: Id) returns (found: bool)
      requires Valid()
      modifies Repr
      ensures Valid() && Repr == old(Repr)
      ensures found <==> Lists(old(View()), id)
      ensures View() == Without(old(View()), id)
      ensures !found ==> View() == old(View())
    {
      var keys := levels.Keys;
      while keys != {}
        invariant keys <= levels.Keys
        invariant forall p, i :: p in snap && p !in keys && 0 <= i < |snap[p]| ==> snap[p][i].id != id
        decreases keys
      {
        if forall k :: k !in keys { assert false; }
        var p :| p in keys;
        var level := levels[p];
        var i := 0;
        while i < |level.orders|
          invariant 0 <= i <= |level.orders|
          invariant forall k :: 0 <= k < i ==> level.orders[k].id != id
        {
          if level.orders[i].id == id {
            RemoveAt(level, i);
            return true;
          }
          i := i + 1;
        }
        keys := keys - {p};
      }
      NotListed(id);
      WithoutAbsent(View(), id);
      return false;
    }

    lemma NotListed(id: Id)
      requires forall p, i :: p in snap && 0 <= i < |snap[p]| ==> snap[p][i].id != id
      ensures forall o :: o in View() ==> o.id != id
    {
      forall o | o in View() ensures o.id != id {
        FlattenMembers(side, snap, o);
        var p :| p in snap && o in snap[p];
        var k :| 0 <= k < |snap[p]| && snap[p][k] == o;
      }
    }

    method RemoveAt(level: PriceLevel, i: int)
      requires Valid() && level.price in levels && levels[level.price] == level && 0 <= i < |level.orders|
      modifies Repr
      ensures Valid() && Repr == old(Repr)
      ensures Lists(old(View()), old(level.orders[i].id))
      ensures View() == Without(old(View()), old(level.orders[i].id))
    {
      TakeOutOk(side, snap, level.price, i);
      SetQueue(level, level.orders[..i] + level.orders[i + 1..]);
      if |level.orders| == 0 { DropLevel(level); }
    }

    /** Take a level out; the other levels still hold what they held. */
    method TakeOff(level: PriceLevel)
      requires Holds(snap) && Agree() && level.price in levels && levels[level.price] == level
      modifies this`levels, heap
      ensures Holds(snap - {level.price}) && Agree()
    {
      Leave(level);
    }

    /** Remove a level that has no orders left. */
    method DropLevel(level: PriceLevel)
      requires Core() && level.price in levels && levels[level.price] == level && level.orders == []
      modifies this, heap
      ensures Core() && View() == old(View()) && Repr == old(Repr)
      ensures snap == old(snap) - {level.price}
    {
      DroppedListed(side, snap, level.price);
      TakeOff(level);
      Adopt(snap - {level.price});
    }
  }
}
