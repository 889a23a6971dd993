/** Where the code's text falls short of what it is for, and exactly when it does not. The other
    modules carry the repaired operations; here each one is kept as the source has it. */
module AsWritten {
  import opened Types
  import opened Greedy
  import opened PriceHeaps
  import opened BookView
  import opened OrderBooks
  import opened Books
  import opened Recovery
  import opened Ledger
  import opened Settlement
  import opened Trading
  import opened Runs

  // ---------------------------------------------------------------- the heap (heap.go)

  /** `Less` compares the same way on both sides, and a level never leaves the heap: the slice is a
      min-heap of the price of every level there ever was. */
  ghost predicate MinHeap(h: seq<int>) {
    forall i :: 0 < i < |h| ==> h[Parent(i)] <= h[i]
  }

  lemma {:induction false} RootIsLeast(h: seq<int>, i: int)
    requires MinHeap(h) && 0 <= i < |h|
    ensures h[0] <= h[i]
    decreases i
  {
    if i > 0 { RootIsLeast(h, Parent(i)); }
  }

  /** `live` are the prices at which orders rest. The root's price is the lowest ask exactly when orders
      rest at it, and the highest bid exactly when there is no other bid price at all. (The root's own
      level may still be empty: a price emptied and used again is in the heap twice.) */
  lemma RootIsBestIff(h: seq<int>, live: set<int>)
    requires MinHeap(h) && h != [] && live != {} && forall p :: p in live ==> p in h
    ensures IsBest(Sell, live, h[0]) <==> h[0] in live
    ensures IsBest(Buy, live, h[0]) <==> live == {h[0]}
  {
    forall p | p in live ensures h[0] <= p {
      var i :| 0 <= i < |h| && h[i] == p;
      RootIsLeast(h, i);
    }
    if IsBest(Buy, live, h[0]) {
      forall p | p in live ensures p == h[0] { assert !Better(Buy, p, h[0]); }
    }
  }

  /** Two bids are enough: the book quotes 100 while 101 is bid. */
  lemma LowestBidQuoted()
    ensures MinHeap([100, 101]) && !IsBest(Buy, {100, 101}, [100, 101][0])
  {
    assert Better(Buy, 101, 100) && 101 in {100, 101};
  }

  // ---------------------------------------------------------------- the inner loop (orderbook.go:203-242)

  /** A pass over one level. `slots` is the backing array the `range` clause captured, `len` the length
      of level.Orders by now, `open` what is left of each order; a slot points into the orders. */
  datatype Pass =
    | Panicked
    | Passed(slots: seq<int>, len: nat, open: seq<int>, left: int, trades: seq<Trade>)

  ghost predicate Sized(orders: seq<Resting>, p: Pass) {
    p.Passed? ==>
      && |p.open| == |orders| && p.len <= |p.slots|
      && (forall i :: 0 <= i < |p.slots| ==> 0 <= p.slots[i] < |orders|)
  }

  /** append(level.Orders[:i], level.Orders[i+1:]...): the slots behind `i` move up in place, and the
      last one stays behind as a copy. */
  function ShiftOut(slots: seq<int>, i: nat, len: nat): (r: seq<int>)
    requires i + 1 <= len <= |slots|
    ensures |r| == |slots|
  {
    slots[..i] + slots[i + 1..len] + slots[len - 1..]
  }

  /** One trade with the order of a slot. */
  function Take(t: Taker, orders: seq<Resting>, o: int, p: Pass): (r: Pass)
    requires p.Passed? && Sized(orders, p) && 0 <= o < |orders|
    ensures r.Passed? && Sized(orders, r) && r.slots == p.slots && r.len == p.len && p.trades <= r.trades
  {
    var q := Min(p.left, p.open[o]);
    p.(open := p.open[o := p.open[o] - q], left := p.left - q, trades := p.trades + [TradeWith(t, orders[o], q)])
  }

  /** One turn of the loop, at slot `i`. */
  function Slot(t: Taker, orders: seq<Resting>, i: nat, p: Pass): (r: Pass)
    requires p.Passed? && Sized(orders, p) && i < |p.slots|
    ensures Sized(orders, r) && (r.Passed? ==> |r.slots| == |p.slots| && p.trades <= r.trades)
  {
    var o := p.slots[i];
    if p.open[o] <= 0 then p
    else
      var p' := Take(t, orders, o, p);
      if p'.open[o] != 0 then p'
      else if i + 1 > p.len then Panicked
      else p'.(slots := ShiftOut(p.slots, i, p.len), len := p.len - 1)
  }

  function RangeFrom(t: Taker, orders: seq<Resting>, i: nat, p: Pass): (r: Pass)
    requires p.Passed? && Sized(orders, p) && i <= |p.slots|
    ensures Sized(orders, r)
    decreases |p.slots| - i
  {
    if i == |p.slots| || p.left <= 0 then p
    else
      var p' := Slot(t, orders, i, p);
      if p'.Panicked? then p' else RangeFrom(t, orders, i + 1, p')
  }

  /** The body of the loop, step by step. */
  method RangeSlot(t: Taker, orders: seq<Resting>, i: nat, start: Pass) returns (p: Pass)
    requires start.Passed? && Sized(orders, start) && i < |start.slots|
    ensures p == Slot(t, orders, i, start)
  {
    p := start;
    var o := p.slots[i];
    if p.open[o] > 0 {
      p := Take(t, orders, o, p);
      if p.open[o] == 0 {
        if i + 1 > p.len { return Panicked; }
        p := p.(slots := ShiftOut(p.slots, i, p.len), len := p.len - 1);
      }
    }
  }

  /** The loop over the level. */
  method RangeLevel(t: Taker, orders: seq<Resting>, start: Pass) returns (p: Pass)
    requires start.Passed? && Sized(orders, start)
    ensures p == RangeFrom(t, orders, 0, start)
  {
    p := start;
    var i := 0;
    while i < |p.slots| && p.left > 0
      invariant p.Passed? && Sized(orders, p) && i <= |p.slots| == |start.slots|
      invariant RangeFrom(t, orders, i, p) == RangeFrom(t, orders, 0, start)
      decreases |start.slots| - i
    {
      p := RangeSlot(t, orders, i, p);
      if p.Panicked? { return; }
      i := i + 1;
    }
  }

  // ---------------------------------------------------------------- the outer loop (orderbook.go:191-249)

  /** Emptied levels stay in the heap, so the outer loop visits the same level, of this price, as long as
      the taker wants more and accepts it: `k` passes, each ranging over what level.Orders is by then. */
  function Passes(t: Taker, price: int, orders: seq<Resting>, k: nat, p: Pass): (r: Pass)
    requires Sized(orders, p)
    ensures Sized(orders, r)
    decreases k
  {
    if k == 0 || p.Panicked? || p.left <= 0 || !Accepts(t.side, t.limit, price) then p
    else Passes(t, price, orders, k - 1, RangeFrom(t, orders, 0, p.(slots := p.slots[..p.len])))
  }

  function Fresh(orders: seq<Resting>, r: int): Pass {
    Passed(seq(|orders|, i => i), |orders|, seq(|orders|, i requires 0 <= i < |orders| => orders[i].Remaining()), r, [])
  }

  /** The call comes back after some number of passes, with these trades. */
  ghost predicate Returns(t: Taker, price: int, orders: seq<Resting>, r: int, trades: seq<Trade>) {
    exists k: nat :: ReturnsAfter(t, price, orders, r, trades, k)
  }

  ghost predicate ReturnsAfter(t: Taker, price: int, orders: seq<Resting>, r: int, trades: seq<Trade>, k: nat) {
    var p := Passes(t, price, orders, k, Fresh(orders, r));
    p.Passed? && (p.left <= 0 || !Accepts(t.side, t.limit, price)) && p.trades == trades
  }

  lemma {:induction false} RangeKeepsTrades(t: Taker, orders: seq<Resting>, i: nat, p: Pass)
    requires p.Passed? && Sized(orders, p) && i <= |p.slots|
    ensures var r := RangeFrom(t, orders, i, p); r.Passed? ==> p.trades <= r.trades
    decreases |p.slots| - i
  {
    if i < |p.slots| && p.left > 0 {
      var p' := Slot(t, orders, i, p);
      if p'.Passed? { RangeKeepsTrades(t, orders, i + 1, p'); }
    }
  }

  lemma {:induction false} PassesKeepTrades(t: Taker, price: int, orders: seq<Resting>, k: nat, p: Pass)
    requires Sized(orders, p) && p.Passed?
    ensures var r := Passes(t, price, orders, k, p); r.Passed? ==> p.trades <= r.trades
    decreases k
  {
    if k > 0 && p.left > 0 && Accepts(t.side, t.limit, price) {
      var p0 := p.(slots := p.slots[..p.len]);
      var p1 := RangeFrom(t, orders, 0, p0);
      RangeKeepsTrades(t, orders, 0, p0);
      assert Passes(t, price, orders, k, p) == Passes(t, price, orders, k - 1, p1);
      if p1.Passed? { PassesKeepTrades(t, price, orders, k - 1, p1); }
    }
  }

  /** With the level empty, and its price acceptable, the loop spins. */
  lemma {:induction false} EmptyLevelSpins(t: Taker, price: int, orders: seq<Resting>, k: nat, p: Pass)
    requires Sized(orders, p) && p.Passed? && p.left > 0 && p.len == 0 && Accepts(t.side, t.limit, price)
    ensures Passes(t, price, orders, k, p).Passed? && Passes(t, price, orders, k, p).left == p.left
    decreases k
  {
    if k > 0 {
      var p1 := p.(slots := p.slots[..p.len]);
      assert RangeFrom(t, orders, 0, p1) == p1;
      EmptyLevelSpins(t, price, orders, k - 1, p1);
    }
  }

  /** The state after the first slot's order is exhausted. */
  function AfterHead(t: Taker, orders: seq<Resting>, r: int): Pass
    requires orders != []
  {
    var n, f := |orders|, Fresh(orders, r);
    Passed(ShiftOut(f.slots, 0, n), n - 1, f.open[0 := 0], r - orders[0].Remaining(),
           [TradeWith(t, orders[0], orders[0].Remaining())])
  }

  lemma FirstStep(t: Taker, orders: seq<Resting>, r: int)
    requires Live(orders) && orders != [] && r >= orders[0].Remaining()
    ensures Sized(orders, AfterHead(t, orders, r))
    ensures RangeFrom(t, orders, 0, Fresh(orders, r)) == RangeFrom(t, orders, 1, AfterHead(t, orders, r))
  {
    var p, n := Fresh(orders, r), |orders|;
    assert p.slots[0] == 0 && p.open[0] == orders[0].Remaining() > 0;
    assert [] + [TradeWith(t, orders[0], orders[0].Remaining())] == [TradeWith(t, orders[0], orders[0].Remaining())];
    var p' := Take(t, orders, 0, p);
    assert p'.open == p.open[0 := 0] && p'.left == r - orders[0].Remaining();
    assert p'.(slots := ShiftOut(p.slots, 0, n), len := n - 1) == AfterHead(t, orders, r);
  }

  lemma OnePass(t: Taker, price: int, orders: seq<Resting>, r: int, k: nat)
    requires r > 0 && k > 0 && Accepts(t.side, t.limit, price)
    ensures Passes(t, price, orders, k, Fresh(orders, r)) ==
      Passes(t, price, orders, k - 1, RangeFrom(t, orders, 0, Fresh(orders, r)))
  {
    var p := Fresh(orders, r);
    assert p.slots[..p.len] == p.slots;
  }

  lemma SmallTakerReturns(t: Taker, price: int, orders: seq<Resting>, r: int, rest: seq<Resting>)
    requires Live(orders) && orders != [] && 0 < r <= orders[0].Remaining()
    requires Accepts(t.side, t.limit, price) && orders[0].price == price
    ensures Returns(t, price, orders, r, Walk(t, r, orders + rest).trades)
  {
    OnePass(t, price, orders, r, 1);
    var p := Fresh(orders, r);
    assert p.slots[0] == 0 && p.open[0] == orders[0].Remaining();
    var trades := [TradeWith(t, orders[0], r)];
    assert [] + trades == trades;
    if r == orders[0].Remaining() {
      FirstStep(t, orders, r);
      assert Walk(t, 0, (orders + rest)[1..]).trades == [];
    } else {
      assert RangeFrom(t, orders, 0, p).trades == trades;
    }
    assert Walk(t, r, orders + rest).trades == trades;
    assert ReturnsAfter(t, price, orders, r, trades, 1);
  }

  lemma PairReturns(t: Taker, price: int, orders: seq<Resting>, r: int, rest: seq<Resting>)
    requires Live(orders) && |orders| == 2 && orders[0].Remaining() < r < orders[0].Remaining() + orders[1].Remaining()
    requires Accepts(t.side, t.limit, price) && orders[0].price == orders[1].price == price
    ensures Returns(t, price, orders, r, Walk(t, r, orders + rest).trades)
  {
    var a := orders[0].Remaining();
    OnePass(t, price, orders, r, 1);
    FirstStep(t, orders, r);
    var p := AfterHead(t, orders, r);
    assert p.slots == [1, 1];
    var trades := [TradeWith(t, orders[0], a), TradeWith(t, orders[1], r - a)];
    assert p.trades + [TradeWith(t, orders[1], r - a)] == trades;
    var p' := p.(open := p.open[1 := p.open[1] - (r - a)], left := 0, trades := trades);
    assert RangeFrom(t, orders, 1, p) == RangeFrom(t, orders, 2, p');
    var tail := (orders + rest)[1..];
    assert Walk(t, r - a, tail).trades == [TradeWith(t, orders[1], r - a)];
    assert Walk(t, r, orders + rest).trades == [TradeWith(t, orders[0], a)] + Walk(t, r - a, tail).trades;
    assert ReturnsAfter(t, price, orders, r, trades, 1);
  }

  lemma LoneLevelSpins(t: Taker, price: int, orders: seq<Resting>, r: int, trades: seq<Trade>)
    requires Accepts(t.side, t.limit, price)
    requires Live(orders) && |orders| <= 1 && r > (if orders == [] then 0 else orders[0].Remaining())
    ensures !Returns(t, price, orders, r, trades)
  {
    forall k: nat ensures !ReturnsAfter(t, price, orders, r, trades, k) {
      if orders == [] {
        EmptyLevelSpins(t, price, orders, k, Fresh(orders, r));
      } else if k > 0 {
        OnePass(t, price, orders, r, k);
        FirstStep(t, orders, r);
        EmptyLevelSpins(t, price, orders, k - 1, AfterHead(t, orders, r));
      }
    }
  }

  lemma PairPanics(t: Taker, price: int, orders: seq<Resting>, r: int, trades: seq<Trade>)
    requires Accepts(t.side, t.limit, price)
    requires Live(orders) && |orders| == 2 && r >= orders[0].Remaining() + orders[1].Remaining()
    ensures !Returns(t, price, orders, r, trades)
  {
    forall k: nat ensures !ReturnsAfter(t, price, orders, r, trades, k) {
      if k > 0 {
        OnePass(t, price, orders, r, k);
        FirstStep(t, orders, r);
        assert AfterHead(t, orders, r).slots == [1, 1];
        assert RangeFrom(t, orders, 1, AfterHead(t, orders, r)) == Panicked;
      }
    }
  }

  /** A slot whose order is open is traded with. */
  lemma RangeTakes(t: Taker, orders: seq<Resting>, i: nat, p: Pass)
    requires p.Passed? && Sized(orders, p) && i < |p.slots| && p.left > 0 && p.open[p.slots[i]] > 0
    ensures var r := RangeFrom(t, orders, i, p); r.Passed? ==> Take(t, orders, p.slots[i], p).trades <= r.trades
  {
    var p' := Slot(t, orders, i, p);
    if p'.Passed? {
      assert p'.trades == Take(t, orders, p.slots[i], p).trades;
      RangeKeepsTrades(t, orders, i + 1, p');
    }
  }

  /** From three orders on, the second one is skipped: the next trade is with the third. */
  lemma SecondIsSkipped(t: Taker, orders: seq<Resting>, r: int)
    requires Live(orders) && |orders| >= 3 && r > orders[0].Remaining()
    ensures var p := RangeFrom(t, orders, 0, Fresh(orders, r));
      p.Passed? ==> |p.trades| >= 2 && p.trades[1].makerOrder == orders[2].id
  {
    FirstStep(t, orders, r);
    var p := AfterHead(t, orders, r);
    assert p.slots[1] == 2 && p.open[2] == orders[2].Remaining();
    RangeTakes(t, orders, 1, p);
    var trades := Take(t, orders, 2, p).trades;
    assert |trades| == 2 && trades[1].makerOrder == orders[2].id;
  }

  /** A slot whose order is used up is passed over. */
  lemma UsedSlot(t: Taker, orders: seq<Resting>, i: nat, p: Pass)
    requires p.Passed? && Sized(orders, p) && i < |p.slots| && p.open[p.slots[i]] == 0
    ensures RangeFrom(t, orders, i, p) == RangeFrom(t, orders, i + 1, p)
  {
    if p.left <= 0 && i + 1 < |p.slots| { assert RangeFrom(t, orders, i + 1, p) == p; }
  }

  /** A slot whose order the taker uses up: it is shifted out. */
  lemma SlotUsedUp(t: Taker, orders: seq<Resting>, i: nat, p: Pass)
    requires p.Passed? && Sized(orders, p) && i < |p.slots| && i < p.len
    requires 0 < p.open[p.slots[i]] <= p.left
    ensures var o := p.slots[i];
      var p' := Passed(ShiftOut(p.slots, i, p.len), p.len - 1, p.open[o := 0], p.left - p.open[o],
                       p.trades + [TradeWith(t, orders[o], p.open[o])]);
      Sized(orders, p') && RangeFrom(t, orders, i, p) == RangeFrom(t, orders, i + 1, p')
  {
    var o := p.slots[i];
    var p' := Passed(ShiftOut(p.slots, i, p.len), p.len - 1, p.open[o := 0], p.left - p.open[o],
                     p.trades + [TradeWith(t, orders[o], p.open[o])]);
    assert p.open[o] - p.open[o] == 0;
    assert Slot(t, orders, i, p) == p';
  }

  /** A level of three after its first pass: the second order is left, and a stale copy of the third. */
  function SecondIsLeft(t: Taker, orders: seq<Resting>): (p: Pass)
    requires |orders| == 3
    ensures p.Passed?
  {
    Passed([1, 2, 2], 1, [0, orders[1].Remaining(), 0], orders[1].Remaining(),
           [TradeWith(t, orders[0], orders[0].Remaining()), TradeWith(t, orders[2], orders[2].Remaining())])
  }

  lemma AfterTwo(t: Taker, orders: seq<Resting>, r: int)
    requires Live(orders) && |orders| == 3
    requires r == orders[0].Remaining() + orders[1].Remaining() + orders[2].Remaining()
    ensures RangeFrom(t, orders, 0, Fresh(orders, r)) == RangeFrom(t, orders, 2, SecondIsLeft(t, orders))
  {
    FirstStep(t, orders, r);
    HeadOfThree(t, orders, r);
    var b, c := orders[1].Remaining(), orders[2].Remaining();
    var p := Passed([1, 2, 2], 2, [0, b, c], b + c, [TradeWith(t, orders[0], orders[0].Remaining())]);
    assert [1, 2, 2][1] == 2 && [0, b, c][2] == c && b + c - c == b;
    SlotUsedUp(t, orders, 1, p);
    assert ShiftOut([1, 2, 2], 1, 2) == [1, 2, 2] && [0, b, c][2 := 0] == [0, b, 0];
    assert p.trades + [TradeWith(t, orders[2], c)] == SecondIsLeft(t, orders).trades;
  }

  lemma HeadOfThree(t: Taker, orders: seq<Resting>, r: int)
    requires |orders| == 3
    ensures var a, b, c := orders[0].Remaining(), orders[1].Remaining(), orders[2].Remaining();
      AfterHead(t, orders, r) == Passed([1, 2, 2], 2, [0, b, c], r - a, [TradeWith(t, orders[0], a)])
  {
    var f := Fresh(orders, r);
    assert f.slots == [0, 1, 2];
    assert ShiftOut([0, 1, 2], 0, 3) == [1, 2, 2];
    assert f.open[0 := 0] == [0, orders[1].Remaining(), orders[2].Remaining()];
  }

  lemma FirstPass(t: Taker, orders: seq<Resting>, r: int)
    requires Live(orders) && |orders| == 3
    requires r == orders[0].Remaining() + orders[1].Remaining() + orders[2].Remaining()
    ensures RangeFrom(t, orders, 0, Fresh(orders, r)) == SecondIsLeft(t, orders)
  {
    AfterTwo(t, orders, r);
    UsedSlot(t, orders, 2, SecondIsLeft(t, orders));
  }

  lemma SecondPass(t: Taker, orders: seq<Resting>)
    requires Live(orders) && |orders| == 3
    ensures var p := SecondIsLeft(t, orders);
      RangeFrom(t, orders, 0, p.(slots := [1])) ==
      Passed([1], 0, [0, 0, 0], 0, p.trades + [TradeWith(t, orders[1], orders[1].Remaining())])
  {
    var p := SecondIsLeft(t, orders);
    SlotUsedUp(t, orders, 0, p.(slots := [1]));
    assert ShiftOut([1], 0, 1) == [1] && p.open[1 := 0] == [0, 0, 0];
  }

  /** A taker of exactly three orders gets them all, but the third before the second: the first pass skips the
      second and passes over the stale copy of the third, and only a second pass comes to it. */
  lemma ThreeOutOfTurn(t: Taker, price: int, orders: seq<Resting>, r: int)
    requires Live(orders) && |orders| == 3 && Accepts(t.side, t.limit, price)
    requires r == orders[0].Remaining() + orders[1].Remaining() + orders[2].Remaining()
    ensures var p := Passes(t, price, orders, 2, Fresh(orders, r));
      && p.Passed? && p.left == 0 && p.len == 0 && |p.trades| == 3
      && p.trades[0].makerOrder == orders[0].id
      && p.trades[1].makerOrder == orders[2].id
      && p.trades[2].makerOrder == orders[1].id
  {
    var p := SecondIsLeft(t, orders);
    OnePass(t, price, orders, r, 2);
    FirstPass(t, orders, r);
    SecondPass(t, orders);
    assert p.slots[..1] == [1];
    assert Passes(t, price, orders, 1, p) == Passes(t, price, orders, 0, RangeFrom(t, orders, 0, p.(slots := [1])));
  }

  lemma GreedyTakesSecond(t: Taker, orders: seq<Resting>, r: int, rest: seq<Resting>)
    requires Live(orders) && |orders| >= 2 && r > orders[0].Remaining()
    requires Accepts(t.side, t.limit, orders[0].price) && orders[1].price == orders[0].price
    ensures var greedy := Walk(t, r, orders + rest).trades; |greedy| >= 2 && greedy[1].makerOrder == orders[1].id
  {
    var tail := (orders + rest)[1..];
    var greedy := Walk(t, r, orders + rest).trades;
    assert greedy == [TradeWith(t, orders[0], orders[0].Remaining())] + Walk(t, r - orders[0].Remaining(), tail).trades;
    assert tail[0] == orders[1];
  }

  lemma SkippedIsNotGreedy(t: Taker, price: int, orders: seq<Resting>, r: int, rest: seq<Resting>)
    requires Live(orders) && UniqueIds(orders) && |orders| >= 3 && r > orders[0].Remaining()
    requires Accepts(t.side, t.limit, price) && orders[0].price == orders[1].price == price
    ensures !Returns(t, price, orders, r, Walk(t, r, orders + rest).trades)
  {
    var greedy := Walk(t, r, orders + rest).trades;
    forall k: nat ensures !ReturnsAfter(t, price, orders, r, greedy, k) {
      if k > 0 { SkipShows(t, price, orders, r, rest, k); }
    }
  }

  lemma SecondStays(t: Taker, price: int, orders: seq<Resting>, k: nat, p: Pass, id: Id)
    requires Sized(orders, p) && (p.Passed? ==> |p.trades| >= 2 && p.trades[1].makerOrder == id)
    ensures var r := Passes(t, price, orders, k, p); r.Passed? ==> |r.trades| >= 2 && r.trades[1].makerOrder == id
  {
    if p.Passed? { PassesKeepTrades(t, price, orders, k, p); }
  }

  lemma SkipStays(t: Taker, price: int, orders: seq<Resting>, r: int, k: nat)
    requires Live(orders) && |orders| >= 3 && r > orders[0].Remaining() && Accepts(t.side, t.limit, price) && k > 0
    ensures var p := Passes(t, price, orders, k, Fresh(orders, r));
      p.Passed? ==> |p.trades| >= 2 && p.trades[1].makerOrder == orders[2].id
  {
    OnePass(t, price, orders, r, k);
    SecondIsSkipped(t, orders, r);
    SecondStays(t, price, orders, k - 1, RangeFrom(t, orders, 0, Fresh(orders, r)), orders[2].id);
  }

  lemma SkipShows(t: Taker, price: int, orders: seq<Resting>, r: int, rest: seq<Resting>, k: nat)
    requires Live(orders) && UniqueIds(orders) && |orders| >= 3 && r > orders[0].Remaining()
    requires Accepts(t.side, t.limit, price) && orders[0].price == orders[1].price == price && k > 0
    ensures !ReturnsAfter(t, price, orders, r, Walk(t, r, orders + rest).trades, k)
  {
    GreedyTakesSecond(t, orders, r, rest);
    SkipStays(t, price, orders, r, k);
    assert orders[1].id != orders[2].id;
  }

  /** A level the taker does not accept ends the loop, and everything behind it is no better. */
  lemma UnacceptableReturns(t: Taker, price: int, orders: seq<Resting>, r: int, rest: seq<Resting>)
    requires !Accepts(t.side, t.limit, price)
    requires forall i :: 0 <= i < |orders + rest| ==> !Better(Opposite(t.side), (orders + rest)[i].price, price)
    ensures Returns(t, price, orders, r, Walk(t, r, orders + rest).trades)
  {
    assert Walk(t, r, orders + rest).trades == [];
    assert ReturnsAfter(t, price, orders, r, [], 0);
  }

  /** As written, MatchOrder comes back with the price-time trades exactly when the taker does not accept
      the best level's price, fits into its first order, or finds just two orders there and does not
      exhaust both. Otherwise it spins on the emptied level, panics, or skips the second order. `price`
      is that of the heap's root, `orders` what still rests in that level, `rest` the levels behind it. */
  lemma MatchAsWrittenIff(t: Taker, price: int, orders: seq<Resting>, r: int, rest: seq<Resting>)
    requires Live(orders) && UniqueIds(orders) && r > 0
    requires forall i :: 0 <= i < |orders| ==> orders[i].price == price
    requires forall i :: 0 <= i < |orders + rest| ==> !Better(Opposite(t.side), (orders + rest)[i].price, price)
    ensures Returns(t, price, orders, r, Walk(t, r, orders + rest).trades) <==>
      || !Accepts(t.side, t.limit, price)
      || (orders != [] && r <= orders[0].Remaining())
      || (|orders| == 2 && r < orders[0].Remaining() + orders[1].Remaining())
  {
    var greedy := Walk(t, r, orders + rest).trades;
    if !Accepts(t.side, t.limit, price) {
      UnacceptableReturns(t, price, orders, r, rest);
    } else if orders != [] && r <= orders[0].Remaining() {
      SmallTakerReturns(t, price, orders, r, rest);
    } else if |orders| <= 1 {
      LoneLevelSpins(t, price, orders, r, greedy);
    } else if |orders| == 2 {
      if r < orders[0].Remaining() + orders[1].Remaining() {
        PairReturns(t, price, orders, r, rest);
      } else {
        PairPanics(t, price, orders, r, greedy);
      }
    } else {
      SkippedIsNotGreedy(t, price, orders, r, rest);
    }
  }

  // ---------------------------------------------------------------- resting (orders/service.go:121-147)

  datatype Tail = NotAdded | Added | NilPrice

  /** Whether the order is added goes by the settled quantity, and AddOrder reads its price. */
  function TailAsWritten(o: Order, settled: int): Tail {
    if settled == o.qty then NotAdded else if o.price.None? then NilPrice else Added
  }

  function TailIntended(o: Order, left: int): Tail {
    if Rests(o, left) then Added else NotAdded
  }

  /** The two agree exactly when all of the order was settled, or it is a limit order of which the book
      left something. A filled order whose settlement failed is added with nothing left; a market
      order with anything unsettled is added, or crashes for want of a price. */
  lemma TailAgreesIff(o: Order, left: int, settled: int)
    requires NewOrder(o) && 0 <= settled <= o.qty - left && 0 <= left
    ensures TailAsWritten(o, settled) == TailIntended(o, left) <==> settled == o.qty || (o.typ.Limit? && left > 0)
  {
  }

  /** Both failures: nobody to sell to, and a market order is added without a price; a matched order whose
      settlement failed is added again with nothing left. */
  lemma TailFails(o: Order, limit: Order)
    requires NewOrder(o) && o.typ.Market? && o.price.None?
    requires NewOrder(limit) && limit.typ.Limit?
    ensures WalkOf(o.symbol, Book([], []), o).left == o.qty
    ensures TailAsWritten(o, 0) == NilPrice && TailIntended(o, o.qty) == NotAdded
    ensures TailAsWritten(limit, 0) == Added && TailIntended(limit, 0) == NotAdded
    ensures Matched(limit, 0).Remaining() == 0
  {
  }

  // ---------------------------------------------------------------- recovery (orders/service.go:121-147, 346-359)

  /** Every NEW or PARTIALLY_FILLED row of the symbol, market orders included. */
  predicate IsOpen(r: Order, symbol: Symbol, side: Side) {
    r.symbol == symbol && r.side == side && !r.status.Filled?
  }

  /** The load: each open row goes to the book, and one without a price stops it. */
  function Load(rows: seq<Order>, symbol: Symbol, side: Side): Option<seq<Resting>> {
    if rows == [] then Some([])
    else
      var earlier := Load(rows[..|rows| - 1], symbol, side);
      var r := rows[|rows| - 1];
      if !IsOpen(r, symbol, side) || earlier.None? then earlier
      else if r.price.None? then None
      else Some(Insert(side, earlier.value, r.AsResting()))
  }

  /** A restart finds both sides of the book as they are live. */
  ghost predicate Finds(rows: seq<Order>, symbol: Symbol, b: Book) {
    Load(rows, symbol, Buy) == Some(b.bids) && Load(rows, symbol, Sell) == Some(b.asks)
  }

  /** The live book after an order: matched, then added or not as the code decides. */
  function LiveAsWritten(b: Book, o: Order, settled: int): Book {
    var walk := WalkOf(o.symbol, b, o);
    var b1 := b.With(Opposite(o.side), walk.book);
    if TailAsWritten(o, settled).Added?
    then b1.With(o.side, Insert(o.side, b1.On(o.side), Matched(o, walk.left).AsResting()))
    else b1
  }

  /** The rows after an order: its own, with what settled; the makers' rows stay as they were. */
  function RowsAsWritten(rows: seq<Order>, o: Order, settled: int): seq<Order> { rows + [FilledRow(o, settled)] }

  lemma {:induction false} SomeTradeSomeQty(trades: seq<Trade>)
    requires Positive(trades)
    ensures Traded(trades) > 0 <==> trades != []
  {
    if trades != [] { SomeTradeSomeQty(trades[1..]); }
  }

  /** Whether an order trades can be told from the best price of the other side. */
  lemma TradesIff(t: Taker, r: int, book: seq<Resting>)
    requires r > 0
    ensures Walk(t, r, book).trades == [] <==> book == [] || !Accepts(t.side, t.limit, book[0].price)
  {
  }

  /** The new row is loaded on its own side, the other side stays as it was. */
  lemma LoadOneMore(rows: seq<Order>, r: Order, symbol: Symbol, side: Side)
    ensures var before := Load(rows, symbol, side);
      Load(rows + [r], symbol, side) ==
      if !IsOpen(r, symbol, side) || before.None? then before
      else if r.price.None? then None else Some(Insert(side, before.value, r.AsResting()))
  {
    assert (rows + [r])[..|rows|] == rows;
  }

  /** What is loaded: of the symbol's rows on that side, those that are NEW or PARTIALLY_FILLED, of any type. */
  lemma LoadIs(rows: seq<Order>, r: Order, symbol: Symbol, side: Side)
    ensures Load([], symbol, side) == Some([])
    ensures r.symbol != symbol || r.side != side || r.status == Filled ==>
      Load(rows + [r], symbol, side) == Load(rows, symbol, side)
    ensures r.symbol == symbol && r.side == side && r.status != Filled ==>
      && (r.price.None? ==> Load(rows + [r], symbol, side).None?)
      && (r.price.Some? && Load(rows, symbol, side).Some? ==>
            Load(rows + [r], symbol, side) == Some(Insert(side, Load(rows, symbol, side).value, r.AsResting())))
  {
    LoadOneMore(rows, r, symbol, side);
  }

  /** The live book as written: the opposite side as matched; on its own side the order, with what the book left of
      it, unless all of it settled or it has no price. */
  lemma LiveIs(b: Book, o: Order, settled: int)
    ensures var walk, live := WalkOf(o.symbol, b, o), LiveAsWritten(b, o, settled);
      var own := if o.side.Buy? then b.bids else b.asks;
      && (if o.side.Buy? then live.asks else live.bids) == walk.book
      && (if o.side.Buy? then live.bids else live.asks) ==
         if settled == o.qty || o.price.None? then own else Insert(o.side, own, Matched(o, walk.left).AsResting())
  {
  }

  /** An order that trades leaves the other side's list with less than its rows say. */
  lemma TradedSideDiffers(b: Book, o: Order)
    requires NewOrder(o) && ListOk(Opposite(o.side), b.On(Opposite(o.side)))
    ensures var walk := WalkOf(o.symbol, b, o);
      && (walk.trades != [] ==> walk.book != b.On(Opposite(o.side)))
      && (walk.trades == [] ==> walk.book == b.On(Opposite(o.side)) && walk.left == o.qty)
  {
    var t, book := TakerOf(o.symbol, o), b.On(Opposite(o.side));
    WalkExhaustsAndConserves(t, o.qty, book);
    SomeTradeSomeQty(Walk(t, o.qty, book).trades);
    TradesIff(t, o.qty, book);
  }

  /** As written, after an order a restart that found the book before still finds both sides of it exactly
      when the order has a price, market orders included, and could not trade; whatever part of its trades
      settled. */
  lemma RecoveryAsWrittenIff(rows: seq<Order>, b: Book, o: Order, settled: int)
    requires NewOrder(o) && ListOk(Opposite(o.side), b.On(Opposite(o.side))) && Finds(rows, o.symbol, b)
    requires 0 <= settled <= Traded(WalkOf(o.symbol, b, o).trades)
    ensures var other := b.On(Opposite(o.side));
      Finds(RowsAsWritten(rows, o, settled), o.symbol, LiveAsWritten(b, o, settled)) <==>
      o.price.Some? && (other == [] || !Accepts(o.side, if o.typ.Limit? then o.price else None, other[0].price))
  {
    var walk := WalkOf(o.symbol, b, o);
    LoadOneMore(rows, FilledRow(o, settled), o.symbol, Buy);
    LoadOneMore(rows, FilledRow(o, settled), o.symbol, Sell);
    TradedSideDiffers(b, o);
    TradesIff(TakerOf(o.symbol, o), o.qty, b.On(Opposite(o.side)));
    if walk.trades == [] {
      assert FilledRow(o, settled) == o && Matched(o, walk.left) == o;
    }
  }

  /** An unpriced market order with nobody to trade with: after it no restart comes up. */
  lemma UnpricedOrderStopsRestart(rows: seq<Order>, o: Order, later: seq<Order>)
    requires NewOrder(o) && o.typ.Market? && o.price.None?
    ensures WalkOf(o.symbol, Book([], []), o).trades == []
    ensures Load(RowsAsWritten(rows, o, 0) + later, o.symbol, o.side).None?
    decreases |later|
  {
    var all := RowsAsWritten(rows, o, 0) + later;
    if later == [] {
      assert all == rows + [FilledRow(o, 0)];
      LoadOneMore(rows, FilledRow(o, 0), o.symbol, o.side);
    } else {
      var n := |later| - 1;
      UnpricedOrderStopsRestart(rows, o, later[..n]);
      assert all == (RowsAsWritten(rows, o, 0) + later[..n]) + [later[n]];
      LoadOneMore(RowsAsWritten(rows, o, 0) + later[..n], later[n], o.symbol, o.side);
    }
  }

  /** A bid for three of which the book fills two and one settles: one is left live, two are reloaded. */
  lemma UnsettledFillComesBack(offer: Resting, o: Order)
    requires NewOrder(o) && o.side.Buy? && o.typ == Limit && o.price == Some(100) && o.qty == 3
    requires offer.side.Sell? && offer.price == 100 && offer.Remaining() == 2
    ensures var b := Book([], [offer]);
      && Traded(WalkOf(o.symbol, b, o).trades) == 2
      && LiveAsWritten(b, o, 1).bids == [Matched(o, 1).AsResting()] && Matched(o, 1).Remaining() == 1
      && Load([FilledRow(o, 1)], o.symbol, Buy) == Some([FilledRow(o, 1).AsResting()])
      && FilledRow(o, 1).Remaining() == 2
  {
    var t := TakerOf(o.symbol, o);
    assert [offer][1..] == [];
    var trade := TradeWith(t, offer, 2);
    assert Walk(t, 3, [offer]) == Outcome([trade], [], 1);
    assert [trade][1..] == [];
    LoadOneMore([], FilledRow(o, 1), o.symbol, Buy);
    assert [] + [FilledRow(o, 1)] == [FilledRow(o, 1)];
    assert [FilledRow(o, 1).AsResting()] + [] == [FilledRow(o, 1).AsResting()];
  }

  function Offer(seller: Id): Request { Request(seller, BTCUSD, Sell, Limit, Some(100), 1, None) }
  function Bid(buyer: Id): Request { Request(buyer, BTCUSD, Buy, Limit, Some(100), 1, None) }

  lemma RunOne(w: World, req: Request)
    ensures RunWorld(w, [SubmitEvent(req)]) == Submit(w, req)
  {
    var e := SubmitEvent(req);
    assert [e][1..] == [];
    assert RunWorld(w, [e]) == RunWorld(Handle(w, e), []);
  }

  /** An offer of one coin at 100 on an empty book rests. */
  lemma OfferRests(s: State, seller: Id)
    requires Of(seller, BTC) in s.accounts && s.accounts[Of(seller, BTC)].available >= 1
    ensures var w, o := RunWorld(Opening(s), [SubmitEvent(Offer(seller))]), OrderFor(Opening(s), Offer(seller));
      && w.ledger == Apply(s, 1, HoldFor(Offer(seller))) && w.books.Keys == {BTCUSD, ETHUSD}
      && w.rows == [o] && w.books[BTCUSD] == Book([], [o.AsResting()])
  {
    var w := Opening(s);
    RunOne(w, Offer(seller));
    var o := OrderFor(w, Offer(seller));
    assert WalkOf(BTCUSD, w.books[BTCUSD], o) == Outcome([], [], 1);
    assert Matched(o, 1) == o;
    assert FillRows([], []) + [o] == [o];
    assert Place(BTCUSD, w.books[BTCUSD], o) == Book([], [o.AsResting()]);
  }

  lemma BidEnters(s: State, seller: Id, buyer: Id)
    requires Of(seller, BTC) in s.accounts && Of(buyer, USD) in s.accounts
    requires s.accounts[Of(seller, BTC)].available >= 1 && s.accounts[Of(buyer, USD)].available >= 100
    ensures Enters(RunWorld(Opening(s), [SubmitEvent(Offer(seller))]), Bid(buyer))
  {
    OfferRests(s, seller);
  }

  /** A bid takes the only offer, and the code leaves the offer's row open. */
  lemma RowStaysOpen(offer: Order, o: Order, settled: int)
    requires offer.symbol == BTCUSD && offer.side.Sell? && offer.typ.Limit? && offer.price == Some(100)
    requires offer.Remaining() == 1 && !offer.status.Filled?
    requires NewOrder(o) && o.symbol == BTCUSD && o.side.Buy? && o.typ.Limit? && o.price == Some(100) && o.qty == 1
    ensures LiveAsWritten(Book([], [offer.AsResting()]), o, settled).asks == []
    ensures Load(RowsAsWritten([offer], o, settled), BTCUSD, Sell) == Some([offer.AsResting()])
  {
    var rest := offer.AsResting();
    assert [rest][1..] == [];
    assert Walk(TakerOf(BTCUSD, o), 1, [rest]).book == [];
    LoadOneMore([], offer, BTCUSD, Sell);
    assert [] + [offer] == [offer] && [rest] + [] == [rest];
    LoadOneMore([offer], FilledRow(o, settled), BTCUSD, Sell);
  }

  /** Whoever buys it, and whether or not it settles, a restart offers the sold coin again. */
  lemma SoldOfferComesBack(s: State, seller: Id, buyer: Id, settled: int)
    requires Good(Opening(s)) && Of(seller, BTC) in s.accounts && Of(buyer, USD) in s.accounts
    requires s.accounts[Of(seller, BTC)].available >= 1 && s.accounts[Of(buyer, USD)].available >= 100
    ensures var w := RunWorld(Opening(s), [SubmitEvent(Offer(seller))]);
      && BTCUSD in w.books && Enters(w, Bid(buyer))
      && var b, o := w.books[BTCUSD], OrderFor(w, Bid(buyer));
      && b.asks != [] && LiveAsWritten(b, o, settled).asks == []
      && Load(RowsAsWritten(w.rows, o, settled), BTCUSD, Sell) == Some(b.asks)
  {
    var w := RunWorld(Opening(s), [SubmitEvent(Offer(seller))]);
    OfferRests(s, seller);
    BidEnters(s, seller, buyer);
    RowStaysOpen(OrderFor(Opening(s), Offer(seller)), OrderFor(w, Bid(buyer)), settled);
  }

  /** There is such a state: user 1 is granted a coin and user 2 a hundred dollars. */
  function Nothing(): State {
    var keys := {Equity, Of(1, USD), Of(1, BTC), Of(1, ETH), Of(2, USD), Of(2, BTC), Of(2, ETH)};
    State(map k | k in keys :: Account(if k == Equity then 101 else 0, 0), [], 0)
  }

  lemma AccountsOf(u: Id, c: Currency)
    ensures Of(u, c) in Nothing().accounts <==> u == 1 || u == 2
  {
  }

  lemma Granted(s: State, k: Key, x: int)
    requires LedgerOk(s) && k.Of? && k in s.accounts && Equity in s.accounts && s.accounts[Equity].available >= x > 0
    ensures var s' := Apply(s, 1, TransferOp(Equity, k, x, k.currency));
      && LedgerOk(s') && s'.accounts.Keys == s.accounts.Keys
      && s'.accounts[Equity].available == s.accounts[Equity].available - x
      && s'.accounts[k].available == s.accounts[k].available + x
      && forall l :: l in s.accounts ==>
           s'.accounts[l].hold == s.accounts[l].hold
           && (l != Equity ==> s'.accounts[l].available >= s.accounts[l].available)
  {
    var op := TransferOp(Equity, k, x, k.currency);
    OpKeepsLedger(s, op);
    TransferMoves(s, op);
  }

  lemma EveryCurrency(s: State)
    requires s.accounts.Keys == Nothing().accounts.Keys
    ensures forall u, c, c' :: Of(u, c) in s.accounts && c != c' ==> Of(u, c') in s.accounts
  {
    forall u, c, c' | Of(u, c) in s.accounts && c != c' ensures Of(u, c') in s.accounts {
      AccountsOf(u, c);
      AccountsOf(u, c');
    }
  }

  ghost predicate Funds(s: State, coins: int, dollars: int) {
    && LedgerOk(s) && s.accounts.Keys == Nothing().accounts.Keys
    && (forall k :: k in s.accounts ==> s.accounts[k].hold == 0)
    && Of(1, BTC) in s.accounts && s.accounts[Of(1, BTC)].available >= coins
    && Of(2, USD) in s.accounts && s.accounts[Of(2, USD)].available >= dollars
    && Equity in s.accounts && s.accounts[Equity].available >= 101 - coins - dollars
  }

  lemma NothingYet()
    ensures Funds(Nothing(), 0, 0)
  {
  }

  lemma GrantCoin(s: State) returns (s': State)
    requires Funds(s, 0, 0)
    ensures Funds(s', 1, 0)
  {
    s' := Apply(s, 1, TransferOp(Equity, Of(1, BTC), 1, BTC));
    Granted(s, Of(1, BTC), 1);
  }

  lemma GrantDollars(s: State) returns (s': State)
    requires Funds(s, 1, 0)
    ensures Funds(s', 1, 100)
  {
    s' := Apply(s, 1, TransferOp(Equity, Of(2, USD), 100, USD));
    Granted(s, Of(2, USD), 100);
  }

  lemma SuchAState() returns (s: State)
    ensures Good(Opening(s)) && Funds(s, 1, 100)
  {
    NothingYet();
    s := GrantCoin(Nothing());
    s := GrantDollars(s);
    EveryCurrency(s);
    OpeningIsGood(s);
  }
}
