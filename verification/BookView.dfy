/** The list a book side stands for: its price levels laid end to end, best price first. */
module BookView {
  import opened Types
  import opened Greedy

  type Levels = map<int, seq<Resting>>

  ghost predicate IsBest(side: Side, keys: set<int>, p: int) {
    p in keys && forall q :: q in keys ==> !Better(side, q, p)
  }

  lemma {:induction false} BestExists(side: Side, keys: set<int>)
    requires keys != {}
    ensures exists p :: IsBest(side, keys, p)
  {
    if forall k :: k !in keys { assert false; }
    var k :| k in keys;
    var others := keys - {k};
    if others == {} {
      assert keys == {k};
      assert IsBest(side, keys, k);
    } else {
      BestExists(side, others);
      var p :| IsBest(side, others, p);
      forall q | q in keys ensures !Better(side, q, if Better(side, k, p) then k else p) {
        assert q == k || q in others;
      }
      assert IsBest(side, keys, if Better(side, k, p) then k else p);
    }
  }

  ghost function BestKey(side: Side, keys: set<int>): (p: int)
    requires keys != {}
    ensures IsBest(side, keys, p)
  {
    BestExists(side, keys);
    var p :| IsBest(side, keys, p);
    p
  }

  ghost function Flatten(side: Side, m: Levels): seq<Resting>
    decreases m.Keys
  {
    if m.Keys == {} then []
    else
      var p := BestKey(side, m.Keys);
      m[p] + Flatten(side, m - {p})
  }

  /** Every order sits in the level of its own price. */
  ghost predicate Priced(m: Levels) {
    forall p, i :: p in m && 0 <= i < |m[p]| ==> m[p][i].price == p
  }

  lemma {:induction false} FlattenMembers(side: Side, m: Levels, o: Resting)
    ensures o in Flatten(side, m) <==> exists p :: p in m && o in m[p]
    decreases m.Keys
  {
    if m.Keys != {} {
      var p := BestKey(side, m.Keys);
      FlattenMembers(side, m - {p}, o);
      if o in Flatten(side, m - {p}) {
        var q :| q in m - {p} && o in (m - {p})[q];
        assert q in m && o in m[q];
      }
      if q :| q in m && o in m[q] {
        if q != p { assert q in m - {p} && o in (m - {p})[q]; }
      }
    }
  }

  /** The list is sorted by price. */
  lemma {:induction false} FlattenSorted(side: Side, m: Levels)
    requires Priced(m)
    ensures PriceSorted(side, Flatten(side, m))
    decreases m.Keys
  {
    if m.Keys != {} {
      var p := BestKey(side, m.Keys);
      FlattenSorted(side, m - {p});
      var rest := Flatten(side, m - {p});
      var all := Flatten(side, m);
      forall i, j | 0 <= i < j < |all| ensures !Better(side, all[j].price, all[i].price) {
        if i < |m[p]| <= j {
          assert rest[j - |m[p]|] in rest;
          FlattenMembers(side, m - {p}, rest[j - |m[p]|]);
        }
      }
    }
  }

  // ---------------------------------------------------------------- adding an order

  /** Queue an order behind everything at its own price or better. */
  function Insert(side: Side, s: seq<Resting>, x: Resting): seq<Resting> {
    if s == [] || Better(side, x.price, s[0].price) then [x] + s
    else [s[0]] + Insert(side, s[1..], x)
  }

  lemma Regroup(a: seq<Resting>, b: seq<Resting>, c: seq<Resting>)
    ensures a + (b + c) == (a + b) + c
  {
  }

  lemma InsertBehind(side: Side, y: Resting, s: seq<Resting>, x: Resting)
    requires !Better(side, x.price, y.price)
    ensures Insert(side, [y] + s, x) == [y] + Insert(side, s, x)
  {
    assert ([y] + s)[1..] == s;
  }

  lemma {:induction false} InsertPast(side: Side, a: seq<Resting>, b: seq<Resting>, x: Resting)
    requires forall i :: 0 <= i < |a| ==> !Better(side, x.price, a[i].price)
    ensures Insert(side, a + b, x) == a + Insert(side, b, x)
  {
    if a == [] {
      assert a + b == b;
    } else {
      InsertPast(side, a[1..], b, x);
      assert a + b == [a[0]] + (a[1..] + b) && a == [a[0]] + a[1..];
      InsertBehind(side, a[0], a[1..] + b, x);
      Regroup([a[0]], a[1..], Insert(side, b, x));
    }
  }

  lemma InsertAfter(side: Side, a: seq<Resting>, b: seq<Resting>, x: Resting)
    requires forall i :: 0 <= i < |a| ==> !Better(side, x.price, a[i].price)
    requires forall i :: 0 <= i < |b| ==> Better(side, x.price, b[i].price)
    ensures Insert(side, a + b, x) == a + [x] + b
  {
    InsertPast(side, a, b, x);
    assert Insert(side, b, x) == [x] + b;
    Regroup(a, [x], b);
  }

  function Queued(m: Levels, x: Resting): Levels {
    m[x.price := (if x.price in m then m[x.price] else []) + [x]]
  }

  /** Appending to the level queue is sorted insertion into the list. */
  lemma {:induction false} FlattenInsert(side: Side, m: Levels, x: Resting)
    requires Priced(m)
    ensures Flatten(side, Queued(m, x)) == Insert(side, Flatten(side, m), x)
    decreases m.Keys
  {
    var m' := Queued(m, x);
    var b := BestKey(side, m'.Keys);
    if b == x.price {
      var rest := m - {b};
      assert m' - {b} == rest;
      forall i | 0 <= i < |Flatten(side, rest)| ensures Better(side, x.price, Flatten(side, rest)[i].price) {
        FlattenMembers(side, rest, Flatten(side, rest)[i]);
      }
      if b in m {
        BestUnique(side, m.Keys, b);
        InsertAfter(side, m[b], Flatten(side, rest), x);
      } else {
        assert rest == m;
        InsertAfter(side, [], Flatten(side, rest), x);
        assert [] + Flatten(side, rest) == Flatten(side, rest);
        assert [] + [x] == [x];
      }
    } else {
      assert b in m;
      BestUnique(side, m.Keys, b);
      var rest := m - {b};
      assert m' - {b} == Queued(rest, x);
      FlattenInsert(side, rest, x);
      InsertPast(side, m[b], Flatten(side, rest), x);
    }
  }

  lemma BestUnique(side: Side, keys: set<int>, b: int)
    requires IsBest(side, keys, b)
    ensures BestKey(side, keys) == b
  {
    var p := BestKey(side, keys);
    assert !Better(side, b, p) && !Better(side, p, b);
  }

  /** An empty level adds nothing. */
  lemma {:induction false} FlattenEmpty(side: Side, m: Levels, p: int)
    requires p !in m
    ensures Flatten(side, m[p := []]) == Flatten(side, m)
    decreases m.Keys
  {
    var m' := m[p := []];
    var b := BestKey(side, m'.Keys);
    if b == p {
      assert m' - {b} == m;
    } else {
      BestUnique(side, m.Keys, b);
      assert m' - {b} == (m - {b})[p := []];
      FlattenEmpty(side, m - {b}, p);
    }
  }

  /** What a side's list always satisfies. */
  ghost predicate ListOk(side: Side, s: seq<Resting>) {
    && Live(s)
    && UniqueIds(s)
    && PriceSorted(side, s)
    && (forall i :: 0 <= i < |s| ==> s[i].side == side)
  }

  lemma {:induction false} InsertMembers(side: Side, s: seq<Resting>, x: Resting, o: Resting)
    ensures o in Insert(side, s, x) <==> o == x || o in s
  {
    if s != [] {
      InsertMembers(side, s[1..], x, o);
      assert s == [s[0]] + s[1..];
    }
  }

  /** A list without its first order. */
  lemma TailOk(side: Side, s: seq<Resting>)
    requires ListOk(side, s) && s != []
    ensures ListOk(side, s[1..]) && s[0].side == side && Live([s[0]])
    ensures forall o :: o in s[1..] ==> o.id != s[0].id && !Better(side, o.price, s[0].price)
  {
  }

  /** A list with a new first order. */
  lemma ConsOk(side: Side, x: Resting, s: seq<Resting>)
    requires ListOk(side, s) && x.side == side && Live([x])
    requires forall i :: 0 <= i < |s| ==> s[i].id != x.id && !Better(side, s[i].price, x.price)
    ensures ListOk(side, [x] + s)
  {
    var all := [x] + s;
    assert [x][0] == x;
    forall i, j | 0 <= i < j < |all| ensures all[i].id != all[j].id && !Better(side, all[j].price, all[i].price) {
      assert all[j] == s[j - 1];
      if i > 0 { assert all[i] == s[i - 1]; }
    }
  }

  lemma {:induction false} InsertOk(side: Side, s: seq<Resting>, x: Resting)
    requires ListOk(side, s)
    requires x.side == side && Live([x])
    requires forall i :: 0 <= i < |s| ==> s[i].id != x.id
    ensures ListOk(side, Insert(side, s, x))
  {
    if s == [] || Better(side, x.price, s[0].price) {
      forall i | 0 <= i < |s| ensures !Better(side, s[i].price, x.price) {
        if i > 0 { assert !Better(side, s[i].price, s[0].price); }
      }
      ConsOk(side, x, s);
    } else {
      TailOk(side, s);
      InsertOk(side, s[1..], x);
      var tail := Insert(side, s[1..], x);
      forall i | 0 <= i < |tail| ensures tail[i].id != s[0].id && !Better(side, tail[i].price, s[0].price) {
        InsertMembers(side, s[1..], x, tail[i]);
      }
      ConsOk(side, s[0], tail);
    }
  }

  /** Level queues that stand for a proper list. */
  ghost predicate Listed(side: Side, m: Levels) { Priced(m) && ListOk(side, Flatten(side, m)) }

  lemma EmptyListed(side: Side, m: Levels, p: int)
    requires p !in m
    ensures Flatten(side, m[p := []]) == Flatten(side, m)
    ensures Listed(side, m[p := []]) <==> Listed(side, m)
  {
    FlattenEmpty(side, m, p);
    assert forall q :: q in m ==> m[p := []][q] == m[q];
  }

  lemma DroppedListed(side: Side, m: Levels, p: int)
    requires Listed(side, m) && p in m && m[p] == []
    ensures Listed(side, m - {p}) && Flatten(side, m - {p}) == Flatten(side, m)
  {
    assert m == (m - {p})[p := []];
    EmptyListed(side, m - {p}, p);
  }

  /** No level is empty. */
  ghost predicate Full(m: Levels) { forall p :: p in m ==> m[p] != [] }

  lemma QueuedListed(side: Side, m: Levels, x: Resting)
    requires Listed(side, m) && x.side == side && Live([x])
    requires forall i :: 0 <= i < |Flatten(side, m)| ==> Flatten(side, m)[i].id != x.id
    ensures Listed(side, Queued(m, x)) && Flatten(side, Queued(m, x)) == Insert(side, Flatten(side, m), x)
  {
    FlattenInsert(side, m, x);
    InsertOk(side, Flatten(side, m), x);
  }

  lemma {:induction false} FrontOk(side: Side, s: seq<Resting>, q: int)
    requires ListOk(side, s) && s != [] && 0 < q <= s[0].Remaining()
    ensures ListOk(side, s[1..])
    ensures q < s[0].Remaining() ==> ListOk(side, [Fill(s[0], q)] + s[1..])
  {
  }

  // ---------------------------------------------------------------- consuming the front

  /** The level map after the best level's queue becomes `q`; an emptied level disappears. */
  function WithLevel(m: Levels, p: int, q: seq<Resting>): Levels {
    if q == [] then m - {p} else m[p := q]
  }

  lemma FlattenAtBest(side: Side, m: Levels, p: int, q: seq<Resting>)
    requires IsBest(side, m.Keys, p)
    ensures Flatten(side, m) == m[p] + Flatten(side, m - {p})
    ensures Flatten(side, m[p := q]) == q + Flatten(side, m - {p})
    ensures Flatten(side, WithLevel(m, p, q)) == q + Flatten(side, m - {p})
  {
    BestUnique(side, m.Keys, p);
    assert m[p := q].Keys == m.Keys;
    assert m[p := q] - {p} == m - {p};
    if q == [] { assert q + Flatten(side, m - {p}) == Flatten(side, m - {p}); }
  }

  // ---------------------------------------------------------------- removing an order

  /** An order with this id is on the list. */
  predicate Lists(s: seq<Resting>, id: Id) { exists o :: o in s && o.id == id }

  function Without(s: seq<Resting>, id: Id): seq<Resting> {
    if s == [] then [] else (if s[0].id == id then [] else [s[0]]) + Without(s[1..], id)
  }

  lemma {:induction false} WithoutAbsent(s: seq<Resting>, id: Id)
    requires forall i :: 0 <= i < |s| ==> s[i].id != id
    ensures Without(s, id) == s
  {
    if s != [] { WithoutAbsent(s[1..], id); }
  }

  lemma WithoutCons(x: Resting, s: seq<Resting>, id: Id)
    ensures Without([x] + s, id) == (if x.id == id then [] else [x]) + Without(s, id)
  {
    assert ([x] + s)[1..] == s;
  }

  lemma {:induction false} WithoutConcat(a: seq<Resting>, b: seq<Resting>, id: Id)
    ensures Without(a + b, id) == Without(a, id) + Without(b, id)
  {
    if a == [] {
      assert a + b == b;
    } else {
      WithoutConcat(a[1..], b, id);
      assert a + b == [a[0]] + (a[1..] + b) && a == [a[0]] + a[1..];
      WithoutCons(a[0], a[1..] + b, id);
      WithoutCons(a[0], a[1..], id);
      Regroup(if a[0].id == id then [] else [a[0]], Without(a[1..], id), Without(b, id));
    }
  }

  /** Removing an order from its level is removing it from the list. */
  lemma {:induction false} FlattenRemove(side: Side, m: Levels, p: int, id: Id)
    requires p in m
    requires forall q, i :: q in m && q != p && 0 <= i < |m[q]| ==> m[q][i].id != id
    ensures Flatten(side, WithLevel(m, p, Without(m[p], id))) == Without(Flatten(side, m), id)
    ensures Without(m[p], id) == [] ==> Flatten(side, m - {p}) == Without(Flatten(side, m), id)
    decreases m.Keys
  {
    var b := BestKey(side, m.Keys);
    var rest := m - {b};
    WithoutConcat(m[b], Flatten(side, rest), id);
    if b == p {
      FlattenAtBest(side, m, p, Without(m[p], id));
      forall i | 0 <= i < |Flatten(side, rest)| ensures Flatten(side, rest)[i].id != id {
        var o := Flatten(side, rest)[i];
        FlattenMembers(side, rest, o);
        var q :| q in rest && o in rest[q];
        var k :| 0 <= k < |rest[q]| && rest[q][k] == o;
        assert m[q][k].id != id;
      }
      WithoutAbsent(Flatten(side, rest), id);
    } else {
      var m' := WithLevel(m, p, Without(m[p], id));
      WithoutAbsent(m[b], id);
      assert m' - {b} == WithLevel(rest, p, Without(rest[p], id));
      assert IsBest(side, m'.Keys, b);
      BestUnique(side, m'.Keys, b);
      FlattenRemove(side, rest, p, id);
    }
  }

  lemma {:induction false} WithoutMembers(s: seq<Resting>, id: Id, o: Resting)
    ensures o in Without(s, id) <==> o in s && o.id != id
  {
    if s != [] {
      WithoutMembers(s[1..], id, o);
      assert s == [s[0]] + s[1..];
    }
  }

  lemma {:induction false} WithoutOk(side: Side, s: seq<Resting>, id: Id)
    requires ListOk(side, s)
    ensures ListOk(side, Without(s, id))
  {
    if s != [] {
      TailOk(side, s);
      WithoutOk(side, s[1..], id);
      var tail := Without(s[1..], id);
      forall i | 0 <= i < |tail| ensures tail[i].id != s[0].id && !Better(side, tail[i].price, s[0].price) {
        WithoutMembers(s[1..], id, tail[i]);
      }
      ConsOk(side, s[0], tail);
    }
  }

  /** In a list with unique ids, taking out position `i` is taking out its id. */
  lemma {:induction false} WithoutAt(s: seq<Resting>, i: int)
    requires UniqueIds(s) && 0 <= i < |s|
    ensures Without(s, s[i].id) == s[..i] + s[i + 1..]
  {
    if i == 0 {
      WithoutAbsent(s[1..], s[0].id);
    } else {
      WithoutAt(s[1..], i - 1);
      assert s[..i] == [s[0]] + s[1..][..i - 1];
    }
  }

  /** Unique ids across the whole list: inside a level, and between levels. */
  lemma {:induction false} OneLevelHasIt(side: Side, m: Levels, p: int, i: int)
    requires UniqueIds(Flatten(side, m)) && p in m && 0 <= i < |m[p]|
    ensures Without(m[p], m[p][i].id) == m[p][..i] + m[p][i + 1..]
    ensures forall q, j :: q in m && q != p && 0 <= j < |m[q]| ==> m[q][j].id != m[p][i].id
    decreases m.Keys
  {
    var id := m[p][i].id;
    var b := BestKey(side, m.Keys);
    var all, rest := Flatten(side, m), Flatten(side, m - {b});
    assert all[..|m[b]|] == m[b] && all[|m[b]|..] == rest;
    if b == p {
      WithoutAt(m[p], i);
      forall q, j | q in m && q != p && 0 <= j < |m[q]| ensures m[q][j].id != id {
        FlattenMembers(side, m - {b}, (m - {b})[q][j]);
        var k :| 0 <= k < |rest| && rest[k] == m[q][j];
        assert all[i].id != all[|m[b]| + k].id;
      }
    } else {
      OneLevelHasIt(side, m - {b}, p, i);
      FlattenMembers(side, m - {b}, (m - {b})[p][i]);
      var k :| 0 <= k < |rest| && rest[k] == m[p][i];
      forall q, j | q in m && q != p && 0 <= j < |m[q]| ensures m[q][j].id != id {
        if q == b {
          assert all[j].id != all[|m[b]| + k].id;
        } else {
          assert q in m - {b} && (m - {b})[q] == m[q];
        }
      }
    }
  }

  lemma TakeOutView(side: Side, m: Levels, p: int, i: int)
    requires Listed(side, m) && p in m && 0 <= i < |m[p]|
    ensures Flatten(side, m[p := m[p][..i] + m[p][i + 1..]]) == Without(Flatten(side, m), m[p][i].id)
  {
    OneLevelHasIt(side, m, p, i);
    FlattenRemove(side, m, p, m[p][i].id);
    if m[p][..i] + m[p][i + 1..] == [] {
      FlattenEmpty(side, m - {p}, p);
      assert m[p := []] == (m - {p})[p := []];
    }
  }

  /** Taking the order at position `i` out of level `p` takes its id out of the list. */
  lemma TakeOutOk(side: Side, m: Levels, p: int, i: int)
    requires Listed(side, m) && p in m && 0 <= i < |m[p]|
    ensures var m' := m[p := m[p][..i] + m[p][i + 1..]];
      && Listed(side, m')
      && Flatten(side, m') == Without(Flatten(side, m), m[p][i].id)
    ensures Lists(Flatten(side, m), m[p][i].id)
  {
    FlattenMembers(side, m, m[p][i]);
    TakeOutView(side, m, p, i);
    WithoutOk(side, Flatten(side, m), m[p][i].id);
  }

  /** The list, or a level's queue, after its front order gets `q`. */
  function FrontFilled(s: seq<Resting>, q: int): seq<Resting>
    requires s != []
  {
    if q == s[0].Remaining() then s[1..] else [Fill(s[0], q)] + s[1..]
  }

  /** Filling the front of the best level is filling the front of the list. */
  lemma FillFrontOk(side: Side, m: Levels, p: int, q: int)
    requires Listed(side, m) && IsBest(side, m.Keys, p) && m[p] != []
    requires 0 < q <= m[p][0].Remaining()
    ensures Flatten(side, m) != [] && Flatten(side, m)[0] == m[p][0]
    ensures var m' := m[p := FrontFilled(m[p], q)];
      && Listed(side, m')
      && Flatten(side, m') == FrontFilled(Flatten(side, m), q)
  {
    var rest := Flatten(side, m - {p});
    FlattenAtBest(side, m, p, FrontFilled(m[p], q));
    assert (m[p] + rest)[1..] == m[p][1..] + rest;
    assert Fill(m[p][0], q).price == m[p][0].price == p;
    FrontOk(side, Flatten(side, m), q);
    assert FrontFilled(m[p], q) + rest == FrontFilled(m[p] + rest, q);
  }
}
