/** One side of the book as the source keeps it: a `Vec<Order>` that is
    matched from its end, re-sorted with Rust's stable `sort_by`, searched
    with `position` and shortened with `remove`. */
module Sides {
  import opened Wrappers
  import opened Types

  function Last(s: seq<Order>): Order
    requires |s| > 0
  {
    s[|s| - 1]
  }

  /** `Vec::pop` without the popped element. */
  function Pop(s: seq<Order>): seq<Order>
    requires |s| > 0
  {
    s[..|s| - 1]
  }

  lemma PopLast(s: seq<Order>)
    requires |s| > 0
    ensures s == Pop(s) + [Last(s)]
  {
  }

  function Qty(o: Order): nat {
    o.quantity
  }

  /** Quote units escrowed by a bid: `price * quantity`. */
  function Notional(o: Order): nat {
    o.price * o.quantity
  }

  /** Sum of `f` over a side, accumulated from the end. */
  function Total(s: seq<Order>, f: Order -> nat): nat {
    if |s| == 0 then 0 else Total(Pop(s), f) + f(Last(s))
  }

  lemma {:induction false} TotalAppend(a: seq<Order>, b: seq<Order>, f: Order -> nat)
    ensures Total(a + b, f) == Total(a, f) + Total(b, f)
    decreases |b|
  {
    if |b| == 0 {
      assert a + b == a;
    } else {
      assert Pop(a + b) == a + Pop(b);
      TotalAppend(a, Pop(b), f);
    }
  }

  /** The orders of `s` at price `p`, in their order in `s`: one price level. */
  function AtPrice(s: seq<Order>, p: u64): seq<Order> {
    if |s| == 0 then []
    else AtPrice(Pop(s), p) + (if Last(s).price == p then [Last(s)] else [])
  }

  /** The last order of a side is also the last of its own price level. */
  lemma LastOfLevel(s: seq<Order>)
    requires |s| > 0
    ensures |AtPrice(s, Last(s).price)| > 0 && Last(AtPrice(s, Last(s).price)) == Last(s)
  {
  }

  lemma {:induction false} AtPriceAppend(a: seq<Order>, b: seq<Order>, p: u64)
    ensures AtPrice(a + b, p) == AtPrice(a, p) + AtPrice(b, p)
    decreases |b|
  {
    if |b| == 0 {
      assert a + b == a;
    } else {
      assert Pop(a + b) == a + Pop(b);
      AtPriceAppend(a, Pop(b), p);
    }
  }

  lemma {:induction false} AtPriceMember(s: seq<Order>, p: u64, x: Order)
    ensures x in AtPrice(s, p) <==> x in s && x.price == p
    decreases |s|
  {
    if |s| > 0 {
      AtPriceMember(Pop(s), p, x);
      PopLast(s);
    }
  }

  /** `a` may precede `b` on `side`: bids run by price descending, asks by
      price ascending. */
  predicate InOrder(side: Side, a: Order, b: Order) {
    if side == Buy then a.price >= b.price else a.price <= b.price
  }

  predicate Sorted(side: Side, s: seq<Order>) {
    forall i, j :: 0 <= i < j < |s| ==> InOrder(side, s[i], s[j])
  }

  /** Places `x` after every element that may precede it: the step of a
      stable insertion sort. */
  function Insert(side: Side, t: seq<Order>, x: Order): (r: seq<Order>)
    ensures multiset(r) == multiset(t) + multiset{x}
    decreases |t|
  {
    if |t| == 0 || InOrder(side, Last(t), x) then t + [x]
    else
      PopLast(t);
      Insert(side, Pop(t), x) + [Last(t)]
  }

  /** A sorted side followed by an order that every element may precede is
      sorted. */
  lemma SnocSorted(side: Side, r: seq<Order>, y: Order)
    requires Sorted(side, r)
    requires forall z :: z in r ==> InOrder(side, z, y)
    ensures Sorted(side, r + [y])
  {
    var r' := r + [y];
    forall i, j | 0 <= i < j < |r'|
      ensures InOrder(side, r'[i], r'[j])
    {
      if j == |r'| - 1 {
        assert r'[i] in r;
      } else {
        assert r'[i] == r[i] && r'[j] == r[j];
      }
    }
  }

  /** On a sorted side the last order is the furthest from the front: the
      highest ask, or the lowest bid. */
  lemma LastIsWorst(side: Side, s: seq<Order>)
    requires Sorted(side, s) && |s| > 0
    ensures forall o :: o in s ==> InOrder(side, o, Last(s))
  {
    forall o | o in s
      ensures InOrder(side, o, Last(s))
    {
      var i :| 0 <= i < |s| && s[i] == o;
      if i < |s| - 1 {
        assert InOrder(side, s[i], s[|s| - 1]);
      }
    }
  }

  lemma {:induction false} InsertSorted(side: Side, t: seq<Order>, x: Order)
    requires Sorted(side, t)
    ensures Sorted(side, Insert(side, t, x))
    decreases |t|
  {
    if |t| == 0 || InOrder(side, Last(t), x) {
      if |t| > 0 {
        LastIsWorst(side, t);
        PopLast(t);
        assert forall z :: z in t ==> InOrder(side, z, x);
      }
      SnocSorted(side, t, x);
    } else {
      var y := Last(t);
      var r' := Insert(side, Pop(t), x);
      InsertSorted(side, Pop(t), x);
      LastIsWorst(side, t);
      PopLast(t);
      forall z | z in r'
        ensures InOrder(side, z, y)
      {
        assert z in multiset(r');
      }
      SnocSorted(side, r', y);
    }
  }

  lemma {:induction false} InsertTotal(side: Side, t: seq<Order>, x: Order, f: Order -> nat)
    ensures Total(Insert(side, t, x), f) == Total(t, f) + f(x)
    decreases |t|
  {
    if |t| == 0 || InOrder(side, Last(t), x) {
      TotalAppend(t, [x], f);
      assert Total([x], f) == Total([], f) + f(x) by { assert Pop([x]) == []; }
    } else {
      var r' := Insert(side, Pop(t), x);
      InsertTotal(side, Pop(t), x, f);
      assert Pop(r' + [Last(t)]) == r';
      PopLast(t);
    }
  }

  /** The orders of level `p` among the single order `x`. */
  function Level(x: Order, p: u64): seq<Order> {
    if x.price == p then [x] else []
  }

  lemma AtPriceSnoc(s: seq<Order>, x: Order, p: u64)
    ensures AtPrice(s + [x], p) == AtPrice(s, p) + Level(x, p)
  {
    assert Pop(s + [x]) == s;
  }

  lemma {:induction false} InsertStable(side: Side, t: seq<Order>, x: Order, p: u64)
    ensures AtPrice(Insert(side, t, x), p) == AtPrice(t + [x], p)
    decreases |t|
  {
    if |t| == 0 || InOrder(side, Last(t), x) {
    } else {
      var y := Last(t);
      var r' := Insert(side, Pop(t), x);
      assert Insert(side, t, x) == r' + [y];
      assert y.price != x.price;
      calc {
        AtPrice(r' + [y], p);
        == { AtPriceSnoc(r', y, p); }
        AtPrice(r', p) + Level(y, p);
        == { InsertStable(side, Pop(t), x, p); AtPriceSnoc(Pop(t), x, p); }
        AtPrice(Pop(t), p) + Level(x, p) + Level(y, p);
        == { assert Level(x, p) == [] || Level(y, p) == []; }
        AtPrice(Pop(t), p) + Level(y, p) + Level(x, p);
        == { PopLast(t); AtPriceSnoc(Pop(t), y, p); }
        AtPrice(t, p) + Level(x, p);
        == { AtPriceSnoc(t, x, p); }
        AtPrice(t + [x], p);
      }
    }
  }

  /** Rust's stable `sort_by` with the side's comparator, as an insertion sort. */
  function SortSide(side: Side, s: seq<Order>): (r: seq<Order>)
    ensures Sorted(side, r)
    ensures multiset(r) == multiset(s)
    decreases |s|
  {
    if |s| == 0 then []
    else
      var t := SortSide(side, Pop(s));
      InsertSorted(side, t, Last(s));
      PopLast(s);
      Insert(side, t, Last(s))
  }

  lemma {:induction false} SortTotal(side: Side, s: seq<Order>, f: Order -> nat)
    ensures Total(SortSide(side, s), f) == Total(s, f)
    decreases |s|
  {
    if |s| > 0 {
      SortTotal(side, Pop(s), f);
      InsertTotal(side, SortSide(side, Pop(s)), Last(s), f);
    }
  }

  /** The sort keeps every price level in its original order. */
  lemma {:induction false} SortStable(side: Side, s: seq<Order>, p: u64)
    ensures AtPrice(SortSide(side, s), p) == AtPrice(s, p)
    decreases |s|
  {
    if |s| > 0 {
      var t := SortSide(side, Pop(s));
      SortStable(side, Pop(s), p);
      InsertStable(side, t, Last(s), p);
      AtPriceAppend(t, [Last(s)], p);
      assert Pop([Last(s)]) == [];
    }
  }

  lemma SameLevelsSameLast(side: Side, r1: seq<Order>, r2: seq<Order>)
    requires Sorted(side, r1) && Sorted(side, r2) && |r1| > 0 && |r2| > 0
    requires forall p: u64 :: AtPrice(r1, p) == AtPrice(r2, p)
    ensures Last(r1) == Last(r2)
  {
    var x, y := Last(r1), Last(r2);
    assert x in r2 by {
      AtPriceMember(r1, x.price, x);
      AtPriceMember(r2, x.price, x);
      assert AtPrice(r1, x.price) == AtPrice(r2, x.price);
    }
    assert y in r1 by {
      AtPriceMember(r1, y.price, y);
      AtPriceMember(r2, y.price, y);
      assert AtPrice(r1, y.price) == AtPrice(r2, y.price);
    }
    LastIsWorst(side, r2);
    LastIsWorst(side, r1);
    var p := x.price;
    assert y.price == p;
    var l := AtPrice(r1, p);
    assert l == AtPrice(Pop(r1), p) + [x];
    assert l == AtPrice(Pop(r2), p) + [y];
    assert l[|l| - 1] == x && l[|l| - 1] == y;
  }

  lemma SameLevelsPop(r1: seq<Order>, r2: seq<Order>)
    requires |r1| > 0 && |r2| > 0 && Last(r1) == Last(r2)
    requires forall p: u64 :: AtPrice(r1, p) == AtPrice(r2, p)
    ensures forall p: u64 :: AtPrice(Pop(r1), p) == AtPrice(Pop(r2), p)
  {
    forall p: u64
      ensures AtPrice(Pop(r1), p) == AtPrice(Pop(r2), p)
    {
      var a, b, l := AtPrice(Pop(r1), p), AtPrice(Pop(r2), p), Level(Last(r1), p);
      assert AtPrice(r1, p) == a + l;
      assert AtPrice(r2, p) == b + l;
      assert a == (a + l)[..|a|];
      assert b == (b + l)[..|b|];
    }
  }

  /** A stable sort has exactly one possible output: two sorted sequences
      with the same price levels are equal. So `SortSide` is what any stable
      sort with this comparator returns. */
  lemma {:induction false} StableSortUnique(side: Side, r1: seq<Order>, r2: seq<Order>)
    requires Sorted(side, r1) && Sorted(side, r2)
    requires forall p: u64 :: AtPrice(r1, p) == AtPrice(r2, p)
    ensures r1 == r2
    decreases |r1| + |r2|
  {
    if |r1| == 0 && |r2| == 0 {
    } else if |r1| == 0 {
      LastOfLevel(r2);
      assert false;
    } else if |r2| == 0 {
      LastOfLevel(r1);
      assert false;
    } else {
      SameLevelsSameLast(side, r1, r2);
      SameLevelsPop(r1, r2);
      StableSortUnique(side, Pop(r1), Pop(r2));
      PopLast(r1);
      PopLast(r2);
    }
  }

  /** `iter().position(|o| o.order_id == id)`. */
  function Position(s: seq<Order>, id: u64): (r: Option<nat>)
    ensures r.Some? ==> r.value < |s| && s[r.value].orderId == id
    ensures r.Some? ==> forall j :: 0 <= j < r.value ==> s[j].orderId != id
    ensures r.None? <==> forall j :: 0 <= j < |s| ==> s[j].orderId != id
    decreases |s|
  {
    if |s| == 0 then None
    else if s[0].orderId == id then Some(0)
    else
      match Position(s[1..], id)
      case None => None
      case Some(k) => Some(k + 1)
  }

  /** `Vec::remove(i)`: the element at `i` goes, the rest keep their order. */
  function RemoveAt(s: seq<Order>, i: nat): (r: seq<Order>)
    requires i < |s|
    ensures |r| == |s| - 1
    ensures forall j :: 0 <= j < i ==> r[j] == s[j]
    ensures forall j :: i <= j < |r| ==> r[j] == s[j + 1]
  {
    s[..i] + s[i + 1..]
  }

  lemma RemoveAtMultiset(s: seq<Order>, i: nat)
    requires i < |s|
    ensures multiset(RemoveAt(s, i)) + multiset{s[i]} == multiset(s)
  {
    assert s == s[..i] + [s[i]] + s[i + 1..];
  }

  lemma SplitAt(s: seq<Order>, i: nat)
    requires i < |s|
    ensures s == (s[..i] + [s[i]]) + s[i + 1..]
    ensures RemoveAt(s, i) == s[..i] + s[i + 1..]
  {
    assert s[i..] == [s[i]] + s[i + 1..];
    assert s == s[..i] + s[i..];
  }

  lemma RemoveAtTotal(s: seq<Order>, i: nat, f: Order -> nat)
    requires i < |s|
    ensures Total(RemoveAt(s, i), f) + f(s[i]) == Total(s, f)
  {
    var a, x, b := s[..i], s[i], s[i + 1..];
    SplitAt(s, i);
    TotalAppend(a + [x], b, f);
    TotalAppend(a, [x], f);
    TotalAppend(a, b, f);
    assert Total([x], f) == f(x) by {
      assert Pop([x]) == [];
    }
  }

  lemma RemoveAtSorted(side: Side, s: seq<Order>, i: nat)
    requires i < |s| && Sorted(side, s)
    ensures Sorted(side, RemoveAt(s, i))
  {
    var r := RemoveAt(s, i);
    forall a, b | 0 <= a < b < |r|
      ensures InOrder(side, r[a], r[b])
    {
      var a' := if a < i then a else a + 1;
      var b' := if b < i then b else b + 1;
      assert r[a] == s[a'] && r[b] == s[b'];
    }
  }

  /** Removing one order takes exactly that order out of the contents and the
      totals, and keeps the side sorted. */
  lemma RemoveAtParts(s: seq<Order>, i: nat, f: Order -> nat)
    requires i < |s|
    ensures multiset(RemoveAt(s, i)) + multiset{s[i]} == multiset(s)
    ensures Total(RemoveAt(s, i), f) + f(s[i]) == Total(s, f)
    ensures forall side: Side :: Sorted(side, s) ==> Sorted(side, RemoveAt(s, i))
  {
    RemoveAtMultiset(s, i);
    RemoveAtTotal(s, i, f);
    forall side: Side | Sorted(side, s)
      ensures Sorted(side, RemoveAt(s, i))
    {
      RemoveAtSorted(side, s, i);
    }
  }
}
