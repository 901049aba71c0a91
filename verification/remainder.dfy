/** Where the unfilled part of a `place_order` goes: onto the taker's own
    side, under the next id, after every order already resting at its price. */
module Remainder {
  import opened Types
  import opened Wrappers
  import opened Sides
  import opened Matching
  import opened Program
  import opened PlaceFacts

  /** The remainder step appends at most one order to the taker's side. */
  lemma RemainderOwn(book: Orderbook, side: Side, owner: Pubkey, price: u64, remaining: u64)
    requires AddRemainder(book, side, owner, price, remaining).Ok?
    ensures remaining > 0 ==> book.orderIdCounter < U64_MAX
    ensures var added := if remaining > 0 then [Order(owner, price, remaining, book.orderIdCounter + 1)] else [];
      && Own(AddRemainder(book, side, owner, price, remaining).value, side) == Own(book, side) + added
      && AddRemainder(book, side, owner, price, remaining).value.orderIdCounter == book.orderIdCounter + |added|
  {
  }

  /** `after` holds the orders of `before` followed by `added`, in the same
      order within every price level. */
  predicate Queued(before: seq<Order>, added: seq<Order>, after: seq<Order>) {
    && multiset(after) == multiset(before + added)
    && forall p: u64 :: AtPrice(after, p) == AtPrice(before + added, p)
  }

  lemma QueuedEq(before: seq<Order>, added: seq<Order>, after: seq<Order>, added': seq<Order>, after': seq<Order>)
    requires Queued(before, added, after) && added == added' && after == after'
    ensures Queued(before, added', after')
  {
  }

  lemma SortQueued(side: Side, before: seq<Order>, added: seq<Order>)
    ensures Queued(before, added, SortSide(side, before + added))
  {
    forall p: u64
      ensures AtPrice(SortSide(side, before + added), p) == AtPrice(before + added, p)
    {
      SortStable(side, before + added, p);
    }
  }

  lemma QueuedHas(before: seq<Order>, o: Order, after: seq<Order>)
    requires Queued(before, [o], after)
    ensures o in after
  {
    assert o in multiset(before + [o]);
  }

  /** A `place_order` that fills its whole quantity issues no id, and leaves
      the taker's side as it was, level by level. */
  lemma PlaceOrderFullyFilled(s: State, pdas: Pdas, ctx: PlaceContext, side: Side, price: u64, quantity: u64, r: Placed)
    requires PlaceContextValid(s, pdas, ctx)
    requires PlaceOrder(s, pdas, ctx, side, price, quantity) == Ok(r)
    requires EventQty(r.events) == quantity
    ensures r.state.book.orderIdCounter == s.book.orderIdCounter
    ensures Queued(Own(s.book, side), [], Own(r.state.book, side))
  {
    var l1, m := PlaceOrderUnfold(s, pdas, ctx, side, price, quantity);
    assert m.remaining + EventQty(m.events) == quantity;
    RestQueued(s.book, m.resting, side, ctx.owner, price, m.remaining, r.state.book);
  }

  /** The unfilled remainder rests on the taker's own side as a new order
      with the taker's owner and price, the unfilled quantity, and the id
      `counter + 1`, queued after every order already resting at that price;
      the counter moves only here. Orders at every other price keep their
      relative order. */
  lemma PlaceOrderRestsRemainder(s: State, pdas: Pdas, ctx: PlaceContext, side: Side, price: u64, quantity: u64, r: Placed)
    requires PlaceContextValid(s, pdas, ctx)
    requires PlaceOrder(s, pdas, ctx, side, price, quantity) == Ok(r)
    ensures quantity > EventQty(r.events) ==> r.state.book.orderIdCounter == s.book.orderIdCounter + 1
    ensures quantity > EventQty(r.events) ==>
      Queued(Own(s.book, side),
             [Order(ctx.owner, price, quantity - EventQty(r.events), r.state.book.orderIdCounter)],
             Own(r.state.book, side))
  {
    var l1, m := PlaceOrderUnfold(s, pdas, ctx, side, price, quantity);
    assert m.remaining + EventQty(m.events) == quantity;
    RestQueued(s.book, m.resting, side, ctx.owner, price, m.remaining, r.state.book);
    if m.remaining > 0 {
      var o := Order(ctx.owner, price, m.remaining, r.state.book.orderIdCounter);
      var o' := Order(ctx.owner, price, quantity - EventQty(r.events), r.state.book.orderIdCounter);
      assert o == o';
      QueuedEq(Own(s.book, side), [o], Own(r.state.book, side), [o'], Own(r.state.book, side));
    }
  }

  /** The book-level half of the above: after the opposite side is replaced
      and the remainder added, the sorted taker side `b` is the old one
      followed by the new order, level by level. */
  lemma RestQueued(book: Orderbook, rest: seq<Order>, side: Side, owner: Pubkey, price: u64, remaining: u64, b: Orderbook)
    requires AddRemainder(WithOpposite(book, side, rest), side, owner, price, remaining).Ok?
    requires b == SortBook(AddRemainder(WithOpposite(book, side, rest), side, owner, price, remaining).value)
    ensures remaining == 0 ==> b.orderIdCounter == book.orderIdCounter && Queued(Own(book, side), [], Own(b, side))
    ensures remaining > 0 ==>
      && b.orderIdCounter == book.orderIdCounter + 1
      && Queued(Own(book, side), [Order(owner, price, remaining, b.orderIdCounter)], Own(b, side))
  {
    var book0 := WithOpposite(book, side, rest);
    var book1 := AddRemainder(book0, side, owner, price, remaining).value;
    RemainderOwn(book0, side, owner, price, remaining);
    assert Own(book0, side) == Own(book, side);
    var added := if remaining > 0 then [Order(owner, price, remaining, book0.orderIdCounter + 1)] else [];
    SortQueued(side, Own(book, side), added);
    assert Own(b, side) == SortSide(side, Own(book, side) + added);
  }
}
