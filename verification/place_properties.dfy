/** What `place_order` does as written, seen from outside: which resting
    order it fills first, whom every fill names as maker, when it aborts,
    and where the unfilled remainder goes. */
module PlaceProperties {
  import opened Wrappers
  import opened Types
  import opened Token
  import opened Sides
  import opened Matching
  import opened MatchingFacts
  import opened Program
  import opened Invariants
  import opened PlaceFacts

  /** The order a side of the book is kept in: bids for buys, asks for sells;
      the side a taker matches against is kept in the other one. */
  function Other(side: Side): Side {
    if side == Buy then Sell else Buy
  }

  lemma OppositeSorted(book: Orderbook, side: Side)
    requires Sorted(Buy, book.bids) && Sorted(Sell, book.asks)
    ensures Sorted(Other(side), Opposite(book, side))
    ensures Sorted(side, Own(book, side))
  {
  }

  /** Taking orders off the end, and shrinking the new last one, keeps a side
      sorted: prices do not move. */
  lemma ConsumedSorted(side: Side, before: seq<Order>, after: seq<Order>)
    requires Sorted(side, before) && ConsumedFromEnd(before, after)
    ensures Sorted(side, after)
  {
    forall i, j | 0 <= i < j < |after|
      ensures InOrder(side, after[i], after[j])
    {
      assert Reduced(after[i], before[i]) && Reduced(after[j], before[j]);
    }
  }

  /** Sorting a side that is already sorted leaves it as it is. */
  lemma SortSorted(side: Side, s: seq<Order>)
    requires Sorted(side, s)
    ensures SortSide(side, s) == s
  {
    forall p: u64
      ensures AtPrice(SortSide(side, s), p) == AtPrice(s, p)
    {
      SortStable(side, s, p);
    }
    StableSortUnique(side, SortSide(side, s), s);
  }

  /** The first fill is against the LAST order of the opposite side, which on
      a well-formed book is its worst price: a buy meets the highest ask
      first, a sell the lowest bid. Within that price level it is the order
      queued LAST. So a taker fills at all only when its price reaches every
      resting order on the other side. */
  lemma PlaceOrderWorstPriceFirst(s: State, pdas: Pdas, ctx: PlaceContext, side: Side, price: u64, quantity: u64)
    requires PlaceContextValid(s, pdas, ctx) && Wf(s, pdas)
    requires PlaceOrder(s, pdas, ctx, side, price, quantity).Ok?
    requires |PlaceOrder(s, pdas, ctx, side, price, quantity).value.events| > 0
    ensures |Opposite(s.book, side)| > 0
    ensures var e := PlaceOrder(s, pdas, ctx, side, price, quantity).value.events[0];
      && e.price == Last(Opposite(s.book, side)).price
      && e.maker == Last(Opposite(s.book, side)).owner
      && |AtPrice(Opposite(s.book, side), e.price)| > 0
      && Last(AtPrice(Opposite(s.book, side), e.price)) == Last(Opposite(s.book, side))
      && (side == Buy ==> forall o :: o in s.book.asks ==> o.price <= e.price <= price)
      && (side == Sell ==> forall o :: o in s.book.bids ==> price <= e.price <= o.price)
  {
    var l1, m := PlaceOrderUnfold(s, pdas, ctx, side, price, quantity);
    var env := PlaceEnv(s, pdas, ctx, side, price);
    var opp := Opposite(s.book, side);
    MatchLoopEvents(env, opp, quantity, l1);
    var e := m.events[0];
    assert |opp| > 0 && e.price == Last(opp).price;
    LastOfLevel(opp);
    OppositeSorted(s.book, side);
    LastIsWorst(Other(side), opp);
  }

  /** The loop looks only at the last order: when that one does not cross,
      nothing fills, even if an order before it would have crossed (on a
      well-formed book, a buy priced between the lowest and the highest ask
      trades nothing). */
  lemma PlaceOrderStopsAtLast(s: State, pdas: Pdas, ctx: PlaceContext, side: Side, price: u64, quantity: u64)
    requires PlaceContextValid(s, pdas, ctx)
    requires PlaceOrder(s, pdas, ctx, side, price, quantity).Ok?
    requires |Opposite(s.book, side)| > 0 && !Crosses(side, price, Last(Opposite(s.book, side)).price)
    ensures PlaceOrder(s, pdas, ctx, side, price, quantity).value.events == []
  {
    var l1, m := PlaceOrderUnfold(s, pdas, ctx, side, price, quantity);
  }

  /** Every fill of one call names the same maker, the owner of the order
      that was last on the opposite side: the maker accounts are re-read from
      the start on every pass and must belong to the maker being filled, so a
      call can only trade against orders of one owner. */
  lemma PlaceOrderSingleMaker(s: State, pdas: Pdas, ctx: PlaceContext, side: Side, price: u64, quantity: u64)
    requires PlaceContextValid(s, pdas, ctx)
    requires PlaceOrder(s, pdas, ctx, side, price, quantity).Ok?
    requires |PlaceOrder(s, pdas, ctx, side, price, quantity).value.events| > 0
    ensures |Opposite(s.book, side)| > 0 && |ctx.remainingAccounts| >= 2 && ctx.remainingAccounts[0] in s.ledger
    ensures var es := PlaceOrder(s, pdas, ctx, side, price, quantity).value.events;
      forall i :: 0 <= i < |es| ==>
        && es[i].maker == Last(Opposite(s.book, side)).owner
        && es[i].maker == s.ledger[ctx.remainingAccounts[0]].owner
  {
    var l1, m := PlaceOrderUnfold(s, pdas, ctx, side, price, quantity);
    var env := PlaceEnv(s, pdas, ctx, side, price);
    var opp := Opposite(s.book, side);
    MatchLoopEvents(env, opp, quantity, l1);
  }

  /** A crossing maker whose order is not owned by the first supplied account's
      owner aborts the whole call: nothing is escrowed, matched or rested. */
  lemma PlaceOrderMakerMismatch(s: State, pdas: Pdas, ctx: PlaceContext, side: Side, price: u64, quantity: u64)
    requires PlaceContextValid(s, pdas, ctx)
    requires LockFunds(s, pdas, ctx, side, price, quantity).Ok?
    requires quantity > 0 && |Opposite(s.book, side)| > 0 && Crosses(side, price, Last(Opposite(s.book, side)).price)
    requires |ctx.remainingAccounts| >= 2 && ctx.remainingAccounts[0] in s.ledger && ctx.remainingAccounts[1] in s.ledger
    requires s.ledger[ctx.remainingAccounts[0]].owner != Last(Opposite(s.book, side)).owner
    ensures PlaceOrder(s, pdas, ctx, side, price, quantity) == Err(Dex(MakerAccountMismatch))
  {
    var l1 := LockFunds(s, pdas, ctx, side, price, quantity).value;
    var env := PlaceEnv(s, pdas, ctx, side, price);
    var opp := Opposite(s.book, side);
    assert Fill(env, opp, quantity, l1) == Err(Dex(MakerAccountMismatch));
    assert MatchLoop(env, opp, quantity, l1) == Err(Dex(MakerAccountMismatch));
  }

  /** A crossing order with fewer than two maker accounts supplied fails. */
  lemma PlaceOrderNeedsMakerAccounts(s: State, pdas: Pdas, ctx: PlaceContext, side: Side, price: u64, quantity: u64)
    requires PlaceContextValid(s, pdas, ctx)
    requires LockFunds(s, pdas, ctx, side, price, quantity).Ok?
    requires quantity > 0 && |Opposite(s.book, side)| > 0 && Crosses(side, price, Last(Opposite(s.book, side)).price)
    requires |ctx.remainingAccounts| < 2
    ensures PlaceOrder(s, pdas, ctx, side, price, quantity) == Err(NotEnoughAccountKeys)
  {
    var l1 := LockFunds(s, pdas, ctx, side, price, quantity).value;
    var env := PlaceEnv(s, pdas, ctx, side, price);
    var opp := Opposite(s.book, side);
    assert Fill(env, opp, quantity, l1) == Err(NotEnoughAccountKeys);
    assert MatchLoop(env, opp, quantity, l1) == Err(NotEnoughAccountKeys);
  }

  /** The opposite side loses exactly what was filled, from its end: every
      order but the last survivor is untouched, and the base units taken
      off it are the fills' total. */
  lemma PlaceOrderConsumes(s: State, pdas: Pdas, ctx: PlaceContext, side: Side, price: u64, quantity: u64)
    requires PlaceContextValid(s, pdas, ctx) && Wf(s, pdas)
    requires PlaceOrder(s, pdas, ctx, side, price, quantity).Ok?
    ensures var r := PlaceOrder(s, pdas, ctx, side, price, quantity).value;
      && ConsumedFromEnd(Opposite(s.book, side), Opposite(r.state.book, side))
      && Total(Opposite(r.state.book, side), Qty) + EventQty(r.events) == Total(Opposite(s.book, side), Qty)
      && Total(Opposite(r.state.book, side), Notional) + EventNotional(r.events) == Total(Opposite(s.book, side), Notional)
  {
    var l1, m := PlaceOrderUnfold(s, pdas, ctx, side, price, quantity);
    var env := PlaceEnv(s, pdas, ctx, side, price);
    var opp := Opposite(s.book, side);
    MatchLoopConsumes(env, opp, quantity, l1);
    OppositeSorted(s.book, side);
    ConsumedSorted(Other(side), opp, m.resting);
    SortSorted(Other(side), m.resting);
    var book1 := AddRemainder(WithOpposite(s.book, side, m.resting), side, ctx.owner, price, m.remaining).value;
    assert Opposite(book1, side) == m.resting;
  }
}
