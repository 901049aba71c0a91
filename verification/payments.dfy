/** Where the tokens of one `place_order` go, account by account. Outside
    the two vaults, only the taker's own accounts and the two maker
    accounts passed along with the instruction change; the quote account a
    buy pays its makers through is never checked against anything. */
module Payments {
  import opened Types
  import opened Token
  import opened Matching
  import opened MatchingFacts
  import opened Program
  import opened PlaceFacts

  /** Every account other than the vaults ends with its starting balance,
      less the escrow the taker locks, plus what the fills pay it. A buy
      pays the traded base units to the taker's base account and their
      price to the second maker account. A sell pays the traded base units
      to the first maker account and their price to the taker's quote
      account. No other account, and in particular no account of the makers
      whose orders were filled, is credited with anything. */
  lemma PlaceOrderPayments(s: State, pdas: Pdas, ctx: PlaceContext, side: Side, price: u64, quantity: u64)
    requires PlaceContextValid(s, pdas, ctx)
    requires PlaceOrder(s, pdas, ctx, side, price, quantity).Ok?
    ensures var r := PlaceOrder(s, pdas, ctx, side, price, quantity).value;
      |r.events| > 0 ==> |ctx.remainingAccounts| >= 2
    ensures var r := PlaceOrder(s, pdas, ctx, side, price, quantity).value;
      side == Buy ==> forall a :: a in s.ledger && a != pdas.baseVault && a != pdas.quoteVault ==>
        Balance(r.state.ledger, a) + Leg(a, ctx.ownerQuote, price * quantity)
        == Balance(s.ledger, a) + Leg(a, ctx.ownerBase, EventQty(r.events))
           + (if |r.events| > 0 && |ctx.remainingAccounts| >= 2
              then Leg(a, ctx.remainingAccounts[1], EventNotional(r.events)) else 0)
    ensures var r := PlaceOrder(s, pdas, ctx, side, price, quantity).value;
      side == Sell ==> forall a :: a in s.ledger && a != pdas.baseVault && a != pdas.quoteVault ==>
        Balance(r.state.ledger, a) + Leg(a, ctx.ownerBase, quantity)
        == Balance(s.ledger, a) + Leg(a, ctx.ownerQuote, EventNotional(r.events))
           + (if |r.events| > 0 && |ctx.remainingAccounts| >= 2
              then Leg(a, ctx.remainingAccounts[0], EventQty(r.events)) else 0)
  {
    var l1, m := PlaceOrderUnfold(s, pdas, ctx, side, price, quantity);
    var env := PlaceEnv(s, pdas, ctx, side, price);
    var r := PlaceOrder(s, pdas, ctx, side, price, quantity).value;
    assert r.state.ledger == m.ledger && r.events == m.events;
    MatchLoopPayments(env, Opposite(s.book, side), quantity, l1);
    var eq, en := EventQty(m.events), EventNotional(m.events);
    forall a | a in s.ledger && a != pdas.baseVault && a != pdas.quoteVault
      ensures Balance(m.ledger, a) + Leg(a, if side == Buy then ctx.ownerQuote else ctx.ownerBase,
                                         if side == Buy then price * quantity else quantity)
              == Balance(s.ledger, a)
                 + Leg(a, if side == Buy then ctx.ownerBase else ctx.ownerQuote, if side == Buy then eq else en)
                 + (if |m.events| > 0 && |ctx.remainingAccounts| >= 2
                    then Leg(a, if side == Buy then ctx.remainingAccounts[1] else ctx.remainingAccounts[0],
                             if side == Buy then en else eq)
                    else 0)
    {
      assert a in l1;
    }
  }

  /** A buy that names its own quote account as the maker's: the makers'
      price of every fill comes straight back to it, so it pays its escrow
      less the makers' prices of what filled. That is the escrow of the
      unfilled part plus the price improvement, which stays in the quote
      vault. The makers whose orders were consumed receive nothing. */
  lemma BuyerPaysItself(s: State, pdas: Pdas, ctx: PlaceContext, price: u64, quantity: u64)
    requires PlaceContextValid(s, pdas, ctx)
    requires PlaceOrder(s, pdas, ctx, Buy, price, quantity).Ok?
    requires |ctx.remainingAccounts| >= 2 && ctx.remainingAccounts[1] == ctx.ownerQuote
    ensures var r := PlaceOrder(s, pdas, ctx, Buy, price, quantity).value;
      Balance(r.state.ledger, ctx.ownerQuote) + price * quantity
      == Balance(s.ledger, ctx.ownerQuote) + EventNotional(r.events)
         + Leg(ctx.ownerQuote, ctx.ownerBase, EventQty(r.events))
  {
    PlaceOrderPayments(s, pdas, ctx, Buy, price, quantity);
    var r := PlaceOrder(s, pdas, ctx, Buy, price, quantity).value;
    if |r.events| == 0 {
      assert EventNotional(r.events) == 0;
    }
  }
}
