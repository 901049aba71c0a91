/** `place_order` keeps the invariant, and moves exactly the escrow the
    source intends: the base vault tracks the asks to the unit, the quote
    vault never holds less than the bids' escrow. */
module PlaceFacts {
  import opened Wrappers
  import opened Types
  import opened Token
  import opened Sides
  import opened Matching
  import opened MatchingFacts
  import opened Program
  import opened Invariants

  lemma PositiveFromValid(s: seq<Order>, counter: u64, authority: Pubkey)
    requires RestingValid(s, counter, authority)
    ensures AllPositive(s)
  {
    forall i | 0 <= i < |s|
      ensures s[i].quantity > 0
    {
      assert s[i] in s;
    }
  }

  /** What the loop leaves of a valid side is valid, and shares no id with
      a side the original shared none with. */
  lemma ConsumedKeepsValid(before: seq<Order>, after: seq<Order>, counter: u64, authority: Pubkey, other: seq<Order>)
    requires ConsumedFromEnd(before, after) && AllPositive(after)
    requires RestingValid(before, counter, authority) && UniqueIds(before)
    ensures RestingValid(after, counter, authority) && UniqueIds(after)
    ensures DisjointIds(before, other) ==> DisjointIds(after, other)
    ensures DisjointIds(other, before) ==> DisjointIds(other, after)
  {
    forall o | o in after
      ensures exists p :: p in before && Reduced(o, p)
    {
      var i :| 0 <= i < |after| && after[i] == o;
      assert before[i] in before && Reduced(after[i], before[i]);
    }
    forall i, j | 0 <= i < j < |after|
      ensures after[i].orderId != after[j].orderId
    {
      assert Reduced(after[i], before[i]) && Reduced(after[j], before[j]);
    }
  }

  /** The ids on a valid side are all at most the counter, so the next id is fresh. */
  lemma NextIdFresh(s: seq<Order>, counter: u64, authority: Pubkey)
    requires RestingValid(s, counter, authority) && counter < U64_MAX
    ensures IdFresh(s, counter + 1)
  {
  }

  /** Replacing the opposite side by what the loop left of it keeps the
      contents valid. */
  lemma AfterMatchValid(book: Orderbook, side: Side, rest: seq<Order>, authority: Pubkey)
    requires BookContentsValid(book, authority)
    requires ConsumedFromEnd(Opposite(book, side), rest) && AllPositive(rest)
    ensures BookContentsValid(WithOpposite(book, side, rest), authority)
  {
    var c := book.orderIdCounter;
    ConsumedKeepsValid(Opposite(book, side), rest, c, authority, Own(book, side));
  }

  /** Resting the remainder under the next id keeps the contents valid. */
  lemma AfterRemainderValid(book: Orderbook, side: Side, owner: Pubkey, price: u64, remaining: u64, authority: Pubkey)
    requires BookContentsValid(book, authority) && owner != authority
    requires AddRemainder(book, side, owner, price, remaining).Ok?
    ensures BookContentsValid(AddRemainder(book, side, owner, price, remaining).value, authority)
  {
    var book1 := AddRemainder(book, side, owner, price, remaining).value;
    if remaining > 0 {
      var c := book.orderIdCounter;
      var o := Order(owner, price, remaining, c + 1);
      assert book1 == WithOwn(book, side, Own(book, side) + [o]).(orderIdCounter := c + 1);
      NextIdFresh(Own(book, side), c, authority);
      NextIdFresh(Opposite(book, side), c, authority);
      AppendFresh(Own(book, side), o);
    }
  }

  /** `place_order` keeps the book valid: sorted sides, positive quantities,
      ids within the counter and never shared. */
  lemma PlaceOrderBookValid(s: State, pdas: Pdas, ctx: PlaceContext, side: Side, price: u64, quantity: u64)
    requires PlaceContextValid(s, pdas, ctx) && Wf(s, pdas)
    requires PlaceOrder(s, pdas, ctx, side, price, quantity).Ok?
    ensures BookValid(PlaceOrder(s, pdas, ctx, side, price, quantity).value.state.book, pdas.authority)
  {
    var l1 := LockFunds(s, pdas, ctx, side, price, quantity).value;
    var env := PlaceEnv(s, pdas, ctx, side, price);
    var opp := Opposite(s.book, side);
    var m := MatchLoop(env, opp, quantity, l1).value;
    var book0 := WithOpposite(s.book, side, m.resting);
    var book1 := AddRemainder(book0, side, ctx.owner, price, m.remaining).value;
    assert PlaceOrder(s, pdas, ctx, side, price, quantity).value.state.book == SortBook(book1);
    MatchLoopConsumes(env, opp, quantity, l1);
    PositiveFromValid(opp, s.book.orderIdCounter, pdas.authority);
    AfterMatchValid(s.book, side, m.resting, pdas.authority);
    AfterRemainderValid(book0, side, ctx.owner, price, m.remaining, pdas.authority);
    SortBookValid(book1, pdas.authority);
  }

  lemma MulSum(p: nat, a: nat, b: nat, c: nat)
    requires a + b == c
    ensures p * a + p * b == p * c
  {
    MulSplit(p, a, b);
  }

  lemma MulLe(a: nat, b: nat, c: nat)
    requires a <= b
    ensures a * c <= b * c
  {
  }

  /** Fills at prices no higher than `p` pay at most `p` per unit. */
  lemma {:induction false} EventNotionalBound(es: seq<TradeEvent>, p: u64)
    requires forall i :: 0 <= i < |es| ==> es[i].price <= p
    ensures EventNotional(es) <= p * EventQty(es)
    decreases |es|
  {
    if |es| > 0 {
      EventNotionalBound(es[1..], p);
      MulLe(es[0].price, p, es[0].quantity);
      MulSplit(p, es[0].quantity, EventQty(es[1..]));
    }
  }

  lemma TotalSingle(o: Order, f: Order -> nat)
    ensures Total([o], f) == f(o)
  {
    assert Pop([o]) == [];
  }

  /** What the up-front escrow does to the two vaults. */
  lemma LockVaults(s: State, pdas: Pdas, ctx: PlaceContext, side: Side, price: u64, quantity: u64)
    requires PlaceContextValid(s, pdas, ctx)
    requires LockFunds(s, pdas, ctx, side, price, quantity).Ok?
    ensures Balance(LockFunds(s, pdas, ctx, side, price, quantity).value, pdas.baseVault)
            == Balance(s.ledger, pdas.baseVault) + (if side == Sell then quantity else 0)
    ensures Balance(LockFunds(s, pdas, ctx, side, price, quantity).value, pdas.quoteVault)
            == Balance(s.ledger, pdas.quoteVault) + (if side == Buy then price * quantity else 0)
  {
    var l1 := LockFunds(s, pdas, ctx, side, price, quantity).value;
    var bv, qv := pdas.baseVault, pdas.quoteVault;
    if side == Buy {
      assert Balance(l1, qv) + Leg(qv, ctx.ownerQuote, price * quantity) == Balance(s.ledger, qv) + Leg(qv, qv, price * quantity);
      assert Balance(l1, bv) + Leg(bv, ctx.ownerQuote, price * quantity) == Balance(s.ledger, bv) + Leg(bv, qv, price * quantity);
    } else {
      assert Balance(l1, bv) + Leg(bv, ctx.ownerBase, quantity) == Balance(s.ledger, bv) + Leg(bv, bv, quantity);
      assert Balance(l1, qv) + Leg(qv, ctx.ownerBase, quantity) == Balance(s.ledger, qv) + Leg(qv, bv, quantity);
    }
  }

  /** What resting the remainder adds to each side's escrow total. */
  lemma RemainderTotals(book: Orderbook, side: Side, owner: Pubkey, price: u64, remaining: u64)
    requires AddRemainder(book, side, owner, price, remaining).Ok?
    ensures Total(AddRemainder(book, side, owner, price, remaining).value.bids, Notional)
            == Total(book.bids, Notional) + (if side == Buy then price * remaining else 0)
    ensures Total(AddRemainder(book, side, owner, price, remaining).value.asks, Qty)
            == Total(book.asks, Qty) + (if side == Sell then remaining else 0)
  {
    var b := AddRemainder(book, side, owner, price, remaining).value;
    if remaining > 0 {
      var o := Order(owner, price, remaining, b.orderIdCounter);
      if side == Buy {
        TotalAppend(book.bids, [o], Notional);
        TotalSingle(o, Notional);
      } else {
        TotalAppend(book.asks, [o], Qty);
        TotalSingle(o, Qty);
      }
    }
  }

  /** The intermediate results of a successful `place_order`: the escrowed
      ledger `l1` and the matching loop's result `m`. */
  lemma PlaceOrderUnfold(s: State, pdas: Pdas, ctx: PlaceContext, side: Side, price: u64, quantity: u64)
    returns (l1: Ledger, m: Matched)
    requires PlaceContextValid(s, pdas, ctx)
    requires PlaceOrder(s, pdas, ctx, side, price, quantity).Ok?
    ensures LockFunds(s, pdas, ctx, side, price, quantity) == Ok(l1)
    ensures MatchLoop(PlaceEnv(s, pdas, ctx, side, price), Opposite(s.book, side), quantity, l1) == Ok(m)
    ensures AddRemainder(WithOpposite(s.book, side, m.resting), side, ctx.owner, price, m.remaining).Ok?
    ensures PlaceOrder(s, pdas, ctx, side, price, quantity).value
            == Placed(State(SortBook(AddRemainder(WithOpposite(s.book, side, m.resting), side, ctx.owner, price, m.remaining).value), m.ledger), m.events)
  {
    l1 := LockFunds(s, pdas, ctx, side, price, quantity).value;
    m := MatchLoop(PlaceEnv(s, pdas, ctx, side, price), Opposite(s.book, side), quantity, l1).value;
  }

  /** The surplus identity of one call, in terms of the matching loop's
      result `m` on the escrowed ledger `l1`: each vault's surplus moves by
      what the fills credited back to that vault (0 unless a receiving
      account is the vault), and a buy also leaves behind the difference
      between its own price and each maker's price. */
  lemma PlaceOrderAccounting(s: State, pdas: Pdas, ctx: PlaceContext, side: Side, price: u64, quantity: u64,
                             l1: Ledger, m: Matched)
    requires PlaceContextValid(s, pdas, ctx)
    requires PlaceOrder(s, pdas, ctx, side, price, quantity).Ok?
    requires l1 == LockFunds(s, pdas, ctx, side, price, quantity).value
    requires m == MatchLoop(PlaceEnv(s, pdas, ctx, side, price), Opposite(s.book, side), quantity, l1).value
    ensures PlaceOrder(s, pdas, ctx, side, price, quantity).value.events == m.events
    ensures BaseSurplus(PlaceOrder(s, pdas, ctx, side, price, quantity).value.state, pdas)
            == BaseSurplus(s, pdas) + (Balance(m.ledger, pdas.baseVault) + EventQty(m.events) - Balance(l1, pdas.baseVault))
    ensures QuoteSurplus(PlaceOrder(s, pdas, ctx, side, price, quantity).value.state, pdas)
            == QuoteSurplus(s, pdas) + (Balance(m.ledger, pdas.quoteVault) + EventNotional(m.events) - Balance(l1, pdas.quoteVault))
               + (if side == Buy then price * EventQty(m.events) - EventNotional(m.events) else 0)
  {
    var l1', m' := PlaceOrderUnfold(s, pdas, ctx, side, price, quantity);
    assert l1' == l1 && m' == m;
    var env := PlaceEnv(s, pdas, ctx, side, price);
    var opp := Opposite(s.book, side);
    var book0 := WithOpposite(s.book, side, m.resting);
    var book1 := AddRemainder(book0, side, ctx.owner, price, m.remaining).value;
    var s' := State(SortBook(book1), m.ledger);
    var bv, qv := pdas.baseVault, pdas.quoteVault;
    var eq, en := EventQty(m.events), EventNotional(m.events);
    assert Total(m.resting, Qty) + eq == Total(opp, Qty) && Total(m.resting, Notional) + en == Total(opp, Notional) by {
      MatchLoopConsumes(env, opp, quantity, l1);
    }
    assert m.remaining + eq == quantity;
    LockVaults(s, pdas, ctx, side, price, quantity);
    RemainderTotals(book0, side, ctx.owner, price, m.remaining);
    assert Total(s'.book.bids, Notional) == Total(book1.bids, Notional) by {
      SortTotal(Buy, book1.bids, Notional);
    }
    assert Total(s'.book.asks, Qty) == Total(book1.asks, Qty) by {
      SortTotal(Sell, book1.asks, Qty);
    }
    if side == Buy {
      MulSum(price, m.remaining, eq, quantity);
      assert book0.bids == s.book.bids && opp == s.book.asks && book0.asks == m.resting;
    } else {
      assert book0.asks == s.book.asks && opp == s.book.bids && book0.bids == m.resting;
    }
  }

  /** `place_order` keeps the invariant, and neither vault's surplus shrinks. */
  lemma PlaceOrderWf(s: State, pdas: Pdas, ctx: PlaceContext, side: Side, price: u64, quantity: u64)
    requires PlaceContextValid(s, pdas, ctx) && Wf(s, pdas)
    requires PlaceOrder(s, pdas, ctx, side, price, quantity).Ok?
    ensures Wf(PlaceOrder(s, pdas, ctx, side, price, quantity).value.state, pdas)
    ensures BaseSurplus(PlaceOrder(s, pdas, ctx, side, price, quantity).value.state, pdas) >= BaseSurplus(s, pdas)
    ensures QuoteSurplus(PlaceOrder(s, pdas, ctx, side, price, quantity).value.state, pdas) >= QuoteSurplus(s, pdas)
  {
    var l1, m := PlaceOrderUnfold(s, pdas, ctx, side, price, quantity);
    SurplusGrows(s, pdas, ctx, side, price, quantity, l1, m);
    PlaceOrderBookValid(s, pdas, ctx, side, price, quantity);
    var s' := PlaceOrder(s, pdas, ctx, side, price, quantity).value.state;
    VaultsValidShape(s.book, s'.book, s.ledger, s'.ledger, pdas);
  }

  /** Neither vault's surplus shrinks: what a fill credits back to a vault
      is never negative, and a buy's price improvement is never negative,
      since every fill crosses the taker's price. */
  lemma SurplusGrows(s: State, pdas: Pdas, ctx: PlaceContext, side: Side, price: u64, quantity: u64,
                     l1: Ledger, m: Matched)
    requires PlaceContextValid(s, pdas, ctx) && Wf(s, pdas)
    requires PlaceOrder(s, pdas, ctx, side, price, quantity).Ok?
    requires l1 == LockFunds(s, pdas, ctx, side, price, quantity).value
    requires m == MatchLoop(PlaceEnv(s, pdas, ctx, side, price), Opposite(s.book, side), quantity, l1).value
    ensures var s' := PlaceOrder(s, pdas, ctx, side, price, quantity).value.state;
      BaseSurplus(s', pdas) >= BaseSurplus(s, pdas) && QuoteSurplus(s', pdas) >= QuoteSurplus(s, pdas)
  {
    var env := PlaceEnv(s, pdas, ctx, side, price);
    PlaceOrderAccounting(s, pdas, ctx, side, price, quantity, l1, m);
    MatchLoopVaults(env, Opposite(s.book, side), quantity, l1);
    MatchLoopEvents(env, Opposite(s.book, side), quantity, l1);
    if side == Buy {
      EventNotionalBound(m.events, price);
    }
  }

  /** Who a fill pays, when at least one fill happened: the base receiver is
      never a vault (the taker and every maker are not the book's
      authority), a sell's quote receiver is the taker's own account, and a
      buy's quote receiver (the unchecked second maker account) carries the
      quote mint, so it is the base vault only when both mints coincide. */
  lemma FillReceivers(s: State, pdas: Pdas, ctx: PlaceContext, side: Side, price: u64, quantity: u64, l1: Ledger)
    requires PlaceContextValid(s, pdas, ctx) && Wf(s, pdas)
    requires LockFunds(s, pdas, ctx, side, price, quantity).Ok?
    requires l1 == LockFunds(s, pdas, ctx, side, price, quantity).value
    requires MatchLoop(PlaceEnv(s, pdas, ctx, side, price), Opposite(s.book, side), quantity, l1).Ok?
    requires |MatchLoop(PlaceEnv(s, pdas, ctx, side, price), Opposite(s.book, side), quantity, l1).value.events| > 0
    ensures |ctx.remainingAccounts| >= 2
    ensures BaseReceiver(PlaceEnv(s, pdas, ctx, side, price)) !in {pdas.baseVault, pdas.quoteVault}
    ensures side == Sell ==> QuoteReceiver(PlaceEnv(s, pdas, ctx, side, price)) !in {pdas.baseVault, pdas.quoteVault}
    ensures side == Buy && s.book.baseMint != s.book.quoteMint ==>
      QuoteReceiver(PlaceEnv(s, pdas, ctx, side, price)) != pdas.baseVault
  {
    var env := PlaceEnv(s, pdas, ctx, side, price);
    var opp := Opposite(s.book, side);
    MatchLoopEvents(env, opp, quantity, l1);
    var m := MatchLoop(env, opp, quantity, l1).value;
    assert m.events[0].maker == l1[ctx.remainingAccounts[0]].owner;
    var maker := Last(opp);
    assert maker in opp;
    assert maker.owner != pdas.authority;
  }

  /** The base vault tracks the asks to the unit across `place_order`,
      unless a buy runs on a book whose two mints are the same (then the
      unchecked maker quote account may be the base vault itself). */
  lemma PlaceOrderBaseExact(s: State, pdas: Pdas, ctx: PlaceContext, side: Side, price: u64, quantity: u64)
    requires PlaceContextValid(s, pdas, ctx) && Wf(s, pdas)
    requires PlaceOrder(s, pdas, ctx, side, price, quantity).Ok?
    requires side == Sell || s.book.baseMint != s.book.quoteMint
    ensures BaseSurplus(PlaceOrder(s, pdas, ctx, side, price, quantity).value.state, pdas) == BaseSurplus(s, pdas)
  {
    var l1 := LockFunds(s, pdas, ctx, side, price, quantity).value;
    var env := PlaceEnv(s, pdas, ctx, side, price);
    var m := MatchLoop(env, Opposite(s.book, side), quantity, l1).value;
    PlaceOrderAccounting(s, pdas, ctx, side, price, quantity, l1, m);
    MatchLoopVaults(env, Opposite(s.book, side), quantity, l1);
    MatchLoopConsumes(env, Opposite(s.book, side), quantity, l1);
    if |m.events| > 0 {
      FillReceivers(s, pdas, ctx, side, price, quantity, l1);
    }
  }

  /** Across the matching loop the quote vault loses exactly what the fills
      paid, unless a buy's maker quote account is the vault itself. */
  lemma QuoteVaultPaysOut(s: State, pdas: Pdas, ctx: PlaceContext, side: Side, price: u64, quantity: u64, l1: Ledger)
    requires PlaceContextValid(s, pdas, ctx) && Wf(s, pdas)
    requires LockFunds(s, pdas, ctx, side, price, quantity) == Ok(l1)
    requires MatchLoop(PlaceEnv(s, pdas, ctx, side, price), Opposite(s.book, side), quantity, l1).Ok?
    ensures side == Sell || |ctx.remainingAccounts| < 2 || ctx.remainingAccounts[1] != pdas.quoteVault ==>
      var m := MatchLoop(PlaceEnv(s, pdas, ctx, side, price), Opposite(s.book, side), quantity, l1).value;
      Balance(m.ledger, pdas.quoteVault) + EventNotional(m.events) == Balance(l1, pdas.quoteVault)
  {
    var env := PlaceEnv(s, pdas, ctx, side, price);
    var m := MatchLoop(env, Opposite(s.book, side), quantity, l1).value;
    if |m.events| > 0 {
      FillReceivers(s, pdas, ctx, side, price, quantity, l1);
      MatchLoopVaults(env, Opposite(s.book, side), quantity, l1);
    } else {
      MatchLoopConsumes(env, Opposite(s.book, side), quantity, l1);
    }
  }

  /** The quote side of the same accounting. A sell leaves the quote
      surplus unchanged. A buy whose maker quote account is not the quote
      vault grows it by exactly the price improvement: the taker escrowed
      its own price for every unit, the makers were paid theirs, and the
      difference is never returned. */
  lemma PlaceOrderQuoteExact(s: State, pdas: Pdas, ctx: PlaceContext, side: Side, price: u64, quantity: u64)
    requires PlaceContextValid(s, pdas, ctx) && Wf(s, pdas)
    requires PlaceOrder(s, pdas, ctx, side, price, quantity).Ok?
    ensures side == Sell ==>
      QuoteSurplus(PlaceOrder(s, pdas, ctx, side, price, quantity).value.state, pdas) == QuoteSurplus(s, pdas)
    ensures side == Buy && (|ctx.remainingAccounts| >= 2 ==> ctx.remainingAccounts[1] != pdas.quoteVault) ==>
      var r := PlaceOrder(s, pdas, ctx, side, price, quantity).value;
      QuoteSurplus(r.state, pdas) == QuoteSurplus(s, pdas) + price * EventQty(r.events) - EventNotional(r.events)
  {
    var l1, m := PlaceOrderUnfold(s, pdas, ctx, side, price, quantity);
    PlaceOrderAccounting(s, pdas, ctx, side, price, quantity, l1, m);
    QuoteVaultPaysOut(s, pdas, ctx, side, price, quantity, l1);
  }
}
