/** What one run of the matching loop does, proved by induction over its
    passes: which resting orders it consumes, what every fill records, and
    how the vault balances move. */
module MatchingFacts {
  import opened Wrappers
  import opened Types
  import opened Token
  import opened Sides
  import opened Matching

  /** `a` is `b` with possibly less quantity left: same owner, price and id. */
  predicate Reduced(a: Order, b: Order) {
    && a.owner == b.owner
    && a.price == b.price
    && a.orderId == b.orderId
    && a.quantity <= b.quantity
  }

  /** `after` is `before` with orders taken off its end and the new last
      order possibly partly filled. */
  predicate ConsumedFromEnd(before: seq<Order>, after: seq<Order>) {
    && |after| <= |before|
    && (forall i :: 0 <= i < |after| - 1 ==> after[i] == before[i])
    && (forall i :: 0 <= i < |after| ==> Reduced(after[i], before[i]))
  }

  lemma ConsumedTrans(a: seq<Order>, b: seq<Order>, c: seq<Order>)
    requires ConsumedFromEnd(a, b) && ConsumedFromEnd(b, c)
    ensures ConsumedFromEnd(a, c)
  {
    forall i | 0 <= i < |c|
      ensures Reduced(c[i], a[i])
    {
      assert Reduced(c[i], b[i]);
      assert Reduced(b[i], a[i]);
    }
  }

  predicate AllPositive(s: seq<Order>) {
    forall i :: 0 <= i < |s| ==> s[i].quantity > 0
  }

  lemma EventsCons(e: TradeEvent, es: seq<TradeEvent>)
    ensures EventQty([e] + es) == e.quantity + EventQty(es)
    ensures EventNotional([e] + es) == e.price * e.quantity + EventNotional(es)
  {
    assert ([e] + es)[1..] == es;
  }

  lemma MulSplit(p: nat, a: nat, b: nat)
    ensures p * (a + b) == p * a + p * b
  {
  }

  /** Taking `trade` off the last order lowers both totals by the traded
      amount, valued at that order's price. */
  lemma ReduceLastTotals(s: seq<Order>, trade: u64, s': seq<Order>)
    requires |s| > 0 && trade <= Last(s).quantity
    requires trade < Last(s).quantity ==> s' == Pop(s) + [Last(s).(quantity := Last(s).quantity - trade)]
    requires trade == Last(s).quantity ==> s' == Pop(s)
    ensures ConsumedFromEnd(s, s')
    ensures Total(s', Qty) + trade == Total(s, Qty)
    ensures Total(s', Notional) + Last(s).price * trade == Total(s, Notional)
  {
    var maker := Last(s);
    var left := maker.quantity - trade;
    MulSplit(maker.price, left, trade);
    if trade < maker.quantity {
      assert Pop(s') == Pop(s) && Last(s') == maker.(quantity := left);
    }
  }

  /** One pass consumes the last order by exactly the traded amount. */
  lemma FillConsumes(env: MatchEnv, resting: seq<Order>, remaining: u64, l: Ledger)
    requires EnvAccounts(env, l) && |resting| > 0 && remaining > 0
    requires Fill(env, resting, remaining, l).Ok?
    ensures var f := Fill(env, resting, remaining, l).value;
      && ConsumedFromEnd(resting, f.resting)
      && Total(f.resting, Qty) + f.event.quantity == Total(resting, Qty)
      && Total(f.resting, Notional) + f.event.price * f.event.quantity == Total(resting, Notional)
      && (AllPositive(resting) ==> AllPositive(f.resting) && f.event.quantity > 0)
  {
    var f := Fill(env, resting, remaining, l).value;
    var maker, q := Last(resting), f.event.quantity;
    assert q == Min(remaining, maker.quantity);
    assert ConsumedFromEnd(resting, f.resting)
      && Total(f.resting, Qty) + q == Total(resting, Qty)
      && Total(f.resting, Notional) + maker.price * q == Total(resting, Notional) by {
      ReduceLastTotals(resting, q, f.resting);
    }
    if AllPositive(resting) {
      assert maker.quantity > 0;
      forall i | 0 <= i < |f.resting|
        ensures f.resting[i].quantity > 0
      {
        if i < |f.resting| - 1 || q == maker.quantity {
          assert f.resting[i] == resting[i];
        }
      }
    }
  }

  lemma {:induction false} MatchLoopConsumes(env: MatchEnv, resting: seq<Order>, remaining: u64, l: Ledger)
    requires EnvAccounts(env, l)
    requires MatchLoop(env, resting, remaining, l).Ok?
    ensures var m := MatchLoop(env, resting, remaining, l).value;
      && ConsumedFromEnd(resting, m.resting)
      && Total(m.resting, Qty) + EventQty(m.events) == Total(resting, Qty)
      && Total(m.resting, Notional) + EventNotional(m.events) == Total(resting, Notional)
      && (AllPositive(resting) ==> AllPositive(m.resting))
      && (|m.events| == 0 ==> m.resting == resting && m.remaining == remaining && m.ledger == l)
    decreases remaining, |resting|
  {
    if !Stopped(env.taker.side, env.taker.price, resting, remaining) {
      var f := Fill(env, resting, remaining, l).value;
      FillConsumes(env, resting, remaining, l);
      MatchLoopConsumes(env, f.resting, f.remaining, f.ledger);
      var m := MatchLoop(env, f.resting, f.remaining, f.ledger).value;
      ConsumedTrans(resting, f.resting, m.resting);
      EventsCons(f.event, m.events);
    }
  }

  /** Every fill crosses the taker's price, names the taker, and names as
      maker the owner of the FIRST supplied account: the pair is re-read
      from the start on every pass. The first fill is against the last
      resting order. */
  lemma {:induction false} MatchLoopEvents(env: MatchEnv, resting: seq<Order>, remaining: u64, l: Ledger)
    requires EnvAccounts(env, l)
    requires MatchLoop(env, resting, remaining, l).Ok?
    ensures var m := MatchLoop(env, resting, remaining, l).value;
      && (forall i :: 0 <= i < |m.events| ==>
            && Crosses(env.taker.side, env.taker.price, m.events[i].price)
            && m.events[i].taker == env.taker.owner
            && m.events[i].baseMint == env.baseMint
            && m.events[i].quoteMint == env.quoteMint
            && |env.makerAccounts| >= 2 && env.makerAccounts[0] in l
            && m.events[i].maker == l[env.makerAccounts[0]].owner)
      && (AllPositive(resting) ==> forall i :: 0 <= i < |m.events| ==> m.events[i].quantity > 0)
      && (|m.events| > 0 ==>
            && |resting| > 0
            && m.events[0].maker == Last(resting).owner
            && m.events[0].price == Last(resting).price
            && m.events[0].quantity == Min(remaining, Last(resting).quantity)
            && l[BaseReceiver(env)].mint == l[env.baseVault].mint
            && l[QuoteReceiver(env)].mint == l[env.quoteVault].mint)
    decreases remaining, |resting|
  {
    if !Stopped(env.taker.side, env.taker.price, resting, remaining) {
      var f := Fill(env, resting, remaining, l).value;
      FillConsumes(env, resting, remaining, l);
      MatchLoopEvents(env, f.resting, f.remaining, f.ledger);
      var m := MatchLoop(env, f.resting, f.remaining, f.ledger).value;
      var es := [f.event] + m.events;
      assert MatchLoop(env, resting, remaining, l).value.events == es;
      forall i | 0 < i < |es|
        ensures es[i] == m.events[i - 1]
      {
      }
    }
  }

  /** Vault balances fall by at most what the fills paid out of them, and
      by exactly that when no fill credits a vault. */
  lemma {:induction false} MatchLoopVaults(env: MatchEnv, resting: seq<Order>, remaining: u64, l: Ledger)
    requires EnvAccounts(env, l)
    requires MatchLoop(env, resting, remaining, l).Ok?
    ensures var m := MatchLoop(env, resting, remaining, l).value;
      && Balance(m.ledger, env.baseVault) + EventQty(m.events) >= Balance(l, env.baseVault)
      && Balance(m.ledger, env.quoteVault) + EventNotional(m.events) >= Balance(l, env.quoteVault)
      && (|env.makerAccounts| >= 2 && BaseReceiver(env) != env.baseVault && QuoteReceiver(env) != env.baseVault
          ==> Balance(m.ledger, env.baseVault) + EventQty(m.events) == Balance(l, env.baseVault))
      && (|env.makerAccounts| >= 2 && BaseReceiver(env) != env.quoteVault && QuoteReceiver(env) != env.quoteVault
          ==> Balance(m.ledger, env.quoteVault) + EventNotional(m.events) == Balance(l, env.quoteVault))
    decreases remaining, |resting|
  {
    if !Stopped(env.taker.side, env.taker.price, resting, remaining) {
      var f := Fill(env, resting, remaining, l).value;
      FillBalances(env, resting, remaining, l);
      MatchLoopVaults(env, f.resting, f.remaining, f.ledger);
      var m := MatchLoop(env, f.resting, f.remaining, f.ledger).value;
      EventsCons(f.event, m.events);
      var q, n := f.event.quantity, f.event.price * f.event.quantity;
      assert Balance(f.ledger, env.baseVault) + q
        == Balance(l, env.baseVault) + Leg(env.baseVault, BaseReceiver(env), q) + Leg(env.baseVault, QuoteReceiver(env), n);
      assert Balance(f.ledger, env.quoteVault) + n
        == Balance(l, env.quoteVault) + Leg(env.quoteVault, BaseReceiver(env), q) + Leg(env.quoteVault, QuoteReceiver(env), n);
    }
  }

  /** Every account other than the vaults gains exactly what the fills pay
      it: the traded base units when it is the base receiver, their price
      when it is the quote receiver. Both receivers stay the same on every
      pass. */
  lemma {:induction false} MatchLoopPayments(env: MatchEnv, resting: seq<Order>, remaining: u64, l: Ledger)
    requires EnvAccounts(env, l)
    requires MatchLoop(env, resting, remaining, l).Ok?
    ensures var m := MatchLoop(env, resting, remaining, l).value;
      |m.events| == 0 ==> m.ledger == l
    ensures var m := MatchLoop(env, resting, remaining, l).value;
      |m.events| > 0 ==>
        && |env.makerAccounts| >= 2
        && forall a :: a in l && a != env.baseVault && a != env.quoteVault ==>
             Balance(m.ledger, a)
             == Balance(l, a) + Leg(a, BaseReceiver(env), EventQty(m.events))
                + Leg(a, QuoteReceiver(env), EventNotional(m.events))
    decreases remaining, |resting|
  {
    if !Stopped(env.taker.side, env.taker.price, resting, remaining) {
      var f := Fill(env, resting, remaining, l).value;
      FillBalances(env, resting, remaining, l);
      MatchLoopPayments(env, f.resting, f.remaining, f.ledger);
      var m := MatchLoop(env, f.resting, f.remaining, f.ledger).value;
      var outer := MatchLoop(env, resting, remaining, l).value;
      assert outer == m.(events := [f.event] + m.events);
      EventsCons(f.event, m.events);
      var q, n := f.event.quantity, f.event.price * f.event.quantity;
      var eq, en := EventQty(m.events), EventNotional(m.events);
      assert EventQty(outer.events) == q + eq && EventNotional(outer.events) == n + en;
      var br, qr := BaseReceiver(env), QuoteReceiver(env);
      forall a | a in l && a != env.baseVault && a != env.quoteVault
        ensures Balance(outer.ledger, a) == Balance(l, a) + Leg(a, br, q + eq) + Leg(a, qr, n + en)
      {
        assert Balance(f.ledger, a) == Balance(l, a) + Leg(a, br, q) + Leg(a, qr, n);
        if |m.events| == 0 {
          assert eq == 0 && en == 0;
        } else {
          assert Balance(m.ledger, a) == Balance(f.ledger, a) + Leg(a, br, eq) + Leg(a, qr, en);
        }
      }
    }
  }
}
