/** The matching loop of `place_order`: each pass looks at the LAST order
    of the opposite side, stops unless it crosses the taker's price, pops
    it, checks the maker accounts, trades `min` of both quantities at the
    maker's price, moves the tokens out of the vaults and pushes a partly
    filled maker back. */
module Matching {
  import opened Wrappers
  import opened Types
  import opened Token
  import opened Sides

  /** The maker pair as deserialized from the remaining accounts: the base
      side account (with its owner, the one field the program checks) and
      the quote side account. */
  datatype MakerAccounts = MakerAccounts(baseAccount: Pubkey, baseOwner: Pubkey, quoteAccount: Pubkey)

  /** `get_next_maker_accounts` on a FRESH iterator, as every pass calls it:
      always the first two remaining accounts, each of which must be a token
      account. */
  function GetNextMakerAccounts(remaining: seq<Pubkey>, l: Ledger): (r: Result<MakerAccounts, Error>)
    ensures |remaining| < 2 ==> r == Err(NotEnoughAccountKeys)
    ensures r.Ok? <==> |remaining| >= 2 && remaining[0] in l && remaining[1] in l
    ensures r.Ok? ==> r.value.baseAccount == remaining[0] && r.value.quoteAccount == remaining[1]
    ensures r.Ok? ==> r.value.baseOwner == l[remaining[0]].owner
  {
    if |remaining| < 2 then Err(NotEnoughAccountKeys)
    else if remaining[0] !in l || remaining[1] !in l then Err(AccountNotTokenAccount)
    else Ok(MakerAccounts(remaining[0], l[remaining[0]].owner, remaining[1]))
  }

  /** The incoming order and the taker's own token accounts. */
  datatype Taker = Taker(owner: Pubkey, side: Side, price: u64, baseAccount: Pubkey, quoteAccount: Pubkey)

  /** What stays fixed during one matching loop. */
  datatype MatchEnv = MatchEnv(
    taker: Taker,
    baseMint: Pubkey,
    quoteMint: Pubkey,
    baseVault: Pubkey,
    quoteVault: Pubkey,
    makerAccounts: seq<Pubkey>)

  /** The accounts the loop moves tokens between exist, and the vaults differ. */
  predicate EnvAccounts(env: MatchEnv, l: Ledger) {
    && env.baseVault in l
    && env.quoteVault in l
    && env.baseVault != env.quoteVault
    && env.taker.baseAccount in l
    && env.taker.quoteAccount in l
  }

  /** A resting order at `makerPrice` is matched: the negation of the
      loop's `break` test. */
  predicate Crosses(side: Side, takerPrice: u64, makerPrice: u64) {
    if side == Buy then !(takerPrice < makerPrice) else !(takerPrice > makerPrice)
  }

  /** The loop's exit test. */
  predicate Stopped(side: Side, price: u64, resting: seq<Order>, remaining: u64) {
    remaining == 0 || |resting| == 0 || !Crosses(side, price, Last(resting).price)
  }

  /** The account a fill credits with base units: the taker's for a buy,
      the maker's checked account for a sell. */
  function BaseReceiver(env: MatchEnv): Pubkey
    requires |env.makerAccounts| >= 2
  {
    if env.taker.side == Buy then env.taker.baseAccount else env.makerAccounts[0]
  }

  /** The account a fill credits with quote units: the maker's UNCHECKED
      quote account for a buy, the taker's for a sell. */
  function QuoteReceiver(env: MatchEnv): Pubkey
    requires |env.makerAccounts| >= 2
  {
    if env.taker.side == Buy then env.makerAccounts[1] else env.taker.quoteAccount
  }

  /** The two transfers of one fill, both signed by the book: `trade` base
      units out of the base vault, `total` quote units out of the quote vault. */
  function Settle(env: MatchEnv, l: Ledger, trade: u64, total: u64): (r: Result<Ledger, Error>)
    requires EnvAccounts(env, l)
    requires |env.makerAccounts| >= 2 && env.makerAccounts[0] in l && env.makerAccounts[1] in l
    ensures r.Ok? ==> SameShape(l, r.value)
    ensures r.Ok? ==> l[BaseReceiver(env)].mint == l[env.baseVault].mint
    ensures r.Ok? ==> l[QuoteReceiver(env)].mint == l[env.quoteVault].mint
    ensures r.Ok? ==> forall a :: a in l ==>
      Balance(r.value, a) + Leg(a, env.baseVault, trade) + Leg(a, env.quoteVault, total)
      == Balance(l, a) + Leg(a, BaseReceiver(env), trade) + Leg(a, QuoteReceiver(env), total)
  {
    var l1 :- Transfer(l, env.baseVault, BaseReceiver(env), trade);
    Transfer(l1, env.quoteVault, QuoteReceiver(env), total)
  }

  /** The result of one pass. */
  datatype Filled = Filled(resting: seq<Order>, remaining: u64, ledger: Ledger, event: TradeEvent)

  /** One pass of the loop against the last resting order. */
  function Fill(env: MatchEnv, resting: seq<Order>, remaining: u64, l: Ledger): (r: Result<Filled, Error>)
    requires EnvAccounts(env, l) && |resting| > 0
    ensures GetNextMakerAccounts(env.makerAccounts, l).Ok?
            && l[env.makerAccounts[0]].owner != Last(resting).owner
            ==> r == Err(Dex(MakerAccountMismatch))
    ensures r.Ok? ==> GetNextMakerAccounts(env.makerAccounts, l).Ok?
    ensures r.Ok? ==> l[env.makerAccounts[0]].owner == Last(resting).owner
    ensures r.Ok? ==> var e := r.value.event;
      && e.quantity == Min(remaining, Last(resting).quantity)
      && e.price == Last(resting).price
      && e.maker == Last(resting).owner
      && e.taker == env.taker.owner
      && e.baseMint == env.baseMint && e.quoteMint == env.quoteMint
    ensures r.Ok? ==> r.value.remaining + r.value.event.quantity == remaining
    ensures r.Ok? && r.value.event.quantity < Last(resting).quantity ==>
      r.value.resting == Pop(resting) + [Last(resting).(quantity := Last(resting).quantity - r.value.event.quantity)]
    ensures r.Ok? && r.value.event.quantity == Last(resting).quantity ==>
      r.value.resting == Pop(resting)
    ensures r.Ok? ==> SameShape(l, r.value.ledger)
    ensures r.Ok? ==> l[BaseReceiver(env)].mint == l[env.baseVault].mint
    ensures r.Ok? ==> l[QuoteReceiver(env)].mint == l[env.quoteVault].mint
  {
    var maker := Last(resting);
    var accounts :- GetNextMakerAccounts(env.makerAccounts, l);
    if accounts.baseOwner != maker.owner then Err(Dex(MakerAccountMismatch))
    else
      var trade := Min(remaining, maker.quantity);
      var total :- CheckedMul(maker.price, trade);
      assert total == maker.price * trade;
      var l' :- Settle(env, l, trade, total);
      var left := maker.quantity - trade;
      var resting' := if left > 0 then Pop(resting) + [maker.(quantity := left)] else Pop(resting);
      Ok(Filled(resting', remaining - trade, l',
                TradeEvent(env.taker.owner, maker.owner, env.baseMint, env.quoteMint, trade, maker.price)))
  }

  /** What one fill moves: the traded base units out of the base vault and
      their price out of the quote vault, into the fill's two receivers. */
  lemma FillBalances(env: MatchEnv, resting: seq<Order>, remaining: u64, l: Ledger)
    requires EnvAccounts(env, l) && |resting| > 0
    requires Fill(env, resting, remaining, l).Ok?
    ensures var f := Fill(env, resting, remaining, l).value;
      var q, n := f.event.quantity, f.event.price * f.event.quantity;
      forall a :: a in l ==>
        Balance(f.ledger, a) + Leg(a, env.baseVault, q) + Leg(a, env.quoteVault, n)
        == Balance(l, a) + Leg(a, BaseReceiver(env), q) + Leg(a, QuoteReceiver(env), n)
  {
    var maker := Last(resting);
    var trade := Min(remaining, maker.quantity);
    var total := CheckedMul(maker.price, trade).value;
    assert Settle(env, l, trade, total).Ok?;
  }

  /** Sum of traded base units over a run of events. */
  function EventQty(es: seq<TradeEvent>): nat {
    if |es| == 0 then 0 else es[0].quantity + EventQty(es[1..])
  }

  /** Sum of quote units paid over a run of events, at each fill's price. */
  function EventNotional(es: seq<TradeEvent>): nat {
    if |es| == 0 then 0 else es[0].price * es[0].quantity + EventNotional(es[1..])
  }

  /** The state the loop carries. */
  datatype Matched = Matched(resting: seq<Order>, remaining: u64, ledger: Ledger, events: seq<TradeEvent>)

  /** `while taker_order.quantity > 0 { .. }` over the opposite side. */
  function MatchLoop(env: MatchEnv, resting: seq<Order>, remaining: u64, l: Ledger): (r: Result<Matched, Error>)
    requires EnvAccounts(env, l)
    ensures r.Ok? ==> Stopped(env.taker.side, env.taker.price, r.value.resting, r.value.remaining)
    ensures r.Ok? ==> SameShape(l, r.value.ledger)
    ensures r.Ok? ==> r.value.remaining + EventQty(r.value.events) == remaining
    decreases remaining, |resting|
  {
    if Stopped(env.taker.side, env.taker.price, resting, remaining) then
      Ok(Matched(resting, remaining, l, []))
    else
      var f :- Fill(env, resting, remaining, l);
      var m :- MatchLoop(env, f.resting, f.remaining, f.ledger);
      assert ([f.event] + m.events)[1..] == m.events;
      Ok(m.(events := [f.event] + m.events))
  }
}
