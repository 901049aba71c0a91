/** The three instructions of the order book program. Each one either
    returns a whole new state or an error; an error discards every escrow,
    pop, transfer and event of the attempt, as a failed transaction does. */
module Program {
  import opened Wrappers
  import opened Types
  import opened Token
  import opened Sides
  import opened Matching

  /** Program-derived addresses: the book account (which signs for the
      vaults and owns them) and its two vaults. How they are derived from
      the seeds is not modelled; only that the vaults differ. */
  datatype Pdas = Pdas(authority: Pubkey, baseVault: Pubkey, quoteVault: Pubkey)

  /** The book and every token account. */
  datatype State = State(book: Orderbook, ledger: Ledger)

  /** The vaults exist, hold the pair's mints and are owned by the book. */
  predicate VaultsValid(book: Orderbook, l: Ledger, pdas: Pdas) {
    && pdas.baseVault in l
    && pdas.quoteVault in l
    && pdas.baseVault != pdas.quoteVault
    && l[pdas.baseVault].mint == book.baseMint
    && l[pdas.baseVault].owner == pdas.authority
    && l[pdas.quoteVault].mint == book.quoteMint
    && l[pdas.quoteVault].owner == pdas.authority
  }

  /** `initialize`: an empty book with the counter at 0, and two new empty
      vaults. `init` fails when the vault accounts already exist (they are
      created together with the book, so this is the book existing). */
  function Initialize(l: Ledger, pdas: Pdas, baseMint: Pubkey, quoteMint: Pubkey): (r: Result<State, Error>)
    requires pdas.baseVault != pdas.quoteVault
    ensures r.Err? <==> pdas.baseVault in l || pdas.quoteVault in l
    ensures r.Err? ==> r.error == AccountAlreadyInUse
    ensures r.Ok? ==> r.value.book == Orderbook(baseMint, quoteMint, [], [], 0)
    ensures r.Ok? ==> VaultsValid(r.value.book, r.value.ledger, pdas)
    ensures r.Ok? ==> Balance(r.value.ledger, pdas.baseVault) == 0 && Balance(r.value.ledger, pdas.quoteVault) == 0
    ensures r.Ok? ==> forall a :: a in l ==> a in r.value.ledger && r.value.ledger[a] == l[a]
  {
    if pdas.baseVault in l || pdas.quoteVault in l then Err(AccountAlreadyInUse)
    else
      var book := Orderbook(baseMint, quoteMint, [], [], 0);
      var l' := l[pdas.baseVault := TokenAccount(baseMint, pdas.authority, 0)]
                 [pdas.quoteVault := TokenAccount(quoteMint, pdas.authority, 0)];
      Ok(State(book, l'))
  }

  /** The accounts of a `place_order` call: the signer, its two token
      accounts, and the remaining accounts that name the makers. */
  datatype PlaceContext = PlaceContext(
    owner: Pubkey,
    ownerBase: Pubkey,
    ownerQuote: Pubkey,
    remainingAccounts: seq<Pubkey>)

  /** What Anchor has checked before `place_order` runs: the vaults are the
      book's, the owner's token accounts hold the pair's mints and belong to
      the signer, and the signer is not the book (a program address cannot
      sign a transaction). */
  predicate PlaceContextValid(s: State, pdas: Pdas, ctx: PlaceContext) {
    && VaultsValid(s.book, s.ledger, pdas)
    && ctx.ownerBase in s.ledger
    && s.ledger[ctx.ownerBase].mint == s.book.baseMint
    && s.ledger[ctx.ownerBase].owner == ctx.owner
    && ctx.ownerQuote in s.ledger
    && s.ledger[ctx.ownerQuote].mint == s.book.quoteMint
    && s.ledger[ctx.ownerQuote].owner == ctx.owner
    && ctx.owner != pdas.authority
  }

  /** Step 1 of `place_order`: escrow the whole order up front. A buy locks
      `price * quantity` quote units (a checked product), a sell locks
      `quantity` base units. */
  function LockFunds(s: State, pdas: Pdas, ctx: PlaceContext, side: Side, price: u64, quantity: u64): (r: Result<Ledger, Error>)
    requires PlaceContextValid(s, pdas, ctx)
    ensures side == Buy && price * quantity > U64_MAX ==> r == Err(Dex(CalculationError))
    ensures r.Ok? <==>
      if side == Buy then
        && price * quantity <= U64_MAX
        && price * quantity <= Balance(s.ledger, ctx.ownerQuote)
        && Balance(s.ledger, pdas.quoteVault) + price * quantity <= U64_MAX
      else
        && quantity <= Balance(s.ledger, ctx.ownerBase)
        && Balance(s.ledger, pdas.baseVault) + quantity <= U64_MAX
    ensures r.Ok? ==> SameShape(s.ledger, r.value)
    ensures r.Ok? && side == Buy ==> forall a :: a in s.ledger ==>
      Balance(r.value, a) + Leg(a, ctx.ownerQuote, price * quantity)
      == Balance(s.ledger, a) + Leg(a, pdas.quoteVault, price * quantity)
    ensures r.Ok? && side == Sell ==> forall a :: a in s.ledger ==>
      Balance(r.value, a) + Leg(a, ctx.ownerBase, quantity)
      == Balance(s.ledger, a) + Leg(a, pdas.baseVault, quantity)
  {
    match side
    case Buy =>
      var total :- CheckedMul(price, quantity);
      Transfer(s.ledger, ctx.ownerQuote, pdas.quoteVault, total)
    case Sell =>
      Transfer(s.ledger, ctx.ownerBase, pdas.baseVault, quantity)
  }

  /** The side a taker on `side` matches against. */
  function Opposite(book: Orderbook, side: Side): seq<Order> {
    if side == Buy then book.asks else book.bids
  }

  /** The taker's own side. */
  function Own(book: Orderbook, side: Side): seq<Order> {
    if side == Buy then book.bids else book.asks
  }

  function WithOpposite(book: Orderbook, side: Side, s: seq<Order>): Orderbook {
    if side == Buy then book.(asks := s) else book.(bids := s)
  }

  function WithOwn(book: Orderbook, side: Side, s: seq<Order>): Orderbook {
    if side == Buy then book.(bids := s) else book.(asks := s)
  }

  /** Step 3: an unfilled remainder rests on the taker's side under the id
      `++order_id_counter`; the counter moves only then. The increment is
      overflow-checked, so it aborts at `u64::MAX`. */
  function AddRemainder(book: Orderbook, side: Side, owner: Pubkey, price: u64, remaining: u64): (r: Result<Orderbook, Error>)
    ensures r.Err? <==> remaining > 0 && book.orderIdCounter == U64_MAX
    ensures r.Err? ==> r.error == ArithmeticOverflow
    ensures r.Ok? && remaining == 0 ==> r.value == book
    ensures r.Ok? && remaining > 0 ==>
      && r.value.orderIdCounter == book.orderIdCounter + 1
      && r.value == WithOwn(book, side, Own(book, side) + [Order(owner, price, remaining, r.value.orderIdCounter)])
                      .(orderIdCounter := r.value.orderIdCounter)
  {
    if remaining == 0 then Ok(book)
    else if book.orderIdCounter == U64_MAX then Err(ArithmeticOverflow)
    else
      var id := book.orderIdCounter + 1;
      var order := Order(owner, price, remaining, id);
      Ok(WithOwn(book, side, Own(book, side) + [order]).(orderIdCounter := id))
  }

  /** Step 4: bids by price descending, asks by price ascending. */
  function SortBook(book: Orderbook): (r: Orderbook)
    ensures Sorted(Buy, r.bids) && Sorted(Sell, r.asks)
    ensures multiset(r.bids) == multiset(book.bids) && multiset(r.asks) == multiset(book.asks)
    ensures r.baseMint == book.baseMint && r.quoteMint == book.quoteMint
    ensures r.orderIdCounter == book.orderIdCounter
  {
    book.(bids := SortSide(Buy, book.bids), asks := SortSide(Sell, book.asks))
  }

  /** The fixed inputs of the matching loop of one call. */
  function PlaceEnv(s: State, pdas: Pdas, ctx: PlaceContext, side: Side, price: u64): MatchEnv {
    MatchEnv(Taker(ctx.owner, side, price, ctx.ownerBase, ctx.ownerQuote),
             s.book.baseMint, s.book.quoteMint, pdas.baseVault, pdas.quoteVault,
             ctx.remainingAccounts)
  }

  /** A successful `place_order`: the new state and the emitted events. */
  datatype Placed = Placed(state: State, events: seq<TradeEvent>)

  /** `place_order`: escrow, match, rest the remainder, re-sort. */
  function PlaceOrder(s: State, pdas: Pdas, ctx: PlaceContext, side: Side, price: u64, quantity: u64): (r: Result<Placed, Error>)
    requires PlaceContextValid(s, pdas, ctx)
    ensures side == Buy && price * quantity > U64_MAX ==> r == Err(Dex(CalculationError))
    ensures r.Ok? ==> SameShape(s.ledger, r.value.state.ledger)
    ensures r.Ok? ==> r.value.state.book.baseMint == s.book.baseMint
    ensures r.Ok? ==> r.value.state.book.quoteMint == s.book.quoteMint
    ensures r.Ok? ==> Sorted(Buy, r.value.state.book.bids) && Sorted(Sell, r.value.state.book.asks)
    ensures r.Ok? ==> EventQty(r.value.events) <= quantity
  {
    var l1 :- LockFunds(s, pdas, ctx, side, price, quantity);
    var m :- MatchLoop(PlaceEnv(s, pdas, ctx, side, price), Opposite(s.book, side), quantity, l1);
    var book1 :- AddRemainder(WithOpposite(s.book, side, m.resting), side, ctx.owner, price, m.remaining);
    SameShapeTrans(s.ledger, l1, m.ledger);
    Ok(Placed(State(SortBook(book1), m.ledger), m.events))
  }

  /** The accounts of a `cancel_order` call. Anchor checks only the mints of
      the refund accounts, not who owns them. */
  datatype CancelContext = CancelContext(owner: Pubkey, ownerBase: Pubkey, ownerQuote: Pubkey)

  predicate CancelContextValid(s: State, pdas: Pdas, ctx: CancelContext) {
    && VaultsValid(s.book, s.ledger, pdas)
    && ctx.ownerBase in s.ledger
    && s.ledger[ctx.ownerBase].mint == s.book.baseMint
    && ctx.ownerQuote in s.ledger
    && s.ledger[ctx.ownerQuote].mint == s.book.quoteMint
  }

  /** `i` is the first index in `s` holding order `id`. */
  predicate FirstWithId(s: seq<Order>, id: u64, i: nat) {
    && i < |s|
    && s[i].orderId == id
    && forall j :: 0 <= j < i ==> s[j].orderId != id
  }

  predicate HasId(s: seq<Order>, id: u64) {
    exists i :: 0 <= i < |s| && s[i].orderId == id
  }

  /** `cancel_order`: look in the bids, then in the asks; the signer must own
      the order; refund its escrow from the matching vault; remove it. */
  function CancelOrder(s: State, pdas: Pdas, ctx: CancelContext, orderId: u64): (r: Result<State, Error>)
    requires CancelContextValid(s, pdas, ctx)
    ensures r == Err(Dex(OrderNotFound)) <==> !HasId(s.book.bids, orderId) && !HasId(s.book.asks, orderId)
    ensures r.Ok? ==> SameShape(s.ledger, r.value.ledger)
    ensures r.Ok? ==> r.value.book.orderIdCounter == s.book.orderIdCounter
    ensures forall i: nat :: FirstWithId(s.book.bids, orderId, i) ==>
      && (s.book.bids[i].owner != ctx.owner ==> r == Err(Dex(OrderNotOwned)))
      && (r.Ok? ==>
            && s.book.bids[i].owner == ctx.owner
            && r.value.book == s.book.(bids := RemoveAt(s.book.bids, i))
            && forall a :: a in s.ledger ==>
                 Balance(r.value.ledger, a) + Leg(a, pdas.quoteVault, Notional(s.book.bids[i]))
                 == Balance(s.ledger, a) + Leg(a, ctx.ownerQuote, Notional(s.book.bids[i])))
    ensures forall i: nat :: !HasId(s.book.bids, orderId) && FirstWithId(s.book.asks, orderId, i) ==>
      && (s.book.asks[i].owner != ctx.owner ==> r == Err(Dex(OrderNotOwned)))
      && (r.Ok? ==>
            && s.book.asks[i].owner == ctx.owner
            && r.value.book == s.book.(asks := RemoveAt(s.book.asks, i))
            && forall a :: a in s.ledger ==>
                 Balance(r.value.ledger, a) + Leg(a, pdas.baseVault, s.book.asks[i].quantity)
                 == Balance(s.ledger, a) + Leg(a, ctx.ownerBase, s.book.asks[i].quantity))
  {
    match Position(s.book.bids, orderId)
    case Some(i) =>
      var order := s.book.bids[i];
      if order.owner != ctx.owner then Err(Dex(OrderNotOwned))
      else
        var total :- CheckedMul(order.price, order.quantity);
        var l :- Transfer(s.ledger, pdas.quoteVault, ctx.ownerQuote, total);
        Ok(State(s.book.(bids := RemoveAt(s.book.bids, i)), l))
    case None =>
      match Position(s.book.asks, orderId)
      case Some(i) =>
        var order := s.book.asks[i];
        if order.owner != ctx.owner then Err(Dex(OrderNotOwned))
        else
          var l :- Transfer(s.ledger, pdas.baseVault, ctx.ownerBase, order.quantity);
          Ok(State(s.book.(asks := RemoveAt(s.book.asks, i)), l))
      case None => Err(Dex(OrderNotFound))
  }
}
