# Single-pair limit order book (Anchor program) in Dafny

This project models the on-chain order book program `orderbook`. One book
account holds a base/quote mint pair, two vectors of resting limit orders
(`bids` and `asks`) and an order-id counter. Two vault token accounts owned by
the book hold the escrow of those orders. The program has three
instructions:

- `initialize` creates an empty book with the counter at 0, plus its two
  empty vaults.
- `place_order` works in four steps:
  - It escrows the whole order up front. A buy locks `price * quantity`
    quote units with a checked multiply. A sell locks `quantity` base units.
  - It matches against the opposite side, one resting order per pass.
  - Any unfilled remainder rests on the taker's own side under
    `++order_id_counter`.
  - It re-sorts both sides: bids by price descending, asks ascending.
- `cancel_order` looks for the id in the bids and then in the asks. It checks
  the owner, refunds the order's escrow from the matching vault and removes
  the order.

The model is functional. Every instruction maps a `State` (book and token
ledger) to a `Result` with either a new `State` or an error. An error discards
everything the attempt did, as a failed Solana transaction does.

The token accounts form one ledger keyed by address, and the vaults are
ordinary entries of that ledger. This keeps the aliasing of the source: an
account the caller supplies may be a vault itself.

The SPL `transfer` is modelled as a function on that ledger. It fails on
insufficient funds, on a mint mismatch and on overflow of the destination, and
a self-transfer changes nothing.

The matching loop is a recursive function. Each pass reads the LAST order of
the opposite side, as `.last()` and `.pop()` do.

Modules, in dependency order:

| module | file | contents |
|---|---|---|
| `Wrappers` | wrappers.dfy | `Option`, `Result` with `:-` support |
| `Types` | types.dfy | `Order`, `Orderbook`, `Side`, `TradeEvent`, `DexError`, `u64`, checked multiply |
| `Token` | token.dfy | ledger of token accounts, SPL `transfer` |
| `Sides` | sides.dfy | one side as a `Vec`: last/pop, totals, stable sort, `position`, `remove` |
| `Matching` | matching.dfy | `get_next_maker_accounts`, one fill, the matching loop |
| `MatchingFacts` | matching_facts.dfy | what a whole run of the loop consumes, records and pays |
| `Program` | program.dfy | the three instructions |
| `Invariants` | invariants.dfy | the book invariant `Wf`; `initialize` and `cancel_order` keep it |
| `PlaceFacts` | place_facts.dfy | `place_order` keeps `Wf`; exact vault accounting |
| `PlaceProperties` | place_properties.dfy | the matching order, the maker checks, what the opposite side loses |
| `Remainder` | remainder.dfy | where the remainder rests, and under which id |
| `Payments` | payments.dfy | which accounts a `place_order` credits and debits |
| `Trace` | trace.dfy | runs of many instructions, interleaved with other programs' transactions: ids and the invariant over a whole run |

The invariant `Wf` says:

- both sides are sorted;
- every resting order has positive quantity and an id in `1..counter`, and
  is not owned by the book;
- ids are unique across both sides;
- the base vault holds at least the sum of the asks' quantities;
- the quote vault holds at least the sum of `price * quantity` over the bids.

### What the code does that a reader might not expect

In several places the code does not do what an order book is usually
expected to do. The model follows the code.

- **Matching order.** An order book is expected to give price-time
  priority: best price first, with ties going to the earlier id.
  - The code sorts asks ascending and bids descending, then matches from the
    END of the vector.
  - So a buy meets the HIGHEST ask first, and a sell the LOWEST bid.
  - Within one price level, the stable sort keeps insertion order, so the
    order queued LAST fills first.
  - The loop stops at the first order that does not cross. A buy priced
    between the lowest and the highest ask therefore fills nothing.
  - See `PlaceProperties.PlaceOrderWorstPriceFirst` and
    `PlaceProperties.PlaceOrderStopsAtLast`.
- **Maker accounts.** One might expect one supplied maker account pair to be
  consumed per fill.
  - The code reads the maker accounts from a fresh iterator on every pass, so
    every fill uses the FIRST pair.
  - Since that pair's owner must equal each popped maker's owner, a successful
    call trades against one owner only.
  - See `PlaceProperties.PlaceOrderSingleMaker` and
    `PlaceProperties.PlaceOrderMakerMismatch`.
  - Only the owner of the base-side account is checked. The quote-side
    account that a buy pays its maker through is not checked at all. A
    taker may name its own quote account there; the price of every fill
    then comes back to it, and the maker is paid nothing. See
    `Payments.PlaceOrderPayments` and `Payments.BuyerPaysItself`.
- **Price improvement.** A buy taker would expect to get the better price.
  - The code escrows the taker's price for every unit and pays each maker at
    the maker's own price.
  - The difference stays in the quote vault and is never returned. See
    `PlaceFacts.PlaceOrderQuoteExact`.
- **Escrow timing.** One might expect only the unfilled remainder to be
  escrowed. The code escrows the whole order before matching.
- **Overflow errors.** One might expect every overflow to be reported as
  `CalculationError`.
  - In the code, only the four `checked_mul`s give `CalculationError`: the
    buy escrow (lib.rs:57-60), the quote leg of a buy fill (lib.rs:134-136)
    and of a sell fill (lib.rs:216-218), and a bid's refund
    (lib.rs:316-319).
  - An overflowing vault balance is an SPL token error.
  - The id counter's `+= 1` is an overflow-checked panic, modelled as the
    error `ArithmeticOverflow`.

## Model

| member | source | states |
|---|---|---|
| Types.CheckedMul | anchor/programs/orderbook/src/lib.rs:57-60 | the product is returned exactly when it fits in 64 bits, otherwise the error is `CalculationError` |
| Token.Transfer | anchor/programs/orderbook/src/lib.rs:62-74 | an SPL transfer succeeds exactly when the source holds the amount, the mints agree and the destination does not overflow; every account's balance then moves by exactly the amount from source to destination (nothing for a self-transfer), and no account changes mint or owner |
| Matching.GetNextMakerAccounts | anchor/programs/orderbook/src/lib.rs:372-387 | fewer than two remaining accounts gives `NotEnoughAccountKeys`; otherwise it succeeds exactly when the first two are token accounts, and always yields those two, with the first one's owner |
| Matching.Fill | anchor/programs/orderbook/src/lib.rs:117-183 | one pass: a maker pair whose owner differs from the last resting order's owner gives `MakerAccountMismatch`; otherwise the trade is `min(remaining, maker quantity)` at the maker's price, the taker's remainder drops by it, and the maker is pushed back with the rest only if some is left |
| Matching.FillBalances | anchor/programs/orderbook/src/lib.rs:139-164 | one fill takes the traded base units out of the base vault and their price out of the quote vault, into the two receiving accounts, and moves nothing else |
| Matching.MatchLoop | anchor/programs/orderbook/src/lib.rs:104-184 | when the loop ends, the taker has nothing left, the opposite side is empty, or its last order does not cross; the filled and unfilled quantities add up to the order's quantity; only balances move |
| MatchingFacts.FillConsumes | anchor/programs/orderbook/src/lib.rs:131-183 | one pass lowers the resting side's base and quote totals by exactly the fill, changes only its last order, and never leaves a zero-quantity order behind |
| MatchingFacts.MatchLoopConsumes | anchor/programs/orderbook/src/lib.rs:104-184 | the whole loop takes orders only off the end of the opposite side, and that side's totals fall by exactly the events' totals; with no event nothing changes |
| MatchingFacts.MatchLoopEvents | anchor/programs/orderbook/src/lib.rs:104-184 | every event crosses the taker's price, names the taker, the pair's mints, and as maker the owner of the FIRST supplied account; the first event is against the last resting order, for `min` of both quantities |
| MatchingFacts.MatchLoopVaults | anchor/programs/orderbook/src/lib.rs:139-164 | across the loop each vault falls by at most the events' base and quote totals, and by exactly that when no receiving account is that vault |
| Program.Initialize | anchor/programs/orderbook/src/lib.rs:24-32 | fails exactly when the vault accounts already exist; otherwise it gives the empty book with counter 0 and two empty vaults of the pair's mints owned by the book, and leaves every other account as it was |
| Program.LockFunds | anchor/programs/orderbook/src/lib.rs:54-88 | a buy whose `price * quantity` overflows fails with `CalculationError`; the escrow succeeds exactly when the owner's account holds it and the vault does not overflow, and then moves exactly `price * quantity` quote (buy) or `quantity` base (sell) into the vault |
| Program.AddRemainder | anchor/programs/orderbook/src/lib.rs:271-283 | with nothing left the book is unchanged; otherwise the counter goes up by one and an order with the taker's owner, price, remaining quantity and the new counter is appended to the taker's side; it fails only when the counter is at `u64::MAX` |
| Program.SortBook | anchor/programs/orderbook/src/lib.rs:286-287 | bids come out sorted by price descending and asks ascending, each a permutation of its input; mints and counter are unchanged |
| Program.PlaceOrder | anchor/programs/orderbook/src/lib.rs:35-290 | an overflowing buy escrow fails with `CalculationError`; on success both sides are sorted, the pair's mints are unchanged, no more than `quantity` is filled, and accounts keep their mints and owners |
| Program.CancelOrder | anchor/programs/orderbook/src/lib.rs:293-368 | `OrderNotFound` exactly when neither side has the id; the first bid with the id is taken before any ask; another owner's order gives `OrderNotOwned`; on success exactly that order is removed and the rest keep their order, `price * quantity` quote (bid) or `quantity` base (ask) moves from the vault to the refund account, and the counter stays |
| Sides.SortSide | anchor/programs/orderbook/src/lib.rs:286-287 | the result is sorted in the side's order and is a permutation of the input |
| Sides.SortStable | anchor/programs/orderbook/src/lib.rs:286-287 | the sort keeps the orders of every price level in their original relative order, as Rust's stable `sort_by` does |
| Sides.StableSortUnique | anchor/programs/orderbook/src/lib.rs:286-287 | two sorted sides with the same price levels are equal, so the model's sort gives the same result as any stable sort with this comparator |
| Sides.Position | anchor/programs/orderbook/src/lib.rs:307 | `position` finds the first index holding the id, and finds none exactly when no order has it |
| Sides.RemoveAt | anchor/programs/orderbook/src/lib.rs:335 | `remove(i)` drops the order at `i` and shifts the later ones down by one, keeping their order |
| Sides.RemoveAtParts | anchor/programs/orderbook/src/lib.rs:362 | removing an order takes exactly that order out of the side's contents and totals, and keeps the side sorted |
| Invariants.InitializeWf | anchor/programs/orderbook/src/lib.rs:24-32 | a freshly initialized book satisfies the invariant |
| Invariants.CancelBid | anchor/programs/orderbook/src/lib.rs:307-337 | cancelling a bid keeps the book valid, and a vault's surplus over its escrow changes only when the refund account is that vault |
| Invariants.CancelAsk | anchor/programs/orderbook/src/lib.rs:340-364 | the same for an ask |
| Invariants.CancelOrderWf | anchor/programs/orderbook/src/lib.rs:293-368 | `cancel_order` keeps the invariant, never shrinks either vault's surplus, and leaves both surpluses exactly as they were when neither refund account is a vault |
| Invariants.CancelBidSucceeds | anchor/programs/orderbook/src/lib.rs:307-337 | on a book satisfying the invariant, cancelling the first bid with the id succeeds exactly when the signer owns it and the refund account can take `price * quantity` without overflowing (or is the quote vault); the vault always covers the refund |
| Invariants.CancelAskSucceeds | anchor/programs/orderbook/src/lib.rs:340-364 | the same for the first ask with the id when no bid has it: the refund of `quantity` base units out of the base vault always succeeds for its owner unless the refund account would overflow |
| PlaceFacts.PlaceOrderWf | anchor/programs/orderbook/src/lib.rs:35-290 | `place_order` keeps the invariant, including that each vault covers its side's escrow, and never shrinks either vault's surplus |
| PlaceFacts.PlaceOrderAccounting | anchor/programs/orderbook/src/lib.rs:54-287 | each vault's surplus moves by what the fills credited back to it, and a buy's quote surplus also grows by its own price minus each maker's price, for every unit filled |
| PlaceFacts.FillReceivers | anchor/programs/orderbook/src/lib.rs:139-164 | when a fill happens, the base receiver is never a vault and neither is a sell's quote receiver; a buy's unchecked quote receiver can be the base vault only if the two mints are equal |
| PlaceFacts.PlaceOrderBaseExact | anchor/programs/orderbook/src/lib.rs:35-290 | for a sell, or when the two mints differ, the base vault tracks the sum of the asks exactly: a sell's escrow adds what rests, and each fill removes what it takes |
| PlaceFacts.PlaceOrderQuoteExact | anchor/programs/orderbook/src/lib.rs:54-164 | a sell leaves the quote surplus unchanged; a buy whose maker quote account is not the quote vault grows it by exactly `price * filled - paid to makers`, the price improvement the vault keeps |
| MatchingFacts.MatchLoopPayments | anchor/programs/orderbook/src/lib.rs:139-164 | across the loop every account other than the vaults gains exactly the traded base units if it is the base receiver and their price if it is the quote receiver, the same two accounts on every pass |
| Payments.PlaceOrderPayments | anchor/programs/orderbook/src/lib.rs:54-164 | outside the vaults, a buy debits the taker's quote account by the escrow and credits the taker's base account with what filled and the second maker account with its price; a sell debits the taker's base account, credits the first maker account with what filled and the taker's quote account with its price; nothing else moves |
| Payments.BuyerPaysItself | anchor/programs/orderbook/src/lib.rs:153-164 | a buy that names its own quote account as the maker's gets the makers' price of every fill back, so it pays its escrow less the makers' prices of what filled: the escrow of the unfilled part plus the price improvement |
| PlaceProperties.PlaceOrderWorstPriceFirst | anchor/programs/orderbook/src/lib.rs:106-119 | the first fill is against the last order of the opposite side, which is the last order of its price level and on a valid book the worst price: every ask is at or below it for a buy (every bid at or above it for a sell), and it crosses the taker's price |
| PlaceProperties.PlaceOrderStopsAtLast | anchor/programs/orderbook/src/lib.rs:106-116 | if the last order of the opposite side does not cross, nothing fills, whatever lies before it |
| PlaceProperties.PlaceOrderSingleMaker | anchor/programs/orderbook/src/lib.rs:120-128 | every fill of one call names the same maker: the owner of the opposite side's last order, which is also the owner of the first supplied account |
| PlaceProperties.PlaceOrderMakerMismatch | anchor/programs/orderbook/src/lib.rs:120-128 | when the first supplied account's owner is not the owner of a crossing last order, the whole call fails with `MakerAccountMismatch` |
| PlaceProperties.PlaceOrderNeedsMakerAccounts | anchor/programs/orderbook/src/lib.rs:120-122 | a crossing order with fewer than two maker accounts supplied fails with `NotEnoughAccountKeys` |
| PlaceProperties.PlaceOrderConsumes | anchor/programs/orderbook/src/lib.rs:104-287 | after re-sorting, the opposite side is the old one with orders taken off its end only, and its base and quote totals fall by exactly what the events record |
| PlaceProperties.SortSorted | anchor/programs/orderbook/src/lib.rs:286-287 | re-sorting a side that is already sorted leaves it unchanged |
| Remainder.RemainderOwn | anchor/programs/orderbook/src/lib.rs:271-283 | the remainder step appends at most one order, and only to the taker's side, and moves the counter by exactly the number appended |
| Remainder.SortQueued | anchor/programs/orderbook/src/lib.rs:286-287 | after the sort, the taker's side holds the old orders plus the new one, and within each price level the new order comes after the old ones |
| Remainder.PlaceOrderRestsRemainder | anchor/programs/orderbook/src/lib.rs:271-287 | when something is left unfilled, the counter goes up by one and the taker's side gains exactly one order: the taker's owner and price, the unfilled quantity and the new counter value, queued behind its price level |
| Remainder.PlaceOrderFullyFilled | anchor/programs/orderbook/src/lib.rs:271-287 | when everything fills, the counter stays and the taker's side keeps its orders, level by level |
| Trace.PlacedIssues | anchor/programs/orderbook/src/lib.rs:271-283 | an accepted `place_order` moves the counter by one exactly when it leaves a remainder, and an order with the new id then rests on the taker's side |
| Trace.CancelStep | anchor/programs/orderbook/src/lib.rs:293-368 | `cancel_order` issues no id and never moves the counter, whether accepted or rejected |
| Trace.Step | anchor/programs/orderbook/src/lib.rs:271-283 | one instruction issues an id only for a `place_order` that rests a remainder; the id is the old counter plus one and names a resting order; otherwise the counter stays |
| Trace.StepWf | anchor/programs/orderbook/src/lib.rs:35-368 | one instruction of this program, accepted or rejected, or one transaction of another program, keeps the invariant |
| Trace.RunIssuesConsecutiveIds | anchor/programs/orderbook/src/lib.rs:271-283 | over any run of instructions the k-th id issued is the starting counter plus k + 1, so ids strictly increase and are never reused, even across cancels |
| Trace.RunWf | anchor/programs/orderbook/src/lib.rs:24-368 | every run of instructions keeps the invariant |
| Trace.ExternalWf | anchor/programs/orderbook/src/lib.rs:408-425 | a transaction of another program, which can pay into the book's vaults but not take from them, keeps the invariant |
| Trace.InitializedRun | anchor/programs/orderbook/src/lib.rs:24-32 | from `initialize` on, every reachable book satisfies the invariant and the ids issued are 1, 2, 3, ... in order, whatever other programs do to the ledger in between |

## Left out

- Program-derived addresses and their seeds and bumps: the book's address and
  its vaults' addresses are parameters (`Pdas`). Only the vaults being
  distinct is assumed.
- SPL token authority and signature checks: the book signs for its vaults
  and the owner signs for their own accounts, so the model leaves these out.
- Anchor account deserialization and constraints: they are a precondition
  (`PlaceContextValid`, `CancelContextValid`). The precondition states the
  mint and owner constraints of the account structs, and that the signer is
  not the book.
- Maker accounts: deserializing a remaining account as a token account is
  modelled as membership in the ledger (`AccountNotTokenAccount` otherwise).
- The account space of the book: 5688 bytes (lib.rs:401), while the Borsh
  encoding takes 88 bytes plus 56 per order. So at most 100 orders fit,
  counting both sides together. Sides are unbounded sequences here, so a
  `place_order` that would overflow the account is not rejected.
- `emit!`: events are returned as a sequence from `place_order` rather than
  logged.
- Rent, the payer and the system program of `initialize`: `init` is modelled
  only as failing when the vault accounts already exist.
- The id counter's `+= 1`: it is modelled as overflow-checked, so it fails at
  `u64::MAX`. That matches Anchor's default release profile. The build
  configuration is not part of this model.
- Token.Transfer: frozen token accounts are not modelled, so SPL's
  `AccountFrozen` failure (a frozen source or destination) is missing from
  "succeeds exactly when". Transaction compute limits are not modelled
  either.
- Program.LockFunds: the escrow can also fail with SPL's `AccountFrozen`
  when the owner's account or the vault is frozen, and the whole
  `place_order` can abort when a long matching loop exhausts the
  transaction's compute budget. Neither is modelled, so "succeeds exactly
  when" holds only for unfrozen accounts and within the compute budget.
- Trace.InitializedRun: another program's transaction is modelled only
  through its effect on the ledger (`Trace.ExternalValid`). It may change
  every account except the vaults arbitrarily, and it may pay into the
  vaults. The token program's close and delegate instructions on a vault
  need the book's signature, which only this program gives, so they are
  excluded. Freezing is signed by a mint's freeze authority, not by the
  account's owner, so another party can freeze a vault or a trader's
  account. Freezing moves no balance and so leaves `Wf` as it was;
  afterwards transfers from or to that account fail with `AccountFrozen`,
  which the `Token.Transfer:` line above already leaves out.
- PlaceFacts.PlaceOrderBaseExact: the exact base-vault equation is not proved
  for a buy on a book whose two mints are equal. There, the unchecked maker
  quote account may be the base vault itself, and the equation can fail. Only
  the weaker "never shrinks" of `PlaceFacts.PlaceOrderWf` holds then.
- PlaceFacts.PlaceOrderQuoteExact: the exact quote equation is not proved for
  a buy whose supplied maker quote account is the quote vault. That transfer
  is then a self-transfer, and only the "never shrinks" of
  `PlaceFacts.PlaceOrderWf` holds.
