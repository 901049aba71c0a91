/** The on-chain records of the order book program: orders, the book
    account, trade events and the errors an instruction can end with. */
module Types {
  import opened Wrappers

  const U64_MAX: int := 0xFFFF_FFFF_FFFF_FFFF

  /** Rust's `u64`: every price, quantity, id and token amount. */
  type u64 = x: int | 0 <= x <= U64_MAX

  /** A public key; account addresses and owners alike. */
  type Pubkey = nat

  datatype Side = Buy | Sell

  /** A resting limit order. `quantity` is the unfilled remainder. */
  datatype Order = Order(owner: Pubkey, price: u64, quantity: u64, orderId: u64)

  /** The book account: the traded pair, both sides and the id counter. */
  datatype Orderbook = Orderbook(
    baseMint: Pubkey,
    quoteMint: Pubkey,
    bids: seq<Order>,
    asks: seq<Order>,
    orderIdCounter: u64)

  /** One record per executed fill. */
  datatype TradeEvent = TradeEvent(
    taker: Pubkey,
    maker: Pubkey,
    baseMint: Pubkey,
    quoteMint: Pubkey,
    quantity: u64,
    price: u64)

  /** The program's own error codes. */
  datatype DexError = OrderNotFound | OrderNotOwned | MakerAccountMismatch | CalculationError

  /** The failures of an SPL token transfer that this model can reach. */
  datatype TokenError = InsufficientFunds | MintMismatch | Overflow

  /** Everything that can abort an instruction. `NotEnoughAccountKeys` and
      `AccountNotTokenAccount` come from reading the maker accounts;
      `ArithmeticOverflow` is the panic of an overflow-checked `+= 1`;
      `AccountAlreadyInUse` is the failure of an `init` constraint. */
  datatype Error =
    | Dex(dex: DexError)
    | Token(token: TokenError)
    | NotEnoughAccountKeys
    | AccountNotTokenAccount
    | AccountAlreadyInUse
    | ArithmeticOverflow

  function Min(a: u64, b: u64): (r: u64)
    ensures r <= a && r <= b
    ensures r == a || r == b
  {
    if a <= b then a else b
  }

  /** `checked_mul(..).ok_or(DexError::CalculationError)`. */
  function CheckedMul(a: u64, b: u64): (r: Result<u64, Error>)
    ensures r.Ok? <==> a * b <= U64_MAX
    ensures r.Ok? ==> r.value == a * b
    ensures r.Err? ==> r.error == Dex(CalculationError)
  {
    if a * b <= U64_MAX then Ok(a * b) else Err(Dex(CalculationError))
  }
}
