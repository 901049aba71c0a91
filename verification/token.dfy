/** The token accounts the program touches, and the one SPL token operation
    it performs: `transfer`. Vaults are ordinary entries of the ledger, so a
    caller-chosen account may alias a vault, as on chain. */
module Token {
  import opened Wrappers
  import opened Types

  datatype TokenAccount = TokenAccount(mint: Pubkey, owner: Pubkey, amount: u64)

  /** Every token account, by address. */
  type Ledger = map<Pubkey, TokenAccount>

  /** Amount held at address `a` (0 for an address that is no token account). */
  function Balance(l: Ledger, a: Pubkey): nat {
    if a in l then l[a].amount else 0
  }

  /** `amount` when `a` is the account `at`, else 0: one leg of a transfer. */
  function Leg(a: Pubkey, at: Pubkey, amount: nat): nat {
    if a == at then amount else 0
  }

  /** Same accounts, each with the same mint and owner; only amounts moved. */
  predicate SameShape(l: Ledger, l': Ledger) {
    && l.Keys == l'.Keys
    && forall a :: a in l ==> l'[a].mint == l[a].mint && l'[a].owner == l[a].owner
  }

  lemma SameShapeTrans(l1: Ledger, l2: Ledger, l3: Ledger)
    requires SameShape(l1, l2) && SameShape(l2, l3)
    ensures SameShape(l1, l3)
  {
  }

  /** SPL token `transfer`: the source must hold the amount, both accounts
      must be of one mint, a self-transfer changes nothing, and the
      destination must not overflow. Signature checks are left out. */
  function Transfer(l: Ledger, from: Pubkey, to: Pubkey, amount: u64): (r: Result<Ledger, Error>)
    requires from in l && to in l
    ensures r.Ok? <==>
      && amount <= l[from].amount
      && l[from].mint == l[to].mint
      && (from == to || l[to].amount + amount <= U64_MAX)
    ensures r.Err? ==> r.error.Token?
    ensures r.Ok? ==> SameShape(l, r.value)
    ensures r.Ok? ==> forall a :: a in l ==>
      Balance(r.value, a) + Leg(a, from, amount) == Balance(l, a) + Leg(a, to, amount)
  {
    if l[from].amount < amount then Err(Token(InsufficientFunds))
    else if l[from].mint != l[to].mint then Err(Token(MintMismatch))
    else if from == to then Ok(l)
    else if l[to].amount + amount > U64_MAX then Err(Token(Overflow))
    else
      var l1 := l[from := l[from].(amount := l[from].amount - amount)];
      Ok(l1[to := l1[to].(amount := l1[to].amount + amount)])
  }
}
