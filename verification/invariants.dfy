/** The invariant every reachable state keeps: sorted sides, positive
    quantities, ids issued by the counter and never shared, no order owned
    by the book itself, and vaults that hold at least the escrow of the
    orders resting against them. */
module Invariants {
  import opened Wrappers
  import opened Types
  import opened Token
  import opened Sides
  import opened Matching
  import opened MatchingFacts
  import opened Program

  predicate RestingValid(s: seq<Order>, counter: u64, authority: Pubkey) {
    forall o :: o in s ==> o.quantity > 0 && 1 <= o.orderId <= counter && o.owner != authority
  }

  predicate UniqueIds(s: seq<Order>) {
    forall i, j :: 0 <= i < j < |s| ==> s[i].orderId != s[j].orderId
  }

  predicate IdFresh(s: seq<Order>, id: u64) {
    forall o :: o in s ==> o.orderId != id
  }

  predicate DisjointIds(a: seq<Order>, b: seq<Order>) {
    forall x, y :: x in a && y in b ==> x.orderId != y.orderId
  }

  /** Everything about the book except the order of its sides. */
  predicate BookContentsValid(book: Orderbook, authority: Pubkey) {
    && RestingValid(book.bids, book.orderIdCounter, authority)
    && RestingValid(book.asks, book.orderIdCounter, authority)
    && UniqueIds(book.bids)
    && UniqueIds(book.asks)
    && DisjointIds(book.bids, book.asks)
  }

  predicate BookValid(book: Orderbook, authority: Pubkey) {
    && Sorted(Buy, book.bids)
    && Sorted(Sell, book.asks)
    && BookContentsValid(book, authority)
  }

  /** Base units in the base vault beyond the asks' escrow. */
  function BaseSurplus(s: State, pdas: Pdas): int {
    Balance(s.ledger, pdas.baseVault) - Total(s.book.asks, Qty)
  }

  /** Quote units in the quote vault beyond the bids' escrow. */
  function QuoteSurplus(s: State, pdas: Pdas): int {
    Balance(s.ledger, pdas.quoteVault) - Total(s.book.bids, Notional)
  }

  predicate Wf(s: State, pdas: Pdas) {
    && VaultsValid(s.book, s.ledger, pdas)
    && BookValid(s.book, pdas.authority)
    && BaseSurplus(s, pdas) >= 0
    && QuoteSurplus(s, pdas) >= 0
  }

  lemma VaultsValidShape(book: Orderbook, book': Orderbook, l: Ledger, l': Ledger, pdas: Pdas)
    requires VaultsValid(book, l, pdas) && SameShape(l, l')
    requires book'.baseMint == book.baseMint && book'.quoteMint == book.quoteMint
    ensures VaultsValid(book', l', pdas)
  {
  }

  lemma AppendFresh(s: seq<Order>, o: Order)
    requires UniqueIds(s) && IdFresh(s, o.orderId)
    ensures UniqueIds(s + [o])
  {
    var r := s + [o];
    forall i, j | 0 <= i < j < |r|
      ensures r[i].orderId != r[j].orderId
    {
      if j == |s| {
        assert r[i] in s;
      } else {
        assert r[i] == s[i] && r[j] == s[j];
      }
    }
  }

  lemma {:induction false} InsertUnique(side: Side, t: seq<Order>, x: Order)
    requires UniqueIds(t) && IdFresh(t, x.orderId)
    ensures UniqueIds(Insert(side, t, x))
    decreases |t|
  {
    if |t| == 0 || InOrder(side, Last(t), x) {
      AppendFresh(t, x);
    } else {
      var y := Last(t);
      var r' := Insert(side, Pop(t), x);
      PopLast(t);
      assert UniqueIds(Pop(t));
      InsertUnique(side, Pop(t), x);
      forall o | o in r'
        ensures o.orderId != y.orderId
      {
        assert o in multiset(r');
        if o != x {
          assert o in Pop(t);
          var i :| 0 <= i < |Pop(t)| && Pop(t)[i] == o;
          assert t[i] == o;
        }
      }
      AppendFresh(r', y);
    }
  }

  lemma {:induction false} SortUnique(side: Side, s: seq<Order>)
    requires UniqueIds(s)
    ensures UniqueIds(SortSide(side, s))
    decreases |s|
  {
    if |s| > 0 {
      var t := SortSide(side, Pop(s));
      assert UniqueIds(Pop(s));
      SortUnique(side, Pop(s));
      forall o | o in t
        ensures o.orderId != Last(s).orderId
      {
        assert o in multiset(t);
        assert o in Pop(s);
        var i :| 0 <= i < |Pop(s)| && Pop(s)[i] == o;
        assert s[i] == o;
      }
      InsertUnique(side, t, Last(s));
    }
  }

  /** Sorting a book whose contents are valid gives a valid book with the
      same escrow totals. */
  lemma SortBookValid(book: Orderbook, authority: Pubkey)
    requires BookContentsValid(book, authority)
    ensures BookValid(SortBook(book), authority)
    ensures Total(SortBook(book).bids, Notional) == Total(book.bids, Notional)
    ensures Total(SortBook(book).asks, Qty) == Total(book.asks, Qty)
  {
    var r := SortBook(book);
    SortUnique(Buy, book.bids);
    SortUnique(Sell, book.asks);
    SortTotal(Buy, book.bids, Notional);
    SortTotal(Sell, book.asks, Qty);
    forall o | o in r.bids
      ensures o in book.bids
    {
      assert o in multiset(r.bids);
    }
    forall o | o in r.asks
      ensures o in book.asks
    {
      assert o in multiset(r.asks);
    }
  }

  /** `initialize` establishes the invariant. */
  lemma InitializeWf(l: Ledger, pdas: Pdas, baseMint: Pubkey, quoteMint: Pubkey)
    requires pdas.baseVault != pdas.quoteVault
    requires Initialize(l, pdas, baseMint, quoteMint).Ok?
    ensures Wf(Initialize(l, pdas, baseMint, quoteMint).value, pdas)
  {
  }

  lemma RemoveAtValid(s: seq<Order>, i: nat, counter: u64, authority: Pubkey)
    requires i < |s| && RestingValid(s, counter, authority) && UniqueIds(s)
    ensures RestingValid(RemoveAt(s, i), counter, authority)
    ensures UniqueIds(RemoveAt(s, i))
    ensures forall o :: o in RemoveAt(s, i) ==> o in s
  {
    var r := RemoveAt(s, i);
    RemoveAtParts(s, i, Qty);
    forall o | o in r
      ensures o in s
    {
      assert o in multiset(r);
    }
    forall a, b | 0 <= a < b < |r|
      ensures r[a].orderId != r[b].orderId
    {
      var a' := if a < i then a else a + 1;
      var b' := if b < i then b else b + 1;
      assert r[a] == s[a'] && r[b] == s[b'];
    }
  }

  /** Cancelling the bid at `i`: the book stays valid, and a vault's surplus
      moves only by the refund, when the refund account is that vault. */
  lemma CancelBid(s: State, pdas: Pdas, ctx: CancelContext, orderId: u64, i: nat)
    requires CancelContextValid(s, pdas, ctx) && Wf(s, pdas)
    requires CancelOrder(s, pdas, ctx, orderId).Ok?
    requires FirstWithId(s.book.bids, orderId, i)
    ensures BookValid(CancelOrder(s, pdas, ctx, orderId).value.book, pdas.authority)
    ensures BaseSurplus(CancelOrder(s, pdas, ctx, orderId).value, pdas)
            == BaseSurplus(s, pdas) + Leg(pdas.baseVault, ctx.ownerQuote, Notional(s.book.bids[i]))
    ensures QuoteSurplus(CancelOrder(s, pdas, ctx, orderId).value, pdas)
            == QuoteSurplus(s, pdas) + Leg(pdas.quoteVault, ctx.ownerQuote, Notional(s.book.bids[i]))
  {
    var s' := CancelOrder(s, pdas, ctx, orderId).value;
    var bv, qv := pdas.baseVault, pdas.quoteVault;
    var o := s.book.bids[i];
    assert s'.book == s.book.(bids := RemoveAt(s.book.bids, i));
    RemoveAtParts(s.book.bids, i, Notional);
    RemoveAtValid(s.book.bids, i, s.book.orderIdCounter, pdas.authority);
    assert Balance(s'.ledger, qv) + Notional(o) == Balance(s.ledger, qv) + Leg(qv, ctx.ownerQuote, Notional(o));
    assert Balance(s'.ledger, bv) + Leg(bv, qv, Notional(o)) == Balance(s.ledger, bv) + Leg(bv, ctx.ownerQuote, Notional(o));
  }

  /** Cancelling the ask at `i`, when no bid carries the id. */
  lemma CancelAsk(s: State, pdas: Pdas, ctx: CancelContext, orderId: u64, i: nat)
    requires CancelContextValid(s, pdas, ctx) && Wf(s, pdas)
    requires CancelOrder(s, pdas, ctx, orderId).Ok?
    requires !HasId(s.book.bids, orderId) && FirstWithId(s.book.asks, orderId, i)
    ensures BookValid(CancelOrder(s, pdas, ctx, orderId).value.book, pdas.authority)
    ensures BaseSurplus(CancelOrder(s, pdas, ctx, orderId).value, pdas)
            == BaseSurplus(s, pdas) + Leg(pdas.baseVault, ctx.ownerBase, s.book.asks[i].quantity)
    ensures QuoteSurplus(CancelOrder(s, pdas, ctx, orderId).value, pdas)
            == QuoteSurplus(s, pdas) + Leg(pdas.quoteVault, ctx.ownerBase, s.book.asks[i].quantity)
  {
    var s' := CancelOrder(s, pdas, ctx, orderId).value;
    var bv, qv := pdas.baseVault, pdas.quoteVault;
    var o := s.book.asks[i];
    assert s'.book == s.book.(asks := RemoveAt(s.book.asks, i));
    RemoveAtParts(s.book.asks, i, Qty);
    RemoveAtValid(s.book.asks, i, s.book.orderIdCounter, pdas.authority);
    assert Balance(s'.ledger, bv) + o.quantity == Balance(s.ledger, bv) + Leg(bv, ctx.ownerBase, o.quantity);
    assert Balance(s'.ledger, qv) + Leg(qv, bv, o.quantity) == Balance(s.ledger, qv) + Leg(qv, ctx.ownerBase, o.quantity);
  }

  /** `cancel_order` keeps the invariant; neither vault's surplus shrinks,
      and neither moves at all unless a refund account is itself a vault. */
  lemma CancelOrderWf(s: State, pdas: Pdas, ctx: CancelContext, orderId: u64)
    requires CancelContextValid(s, pdas, ctx) && Wf(s, pdas)
    requires CancelOrder(s, pdas, ctx, orderId).Ok?
    ensures Wf(CancelOrder(s, pdas, ctx, orderId).value, pdas)
    ensures BaseSurplus(CancelOrder(s, pdas, ctx, orderId).value, pdas) >= BaseSurplus(s, pdas)
    ensures QuoteSurplus(CancelOrder(s, pdas, ctx, orderId).value, pdas) >= QuoteSurplus(s, pdas)
    ensures ctx.ownerBase !in {pdas.baseVault, pdas.quoteVault} && ctx.ownerQuote !in {pdas.baseVault, pdas.quoteVault} ==>
      && BaseSurplus(CancelOrder(s, pdas, ctx, orderId).value, pdas) == BaseSurplus(s, pdas)
      && QuoteSurplus(CancelOrder(s, pdas, ctx, orderId).value, pdas) == QuoteSurplus(s, pdas)
  {
    var s' := CancelOrder(s, pdas, ctx, orderId).value;
    VaultsValidShape(s.book, s'.book, s.ledger, s'.ledger, pdas);
    match Position(s.book.bids, orderId)
    case Some(i) =>
      CancelBid(s, pdas, ctx, orderId, i);
    case None =>
      var i := Position(s.book.asks, orderId).value;
      CancelAsk(s, pdas, ctx, orderId, i);
  }

  /** `position` returns the first index holding the id. */
  lemma PositionFirst(s: seq<Order>, id: u64, i: nat)
    requires FirstWithId(s, id, i)
    ensures Position(s, id) == Some(i)
  {
    assert s[i].orderId == id;
  }

  /** An order the vault escrows can always be refunded from it: on a well
      formed book the vault holds at least the sum of the side's escrow, so
      it holds the escrow of any one order, and that escrow fits in 64 bits. */
  lemma EscrowCovered(s: seq<Order>, i: nat, f: Order -> nat, vault: nat)
    requires i < |s| && Total(s, f) <= vault
    ensures f(s[i]) <= vault
  {
    RemoveAtParts(s, i, f);
  }

  /** On a well formed book, cancelling the first bid with the id succeeds
      exactly when the signer owns it and the refund account can take the
      refund without overflowing (or is the quote vault itself). The vault
      always covers the refund, and the product never overflows. */
  lemma CancelBidSucceeds(s: State, pdas: Pdas, ctx: CancelContext, orderId: u64, i: nat)
    requires CancelContextValid(s, pdas, ctx) && Wf(s, pdas)
    requires FirstWithId(s.book.bids, orderId, i)
    ensures CancelOrder(s, pdas, ctx, orderId).Ok? <==>
      && s.book.bids[i].owner == ctx.owner
      && (ctx.ownerQuote == pdas.quoteVault
          || Balance(s.ledger, ctx.ownerQuote) + Notional(s.book.bids[i]) <= U64_MAX)
  {
    PositionFirst(s.book.bids, orderId, i);
    EscrowCovered(s.book.bids, i, Notional, Balance(s.ledger, pdas.quoteVault));
  }

  /** The same for the first ask with the id, when no bid carries it: the
      refund is the ask's quantity, out of the base vault. */
  lemma CancelAskSucceeds(s: State, pdas: Pdas, ctx: CancelContext, orderId: u64, i: nat)
    requires CancelContextValid(s, pdas, ctx) && Wf(s, pdas)
    requires !HasId(s.book.bids, orderId) && FirstWithId(s.book.asks, orderId, i)
    ensures CancelOrder(s, pdas, ctx, orderId).Ok? <==>
      && s.book.asks[i].owner == ctx.owner
      && (ctx.ownerBase == pdas.baseVault
          || Balance(s.ledger, ctx.ownerBase) + s.book.asks[i].quantity <= U64_MAX)
  {
    PositionFirst(s.book.asks, orderId, i);
    EscrowCovered(s.book.asks, i, Qty, Balance(s.ledger, pdas.baseVault));
  }
}
