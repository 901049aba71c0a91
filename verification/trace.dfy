/** Runs of the program: a sequence of `place_order` and `cancel_order`
    instructions against one book, interleaved with transactions of any
    other program. A transaction whose accounts fail their constraints, or
    whose handler returns an error, is rejected as a whole and leaves the
    state as it was. */
module Trace {
  import opened Wrappers
  import opened Types
  import opened Token
  import opened Sides
  import opened Matching
  import opened Program
  import opened Invariants
  import opened PlaceFacts
  import opened Remainder

  datatype Instruction =
    | Place(place: PlaceContext, side: Side, price: u64, quantity: u64)
    | Cancel(cancel: CancelContext, orderId: u64)
    | External(ledger: Ledger)

  /** What a transaction outside this program can do to the ledger. The
      vaults are owned by the book's authority, for which only this program
      can sign, so such a transaction may pay into a vault but cannot take
      anything out of it, close it, or hand it to another owner. Every other
      account may change, appear or disappear. */
  predicate ExternalValid(s: State, pdas: Pdas, l': Ledger) {
    && pdas.baseVault in l' && pdas.quoteVault in l'
    && pdas.baseVault in s.ledger && pdas.quoteVault in s.ledger
    && l'[pdas.baseVault].mint == s.ledger[pdas.baseVault].mint
    && l'[pdas.baseVault].owner == s.ledger[pdas.baseVault].owner
    && l'[pdas.quoteVault].mint == s.ledger[pdas.quoteVault].mint
    && l'[pdas.quoteVault].owner == s.ledger[pdas.quoteVault].owner
    && Balance(l', pdas.baseVault) >= Balance(s.ledger, pdas.baseVault)
    && Balance(l', pdas.quoteVault) >= Balance(s.ledger, pdas.quoteVault)
  }

  /** The state after one instruction, and the id of the order it left
      resting, if any. */
  datatype Stepped = Stepped(state: State, issued: Option<u64>)

  /** An accepted or rejected `place_order`; an accepted one issues an id
      exactly when it leaves a remainder resting. */
  function PlaceStep(s: State, pdas: Pdas, ctx: PlaceContext, side: Side, price: u64, quantity: u64): Stepped {
    if !PlaceContextValid(s, pdas, ctx) then Stepped(s, None)
    else
      match PlaceOrder(s, pdas, ctx, side, price, quantity)
      case Err(_) => Stepped(s, None)
      case Ok(p) =>
        if quantity > EventQty(p.events) then Stepped(p.state, Some(p.state.book.orderIdCounter))
        else Stepped(p.state, None)
  }

  /** An accepted `place_order` that leaves a remainder moves the counter
      by one and rests an order under the new value; one that fills
      completely leaves the counter as it was. */
  lemma PlacedIssues(s: State, pdas: Pdas, ctx: PlaceContext, side: Side, price: u64, quantity: u64, p: Placed)
    requires PlaceContextValid(s, pdas, ctx)
    requires PlaceOrder(s, pdas, ctx, side, price, quantity) == Ok(p)
    ensures quantity <= EventQty(p.events) ==> p.state.book.orderIdCounter == s.book.orderIdCounter
    ensures quantity > EventQty(p.events) ==> p.state.book.orderIdCounter == s.book.orderIdCounter + 1
    ensures quantity > EventQty(p.events) ==>
      exists o :: o in Own(p.state.book, side) && o.orderId == p.state.book.orderIdCounter
  {
    if quantity > EventQty(p.events) {
      PlaceOrderRestsRemainder(s, pdas, ctx, side, price, quantity, p);
      var o := Order(ctx.owner, price, quantity - EventQty(p.events), p.state.book.orderIdCounter);
      QueuedHas(Own(s.book, side), o, Own(p.state.book, side));
    } else {
      assert EventQty(p.events) == quantity by {
        var l1, m := PlaceOrderUnfold(s, pdas, ctx, side, price, quantity);
        assert m.remaining + EventQty(m.events) == quantity;
      }
      PlaceOrderFullyFilled(s, pdas, ctx, side, price, quantity, p);
    }
  }

  /** The id a `place_order` issues is the next counter value, and it names
      the order now resting on the taker's side; otherwise the counter stays. */
  lemma PlaceStepIssues(s: State, pdas: Pdas, ctx: PlaceContext, side: Side, price: u64, quantity: u64)
    ensures var r := PlaceStep(s, pdas, ctx, side, price, quantity);
      && (r.issued.None? ==> r.state.book.orderIdCounter == s.book.orderIdCounter)
      && (r.issued.Some? ==> r.issued.value == s.book.orderIdCounter + 1 == r.state.book.orderIdCounter)
      && (r.issued.Some? ==> exists o :: o in Own(r.state.book, side) && o.orderId == r.issued.value)
  {
    if PlaceContextValid(s, pdas, ctx) {
      var res := PlaceOrder(s, pdas, ctx, side, price, quantity);
      if res.Ok? {
        PlacedIssues(s, pdas, ctx, side, price, quantity, res.value);
      }
    }
  }

  /** An accepted or rejected `cancel_order`; it never issues an id. */
  function CancelStep(s: State, pdas: Pdas, ctx: CancelContext, orderId: u64): (r: Stepped)
    ensures r.issued.None? && r.state.book.orderIdCounter == s.book.orderIdCounter
  {
    if !CancelContextValid(s, pdas, ctx) then Stepped(s, None)
    else
      var res := CancelOrder(s, pdas, ctx, orderId);
      if res.Err? then Stepped(s, None) else Stepped(res.value, None)
  }

  /** A transaction of another program: it touches the ledger only, and
      only within what the token program lets it do to the vaults. */
  function ExternalStep(s: State, pdas: Pdas, l': Ledger): (r: Stepped)
    ensures r.issued.None? && r.state.book == s.book
    ensures r.state.ledger == (if ExternalValid(s, pdas, l') then l' else s.ledger)
  {
    if ExternalValid(s, pdas, l') then Stepped(State(s.book, l'), None) else Stepped(s, None)
  }

  /** Another program's transaction keeps the invariant: the book is as it
      was and the vaults hold at least what they held. */
  lemma ExternalWf(s: State, pdas: Pdas, l': Ledger)
    requires Wf(s, pdas)
    ensures Wf(ExternalStep(s, pdas, l').state, pdas)
  {
  }

  function Step(s: State, pdas: Pdas, ins: Instruction): (r: Stepped)
    ensures r.issued.None? ==> r.state.book.orderIdCounter == s.book.orderIdCounter
    ensures r.issued.Some? ==> r.issued.value == s.book.orderIdCounter + 1 == r.state.book.orderIdCounter
    ensures r.issued.Some? ==> ins.Place? && exists o :: o in Own(r.state.book, ins.side) && o.orderId == r.issued.value
  {
    match ins
    case Place(ctx, side, price, quantity) =>
      PlaceStepIssues(s, pdas, ctx, side, price, quantity);
      PlaceStep(s, pdas, ctx, side, price, quantity)
    case Cancel(ctx, orderId) => CancelStep(s, pdas, ctx, orderId)
    case External(l') => ExternalStep(s, pdas, l')
  }

  /** One instruction keeps the book well formed, whether it is accepted or
      rejected. */
  lemma StepWf(s: State, pdas: Pdas, ins: Instruction)
    requires Wf(s, pdas)
    ensures Wf(Step(s, pdas, ins).state, pdas)
  {
    match ins
    case Place(ctx, side, price, quantity) =>
      if PlaceContextValid(s, pdas, ctx) && PlaceOrder(s, pdas, ctx, side, price, quantity).Ok? {
        PlaceOrderWf(s, pdas, ctx, side, price, quantity);
      }
    case Cancel(ctx, orderId) =>
      if CancelContextValid(s, pdas, ctx) && CancelOrder(s, pdas, ctx, orderId).Ok? {
        CancelOrderWf(s, pdas, ctx, orderId);
      }
    case External(l') =>
      ExternalWf(s, pdas, l');
  }

  /** The final state of a run and the ids it issued, in order. */
  datatype Ran = Ran(state: State, issued: seq<u64>)

  function Run(s: State, pdas: Pdas, prog: seq<Instruction>): (r: Ran)
    decreases |prog|
  {
    if |prog| == 0 then Ran(s, [])
    else
      var st := Step(s, pdas, prog[0]);
      var rest := Run(st.state, pdas, prog[1..]);
      Ran(rest.state, (if st.issued.Some? then [st.issued.value] else []) + rest.issued)
  }

  /** Ids are handed out one after another from the counter and never
      twice: the k-th id a run issues is the starting counter plus k + 1, and
      the counter ends exactly that many steps further on. */
  lemma {:induction false} RunIssuesConsecutiveIds(s: State, pdas: Pdas, prog: seq<Instruction>)
    ensures var r := Run(s, pdas, prog);
      && r.state.book.orderIdCounter == s.book.orderIdCounter + |r.issued|
      && forall k :: 0 <= k < |r.issued| ==> r.issued[k] == s.book.orderIdCounter + 1 + k
    decreases |prog|
  {
    if |prog| > 0 {
      var st := Step(s, pdas, prog[0]);
      RunIssuesConsecutiveIds(st.state, pdas, prog[1..]);
    }
  }

  /** Every run keeps the book well formed: sorted sides, valid and unique
      ids, and vaults covering the escrow of every resting order. */
  lemma {:induction false} RunWf(s: State, pdas: Pdas, prog: seq<Instruction>)
    requires Wf(s, pdas)
    ensures Wf(Run(s, pdas, prog).state, pdas)
    decreases |prog|
  {
    if |prog| > 0 {
      StepWf(s, pdas, prog[0]);
      RunWf(Step(s, pdas, prog[0]).state, pdas, prog[1..]);
    }
  }

  /** From `initialize` on, every reachable book is well formed and the ids
      issued are 1, 2, 3, ... in order. */
  lemma InitializedRun(l: Ledger, pdas: Pdas, baseMint: Pubkey, quoteMint: Pubkey, prog: seq<Instruction>)
    requires pdas.baseVault != pdas.quoteVault
    requires Initialize(l, pdas, baseMint, quoteMint).Ok?
    ensures var r := Run(Initialize(l, pdas, baseMint, quoteMint).value, pdas, prog);
      && Wf(r.state, pdas)
      && forall k :: 0 <= k < |r.issued| ==> r.issued[k] == k + 1
  {
    var s := Initialize(l, pdas, baseMint, quoteMint).value;
    InitializeWf(l, pdas, baseMint, quoteMint);
    RunWf(s, pdas, prog);
    RunIssuesConsecutiveIds(s, pdas, prog);
  }
}
