/** What a bill charges: items, total, payable and discount while its order is open, and after. */
module BillingPrices {
  import opened Common
  import opened Sums
  import opened Billing
  import opened BillingBooks

  // ----- items -----

  function Charges(items: seq<Item>): seq<int> {
    seq(|items|, i requires 0 <= i < |items| =>
        if items[i].live && !items[i].kind.Discount? then items[i].amount else 0)
  }

  function Withdrawn(items: seq<Item>): seq<int> {
    seq(|items|, i requires 0 <= i < |items| =>
        if !items[i].live && items[i].kind.Discount? then items[i].amount else 0)
  }

  predicate DiscountsReduce(items: seq<Item>) {
    forall i :: 0 <= i < |items| && items[i].kind.Discount? ==> items[i].amount <= 0
  }

  lemma LiveIsChargesAndDiscounts(items: seq<Item>)
    ensures Sum(LiveAmounts(items)) == Sum(Charges(items)) + Sum(DiscountAmounts(items))
    ensures DiscountsReduce(items) ==> Sum(DiscountAmounts(items)) <= 0
  {
    SumOfSum(LiveAmounts(items), Charges(items), DiscountAmounts(items));
    if DiscountsReduce(items) { SumNotPositive(DiscountAmounts(items)); }
  }

  lemma DroppedDiscounts(items: seq<Item>)
    ensures Charges(WithoutDiscounts(items)) == Charges(items)
    ensures Sum(DiscountAmounts(WithoutDiscounts(items))) == 0
    ensures DiscountsReduce(items) ==> DiscountsReduce(WithoutDiscounts(items))
  {
    SumNone(DiscountAmounts(WithoutDiscounts(items)));
  }

  lemma RestoredDiscounts(items: seq<Item>)
    ensures Charges(WithDiscounts(items)) == Charges(items)
    ensures Sum(DiscountAmounts(WithDiscounts(items))) == Sum(DiscountAmounts(items)) + Sum(Withdrawn(items))
    ensures DiscountsReduce(items) ==> DiscountsReduce(WithDiscounts(items))
  {
    SumOfSum(DiscountAmounts(WithDiscounts(items)), DiscountAmounts(items), Withdrawn(items));
  }

  lemma AddedDiscount(items: seq<Item>, off: int)
    ensures Sum(Charges(items + [Item(Discount, -off, true)])) == Sum(Charges(items))
    ensures Sum(DiscountAmounts(items + [Item(Discount, -off, true)])) == Sum(DiscountAmounts(items)) - off
  {
    var more := items + [Item(Discount, -off, true)];
    assert Charges(more) == Charges(items) + [0] && DiscountAmounts(more) == DiscountAmounts(items) + [-off];
    SumAppend(Charges(items), 0);
    SumAppend(DiscountAmounts(items), -off);
  }

  // ----- the invariant of an order's bill -----

  /** The bill charges its live items: total = payable = their sum, and discount = what discounts take off. */
  predicate Priced(a: Account) {
    && a.total == a.payable == Sum(LiveAmounts(a.items))
    && a.discount == Abs(Sum(DiscountAmounts(a.items)))
  }

  /** The bill charges its live items other than discounts, less the discount it states. */
  predicate Based(a: Account) {
    && a.total == a.payable && a.total + a.discount == Sum(Charges(a.items))
    && 0 <= a.discount && 0 <= a.paid <= a.payable && DiscountsReduce(a.items)
  }

  predicate NothingDeclared(legs: seq<Leg>) {
    forall i :: 0 <= i < |legs| ==> !legs[i].status.LegDeclared?
  }

  predicate UnpaidLegsPositive(legs: seq<Leg>) {
    forall i :: 0 <= i < |legs| && (legs[i].status.LegPending? || legs[i].status.LegDeclared?) ==> legs[i].total > 0
  }

  /** One leg is declared, and with its voucher it covers exactly what is outstanding. */
  predicate OneDeclared(a: Account, i: nat) {
    && i < |a.legs| && a.legs[i].status.LegDeclared?
    && (forall j :: 0 <= j < |a.legs| && a.legs[j].status.LegDeclared? ==> j == i)
    && VoucherOff(a.legs[i].credential) >= 0
    && a.legs[i].total + VoucherOff(a.legs[i].credential) == a.payable - a.paid
  }

  predicate OrderOk(a: Account) {
    match a.order
    case None => true
    case Some(PendingPayment) => Based(a) && a.discount == 0 && Unsettled(a) && NothingDeclared(a.legs)
    case Some(PendingVerify) =>
      Based(a) && Priced(a) && Unsettled(a) && DeclaredLeg(a.legs).Some? && OneDeclared(a, DeclaredLeg(a.legs).value)
    case Some(Paid) => Based(a) && a.status.Settled? && a.paid == a.payable && NothingDeclared(a.legs)
    case Some(Fulfilled) => NothingDeclared(a.legs)
    case Some(_) => NothingDeclared(a.legs) && a.paid >= 0 && (a.paid == 0 ==> ClosedUnpaid(a))
  }

  predicate Unsettled(a: Account) { a.status.Unpaid? || a.status.Partial? }

  predicate ClosedUnpaid(a: Account) { Based(a) && a.discount == 0 && a.status.Void? }

  predicate PricesOk(a: Account) { OrderOk(a) && UnpaidLegsPositive(a.legs) }

  lemma NothingDeclaredIsNone(legs: seq<Leg>)
    ensures NothingDeclared(legs) <==> DeclaredLeg(legs).None?
  {
  }

  lemma OnlyDeclared(legs: seq<Leg>, i: nat)
    requires i < |legs| && legs[i].status.LegDeclared?
    requires forall j :: 0 <= j < |legs| && legs[j].status.LegDeclared? ==> j == i
    ensures DeclaredLeg(legs) == Some(i)
  {
  }

  // ----- confirm -----

  /** With nothing declared, a confirm is accepted only for what is outstanding, to the cent. */
  lemma UndeclaredConfirmSettlesInFull(a: Account, input: Payment, finalizes: bool)
    requires DeclaredLeg(a.legs).None? && !StageOneDone(a) && Confirm(a, input, finalizes).Ok?
    ensures
      var n := Confirm(a, input, finalizes).value;
      n.paid == n.payable == a.payable && n.paid > a.paid && n.status.Settled? && n.order == Some(Paid)
  {
  }

  /** In a reachable state that is so for a declared leg too, its voucher included. */
  lemma ConfirmSettlesInFull(a: Account, input: Payment, finalizes: bool)
    requires PricesOk(a) && !StageOneDone(a) && Confirm(a, input, finalizes).Ok?
    ensures
      var n := Confirm(a, input, finalizes).value;
      n.paid == n.payable == a.payable && n.status.Settled? && n.order == Some(Paid)
  {
    hide Priced, Based, UnpaidLegsPositive;
  }

  lemma ConfirmKeepsPrices(a: Account, input: Payment, finalizes: bool)
    requires PricesOk(a) && Confirm(a, input, finalizes).Ok?
    ensures PricesOk(Confirm(a, input, finalizes).value)
  {
    hide Priced, Sum, Charges, DiscountsReduce;
    if !StageOneDone(a) {
      ConfirmSettlesInFull(a, input, finalizes);
    }
  }

  // ----- declare -----

  /** The bill as declared: discounts withdrawn, prices taken from the items, the new discount applied. */
  lemma RecomputedPrices(a: Account, items: seq<Item>, off: int)
    requires off >= 0 && Sum(DiscountAmounts(items)) == -off && DiscountsReduce(items)
    ensures
      var n := Recompute(a.(items := items));
      n.total == n.payable == Sum(Charges(items)) - off && n.discount == off && Priced(n)
  {
    LiveIsChargesAndDiscounts(items);
  }

  /** A quote adds up: discount, voucher and cash cover the list price beyond what was paid. */
  lemma QuoteAddsUp(list: int, paid: int, discount: Option<nat>, voucher: Option<nat>)
    requires 0 <= paid <= list
    ensures
      var q := Settlement(list, paid, discount, voucher);
      && q.payable == list - q.discountOff && 0 <= q.discountOff <= list && paid <= q.payable
      && 0 <= q.voucherOff && 0 <= q.cashDue && q.voucherOff + q.cashDue == q.payable - paid
      && (discount.Some? && q.applicable ==> q.discountOff == Min(discount.value, list))
      && (voucher.Some? && q.cashDue > 0 ==> q.voucherOff == voucher.value)
  {
  }

  /** The leg just written covers, with its voucher, what is outstanding. */
  predicate NewLegCovers(a: Account, n: Account) {
    |n.legs| == |a.legs| + 1 && n.legs[|a.legs|].total + VoucherOff(n.legs[|a.legs|].credential) == n.payable - n.paid
  }

  predicate NewLegDeclared(a: Account, n: Account) {
    && |n.legs| == |a.legs| + 1 && n.legs[..|a.legs|] == a.legs && n.legs[|a.legs|].status.LegDeclared?
    && VoucherOff(n.legs[|a.legs|].credential) >= 0
    && (forall j :: 0 <= j < |n.legs| && n.legs[j].status.LegDeclared? ==> j == |a.legs|)
  }

  lemma DeclarePrices(a: Account, off: Option<nat>, voucher: Option<nat>)
    requires Based(a) && Declare(a, off, voucher).Ok? && Declare(a, off, voucher) != Ok(a)
    ensures
      var n := Declare(a, off, voucher).value;
      && Based(n.(paid := a.paid)) && Priced(n)
      && (n.order == Some(Paid) ==> n.paid == n.payable)
      && (n.order == Some(PendingVerify) ==> n.paid == a.paid && NewLegCovers(a, n))
  {
    var base := Listed(a);
    var q := Settlement(base.total, a.paid, off, voucher);
    QuotedPrices(a, 0);
    QuoteAddsUp(base.total, a.paid, off, voucher);
    QuotedPrices(a, q.discountOff);
    hide Sum, Charges, DiscountAmounts, LiveAmounts, WithoutDiscounts, Settlement, Listed, Discounted, Priced,
         DiscountsReduce;
    PricedDependsOn(Discounted(base, q.discountOff), Declare(a, off, voucher).value);
  }

  lemma QuotedPrices(a: Account, off: int)
    requires DiscountsReduce(a.items) && off >= 0
    ensures
      var n := Discounted(Listed(a), off);
      && Priced(n) && n.total == n.payable == Sum(Charges(a.items)) - off && n.discount == off
      && Sum(Charges(n.items)) == Sum(Charges(a.items)) && DiscountsReduce(n.items)
      && n.paid == a.paid && n.legs == a.legs && n.status == a.status && n.order == a.order
  {
    var bare := WithoutDiscounts(a.items);
    DroppedDiscounts(a.items);
    RecomputedPrices(a, bare, 0);
    if off > 0 {
      AddedDiscount(bare, off);
      RecomputedPrices(Listed(a), bare + [Item(Discount, -off, true)], off);
    }
    hide Sum, Charges, DiscountAmounts, LiveAmounts, WithoutDiscounts;
  }

  lemma DeclareKeepsPrices(a: Account, off: Option<nat>, voucher: Option<nat>)
    requires PricesOk(a) && Declare(a, off, voucher).Ok?
    ensures PricesOk(Declare(a, off, voucher).value)
  {
    var n := Declare(a, off, voucher).value;
    if n != a {
      NothingDeclaredIsNone(a.legs);
      DeclarePrices(a, off, voucher);
      DeclaredLegs(a, off, voucher);
      hide Sum, Charges, DiscountAmounts, LiveAmounts, Settlement, Recompute, Declare, Priced;
      if n.order == Some(PendingVerify) {
        OnlyDeclared(n.legs, |a.legs|);
      }
    }
  }

  lemma DeclaredLegs(a: Account, off: Option<nat>, voucher: Option<nat>)
    requires NothingDeclared(a.legs) && UnpaidLegsPositive(a.legs) && Declare(a, off, voucher).Ok?
      && Declare(a, off, voucher) != Ok(a)
    ensures
      var n := Declare(a, off, voucher).value;
      && (a.status.Unpaid? || a.status.Partial?)
      && (n.order == Some(Paid) || n.order == Some(PendingVerify)) && UnpaidLegsPositive(n.legs)
      && (n.order == Some(Paid) ==> NothingDeclared(n.legs) && n.status.Settled?)
      && (n.order == Some(PendingVerify) ==> n.status == a.status && NewLegDeclared(a, n))
  {
    hide Sum, DiscountAmounts, LiveAmounts, WithoutDiscounts;
  }

  // ----- reject, cancel, restore -----

  /** Rejecting a declaration puts the list price back: no discount, and payable is what the other items charge. */
  lemma RejectRestoresListPrice(a: Account, redeemed: bool)
    requires RejectDeclaration(a, redeemed).Ok?
    ensures
      var n := RejectDeclaration(a, redeemed).value;
      && n.total == n.payable == Sum(Charges(a.items)) && n.discount == 0 && Priced(n)
      && Charges(n.items) == Charges(a.items) && Sum(DiscountAmounts(n.items)) == 0
      && n.paid == a.paid && n.ledger == a.ledger && n.order == Some(PendingPayment)
  {
    DroppedDiscounts(a.items);
    LiveIsChargesAndDiscounts(WithoutDiscounts(a.items));
    hide Sum, Charges, DiscountAmounts, LiveAmounts, WithoutDiscounts;
  }

  lemma RejectKeepsPrices(a: Account, redeemed: bool)
    requires PricesOk(a) && RejectDeclaration(a, redeemed).Ok?
    ensures PricesOk(RejectDeclaration(a, redeemed).value)
  {
    RejectRestoresListPrice(a, redeemed);
    DroppedDiscounts(a.items);
    hide Sum, Charges, DiscountAmounts, LiveAmounts, WithoutDiscounts, Priced;
  }

  lemma CloseKeepsPrices(a: Account, op: Op)
    requires op.OpCancelOrder? || op.OpRestore?
    requires PricesOk(a) && Attempt(a, op).Ok?
    ensures PricesOk(Attempt(a, op).value)
  {
    NothingDeclaredIsNone(a.legs);
    DroppedDiscounts(a.items);
    RestoredDiscounts(a.items);
    hide Sum, Charges, DiscountAmounts, LiveAmounts, WithoutDiscounts, WithDiscounts, Priced;
  }

  /** Reopening brings back every discount ever withdrawn but not the prices that went with them: the
      bill is priced by its items again exactly when those discounts came to nothing. */
  lemma RestorePricesExactly(a: Account)
    requires PricesOk(a) && Priced(a) && RestoreOrder(a).Ok?
    ensures Priced(RestoreOrder(a).value) <==> Sum(Withdrawn(a.items)) == 0
  {
    RestoredDiscounts(a.items);
    LiveIsChargesAndDiscounts(WithDiscounts(a.items));
    LiveIsChargesAndDiscounts(a.items);
    hide Sum, Charges, DiscountAmounts, LiveAmounts, WithDiscounts, Withdrawn;
  }

  // ----- every step -----

  lemma OtherStepsKeepPrices(a: Account, op: Op)
    requires op.OpFulfil? || op.OpSettleZero? || op.OpCancelBill? || op.OpMarkOverdue? || op.OpDiscount?
      || op.EnvInvoice?
    requires PricesOk(a) && Attempt(a, op).Ok?
    ensures PricesOk(Attempt(a, op).value)
  {
    hide Sum, Charges, DiscountAmounts, LiveAmounts, WithoutDiscounts, Confirm, Declare, RejectDeclaration,
         UnpaidLegsPositive, DiscountsReduce;
  }

  /** Ledger legs of open orders are fenced off; any other pays in or lapses. */
  lemma LegStepsKeepPrices(a: Account, op: Op)
    requires op.OpVerifyLeg? || op.OpRejectLeg?
    requires PricesOk(a) && Attempt(a, op).Ok?
    ensures PricesOk(Attempt(a, op).value)
  {
    hide Sum, Charges, DiscountAmounts, LiveAmounts, WithoutDiscounts, Confirm, Declare, RejectDeclaration,
         Priced, DiscountsReduce;
  }

  lemma OpenedLegKeepsPrices(a: Account, total: nat)
    requires PricesOk(a) && Attempt(a, EnvOpenLeg(total)).Ok?
    ensures PricesOk(Attempt(a, EnvOpenLeg(total)).value)
  {
    hide Sum, Charges, DiscountAmounts, LiveAmounts, Confirm, Declare, RejectDeclaration, DiscountsReduce;
    if a.order == Some(PendingVerify) {
      OnlyDeclared(Attempt(a, EnvOpenLeg(total)).value.legs, DeclaredLeg(a.legs).value);
    }
  }

  lemma StepKeepsPrices(a: Account, op: Op)
    requires PricesOk(a)
    ensures PricesOk(Apply(a, op))
  {
    hide PricesOk, Confirm, Declare, RejectDeclaration, VerifyLeg, RejectLeg, CancelOrder, RestoreOrder,
         DiscountBill, CancelBill, MarkOverdue, Fulfil, SettleZero;
    if Attempt(a, op).Ok? {
      match op
      case OpConfirm(input, finalizes) => ConfirmKeepsPrices(a, input, finalizes);
      case OpDeclare(off, voucher) => DeclareKeepsPrices(a, off, voucher);
      case OpReject(redeemed) => RejectKeepsPrices(a, redeemed);
      case OpCancelOrder(_) => CloseKeepsPrices(a, op);
      case OpRestore => CloseKeepsPrices(a, op);
      case OpVerifyLeg(_) => LegStepsKeepPrices(a, op);
      case OpRejectLeg(_) => LegStepsKeepPrices(a, op);
      case EnvOpenLeg(total) => OpenedLegKeepsPrices(a, total);
      case _ => OtherStepsKeepPrices(a, op);
    }
  }

  lemma {:induction false} RunKeepsPrices(a: Account, ops: seq<Op>)
    requires PricesOk(a)
    ensures PricesOk(Run(a, ops))
    decreases ops
  {
    if ops != [] {
      StepKeepsPrices(a, ops[0]);
      RunKeepsPrices(Apply(a, ops[0]), ops[1..]);
    }
  }

  lemma NewOrderIsPriced(price: nat, credit: nat)
    ensures PricesOk(NewOrder(price, credit)) && Priced(NewOrder(price, credit))
  {
    hide Sum, Charges, LiveAmounts, DiscountAmounts;
    NewOrderSums(price, credit);
  }

  lemma NewOrderSums(price: nat, credit: nat)
    ensures
      var a := NewOrder(price, credit);
      Sum(Charges(a.items)) == Sum(LiveAmounts(a.items)) == a.total && Sum(DiscountAmounts(a.items)) == 0
  {
    var items := NewOrder(price, credit).items;
    var applied: int := if credit < price then credit else price;
    if applied > 0 {
      SumOfTwo(-applied, price);
      assert Charges(items) == LiveAmounts(items) == [-applied, price];
    } else {
      assert Charges(items) == LiveAmounts(items) == [] + [price];
      SumAppend([], price);
    }
    SumNone(DiscountAmounts(items));
  }

  lemma SumOfTwo(x: int, y: int)
    ensures Sum([x, y]) == x + y
  {
    assert [] + [x] == [x] && [x] + [y] == [x, y];
    SumAppend([], x);
    SumAppend([x], y);
  }

  // ----- while the order is open -----

  /** Open, or closed before any money came in. */
  predicate Unspent(a: Account) {
    InFlight(a) || ((a.order == Some(Cancelled) || a.order == Some(Expired)) && a.paid == 0)
  }

  lemma StepKeepsPriced(a: Account, op: Op)
    requires PricesOk(a) && a.order.Some? && (Unspent(a) ==> Priced(a)) && !op.OpRestore?
    ensures Unspent(Apply(a, op)) ==> Priced(Apply(a, op))
  {
    var n := Apply(a, op);
    if op.OpReject? && Attempt(a, op).Ok? {
      RejectRestoresListPrice(a, op.redeemed);
    } else if op.OpDeclare? && Attempt(a, op).Ok? && n != a {
      DeclarePrices(a, op.discountOff, op.voucher);
    } else if op.OpCancelOrder? && Attempt(a, op).Ok? {
      CancelKeepsPriced(a, op.expired);
    } else {
      SamePricing(a, op);
    }
  }

  lemma CancelKeepsPriced(a: Account, expired: bool)
    requires PricesOk(a) && Priced(a) && Attempt(a, OpCancelOrder(expired)).Ok?
    ensures Priced(Attempt(a, OpCancelOrder(expired)).value)
  {
    NothingDeclaredIsNone(a.legs);
    DroppedDiscounts(a.items);
    LiveIsChargesAndDiscounts(a.items);
    LiveIsChargesAndDiscounts(WithoutDiscounts(a.items));
    hide Sum, Charges, DiscountAmounts, LiveAmounts, WithoutDiscounts;
  }

  /** The remaining steps cannot touch the pricing of an open order, and close none. */
  lemma SamePricing(a: Account, op: Op)
    requires PricesOk(a) && a.order.Some? && (Unspent(a) ==> Priced(a)) && !op.OpRestore?
    requires (op.OpReject? || op.OpCancelOrder?) ==> Attempt(a, op).Err?
    requires op.OpDeclare? ==> Apply(a, op) == a
    ensures Unspent(Apply(a, op)) ==> Priced(Apply(a, op))
  {
    hide Sum, Charges, DiscountAmounts, LiveAmounts, WithoutDiscounts, Declare, RejectDeclaration, CancelOrder, Priced;
    var n := Apply(a, op);
    assert n.items == a.items;
    assert Unspent(n) ==> Unspent(a) && n.total == a.total && n.payable == a.payable && n.discount == a.discount;
    PricedDependsOn(a, n);
  }

  lemma PricedDependsOn(a: Account, n: Account)
    ensures n.items == a.items && n.total == a.total && n.payable == a.payable && n.discount == a.discount ==>
      (Priced(a) ==> Priced(n))
  {
  }

  predicate WithoutRestore(ops: seq<Op>) {
    forall i :: 0 <= i < |ops| ==> !ops[i].OpRestore?
  }

  lemma StepKeepsOrder(a: Account, op: Op)
    requires a.order.Some?
    ensures Apply(a, op).order.Some?
  {
  }

  /** From a new order on, through every endpoint but restore, an open order's bill is priced by its items. */
  lemma {:induction false} OpenOrdersArePriced(a: Account, ops: seq<Op>)
    requires PricesOk(a) && a.order.Some? && (Unspent(a) ==> Priced(a)) && WithoutRestore(ops)
    ensures Unspent(Run(a, ops)) ==> Priced(Run(a, ops))
    decreases ops
  {
    if ops != [] {
      StepKeepsPriced(a, ops[0]);
      StepKeepsPrices(a, ops[0]);
      StepKeepsOrder(a, ops[0]);
      forall i | 0 <= i < |ops[1..]| ensures !ops[1..][i].OpRestore? { assert ops[1..][i] == ops[i + 1]; }
      OpenOrdersArePriced(Apply(a, ops[0]), ops[1..]);
    }
  }

  /** From a new order on, whatever is asked of it: the books balance, the bill's invariant holds, and without
      a restore the open bill is priced by its items. */
  lemma OrdersStaySound(price: nat, credit: nat, ops: seq<Op>)
    ensures BooksOk(Run(NewOrder(price, credit), ops)) && PricesOk(Run(NewOrder(price, credit), ops))
    ensures
      var n := Run(NewOrder(price, credit), ops);
      WithoutRestore(ops) && Unspent(n) ==> Priced(n)
  {
    hide BooksOk, PricesOk, Priced, Unspent, Run, WithoutRestore;
    var a := NewOrder(price, credit);
    assert a.order.Some?;
    NewBillsAreBooked(price, credit, 1);
    NewOrderIsPriced(price, credit);
    hide NewOrder;
    RunKeepsBooks(a, ops);
    RunKeepsPrices(a, ops);
    if WithoutRestore(ops) { OpenOrdersArePriced(a, ops); }
  }

  // ----- a restored order that is not priced by its items -----

  /** A discount declared, rejected, and the order cancelled: the discount row is still there, withdrawn. */
  function Reopened(off: nat): seq<Op> {
    [OpDeclare(Some(off), None), OpReject(false), OpCancelOrder(false), OpRestore]
  }

  lemma RunSplit(a: Account, op: Op, rest: seq<Op>)
    ensures Run(a, [op] + rest) == Run(Apply(a, op), rest)
  {
    assert ([op] + rest)[1..] == rest;
  }

  lemma DeclaredDiscount(price: nat, off: nat)
    requires 0 < off < price
    ensures
      var n := Apply(NewOrder(price, 0), OpDeclare(Some(off), None));
      && n.items == [Item(Fee, price, true), Item(Discount, 0 - off, true)] && n.paid == 0
      && n.order == Some(PendingVerify) && n.status.Unpaid? && |n.legs| == 1 && DeclaredLeg(n.legs) == Some(0)
  {
    var a := NewOrder(price, 0);
    PlainListing(a, price);
    hide Listed, Discounted;
    var n := Declare(a, Some(off), None).value;
    DiscountedItems(Listed(a), off);
    assert n.legs == [n.legs[0]] && n.legs[0].status.LegDeclared?;
  }

  lemma PlainListing(a: Account, price: nat)
    requires a == NewOrder(price, 0)
    ensures Listed(a).total == price && Listed(a).items == [Item(Fee, price, true)] && SameMoney(a, Listed(a))
  {
    assert a.items == [Item(Fee, price, true)] && WithoutDiscounts(a.items) == a.items;
    assert LiveAmounts(a.items) == [] + [price];
    SumAppend([], price);
  }

  lemma DiscountedItems(base: Account, off: int)
    requires off > 0
    ensures Discounted(base, off).items == base.items + [Item(Discount, -off, true)]
  {
  }

  lemma RunFour(a: Account, o1: Op, o2: Op, o3: Op, o4: Op)
    ensures Run(a, [o1, o2, o3, o4]) == Apply(Apply(Apply(Apply(a, o1), o2), o3), o4)
  {
    hide Apply;
    var b := Apply(a, o1);
    var c := Apply(b, o2);
    assert [o1, o2, o3, o4] == [o1] + [o2, o3, o4] && [o2, o3, o4] == [o2] + [o3, o4];
    assert [o3, o4] == [o3] + [o4] && [o4] == [o4] + [];
    RunSplit(a, o1, [o2, o3, o4]);
    RunSplit(b, o2, [o3, o4]);
    RunSplit(c, o3, [o4]);
    RunSplit(Apply(c, o3), o4, []);
  }

  /** Restored, the bill asks the full price while its items come to less. */
  lemma RestoredOrderIsNotPriced(price: nat, off: nat)
    requires 0 < off < price
    ensures
      var n := Run(NewOrder(price, 0), Reopened(off));
      InFlight(n) && n.payable == price && Sum(LiveAmounts(n.items)) == price - off && !Priced(n)
  {
    DeclaredDiscount(price, off);
    hide Apply, Priced, Sum, LiveAmounts, NewOrder, Run;
    RunFour(NewOrder(price, 0), OpDeclare(Some(off), None), OpReject(false), OpCancelOrder(false), OpRestore);
    ClosedAgain(Apply(NewOrder(price, 0), OpDeclare(Some(off), None)), price, off);
  }

  lemma ClosedAgain(a1: Account, price: nat, off: nat)
    requires 0 < off < price && a1.items == [Item(Fee, price, true), Item(Discount, 0 - off, true)] && a1.paid == 0
    requires a1.order == Some(PendingVerify) && a1.status.Unpaid? && |a1.legs| == 1 && DeclaredLeg(a1.legs) == Some(0)
    ensures
      var a4 := Apply(Apply(Apply(a1, OpReject(false)), OpCancelOrder(false)), OpRestore);
      InFlight(a4) && a4.payable == price && Sum(LiveAmounts(a4.items)) == price - off && !Priced(a4)
  {
    var a2 := Apply(a1, OpReject(false));
    RejectRestoresListPrice(a1, false);
    assert Charges(a1.items) == [price, 0];
    SumOfTwo(price, 0);
    NothingDeclaredIsNone(a2.legs);
    var a3 := Apply(a2, OpCancelOrder(false));
    var a4 := Apply(a3, OpRestore);
    assert a4.items == a1.items;
    assert LiveAmounts(a4.items) == [price, 0 - off];
    SumOfTwo(price, 0 - off);
  }
}
