/**
 * One bill with its items, payment legs and ledger, and the order it belongs to if any; what the order,
 * payment and billing routers do to it, and what the order service does in between. Amounts in cents.
 */
module Billing {
  import opened Common
  import opened Sums

  datatype OrderStatus = PendingPayment | PendingVerify | Paid | Fulfilled | Cancelled | Expired

  datatype BillStatus = Unpaid | Partial | Settled | Overdue | Void

  datatype ItemKind = Fee | CreditAdjustment | Discount

  datatype Item = Item(kind: ItemKind, amount: int, live: bool)

  datatype Source = Online | Offline | Voucher

  datatype LegStatus = LegPending | LegDeclared | LegPaid | LegFailed

  /** The settlement credential of a declared leg, as `parseLegCredential` reads it. */
  datatype Credential = Credential(discountVoucher: bool, creditVoucher: bool, voucherOff: int,
    declaredBy: bool, released: bool)

  datatype Leg = Leg(source: Source, total: int, paid: int, status: LegStatus,
    credential: Option<Credential>, actor: bool)

  datatype Account = Account(
    order: Option<OrderStatus>, total: int, discount: int, payable: int, paid: int, invoiced: int,
    status: BillStatus, items: seq<Item>, legs: seq<Leg>, ledger: seq<int>)

  // ----- prices -----

  function LiveAmounts(items: seq<Item>): seq<int> {
    seq(|items|, i requires 0 <= i < |items| => if items[i].live then items[i].amount else 0)
  }

  function DiscountAmounts(items: seq<Item>): seq<int> {
    seq(|items|, i requires 0 <= i < |items| => if items[i].live && items[i].kind.Discount? then items[i].amount else 0)
  }

  /** Total, payable and discount mirrored from the live items. */
  function Recompute(a: Account): Account {
    var total := Sum(LiveAmounts(a.items));
    a.(total := total, payable := total, discount := Abs(Sum(DiscountAmounts(a.items))))
  }

  function WithoutDiscounts(items: seq<Item>): seq<Item> {
    seq(|items|, i requires 0 <= i < |items| => if items[i].kind.Discount? then items[i].(live := false) else items[i])
  }

  function WithDiscounts(items: seq<Item>): seq<Item> {
    seq(|items|, i requires 0 <= i < |items| => if items[i].kind.Discount? then items[i].(live := true) else items[i])
  }

  // ----- the order service -----

  /** A new order: list price, less the credit of the plan it replaces. */
  function NewOrder(price: nat, credit: nat): Account {
    var applied := if credit < price then credit else price;
    var items := (if applied > 0 then [Item(CreditAdjustment, -applied, true)] else []) + [Item(Fee, price, true)];
    Account(Some(PendingPayment), price - applied, 0, price - applied, 0, 0, Unpaid, items, [], [])
  }

  datatype Quote = Quote(payable: int, discountOff: int, voucherOff: int, cashDue: int, applicable: bool)

  function Min(x: int, y: int): int { if x < y then x else y }

  function Max(x: int, y: int): int { if x < y then y else x }

  /** List price less discount is payable; the voucher covers at most what is outstanding. */
  function Settlement(list: int, paid: int, discount: Option<nat>, voucher: Option<nat>): Quote {
    var off := if discount.Some? then Min(discount.value, list) else 0;
    var applicable := discount.None? || list - off >= paid;
    var discountOff := if applicable then off else 0;
    var outstanding := Max(0, list - discountOff - paid);
    var voucherOff := Min(if voucher.Some? then voucher.value else 0, outstanding);
    Quote(list - discountOff, discountOff, voucherOff, Max(0, outstanding - voucherOff), applicable)
  }

  /** The newest leg the customer declared and nobody has confirmed or rejected yet. */
  function DeclaredLeg(legs: seq<Leg>): (r: Option<nat>)
    ensures r.Some? ==> r.value < |legs| && legs[r.value].status.LegDeclared?
    ensures forall j :: (if r.Some? then r.value else -1) < j < |legs| ==> !legs[j].status.LegDeclared?
  {
    if legs == [] then None
    else if legs[|legs| - 1].status.LegDeclared? then Some(|legs| - 1)
    else DeclaredLeg(legs[..|legs| - 1])
  }

  /** Pricing a bill moves no money. */
  predicate SameMoney(a: Account, n: Account) {
    && n.legs == a.legs && n.ledger == a.ledger && n.paid == a.paid && n.invoiced == a.invoiced
    && n.status == a.status && n.order == a.order
  }

  function Listed(a: Account): (n: Account)
    ensures SameMoney(a, n)
  {
    Recompute(a.(items := WithoutDiscounts(a.items)))
  }

  function Discounted(base: Account, off: int): (n: Account)
    ensures SameMoney(base, n)
  {
    if off > 0 then Recompute(base.(items := base.items + [Item(Discount, -off, true)])) else base
  }

  /** The customer declares a payment, or settles in full with vouchers. */
  function Declare(a: Account, discount: Option<nat>, voucher: Option<nat>): Result<Account> {
    if a.order.None? then Err(NotFound)
    else if a.status.Settled? then Ok(a)
    else if a.order.value != PendingPayment && a.order.value != PendingVerify then Err(Conflict)
    else if !a.status.Unpaid? && !a.status.Partial? then Err(Conflict)
    else if DeclaredLeg(a.legs).Some? then Ok(a)
    else
      var base := Listed(a);
      var q := Settlement(base.total, a.paid, discount, voucher);
      if !q.applicable then Err(Conflict)
      else
        var priced := Discounted(base, q.discountOff);
        Ok(if q.cashDue == 0 then SettleByVouchers(priced, q.voucherOff)
           else AwaitVerification(priced, q.cashDue,
                                   Credential(discount.Some?, voucher.Some?, q.voucherOff, true, false)))
  }

  function SettleByVouchers(a: Account, voucherOff: int): Account {
    a.(legs := if voucherOff > 0 then a.legs + [Leg(Voucher, voucherOff, voucherOff, LegPaid, None, true)] else a.legs,
       paid := a.paid + voucherOff, status := Settled, order := Some(Paid))
  }

  function AwaitVerification(a: Account, cashDue: int, credential: Credential): Account {
    a.(legs := a.legs + [Leg(Offline, cashDue, 0, LegDeclared, Some(credential), true)], order := Some(PendingVerify))
  }

  /** An automatic renewal at price zero: its order is paid without a leg. */
  function SettleZero(a: Account): Result<Account> {
    if a.order != Some(PendingPayment) || a.payable != 0 then Err(Conflict)
    else Ok(a.(status := if a.status.Unpaid? || a.status.Partial? then Settled else a.status, order := Some(Paid)))
  }

  function CancelOrder(a: Account, closed: OrderStatus): Result<Account> {
    if a.order != Some(PendingPayment) && a.order != Some(PendingVerify) then Err(Conflict)
    else if a.status.Settled? || a.paid > 0 then Err(Conflict)
    else if DeclaredLeg(a.legs).Some? then Err(Conflict)
    else Ok(a.(items := WithoutDiscounts(a.items), status := Void, order := Some(closed)))
  }

  function RestoreOrder(a: Account): Result<Account> {
    if a.order != Some(Cancelled) && a.order != Some(Expired) then Err(Conflict)
    else if a.paid > 0 then Err(Conflict)
    else Ok(a.(items := WithDiscounts(a.items), status := Unpaid, order := Some(PendingPayment)))
  }

  /** Stage two of a confirm: the subscription side, in a transaction of its own. */
  function Fulfil(a: Account): Result<Account> {
    if a.order == Some(Fulfilled) then Ok(a)
    else if a.order != Some(Paid) then Err(Conflict)
    else Ok(a.(order := Some(Fulfilled)))
  }

  // ----- orders router: confirm and reject -----

  /** The request body: an amount, and whether its other fields pass `normalizeOfflinePaymentBody`. */
  datatype Payment = Payment(amount: int, complete: bool)

  predicate StageOneDone(a: Account) { a.status.Settled? || a.order == Some(Paid) }

  predicate Redeems(c: Option<Credential>) { c.Some? && (c.value.discountVoucher || c.value.creditVoucher) }

  function VoucherOff(c: Option<Credential>): int { if c.Some? then c.value.voucherOff else 0 }

  /** Stage one of a confirm. `finalizes`: the promotion service accepts the redemption. */
  function Confirm(a: Account, input: Payment, finalizes: bool): Result<Account> {
    if a.order.None? then Err(NotFound)
    else if !(a.order.value.PendingPayment? || a.order.value.PendingVerify? || a.order.value.Paid?) then Err(BadRequest)
    else if a.status.Void? then Err(BadRequest)
    else if StageOneDone(a) then Ok(a)
    else if input.amount <= 0 || !input.complete then Err(BadRequest)
    else if a.payable - a.paid <= 0 then Err(BadRequest)
    else
      match DeclaredLeg(a.legs)
      case None =>
        if input.amount != a.payable - a.paid then Err(BadRequest)
        else Ok(Settle(a, a.legs + [Leg(Offline, input.amount, input.amount, LegPaid, None, true)], input.amount, 0))
      case Some(i) => ConfirmDeclared(a, i, input.amount, finalizes)
  }

  function ConfirmDeclared(a: Account, i: nat, amount: int, finalizes: bool): Result<Account>
    requires i < |a.legs|
  {
    if amount != a.legs[i].total then Err(BadRequest)
    else
      var c := a.legs[i].credential;
      if Redeems(c) && !c.value.declaredBy && !a.legs[i].actor then Err(BadRequest)
      else if Redeems(c) && !finalizes then Err(Invalid)
      else Ok(Settle(a, ConfirmedLegs(a.legs, i, amount), amount, VoucherOff(c)))
  }

  function ConfirmedLegs(legs: seq<Leg>, i: nat, amount: int): seq<Leg>
    requires i < |legs|
  {
    var c := legs[i].credential;
    var flipped := legs[i := legs[i].(status := LegPaid, paid := amount)];
    if c.Some? && c.value.creditVoucher && c.value.voucherOff > 0
    then flipped + [Leg(Voucher, c.value.voucherOff, c.value.voucherOff, LegPaid, None, true)]
    else flipped
  }

  function Settle(a: Account, legs: seq<Leg>, cash: int, voucherOff: int): Account {
    var paid := a.paid + cash + voucherOff;
    a.(legs := legs, ledger := a.ledger + [cash], paid := paid,
       status := if paid >= a.payable then Settled else Partial,
       order := if paid >= a.payable then Some(Paid) else a.order)
  }

  /** `redeemed`: a redemption row already exists for a voucher of the credential. */
  function RejectDeclaration(a: Account, redeemed: bool): Result<Account> {
    if a.order.None? then Err(NotFound)
    else if a.order.value != PendingVerify then Err(BadRequest)
    else
      match DeclaredLeg(a.legs)
      case None => Err(BadRequest)
      case Some(i) =>
        if Redeems(a.legs[i].credential) && redeemed then Err(BadRequest)
        else Ok(Recompute(a.(legs := a.legs[i := Rejected(a.legs[i])],
                           items := WithoutDiscounts(a.items), order := Some(PendingPayment))))
  }

  function Rejected(leg: Leg): Leg {
    leg.(status := LegFailed,
         credential := if leg.credential.Some? then Some(leg.credential.value.(released := true)) else None)
  }

  // ----- payments router: ledger verify and reject -----

  /** `assertNotInFlightOrderBill` */
  predicate InFlight(a: Account) {
    a.order == Some(PendingPayment) || a.order == Some(PendingVerify) || a.order == Some(Paid)
  }

  function VerifyLeg(a: Account, i: nat): Result<Account> {
    if i >= |a.legs| then Err(NotFound)
    else if !a.legs[i].status.LegPending? && !a.legs[i].status.LegDeclared? then Err(BadRequest)
    else if InFlight(a) then Err(Conflict)
    else
      var amount := a.legs[i].total;
      Ok(a.(legs := a.legs[i := a.legs[i].(status := LegPaid, paid := amount)], ledger := a.ledger + [amount],
            paid := a.paid + amount, status := if a.paid + amount >= a.payable then Settled else Partial))
  }

  function RejectLeg(a: Account, i: nat): Result<Account> {
    if i >= |a.legs| then Err(NotFound)
    else if !a.legs[i].status.LegPending? && !a.legs[i].status.LegDeclared? then Err(BadRequest)
    else if InFlight(a) then Err(Conflict)
    else Ok(a.(legs := a.legs[i := a.legs[i].(status := LegFailed)]))
  }

  // ----- billing router: actions and discount -----

  function CancelBill(a: Account): Result<Account> {
    if InFlight(a) then Err(Conflict)
    else if a.status.Void? || a.paid > 0 || a.invoiced > 0 then Err(Conflict)
    else Ok(a.(status := Void))
  }

  function MarkOverdue(a: Account): Result<Account> {
    if InFlight(a) then Err(Conflict)
    else if a.status.Void? || a.status.Settled? then Err(Conflict)
    else Ok(a.(status := Overdue))
  }

  /** A free-standing adjustment or supplement bill. */
  function ExceptionBill(amount: int): Result<Account> {
    if amount <= 0 then Err(BadRequest)
    else Ok(Account(None, amount, 0, amount, 0, 0, Unpaid, [Item(CreditAdjustment, amount, true)], [], []))
  }

  function MaxDiscount(a: Account): int { Max(0, Min(a.payable, Min(a.payable - a.paid, a.payable - a.invoiced))) }

  const TOLERANCE := 1

  function DiscountBill(a: Account, amount: int): Result<Account> {
    if InFlight(a) || a.status.Void? then Err(Conflict)
    else if amount <= 0 || amount > MaxDiscount(a) + TOLERANCE then Err(BadRequest)
    else Ok(a.(discount := a.discount + amount, payable := a.payable - amount))
  }

  // ----- runs -----

  /** Requests to the three routers, steps of the order service, and two things that happen outside:
      a payment attempt opens a leg, and receipts change the invoiced amount. */
  datatype Op =
    | OpConfirm(input: Payment, finalizes: bool)
    | OpFulfil
    | OpReject(redeemed: bool)
    | OpVerifyLeg(leg: nat)
    | OpRejectLeg(leg: nat)
    | OpCancelBill
    | OpMarkOverdue
    | OpDiscount(amount: int)
    | OpDeclare(discountOff: Option<nat>, voucher: Option<nat>)
    | OpSettleZero
    | OpCancelOrder(expired: bool)
    | OpRestore
    | EnvOpenLeg(total: nat)
    | EnvInvoice(invoiced: nat)

  function Attempt(a: Account, op: Op): Result<Account> {
    match op
    case OpConfirm(input, finalizes) => Confirm(a, input, finalizes)
    case OpFulfil => Fulfil(a)
    case OpReject(redeemed) => RejectDeclaration(a, redeemed)
    case OpVerifyLeg(i) => VerifyLeg(a, i)
    case OpRejectLeg(i) => RejectLeg(a, i)
    case OpCancelBill => CancelBill(a)
    case OpMarkOverdue => MarkOverdue(a)
    case OpDiscount(amount) => DiscountBill(a, amount)
    case OpDeclare(off, voucher) => Declare(a, off, voucher)
    case OpSettleZero => SettleZero(a)
    case OpCancelOrder(expired) => CancelOrder(a, if expired then Expired else Cancelled)
    case OpRestore => RestoreOrder(a)
    case EnvOpenLeg(total) =>
      if total == 0 then Err(BadRequest)
      else Ok(a.(legs := a.legs + [Leg(Online, total, 0, LegPending, None, true)]))
    case EnvInvoice(invoiced) => Ok(a.(invoiced := invoiced))
  }

  function Apply(a: Account, op: Op): Account {
    match Attempt(a, op)
    case Ok(next) => next
    case Err(_) => a
  }

  function Run(a: Account, ops: seq<Op>): Account
    decreases ops
  {
    if ops == [] then a else Run(Apply(a, ops[0]), ops[1..])
  }
}
