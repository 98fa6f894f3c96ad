/** Which requests a bill accepts, all that an accepted one writes, and the ways from a new order to a paid one. */
module BillingOutcomes {
  import opened Common
  import opened Sums
  import opened Billing
  import opened BillingPrices

  // ----- confirm -----

  predicate NewestDeclared(legs: seq<Leg>, i: int) {
    && 0 <= i < |legs| && legs[i].status.LegDeclared?
    && forall j :: i < j < |legs| ==> !legs[j].status.LegDeclared?
  }

  lemma NewestIsDeclaredLeg(legs: seq<Leg>)
    ensures forall i :: NewestDeclared(legs, i) <==> DeclaredLeg(legs) == Some(i)
    ensures NothingDeclared(legs) <==> DeclaredLeg(legs).None?
  {
  }

  /** No voucher to redeem, or the promotion service redeems it for whoever declared the leg. */
  predicate Redeemable(leg: Leg, finalizes: bool) {
    leg.credential.Some? && (leg.credential.value.discountVoucher || leg.credential.value.creditVoucher) ==>
      finalizes && (leg.credential.value.declaredBy || leg.actor)
  }

  /** An order still to be paid, or paid and to be fulfilled, with a bill that is not void. */
  predicate Confirmable(a: Account) {
    (a.order == Some(PendingPayment) || a.order == Some(PendingVerify) || a.order == Some(Paid)) && a.status != Void
  }

  predicate AlreadyPaid(a: Account) { a.status == Settled || a.order == Some(Paid) }

  /** A confirm is accepted exactly for such an order, and then either changes nothing because the money is in, or
      brings, with all particulars, what is outstanding, or what the newest declaration announced. */
  lemma ConfirmAcceptedExactly(a: Account, input: Payment, finalizes: bool)
    ensures Confirm(a, input, finalizes).Ok? <==>
      && Confirmable(a)
      && (AlreadyPaid(a)
          || (input.complete && input.amount > 0 && a.payable > a.paid
              && (NothingDeclared(a.legs) ==> input.amount == a.payable - a.paid)
              && (forall i :: NewestDeclared(a.legs, i) ==>
                    input.amount == a.legs[i].total && Redeemable(a.legs[i], finalizes))))
  {
    NewestIsDeclaredLeg(a.legs);
    hide DeclaredLeg, Settle, ConfirmedLegs;
    if DeclaredLeg(a.legs).Some? { assert NewestDeclared(a.legs, DeclaredLeg(a.legs).value); }
  }

  /** Nothing but these: legs, ledger, paid, and the two statuses, which move on when the bill is covered. */
  predicate Received(a: Account, n: Account, cash: int, voucher: int) {
    && n == a.(legs := n.legs, ledger := a.ledger + [cash], paid := a.paid + cash + voucher,
               status := n.status, order := n.order)
    && (n.paid >= n.payable ==> n.status == Settled && n.order == Some(Paid))
    && (n.paid < n.payable ==> n.status == Partial && n.order == a.order)
  }

  function CreditOff(leg: Leg): int {
    if leg.credential.Some? && leg.credential.value.creditVoucher && leg.credential.value.voucherOff > 0
    then leg.credential.value.voucherOff else 0
  }

  /** What an accepted confirm writes: an offline leg of its own, or the newest declared leg paid and, where its
      credit voucher takes something off, a voucher leg beside it. */
  lemma ConfirmedExactly(a: Account, input: Payment, finalizes: bool)
    requires Confirm(a, input, finalizes).Ok?
    ensures
      var n := Confirm(a, input, finalizes).value;
      && (AlreadyPaid(a) ==> n == a)
      && (!AlreadyPaid(a) && NothingDeclared(a.legs) ==>
            && Received(a, n, input.amount, 0) && n.paid == n.payable
            && n.legs == a.legs + [Leg(Offline, input.amount, input.amount, LegPaid, None, true)])
      && (forall i :: !AlreadyPaid(a) && NewestDeclared(a.legs, i) ==>
            var off := CreditOff(a.legs[i]);
            && Received(a, n, input.amount, VoucherOff(a.legs[i].credential))
            && n.legs == a.legs[i := a.legs[i].(status := LegPaid, paid := input.amount)]
                       + if off > 0 then [Leg(Voucher, off, off, LegPaid, None, true)] else [])
  {
    NewestIsDeclaredLeg(a.legs);
    hide DeclaredLeg;
    if !AlreadyPaid(a) && DeclaredLeg(a.legs).Some? {
      var i := DeclaredLeg(a.legs).value;
      var flipped := a.legs[i := a.legs[i].(status := LegPaid, paid := input.amount)];
      assert flipped + [] == flipped;
      assert forall j :: NewestDeclared(a.legs, j) ==> j == i;
    }
  }

  /** A new order of positive price, paid offline for that price and with nothing declared, is paid, then fulfilled. */
  lemma NewOrderIsPaid(price: nat, credit: nat, finalizes: bool)
    requires credit < price
    ensures
      var due := price - credit;
      var r := Confirm(NewOrder(price, credit), Payment(due, true), finalizes);
      && r.Ok? && r.value.status == Settled && r.value.order == Some(Paid) && r.value.paid == r.value.payable == due
      && r.value.ledger == [due] && r.value.legs == [Leg(Offline, due, due, LegPaid, None, true)]
      && Fulfil(r.value) == Ok(r.value.(order := Some(Fulfilled)))
  {
    var a, due := NewOrder(price, credit), price - credit;
    assert NothingDeclared(a.legs);
    ConfirmAcceptedExactly(a, Payment(due, true), finalizes);
    ConfirmedExactly(a, Payment(due, true), finalizes);
    hide Confirm;
    assert [] + [due] == [due];
  }

  // ----- declare -----

  /** The list price: what the items other than discounts charge. */
  function ListPrice(a: Account): int { Sum(Charges(a.items)) }

  lemma ListedAtListPrice(a: Account)
    ensures Listed(a).total == ListPrice(a)
  {
    DroppedDiscounts(a.items);
    LiveIsChargesAndDiscounts(WithoutDiscounts(a.items));
    hide Sum, Charges, DiscountAmounts, LiveAmounts, WithoutDiscounts;
  }

  /** A declaration is taken, or answered again, exactly for an open order with an open bill, unless its discount
      would take the price below what was paid; a settled bill is answered as it is. */
  lemma DeclareAcceptedExactly(a: Account, discount: Option<nat>, voucher: Option<nat>)
    ensures Declare(a, discount, voucher).Ok? <==>
      && a.order.Some?
      && (a.status == Settled
          || ((a.order == Some(PendingPayment) || a.order == Some(PendingVerify))
              && (a.status == Unpaid || a.status == Partial)
              && (NothingDeclared(a.legs) && discount.Some? ==>
                    a.paid <= if discount.value <= ListPrice(a) then ListPrice(a) - discount.value else 0)))
    ensures Declare(a, discount, voucher).Ok? && (a.status == Settled || !NothingDeclared(a.legs)) ==>
      Declare(a, discount, voucher) == Ok(a)
  {
    NewestIsDeclaredLeg(a.legs);
    ListedAtListPrice(a);
    hide DeclaredLeg, Listed, Discounted, SettleByVouchers, AwaitVerification, ListPrice;
  }

  function Discounting(a: Account, discount: Option<nat>): int {
    if discount.Some? then Min(discount.value, ListPrice(a)) else 0
  }

  function Covering(voucher: Option<nat>, due: int): int { if voucher.Some? then Min(voucher.value, due) else 0 }

  /** What a declaration that is taken charges and writes: the list price less its discount; the voucher first, then
      cash, which waits for verification, or nothing left, and then the order is paid. */
  lemma DeclaredExactly(a: Account, discount: Option<nat>, voucher: Option<nat>)
    requires Based(a) && NothingDeclared(a.legs) && a.status != Settled && Declare(a, discount, voucher).Ok?
    ensures
      var n, off := Declare(a, discount, voucher).value, Discounting(a, discount);
      var due := ListPrice(a) - off - a.paid;
      var covered := Covering(voucher, due);
      && n.total == n.payable == ListPrice(a) - off && n.discount == off && Priced(n)
      && n.ledger == a.ledger && n.invoiced == a.invoiced
      && (due > covered ==>
            && n.order == Some(PendingVerify) && n.status == a.status && n.paid == a.paid
            && n.legs == a.legs + [Leg(Offline, due - covered, 0, LegDeclared,
                                       Some(Credential(discount.Some?, voucher.Some?, covered, true, false)), true)])
      && (due == covered ==>
            && n.order == Some(Paid) && n.status == Settled && n.paid == n.payable
            && n.legs == a.legs + if covered > 0 then [Leg(Voucher, covered, covered, LegPaid, None, true)] else [])
      && 0 <= covered <= due
  {
    hide Sum, Charges, DeclaredLeg, Listed, Discounted, Priced, Declare, Settlement, DiscountsReduce;
    NewestIsDeclaredLeg(a.legs);
    DeclareAcceptedExactly(a, discount, voucher);
    ListedAtListPrice(a);
    QuoteIs(ListPrice(a), a.paid, discount, voucher);
    DeclareShape(a, discount, voucher, Settlement(ListPrice(a), a.paid, discount, voucher));
    var off := Discounting(a, discount);
    QuotedPrices(a, off);
    PricedDependsOn(Discounted(Listed(a), off), Declare(a, discount, voucher).value);
    assert a.legs + [] == a.legs;
    hide ListPrice;
  }

  lemma QuoteIs(list: int, paid: int, discount: Option<nat>, voucher: Option<nat>)
    requires 0 <= paid <= list
    requires discount.Some? ==> paid <= if discount.value <= list then list - discount.value else 0
    ensures
      var off := if discount.Some? then Min(discount.value, list) else 0;
      var covered := Covering(voucher, list - off - paid);
      && 0 <= covered <= list - off - paid
      && Settlement(list, paid, discount, voucher) == Quote(list - off, off, covered, list - off - paid - covered, true)
  {
  }

  lemma DeclareShape(a: Account, discount: Option<nat>, voucher: Option<nat>, q: Quote)
    requires Declare(a, discount, voucher).Ok? && DeclaredLeg(a.legs).None? && a.status != Settled
    requires q == Settlement(Listed(a).total, a.paid, discount, voucher)
    ensures
      var priced := Discounted(Listed(a), q.discountOff);
      Declare(a, discount, voucher).value ==
        if q.cashDue == 0 then SettleByVouchers(priced, q.voucherOff)
        else AwaitVerification(priced, q.cashDue, Credential(discount.Some?, voucher.Some?, q.voucherOff, true, false))
  {
  }

  /** A new order whose customer declares with a discount and a voucher, confirmed for the cash announced: every step
      is accepted, the books hold cash and voucher, and the order is paid at its discounted price, then fulfilled. */
  lemma DeclaredOrderIsPaid(price: nat, discount: Option<nat>, voucher: Option<nat>)
    ensures
      var off := if discount.Some? then Min(discount.value, price) else 0;
      var covered := if voucher.Some? then Min(voucher.value, price - off) else 0;
      var cash := price - off - covered;
      var declared := Declare(NewOrder(price, 0), discount, voucher);
      && declared.Ok? && declared.value.payable == price - off
      && (cash == 0 ==> declared.value.order == Some(Paid) && declared.value.paid == price - off)
      && (cash > 0 ==>
            var paid := Confirm(declared.value, Payment(cash, true), true);
            && paid.Ok? && paid.value.order == Some(Paid) && paid.value.status == Settled
            && paid.value.paid == paid.value.payable == price - off && paid.value.ledger == [cash]
            && Fulfil(paid.value).Ok?)
  {
    hide Declare, Confirm, NewOrder, ListPrice, Sum, Charges, Priced, Fulfil;
    var a := NewOrder(price, 0);
    FreshOrder(price);
    DeclareAcceptedExactly(a, discount, voucher);
    DeclaredExactly(a, discount, voucher);
    var d := Declare(a, discount, voucher).value;
    var off := Discounting(a, discount);
    var cash := price - off - Covering(voucher, price - off);
    if cash > 0 {
      AnnouncedCashIsTaken(d, |a.legs|, cash);
    }
  }

  lemma FreshOrder(price: nat)
    ensures
      var a := NewOrder(price, 0);
      && Based(a) && NothingDeclared(a.legs) && a.order == Some(PendingPayment) && a.status == Unpaid
      && a.paid == 0 && a.ledger == [] && a.legs == [] && ListPrice(a) == price
  {
    NewOrderIsPriced(price, 0);
    NewOrderSums(price, 0);
    hide Sum, Charges;
  }

  /** A declared order with an empty ledger, confirmed for what its one declared leg announces. */
  lemma AnnouncedCashIsTaken(d: Account, i: nat, cash: int)
    requires d.order == Some(PendingVerify) && d.status == Unpaid && d.ledger == [] && cash > 0
    requires OneDeclared(d, i) && d.legs[i].total == cash && Redeemable(d.legs[i], true)
    ensures
      var paid := Confirm(d, Payment(cash, true), true);
      && paid.Ok? && paid.value.order == Some(Paid) && paid.value.status == Settled
      && paid.value.paid == paid.value.payable == d.payable && paid.value.ledger == [cash] && Fulfil(paid.value).Ok?
  {
    hide Confirm;
    assert NewestDeclared(d.legs, i) && forall j :: NewestDeclared(d.legs, j) ==> j == i;
    ConfirmAcceptedExactly(d, Payment(cash, true), true);
    ConfirmedExactly(d, Payment(cash, true), true);
    assert [] + [cash] == [cash];
  }

  // ----- reject -----

  /** A declaration is rejected exactly while its order waits for verification and none of its vouchers is redeemed;
      its leg fails and its credential is released. */
  lemma RejectedExactly(a: Account, redeemed: bool)
    ensures RejectDeclaration(a, redeemed).Ok? <==>
      && a.order == Some(PendingVerify) && !NothingDeclared(a.legs)
      && (forall i :: NewestDeclared(a.legs, i) ==> !(redeemed && Redeems(a.legs[i].credential)))
    ensures forall i :: RejectDeclaration(a, redeemed).Ok? && NewestDeclared(a.legs, i) ==>
      var n, c := RejectDeclaration(a, redeemed).value, a.legs[i].credential;
      && n.order == Some(PendingPayment) && n.paid == a.paid && n.ledger == a.ledger && n.invoiced == a.invoiced
      && n.status == a.status
      && n.legs == a.legs[i := a.legs[i].(status := LegFailed, credential := n.legs[i].credential)]
      && n.legs[i].credential == (if c.Some? then Some(c.value.(released := true)) else None)
  {
    NewestIsDeclaredLeg(a.legs);
    hide DeclaredLeg, Sum, LiveAmounts, DiscountAmounts, WithoutDiscounts;
    if DeclaredLeg(a.legs).Some? { assert NewestDeclared(a.legs, DeclaredLeg(a.legs).value); }
  }

  // ----- cancel and reopen, fulfil -----

  /** Each discount row is live, or each is withdrawn; the other items are as they were. */
  predicate DiscountsAre(items: seq<Item>, after: seq<Item>, live: bool) {
    && |after| == |items|
    && forall i :: 0 <= i < |items| ==>
         after[i] == if items[i].kind == Discount then items[i].(live := live) else items[i]
  }

  lemma OrderStepsExactly(a: Account, closed: OrderStatus)
    ensures
      var r := CancelOrder(a, closed);
      && (r.Ok? <==> (a.order == Some(PendingPayment) || a.order == Some(PendingVerify)) && a.status != Settled
                     && a.paid <= 0 && NothingDeclared(a.legs))
      && (r.Ok? ==> DiscountsAre(a.items, r.value.items, false)
                    && r.value == a.(items := r.value.items, status := Void, order := Some(closed)))
    ensures
      var r := RestoreOrder(a);
      && (r.Ok? <==> (a.order == Some(Cancelled) || a.order == Some(Expired)) && a.paid <= 0)
      && (r.Ok? ==> DiscountsAre(a.items, r.value.items, true)
                    && r.value == a.(items := r.value.items, status := Unpaid, order := Some(PendingPayment)))
    ensures
      var r := SettleZero(a);
      && (r.Ok? <==> a.order == Some(PendingPayment) && a.payable == 0)
      && (r.Ok? ==> r.value == a.(status := r.value.status, order := Some(Paid))
                    && r.value.status == if a.status == Unpaid || a.status == Partial then Settled else a.status)
    ensures
      var r := Fulfil(a);
      && (r.Ok? <==> a.order == Some(Paid) || a.order == Some(Fulfilled))
      && (r.Ok? ==> r.value == a.(order := Some(Fulfilled)))
  {
    NewestIsDeclaredLeg(a.legs);
  }

  /** An unpaid order with no withdrawn discount that is cancelled and reopened is what it was. */
  lemma CancelThenRestore(a: Account, closed: OrderStatus)
    requires a.order == Some(PendingPayment) && a.status == Unpaid && closed in {Cancelled, Expired}
    requires CancelOrder(a, closed).Ok? && DiscountsAre(a.items, a.items, true)
    ensures RestoreOrder(CancelOrder(a, closed).value) == Ok(a)
  {
    OrderStepsExactly(a, closed);
    OrderStepsExactly(CancelOrder(a, closed).value, closed);
    var back := RestoreOrder(CancelOrder(a, closed).value).value;
    assert back.items == a.items;
  }

  // ----- ledger and bill actions -----

  predicate OrderOpen(a: Account) {
    a.order == Some(PendingPayment) || a.order == Some(PendingVerify) || a.order == Some(Paid)
  }

  predicate Waiting(a: Account, i: nat) {
    i < |a.legs| && (a.legs[i].status == LegPending || a.legs[i].status == LegDeclared)
  }

  /** Ledger verify and reject act exactly on a leg that waits, of a bill with no open order: its whole amount comes
      in, or nothing does. */
  lemma LegActionsExactly(a: Account, i: nat)
    ensures VerifyLeg(a, i).Ok? <==> Waiting(a, i) && !OrderOpen(a)
    ensures RejectLeg(a, i).Ok? <==> Waiting(a, i) && !OrderOpen(a)
    ensures VerifyLeg(a, i).Ok? ==>
      var n, total := VerifyLeg(a, i).value, a.legs[i].total;
      && n == a.(legs := a.legs[i := a.legs[i].(status := LegPaid, paid := total)], ledger := a.ledger + [total],
                 paid := a.paid + total, status := n.status)
      && n.status == if n.paid >= n.payable then Settled else Partial
    ensures RejectLeg(a, i).Ok? ==>
      RejectLeg(a, i).value == a.(legs := a.legs[i := a.legs[i].(status := LegFailed)])
  {
  }

  /** A bill with no open order is cancelled exactly while nothing was paid or invoiced, marked overdue exactly while
      neither void nor settled, and discounted exactly by a positive amount that is one cent or leaves payable at
      most one cent below what was paid or invoiced, or below zero. */
  lemma BillActionsExactly(a: Account, x: int)
    ensures CancelBill(a).Ok? <==> !OrderOpen(a) && a.status != Void && a.paid <= 0 && a.invoiced <= 0
    ensures CancelBill(a).Ok? ==> CancelBill(a).value == a.(status := Void)
    ensures MarkOverdue(a).Ok? <==> !OrderOpen(a) && a.status != Void && a.status != Settled
    ensures MarkOverdue(a).Ok? ==> MarkOverdue(a).value == a.(status := BillStatus.Overdue)
    ensures DiscountBill(a, x).Ok? <==>
      && !OrderOpen(a) && a.status != Void && x > 0
      && (x == 1 || (a.payable - x >= -1 && a.payable - x >= a.paid - 1 && a.payable - x >= a.invoiced - 1))
    ensures DiscountBill(a, x).Ok? ==>
      DiscountBill(a, x).value == a.(discount := a.discount + x, payable := a.payable - x)
  {
  }

  /** What a new order and a new exception bill ask for. */
  lemma NewBillsAskFor(price: nat, credit: nat, amount: int)
    ensures
      var a := NewOrder(price, credit);
      && a.total == a.payable == (if credit < price then price - credit else 0) && a.discount == 0
      && a.order == Some(PendingPayment) && a.status == Unpaid && a.paid == 0
    ensures amount > 0 ==>
      var a := ExceptionBill(amount).value;
      a.total == a.payable == amount && a.discount == 0 && a.order == None && a.status == Unpaid && a.paid == 0
  {
  }
}
