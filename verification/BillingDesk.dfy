/** The rows of one bill as the order, payment and billing routers change them, statement by statement. */
module BillingDesk {
  import opened Common
  import opened Sums
  import opened Billing
  import opened BillingRetries

  class BillRows {
    var order: Option<OrderStatus>
    var total: int
    var discount: int
    var payable: int
    var paid: int
    var invoiced: int
    var status: BillStatus
    var items: seq<Item>
    var legs: seq<Leg>
    var ledger: seq<int>

    function State(): Account
      reads this
    {
      Account(order, total, discount, payable, paid, invoiced, status, items, legs, ledger)
    }

    constructor (a: Account)
      ensures State() == a
    {
      order, total, discount, payable, paid, invoiced := a.order, a.total, a.discount, a.payable, a.paid, a.invoiced;
      status, items, legs, ledger := a.status, a.items, a.legs, a.ledger;
    }

    /** `ROLLBACK` */
    method Restore(a: Account)
      modifies this
      ensures State() == a
    {
      order, total, discount, payable, paid, invoiced := a.order, a.total, a.discount, a.payable, a.paid, a.invoiced;
      status, items, legs, ledger := a.status, a.items, a.legs, a.ledger;
    }

    /** Both stages; the second runs in its own transaction and may fail after the first is committed. */
    method ConfirmOfflinePayment(r: Request) returns (refusal: Option<Error>)
      modifies this
      ensures State() == Serve(old(State()), r)
      ensures refusal == None <==>
        var first := Confirm(old(State()), r.input, r.finalizes);
        first.Ok? && (StageOneDone(first.value) ==> r.fulfils && Fulfil(first.value).Ok?)
    {
      hide Confirm;
      refusal := ConfirmStageOne(r.input, r.finalizes);
      if refusal == None && (status.Settled? || order == Some(Paid)) {
        if !r.fulfils { return Some(Invalid); }
        if order != Some(Paid) && order != Some(Fulfilled) { return Some(Conflict); }
        order := Some(Fulfilled);
      }
    }

    method ConfirmStageOne(input: Payment, finalizes: bool) returns (refusal: Option<Error>)
      modifies this
      ensures Ended(old(State()), Confirm(old(State()), input, finalizes), State(), refusal)
    {
      hide ConfirmDeclared, Settle;
      if order.None? { return Some(NotFound); }
      if order != Some(PendingPayment) && order != Some(PendingVerify)
         && order != Some(Paid) { return Some(BadRequest); }
      if status.Void? { return Some(BadRequest); }
      if status.Settled? || order == Some(Paid) { return None; }
      if input.amount <= 0 || !input.complete { return Some(BadRequest); }
      var remaining := payable - paid;
      if remaining <= 0 { return Some(BadRequest); }
      var declared := DeclaredLeg(legs);
      if declared.Some? {
        refusal := ConfirmDeclaredLeg(declared.value, input.amount, finalizes);
      } else {
        if input.amount != remaining { return Some(BadRequest); }
        ledger := ledger + [input.amount];
        legs := legs + [Leg(Offline, input.amount, input.amount, LegPaid, None, true)];
        WriteBack(input.amount, 0);
        WriteOrder(old(State()), legs, input.amount);
        refusal := None;
      }
    }

    /** The declared leg is flipped, its vouchers are finalized, and the bill takes both amounts. */
    method ConfirmDeclaredLeg(i: nat, amount: int, finalizes: bool) returns (refusal: Option<Error>)
      requires i < |legs|
      modifies this
      ensures Ended(old(State()), ConfirmDeclared(old(State()), i, amount, finalizes), State(), refusal)
    {
      hide Settle;
      if amount != legs[i].total { return Some(BadRequest); }
      var before := State();
      var credential := legs[i].credential;
      var voucherOff := VoucherOff(credential);
      ledger := ledger + [amount];
      legs := legs[i := legs[i].(status := LegPaid, paid := amount)];
      if credential.Some? {
        if credential.value.creditVoucher && voucherOff > 0 {
          legs := legs + [Leg(Voucher, voucherOff, voucherOff, LegPaid, None, true)];
        }
        if Redeems(credential) && !credential.value.declaredBy && !before.legs[i].actor {
          Restore(before);
          return Some(BadRequest);
        }
        if Redeems(credential) && !finalizes {
          Restore(before);
          return Some(Invalid);
        }
      }
      assert legs == ConfirmedLegs(before.legs, i, amount);
      WriteBack(amount, voucherOff);
      WriteOrder(before, legs, amount);
      refusal := None;
    }

    /** The bill takes the cash and what the voucher covers; an order paid in full moves on. */
    method WriteBack(cash: int, voucherOff: int)
      modifies `paid, `status, `order
      ensures State() == Settle(old(State()).(ledger := []), legs, cash, voucherOff).(ledger := ledger)
    {
      var newPaid := paid + cash + voucherOff;
      var fullySettled := newPaid >= payable;
      paid := newPaid;
      status := if fullySettled then Settled else Partial;
      if fullySettled { order := Some(Paid); }
    }

    method RejectPaymentDeclaration(redeemed: bool) returns (refusal: Option<Error>)
      modifies this
      ensures Ended(old(State()), RejectDeclaration(old(State()), redeemed), State(), refusal)
    {
      if order.None? { return Some(NotFound); }
      if order != Some(PendingVerify) { return Some(BadRequest); }
      var declared := DeclaredLeg(legs);
      if declared.None? { return Some(BadRequest); }
      var i := declared.value;
      if Redeems(legs[i].credential) && redeemed { return Some(BadRequest); }
      legs := legs[i := legs[i].(status := LegFailed)];
      items := WithoutDiscounts(items);
      total := Sum(LiveAmounts(items));
      payable, discount := total, Abs(Sum(DiscountAmounts(items)));
      if legs[i].credential.Some? {
        legs := legs[i := legs[i].(credential := Some(legs[i].credential.value.(released := true)))];
      }
      assert legs == old(legs)[i := Rejected(old(legs[i]))];
      order := Some(PendingPayment);
      refusal := None;
    }

    /** The new bill stands alone; the one it was asked on is not touched. */
    method CreateExceptionBill(amount: int) returns (bill: Option<BillRows>)
      ensures bill.Some? <==> amount > 0
      ensures bill.Some? ==> fresh(bill.value) && ExceptionBill(amount) == Ok(bill.value.State())
    {
      if amount <= 0 { return None; }
      var rows := new BillRows(ExceptionBill(amount).value);
      bill := Some(rows);
    }
  }

  /** Writing the legs and the ledger before the bill comes to the same as writing them with it. */
  lemma WriteOrder(a: Account, legs: seq<Leg>, cash: int)
    ensures forall off :: Settle(a.(legs := legs, ledger := []), legs, cash, off).(ledger := a.ledger + [cash])
                 == Settle(a, legs, cash, off)
  {
  }
}
