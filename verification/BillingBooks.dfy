/** Money is conserved: what a bill says was paid, its paid legs and its ledger agree. */
module BillingBooks {
  import opened Common
  import opened Sums
  import opened Billing

  // ----- the books -----

  function Received(leg: Leg): int { if leg.status.LegPaid? then leg.paid else 0 }

  function ByVoucher(leg: Leg): int { if leg.source.Voucher? then Received(leg) else 0 }

  function Receipts(legs: seq<Leg>): seq<int> { seq(|legs|, i requires 0 <= i < |legs| => Received(legs[i])) }

  function VoucherReceipts(legs: seq<Leg>): seq<int> { seq(|legs|, i requires 0 <= i < |legs| => ByVoucher(legs[i])) }

  /** Paid is the sum of the paid legs, and the ledger holds all of it but the voucher legs. */
  predicate Booked(a: Account) {
    && a.paid == Sum(Receipts(a.legs))
    && Sum(a.ledger) == a.paid - Sum(VoucherReceipts(a.legs))
  }

  /** Voucher legs are written paid; nothing else waits on a voucher. */
  predicate VouchersSettled(legs: seq<Leg>) {
    forall i :: 0 <= i < |legs| ==> (legs[i].source.Voucher? ==> legs[i].status.LegPaid?)
  }

  /** A credential takes off nothing, or a positive amount backed by a credit voucher. */
  predicate Backed(c: Option<Credential>) {
    VoucherOff(c) == 0 || (c.value.creditVoucher && c.value.voucherOff > 0)
  }

  predicate DeclaredBacked(legs: seq<Leg>) {
    forall i :: 0 <= i < |legs| && legs[i].status.LegDeclared? ==> Backed(legs[i].credential)
  }

  lemma AppendedLeg(legs: seq<Leg>, leg: Leg)
    ensures Sum(Receipts(legs + [leg])) == Sum(Receipts(legs)) + Received(leg)
    ensures Sum(VoucherReceipts(legs + [leg])) == Sum(VoucherReceipts(legs)) + ByVoucher(leg)
  {
    assert Receipts(legs + [leg]) == Receipts(legs) + [Received(leg)];
    assert VoucherReceipts(legs + [leg]) == VoucherReceipts(legs) + [ByVoucher(leg)];
    SumAppend(Receipts(legs), Received(leg));
    SumAppend(VoucherReceipts(legs), ByVoucher(leg));
  }

  lemma UpdatedLeg(legs: seq<Leg>, i: nat, leg: Leg)
    requires i < |legs|
    ensures Sum(Receipts(legs[i := leg])) == Sum(Receipts(legs)) - Received(legs[i]) + Received(leg)
    ensures Sum(VoucherReceipts(legs[i := leg])) == Sum(VoucherReceipts(legs)) - ByVoucher(legs[i]) + ByVoucher(leg)
  {
    assert Receipts(legs[i := leg]) == Receipts(legs)[i := Received(leg)];
    assert VoucherReceipts(legs[i := leg]) == VoucherReceipts(legs)[i := ByVoucher(leg)];
    SumUpdate(Receipts(legs), i, Received(leg));
    SumUpdate(VoucherReceipts(legs), i, ByVoucher(leg));
  }

  /** What confirming a declared leg adds: its cash, and the voucher leg when one is written. */
  lemma ConfirmedLegSums(legs: seq<Leg>, i: nat, amount: int)
    requires i < |legs| && legs[i].status.LegDeclared? && !legs[i].source.Voucher?
    ensures
      var c := legs[i].credential;
      var off := if c.Some? && c.value.creditVoucher && c.value.voucherOff > 0 then c.value.voucherOff else 0;
      && Sum(Receipts(ConfirmedLegs(legs, i, amount))) == Sum(Receipts(legs)) + amount + off
      && Sum(VoucherReceipts(ConfirmedLegs(legs, i, amount))) == Sum(VoucherReceipts(legs)) + off
  {
    var c := legs[i].credential;
    var flipped := legs[i].(status := LegPaid, paid := amount);
    UpdatedLeg(legs, i, flipped);
    if c.Some? && c.value.creditVoucher && c.value.voucherOff > 0 {
      AppendedLeg(legs[i := flipped], Leg(Voucher, c.value.voucherOff, c.value.voucherOff, LegPaid, None, true));
    }
  }

  /** A confirm keeps the books exactly when it settles no declared leg, or one whose credential is backed. */
  lemma ConfirmBooksExactly(a: Account, input: Payment, finalizes: bool)
    requires Booked(a) && VouchersSettled(a.legs) && Confirm(a, input, finalizes).Ok?
    ensures Booked(Confirm(a, input, finalizes).value) <==>
      StageOneDone(a) || DeclaredLeg(a.legs).None? || Backed(a.legs[DeclaredLeg(a.legs).value].credential)
  {
    if !StageOneDone(a) {
      SumAppend(a.ledger, input.amount);
      match DeclaredLeg(a.legs)
      case None => AppendedLeg(a.legs, Leg(Offline, input.amount, input.amount, LegPaid, None, true));
      case Some(i) => ConfirmedLegSums(a.legs, i, input.amount);
    }
  }

  /** An unbacked credential: one yuan off with no credit voucher. The bill is settled one yuan short. */
  lemma UnbackedCredentialLosesMoney()
    ensures exists a: Account, input: Payment ::
      Booked(a) && Confirm(a, input, true).Ok? && Confirm(a, input, true).value.status.Settled?
      && !Booked(Confirm(a, input, true).value)
  {
    var leg := Leg(Offline, 900, 0, LegDeclared, Some(Credential(false, false, 100, true, false)), true);
    var a := Account(Some(PendingVerify), 1000, 0, 1000, 0, 0, Unpaid, [Item(Fee, 1000, true)], [leg], []);
    AppendedLeg([], leg);
    assert [] + [leg] == a.legs && Receipts([]) == [] && VoucherReceipts([]) == [];
    assert DeclaredLeg(a.legs) == Some(0);
    ConfirmBooksExactly(a, Payment(900, true), true);
    assert Booked(a) && Confirm(a, Payment(900, true), true).value.status.Settled?;
  }

  // ----- every step -----

  predicate BooksOk(a: Account) { Booked(a) && VouchersSettled(a.legs) && DeclaredBacked(a.legs) }

  lemma ConfirmKeepsBooks(a: Account, input: Payment, finalizes: bool)
    requires BooksOk(a) && Confirm(a, input, finalizes).Ok?
    ensures BooksOk(Confirm(a, input, finalizes).value)
  {
    ConfirmBooksExactly(a, input, finalizes);
    hide Booked, VouchersSettled, DeclaredBacked, Backed;
    if !StageOneDone(a) {
      ConfirmKeepsLegs(a, input, finalizes);
    }
  }

  lemma ConfirmKeepsLegs(a: Account, input: Payment, finalizes: bool)
    requires VouchersSettled(a.legs) && DeclaredBacked(a.legs) && Confirm(a, input, finalizes).Ok? && !StageOneDone(a)
    ensures VouchersSettled(Confirm(a, input, finalizes).value.legs)
      && DeclaredBacked(Confirm(a, input, finalizes).value.legs)
    ensures DeclaredLeg(a.legs).Some? ==> Backed(a.legs[DeclaredLeg(a.legs).value].credential)
  {
    match DeclaredLeg(a.legs)
    case None =>
    case Some(i) => ConfirmedLegsOk(a.legs, i, input.amount);
  }

  lemma ConfirmedLegsOk(legs: seq<Leg>, i: nat, amount: int)
    requires VouchersSettled(legs) && DeclaredBacked(legs) && i < |legs|
    ensures VouchersSettled(ConfirmedLegs(legs, i, amount)) && DeclaredBacked(ConfirmedLegs(legs, i, amount))
  {
    hide Backed;
  }

  lemma DeclareKeepsBooks(a: Account, off: Option<nat>, voucher: Option<nat>)
    requires BooksOk(a) && Declare(a, off, voucher).Ok?
    ensures BooksOk(Declare(a, off, voucher).value)
  {
    hide Listed, Discounted, Sum, Receipts, VoucherReceipts;
    var n := Declare(a, off, voucher).value;
    if n.legs != a.legs {
      AppendedLeg(a.legs, n.legs[|a.legs|]);
      assert n.legs == a.legs + [n.legs[|a.legs|]];
    }
  }

  lemma LegOpsKeepBooks(a: Account, op: Op)
    requires op.OpReject? || op.OpVerifyLeg? || op.OpRejectLeg?
    requires BooksOk(a) && Attempt(a, op).Ok?
    ensures BooksOk(Attempt(a, op).value)
  {
    hide LiveAmounts, DiscountAmounts, WithoutDiscounts, Sum, Receipts, VoucherReceipts;
    var i := if op.OpReject? then DeclaredLeg(a.legs).value else op.leg;
    var n := Attempt(a, op).value;
    UpdatedLeg(a.legs, i, n.legs[i]);
    SumAppend(a.ledger, a.legs[i].total);
    assert n.legs == a.legs[i := n.legs[i]];
  }

  lemma StepKeepsBooks(a: Account, op: Op)
    requires BooksOk(a)
    ensures BooksOk(Apply(a, op))
  {
    hide LiveAmounts, DiscountAmounts, WithoutDiscounts, WithDiscounts, Confirm, Declare, RejectDeclaration,
         VerifyLeg, RejectLeg;
    if Attempt(a, op).Ok? {
      match op
      case OpConfirm(input, finalizes) => ConfirmKeepsBooks(a, input, finalizes);
      case OpDeclare(off, voucher) => DeclareKeepsBooks(a, off, voucher);
      case OpReject(_) => LegOpsKeepBooks(a, op);
      case OpVerifyLeg(_) => LegOpsKeepBooks(a, op);
      case OpRejectLeg(_) => LegOpsKeepBooks(a, op);
      case EnvOpenLeg(total) => AppendedLeg(a.legs, Leg(Online, total, 0, LegPending, None, true));
      case _ =>
    }
  }

  /** In every run, whatever is confirmed, rejected, verified, declared, closed or reopened. */
  lemma {:induction false} RunKeepsBooks(a: Account, ops: seq<Op>)
    requires BooksOk(a)
    ensures BooksOk(Run(a, ops))
    decreases ops
  {
    if ops != [] {
      StepKeepsBooks(a, ops[0]);
      RunKeepsBooks(Apply(a, ops[0]), ops[1..]);
    }
  }

  lemma NewBillsAreBooked(price: nat, credit: nat, amount: int)
    ensures BooksOk(NewOrder(price, credit))
    ensures ExceptionBill(amount).Ok? ==> BooksOk(ExceptionBill(amount).value)
  {
  }
}
