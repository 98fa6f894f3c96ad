/** Confirming twice is confirming once; and what the one-cent tolerance of discounts adds up to. */
module BillingRetries {
  import opened Common
  import opened Sums
  import opened Billing
  import opened BillingPrices

  // ----- retried confirms -----

  /** One call of the confirm endpoint; `fulfils`: the second stage comes through. */
  datatype Request = Request(input: Payment, finalizes: bool, fulfils: bool)

  function Serve(a: Account, r: Request): Account {
    match Confirm(a, r.input, r.finalizes)
    case Err(_) => a
    case Ok(n) => if StageOneDone(n) && r.fulfils && Fulfil(n).Ok? then Fulfil(n).value else n
  }

  function ServeAll(a: Account, rs: seq<Request>): Account
    decreases rs
  {
    if rs == [] then a else ServeAll(Serve(a, rs[0]), rs[1..])
  }

  predicate SomeFulfils(rs: seq<Request>) {
    exists i :: 0 <= i < |rs| && rs[i].fulfils
  }

  function Outcome(settled: Account, rs: seq<Request>): Account {
    settled.(order := Some(if SomeFulfils(rs) then Fulfilled else Paid))
  }

  /** Once the money is in, further requests only ever drive the order to fulfilled. */
  lemma {:induction false} RetriesOnlyFulfil(a: Account, rs: seq<Request>)
    requires a.status.Settled? && (a.order == Some(Paid) || a.order == Some(Fulfilled))
    ensures ServeAll(a, rs) == if a.order == Some(Fulfilled) then a else Outcome(a, rs)
    decreases rs
  {
    if rs != [] {
      RetriesOnlyFulfil(Serve(a, rs[0]), rs[1..]);
      SomeFulfilsFirst(rs);
    }
  }

  lemma SomeFulfilsFirst(rs: seq<Request>)
    requires rs != []
    ensures SomeFulfils(rs) <==> rs[0].fulfils || SomeFulfils(rs[1..])
  {
    if SomeFulfils(rs[1..]) {
      var i :| 0 <= i < |rs[1..]| && rs[1..][i].fulfils;
      assert rs[i + 1].fulfils;
    }
    if SomeFulfils(rs) && !rs[0].fulfils {
      var i :| 0 <= i < |rs| && rs[i].fulfils;
      assert rs[1..][i - 1].fulfils;
    }
  }

  /** The request that gets the money in: those before it were refused. */
  predicate FirstAccepted(a: Account, rs: seq<Request>, k: nat) {
    && k < |rs| && Confirm(a, rs[k].input, rs[k].finalizes).Ok?
    && forall i :: 0 <= i < k ==> Confirm(a, rs[i].input, rs[i].finalizes).Err?
  }

  /** However often a confirm is sent, and wherever it breaks off between the stages, the bill, the legs
      and the ledger are those of the one request that was accepted first; the rest fulfil the order. */
  lemma {:induction false} ConfirmsSettleOnce(a: Account, rs: seq<Request>)
    requires PricesOk(a) && !StageOneDone(a)
    ensures (forall i :: 0 <= i < |rs| ==> Confirm(a, rs[i].input, rs[i].finalizes).Err?) ==> ServeAll(a, rs) == a
    ensures forall k :: 0 <= k && FirstAccepted(a, rs, k) ==>
      ServeAll(a, rs) == Outcome(Confirm(a, rs[k].input, rs[k].finalizes).value, rs[k..])
    decreases rs
  {
    if rs != [] {
      hide PricesOk;
      var first := Confirm(a, rs[0].input, rs[0].finalizes);
      if first.Ok? {
        ConfirmSettlesInFull(a, rs[0].input, rs[0].finalizes);
        RetriesOnlyFulfil(Serve(a, rs[0]), rs[1..]);
        SomeFulfilsFirst(rs);
        assert rs[0..] == rs;
        hide Confirm;
      } else {
        ConfirmsSettleOnce(a, rs[1..]);
        hide Confirm, Outcome;
        forall k | 0 <= k && FirstAccepted(a, rs, k)
          ensures ServeAll(a, rs) == Outcome(Confirm(a, rs[k].input, rs[k].finalizes).value, rs[k..])
        {
          assert FirstAccepted(a, rs[1..], k - 1) by {
            forall i | 0 <= i < k - 1 ensures Confirm(a, rs[1..][i].input, rs[1..][i].finalizes).Err? {
              assert rs[1..][i] == rs[i + 1];
            }
          }
          assert rs[1..][k - 1..] == rs[k..];
        }
      }
    }
  }

  // ----- bills without an order -----

  /** What may not be discounted away: what was paid or invoiced already. */
  function Floor(a: Account): int { Max(0, Max(a.paid, a.invoiced)) }

  predicate Balanced(a: Account) { a.order.None? && a.total == a.payable + a.discount }

  /** An adjustment or supplement bill never loses track of what was discounted. */
  lemma {:induction false} ExceptionBillsBalance(a: Account, ops: seq<Op>)
    requires Balanced(a)
    ensures Balanced(Run(a, ops)) && Run(a, ops).total == a.total
    decreases ops
  {
    if ops != [] {
      assert Balanced(Apply(a, ops[0])) && Apply(a, ops[0]).total == a.total;
      ExceptionBillsBalance(Apply(a, ops[0]), ops[1..]);
    }
  }

  lemma ExceptionBillStartsBalanced(amount: int)
    ensures ExceptionBill(amount).Ok? <==> amount > 0
    ensures amount > 0 ==>
      var a := ExceptionBill(amount).value;
      Balanced(a) && a.payable == Sum(LiveAmounts(a.items)) && Floor(a) == 0
  {
    if amount > 0 {
      assert LiveAmounts([Item(CreditAdjustment, amount, true)]) == [amount];
      assert Sum([amount]) == Sum([]) + amount by { assert [amount][..0] == []; }
    }
  }

  function AfterDiscounts(a: Account, amounts: seq<int>): Account
    decreases amounts
  {
    if amounts == [] then a else AfterDiscounts(Apply(a, OpDiscount(amounts[0])), amounts[1..])
  }

  function Accepted(a: Account, amounts: seq<int>): nat
    decreases amounts
  {
    if amounts == [] then 0
    else (if DiscountBill(a, amounts[0]).Ok? then 1 else 0) + Accepted(Apply(a, OpDiscount(amounts[0])), amounts[1..])
  }

  /** An accepted discount leaves at least the floor payable exactly when the bill had that much and the
      amount is within the stated maximum, without the tolerance. */
  lemma DiscountKeepsFloorExactly(a: Account, x: int)
    requires DiscountBill(a, x).Ok?
    ensures DiscountBill(a, x).value.payable >= Floor(a) <==> a.payable >= Floor(a) && x <= MaxDiscount(a)
  {
  }

  /** Every discount that is accepted is within the maximum at its turn. */
  predicate WithinMaximum(a: Account, amounts: seq<int>)
    decreases amounts
  {
    amounts == []
    || ((DiscountBill(a, amounts[0]).Ok? ==> amounts[0] <= MaxDiscount(a))
        && WithinMaximum(Apply(a, OpDiscount(amounts[0])), amounts[1..]))
  }

  /** At no point of the run is less than the floor payable. */
  predicate NeverBelowFloor(a: Account, amounts: seq<int>)
    decreases amounts
  {
    a.payable >= Floor(a)
    && (amounts == [] || NeverBelowFloor(Apply(a, OpDiscount(amounts[0])), amounts[1..]))
  }

  /** Over any run of discounts on a bill that starts above its floor, the floor is kept throughout exactly
      when no accepted discount uses the tolerance. */
  lemma {:induction false} FloorKeptExactly(a: Account, amounts: seq<int>)
    requires a.payable >= Floor(a)
    ensures NeverBelowFloor(a, amounts) <==> WithinMaximum(a, amounts)
    decreases amounts
  {
    if amounts != [] {
      var next := Apply(a, OpDiscount(amounts[0]));
      if DiscountBill(a, amounts[0]).Ok? {
        DiscountKeepsFloorExactly(a, amounts[0]);
        assert Floor(next) == Floor(a);
      }
      if next.payable >= Floor(next) {
        FloorKeptExactly(next, amounts[1..]);
      }
    }
  }

  /** It does happen: a new bill discounted in full, then by one cent more. */
  lemma DiscountedBelowZero(amount: int)
    requires amount > 0
    ensures
      var a := ExceptionBill(amount).value;
      Accepted(a, [amount, 1]) == 2 && AfterDiscounts(a, [amount, 1]).payable == -1
  {
    var a := ExceptionBill(amount).value;
    var b := Apply(a, OpDiscount(amount));
    assert [amount, 1][1..] == [1] && [1][1..] == [];
    assert b.payable == 0 && Apply(b, OpDiscount(1)).payable == -1;
    assert AfterDiscounts(b, [1]) == Apply(b, OpDiscount(1)) && Accepted(b, [1]) == 1;
  }

  /** n accepted discounts go below the floor by at most n cents. */
  lemma {:induction false} DiscountsStayNearFloor(a: Account, amounts: seq<int>, below: nat)
    requires a.payable >= Floor(a) - below
    ensures AfterDiscounts(a, amounts).payable >= Floor(a) - below - Accepted(a, amounts)
    ensures Floor(AfterDiscounts(a, amounts)) == Floor(a)
    decreases amounts
  {
    if amounts != [] {
      var next := Apply(a, OpDiscount(amounts[0]));
      DiscountsStayNearFloor(next, amounts[1..], if DiscountBill(a, amounts[0]).Ok? then below + 1 else below);
    }
  }

  function DiscountsTaken(a: Account, ops: seq<Op>): nat
    decreases ops
  {
    if ops == [] then 0
    else (if ops[0].OpDiscount? && Attempt(a, ops[0]).Ok? then 1 else 0) + DiscountsTaken(Apply(a, ops[0]), ops[1..])
  }

  lemma StepStaysNearPaid(a: Account, op: Op, floor: nat, below: nat)
    requires a.order.None? && UnpaidLegsPositive(a.legs) && floor <= a.paid && a.payable >= floor - below
    ensures
      var n := Apply(a, op);
      && n.order.None? && UnpaidLegsPositive(n.legs) && floor <= n.paid
      && n.payable >= floor - below - (if op.OpDiscount? && Attempt(a, op).Ok? then 1 else 0)
  {
    hide LiveAmounts, DiscountAmounts, WithoutDiscounts, WithDiscounts;
  }

  /** Over any run on a bill without an order, payments and receipts between the discounts included: n accepted
      discounts go at most n cents below what was ever paid, or below zero. */
  lemma {:induction false} RunsStayNearPaid(a: Account, ops: seq<Op>, floor: nat, below: nat)
    requires a.order.None? && UnpaidLegsPositive(a.legs) && floor <= a.paid && a.payable >= floor - below
    ensures Run(a, ops).payable >= floor - below - DiscountsTaken(a, ops) && floor <= Run(a, ops).paid
    decreases ops
  {
    if ops != [] {
      StepStaysNearPaid(a, ops[0], floor, below);
      var taken := ops[0].OpDiscount? && Attempt(a, ops[0]).Ok?;
      RunsStayNearPaid(Apply(a, ops[0]), ops[1..], floor, if taken then below + 1 else below);
      hide Apply, Attempt, UnpaidLegsPositive;
    }
  }

  function Cents(n: nat): seq<int> { seq(n, _ => 1) }

  /** And the bound is met: from the floor on, one-cent discounts are accepted without end. */
  lemma {:induction false} OneCentDiscountsNeverStop(a: Account, n: nat)
    requires !InFlight(a) && !a.status.Void? && a.payable <= Floor(a)
    ensures Accepted(a, Cents(n)) == n && AfterDiscounts(a, Cents(n)).payable == a.payable - n
    decreases n
  {
    if n > 0 {
      assert Cents(n)[1..] == Cents(n - 1);
      OneCentDiscountsNeverStop(Apply(a, OpDiscount(1)), n - 1);
    }
  }
}
