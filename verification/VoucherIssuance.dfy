/**
 * Issuing vouchers of one batch: the assign handler as one step, the same handler as concurrent
 * transactions statement by statement, and the proof that the second comes to the first.
 */
module VoucherIssuance {
  import opened Common
  import opened Sums

  type UserId = string
  type WorkspaceId = string

  datatype BatchKind = Discount | CreditVoucher | Invite

  datatype BatchStatus = Active | Paused | Archived

  datatype Batch = Batch(kind: BatchKind, platform: bool, total: int, issued: int, perUser: int, status: BatchStatus)

  datatype Voucher = Voucher(user: Option<UserId>, workspace: Option<WorkspaceId>, revoked: bool)

  /** What is committed: the batch row and its voucher rows. */
  datatype Store = Store(batch: Batch, vouchers: seq<Voucher>)

  datatype Request = Request(count: Option<int>, user: Option<UserId>, workspace: Option<WorkspaceId>)

  // ----- the handlers, each as one step -----

  const MAX_TOTAL := 100000
  const MAX_PER_USER := 100
  const MAX_COUNT := 200

  function CreateBatch(kind: BatchKind, platform: bool, total: int, perUser: Option<int>): Result<Store> {
    var limit := if perUser.Some? then perUser.value else 1;
    if total < 1 || total > MAX_TOTAL || limit < 1 || limit > MAX_PER_USER then Err(BadRequest)
    else Ok(Store(Batch(kind, platform, total, 0, limit, Active), []))
  }

  /** A count that is not an integer is one. */
  function Count(r: Request): int { if r.count.Some? then r.count.value else 1 }

  predicate WellFormed(r: Request) { 1 <= Count(r) <= MAX_COUNT && !(r.user.Some? && r.workspace.Some?) }

  predicate Targeted(v: Voucher) { v.user.Some? || v.workspace.Some? }

  function Row(r: Request): Voucher { Voucher(r.user, r.workspace, false) }

  predicate NeedsTarget(b: Batch) { b.platform || b.kind == Invite }

  function Counts(vs: seq<Voucher>, u: UserId): seq<int> {
    seq(|vs|, i requires 0 <= i < |vs| => if vs[i].user == Some(u) && !vs[i].revoked then 1 else 0)
  }

  /** `count(*) … status not in ('revoked')` */
  function Held(vs: seq<Voucher>, u: UserId): int { Sum(Counts(vs, u)) }

  function Rows(r: Request, n: nat): seq<Voucher> { seq(n, _ => Row(r)) }

  function OverLimit(s: Store, r: Request): bool {
    r.user.Some? && Held(s.vouchers, r.user.value) + Count(r) > s.batch.perUser
  }

  function Assign(s: Store, r: Request): Result<Store> {
    if !WellFormed(r) then Err(BadRequest)
    else if s.batch.status != Active then Err(Conflict)
    else if NeedsTarget(s.batch) && !Targeted(Row(r)) then Err(BadRequest)
    else if OverLimit(s, r) then Err(Conflict)
    else if s.batch.issued + Count(r) > s.batch.total then Err(Conflict)
    else Ok(Store(s.batch.(issued := s.batch.issued + Count(r)), s.vouchers + Rows(r, Count(r))))
  }

  // ----- what issuance promises -----

  ghost predicate StoreOk(s: Store) {
    && |s.vouchers| == s.batch.issued && s.batch.issued <= s.batch.total && 1 <= s.batch.perUser
    && (forall u: UserId :: Held(s.vouchers, u) <= s.batch.perUser)
    && (NeedsTarget(s.batch) ==> forall i :: 0 <= i < |s.vouchers| ==> Targeted(s.vouchers[i]))
  }

  lemma HeldAppend(vs: seq<Voucher>, v: Voucher, u: UserId)
    ensures Held(vs + [v], u) == Held(vs, u) + if v.user == Some(u) && !v.revoked then 1 else 0
  {
    var one := if v.user == Some(u) && !v.revoked then 1 else 0;
    assert Counts(vs + [v], u) == Counts(vs, u) + [one];
    SumAppend(Counts(vs, u), one);
  }

  lemma {:induction false} HeldAfter(vs: seq<Voucher>, r: Request, n: nat, u: UserId)
    ensures Held(vs + Rows(r, n), u) == Held(vs, u) + if r.user == Some(u) then n else 0
  {
    if n == 0 {
      assert vs + Rows(r, 0) == vs;
    } else {
      HeldAfter(vs, r, n - 1, u);
      assert vs + Rows(r, n) == (vs + Rows(r, n - 1)) + [Row(r)];
      HeldAppend(vs + Rows(r, n - 1), Row(r), u);
    }
  }

  lemma AssignKeepsStore(s: Store, r: Request)
    requires StoreOk(s) && Assign(s, r).Ok?
    ensures StoreOk(Assign(s, r).value)
  {
    var n := Assign(s, r).value;
    forall u: UserId ensures Held(n.vouchers, u) <= n.batch.perUser {
      HeldAfter(s.vouchers, r, Count(r), u);
      assert r.user == Some(u) ==> r.user.value == u;
    }
  }

  /** What a request may ask for, read off the tables. */
  ghost predicate Permitted(s: Store, r: Request) {
    && 1 <= Count(r) <= 200 && (r.user.None? || r.workspace.None?)
    && s.batch.status == Active
    && (s.batch.platform || s.batch.kind == Invite ==> r.user.Some? || r.workspace.Some?)
    && (r.user.Some? ==> Held(s.vouchers, r.user.value) + Count(r) <= s.batch.perUser)
    && s.batch.issued + Count(r) <= s.batch.total
  }

  /** A permitted request is granted in full and no other is: as many unrevoked vouchers of that user or
      workspace as asked for, one if no number is given, are added, and only the issued count moves with them. */
  lemma AssignExactly(s: Store, r: Request)
    ensures Assign(s, r).Ok? <==> Permitted(s, r)
    ensures Permitted(s, r) ==>
      var n, count := Assign(s, r).value, if r.count.Some? then r.count.value else 1;
      && n.batch == s.batch.(issued := s.batch.issued + count)
      && |n.vouchers| == |s.vouchers| + count && s.vouchers <= n.vouchers
      && (forall i :: |s.vouchers| <= i < |n.vouchers| ==> n.vouchers[i] == Voucher(r.user, r.workspace, false))
      && (r.user.Some? ==> Held(n.vouchers, r.user.value) == Held(s.vouchers, r.user.value) + count)
  {
    if Permitted(s, r) && r.user.Some? {
      HeldAfter(s.vouchers, r, Count(r), r.user.value);
    }
    hide Held;
  }

  /** Revoking, redeeming or expiring: a voucher's row stays, and a revoked one stays revoked. */
  function SetRevoked(vs: seq<Voucher>, i: nat): seq<Voucher>
    requires i < |vs|
  {
    vs[i := vs[i].(revoked := true)]
  }

  lemma RevokeLowers(vs: seq<Voucher>, i: nat, u: UserId)
    requires i < |vs|
    ensures Held(SetRevoked(vs, i), u) == Held(vs, u) - if vs[i].user == Some(u) && !vs[i].revoked then 1 else 0
  {
    var ws := SetRevoked(vs, i);
    assert Counts(ws, u) == Counts(vs, u)[i := 0];
    SumUpdate(Counts(vs, u), i, 0);
  }

  lemma RevokeKeepsStore(s: Store, i: nat)
    requires StoreOk(s) && i < |s.vouchers|
    ensures StoreOk(s.(vouchers := SetRevoked(s.vouchers, i)))
    ensures forall u :: Held(SetRevoked(s.vouchers, i), u)
                     == Held(s.vouchers, u) - if s.vouchers[i].user == Some(u) && !s.vouchers[i].revoked then 1 else 0
  {
    forall u: UserId
      ensures Held(SetRevoked(s.vouchers, i), u)
           == Held(s.vouchers, u) - if s.vouchers[i].user == Some(u) && !s.vouchers[i].revoked then 1 else 0
    {
      RevokeLowers(s.vouchers, i, u);
    }
  }

  /** A batch of 1 to 100000 is created with a limit of 1 to 100 a user, one if none is given; nothing is issued. */
  lemma NewBatchOk(kind: BatchKind, platform: bool, total: int, perUser: Option<int>)
    ensures CreateBatch(kind, platform, total, perUser).Ok? <==>
      1 <= total <= 100_000 && (perUser.Some? ==> 1 <= perUser.value <= 100)
    ensures CreateBatch(kind, platform, total, perUser).Ok? ==>
      var s := CreateBatch(kind, platform, total, perUser).value;
      && StoreOk(s) && s.vouchers == [] && s.batch.status == Active && s.batch.kind == kind
      && s.batch.platform == platform && s.batch.total == total
      && s.batch.perUser == if perUser.Some? then perUser.value else 1
  {
    forall u: UserId ensures Held([], u) == 0 {
      assert Counts([], u) == [];
    }
  }

  // ----- the handler, statement by statement -----

  /** How far a transaction has come. From `Locked` on it holds the lock on the batch row; the seized
      count and the inserted rows are its own until it commits. */
  datatype Phase = Waiting | Locked | Checked | Seized(rows: seq<Voucher>)

  datatype Transaction = Transaction(request: Request, phase: Phase)

  datatype System = System(store: Store, locker: Option<nat>, running: map<nat, Transaction>)

  /** One statement of one transaction, or something done to the tables by somebody else. A batch row
      cannot be written while it is locked; voucher rows can. */
  datatype Step =
    | Begin(id: nat, request: Request)
    | Lock(id: nat)
    | CheckLimit(id: nat)
    | Seize(id: nat)
    | Insert(id: nat)
    | Commit(id: nat)
    | Abort(id: nat)
    | EnvStatus(status: BatchStatus)
    | EnvRevoke(voucher: nat)

  function Dropped(y: System, id: nat): System {
    System(y.store, if y.locker == Some(id) then None else y.locker, y.running - {id})
  }

  function Advanced(y: System, id: nat, phase: Phase): System
    requires id in y.running
  {
    y.(running := y.running[id := y.running[id].(phase := phase)])
  }

  /** All rows asked for are inserted. */
  predicate Complete(t: Transaction)
    requires t.phase.Seized?
  {
    |t.phase.rows| >= Count(t.request)
  }

  function Next(y: System, step: Step): System {
    match step
    case Begin(id, r) =>
      if id in y.running || y.locker == Some(id) || !WellFormed(r) then y
      else y.(running := y.running[id := Transaction(r, Waiting)])
    case Lock(id) =>
      if id !in y.running || !y.running[id].phase.Waiting? || y.locker.Some? then y
      else if y.store.batch.status != Active then Dropped(y, id)
      else if NeedsTarget(y.store.batch) && !Targeted(Row(y.running[id].request)) then Dropped(y, id)
      else Advanced(y, id, Locked).(locker := Some(id))
    case CheckLimit(id) =>
      if id !in y.running || !y.running[id].phase.Locked? then y
      else if OverLimit(y.store, y.running[id].request) then Dropped(y, id)
      else Advanced(y, id, Checked)
    case Seize(id) =>
      if id !in y.running || !y.running[id].phase.Checked? then y
      else if y.store.batch.status != Active
              || y.store.batch.issued + Count(y.running[id].request) > y.store.batch.total
      then Dropped(y, id)
      else Advanced(y, id, Seized([]))
    case Insert(id) =>
      if id !in y.running || !y.running[id].phase.Seized? || Complete(y.running[id]) then y
      else Advanced(y, id, Seized(y.running[id].phase.rows + [Row(y.running[id].request)]))
    case Commit(id) =>
      if id !in y.running || !y.running[id].phase.Seized? || !Complete(y.running[id]) then y
      else Dropped(y, id).(store := Published(y.store, y.running[id]))
    case Abort(id) => Dropped(y, id)
    case EnvStatus(status) =>
      if y.locker.Some? then y else y.(store := y.store.(batch := y.store.batch.(status := status)))
    case EnvRevoke(i) =>
      if i >= |y.store.vouchers| then y else y.(store := y.store.(vouchers := SetRevoked(y.store.vouchers, i)))
  }

  /** A commit makes the seized count and the inserted rows visible. */
  function Published(s: Store, t: Transaction): Store
    requires t.phase.Seized?
  {
    Store(s.batch.(issued := s.batch.issued + Count(t.request)), s.vouchers + t.phase.rows)
  }

  function Run(y: System, steps: seq<Step>): System
    decreases steps
  {
    if steps == [] then y else Run(Next(y, steps[0]), steps[1..])
  }

  // ----- interleavings come to single steps -----

  /** What a transaction has established about the committed tables, given how far it has come. */
  predicate Established(s: Store, t: Transaction) {
    && WellFormed(t.request)
    && (!t.phase.Waiting? ==> s.batch.status == Active && (NeedsTarget(s.batch) ==> Targeted(Row(t.request))))
    && (t.phase.Checked? || t.phase.Seized? ==> !OverLimit(s, t.request))
    && (t.phase.Seized? ==>
          && s.batch.issued + Count(t.request) <= s.batch.total
          && |t.phase.rows| <= Count(t.request) && t.phase.rows == Rows(t.request, |t.phase.rows|))
  }

  /** Past waiting exactly for the lock holder. */
  ghost predicate SystemOk(y: System) {
    && (y.locker.Some? ==> y.locker.value in y.running)
    && (forall id :: id in y.running ==>
          Established(y.store, y.running[id]) && (y.running[id].phase.Waiting? <==> y.locker != Some(id)))
  }

  /** Committing is one run of the handler, on the tables as they are at that moment. */
  lemma CommitIsOneAssign(y: System, id: nat)
    requires SystemOk(y) && Next(y, Commit(id)) != y
    ensures Assign(y.store, y.running[id].request) == Ok(Next(y, Commit(id)).store)
  {
    var t := y.running[id];
    assert Established(y.store, t);
  }

  /** No other statement shows in the tables. */
  lemma OnlyCommitShows(y: System, step: Step)
    requires !step.Commit? && !step.EnvStatus? && !step.EnvRevoke?
    ensures Next(y, step).store == y.store
  {
  }

  lemma RowsGrow(r: Request, rows: seq<Voucher>)
    requires rows == Rows(r, |rows|)
    ensures rows + [Row(r)] == Rows(r, |rows| + 1)
  {
  }

  lemma TransactionStepOk(y: System, step: Step)
    requires SystemOk(y) && !step.Commit? && !step.EnvStatus? && !step.EnvRevoke?
    ensures SystemOk(Next(y, step))
  {
    if step.Insert? && step.id in y.running && y.running[step.id].phase.Seized? {
      RowsGrow(y.running[step.id].request, y.running[step.id].phase.rows);
    }
    hide OverLimit, NeedsTarget, Row, Rows;
    forall id | id in Next(y, step).running
      ensures Established(Next(y, step).store, Next(y, step).running[id])
    {
      assert id in y.running ==> Established(y.store, y.running[id]);
    }
  }

  lemma CommitStepOk(y: System, id: nat)
    requires SystemOk(y)
    ensures SystemOk(Next(y, Commit(id)))
  {
    var n := Next(y, Commit(id));
    forall k | k in n.running ensures Established(n.store, n.running[k]) {
      assert Established(y.store, y.running[k]);
      assert n != y ==> y.locker == Some(id) && y.running[k].phase.Waiting?;
    }
    hide Established;
  }

  lemma EnvStepOk(y: System, step: Step)
    requires SystemOk(y) && (step.EnvStatus? || step.EnvRevoke?)
    ensures SystemOk(Next(y, step))
  {
    var n := Next(y, step);
    forall k | k in n.running ensures Established(n.store, n.running[k]) {
      var t := y.running[k];
      assert Established(y.store, t);
      if step.EnvRevoke? && step.voucher < |y.store.vouchers| && t.request.user.Some? {
        RevokeLowers(y.store.vouchers, step.voucher, t.request.user.value);
      }
      hide Held;
    }
    hide Established;
  }

  lemma StepKeepsPromises(y: System, step: Step)
    requires SystemOk(y) && StoreOk(y.store)
    ensures SystemOk(Next(y, step)) && StoreOk(Next(y, step).store)
  {
    hide SystemOk, StoreOk, Assign;
    match step
    case Commit(id) =>
      CommitStepOk(y, id);
      if Next(y, step) != y {
        CommitIsOneAssign(y, id);
        AssignKeepsStore(y.store, y.running[id].request);
      }
    case EnvStatus(status) =>
      EnvStepOk(y, step);
      StatusKeepsStore(y.store, status);
    case EnvRevoke(i) =>
      EnvStepOk(y, step);
      if i < |y.store.vouchers| { RevokeKeepsStore(y.store, i); }
    case _ =>
      TransactionStepOk(y, step);
      OnlyCommitShows(y, step);
  }

  lemma StatusKeepsStore(s: Store, status: BatchStatus)
    requires StoreOk(s)
    ensures StoreOk(s.(batch := s.batch.(status := status)))
  {
  }

  /** However concurrent calls interleave, break off, or meet revocations and status changes: as many
      rows as issued, no more than the batch holds, no user over the limit, and no voucher without an
      owner where the batch needs one. */
  lemma {:induction false} InterleavingsKeepPromises(y: System, steps: seq<Step>)
    requires SystemOk(y) && StoreOk(y.store)
    ensures SystemOk(Run(y, steps)) && StoreOk(Run(y, steps).store)
    decreases steps
  {
    if steps != [] {
      StepKeepsPromises(y, steps[0]);
      InterleavingsKeepPromises(Next(y, steps[0]), steps[1..]);
    }
  }

  /** So from the creation of a batch on. */
  lemma BatchKeepsPromises(kind: BatchKind, platform: bool, total: int, perUser: Option<int>, steps: seq<Step>)
    requires CreateBatch(kind, platform, total, perUser).Ok?
    ensures StoreOk(Run(System(CreateBatch(kind, platform, total, perUser).value, None, map[]), steps).store)
  {
    var y := System(CreateBatch(kind, platform, total, perUser).value, None, map[]);
    NewBatchOk(kind, platform, total, perUser);
    assert SystemOk(y);
    InterleavingsKeepPromises(y, steps);
  }

  // ----- permitted transactions commit -----

  /** The statement a transaction runs next. */
  function NextStatement(id: nat, t: Transaction): Step {
    match t.phase
    case Waiting => Lock(id)
    case Locked => CheckLimit(id)
    case Checked => Seize(id)
    case Seized(_) => if Complete(t) then Commit(id) else Insert(id)
  }

  /** How many statements it has yet to run. */
  function Remaining(t: Transaction): int {
    match t.phase
    case Waiting => Count(t.request) + 4
    case Locked => Count(t.request) + 3
    case Checked => Count(t.request) + 2
    case Seized(rows) => Count(t.request) - |rows| + 1
  }

  /** Its turn: the statement is its next one, and the lock it may wait for is free. */
  predicate Turn(y: System, id: nat, step: Step) {
    id in y.running && step == NextStatement(id, y.running[id]) && (y.running[id].phase.Waiting? ==> y.locker.None?)
  }

  /** At its turn a transaction whose request is permitted at that moment moves on by one statement; the last
      one commits. */
  lemma PermittedAdvances(y: System, id: nat, step: Step)
    requires SystemOk(y) && Turn(y, id, step) && Permitted(y.store, y.running[id].request)
    ensures
      var n, t := Next(y, step), y.running[id];
      && Remaining(t) >= 1
      && (Remaining(t) > 1 ==> id in n.running && n.running[id].request == t.request
                               && Remaining(n.running[id]) == Remaining(t) - 1)
      && (Remaining(t) == 1 ==> step == Commit(id) && id !in n.running && Ok(n.store) == Assign(y.store, t.request))
  {
    var t := y.running[id];
    assert Established(y.store, t);
    hide Held;
    if Remaining(t) == 1 { CommitIsOneAssign(y, id); }
    hide SystemOk, Rows, Established;
  }

  /** Nothing else but an abort of its own touches a transaction. */
  lemma OthersLeaveAlone(y: System, id: nat, step: Step)
    requires SystemOk(y) && id in y.running && !Turn(y, id, step) && step != Abort(id)
    ensures id in Next(y, step).running && Next(y, step).running[id] == y.running[id]
  {
    hide OverLimit, NeedsTarget, Row, Established;
  }

  /** As long as the transaction runs, its request is permitted and it is not aborted. */
  ghost predicate PermittedThroughout(y: System, id: nat, steps: seq<Step>)
    decreases steps
  {
    id in y.running ==>
      && Permitted(y.store, y.running[id].request)
      && (steps != [] ==> steps[0] != Abort(id) && PermittedThroughout(Next(y, steps[0]), id, steps[1..]))
  }

  function Turns(y: System, id: nat, steps: seq<Step>): nat
    decreases steps
  {
    if steps == [] || id !in y.running then 0
    else (if Turn(y, id, steps[0]) then 1 else 0) + Turns(Next(y, steps[0]), id, steps[1..])
  }

  /** At some point of the run its request is granted, on the tables as they are then. */
  predicate Commits(y: System, id: nat, steps: seq<Step>)
    decreases steps
  {
    && steps != [] && id in y.running
    && ((steps[0] == Commit(id) && id !in Next(y, steps[0]).running
         && Ok(Next(y, steps[0]).store) == Assign(y.store, y.running[id].request))
        || Commits(Next(y, steps[0]), id, steps[1..]))
  }

  /** In any interleaving a permitted transaction commits exactly when it gets as many turns as it has
      statements left. */
  lemma {:induction false} PermittedCommitsExactly(y: System, id: nat, steps: seq<Step>)
    requires SystemOk(y) && StoreOk(y.store) && id in y.running && PermittedThroughout(y, id, steps)
    ensures Commits(y, id, steps) <==> Turns(y, id, steps) >= Remaining(y.running[id])
    decreases steps
  {
    if steps == [] {
      RemainingPositive(y, id);
    } else {
      var n := Next(y, steps[0]);
      StepKeepsPromises(y, steps[0]);
      if Turn(y, id, steps[0]) {
        PermittedAdvances(y, id, steps[0]);
      } else {
        OthersLeaveAlone(y, id, steps[0]);
      }
      if id in n.running {
        hide Next, Turn, Permitted, SystemOk, StoreOk, Assign, Remaining;
        PermittedCommitsExactly(n, id, steps[1..]);
      } else {
        assert Turns(n, id, steps[1..]) == 0;
      }
    }
  }

  /** A call starts exactly with 1 to 200 vouchers asked for and at most one kind of owner. */
  lemma BeginsExactly(y: System, id: nat, r: Request)
    requires SystemOk(y) && id !in y.running
    ensures
      var n := Next(y, Begin(id, r));
      && (id in n.running <==> 1 <= Count(r) <= 200 && (r.user.None? || r.workspace.None?))
      && (id in n.running ==> n.running[id].request == r && Remaining(n.running[id]) == Count(r) + 4)
  {
  }

  lemma RemainingPositive(y: System, id: nat)
    requires SystemOk(y) && id in y.running
    ensures Remaining(y.running[id]) >= 1
  {
    assert Established(y.store, y.running[id]);
  }

  // ----- the tables -----

  class VoucherTables {
    var batch: Batch
    var vouchers: seq<Voucher>

    function State(): Store
      reads this
    {
      Store(batch, vouchers)
    }

    constructor (batch: Batch)
      ensures State() == Store(batch, [])
    {
      this.batch, vouchers := batch, [];
    }

    method AssignVouchers(r: Request) returns (refusal: Option<Error>)
      modifies this
      ensures Ended(old(State()), Assign(old(State()), r), State(), refusal)
    {
      var count := if r.count.Some? then r.count.value else 1;
      if count < 1 || count > MAX_COUNT { return Some(BadRequest); }
      if r.user.Some? && r.workspace.Some? { return Some(BadRequest); }
      if batch.status != Active { return Some(Conflict); }
      if batch.platform && r.user.None? && r.workspace.None? { return Some(BadRequest); }
      if batch.kind == Invite && r.user.None? && r.workspace.None? { return Some(BadRequest); }
      if r.user.Some? {
        var held := Held(vouchers, r.user.value);
        if held + count > batch.perUser { return Some(Conflict); }
      }
      if batch.issued + count > batch.total { return Some(Conflict); }
      batch := batch.(issued := batch.issued + count);
      var i := 0;
      while i < count
        invariant 0 <= i <= count
        invariant batch == old(batch).(issued := old(batch.issued) + count)
        invariant vouchers == old(vouchers) + Rows(r, i)
      {
        RowsGrow(r, Rows(r, i));
        vouchers := vouchers + [Voucher(r.user, r.workspace, false)];
        i := i + 1;
      }
      refusal := None;
    }
  }
}
