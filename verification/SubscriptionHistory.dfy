/** Status, open episode, remembered renewal and history stay in step over whole runs. */
module SubscriptionHistory {
  import opened Common
  import opened Sums
  import opened Subscriptions

  // ----- the joint invariant -----

  predicate AtMostOneOpen(es: seq<Episode>) {
    forall i, j :: 0 <= i < j < |es| ==> !(es[i].Open() && es[j].Open())
  }

  /** The check constraints of the row. */
  predicate RowOk(s: Subscription) {
    (s.term.Perpetual? ==> s.endAt.None?) && (s.kind == Trial ==> !s.autoRenew)
  }

  /** One episode is open exactly while suspended, or while the deadline job is between its two transactions;
      a suspended subscription's episode remembers the renewal choice, and any other in service carries it. */
  predicate SuspensionOk(s: Subscription, choice: bool, closing: bool) {
    && RowOk(s) && AtMostOneOpen(s.episodes)
    && (OpenEpisode(s.episodes).Some? <==> s.status == Suspended || closing)
    && !(s.status == Suspended && closing)
    && (s.status == Suspended ==> s.episodes[OpenEpisode(s.episodes).value].autoRenewBefore == Some(choice))
    && (s.status == Cancelled ==> !s.autoRenew)
    && (s.status != Suspended && s.status != Cancelled ==> s.autoRenew == choice)
    && (s.kind == Trial ==> !choice)
  }

  /** The renewal choice after a step: what is set while suspended is overwritten by the resume. */
  function NextChoice(s: Subscription, choice: bool, op: Op): bool {
    if op.OpAutoRenew? && s.status != Suspended && SetAutoRenew(s, op.enabled).Ok? then op.enabled else choice
  }

  function Chosen(y: System, choice: bool, ops: seq<Op>): bool
    decreases ops
  {
    if ops == [] then choice else Chosen(Apply(y, ops[0]), NextChoice(y.row, choice, ops[0]), ops[1..])
  }

  predicate Chained(first: Status, hs: seq<Change>, last: Status) {
    && (if hs == [] then first == last else hs[0].from == first && hs[|hs| - 1].to == last)
    && (forall i :: 0 < i < |hs| ==> hs[i - 1].to == hs[i].from)
  }

  /** A subscription as it starts out: on sale terms, nothing suspended, nothing recorded. */
  predicate Fresh(s: Subscription) {
    s.status != Suspended && s.status != Cancelled && s.episodes == [] && s.history == [] && RowOk(s)
  }

  lemma ClosedAll(es: seq<Episode>, now: int)
    ensures OpenEpisode(CloseOpen(es, now)).None? && AtMostOneOpen(CloseOpen(es, now))
  {
  }

  lemma OpenedOne(es: seq<Episode>, e: Episode)
    requires OpenEpisode(es).None? && e.Open()
    ensures OpenEpisode(es + [e]) == Some(|es|) && AtMostOneOpen(es + [e])
  {
    var at := OpenEpisode(es + [e]);
    assert (es + [e])[|es|].Open();
    assert forall j :: 0 <= j < |es| ==> (es + [e])[j] == es[j];
  }

  /** Changing an episode without opening or closing it. */
  lemma SameOpen(es: seq<Episode>, fs: seq<Episode>)
    requires |es| == |fs| && forall i :: 0 <= i < |es| ==> es[i].Open() == fs[i].Open()
    ensures OpenEpisode(es) == OpenEpisode(fs) && (AtMostOneOpen(es) ==> AtMostOneOpen(fs))
  {
    var a, b := OpenEpisode(es), OpenEpisode(fs);
    if a.Some? { assert fs[a.value].Open(); }
    if b.Some? { assert es[b.value].Open(); }
  }

  lemma ActKeepsSuspension(s: Subscription, choice: bool, closing: bool, op: Op)
    requires SuspensionOk(s, choice, closing) && op.OpAct? && Attempt(s, op).Ok?
    ensures SuspensionOk(Attempt(s, op).value, choice, closing)
  {
    hide AtMostOneOpen, EffectiveEnd, PastEnd, RenewedEnd, CloseOpen;
    ClosedAll(s.episodes, op.now);
    if s.status != Suspended && op.action == Suspend {
      OpenedOne(s.episodes,
                Episode(op.reason.value, ExtendsTerm(op.reason.value), op.now,
                        None, None, Some(s.autoRenew), op.expected));
    }
  }

  // ----- what takes a row out of step -----

  /** The sweep, or a cancel by the service, on a suspended row: its episode is left open. */
  predicate Strands(s: Subscription, op: Op) {
    s.status == Suspended
    && match op
       case OpExpire(now, grace, orderInFlight) => Lapsed(s, now, grace, orderInFlight)
       case OpServiceCancel(_) => s.term.Cyclic?
       case _ => false
  }

  /** An open episode without a suspension, and nobody about to close it. */
  predicate Stranded(y: System) {
    y.row.status != Suspended && !y.closing && OpenEpisode(y.row.episodes).Some?
  }

  /** A step keeps status, episode and renewal in step exactly when it does not end a suspended row in place. */
  lemma StepInStepExactly(y: System, choice: bool, op: Op)
    requires SuspensionOk(y.row, choice, y.closing)
    ensures
      var n, next := Apply(y, op), NextChoice(y.row, choice, op);
      && (SuspensionOk(n.row, next, n.closing) <==> !Strands(y.row, op))
      && (Strands(y.row, op) ==> Stranded(n))
  {
    var s := y.row;
    if op.OpAct? {
      if Attempt(s, op).Ok? { ActKeepsSuspension(s, choice, y.closing, op); }
    } else if op.OpEstimate? || op.OpSettle? || op.OpDeadline? || op.OpCloseEpisode? {
      EpisodeStepKeeps(y, choice, op);
    } else {
      EndingStepExactly(y, choice, op);
    }
    hide Attempt, SuspensionOk;
  }

  lemma EpisodeStepKeeps(y: System, choice: bool, op: Op)
    requires SuspensionOk(y.row, choice, y.closing)
    requires op.OpEstimate? || op.OpSettle? || op.OpDeadline? || op.OpCloseEpisode?
    ensures SuspensionOk(Apply(y, op).row, choice, Apply(y, op).closing)
  {
    hide AtMostOneOpen;
    if Attempt(y.row, op).Ok? {
      var es, fs := y.row.episodes, Attempt(y.row, op).value.episodes;
      match op
      case OpCloseEpisode(now) => ClosedAll(es, now);
      case _ => SameOpen(es, fs);
    }
  }

  lemma EndingStepExactly(y: System, choice: bool, op: Op)
    requires SuspensionOk(y.row, choice, y.closing)
    requires !op.OpAct? && !op.OpEstimate? && !op.OpSettle? && !op.OpDeadline? && !op.OpCloseEpisode?
    ensures
      var n, next := Apply(y, op), NextChoice(y.row, choice, op);
      && (SuspensionOk(n.row, next, n.closing) <==> !Strands(y.row, op))
      && (Strands(y.row, op) ==> Stranded(n))
  {
    hide EffectiveEnd, AtMostOneOpen, InGrace, OpenEpisode;
  }

  lemma StrandedStays(y: System, op: Op)
    requires Stranded(y)
    ensures Stranded(Apply(y, op)) && OpenEpisode(Apply(y, op).row.episodes) == OpenEpisode(y.row.episodes)
  {
    hide EffectiveEnd, PastEnd, RenewedEnd, Storable;
    var s := y.row;
    if Attempt(s, op).Ok? {
      var n := Attempt(s, op).value;
      if op.OpEstimate? || op.OpSettle? { SameOpen(s.episodes, n.episodes); }
    }
  }

  /** There is no way back: whatever happens, the episode is never closed, and every suspension is refused. */
  lemma {:induction false} StrandedForever(y: System, ops: seq<Op>)
    requires Stranded(y)
    ensures Stranded(Run(y, ops)) && OpenEpisode(Run(y, ops).row.episodes) == OpenEpisode(y.row.episodes)
    ensures forall reason, expected, slotTaken, now ::
              Act(Run(y, ops).row, Suspend, reason, expected, slotTaken, now).Err?
    decreases ops
  {
    if ops != [] {
      StrandedStays(y, ops[0]);
      hide Apply, Act, Stranded;
      StrandedForever(Apply(y, ops[0]), ops[1..]);
    }
  }

  predicate NothingStranded(y: System, ops: seq<Op>)
    decreases ops
  {
    ops == [] || (!Strands(y.row, ops[0]) && NothingStranded(Apply(y, ops[0]), ops[1..]))
  }

  /** Over any run, whatever falls between the two transactions of the deadline job: status, episode and the
      latest renewal choice are in step at the end exactly when no suspended row was ended in place. */
  lemma {:induction false} RunInStepExactly(y: System, choice: bool, ops: seq<Op>)
    requires SuspensionOk(y.row, choice, y.closing)
    ensures
      var n := Run(y, ops);
      SuspensionOk(n.row, Chosen(y, choice, ops), n.closing) <==> NothingStranded(y, ops)
    ensures !NothingStranded(y, ops) ==> Stranded(Run(y, ops))
    decreases ops
  {
    if ops != [] {
      StepInStepExactly(y, choice, ops[0]);
      if Strands(y.row, ops[0]) {
        StrandedForever(Apply(y, ops[0]), ops[1..]);
      } else {
        RunInStepExactly(Apply(y, ops[0]), NextChoice(y.row, choice, ops[0]), ops[1..]);
      }
      hide Apply, Strands;
    }
  }

  lemma {:induction false} CancelledIsTerminal(y: System, ops: seq<Op>)
    requires y.row.status == Cancelled
    ensures Run(y, ops).row.status == Cancelled && Run(y, ops).row.autoRenew == y.row.autoRenew
    ensures Run(y, ops).row.history == y.row.history <==> NoEstimateTaken(y, ops)
    ensures OpenEpisode(y.row.episodes).None? ==> NoEstimateTaken(y, ops)
    decreases ops
  {
    if ops != [] {
      CancelledStep(y, ops[0]);
      HistoryOnlyGrows(Apply(y, ops[0]), ops[1..]);
      CancelledIsTerminal(Apply(y, ops[0]), ops[1..]);
      hide Apply;
    }
  }

  lemma CancelledStep(y: System, op: Op)
    requires y.row.status == Cancelled
    ensures
      var n := Apply(y, op);
      && n.row.status == Cancelled && n.row.autoRenew == y.row.autoRenew && y.row.history <= n.row.history
      && (n.row.history == y.row.history <==> !EstimateTaken(y.row, op))
      && (OpenEpisode(y.row.episodes).None? ==> OpenEpisode(n.row.episodes).None?)
  {
    hide EffectiveEnd, RenewedEnd;
  }

  // ----- the history -----

  /** Nothing is rewritten. */
  lemma {:induction false} HistoryOnlyGrows(y: System, ops: seq<Op>)
    ensures y.row.history <= Run(y, ops).row.history
    decreases ops
  {
    if ops != [] {
      StepAppends(y, ops[0]);
      HistoryOnlyGrows(Apply(y, ops[0]), ops[1..]);
    }
  }

  lemma StepAppends(y: System, op: Op)
    ensures y.row.history <= Apply(y, op).row.history
  {
    hide EffectiveEnd, PastEnd, RenewedEnd, CloseOpen, Granted, Dues, Storable, InGrace;
  }

  /** A request recorded, or refused and not recorded. */
  predicate Recorded(s: Subscription, n: Subscription) {
    || (n.history == s.history && n.status == s.status)
    || (|n.history| == |s.history| + 1 && n.history[..|s.history|] == s.history
        && n.history[|s.history|].from == s.status && n.history[|s.history|].to == n.status)
  }

  /** An edit of the estimate is taken whenever an episode is open. */
  predicate EstimateTaken(s: Subscription, op: Op) { op.OpEstimate? && OpenEpisode(s.episodes).Some? }

  predicate NoEstimateTaken(y: System, ops: seq<Op>)
    decreases ops
  {
    ops == [] || (!EstimateTaken(y.row, ops[0]) && NoEstimateTaken(Apply(y, ops[0]), ops[1..]))
  }

  lemma StepRecorded(y: System, op: Op)
    requires EstimateTaken(y.row, op) ==> y.row.status == Suspended
    ensures Recorded(y.row, Apply(y, op).row)
  {
    hide EffectiveEnd, PastEnd, RenewedEnd, CloseOpen, Granted, Dues, Storable, InGrace;
  }

  predicate Linked(first: Status, hs: seq<Change>) {
    && (hs != [] ==> hs[0].from == first)
    && (forall i :: 0 < i < |hs| ==> hs[i - 1].to == hs[i].from)
  }

  lemma ChainGrows(first: Status, s: Subscription, n: Subscription)
    requires Chained(first, s.history, s.status) && Recorded(s, n)
    ensures Chained(first, n.history, n.status)
  {
    assert n.history[..|s.history|] == s.history;
    forall i | 0 < i < |n.history| ensures n.history[i - 1].to == n.history[i].from {
      assert n.history[i - 1] == s.history[i - 1];
    }
  }

  /** An accepted edit of the estimate keeps the chain exactly when the row is suspended. */
  lemma EstimateChainsExactly(s: Subscription, first: Status, expected: Option<int>)
    requires Chained(first, s.history, s.status) && UpdateEstimate(s, expected).Ok?
    ensures
      var n := UpdateEstimate(s, expected).value;
      && (Chained(first, n.history, n.status) <==> s.status == Suspended)
      && (s.status != Suspended ==> !Linked(first, n.history))
  {
    var n := UpdateEstimate(s, expected).value;
    assert n.history[|s.history|] == Change("suspension_updated", Suspended, Suspended);
    if s.status == Suspended {
      ChainGrows(first, s, n);
    } else if s.history != [] {
      assert n.history[|s.history| - 1].to == s.status;
    }
  }

  predicate EstimatesWhileSuspended(y: System, ops: seq<Op>)
    decreases ops
  {
    ops == []
    || ((EstimateTaken(y.row, ops[0]) ==> y.row.status == Suspended)
        && EstimatesWhileSuspended(Apply(y, ops[0]), ops[1..]))
  }

  /** Over any run the history leads, link by link, from the first status to the present one exactly when the
      estimate is edited only while suspended. */
  lemma {:induction false} HistoryChainsExactly(y: System, first: Status, ops: seq<Op>)
    requires Chained(first, y.row.history, y.row.status)
    ensures Chained(first, Run(y, ops).row.history, Run(y, ops).row.status) <==> EstimatesWhileSuspended(y, ops)
    decreases ops
  {
    if ops != [] {
      var next := Apply(y, ops[0]);
      if EstimateTaken(y.row, ops[0]) && y.row.status != Suspended {
        EstimateChainsExactly(y.row, first, ops[0].expectedResumeAt);
        HistoryOnlyGrows(next, ops[1..]);
        hide Apply;
        BrokenStaysBroken(first, next.row.history, Run(y, ops).row.history);
      } else {
        StepRecorded(y, ops[0]);
        ChainGrows(first, y.row, next.row);
        hide Chained, Apply;
        HistoryChainsExactly(next, first, ops[1..]);
      }
    }
  }

  lemma BrokenStaysBroken(first: Status, hs: seq<Change>, more: seq<Change>)
    requires hs <= more && !Linked(first, hs)
    ensures !Linked(first, more)
  {
    if Linked(first, more) {
      forall i | 0 < i < |hs| ensures hs[i - 1].to == hs[i].from {
        assert hs[i - 1] == more[i - 1] && hs[i] == more[i];
      }
    }
  }

  predicate NoDeadlines(ops: seq<Op>) {
    forall i :: 0 <= i < |ops| ==> !ops[i].OpDeadline?
  }

  /** In step and outside the gap, an episode is open only while suspended. */
  lemma {:induction false} InStepEstimates(y: System, choice: bool, ops: seq<Op>)
    requires SuspensionOk(y.row, choice, false) && !y.closing && NoDeadlines(ops) && NothingStranded(y, ops)
    ensures EstimatesWhileSuspended(y, ops) && !Run(y, ops).closing
    decreases ops
  {
    if ops != [] {
      StepInStepExactly(y, choice, ops[0]);
      forall i | 0 <= i < |ops[1..]| ensures !ops[1..][i].OpDeadline? { assert ops[1..][i] == ops[i + 1]; }
      InStepEstimates(Apply(y, ops[0]), NextChoice(y.row, choice, ops[0]), ops[1..]);
    }
  }

  /** From the start: in step at the end exactly when no suspended row was ended in place; then, deadlines
      apart, suspended exactly while one episode is open, the latest renewal choice in force whenever neither
      suspended nor cancelled, and a history that leads from the first status to the present one. */
  lemma FreshInStepExactly(s: Subscription, ops: seq<Op>)
    requires Fresh(s)
    ensures
      var y := System(s, false);
      var n, choice := Run(y, ops), Chosen(y, s.autoRenew, ops);
      && (SuspensionOk(n.row, choice, n.closing) <==> NothingStranded(y, ops))
      && (NoDeadlines(ops) && NothingStranded(y, ops) ==>
            && AtMostOneOpen(n.row.episodes) && (n.row.status == Suspended <==> OpenEpisode(n.row.episodes).Some?)
            && (n.row.status != Suspended && n.row.status != Cancelled ==> n.row.autoRenew == choice)
            && Chained(s.status, n.row.history, n.row.status))
  {
    var y := System(s, false);
    RunInStepExactly(y, s.autoRenew, ops);
    if NoDeadlines(ops) && NothingStranded(y, ops) {
      InStepEstimates(y, s.autoRenew, ops);
      HistoryChainsExactly(y, s.status, ops);
    }
    hide Run, Chosen, NothingStranded, EstimatesWhileSuspended;
  }

  // ----- out of step: three runs -----

  lemma RunSplit(y: System, op: Op, rest: seq<Op>)
    ensures Run(y, [op] + rest) == Run(Apply(y, op), rest)
  {
    assert ([op] + rest)[1..] == rest;
  }

  lemma RunTwo(y: System, o1: Op, o2: Op)
    ensures Run(y, [o1, o2]) == Apply(Apply(y, o1), o2)
  {
    hide Apply;
    assert [o1, o2] == [o1] + [o2] && [o2] == [o2] + [];
    RunSplit(y, o1, [o2]);
    RunSplit(Apply(y, o1), o2, []);
  }

  lemma RunThree(y: System, o1: Op, o2: Op, o3: Op)
    ensures Run(y, [o1, o2, o3]) == Apply(Apply(Apply(y, o1), o2), o3)
  {
    hide Apply;
    assert [o1, o2, o3] == [o1] + [o2, o3];
    RunSplit(y, o1, [o2, o3]);
    RunTwo(Apply(y, o1), o2, o3);
  }

  function ViolationPause(at: int): Op { OpAct(Suspend, Some(CustomerViolation), None, false, at) }

  lemma Paused(s: Subscription, at: int)
    requires Fresh(s) && Live(s.status)
    ensures
      var n := Apply(System(s, false), ViolationPause(at));
      && n.row.status == Suspended && !n.row.autoRenew && !n.closing && OpenEpisode(n.row.episodes) == Some(0)
      && !n.row.episodes[0].extendsTerm && n.row.endAt == s.endAt && n.row.kind == s.kind && n.row.term == s.term
      && n.row.history == [Change("suspended", s.status, Suspended)]
  {
    SuspendAcceptedExactly(s, Some(CustomerViolation), None, false, at);
  }

  /** What the gap does to a subscription paused for a violation: it is cancelled with its episode open, and
      an edit of the estimate is still accepted and recorded as if it were suspended. */
  lemma GapBreaksHistory(s: Subscription, at: int)
    requires Fresh(s) && Live(s.status)
    ensures
      var n := Run(System(s, false), [ViolationPause(at), OpDeadline, OpEstimate(None)]).row;
      n.status == Cancelled && |n.history| == 3 && !Chained(s.status, n.history, n.status)
  {
    var y := System(s, false);
    Paused(s, at);
    RunThree(y, ViolationPause(at), OpDeadline, OpEstimate(None));
    hide Run, ViolationPause;
    var gap := Apply(Apply(y, ViolationPause(at)), OpDeadline).row;
    assert Chained(s.status, gap.history, gap.status);
    hide Chained;
    EstimateChainsExactly(gap, s.status, None);
  }

  /** Paused for a violation, swept at the end of the term, then renewed: active with the episode still open
      and renewal off, however it was set; an edit of the estimate breaks the history. */
  lemma SweepStrands(s: Subscription, end: int, at: int, swept: int, renewed: int)
    requires Fresh(s) && Live(s.status) && s.kind != Trial && s.endAt == Some(end) && end <= swept
    ensures
      var y, sweep := System(s, false), OpExpire(swept, 0, false);
      var expired := Run(y, [ViolationPause(at), sweep]);
      var active := Run(y, [ViolationPause(at), sweep, OpAct(Renew, None, None, false, renewed)]);
      && Stranded(expired) && expired.row.status == Expired && !expired.row.autoRenew
      && Stranded(active) && active.row.status == Active && !active.row.autoRenew
      && Act(active.row, Suspend, Some(PlatformOps), None, false, renewed) == Err(Invalid)
      && UpdateEstimate(active.row, None).Ok?
      && !Chained(s.status, UpdateEstimate(active.row, None).value.history, Active)
  {
    var y, sweep, renewal := System(s, false), OpExpire(swept, 0, false), OpAct(Renew, None, None, false, renewed);
    Paused(s, at);
    RunTwo(y, ViolationPause(at), sweep);
    RunThree(y, ViolationPause(at), sweep, renewal);
    hide Run, ViolationPause, RenewedEnd;
    var paused := Apply(y, ViolationPause(at));
    var expired := Apply(paused, sweep);
    assert Lapsed(paused.row, swept, 0, false);
    var active := Apply(expired, renewal);
    assert active.row.status == Active && active.row.episodes == paused.row.episodes;
    assert Chained(s.status, active.row.history, Active);
    hide Chained;
    EstimateChainsExactly(active.row, s.status, None);
  }

  /** Paused, then cancelled by its own customer: cancelled for good with its episode open. */
  lemma ServiceCancelStrands(s: Subscription, at: int, now: int)
    requires Fresh(s) && Live(s.status) && s.term.Cyclic?
    ensures
      var n := Run(System(s, false), [ViolationPause(at), OpServiceCancel(now)]);
      Stranded(n) && n.row.status == Cancelled && UpdateEstimate(n.row, None).Ok?
  {
    Paused(s, at);
    RunTwo(System(s, false), ViolationPause(at), OpServiceCancel(now));
    hide Run, ViolationPause;
  }

  /** A renewal choice made while suspended is lost: the resume puts back the one before. */
  lemma ChoiceWhileSuspendedIsLost(s: Subscription, choice: bool, enabled: bool, slotTaken: bool, now: int)
    requires SuspensionOk(s, choice, false) && s.status == Suspended && SetAutoRenew(s, enabled).Ok?
    ensures
      var n := SetAutoRenew(s, enabled).value;
      && n.autoRenew == enabled
      && (Act(n, Resume, None, None, slotTaken, now).Ok? ==>
            Act(n, Resume, None, None, slotTaken, now).value.autoRenew == choice)
  {
    hide AtMostOneOpen, CloseOpen, EffectiveEnd;
  }

  // ----- closed episodes are final -----

  /** A closed episode may only be granted its days, and that once. */
  predicate Final(e: Episode, f: Episode) {
    !e.Open() ==> f == e.(granted := f.granted) && (e.granted.Some? ==> f.granted == e.granted)
  }

  predicate EpisodesGrow(es: seq<Episode>, fs: seq<Episode>) {
    |es| <= |fs| && forall i :: 0 <= i < |es| ==> Final(es[i], fs[i])
  }

  lemma StepKeepsEpisodes(y: System, op: Op)
    ensures EpisodesGrow(y.row.episodes, Apply(y, op).row.episodes)
  {
    hide EffectiveEnd, PastEnd, RenewedEnd, Storable, GrantOf, Dues;
  }

  lemma {:induction false} RunKeepsEpisodes(y: System, ops: seq<Op>)
    ensures EpisodesGrow(y.row.episodes, Run(y, ops).row.episodes)
    decreases ops
  {
    if ops != [] {
      StepKeepsEpisodes(y, ops[0]);
      RunKeepsEpisodes(Apply(y, ops[0]), ops[1..]);
      hide Apply;
      var es, mid, last := y.row.episodes, Apply(y, ops[0]).row.episodes, Run(y, ops).row.episodes;
      forall i | 0 <= i < |es| ensures Final(es[i], last[i]) {
        assert Final(es[i], mid[i]) && Final(mid[i], last[i]);
      }
    }
  }

  // ----- when each action is accepted -----

  /** A pause that is given back may last forever: only the end date at its start counts. */
  lemma ResumeAcceptedExactly(s: Subscription, choice: bool, closing: bool, slotTaken: bool, now: int)
    requires SuspensionOk(s, choice, closing)
    ensures Act(s, Resume, None, None, slotTaken, now).Ok? <==>
      s.status == Suspended
      && (s.endAt.None? || (var e := s.episodes[OpenEpisode(s.episodes).value];
                            if e.extendsTerm then e.pausedAt <= s.endAt.value else now <= s.endAt.value))
  {
    hide AtMostOneOpen, CloseOpen;
  }

  /** So it never expires either, unless it was over when it began; in service or not. */
  lemma LapsedExactly(s: Subscription, now: int, grace: int, orderInFlight: bool)
    ensures Lapsed(s, now, grace, orderInFlight) <==>
      && s.kind != Trial && Live(s.status) && s.status != Trialing && s.endAt.Some?
      && !InGrace(s, now, grace, orderInFlight)
      && (var open := OpenEpisode(s.episodes);
          if open.Some? && s.episodes[open.value].extendsTerm then s.endAt.value <= s.episodes[open.value].pausedAt
          else s.endAt.value <= now)
  {
    hide InGrace;
  }

  /** A subscription past its end is expired or overdue, never both; one of the two unless an open episode
      still holds its end back. */
  lemma ExpiredOrOverdue(s: Subscription, now: int, grace: int, orderInFlight: bool)
    requires (s.status == Active || s.status == Expiring) && s.kind != Trial && PastEnd(s.endAt, now)
    ensures
      var expired, overdue := Expire(s, now, grace, orderInFlight).Ok?, MarkOverdue(s, now, grace, orderInFlight).Ok?;
      !(expired && overdue) && (OpenEpisode(s.episodes).None? ==> expired || overdue)
  {
  }

  /** A suspension is accepted exactly with a reason, unless suspended or cancelled, the slot is taken, or an
      episode is open; it opens one that keeps the renewal in force, and gives time back unless the customer
      is at fault. */
  lemma SuspendAcceptedExactly(s: Subscription, reason: Option<Reason>, expected: Option<int>, slotTaken: bool,
                               now: int)
    requires RowOk(s)
    ensures
      var r := Act(s, Suspend, reason, expected, slotTaken, now);
      && (r.Ok? <==> reason.Some? && s.status != Suspended && s.status != Cancelled
                     && (Live(s.status) || !slotTaken) && OpenEpisode(s.episodes).None?)
      && (r.Ok? ==>
            && r.value.status == Suspended && !r.value.autoRenew && r.value.endAt == s.endAt && r.value.kind == s.kind
            && r.value.episodes == s.episodes
               + [Episode(reason.value, reason.value != CustomerViolation, now,
                          None, None, Some(s.autoRenew), expected)])
  {
    hide CloseOpen, RenewedEnd;
  }

  /** Cancelling writes an end date, which the row of a perpetual subscription may not hold. */
  lemma CancelAcceptedExactly(s: Subscription, slotTaken: bool, now: int)
    requires RowOk(s)
    ensures Act(s, Cancel, None, None, slotTaken, now).Ok? <==> s.status != Cancelled && !s.term.Perpetual?
    ensures s.term.Perpetual? && s.status != Cancelled ==> Act(s, Cancel, None, None, slotTaken, now) == Err(Invalid)
  {
    hide CloseOpen;
  }

  /** A paid perpetual subscription, just begun, whose cancel is refused. */
  lemma PerpetualCannotBeCancelled(now: int)
    ensures
      var s := Subscription(Active, Paid, Perpetual, None, false, [], []);
      Fresh(s) && Act(s, Cancel, None, None, false, now) == Err(Invalid)
  {
    var s := Subscription(Active, Paid, Perpetual, None, false, [], []);
    CancelAcceptedExactly(s, false, now);
  }

  ghost predicate Advances(t: Term) {
    t.Cyclic? ==> forall at :: t.advance(at) > at
  }

  /** A renewal is refused only once cancelled, or when another live subscription has the slot; it moves
      the end strictly past both the old end and now, a trial comes out of it paid, and in step the renewal
      choice is in force again. Out of suspension it leaves renewal as it finds it. */
  lemma RenewExtends(s: Subscription, slotTaken: bool, now: int)
    requires RowOk(s) && Advances(s.term)
    ensures
      var r := Act(s, Renew, None, None, slotTaken, now);
      && (r.Ok? <==> s.status != Cancelled && (Live(s.status) || !slotTaken))
      && (r.Ok? ==>
            && r.value.status == Active && r.value.kind != Trial
            && (s.term.Cyclic? ==> r.value.endAt.Some? && r.value.endAt.value > now)
            && (s.term.Cyclic? && s.endAt.Some? ==> r.value.endAt.value > s.endAt.value)
            && (s.term.Perpetual? ==> r.value.endAt.None?)
            && (s.status != Suspended ==> r.value.autoRenew == s.autoRenew)
            && (forall choice, closing :: SuspensionOk(s, choice, closing) ==> r.value.autoRenew == choice))
  {
    hide AtMostOneOpen, CloseOpen;
  }

  // ----- paused days are given back -----

  function Grants(es: seq<Episode>): seq<int> {
    seq(|es|, i requires 0 <= i < |es| => if es[i].resumedAt.Some? then GrantOf(es[i]) else 0)
  }

  /** A pause is given back in full, rounded up by less than a day. */
  lemma GrantCovers(e: Episode)
    requires e.resumedAt.Some? && e.pausedAt <= e.resumedAt.value
    ensures
      var paused := e.resumedAt.value - e.pausedAt;
      if e.extendsTerm then paused <= GrantOf(e) < paused + DAY && GrantOf(e) % DAY == 0 else GrantOf(e) == 0
  {
  }

  /** The end date is the first one, plus every pause so far except what is still to be settled. */
  predicate TermKept(s: Subscription, end: int) {
    s.endAt == Some(end + Sum(Grants(s.episodes)) - Sum(Dues(s.episodes)))
  }

  lemma SettledNothingDue(es: seq<Episode>)
    ensures Sum(Dues(Granted(es))) == 0 && Grants(Granted(es)) == Grants(es)
  {
    SumNone(Dues(Granted(es)));
  }

  /** Closing an episode owes what it grants. */
  lemma ClosingOwes(es: seq<Episode>, now: int)
    requires forall i :: 0 <= i < |es| && es[i].Open() ==> es[i].granted.None?
    ensures Sum(Grants(CloseOpen(es, now))) - Sum(Dues(CloseOpen(es, now))) == Sum(Grants(es)) - Sum(Dues(es))
  {
    var fs := CloseOpen(es, now);
    var closing := seq(|es|, i requires 0 <= i < |es| => if es[i].Open() then GrantOf(fs[i]) else 0);
    SumOfSum(Grants(fs), Grants(es), closing);
    SumOfSum(Dues(fs), Dues(es), closing);
  }

  lemma OpeningOwesNothing(es: seq<Episode>, e: Episode)
    requires e.Open()
    ensures Sum(Grants(es + [e])) == Sum(Grants(es)) && Sum(Dues(es + [e])) == Sum(Dues(es))
  {
    assert Grants(es + [e]) == Grants(es) + [0] && Dues(es + [e]) == Dues(es) + [0];
    SumAppend(Grants(es), 0);
    SumAppend(Dues(es), 0);
  }

  predicate OpenUngranted(es: seq<Episode>) {
    forall i :: 0 <= i < |es| && es[i].Open() ==> es[i].granted.None?
  }

  predicate EndsNoPeriod(op: Op) {
    !op.OpServiceCancel? && (op.OpAct? ==> op.action == Suspend || op.action == Resume)
  }

  lemma StepKeepsTerm(y: System, op: Op, end: int)
    requires TermKept(y.row, end) && OpenUngranted(y.row.episodes) && EndsNoPeriod(op)
    ensures TermKept(Apply(y, op).row, end) && OpenUngranted(Apply(y, op).row.episodes)
  {
    var s, n := y.row, Apply(y, op).row;
    hide Sum, EffectiveEnd, PastEnd, Storable, RenewedEnd, InGrace;
    if Attempt(s, op).Ok? {
      match op
      case OpAct(action, reason, expected, _, now) =>
        ClosingOwes(s.episodes, now);
        if action == Suspend {
          OpeningOwesNothing(s.episodes,
                             Episode(reason.value, ExtendsTerm(reason.value), now,
                                     None, None, Some(s.autoRenew), expected));
        }
      case OpEstimate(_) =>
        assert Attempt(s, op).Ok? ==> Grants(n.episodes) == Grants(s.episodes) && Dues(n.episodes) == Dues(s.episodes);
      case OpSettle => SettledNothingDue(s.episodes);
      case OpCloseEpisode(now) => ClosingOwes(s.episodes, now);
      case _ =>
    }
  }

  /** Once settled, the end date is `end` plus exactly the days of every pause that was ended, and
      settling again changes nothing. */
  predicate GivenBack(s: Subscription, end: int) {
    && SettleExtension(s).endAt == Some(end + Sum(Grants(s.episodes)))
    && SettleExtension(SettleExtension(s)).endAt == SettleExtension(s).endAt
    && SettleExtension(SettleExtension(s)).episodes == SettleExtension(s).episodes
  }

  lemma {:induction false} RunKeepsTerm(y: System, ops: seq<Op>, end: int)
    requires TermKept(y.row, end) && OpenUngranted(y.row.episodes)
    requires forall i :: 0 <= i < |ops| ==> EndsNoPeriod(ops[i])
    ensures GivenBack(Run(y, ops).row, end)
    decreases ops
  {
    if ops == [] {
      SettledOnce(y.row, end);
    } else {
      StepKeepsTerm(y, ops[0], end);
      hide Apply, GivenBack, TermKept, OpenUngranted;
      forall i | 0 <= i < |ops[1..]| ensures EndsNoPeriod(ops[1..][i]) { assert ops[1..][i] == ops[i + 1]; }
      RunKeepsTerm(Apply(y, ops[0]), ops[1..], end);
    }
  }

  lemma SettledOnce(s: Subscription, end: int)
    requires TermKept(s, end)
    ensures GivenBack(s, end)
  {
    SettledNothingDue(s.episodes);
    assert Granted(Granted(s.episodes)) == Granted(s.episodes);
    hide Sum, Grants;
  }

  /** From the start, through suspensions, resumptions, estimates, deadlines in two transactions, expiries and
      settlements in any order, every pause that was ended is given back. */
  lemma PausesGivenBack(s: Subscription, ops: seq<Op>)
    requires Fresh(s) && s.endAt.Some?
    requires forall i :: 0 <= i < |ops| ==> EndsNoPeriod(ops[i])
    ensures GivenBack(Run(System(s, false), ops).row, s.endAt.value)
  {
    assert Grants(s.episodes) == [] && Dues(s.episodes) == [];
    RunKeepsTerm(System(s, false), ops, s.endAt.value);
  }
}
