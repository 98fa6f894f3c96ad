/** What each operation on a subscription does to the row, its episodes and its history, and what a pause costs. */
module SubscriptionOutcomes {
  import opened Common
  import opened Sums
  import opened Subscriptions
  import opened SubscriptionHistory

  // ----- operator actions -----

  /** Each open episode ends at this instant, and the others are as they were. */
  predicate ClosedAt(es: seq<Episode>, fs: seq<Episode>, now: int) {
    && |fs| == |es|
    && forall i :: 0 <= i < |es| ==>
         fs[i] == if es[i].resumedAt.None? then es[i].(resumedAt := Some(now)) else es[i]
  }

  /** Whatever leaves suspension ends the pause at that instant; a suspension adds an episode; nothing else
      touches them. */
  lemma PauseEndsNow(s: Subscription, action: Action, reason: Option<Reason>, expected: Option<int>,
                     slotTaken: bool, now: int)
    requires Act(s, action, reason, expected, slotTaken, now).Ok?
    ensures
      var n := Act(s, action, reason, expected, slotTaken, now).value;
      && (s.status == Suspended ==> n.status != Suspended && ClosedAt(s.episodes, n.episodes, now))
      && (s.status != Suspended && action != Suspend ==> n.episodes == s.episodes)
      && (action == Suspend ==> |n.episodes| == |s.episodes| + 1 && s.episodes <= n.episodes)
  {
    hide EffectiveEnd, PastEnd, RenewedEnd, Storable;
  }

  function Later(end: Option<int>, now: int): int { if end.Some? && end.value > now then end.value else now }

  /** The row an accepted action leaves, and the one history row it writes. */
  lemma ActedExactly(s: Subscription, action: Action, reason: Option<Reason>, expected: Option<int>,
                     slotTaken: bool, now: int)
    requires Act(s, action, reason, expected, slotTaken, now).Ok?
    ensures
      var n := Act(s, action, reason, expected, slotTaken, now).value;
      && n.term == s.term
      && (action == Suspend ==> n.status == Suspended && n.endAt == s.endAt && n.kind == s.kind && !n.autoRenew)
      && (action == Resume ==> n.status == Active && n.endAt == s.endAt && n.kind == s.kind)
      && (action == Cancel ==> n.status == Cancelled && n.endAt == Some(now) && n.kind == s.kind && !n.autoRenew)
      && (action == Renew ==>
            && n.status == Active && n.kind == (if s.kind == Trial then Paid else s.kind)
            && n.endAt == match s.term
                          case Perpetual => s.endAt
                          case Cyclic(advance) => Some(advance(Later(s.endAt, now))))
  {
    hide EffectiveEnd, PastEnd, Storable, CloseOpen;
  }

  lemma ActIsRecorded(s: Subscription, action: Action, reason: Option<Reason>, expected: Option<int>,
                      slotTaken: bool, now: int)
    requires Act(s, action, reason, expected, slotTaken, now).Ok?
    ensures
      var n := Act(s, action, reason, expected, slotTaken, now).value;
      && |n.history| == |s.history| + 1 && s.history <= n.history
      && n.history[|s.history|].from == s.status && n.history[|s.history|].to == n.status
      && n.history[|s.history|].kind == match action
                                        case Renew => "renewed"
                                        case Suspend => "suspended"
                                        case Resume => "resumed"
                                        case Cancel => "cancelled"
  {
    hide EffectiveEnd, PastEnd, RenewedEnd, Storable, CloseOpen;
  }

  /** A resume puts back the remembered renewal choice, or leaves renewal off where none was remembered. */
  lemma ResumeRestoresChoice(s: Subscription, slotTaken: bool, now: int)
    requires Act(s, Resume, None, None, slotTaken, now).Ok?
    ensures
      var open := OpenEpisode(s.episodes);
      var remembered := if open.Some? then s.episodes[open.value].autoRenewBefore else None;
      Act(s, Resume, None, None, slotTaken, now).value.autoRenew
        == if remembered.Some? then remembered.value else s.autoRenew
  {
    hide EffectiveEnd, PastEnd, Storable, CloseOpen;
  }

  /** An edit is taken exactly while an episode is open; it changes that estimate and writes one history row. */
  lemma EstimateEditedExactly(s: Subscription, expected: Option<int>)
    requires AtMostOneOpen(s.episodes)
    ensures UpdateEstimate(s, expected).Ok? <==> exists i :: 0 <= i < |s.episodes| && s.episodes[i].Open()
    ensures UpdateEstimate(s, expected).Ok? ==>
      var n := UpdateEstimate(s, expected).value;
      && n == s.(episodes := n.episodes, history := n.history) && |n.episodes| == |s.episodes|
      && (forall i :: 0 <= i < |s.episodes| ==>
            n.episodes[i] == if s.episodes[i].Open() then s.episodes[i].(expectedResumeAt := expected)
                             else s.episodes[i])
      && n.history == s.history + [Change("suspension_updated", Suspended, Suspended)]
  {
    if UpdateEstimate(s, expected).Ok? {
      var k := OpenEpisode(s.episodes).value;
      assert s.episodes[k].Open();
    }
  }

  // ----- service steps -----

  /** The deadline needs a suspension with its episode: a pause that is given back is resumed with its renewal
      choice, a violation is cancelled, and the episode is left for the second transaction. */
  lemma DeadlineExactly(s: Subscription, choice: bool, closing: bool)
    requires SuspensionOk(s, choice, closing)
    ensures SuspensionDeadline(s).Ok? <==> s.status == Suspended
    ensures s.status == Suspended ==>
      var n, back := SuspensionDeadline(s).value, s.episodes[OpenEpisode(s.episodes).value].extendsTerm;
      && n.status == (if back then Active else Cancelled) && n.autoRenew == (back && choice)
      && n.episodes == s.episodes && n.endAt == s.endAt && n.kind == s.kind && n.term == s.term
      && n.history == s.history + [Change(if back then "resumed" else "cancelled", Suspended, n.status)]
  {
    hide AtMostOneOpen;
  }

  /** The second transaction ends the pause at its own instant, and happens only after the first. */
  lemma DeadlineClosesNow(y: System, at: int)
    ensures
      var n := Apply(y, OpCloseEpisode(at));
      && !n.closing && n.row == y.row.(episodes := n.row.episodes)
      && (if y.closing then ClosedAt(y.row.episodes, n.row.episodes, at) else n == y)
  {
  }

  /** Only a status and a history row are written. */
  ghost predicate OnlyMoved(s: Subscription, n: Subscription, kind: string, to: Status) {
    n == s.(status := to, history := n.history) && n.history == s.history + [Change(kind, s.status, to)]
  }

  /** When the service may expire, cancel, mark and switch, and all that it then writes. */
  lemma ServiceStepsExactly(s: Subscription, now: int, lead: int, grace: int, orderInFlight: bool, enabled: bool)
    ensures
      var r := Expire(s, now, grace, orderInFlight);
      (r.Ok? <==> Lapsed(s, now, grace, orderInFlight)) && (r.Ok? ==> OnlyMoved(s, r.value, "expired", Expired))
    ensures
      var r := LapseTrial(s);
      (r.Ok? <==> s.kind == Trial && s.status == Trialing) && (r.Ok? ==> OnlyMoved(s, r.value, "expired", Expired))
    ensures
      var r := ServiceCancel(s, now);
      && (r.Ok? <==> s.status != Cancelled && s.status != Expired && s.term.Cyclic?)
      && (r.Ok? ==> OnlyMoved(s.(endAt := Some(now), autoRenew := false), r.value, "cancelled", Cancelled))
    ensures
      var r := MarkExpiring(s, now, lead);
      && (r.Ok? <==> s.status == Active && !s.autoRenew && s.kind != Trial && s.term.Cyclic? && s.endAt.Some?
                     && now < s.endAt.value && s.endAt.value - now <= lead)
      && (r.Ok? ==> OnlyMoved(s, r.value, "updated", Expiring))
    ensures
      var r := MarkOverdue(s, now, grace, orderInFlight);
      && (r.Ok? <==> (s.status == Active || s.status == Expiring) && s.autoRenew && s.kind != Trial && s.endAt.Some?
                     && s.endAt.value <= now && now - s.endAt.value <= grace && orderInFlight)
      && (r.Ok? ==> OnlyMoved(s, r.value, "updated", Overdue))
    ensures
      var r := SetAutoRenew(s, enabled);
      && (r.Ok? <==> s.status != Cancelled && s.status != Expired && !(enabled && s.kind == Trial))
      && (r.Ok? && s.autoRenew == enabled ==> r.value == s)
      && (r.Ok? && s.autoRenew != enabled ==>
            OnlyMoved(s.(autoRenew := enabled), r.value,
                      if enabled then "auto_renew_on" else "auto_renew_off", s.status))
  {
    hide Lapsed;
  }

  // ----- what a pause costs -----

  /** Days owed before and after a pause that ran from t0 to t1. */
  lemma PauseOwes(es: seq<Episode>, e: Episode, fs: seq<Episode>, t1: int)
    requires OpenEpisode(es).None? && e.Open() && e.granted.None? && ClosedAt(es + [e], fs, t1)
    ensures Sum(Dues(fs)) == Sum(Dues(es)) + GrantOf(e.(resumedAt := Some(t1)))
  {
    assert forall i :: 0 <= i < |es| ==> (es + [e])[i] == es[i] && !es[i].Open();
    assert Dues(fs) == Dues(es) + [GrantOf(e.(resumedAt := Some(t1)))];
    SumAppend(Dues(es), GrantOf(e.(resumedAt := Some(t1))));
  }

  /** Whole days that cover the pause, by less than a day more. */
  predicate CoversInDays(granted: int, pause: int) {
    granted % 86_400 == 0 && pause <= granted < pause + 86_400
  }

  /** From end to end: suspended at t0, resumed at t1 and settled, a subscription ends later by the whole days that
      cover the pause, beyond what earlier pauses were owed; not at all after a violation. */
  lemma PauseMovesTheEnd(s: Subscription, reason: Reason, expected: Option<int>, slotTaken: bool, t0: int, t1: int)
    requires RowOk(s) && s.endAt.Some? && t0 <= t1
    requires Act(s, Suspend, Some(reason), expected, slotTaken, t0).Ok?
    requires
      var paused := Act(s, Suspend, Some(reason), expected, slotTaken, t0).value;
      Act(paused, Resume, None, None, slotTaken, t1).Ok?
    ensures
      var paused := Act(s, Suspend, Some(reason), expected, slotTaken, t0).value;
      var resumed := Act(paused, Resume, None, None, slotTaken, t1).value;
      var before, after := SettleExtension(s).endAt, SettleExtension(resumed).endAt;
      && before.Some? && after.Some?
      && (reason == CustomerViolation ==> after == before)
      && (reason != CustomerViolation ==> CoversInDays(after.value - before.value, t1 - t0))
  {
    SuspendAcceptedExactly(s, Some(reason), expected, slotTaken, t0);
    var paused := Act(s, Suspend, Some(reason), expected, slotTaken, t0).value;
    PauseEndsNow(paused, Resume, None, None, slotTaken, t1);
    ActedExactly(paused, Resume, None, None, slotTaken, t1);
    var resumed := Act(paused, Resume, None, None, slotTaken, t1).value;
    hide Act, Sum, Dues, Granted;
    var e := Episode(reason, reason != CustomerViolation, t0, None, None, Some(s.autoRenew), expected);
    PauseOwes(s.episodes, e, resumed.episodes, t1);
    GrantCovers(e.(resumedAt := Some(t1)));
  }

  /** Ten days in the middle of a term of a hundred. */
  lemma TenDaysGivenBack(advance: int -> int)
    ensures
      var s := Subscription(Active, Paid, Cyclic(advance), Some(100 * DAY), false, [], []);
      var paused := Act(s, Suspend, Some(PlatformOps), None, false, 10 * DAY);
      paused.Ok? && Act(paused.value, Resume, None, None, false, 20 * DAY).Ok?
      && SettleExtension(Act(paused.value, Resume, None, None, false, 20 * DAY).value).endAt == Some(110 * DAY)
  {
    var s := Subscription(Active, Paid, Cyclic(advance), Some(100 * DAY), false, [], []);
    SuspendAcceptedExactly(s, Some(PlatformOps), None, false, 10 * DAY);
    var paused := Act(s, Suspend, Some(PlatformOps), None, false, 10 * DAY).value;
    assert OpenEpisode(paused.episodes) == Some(0);
    assert Act(paused, Resume, None, None, false, 20 * DAY).Ok?;
    PauseMovesTheEnd(s, PlatformOps, None, false, 10 * DAY, 20 * DAY);
    assert Dues(s.episodes) == [];
  }
}
