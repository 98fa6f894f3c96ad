/**
 * A subscription row with its suspension episodes and its history, and the operator actions on it.
 * Instants and durations in seconds.
 */
module Subscriptions {
  import opened Common
  import opened Sums

  datatype Status = Active | Expiring | Trialing | Overdue | Suspended | Expired | Cancelled

  datatype Kind = Paid | Trial | Free

  /** Perpetual, or a cycle that leads from one instant to the end of the period beginning there. */
  datatype Term = Perpetual | Cyclic(advance: int -> int)

  datatype Reason = PlatformOps | DisputeReview | CustomerViolation | Other

  datatype Action = Renew | Suspend | Resume | Cancel

  /** `auto_renew_before` is null on episodes older than the column. */
  datatype Episode = Episode(
    reason: Reason, extendsTerm: bool, pausedAt: int, resumedAt: Option<int>, granted: Option<int>,
    autoRenewBefore: Option<bool>, expectedResumeAt: Option<int>) {
    predicate Open() { resumedAt.None? }
  }

  datatype Change = Change(kind: string, from: Status, to: Status)

  datatype Subscription = Subscription(
    status: Status, kind: Kind, term: Term, endAt: Option<int>, autoRenew: bool,
    episodes: seq<Episode>, history: seq<Change>)

  predicate Live(s: Status) { s != Expired && s != Cancelled }

  /** Paused days are given back for every reason but the customer's own violation. */
  function ExtendsTerm(r: Reason): bool { r != CustomerViolation }

  function ChangeKind(a: Action): string {
    match a
    case Renew => "renewed"
    case Suspend => "suspended"
    case Resume => "resumed"
    case Cancel => "cancelled"
  }

  // ----- episodes -----

  /** `where resumed_at is null` */
  function OpenEpisode(es: seq<Episode>): (r: Option<nat>)
    ensures r.Some? ==> r.value < |es| && es[r.value].Open()
    ensures forall j :: 0 <= j < (if r.Some? then r.value else |es|) ==> !es[j].Open()
  {
    if es == [] then None
    else if es[0].Open() then Some(0)
    else
      var rest := OpenEpisode(es[1..]);
      assert forall j :: 0 < j < |es| ==> es[j] == es[1..][j - 1];
      if rest.Some? then Some(rest.value + 1) else None
  }

  function CloseOpen(es: seq<Episode>, now: int): seq<Episode> {
    seq(|es|, i requires 0 <= i < |es| => if es[i].Open() then es[i].(resumedAt := Some(now)) else es[i])
  }

  // ----- the four actions -----

  /** End date plus the pause in progress, when that pause is given back. */
  function EffectiveEnd(s: Subscription, now: int): Option<int> {
    match s.endAt
    case None => None
    case Some(end) =>
      var open := OpenEpisode(s.episodes);
      if open.Some? && s.episodes[open.value].extendsTerm then Some(end + now - s.episodes[open.value].pausedAt)
      else Some(end)
  }

  predicate PastEnd(end: Option<int>, now: int) { end.Some? && end.value < now }

  function ResolveTarget(action: Action, s: Subscription, now: int): Result<Status> {
    match action
    case Renew => if s.status == Cancelled then Err(Conflict) else Ok(Active)
    case Suspend => if s.status == Suspended || s.status == Cancelled then Err(Conflict) else Ok(Suspended)
    case Resume =>
      if s.status != Suspended then Err(Conflict)
      else if PastEnd(EffectiveEnd(s, now), now) then Err(Conflict)
      else Ok(Active)
    case Cancel => if s.status == Cancelled then Err(Conflict) else Ok(Cancelled)
  }

  function RenewedEnd(s: Subscription, now: int): Option<int> {
    match s.term
    case Perpetual => s.endAt
    case Cyclic(advance) => Some(advance(if s.endAt.Some? && s.endAt.value > now then s.endAt.value else now))
  }

  /** The `update` of the subscription row. */
  function Updated(s: Subscription, action: Action, to: Status, now: int): Subscription {
    s.(status := to,
       kind := if action == Renew && s.kind == Trial then Paid else s.kind,
       autoRenew := if action == Suspend || action == Cancel then false else s.autoRenew,
       endAt := if action == Cancel then Some(now) else if action == Renew then RenewedEnd(s, now) else s.endAt)
  }

  /** Check constraints and the one-live-subscription index of the row; a breach aborts the transaction. */
  predicate Storable(before: Subscription, after: Subscription, slotTaken: bool) {
    && (after.term.Perpetual? ==> after.endAt.None?)
    && (after.kind == Trial ==> !after.autoRenew)
    && !(slotTaken && !Live(before.status) && Live(after.status))
  }

  /** Entering suspension opens an episode; leaving it closes the one in progress. */
  function WithEpisodes(s: Subscription, u: Subscription, reason: Option<Reason>, expected: Option<int>,
       now: int): Result<Subscription> {
    if s.status != Suspended && u.status == Suspended then
      if reason.None? then Err(BadRequest)
      else if OpenEpisode(s.episodes).Some? then Err(Invalid)
      else
        var episode := Episode(reason.value, ExtendsTerm(reason.value), now, None, None, Some(s.autoRenew), expected);
        Ok(u.(episodes := s.episodes + [episode]))
    else if s.status == Suspended && u.status != Suspended then
      var open := OpenEpisode(s.episodes);
      var remembered := if open.Some? then s.episodes[open.value].autoRenewBefore else None;
      Ok(u.(episodes := CloseOpen(s.episodes, now),
            autoRenew := if u.status != Cancelled && remembered.Some? then remembered.value else u.autoRenew))
    else Ok(u)
  }

  function Act(s: Subscription, action: Action, reason: Option<Reason>, expected: Option<int>, slotTaken: bool,
       now: int): Result<Subscription> {
    if action == Suspend && reason.None? then Err(BadRequest)
    else
      match ResolveTarget(action, s, now)
      case Err(e) => Err(e)
      case Ok(to) =>
        var u := Updated(s, action, to, now).(history := s.history + [Change(ChangeKind(action), s.status, to)]);
        if !Storable(s, u, slotTaken) then Err(Invalid)
        else
          match WithEpisodes(s, u, reason, expected, now)
          case Err(e) => Err(e)
          case Ok(n) => if n.kind == Trial && n.autoRenew then Err(Invalid) else Ok(n)
  }

  function UpdateEstimate(s: Subscription, expected: Option<int>): Result<Subscription> {
    match OpenEpisode(s.episodes)
    case None => Err(Conflict)
    case Some(i) =>
      Ok(s.(episodes := s.episodes[i := s.episodes[i].(expectedResumeAt := expected)],
            history := s.history + [Change("suspension_updated", Suspended, Suspended)]))
  }

  // ----- the subscription service -----

  const DAY := 86400

  /** Paused time in whole days, rounded up. */
  function GrantOf(e: Episode): int
    requires e.resumedAt.Some?
  {
    if e.extendsTerm then (e.resumedAt.value - e.pausedAt + DAY - 1) / DAY * DAY else 0
  }

  predicate Due(e: Episode) { e.resumedAt.Some? && e.granted.None? }

  function Granted(es: seq<Episode>): seq<Episode> {
    seq(|es|, i requires 0 <= i < |es| => if Due(es[i]) then es[i].(granted := Some(GrantOf(es[i]))) else es[i])
  }

  /** What closed episodes have yet to give back. */
  function Dues(es: seq<Episode>): seq<int> {
    seq(|es|, i requires 0 <= i < |es| => if Due(es[i]) then GrantOf(es[i]) else 0)
  }

  /** `settleResumedSuspensions` for one subscription. */
  function SettleExtension(s: Subscription): Subscription {
    s.(episodes := Granted(s.episodes),
       endAt := if s.endAt.Some? then Some(s.endAt.value + Sum(Dues(s.episodes))) else None)
  }

  /** A pause past the longest allowed one: resumed, or ended for a violation. The episode is closed by a
      second transaction. */
  function SuspensionDeadline(s: Subscription): Result<Subscription> {
    var open := OpenEpisode(s.episodes);
    if open.None? || s.status != Suspended then Err(NotFound)
    else
      var e := s.episodes[open.value];
      var to := if e.extendsTerm then Active else Cancelled;
      var autoRenew :=
        if !e.extendsTerm then false else if e.autoRenewBefore.Some? then e.autoRenewBefore.value else s.autoRenew;
      if s.kind == Trial && autoRenew then Err(Invalid)
      else Ok(s.(status := to, autoRenew := autoRenew,
                 history := s.history + [Change(if to == Active then "resumed" else "cancelled", s.status, to)]))
  }

  /** A status change with its history row. */
  function Moved(s: Subscription, kind: string, to: Status): Subscription {
    s.(status := to, history := s.history + [Change(kind, s.status, to)])
  }

  /** Renewing, over by at most the grace period, and a renewal order may still be paid. */
  predicate InGrace(s: Subscription, now: int, grace: int, orderInFlight: bool) {
    s.autoRenew && s.endAt.Some? && s.endAt.value + grace >= now && orderInFlight
  }

  /** `findExpiredSubscriptionIds`: suspended rows too, by the end date the pause in progress gives them. */
  predicate Lapsed(s: Subscription, now: int, grace: int, orderInFlight: bool) {
    && s.kind != Trial
    && (s.status == Active || s.status == Expiring || s.status == Overdue || s.status == Suspended)
    && EffectiveEnd(s, now).Some? && EffectiveEnd(s, now).value <= now
    && !InGrace(s, now, grace, orderInFlight)
  }

  /** The expiry sweep writes the status alone: the episode of a suspended row stays open, its renewal off. */
  function Expire(s: Subscription, now: int, grace: int, orderInFlight: bool): Result<Subscription> {
    if Lapsed(s, now, grace, orderInFlight) then Ok(Moved(s, "expired", Expired)) else Err(Conflict)
  }

  /** The sweep of trials whose own end date, which is not modelled, has passed. */
  function LapseTrial(s: Subscription): Result<Subscription> {
    if s.kind == Trial && s.status == Trialing then Ok(Moved(s, "expired", Expired)) else Err(Conflict)
  }

  /** `cancelSubscription`, asked for by the customer or by a refund; an open episode stays open. */
  function ServiceCancel(s: Subscription, now: int): Result<Subscription> {
    if !Live(s.status) then Err(Conflict)
    else if s.term.Perpetual? then Err(Invalid)
    else Ok(Moved(s, "cancelled", Cancelled).(endAt := Some(now), autoRenew := false))
  }

  function SetAutoRenew(s: Subscription, enabled: bool): Result<Subscription> {
    if !Live(s.status) || (enabled && s.kind == Trial) then Err(Conflict)
    else if s.autoRenew == enabled then Ok(s)
    else Ok(Moved(s, if enabled then "auto_renew_on" else "auto_renew_off", s.status).(autoRenew := enabled))
  }

  function MarkExpiring(s: Subscription, now: int, lead: int): Result<Subscription> {
    if s.status == Active && !s.autoRenew && s.kind != Trial && s.term.Cyclic? && s.endAt.Some?
       && now < s.endAt.value <= now + lead
    then Ok(Moved(s, "updated", Expiring)) else Err(Conflict)
  }

  function MarkOverdue(s: Subscription, now: int, grace: int, orderInFlight: bool): Result<Subscription> {
    if (s.status == Active || s.status == Expiring) && s.kind != Trial && s.endAt.Some? && s.endAt.value <= now
       && InGrace(s, now, grace, orderInFlight)
    then Ok(Moved(s, "updated", Overdue)) else Err(Conflict)
  }

  // ----- runs -----

  /** The row, and whether the deadline job has moved its status and has yet to close its episode. */
  datatype System = System(row: Subscription, closing: bool)

  /** An operator's request, or one transaction of the subscription service; a job's scan and its update of
      one row are one step. */
  datatype Op =
    | OpAct(action: Action, reason: Option<Reason>, expected: Option<int>, slotTaken: bool, now: int)
    | OpEstimate(expectedResumeAt: Option<int>)
    | OpSettle
    | OpDeadline
    | OpCloseEpisode(at: int)
    | OpExpire(now: int, grace: int, orderInFlight: bool)
    | OpLapseTrial
    | OpServiceCancel(now: int)
    | OpAutoRenew(enabled: bool)
    | OpMarkExpiring(now: int, lead: int)
    | OpMarkOverdue(now: int, grace: int, orderInFlight: bool)

  function Attempt(s: Subscription, op: Op): Result<Subscription> {
    match op
    case OpAct(action, reason, expected, slotTaken, now) => Act(s, action, reason, expected, slotTaken, now)
    case OpEstimate(expected) => UpdateEstimate(s, expected)
    case OpSettle => Ok(SettleExtension(s))
    case OpDeadline => SuspensionDeadline(s)
    case OpCloseEpisode(now) => Ok(s.(episodes := CloseOpen(s.episodes, now)))
    case OpExpire(now, grace, orderInFlight) => Expire(s, now, grace, orderInFlight)
    case OpLapseTrial => LapseTrial(s)
    case OpServiceCancel(now) => ServiceCancel(s, now)
    case OpAutoRenew(enabled) => SetAutoRenew(s, enabled)
    case OpMarkExpiring(now, lead) => MarkExpiring(s, now, lead)
    case OpMarkOverdue(now, grace, orderInFlight) => MarkOverdue(s, now, grace, orderInFlight)
  }

  /** The job closes an episode only after its own status change. */
  function Apply(y: System, op: Op): System {
    if op.OpCloseEpisode? && !y.closing then y
    else
      match Attempt(y.row, op)
      case Ok(n) => System(n, op.OpDeadline? || (y.closing && !op.OpCloseEpisode?))
      case Err(_) => y
  }

  function Run(y: System, ops: seq<Op>): System
    decreases ops
  {
    if ops == [] then y else Run(Apply(y, ops[0]), ops[1..])
  }
}
