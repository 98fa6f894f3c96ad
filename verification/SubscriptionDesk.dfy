/** The subscription row, its episodes and its history as the handlers change them. */
module SubscriptionDesk {
  import opened Common
  import opened Subscriptions

  class SubscriptionRows {
    var status: Status
    var kind: Kind
    const term: Term
    var endAt: Option<int>
    var autoRenew: bool
    var episodes: seq<Episode>
    var history: seq<Change>

    function State(): Subscription
      reads this
    {
      Subscription(status, kind, term, endAt, autoRenew, episodes, history)
    }

    constructor (status: Status, kind: Kind, term: Term, endAt: Option<int>, autoRenew: bool)
      ensures State() == Subscription(status, kind, term, endAt, autoRenew, [], [])
    {
      this.status, this.kind, this.term, this.endAt, this.autoRenew := status, kind, term, endAt, autoRenew;
      episodes, history := [], [];
    }

    /** The row locked for update, with the end date as the pause in progress would have it. */
    method Target(action: Action, now: int) returns (to: Result<Status>)
      ensures to == ResolveTarget(action, State(), now)
    {
      match action
      case Renew => to := if status == Cancelled then Err(Conflict) else Ok(Active);
      case Suspend => to := if status == Suspended || status == Cancelled then Err(Conflict) else Ok(Suspended);
      case Resume =>
        if status != Suspended { return Err(Conflict); }
        var effectiveEnd := endAt;
        var open := OpenEpisode(episodes);
        if endAt.Some? && open.Some? && episodes[open.value].extendsTerm {
          effectiveEnd := Some(endAt.value + now - episodes[open.value].pausedAt);
        }
        to := if PastEnd(effectiveEnd, now) then Err(Conflict) else Ok(Active);
      case Cancel => to := if status == Cancelled then Err(Conflict) else Ok(Cancelled);
    }

    method RunSubscriptionAction(action: Action, reason: Option<Reason>, expected: Option<int>,
                                 slotTaken: bool, now: int)
        returns (refusal: Option<Error>)
      modifies this
      ensures Ended(old(State()), Act(old(State()), action, reason, expected, slotTaken, now), State(), refusal)
    {
      if action == Suspend && reason.None? { return Some(BadRequest); }
      var before := State();
      var target := Target(action, now);
      if target.Err? { return Some(target.error); }
      var to, fromStatus, renewsBefore := target.value, status, autoRenew;
      refusal := UpdateRow(action, to, slotTaken, now);
      if refusal.Some? { return; }
      if fromStatus != Suspended && to == Suspended {
        if OpenEpisode(episodes).Some? {
          RollBack(before);
          return Some(Invalid);
        }
        episodes := episodes + [Episode(reason.value, ExtendsTerm(reason.value), now,
                                       None, None, Some(renewsBefore), expected)];
      } else if fromStatus == Suspended && to != Suspended {
        var open := OpenEpisode(episodes);
        if open.Some? && to != Cancelled && episodes[open.value].autoRenewBefore.Some? {
          autoRenew := episodes[open.value].autoRenewBefore.value;
        }
        episodes := CloseOpen(episodes, now);
        if kind == Trial && autoRenew {
          RollBack(before);
          return Some(Invalid);
        }
      }
      refusal := None;
    }

    /** The row update under its constraints, then the history row. */
    method UpdateRow(action: Action, to: Status, slotTaken: bool, now: int) returns (refusal: Option<Error>)
      modifies this
      ensures
        var change := Change(ChangeKind(action), old(status), to);
        var u := Updated(old(State()), action, to, now).(history := old(history) + [change]);
        if Storable(old(State()), u, slotTaken) then refusal == None && State() == u
        else refusal == Some(Invalid) && State() == old(State())
    {
      var kind' := if action == Renew && kind == Trial then Paid else kind;
      var autoRenew' := if action == Suspend || action == Cancel then false else autoRenew;
      var endAt' := endAt;
      if action == Cancel {
        endAt' := Some(now);
      } else if action == Renew && term.Cyclic? {
        endAt' := Some(term.advance(if endAt.Some? && endAt.value > now then endAt.value else now));
      }
      if (term.Perpetual? && endAt'.Some?) || (kind' == Trial && autoRenew')
         || (slotTaken && !Live(status) && Live(to)) {
        return Some(Invalid);
      }
      history := history + [Change(ChangeKind(action), status, to)];
      status, kind, autoRenew, endAt := to, kind', autoRenew', endAt';
      refusal := None;
    }

    method RollBack(s: Subscription)
      requires s.term == term
      modifies this
      ensures State() == s
    {
      status, kind, endAt, autoRenew := s.status, s.kind, s.endAt, s.autoRenew;
      episodes, history := s.episodes, s.history;
    }

    method UpdateSuspensionEstimate(expected: Option<int>) returns (refusal: Option<Error>)
      modifies this
      ensures Ended(old(State()), UpdateEstimate(old(State()), expected), State(), refusal)
    {
      var open := OpenEpisode(episodes);
      if open.None? { return Some(Conflict); }
      episodes := episodes[open.value := episodes[open.value].(expectedResumeAt := expected)];
      history := history + [Change("suspension_updated", Suspended, Suspended)];
      refusal := None;
    }
  }
}
