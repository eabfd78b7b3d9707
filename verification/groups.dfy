/** Teams (`Group`): visible points and join tokens. */
module Groups {
  import opened Wrappers
  import opened Base
  import opened Text
  import opened Events

  datatype Group = Group(
    id: Id,
    name: Option<string>,
    points: int,
    falseInformation: Option<bool>,
    kopfgeld: Option<int>,
    joinToken: Option<string>)

  /** An event still hiding a deduction from group `gid`: it targets the
      group, its `hidden_until` lies after `now` and it carries `target_points`. */
  predicate HidesDeduction(e: Event, gid: Id, now: Time)
  {
    && e.draft.targetGroup == Some(gid)
    && e.outcome.hiddenUntil.Some? && e.outcome.hiddenUntil.value > now
    && e.outcome.targetPoints.Some?
  }

  /** The sum of `target_points` over the events still hiding a deduction. */
  function HiddenDeductions(events: seq<Event>, gid: Id, now: Time): int
    decreases |events|
  {
    if |events| == 0 then 0
    else
      (if HidesDeduction(events[0], gid, now) then events[0].outcome.targetPoints.value else 0)
      + HiddenDeductions(events[1..], gid, now)
  }

  /** `player_visible_points`: the balance with still-hidden deductions added back. */
  function PlayerVisiblePoints(g: Group, events: seq<Event>, now: Time): int
  {
    g.points - HiddenDeductions(events, g.id, now)
  }

  /** An event that hides nothing from the group leaves its visible points unchanged. */
  lemma {:induction false} VisiblePointsIgnoreOthers(g: Group, events: seq<Event>, e: Event, now: Time)
    requires !HidesDeduction(e, g.id, now)
    ensures PlayerVisiblePoints(g, events + [e], now) == PlayerVisiblePoints(g, events, now)
  {
    HiddenAppend(events, e, g.id, now);
  }

  /** An event still hiding a deduction adds its `target_points` back. */
  lemma {:induction false} VisiblePointsAddBackHidden(g: Group, events: seq<Event>, e: Event, now: Time)
    requires HidesDeduction(e, g.id, now)
    ensures PlayerVisiblePoints(g, events + [e], now)
         == PlayerVisiblePoints(g, events, now) - e.outcome.targetPoints.value
  {
    HiddenAppend(events, e, g.id, now);
  }

  /** With no event hiding a deduction, players see the true balance. */
  lemma {:induction false} VisiblePointsWithoutHidden(g: Group, events: seq<Event>, now: Time)
    requires forall i :: 0 <= i < |events| ==> !HidesDeduction(events[i], g.id, now)
    ensures PlayerVisiblePoints(g, events, now) == g.points
  {
    NoHiddenSumsToZero(events, g.id, now);
  }

  /** Once every `hidden_until` has passed, players see the true balance. */
  lemma VisiblePointsAfterExpiry(g: Group, events: seq<Event>, now: Time)
    requires forall i :: 0 <= i < |events| && events[i].outcome.hiddenUntil.Some?
               ==> events[i].outcome.hiddenUntil.value <= now
    ensures PlayerVisiblePoints(g, events, now) == g.points
  {
    VisiblePointsWithoutHidden(g, events, now);
  }

  lemma {:induction false} HiddenAppend(events: seq<Event>, e: Event, gid: Id, now: Time)
    ensures HiddenDeductions(events + [e], gid, now)
         == HiddenDeductions(events, gid, now)
            + (if HidesDeduction(e, gid, now) then e.outcome.targetPoints.value else 0)
    decreases |events|
  {
    if |events| == 0 {
      assert [e][1..] == [];
    } else {
      assert (events + [e])[1..] == events[1..] + [e];
      HiddenAppend(events[1..], e, gid, now);
    }
  }

  lemma {:induction false} NoHiddenSumsToZero(events: seq<Event>, gid: Id, now: Time)
    requires forall i :: 0 <= i < |events| ==> !HidesDeduction(events[i], gid, now)
    ensures HiddenDeductions(events, gid, now) == 0
    decreases |events|
  {
    if |events| > 0 {
      NoHiddenSumsToZero(events[1..], gid, now);
    }
  }

  /** `generate_join_token` (`join_token ||= newToken`): only a missing token is filled with `newToken`. */
  function GenerateJoinToken(g: Group, newToken: string): (r: Group)
    ensures g.joinToken.Some? ==> r == g
    ensures g.joinToken.None? ==> r == g.(joinToken := Some(newToken))
  {
    if g.joinToken.None? then g.(joinToken := Some(newToken)) else g
  }

  /** Every group has a present join token and no two groups share one. */
  ghost predicate JoinTokensValid(groups: seq<Group>)
  {
    && (forall i :: 0 <= i < |groups| ==> IsPresent(groups[i].joinToken))
    && (forall i, j :: 0 <= i < j < |groups| ==> groups[i].joinToken != groups[j].joinToken)
  }

  /** `Group.find_by(join_token: token)`. */
  function FindByJoinToken(groups: seq<Group>, token: string): (r: Option<Group>)
    ensures r.Some? ==> r.value in groups && r.value.joinToken == Some(token)
    ensures r.None? <==> forall i :: 0 <= i < |groups| ==> groups[i].joinToken != Some(token)
    decreases |groups|
  {
    if |groups| == 0 then None
    else if groups[0].joinToken == Some(token) then Some(groups[0])
    else FindByJoinToken(groups[1..], token)
  }

  /** Creating a group: the token is generated when missing, then validated for
      presence and uniqueness; a valid group is appended. */
  function CreateGroup(groups: seq<Group>, g: Group, newToken: string): (r: Result<seq<Group>>)
    ensures r.Ok? <==> (&& IsPresent(GenerateJoinToken(g, newToken).joinToken)
                        && FindByJoinToken(groups, GenerateJoinToken(g, newToken).joinToken.value).None?)
    ensures r.Ok? ==> r.value == groups + [GenerateJoinToken(g, newToken)]
    ensures r.Ok? && JoinTokensValid(groups) ==> JoinTokensValid(r.value)
  {
    var g' := GenerateJoinToken(g, newToken);
    if IsBlank(g'.joinToken) then Err("Join token can't be blank")
    else if FindByJoinToken(groups, g'.joinToken.value).Some? then Err("Join token has already been taken")
    else Ok(groups + [g'])
  }
}
