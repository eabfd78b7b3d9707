/** `PlayerSession`: a device's membership in a group, locked to the first
    group it joins, with a temporary block after repeated hopping attempts. */
module PlayerSessions {
  import opened Wrappers
  import opened Base
  import opened Groups

  /** Failed hopping attempts that trigger a block. */
  const MaxFailedJoins: int := 3
  /** `1.hour`: how long a block lasts. */
  const BlockSeconds: int := 3600
  /** `30.minutes`: how recent the last activity must be for a session to count as active. */
  const ActiveSeconds: int := 1800

  datatype PlayerSession = PlayerSession(
    id: Id,
    sessionToken: string,
    playerName: Option<string>,
    group: Option<Id>,
    initialGroup: Option<Id>,
    lockedToGroup: bool,
    failedJoinAttempts: Option<int>,
    blockedUntil: Option<Time>,
    joinedAt: Option<Time>,
    lastActivityAt: Option<Time>)

  /** `blocked?`: a block is set and has not yet expired. */
  predicate Blocked(s: PlayerSession, now: Time)
  {
    s.blockedUntil.Some? && now < s.blockedUntil.value
  }

  /** `group_locked?`. */
  predicate GroupLocked(s: PlayerSession)
  {
    s.lockedToGroup && s.initialGroup.Some?
  }

  /** `active?`: the last activity was less than 30 minutes ago. */
  predicate Active(s: PlayerSession, now: Time)
  {
    s.lastActivityAt.Some? && now - s.lastActivityAt.value < ActiveSeconds
  }

  /** `unblock!`. */
  function Unblock(s: PlayerSession): (r: PlayerSession)
    ensures r.blockedUntil.None? && r.failedJoinAttempts == Some(0)
    ensures r == s.(blockedUntil := r.blockedUntil, failedJoinAttempts := r.failedJoinAttempts)
  {
    s.(blockedUntil := None, failedJoinAttempts := Some(0))
  }

  /** After `unblock!` the session is not blocked at any time. */
  lemma UnblockedNotBlocked(s: PlayerSession, now: Time)
    ensures !Blocked(Unblock(s), now)
  {
  }

  /** How `join_group!` ends: the joined session, or the exception it raises
      together with the session as it was saved before raising. */
  datatype JoinOutcome =
    | Joined(session: PlayerSession)
    | Raised(message: string, session: PlayerSession)

  /** `(failed_join_attempts || 0) + 1`. */
  function Failed(s: PlayerSession): int
  {
    s.failedJoinAttempts.GetOr(0) + 1
  }

  /** `join_group!(join_token)` at time `now`. */
  function JoinGroup(s: PlayerSession, groups: seq<Group>, token: string, now: Time): (r: JoinOutcome)
    ensures FindByJoinToken(groups, token).None? ==> r == Raised("Invalid join token", s)
    ensures r.Joined? ==> FindByJoinToken(groups, token).Some?
                          && r.session.group == Some(FindByJoinToken(groups, token).value.id)
  {
    match FindByJoinToken(groups, token)
    case None => Raised("Invalid join token", s)
    case Some(g) =>
      if Blocked(s, now) then
        Raised("Session temporarily blocked due to too many join attempts. Please try again later.",
               s.(failedJoinAttempts := Some(Failed(s))))
      else if s.lockedToGroup && s.initialGroup.Some? && s.initialGroup.value != g.id then
        var attempts := Failed(s);
        var s' := s.(failedJoinAttempts := Some(attempts));
        Raised("Device is already locked to a group. Cannot switch groups.",
               if attempts >= MaxFailedJoins then s'.(blockedUntil := Some(now + BlockSeconds)) else s')
      else
        var s' := if s.group.None? then s.(initialGroup := Some(g.id), lockedToGroup := true) else s;
        Joined(s'.(group := Some(g.id), joinedAt := Some(now), lastActivityAt := Some(now),
                   failedJoinAttempts := Some(0)))
  }

  /** While blocked, every join with a known token fails, counts one more
      failed attempt and changes nothing else. */
  lemma BlockedJoinFails(s: PlayerSession, groups: seq<Group>, token: string, now: Time)
    requires FindByJoinToken(groups, token).Some?
    requires Blocked(s, now)
    ensures var r := JoinGroup(s, groups, token, now);
            && r.Raised?
            && r.session == s.(failedJoinAttempts := Some(s.failedJoinAttempts.GetOr(0) + 1))
  {
  }

  /** A locked session trying another group fails, counts one more failed
      attempt, keeps its group, and is blocked for an hour from the third
      failure on. */
  lemma HoppingRefused(s: PlayerSession, groups: seq<Group>, token: string, now: Time)
    requires FindByJoinToken(groups, token).Some?
    requires !Blocked(s, now)
    requires GroupLocked(s) && s.initialGroup.value != FindByJoinToken(groups, token).value.id
    ensures var r := JoinGroup(s, groups, token, now);
            && r.Raised?
            && r.session.group == s.group
            && r.session.failedJoinAttempts == Some(s.failedJoinAttempts.GetOr(0) + 1)
            && (s.failedJoinAttempts.GetOr(0) + 1 >= MaxFailedJoins ==> r.session.blockedUntil == Some(now + BlockSeconds))
            && (s.failedJoinAttempts.GetOr(0) + 1 < MaxFailedJoins ==> r.session.blockedUntil == s.blockedUntil)
  {
  }

  /** A successful join records the group and the time, clears the failure
      count, and on the very first join locks the session to that group. */
  lemma SuccessfulJoin(s: PlayerSession, groups: seq<Group>, token: string, now: Time)
    requires JoinGroup(s, groups, token, now).Joined?
    ensures var r := JoinGroup(s, groups, token, now).session;
            var g := FindByJoinToken(groups, token).value;
            && r.group == Some(g.id)
            && r.joinedAt == Some(now) && r.lastActivityAt == Some(now)
            && r.failedJoinAttempts == Some(0)
            && r.blockedUntil == s.blockedUntil
            && (s.group.None? ==> r.initialGroup == Some(g.id) && r.lockedToGroup)
            && (s.group.Some? ==> r.initialGroup == s.initialGroup && r.lockedToGroup == s.lockedToGroup)
  {
  }

  /** A join succeeds exactly when the token is known, the session is not
      blocked, and it is not locked to a different group. */
  lemma JoinSucceedsIff(s: PlayerSession, groups: seq<Group>, token: string, now: Time)
    ensures JoinGroup(s, groups, token, now).Joined? <==>
              && FindByJoinToken(groups, token).Some?
              && !Blocked(s, now)
              && !(GroupLocked(s) && s.initialGroup.value != FindByJoinToken(groups, token).value.id)
  {
  }

  /** The lock invariant: a locked session belongs to no group or to its initial group. */
  predicate LockRespected(s: PlayerSession)
  {
    GroupLocked(s) ==> s.group.None? || s.group == s.initialGroup
  }

  /** Every join, successful or not, keeps the lock invariant; in particular a
      locked session can only ever (re)join its initial group. */
  lemma JoinKeepsLock(s: PlayerSession, groups: seq<Group>, token: string, now: Time)
    requires LockRespected(s)
    ensures LockRespected(JoinGroup(s, groups, token, now).session)
    ensures GroupLocked(s) && JoinGroup(s, groups, token, now).Joined? ==>
              JoinGroup(s, groups, token, now).session.group == s.initialGroup
  {
  }

  /** The first join of a fresh session establishes the lock. */
  lemma FirstJoinLocks(s: PlayerSession, groups: seq<Group>, token: string, now: Time)
    requires s.group.None?
    requires JoinGroup(s, groups, token, now).Joined?
    ensures GroupLocked(JoinGroup(s, groups, token, now).session)
    ensures LockRespected(JoinGroup(s, groups, token, now).session)
  {
  }

  /** A successful join counts as activity: the session is active for the
      next 30 minutes and no longer from then on. */
  lemma JoinMakesActive(s: PlayerSession, groups: seq<Group>, token: string, now: Time, t: Time)
    requires JoinGroup(s, groups, token, now).Joined?
    requires now <= t
    ensures Active(JoinGroup(s, groups, token, now).session, t) <==> t < now + ActiveSeconds
  {
  }

  /** The third failed hopping attempt blocks the session for exactly one
      hour from the attempt. */
  lemma ThirdFailureBlocksForAnHour(s: PlayerSession, groups: seq<Group>, token: string, now: Time, t: Time)
    requires FindByJoinToken(groups, token).Some?
    requires !Blocked(s, now)
    requires GroupLocked(s) && s.initialGroup.value != FindByJoinToken(groups, token).value.id
    requires Failed(s) >= MaxFailedJoins
    requires now <= t
    ensures Blocked(JoinGroup(s, groups, token, now).session, t) <==> t < now + BlockSeconds
  {
  }
}
