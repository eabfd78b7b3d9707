/** `Admin::ControlRoomController`: the administrators' verification desk. */
module ControlRoom {
  import opened Wrappers
  import opened Base
  import opened Ordering
  import opened Events
  import opened GameClock
  import opened Submissions

  /** `index`: the pending submission created first (the one to verify next). */
  function EarliestPending(subs: seq<Submission>): (r: Option<Submission>)
    ensures r.None? <==> forall i :: 0 <= i < |subs| ==> subs[i].status != Pending
    ensures r.Some? ==> r.value in subs && r.value.status == Pending
    ensures r.Some? ==> forall i :: 0 <= i < |subs| && subs[i].status == Pending
                          ==> r.value.createdAt <= subs[i].createdAt
  {
    match FirstMinimal(subs, (s: Submission) => s.status == Pending, (s: Submission) => s.createdAt)
    case None => None
    case Some(i) => Some(subs[i])
  }

  /** `s` has status `st` and, when `since` is given, was created at or after it
      (`where(status:)[.where('created_at >= ?', since)]`). */
  predicate Counted(s: Submission, st: Status, since: Option<Time>)
  {
    s.status == st && (since.None? || s.createdAt >= since.value)
  }

  /** `.count` of that query: how many submissions it selects. */
  function CountWhere(subs: seq<Submission>, st: Status, since: Option<Time>): (n: nat)
    ensures n <= |subs|
    ensures n == 0 <==> forall i :: 0 <= i < |subs| ==> !Counted(subs[i], st, since)
    ensures n == |subs| <==> forall i :: 0 <= i < |subs| ==> Counted(subs[i], st, since)
    decreases |subs|
  {
    if |subs| == 0 then 0
    else
      assert forall i :: 0 <= i < |subs| - 1 ==> subs[1..][i] == subs[i + 1];
      (if Counted(subs[0], st, since) then 1 else 0) + CountWhere(subs[1..], st, since)
  }

  /** A submission stored after the others adds one to the count exactly when
      the query selects it; with the empty table counting 0, this fixes the
      count of every table. */
  lemma {:induction false} CountWhereAppend(subs: seq<Submission>, s: Submission, st: Status, since: Option<Time>)
    ensures CountWhere(subs + [s], st, since) == CountWhere(subs, st, since) + (if Counted(s, st, since) then 1 else 0)
    decreases |subs|
  {
    if |subs| > 0 {
      assert (subs + [s])[1..] == subs[1..] + [s];
      CountWhereAppend(subs[1..], s, st, since);
    }
  }

  /** The queue statistics: `@pending_count`, `@verified_today`, `@denied_today`. */
  datatype Statistics = Statistics(pending: nat, verifiedToday: nat, deniedToday: nat)

  /** `index`'s statistics, where `today` is the start of the current day:
      pending submissions whenever created, verified and denied ones created
      today. */
  function Stats(subs: seq<Submission>, today: Time): (r: Statistics)
    ensures r.pending == 0 <==> forall i :: 0 <= i < |subs| ==> subs[i].status != Pending
    ensures r.verifiedToday == 0 <==>
              forall i :: 0 <= i < |subs| ==> !(subs[i].status == Verified && subs[i].createdAt >= today)
    ensures r.deniedToday == 0 <==>
              forall i :: 0 <= i < |subs| ==> !(subs[i].status == Denied && subs[i].createdAt >= today)
    ensures r.pending + r.verifiedToday + r.deniedToday <= |subs|
  {
    StatsBounded(subs, today);
    Statistics(CountWhere(subs, Pending, None), CountWhere(subs, Verified, Some(today)),
               CountWhere(subs, Denied, Some(today)))
  }

  /** A new submission raises exactly one statistic by one: pending whenever
      it was created, verified or denied only when created today. */
  lemma StatsAfterNewSubmission(subs: seq<Submission>, s: Submission, today: Time)
    ensures Stats(subs + [s], today).pending == Stats(subs, today).pending + (if s.status == Pending then 1 else 0)
    ensures Stats(subs + [s], today).verifiedToday ==
              Stats(subs, today).verifiedToday + (if s.status == Verified && s.createdAt >= today then 1 else 0)
    ensures Stats(subs + [s], today).deniedToday ==
              Stats(subs, today).deniedToday + (if s.status == Denied && s.createdAt >= today then 1 else 0)
  {
    CountWhereAppend(subs, s, Pending, None);
    CountWhereAppend(subs, s, Verified, Some(today));
    CountWhereAppend(subs, s, Denied, Some(today));
  }

  /** No submission is counted twice: a status excludes the other two. */
  lemma {:induction false} StatsBounded(subs: seq<Submission>, today: Time)
    ensures CountWhere(subs, Pending, None) + CountWhere(subs, Verified, Some(today))
            + CountWhere(subs, Denied, Some(today)) <= |subs|
    decreases |subs|
  {
    if |subs| > 0 {
      StatsBounded(subs[1..], today);
    }
  }

  /** When every submission was created today, every submission is counted:
      the three statistics add up to the number of submissions. */
  lemma {:induction false} StatsCoverEverything(subs: seq<Submission>, today: Time)
    requires forall i :: 0 <= i < |subs| ==> today <= subs[i].createdAt
    ensures Stats(subs, today).pending + Stats(subs, today).verifiedToday + Stats(subs, today).deniedToday == |subs|
    decreases |subs|
  {
    if |subs| > 0 {
      assert forall i :: 0 <= i < |subs[1..]| ==> subs[1..][i] == subs[i + 1];
      StatsCoverEverything(subs[1..], today);
    }
  }

  /** The control room's `calculate_next_end_time`: with windows, the end of
      the earliest-starting window that ends after `now` (none if there is no
      such window); without windows, `game_end_time`. */
  function NextEndTime(g: GameSetting, now: Time): (r: Option<Time>)
    ensures |g.windows| == 0 ==> r == g.gameEndTime
    ensures |g.windows| > 0 && r.None? ==> forall i :: 0 <= i < |g.windows| ==> g.windows[i].endTime <= now
    ensures |g.windows| > 0 && r.Some? ==>
              exists i :: 0 <= i < |g.windows| && g.windows[i].endTime == r.value && g.windows[i].endTime > now
                          && forall j :: 0 <= j < |g.windows| && g.windows[j].endTime > now
                               ==> g.windows[i].startTime <= g.windows[j].startTime
    ensures |g.windows| > 0 && (exists i :: 0 <= i < |g.windows| && g.windows[i].endTime > now) ==> r.Some?
  {
    if |g.windows| > 0 then
      match FirstMinimal(g.windows, (w: TimeWindow) => w.endTime > now, (w: TimeWindow) => w.startTime)
      case None => None
      case Some(i) => Some(g.windows[i].endTime)
    else g.gameEndTime
  }

  /** While the game runs inside a window, the next end time lies in the
      future; there is none only at the very second the active windows end,
      which still counts as running. */
  lemma NextEndTimeWhileRunning(g: GameSetting, now: Time)
    requires |g.windows| > 0 && GameRunning(g, now)
    ensures NextEndTime(g, now).Some? ==> NextEndTime(g, now).value > now
    ensures NextEndTime(g, now).None? ==>
              forall i :: 0 <= i < |g.windows| && WindowActive(g.windows[i], now) ==> g.windows[i].endTime == now
  {
  }

  /** How `undo_submission` ends. */
  datatype UndoOutcome = Undone(sub: Submission) | UndoRefused(errors: seq<ValidationError>)

  /** `undo_submission`: `update(status: 'pending', admin_message: nil)`. The
      verification time, the verifier and any event already written stay. */
  function Undo(s: Submission, req: Requirements): (r: UndoOutcome)
    ensures r.Undone? <==> SaveErrors(s, req) == []
    ensures r.Undone? ==> r.sub == s.(status := Pending, adminMessage := None)
  {
    var s' := s.(status := Pending, adminMessage := None);
    var errs := SaveErrors(s', req);
    if errs == [] then Undone(s') else UndoRefused(errs)
  }

  /** Undo does not remove the event a verification wrote: verifying, undoing
      and verifying again leaves two events for the same claim in the ledger,
      and the undone submission keeps its stale verification time. */
  lemma VerifyUndoVerifyScoresTwice(s: Submission, req: Requirements, admin: Option<Id>, message: Option<string>,
                                    score: Scorer, ledger: seq<Event>, now: Time, later: Time)
    requires Verify(s, req, admin, message, score, ledger, now).VerifiedOk?
    ensures var v := Verify(s, req, admin, message, score, ledger, now);
            && Undo(v.sub, req).Undone?
            && Undo(v.sub, req).sub.status == Pending
            && Undo(v.sub, req).sub.verifiedAt == Some(now)
    ensures var v := Verify(s, req, admin, message, score, ledger, now);
            var v2 := Verify(Undo(v.sub, req).sub, req, admin, message, score, v.ledger, later);
            && v2.VerifiedOk?
            && |v2.ledger| == |ledger| + 2
            && v2.ledger[|ledger|] == v2.ledger[|ledger| + 1]
  {
    var v := Verify(s, req, admin, message, score, ledger, now);
    var u := Undo(v.sub, req).sub;
    assert DraftOf(u) == DraftOf(s);
    assert u.submittedAt == s.submittedAt;
    assert SaveErrors(u, req) == SaveErrors(s, req);
  }
}
