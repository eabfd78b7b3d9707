/** `Submission`: a player's claim, its creation validations and its
    pending → verified | denied lifecycle. */
module Submissions {
  import opened Wrappers
  import opened Base
  import opened Numeric
  import opened Text
  import opened Options
  import opened Events
  import Cooldown
  import GameClock

  /** The values of `STATUSES`. */
  datatype Status = Pending | Verified | Denied

  /** The stored `status` string. */
  function StatusName(s: Status): string
  {
    match s
    case Pending => "pending"
    case Verified => "verified"
    case Denied => "denied"
  }

  datatype Submission = Submission(
    id: Id,
    group: Id,
    option: OptionKind,
    target: Option<Id>,         // the Posten
    targetGroup: Option<Id>,
    playerSession: Id,
    pointsSet: Option<int>,
    status: Status,
    description: Option<string>,
    adminMessage: Option<string>,
    submittedAt: Option<Time>,
    verifiedAt: Option<Time>,
    verifiedBy: Option<Id>,
    queuedBehind: Option<Id>,
    queueReason: Option<string>,
    createdAt: Time,
    hasPhoto: bool)

  /** `queued?`: the submission waits behind another one. */
  predicate Queued(s: Submission)
  {
    s.queuedBehind.Some?
  }

  /** What the submission's option demands: `requires_posten?`,
      `requires_target_group?` and `requires_points_input?`. */
  datatype Requirements = Requirements(posten: bool, targetGroup: bool, pointsInput: bool)

  /** The records creation validates against: option settings, the Event
      ledger and the game clock. */
  datatype World = World(settings: seq<OptionSetting>, ledger: seq<Event>, game: GameClock.GameSetting)

  /** The validation errors, in the order the validations are declared;
      `belongs_to :option`'s "must exist" comes first. */
  datatype ValidationError =
    | OptionMustExist
    | SubmittedAtBlank
    | PostenBlank
    | TargetGroupBlank
    | PointsSetBlank
    | PointsSetNotANumber
    | PointsSetNotGreaterThanZero
    | CooldownActive(reason: string)
    | GameNotRunning
    | PhotoRequired

  /** `set_submitted_at`: `submitted_at ||= now`. */
  function SetSubmittedAt(s: Submission, now: Time): (r: Submission)
    ensures r.submittedAt.Some?
    ensures s.submittedAt.Some? ==> r == s
    ensures s.submittedAt.None? ==> r == s.(submittedAt := Some(now))
  {
    if s.submittedAt.None? then s.(submittedAt := Some(now)) else s
  }

  /** Filling in `submitted_at` twice is filling it in once, whatever the clock says. */
  lemma SetSubmittedAtIdempotent(s: Submission, now: Time, later: Time)
    ensures SetSubmittedAt(SetSubmittedAt(s, now), later) == SetSubmittedAt(s, now)
  {
  }

  /** The validations that run on every save, in declaration order. (Status
      inclusion holds by construction of `Status`.) */
  function SaveErrors(s: Submission, req: Requirements): (errs: seq<ValidationError>)
    ensures errs == [] <==>
              && s.submittedAt.Some?
              && (req.posten ==> s.target.Some?)
              && (req.targetGroup ==> s.targetGroup.Some?)
              && (req.pointsInput ==> s.pointsSet.Some? && s.pointsSet.value > 0)
  {
    (if s.submittedAt.None? then [SubmittedAtBlank] else [])
    + (if req.posten && s.target.None? then [PostenBlank] else [])
    + (if req.targetGroup && s.targetGroup.None? then [TargetGroupBlank] else [])
    + (if !req.pointsInput then []
       else if s.pointsSet.None? then [PointsSetBlank, PointsSetNotANumber]
       else if s.pointsSet.value <= 0 then [PointsSetNotGreaterThanZero]
       else [])
  }

  /** The verdict of `cooldown_respected`: note that it hands the Posten
      (`target`), not `target_group`, to the checker's target-group slot. */
  function CooldownVerdict(s: Submission, w: World, now: Time): Cooldown.Verdict
  {
    Cooldown.Check(SettingFor(w.settings, s.option), s.option, s.group, s.target, w.ledger, now)
  }

  /** The `on: :create` validations: cooldown, running game, photo evidence. */
  function CreateOnlyErrors(s: Submission, w: World, now: Time): (errs: seq<ValidationError>)
    ensures errs == [] <==>
              && CooldownVerdict(s, w, now) == Cooldown.Allowed
              && GameClock.GameRunning(w.game, now)
              && !(SettingFor(w.settings, s.option).Some? && SettingFor(w.settings, s.option).value.requiresPhoto
                   && !s.hasPhoto)
  {
    var v := CooldownVerdict(s, w, now);
    var setting := SettingFor(w.settings, s.option);
    (if v.Rejected? then [CooldownActive(Cooldown.ReasonText(v.denial))] else [])
    + (if !GameClock.GameRunning(w.game, now) then [GameNotRunning] else [])
    + (if setting.Some? && setting.value.requiresPhoto && !s.hasPhoto then [PhotoRequired] else [])
  }

  datatype Saved = Created(sub: Submission) | Invalid(errors: seq<ValidationError>)

  /** `Submission#save` of a new record: `set_submitted_at`, then all validations. */
  function Create(s: Submission, req: Requirements, w: World, now: Time): (r: Saved)
    ensures r.Created? ==> r.sub == SetSubmittedAt(s, now) && r.sub.submittedAt.Some?
    ensures r.Invalid? ==> r.errors != []
  {
    var s' := SetSubmittedAt(s, now);
    var errs := SaveErrors(s', req) + CreateOnlyErrors(s', w, now);
    if errs == [] then Created(s') else Invalid(errs)
  }

  /** Creation succeeds exactly when every validation passes: the Posten,
      target group and stake the option requires are there, the cooldown check
      (given the Posten) allows it, the game is running and any required photo
      is attached. */
  lemma CreateValidIff(s: Submission, req: Requirements, w: World, now: Time)
    ensures var setting := SettingFor(w.settings, s.option);
            Create(s, req, w, now).Created? <==>
              && (req.posten ==> s.target.Some?)
              && (req.targetGroup ==> s.targetGroup.Some?)
              && (req.pointsInput ==> s.pointsSet.Some? && s.pointsSet.value > 0)
              && Cooldown.Check(setting, s.option, s.group, s.target, w.ledger, now) == Cooldown.Allowed
              && GameClock.GameRunning(w.game, now)
              && !(setting.Some? && setting.value.requiresPhoto && !s.hasPhoto)
  {
    var s' := SetSubmittedAt(s, now);
    var errs1 := SaveErrors(s', req);
    var errs2 := CreateOnlyErrors(s', w, now);
    assert errs1 + errs2 == [] <==> errs1 == [] && errs2 == [];
  }

  /** No submission is created while the game is not running. */
  lemma NoCreationWhileStopped(s: Submission, req: Requirements, w: World, now: Time)
    requires !GameClock.GameRunning(w.game, now)
    ensures Create(s, req, w, now).Invalid?
    ensures GameNotRunning in Create(s, req, w, now).errors
  {
    CreateValidIff(s, req, w, now);
  }

  /** As the call site is written, a photograph, spy or notice claim without a
      Posten is refused with "Zielgruppe erforderlich" whenever its option has
      a positive cooldown, even when it names a target group. */
  lemma CooldownCallUsesPosten(s: Submission, req: Requirements, w: World, now: Time)
    requires Cooldown.IsCooldownOption(s.option)
    requires SettingFor(w.settings, s.option).Some? && SettingFor(w.settings, s.option).value.cooldownSeconds > 0
    requires s.target.None?
    ensures Create(s, req, w, now).Invalid?
    ensures CooldownActive("Zielgruppe erforderlich") in Create(s, req, w, now).errors
  {
    var s' := SetSubmittedAt(s, now);
    assert CreateOnlyErrors(s', w, now)[0] == CooldownActive("Zielgruppe erforderlich");
    assert (SaveErrors(s', req) + CreateOnlyErrors(s', w, now))[|SaveErrors(s', req)|]
        == CooldownActive("Zielgruppe erforderlich");
  }

  /** The draft `verify!` builds: group, option, Posten, target group and stake
      copied from the submission. */
  function DraftOf(s: Submission): (d: EventDraft)
    ensures d.group == s.group && d.option == s.option && d.target == s.target
    ensures d.targetGroup == s.targetGroup && d.pointsSet == s.pointsSet
  {
    EventDraft(s.group, s.option, s.target, s.targetGroup, s.pointsSet)
  }

  /** Why a verification was rolled back. */
  datatype VerifyFailure =
    | ScoringFailed(message: string)                 // calculate_points / event.save! raised
    | SubmissionInvalid(errors: seq<ValidationError>) // the submission's update! raised

  /** How `verify!` ends. On failure nothing is persisted: the stored
      submission and the ledger are as before. */
  datatype VerifyOutcome =
    | VerifyNotPending
    | VerifyFailed(failure: VerifyFailure)
    | VerifiedOk(sub: Submission, ledger: seq<Event>)

  /** `verify!(admin, message:)` at time `now`, as one atomic step over the
      submission and the ledger. */
  function Verify(s: Submission, req: Requirements, admin: Option<Id>, message: Option<string>,
                  score: Scorer, ledger: seq<Event>, now: Time): (r: VerifyOutcome)
    ensures s.status != Pending <==> r == VerifyNotPending
    ensures r.VerifiedOk? ==>
              && score(DraftOf(s), s.submittedAt).Ok?
              && r.ledger == ledger + [Event(DraftOf(s), score(DraftOf(s), s.submittedAt).value)]
              && r.sub == s.(status := Verified, verifiedAt := Some(now), verifiedBy := admin,
                             adminMessage := message)
    ensures s.status == Pending && score(DraftOf(s), s.submittedAt).Err? ==>
              r == VerifyFailed(ScoringFailed(score(DraftOf(s), s.submittedAt).error))
    ensures s.status == Pending && score(DraftOf(s), s.submittedAt).Ok? ==>
              (r.VerifyFailed? <==> SaveErrors(s, req) != [])
  {
    if s.status != Pending then VerifyNotPending
    else
      match score(DraftOf(s), s.submittedAt)
      case Err(msg) => VerifyFailed(ScoringFailed(msg))
      case Ok(outcome) =>
        var s' := s.(status := Verified, verifiedAt := Some(now), verifiedBy := admin, adminMessage := message);
        var errs := SaveErrors(s', req);
        if errs != [] then VerifyFailed(SubmissionInvalid(errs))
        else VerifiedOk(s', ledger + [Event(DraftOf(s), outcome)])
  }

  /** How `deny!` ends: `false`, an exception from `update!`, or the denied submission. */
  datatype DenyOutcome =
    | DenyNotPending
    | DenyRaised(errors: seq<ValidationError>)
    | DeniedOk(sub: Submission)

  /** The admin message of a denial: the caller's message, or "Abgelehnt" when it is blank. */
  function DenialMessage(message: Option<string>): (m: string)
    ensures IsPresent(message) ==> m == message.value
    ensures IsBlank(message) ==> m == "Abgelehnt"
  {
    Presence(message).GetOr("Abgelehnt")
  }

  /** `deny!(admin, message:)` at time `now`. It touches no ledger. */
  function Deny(s: Submission, req: Requirements, admin: Option<Id>, message: Option<string>, now: Time): (r: DenyOutcome)
    ensures s.status != Pending <==> r == DenyNotPending
    ensures s.status == Pending ==> (r.DenyRaised? <==> SaveErrors(s, req) != [])
    ensures r.DeniedOk? ==>
              r.sub == s.(status := Denied, verifiedAt := Some(now), verifiedBy := admin,
                          adminMessage := Some(DenialMessage(message)))
  {
    if s.status != Pending then DenyNotPending
    else
      var s' := s.(status := Denied, verifiedAt := Some(now), verifiedBy := admin,
                   adminMessage := Some(DenialMessage(message)));
      var errs := SaveErrors(s', req);
      if errs != [] then DenyRaised(errs) else DeniedOk(s')
  }

  /** The model's own transitions only ever move a submission out of pending,
      into verified or denied; a resolved submission is never touched. */
  lemma OnlyPendingIsResolved(s: Submission, req: Requirements, admin: Option<Id>, message: Option<string>,
                              score: Scorer, ledger: seq<Event>, now: Time)
    ensures var v := Verify(s, req, admin, message, score, ledger, now);
            v.VerifiedOk? ==> s.status == Pending && v.sub.status == Verified
    ensures var d := Deny(s, req, admin, message, now);
            d.DeniedOk? ==> s.status == Pending && d.sub.status == Denied
    ensures s.status != Pending ==>
              Verify(s, req, admin, message, score, ledger, now) == VerifyNotPending
              && Deny(s, req, admin, message, now) == DenyNotPending
  {
  }

  /** Verification is all or nothing: either exactly one event is appended and
      the submission is verified, or neither happens. */
  lemma VerifyAtomic(s: Submission, req: Requirements, admin: Option<Id>, message: Option<string>,
                     score: Scorer, ledger: seq<Event>, now: Time)
    requires s.status == Pending
    ensures var v := Verify(s, req, admin, message, score, ledger, now);
            v.VerifiedOk? || v.VerifyFailed?
    ensures var v := Verify(s, req, admin, message, score, ledger, now);
            v.VerifiedOk? ==> |v.ledger| == |ledger| + 1 && v.ledger[..|ledger|] == ledger
                              && v.ledger[|ledger|].draft == DraftOf(s)
  {
  }

  /** The scoring step sees the submission's own `submitted_at`, never the
      verification time: verifying the same claim at different times yields
      the same event. */
  lemma VerifyEventIndependentOfVerificationTime(s: Submission, req: Requirements, admin: Option<Id>,
                                                 message: Option<string>, score: Scorer, ledger: seq<Event>,
                                                 now: Time, later: Time)
    requires Verify(s, req, admin, message, score, ledger, now).VerifiedOk?
    ensures Verify(s, req, admin, message, score, ledger, later).VerifiedOk?
    ensures Verify(s, req, admin, message, score, ledger, later).ledger
         == Verify(s, req, admin, message, score, ledger, now).ledger
  {
  }

  // ---------------------------------------------------------------------
  // Waiting time shown to admins and players.

  /** What `waiting_time_text` shows: nothing, minutes, or hours and minutes. */
  datatype WaitingDisplay = NoTime | Minutes(minutes: int) | HoursMinutes(hours: int, minutes: int)

  /** `waiting_time_text` before rendering: whole minutes since `submitted_at`
      (rounded toward zero), split into hours once an hour is reached. */
  function WaitingDisplayAt(s: Submission, now: Time): (d: WaitingDisplay)
    ensures s.submittedAt.None? <==> d == NoTime
    ensures d.Minutes? ==> d.minutes < 60 && d.minutes == TruncDiv(now - s.submittedAt.value, SecondsPerMinute)
    ensures d.HoursMinutes? ==>
              && d.hours >= 1 && 0 <= d.minutes < 60
              && d.hours * 60 + d.minutes == TruncDiv(now - s.submittedAt.value, SecondsPerMinute)
  {
    match s.submittedAt
    case None => NoTime
    case Some(t) =>
      var minutes := TruncDiv(now - t, SecondsPerMinute);
      if minutes < 60 then Minutes(minutes) else HoursMinutes(minutes / 60, minutes % 60)
  }

  function Render(d: WaitingDisplay): string
  {
    match d
    case NoTime => "-"
    case Minutes(m) => IntToString(m) + " Min."
    case HoursMinutes(h, m) => IntToString(h) + "h " + IntToString(m) + "m"
  }

  /** `waiting_time_text`. */
  function WaitingTimeText(s: Submission, now: Time): string
  {
    Render(WaitingDisplayAt(s, now))
  }

  /** Below an hour the text shows the whole minutes elapsed. */
  lemma WaitingTextUnderAnHour(s: Submission, now: Time)
    requires s.submittedAt.Some?
    requires 0 <= now - s.submittedAt.value < 3600
    ensures WaitingTimeText(s, now) == IntToString((now - s.submittedAt.value) / 60) + " Min."
  {
  }

  /** From an hour on the text shows the whole hours elapsed and the whole
      minutes past them, computed here directly from the elapsed seconds. */
  lemma WaitingTextFromAnHour(s: Submission, now: Time)
    requires s.submittedAt.Some?
    requires now - s.submittedAt.value >= 3600
    ensures var e := now - s.submittedAt.value;
            WaitingTimeText(s, now) == IntToString(e / 3600) + "h " + IntToString((e % 3600) / 60) + "m"
  {
    var e := now - s.submittedAt.value;
    var minutes := TruncDiv(e, SecondsPerMinute);
    assert minutes == e / 60;
    DivDiv(e);
    assert minutes >= 60;
    assert WaitingDisplayAt(s, now) == HoursMinutes(e / 3600, (e % 3600) / 60);
    RenderHoursMinutes(e / 3600, (e % 3600) / 60);
  }

  /** A submission stamped less than a minute in the future shows "0 Min.",
      as the division rounds toward zero. */
  lemma WaitingTextSlightlyAhead(s: Submission, now: Time)
    requires s.submittedAt.Some?
    requires -60 < now - s.submittedAt.value < 0
    ensures WaitingTimeText(s, now) == "0 Min."
  {
  }

  lemma DivDiv(e: int)
    requires e >= 0
    ensures (e / 60) / 60 == e / 3600
    ensures (e / 60) % 60 == (e % 3600) / 60
  {
    var h := e / 3600;
    var r := e % 3600;
    assert e == 3600 * h + r;
    assert e == 60 * (60 * h + r / 60) + r % 60;
    assert e / 60 == 60 * h + r / 60;
  }

  /** Different waiting displays never render as the same text. */
  lemma RenderInjective(a: WaitingDisplay, b: WaitingDisplay)
    requires Render(a) == Render(b)
    ensures a == b
  {
    var ra, rb := Render(a), Render(b);
    if a.Minutes? && b.Minutes? {
      assert IntToString(a.minutes) == ra[..|ra| - 5];
      assert IntToString(b.minutes) == rb[..|rb| - 5];
      IntToStringInjective(a.minutes, b.minutes);
    } else if a.HoursMinutes? && b.HoursMinutes? {
      HoursMinutesInjective(a.hours, a.minutes, b.hours, b.minutes);
    } else {
      // Different shapes end in different characters.
      LastCharTag(a);
      LastCharTag(b);
    }
  }

  /** The last character of a rendering tells its shape: '-', '.' or 'm'. */
  lemma LastCharTag(d: WaitingDisplay)
    ensures |Render(d)| > 0
    ensures Render(d)[|Render(d)| - 1] == (if d.NoTime? then '-' else if d.Minutes? then '.' else 'm')
  {
  }

  lemma HoursMinutesInjective(h: int, m: int, h': int, m': int)
    requires Render(HoursMinutes(h, m)) == Render(HoursMinutes(h', m'))
    ensures h == h' && m == m'
  {
    // The hours are the text before the first 'h'; digits and '-' never are 'h'.
    var x, x' := IntToString(h), IntToString(h');
    var y, y' := MinutesTail(m), MinutesTail(m');
    RenderHoursMinutes(h, m);
    RenderHoursMinutes(h', m');
    assert HoursEnd(h) == |x| && HoursEnd(h') == |x'|;
    SplitAtFirst(x, y, x', y', 'h');
    IntToStringInjective(h, h');
    IntToStringInjective(m, m');
  }

  /** The text after the hours' 'h': a blank, the minutes, and 'm'. */
  function MinutesTail(m: int): (t: string)
    ensures |t| >= 2 && t[1..|t| - 1] == IntToString(m)
  {
    " " + IntToString(m) + "m"
  }

  lemma RenderHoursMinutes(h: int, m: int)
    ensures Render(HoursMinutes(h, m)) == IntToString(h) + ['h'] + MinutesTail(m)
  {
  }

  /** A text cut at the first occurrence of `c` has one prefix and one suffix. */
  lemma SplitAtFirst(x: string, y: string, x': string, y': string, c: char)
    requires forall k :: 0 <= k < |x| ==> x[k] != c
    requires forall k :: 0 <= k < |x'| ==> x'[k] != c
    requires x + [c] + y == x' + [c] + y'
    ensures x == x' && y == y'
  {
    var t := x + [c] + y;
    IndexOfPrefix(x, y, c);
    IndexOfPrefix(x', y', c);
    assert x == t[..|x|] && x' == t[..|x'|];
    assert y == t[|x| + 1..] && y' == t[|x'| + 1..];
  }

  /** The position of the first `c` in `t`, or `|t|` when there is none. */
  function IndexOf(t: string, c: char): nat
    decreases |t|
  {
    if |t| == 0 then 0 else if t[0] == c then 0 else 1 + IndexOf(t[1..], c)
  }

  lemma {:induction false} IndexOfPrefix(x: string, y: string, c: char)
    requires forall k :: 0 <= k < |x| ==> x[k] != c
    ensures IndexOf(x + [c] + y, c) == |x|
    decreases |x|
  {
    var t := x + [c] + y;
    if |x| > 0 {
      assert t[0] == x[0];
      assert t[1..] == x[1..] + [c] + y;
      IndexOfPrefix(x[1..], y, c);
    }
  }

  function HoursEnd(h: int): (i: nat)
    ensures i == |IntToString(h)|
    ensures forall k :: 0 <= k < i ==> IntToString(h)[k] != 'h'
  {
    var s := IntToString(h);
    if h < 0 then
      assert forall k :: 1 <= k < |s| ==> s[k] == NatToString(-h)[k - 1];
      |s|
    else |s|
  }
}
