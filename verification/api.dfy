/** `Api::SubmissionsController`: the player-facing JSON endpoints for filing
    claims, listing options and listing target groups. */
module Api {
  import opened Wrappers
  import opened Base
  import opened Text
  import opened Options
  import opened Ordering
  import opened Groups
  import opened PlayerSessions
  import opened Submissions

  // ---------------------------------------------------------------------
  // Authentication.

  /** The message of the 401 response. */
  const InvalidSessionMessage := "Ungültige Session. Bitte erneut beitreten."

  /** `request.headers['X-Session-Token'] || params[:session_token]`: the
      header wins whenever it is sent at all, even empty. */
  function RequestToken(header: Option<string>, param: Option<string>): (t: Option<string>)
    ensures header.Some? ==> t == header
    ensures header.None? ==> t == param
  {
    if header.Some? then header else param
  }

  /** `PlayerSession.find_by(session_token: token)`: the index of the first
      session holding the token; a missing token matches nothing, since the
      column is never null. */
  function FindSession(sessions: seq<PlayerSession>, token: Option<string>): (r: Option<nat>)
    ensures r.None? <==> forall i :: 0 <= i < |sessions| ==> token != Some(sessions[i].sessionToken)
    ensures r.Some? ==> r.value < |sessions| && token == Some(sessions[r.value].sessionToken)
    ensures r.Some? ==> forall j :: 0 <= j < r.value ==> token != Some(sessions[j].sessionToken)
  {
    FirstMinimal(sessions, (s: PlayerSession) => token == Some(s.sessionToken), (s: PlayerSession) => 0)
  }

  /** `authenticate_player!`: the session the token names, provided it
      belongs to a group; anything else is answered with 401. */
  function Authenticate(sessions: seq<PlayerSession>, header: Option<string>, param: Option<string>): (r: Result<PlayerSession>)
    ensures r.Ok? ==> r.value in sessions && r.value.group.Some?
                      && RequestToken(header, param) == Some(r.value.sessionToken)
    ensures r.Err? ==> r.error == InvalidSessionMessage
    ensures r.Err? <==> (forall i :: 0 <= i < |sessions| ==> RequestToken(header, param) != Some(sessions[i].sessionToken))
                        || sessions[FindSession(sessions, RequestToken(header, param)).value].group.None?
  {
    match FindSession(sessions, RequestToken(header, param))
    case None => Err(InvalidSessionMessage)
    case Some(i) => if sessions[i].group.Some? then Ok(sessions[i]) else Err(InvalidSessionMessage)
  }

  /** With unique session tokens (the table's unique index), the request is
      authenticated exactly when some session holds its token and has a group. */
  lemma AuthenticateWithUniqueTokens(sessions: seq<PlayerSession>, header: Option<string>, param: Option<string>)
    requires forall i, j :: 0 <= i < j < |sessions| ==> sessions[i].sessionToken != sessions[j].sessionToken
    ensures Authenticate(sessions, header, param).Ok? <==>
              exists i :: 0 <= i < |sessions| && RequestToken(header, param) == Some(sessions[i].sessionToken)
                          && sessions[i].group.Some?
  {
    var t := RequestToken(header, param);
    if exists i :: 0 <= i < |sessions| && t == Some(sessions[i].sessionToken) && sessions[i].group.Some? {
      var i :| 0 <= i < |sessions| && t == Some(sessions[i].sessionToken) && sessions[i].group.Some?;
      var k := FindSession(sessions, t).value;
      assert k == i by {
        if k < i {} else if i < k {}
      }
    }
  }

  // ---------------------------------------------------------------------
  // Creating a submission.

  /** The request parameters of `POST /api/submissions`. `targetGroup` and
      `pointsSet` stand for the fields a client may send but that
      `submission_params` does not permit. */
  datatype RequestParams = RequestParams(
    option: Option<OptionKind>,
    target: Option<Id>,
    targetGroup: Option<Id>,
    pointsSet: Option<int>,
    description: Option<string>,
    photo: bool)

  /** `should_auto_verify?`: no branch ever answers yes, so every player
      submission waits for an administrator. */
  function ShouldAutoVerify(setting: Option<OptionSetting>, hasPhoto: bool): (b: bool)
    ensures !b
  {
    if setting.Some? && setting.value.requiresPhoto then false
    else if hasPhoto then false
    else false
  }

  /** The answer to `POST /api/submissions`. */
  datatype CreateResponse =
    | Unauthorized
    | Unprocessable(errors: seq<ValidationError>)
    | Accepted(sub: Submission, autoVerified: bool)

  /** `Submission.new(submission_params)` with the session's group and the
      session itself filled in; all other columns take their defaults. */
  function NewSubmission(session: PlayerSession, group: Id, k: OptionKind, p: RequestParams, id: Id, now: Time): Submission
  {
    Submission(id, group, k, p.target, None, session.id, None, Pending, p.description, None,
               None, None, None, None, None, now, p.photo)
  }

  /** `create`: authenticate, build the submission from the permitted
      parameters and save it. `reqs` gives each option's requirements and
      `id` the key the database assigns. */
  function ApiCreate(sessions: seq<PlayerSession>, header: Option<string>, param: Option<string>,
                     p: RequestParams, reqs: OptionKind -> Requirements, w: World, id: Id, now: Time): (r: CreateResponse)
    ensures r.Unauthorized? <==> Authenticate(sessions, header, param).Err?
    ensures Authenticate(sessions, header, param).Ok? && p.option.None? ==>
              && r.Unprocessable? && |r.errors| > 0 && r.errors[0] == OptionMustExist
              && (GameNotRunning in r.errors <==> !GameClock.GameRunning(w.game, now))
    ensures r.Accepted? ==>
              var session := Authenticate(sessions, header, param).value;
              && Some(r.sub.group) == session.group
              && r.sub.playerSession == session.id
              && r.sub.option == p.option.value
              && r.sub.target == p.target
              && r.sub.targetGroup.None? && r.sub.pointsSet.None?
              && r.sub.status == Pending && !Queued(r.sub)
              && r.sub.submittedAt == Some(now)
              && !r.autoVerified
    ensures r.Accepted? <==>
              && Authenticate(sessions, header, param).Ok?
              && p.option.Some?
              && Create(NewSubmission(Authenticate(sessions, header, param).value,
                                      Authenticate(sessions, header, param).value.group.value,
                                      p.option.value, p, id, now),
                        reqs(p.option.value), w, now).Created?
  {
    match Authenticate(sessions, header, param)
    case Err(_) => Unauthorized
    case Ok(session) =>
      match p.option
      case None =>
        // Without an option, the checks that need one return early; only the
        // running-game check still runs.
        Unprocessable([OptionMustExist] + (if !GameClock.GameRunning(w.game, now) then [GameNotRunning] else []))
      case Some(k) =>
        match Create(NewSubmission(session, session.group.value, k, p, id, now), reqs(k), w, now)
        case Invalid(errs) => Unprocessable(errs)
        case Created(sub) => Accepted(sub, ShouldAutoVerify(SettingFor(w.settings, k), sub.hasPhoto))
  }

  /** The target group and the stake a client sends are dropped: the answer
      is the same whatever they are. */
  lemma ApiIgnoresUnpermittedParams(sessions: seq<PlayerSession>, header: Option<string>, param: Option<string>,
                                    p: RequestParams, reqs: OptionKind -> Requirements, w: World, id: Id, now: Time,
                                    targetGroup: Option<Id>, pointsSet: Option<int>)
    ensures ApiCreate(sessions, header, param, p.(targetGroup := targetGroup, pointsSet := pointsSet), reqs, w, id, now)
         == ApiCreate(sessions, header, param, p, reqs, w, id, now)
  {
  }

  /** Consequently an authenticated player can never file, through this
      endpoint, a claim whose option requires a target group or a stake. */
  lemma ApiCannotFileGroupOrStakeClaims(sessions: seq<PlayerSession>, header: Option<string>, param: Option<string>,
                                        p: RequestParams, reqs: OptionKind -> Requirements, w: World, id: Id, now: Time)
    requires Authenticate(sessions, header, param).Ok? && p.option.Some?
    requires reqs(p.option.value).targetGroup || reqs(p.option.value).pointsInput
    ensures ApiCreate(sessions, header, param, p, reqs, w, id, now).Unprocessable?
    ensures reqs(p.option.value).targetGroup ==> TargetGroupBlank in ApiCreate(sessions, header, param, p, reqs, w, id, now).errors
    ensures reqs(p.option.value).pointsInput ==> PointsSetBlank in ApiCreate(sessions, header, param, p, reqs, w, id, now).errors
  {
    var session := Authenticate(sessions, header, param).value;
    var k := p.option.value;
    var s := SetSubmittedAt(NewSubmission(session, session.group.value, k, p, id, now), now);
    var e1 := SaveErrors(s, reqs(k));
    var e := e1 + CreateOnlyErrors(s, w, now);
    if reqs(k).targetGroup {
      assert TargetGroupBlank in e1;
      var i :| 0 <= i < |e1| && e1[i] == TargetGroupBlank;
      assert e[i] == TargetGroupBlank;
    }
    if reqs(k).pointsInput {
      assert PointsSetBlank in e1;
      var i :| 0 <= i < |e1| && e1[i] == PointsSetBlank;
      assert e[i] == PointsSetBlank;
    }
  }

  // ---------------------------------------------------------------------
  // Listings.

  /** `status_text`: German labels for the three statuses, anything else verbatim. */
  function StatusText(status: string): (t: string)
    ensures status == "pending" ==> t == "Ausstehend"
    ensures status == "verified" ==> t == "Bestätigt"
    ensures status == "denied" ==> t == "Abgelehnt"
    ensures status != "pending" && status != "verified" && status != "denied" ==> t == status
  {
    if status == "pending" then "Ausstehend"
    else if status == "verified" then "Bestätigt"
    else if status == "denied" then "Abgelehnt"
    else status
  }

  /** The three statuses get three different labels, none of them the raw status name. */
  lemma StatusTextDistinguishesStatuses(a: Status, b: Status)
    ensures StatusText(StatusName(a)) == StatusText(StatusName(b)) ==> a == b
    ensures StatusText(StatusName(a)) != StatusName(a)
  {
  }

  /** `points: setting&.points || opt.count`: the setting's points when it has
      any (zero included, which Ruby treats as true), else the option's count. */
  function ReportedPoints(opt: OptionRecord, setting: Option<OptionSetting>): (p: Option<int>)
    ensures setting.Some? && setting.value.points.Some? ==> p == setting.value.points
    ensures setting.None? || setting.value.points.None? ==> p == opt.count
  {
    if setting.Some? && setting.value.points.Some? then setting.value.points else opt.count
  }

  /** One entry of `GET /api/submissions/options`. */
  datatype OptionView = OptionView(option: OptionKind, requiresPhoto: Option<bool>, points: Option<int>,
                                   ruleText: Option<string>)

  function ViewOf(opt: OptionRecord, settings: seq<OptionSetting>): (v: OptionView)
    ensures v.option == opt.kind
    ensures v.requiresPhoto.Some? <==> SettingFor(settings, opt.kind).Some?
  {
    var setting := SettingFor(settings, opt.kind);
    OptionView(opt.kind,
               if setting.Some? then Some(setting.value.requiresPhoto) else None,
               ReportedPoints(opt, setting),
               if setting.Some? then setting.value.ruleText else None)
  }

  /** `options`: the views of exactly the options whose `active` is true. */
  function OptionsListing(opts: seq<OptionRecord>, settings: seq<OptionSetting>): (r: seq<OptionView>)
    ensures |r| <= |opts|
    ensures forall v :: v in r ==> exists o :: o in opts && o.active == Some(true) && v == ViewOf(o, settings)
    ensures forall o :: o in opts && o.active == Some(true) ==> ViewOf(o, settings) in r
    decreases |opts|
  {
    if |opts| == 0 then []
    else
      var rest := OptionsListing(opts[1..], settings);
      assert forall o :: o in opts[1..] ==> o in opts;
      assert forall o :: o in opts ==> o == opts[0] || o in opts[1..];
      if opts[0].active == Some(true) then [ViewOf(opts[0], settings)] + rest else rest
  }

  /** Group names in `order(:name)`, with unnamed groups last as PostgreSQL
      sorts NULL in ascending order; named groups compare code point by code point. */
  predicate NameLe(a: Option<string>, b: Option<string>)
  {
    if a.None? then b.None?
    else if b.None? then true
    else LexLe(a.value, b.value)
  }

  predicate GroupLe(g: Group, h: Group)
  {
    NameLe(g.name, h.name)
  }

  lemma GroupLeTotalPreorder()
    ensures TotalPreorder(GroupLe)
  {
    forall g: Group, h: Group
      ensures GroupLe(g, h) || GroupLe(h, g)
    {
      if g.name.Some? && h.name.Some? {
        LexLeTotal(g.name.value, h.name.value);
      }
    }
    forall g: Group, h: Group, k: Group | GroupLe(g, h) && GroupLe(h, k)
      ensures GroupLe(g, k)
    {
      if g.name.Some? && h.name.Some? && k.name.Some? {
        LexLeTransitive(g.name.value, h.name.value, k.name.value);
      }
    }
  }

  /** `Group.where.not(id: caller)`. */
  function OtherGroups(groups: seq<Group>, caller: Id): (r: seq<Group>)
    ensures forall g :: g in r <==> g in groups && g.id != caller
    ensures multiset(r) <= multiset(groups)
    decreases |groups|
  {
    if |groups| == 0 then []
    else
      assert groups == [groups[0]] + groups[1..];
      if groups[0].id == caller then OtherGroups(groups[1..], caller)
      else [groups[0]] + OtherGroups(groups[1..], caller)
  }

  /** `targets`: every group but the caller's, ordered by name. */
  function Targets(groups: seq<Group>, caller: Id): (r: seq<Group>)
    ensures forall g :: g in r <==> g in groups && g.id != caller
    ensures multiset(r) == multiset(OtherGroups(groups, caller))
    ensures SortedBy(r, GroupLe)
  {
    GroupLeTotalPreorder();
    var others := OtherGroups(groups, caller);
    var sorted := SortBy(others, GroupLe);
    assert forall g :: g in sorted <==> g in multiset(sorted);
    assert forall g :: g in others <==> g in multiset(others);
    sorted
  }

  /** The caller never appears among its own targets, and every other group
      appears exactly as often as it is stored. */
  lemma TargetsExcludeCaller(groups: seq<Group>, caller: Id, g: Group)
    ensures g.id == caller ==> g !in Targets(groups, caller)
    ensures g.id != caller ==> multiset(Targets(groups, caller))[g] == multiset(groups)[g]
  {
    OtherGroupsCount(groups, caller, g);
  }

  lemma {:induction false} OtherGroupsCount(groups: seq<Group>, caller: Id, g: Group)
    ensures g.id != caller ==> multiset(OtherGroups(groups, caller))[g] == multiset(groups)[g]
    decreases |groups|
  {
    if |groups| > 0 {
      assert groups == [groups[0]] + groups[1..];
      OtherGroupsCount(groups[1..], caller, g);
    }
  }
}
