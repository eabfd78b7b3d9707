/** `CooldownChecker`: whether a group may file a cooldown-bearing action
    against a target group yet, decided from the Event ledger. */
module Cooldown {
  import opened Wrappers
  import opened Base
  import opened Numeric
  import opened Text
  import opened Options
  import opened OptionDefaults
  import opened Events

  /** The options the checker dispatches on; every other option is allowed. */
  predicate IsCooldownOption(k: OptionKind)
  {
    k == Photograph || k == Spy || k == NoticePhoto
  }

  /** Why an action was refused. */
  datatype Denial =
    | TargetGroupRequired
    | RetryInMinutes(minutes: int)   // photograph and spy
    | WaitSeconds(seconds: int)      // notice

  /** `{ allowed: true }` or `{ allowed: false, reason: ... }`. */
  datatype Verdict = Allowed | Rejected(denial: Denial)

  /** The `reason` string of a refusal. */
  function ReasonText(d: Denial): string
  {
    match d
    case TargetGroupRequired => "Zielgruppe erforderlich"
    case RetryInMinutes(m) => "Cooldown aktiv. Versuche es in " + IntToString(m) + " Minute(n) erneut."
    case WaitSeconds(s) => "Foto wurde schon bemerkt. Warte " + IntToString(s) + " Sekunden."
  }

  /** The ledger query `where(option:, group:, target_group:)`. */
  predicate Matches(e: Event, k: OptionKind, group: Id, targetGroup: Id)
  {
    e.draft.option == k && e.draft.group == group && e.draft.targetGroup == Some(targetGroup)
  }

  /** The time of `...order(:time).last`: the latest matching event's time. */
  function LatestTime(ledger: seq<Event>, k: OptionKind, group: Id, targetGroup: Id): (r: Option<Time>)
    ensures r.None? <==> forall i :: 0 <= i < |ledger| ==> !Matches(ledger[i], k, group, targetGroup)
    ensures r.Some? ==> exists i :: 0 <= i < |ledger| && Matches(ledger[i], k, group, targetGroup)
                                    && ledger[i].outcome.time == r.value
    ensures r.Some? ==> forall i :: 0 <= i < |ledger| && Matches(ledger[i], k, group, targetGroup)
                                    ==> ledger[i].outcome.time <= r.value
    decreases |ledger|
  {
    if |ledger| == 0 then None
    else
      var prev := LatestTime(ledger[..|ledger| - 1], k, group, targetGroup);
      var e := ledger[|ledger| - 1];
      if !Matches(e, k, group, targetGroup) then
        assert forall i :: 0 <= i < |ledger| - 1 ==> ledger[..|ledger| - 1][i] == ledger[i];
        prev
      else if prev.None? || prev.value <= e.outcome.time then
        Some(e.outcome.time)
      else
        assert forall i :: 0 <= i < |ledger| - 1 ==> ledger[..|ledger| - 1][i] == ledger[i];
        prev
  }

  /** The refusal shown while `remaining` seconds of the cooldown are left:
      minutes rounded up for photograph and spy, seconds for notice. */
  function Remaining(k: OptionKind, remaining: int): Denial
  {
    if k == NoticePhoto then WaitSeconds(remaining) else RetryInMinutes(CeilDiv(remaining, SecondsPerMinute))
  }

  /** `check_foto_cooldown`, `check_spionage_cooldown` and
      `check_foto_noticed_cooldown`: one body, as the three are alike. */
  function CheckOption(cooldown: int, k: OptionKind, group: Id, targetGroup: Option<Id>,
                       ledger: seq<Event>, now: Time): Verdict
  {
    if targetGroup.None? then Rejected(TargetGroupRequired)
    else
      match LatestTime(ledger, k, group, targetGroup.value)
      case None => Allowed
      case Some(t) =>
        var since := now - t;
        if since < cooldown then Rejected(Remaining(k, cooldown - since)) else Allowed
  }

  /** Cooldowns are enforced only for the three options, when a setting exists
      with a positive `cooldown_seconds`. */
  predicate Enforced(setting: Option<OptionSetting>, k: OptionKind)
  {
    setting.Some? && setting.value.cooldownSeconds > 0 && IsCooldownOption(k)
  }

  /** `CooldownChecker.new(group, option, target_group).check` at time `now`. */
  function Check(setting: Option<OptionSetting>, k: OptionKind, group: Id, targetGroup: Option<Id>,
                 ledger: seq<Event>, now: Time): (v: Verdict)
    ensures !Enforced(setting, k) ==> v == Allowed
    ensures Enforced(setting, k) && targetGroup.None? ==> v == Rejected(TargetGroupRequired)
    ensures Enforced(setting, k) && targetGroup.Some? ==>
              (v == Allowed <==>
                 forall i :: 0 <= i < |ledger| && Matches(ledger[i], k, group, targetGroup.value)
                   ==> now - ledger[i].outcome.time >= setting.value.cooldownSeconds)
    ensures v.Rejected? && v.denial.RetryInMinutes? ==>
              k in {Photograph, Spy} && v.denial.minutes >= 1
    ensures v.Rejected? && v.denial.WaitSeconds? ==> k == NoticePhoto && v.denial.seconds >= 1
  {
    if setting.None? || setting.value.cooldownSeconds <= 0 then Allowed
    else if IsCooldownOption(k) then
      CheckOption(setting.value.cooldownSeconds, k, group, targetGroup, ledger, now)
    else Allowed
  }

  /** A refusal reports exactly the time left after the latest matching event:
      whole minutes rounded up, or seconds. */
  lemma RejectionFigures(setting: Option<OptionSetting>, k: OptionKind, group: Id, tg: Id,
                         ledger: seq<Event>, now: Time)
    requires Check(setting, k, group, Some(tg), ledger, now).Rejected?
    ensures LatestTime(ledger, k, group, tg).Some?
    ensures var remaining := setting.value.cooldownSeconds - (now - LatestTime(ledger, k, group, tg).value);
            && remaining > 0
            && var d := Check(setting, k, group, Some(tg), ledger, now).denial;
            && (d.RetryInMinutes? ==> (d.minutes - 1) * 60 < remaining <= d.minutes * 60)
            && (d.WaitSeconds? ==> d.seconds == remaining)
  {
  }

  /** Waiting never hurts: an action allowed at `t` is allowed at every later time. */
  lemma MonotoneInTime(setting: Option<OptionSetting>, k: OptionKind, group: Id, targetGroup: Option<Id>,
                       ledger: seq<Event>, t: Time, t': Time)
    requires t <= t'
    requires Check(setting, k, group, targetGroup, ledger, t) == Allowed
    ensures Check(setting, k, group, targetGroup, ledger, t') == Allowed
  {
  }

  /** Right after a matching event, the action is refused until the cooldown has
      passed, and allowed from then on when no later matching event exists. */
  lemma BoundaryIsAllowed(setting: Option<OptionSetting>, k: OptionKind, group: Id, tg: Id,
                          ledger: seq<Event>, e: Event, now: Time)
    requires Enforced(setting, k)
    requires Matches(e, k, group, tg)
    requires forall i :: 0 <= i < |ledger| && Matches(ledger[i], k, group, tg)
               ==> ledger[i].outcome.time <= e.outcome.time
    ensures Check(setting, k, group, Some(tg), ledger + [e], now) == Allowed
            <==> now >= e.outcome.time + setting.value.cooldownSeconds
  {
    var l := ledger + [e];
    assert l[|l| - 1] == e;
    if Check(setting, k, group, Some(tg), l, now) == Allowed {
      assert Matches(l[|l| - 1], k, group, tg);
    }
  }

  /** Events that do not match the query (another option, another acting
      group or another target group) never change the verdict. */
  lemma NonMatchingEventIgnored(setting: Option<OptionSetting>, k: OptionKind, group: Id, targetGroup: Option<Id>,
                                ledger: seq<Event>, e: Event, now: Time)
    requires targetGroup.Some? ==> !Matches(e, k, group, targetGroup.value)
    ensures Check(setting, k, group, targetGroup, ledger + [e], now)
         == Check(setting, k, group, targetGroup, ledger, now)
  {
    if targetGroup.Some? {
      var l := ledger + [e];
      assert l[..|l| - 1] == ledger;
    }
  }

  /** In particular the reverse direction (the target group acting against the
      actor) never affects the actor's cooldown. */
  lemma ReverseDirectionIgnored(setting: Option<OptionSetting>, k: OptionKind, group: Id, tg: Id,
                                ledger: seq<Event>, e: Event, now: Time)
    requires group != tg
    requires e.draft.group == tg && e.draft.targetGroup == Some(group)
    ensures Check(setting, k, group, Some(tg), ledger + [e], now)
         == Check(setting, k, group, Some(tg), ledger, now)
  {
    NonMatchingEventIgnored(setting, k, group, Some(tg), ledger, e, now);
  }

  /** The checker's three options are exactly those seeded with a positive cooldown. */
  lemma CooldownOptionsMatchDefaults(k: OptionKind)
    ensures IsCooldownOption(k) <==> DefaultsFor(k).cooldownSeconds > 0
  {
    DefaultCooldowns(k);
  }
}
