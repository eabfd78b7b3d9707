/** The nine game options (`Option` rows seeded by db/seeds.rb) and their
    tunable settings (`OptionSetting`). */
module Options {
  import opened Wrappers
  import opened Text

  /** The action kinds, in seeding order. */
  datatype OptionKind =
    | Capture           // "hat Posten geholt"
    | PlantMine         // "hat Mine gesetzt"
    | Photograph        // "hat Gruppe fotografiert"
    | Probe             // "hat sondiert"
    | Spy               // "hat spioniert"
    | NoticePhoto       // "hat Foto bemerkt"
    | CounterEspionage  // "Spionageabwehr"
    | Bounty            // "hat Kopfgeld gesetzt"
    | Defuse            // "hat Mine entschärft"

  /** The option's `name`, the string the services dispatch on. */
  function Name(k: OptionKind): string
  {
    match k
    case Capture => "hat Posten geholt"
    case PlantMine => "hat Mine gesetzt"
    case Photograph => "hat Gruppe fotografiert"
    case Probe => "hat sondiert"
    case Spy => "hat spioniert"
    case NoticePhoto => "hat Foto bemerkt"
    case CounterEspionage => "Spionageabwehr"
    case Bounty => "hat Kopfgeld gesetzt"
    case Defuse => "hat Mine entschärft"
  }

  /** `Option.find_by(name: s)` over the seeded options. */
  function KindOfName(s: string): (r: Option<OptionKind>)
    ensures r.Some? ==> Name(r.value) == s
  {
    if s == Name(Capture) then Some(Capture)
    else if s == Name(PlantMine) then Some(PlantMine)
    else if s == Name(Photograph) then Some(Photograph)
    else if s == Name(Probe) then Some(Probe)
    else if s == Name(Spy) then Some(Spy)
    else if s == Name(NoticePhoto) then Some(NoticePhoto)
    else if s == Name(CounterEspionage) then Some(CounterEspionage)
    else if s == Name(Bounty) then Some(Bounty)
    else if s == Name(Defuse) then Some(Defuse)
    else None
  }

  /** Every seeded option is found again by its name, so no two share a name. */
  lemma NameRoundTrip(k: OptionKind)
    ensures KindOfName(Name(k)) == Some(k)
  {
  }

  /** The seeded options, in the order db/seeds.rb creates them. */
  const AllKinds: seq<OptionKind> :=
    [Capture, PlantMine, Photograph, Probe, Spy, NoticePhoto, CounterEspionage, Bounty, Defuse]

  /** Exactly nine options are seeded, each once. */
  lemma AllKindsComplete()
    ensures |AllKinds| == 9
    ensures forall k: OptionKind :: k in AllKinds
    ensures forall i, j :: 0 <= i < j < |AllKinds| ==> AllKinds[i] != AllKinds[j]
  {
    forall k: OptionKind
      ensures k in AllKinds
    {
      match k
      case Capture => assert AllKinds[0] == k;
      case PlantMine => assert AllKinds[1] == k;
      case Photograph => assert AllKinds[2] == k;
      case Probe => assert AllKinds[3] == k;
      case Spy => assert AllKinds[4] == k;
      case NoticePhoto => assert AllKinds[5] == k;
      case CounterEspionage => assert AllKinds[6] == k;
      case Bounty => assert AllKinds[7] == k;
      case Defuse => assert AllKinds[8] == k;
    }
  }

  /** An `Option` row: its kind, the legacy `count` points column and the `active` flag. */
  datatype OptionRecord = OptionRecord(kind: OptionKind, count: Option<int>, active: Option<bool>)

  /** An `OptionSetting` row. Nullable columns are `Option`s. */
  datatype OptionSetting = OptionSetting(
    option: OptionKind,
    requiresPhoto: bool,
    requiresTarget: bool,
    autoVerify: bool,
    points: Option<int>,
    cost: int,
    cooldownSeconds: int,
    ruleText: Option<string>,
    ruleTextDefault: Option<string>,
    availableToPlayers: bool)

  /** `OptionSetting.find_by(option: k)` (equally `option.option_setting`). */
  function SettingFor(settings: seq<OptionSetting>, k: OptionKind): (r: Option<OptionSetting>)
    ensures r.None? <==> forall i :: 0 <= i < |settings| ==> settings[i].option != k
    ensures r.Some? ==> r.value in settings && r.value.option == k
    decreases |settings|
  {
    if |settings| == 0 then None
    else if settings[0].option == k then Some(settings[0])
    else SettingFor(settings[1..], k)
  }

  /** The uniqueness validation on `option_id`: at most one setting per option. */
  ghost predicate OneSettingPerOption(settings: seq<OptionSetting>)
  {
    forall i, j :: 0 <= i < j < |settings| ==> settings[i].option != settings[j].option
  }

  /** Saving a new setting: refused when the option already has one. */
  function AddSetting(settings: seq<OptionSetting>, s: OptionSetting): (r: Result<seq<OptionSetting>>)
    ensures r.Ok? <==> SettingFor(settings, s.option).None?
    ensures r.Ok? ==> r.value == settings + [s] && SettingFor(r.value, s.option) == Some(s)
    ensures r.Ok? && OneSettingPerOption(settings) ==> OneSettingPerOption(r.value)
  {
    if SettingFor(settings, s.option).Some? then Err("Option has already been taken")
    else
      SettingForAppend(settings, s, s.option);
      Ok(settings + [s])
  }

  lemma {:induction false} SettingForAppend(settings: seq<OptionSetting>, s: OptionSetting, k: OptionKind)
    requires SettingFor(settings, k).None?
    ensures SettingFor(settings + [s], k) == if s.option == k then Some(s) else None
    decreases |settings|
  {
    if |settings| > 0 {
      assert (settings + [s])[1..] == settings[1..] + [s];
      SettingForAppend(settings[1..], s, k);
    }
  }

  /** `cooldown_minutes`: whole minutes of the cooldown, rounded down. */
  function CooldownMinutes(s: OptionSetting): (m: int)
    ensures m * 60 <= s.cooldownSeconds < m * 60 + 60
  {
    s.cooldownSeconds / 60
  }

  /** `cooldown_minutes = m`: stores the cooldown as m minutes in seconds. */
  function SetCooldownMinutes(s: OptionSetting, m: int): (r: OptionSetting)
    ensures r.cooldownSeconds == m * 60
    ensures r == s.(cooldownSeconds := r.cooldownSeconds)
  {
    s.(cooldownSeconds := m * 60)
  }

  /** Writing minutes and reading them back yields the same minutes. */
  lemma CooldownMinutesRoundTrip(s: OptionSetting, m: int)
    ensures CooldownMinutes(SetCooldownMinutes(s, m)) == m
  {
  }

  /** Reading minutes and writing them back changes nothing exactly when the
      stored cooldown is a whole number of minutes. */
  lemma CooldownSecondsRoundTrip(s: OptionSetting)
    ensures SetCooldownMinutes(s, CooldownMinutes(s)) == s <==> s.cooldownSeconds % 60 == 0
  {
  }

  /** `reset_rule_to_default!`: restores the saved rule text, when one is present. */
  function ResetRuleToDefault(s: OptionSetting): (r: OptionSetting)
    ensures IsPresent(s.ruleTextDefault) ==> r == s.(ruleText := s.ruleTextDefault)
    ensures IsBlank(s.ruleTextDefault) ==> r == s
  {
    if IsPresent(s.ruleTextDefault) then s.(ruleText := s.ruleTextDefault) else s
  }

  /** `save_rule_as_default!`: the current rule text becomes the default. */
  function SaveRuleAsDefault(s: OptionSetting): (r: OptionSetting)
    ensures r.ruleTextDefault == s.ruleText
    ensures r == s.(ruleTextDefault := r.ruleTextDefault)
  {
    s.(ruleTextDefault := s.ruleText)
  }

  /** Saving and then resetting never changes the rule text players see. */
  lemma SaveThenResetKeepsRule(s: OptionSetting)
    ensures ResetRuleToDefault(SaveRuleAsDefault(s)) == SaveRuleAsDefault(s)
    ensures ResetRuleToDefault(SaveRuleAsDefault(s)).ruleText == s.ruleText
  {
  }

  /** Resetting twice is resetting once. */
  lemma ResetIdempotent(s: OptionSetting)
    ensures ResetRuleToDefault(ResetRuleToDefault(s)) == ResetRuleToDefault(s)
  {
  }
}
