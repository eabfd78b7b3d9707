/** The `OPTION_DEFAULTS` seed table: the factory settings of each option. */
module OptionDefaults {
  import opened Options

  /** One row of the table. */
  datatype DefaultSetting = DefaultSetting(
    requiresPhoto: bool,
    requiresTarget: bool,
    autoVerify: bool,
    points: int,
    cost: int,
    cooldownSeconds: int,
    availableToPlayers: bool)

  /** The table, total over the nine options. */
  function DefaultsFor(k: OptionKind): DefaultSetting
  {
    match k
    case Capture => DefaultSetting(true, true, false, 0, 0, 0, true)
    case PlantMine => DefaultSetting(false, true, true, 0, 0, 0, true)
    case Photograph => DefaultSetting(true, false, false, 400, 0, 3600, true)
    case Probe => DefaultSetting(false, true, true, 0, 50, 0, true)
    case Spy => DefaultSetting(false, false, true, 0, 50, 3600, true)
    case NoticePhoto => DefaultSetting(false, false, true, 200, 0, 600, true)
    case CounterEspionage => DefaultSetting(false, false, true, 0, 300, 0, true)
    case Bounty => DefaultSetting(false, false, true, 0, 0, 0, true)
    case Defuse => DefaultSetting(false, true, true, 0, 50, 0, true)
  }

  /** Only photograph, spy and notice carry a cooldown: one hour, one hour and ten minutes. */
  lemma DefaultCooldowns(k: OptionKind)
    ensures DefaultsFor(k).cooldownSeconds > 0 <==> k in {Photograph, Spy, NoticePhoto}
    ensures k == Photograph ==> DefaultsFor(k).cooldownSeconds == 3600
    ensures k == Spy ==> DefaultsFor(k).cooldownSeconds == 3600
    ensures k == NoticePhoto ==> DefaultsFor(k).cooldownSeconds == 600
    ensures DefaultsFor(k).cooldownSeconds >= 0
  {
    match k
    case Capture =>
    case PlantMine =>
    case Photograph =>
    case Probe =>
    case Spy =>
    case NoticePhoto =>
    case CounterEspionage =>
    case Bounty =>
    case Defuse =>
  }

  /** Photographing a group awards 400 points and noticing a photo 200; no other option awards points. */
  lemma DefaultPoints(k: OptionKind)
    ensures k == Photograph ==> DefaultsFor(k).points == 400
    ensures k == NoticePhoto ==> DefaultsFor(k).points == 200
    ensures k !in {Photograph, NoticePhoto} ==> DefaultsFor(k).points == 0
  {
    match k
    case Capture =>
    case PlantMine =>
    case Photograph =>
    case Probe =>
    case Spy =>
    case NoticePhoto =>
    case CounterEspionage =>
    case Bounty =>
    case Defuse =>
  }

  /** Fixed costs; mine and bounty cost 0 because the player sets the stake. */
  lemma DefaultCosts(k: OptionKind)
    ensures k in {Probe, Spy, Defuse} ==> DefaultsFor(k).cost == 50
    ensures k == CounterEspionage ==> DefaultsFor(k).cost == 300
    ensures k in {Capture, PlantMine, Photograph, NoticePhoto, Bounty} ==> DefaultsFor(k).cost == 0
  {
    match k
    case Capture =>
    case PlantMine =>
    case Photograph =>
    case Probe =>
    case Spy =>
    case NoticePhoto =>
    case CounterEspionage =>
    case Bounty =>
    case Defuse =>
  }

  /** Only capture and photograph need photo evidence, and they are the only
      options not verified automatically. */
  lemma DefaultPhotoAndAutoVerify(k: OptionKind)
    ensures DefaultsFor(k).requiresPhoto <==> k in {Capture, Photograph}
    ensures DefaultsFor(k).autoVerify <==> !DefaultsFor(k).requiresPhoto
  {
    match k
    case Capture =>
    case PlantMine =>
    case Photograph =>
    case Probe =>
    case Spy =>
    case NoticePhoto =>
    case CounterEspionage =>
    case Bounty =>
    case Defuse =>
  }

  /** Every option is offered to players by default. */
  lemma DefaultAvailability(k: OptionKind)
    ensures DefaultsFor(k).availableToPlayers
  {
  }
}
