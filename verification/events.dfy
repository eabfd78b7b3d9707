/** The `Event` ledger: one row per verified submission. */
module Events {
  import opened Wrappers
  import opened Base
  import opened Options

  /** The fields `verify!` copies from the submission into a new event. */
  datatype EventDraft = EventDraft(
    group: Id,
    option: OptionKind,
    target: Option<Id>,       // the Posten
    targetGroup: Option<Id>,
    pointsSet: Option<int>)

  /** The fields the scoring step fills in. `hiddenUntil` is read by
      `Group#player_visible_points`. */
  datatype Outcome = Outcome(
    time: Time,
    groupPoints: Option<int>,
    targetPoints: Option<int>,
    targetGroupPoints: Option<int>,
    description: Option<string>,
    noticed: Option<bool>,
    hiddenUntil: Option<Time>)

  /** A ledger entry. */
  datatype Event = Event(draft: EventDraft, outcome: Outcome)

  /** `Event#calculate_points(submitted_at:)` followed by `save!`. Its rules are
      not part of this model: it is a parameter, applied to the draft and the
      submission's `submitted_at`, that either yields the scored fields or
      fails the way `ActiveRecord::RecordInvalid` does. */
  type Scorer = (EventDraft, Option<Time>) -> Result<Outcome>
}
