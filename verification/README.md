# ggame core in Dafny

This project models the rules engine of *ggame*. In that live team game, groups
file claims ("submissions") from their phones: they took a Posten, photographed
another group, spied on one, and so on. Administrators verify or deny the
claims, and every verified claim becomes an `Event` in the ledger.

The model covers these parts:

- the verification queue (`QueueManager`), which makes a photograph claim and a
  "photo noticed" claim between the same two groups wait for one another in
  submission order;
- the cooldown check (`CooldownChecker`) over the Event ledger;
- the submission lifecycle: creation validations, `set_submitted_at`,
  `verify!`, `deny!`, `waiting_time_text`, and the control room's undo;
- the game clock: `GameSetting#game_running?`, start/stop and the defaults
  round trip, and `GameTimeWindow` validation, `active?` and `ordered`;
- the player-session join lock (`PlayerSession#join_group!`) and its helpers;
- option configuration: `OptionSetting` and the nine-entry `OPTION_DEFAULTS` table;
- group helpers: `player_visible_points` and the join token;
- the player API's helpers: authentication, submission creation, `status_text`,
  `should_auto_verify?`, the options listing and the targets listing;
- the control room's earliest-pending selection, statistics and `calculate_next_end_time`.

Everything is a pure function over immutable records. Database tables become
`seq`s, time is an integer number of seconds, and `Time.current` becomes a
`now` parameter. A nullable column becomes `Option`. An exception or a failed
save becomes a `Result` or an outcome datatype whose error cases carry the
validation errors.

Modules follow the program's structure:

| file | module | models |
|---|---|---|
| wrappers.dfy, base.dfy | `Wrappers`, `Base` | `Option`/`Result`, time and id types |
| numeric.dfy | `Numeric` | Ruby's `ceil` of a quotient and `to_i` truncation |
| text.dfy | `Text` | `blank?`/`present?`/`presence`, integer interpolation, string order |
| ordering.dfy | `Ordering` | `where(...).order(key).first` and `order(key)` |
| options.dfy, option_defaults.dfy | `Options`, `OptionDefaults` | `Option`, `OptionSetting`, `OPTION_DEFAULTS` |
| events.dfy | `Events` | an `Event` and the scorer that fills in its points |
| groups.dfy | `Groups` | `Group` |
| cooldown.dfy | `Cooldown` | `CooldownChecker` |
| game_clock.dfy | `GameClock` | `GameSetting`, `GameTimeWindow` |
| player_sessions.dfy | `PlayerSessions` | `PlayerSession` |
| submissions.dfy | `Submissions` | `Submission` |
| queue.dfy | `Queue` | `QueueManager` |
| api.dfy | `Api` | `Api::SubmissionsController` |
| control_room.dfy | `ControlRoom` | `Admin::ControlRoomController` |

## Modelling decisions

The model keeps these behaviours of the code as written, without fixing them.

- **The cooldown check is given the Posten.** `cooldown_respected` passes the
  submission's `target` (a Posten) into `CooldownChecker`'s `target_group`
  slot (app/models/submission.rb:191). `Submissions.CooldownVerdict` does the
  same. `Submissions.CooldownCallUsesPosten` shows the consequence: if a
  cooldown option has a positive cooldown, a claim without a Posten is refused
  with "Zielgruppe erforderlich", even when it names a target group.
- **The queue is not wired in.** `verify!` and `deny!` never call
  `QueueManager`. No code shown sets `queued_behind_id`. The `Queue` module
  therefore stands alone.
- **`queued?` is an assumption.** The model does not define `queued?`. Here it
  means "`queued_behind_id` is set" (`Submissions.Queued`).
- **No uniqueness of pending claims.** The "unique pending" index is not
  declared unique, so the model assumes no uniqueness invariant.
- **`game_active` is required.** `game_running?` is false whenever
  `game_active` is false, windows or not.
- **`update!` re-validates.** `verify!`, `deny!` and undo save with `update!`
  or `update`, so the validations without `on: :create` run again (presence of
  `submitted_at`, of a required Posten or target group, and of a positive
  `points_set`). The three callers handle a failure differently:
  - `verify!` rescues it, and the whole transaction is rolled back;
  - `deny!` lets the exception escape;
  - undo reports false.

  Releasing the queue also saves with `update!`
  (app/services/queue_manager.rb:55). The loop runs outside any transaction,
  so a waiting claim that fails re-validation raises partway through. The
  claims before it stay released, and it and the claims after it stay queued
  (`Queue.Release`, `Queue.ProcessReleased`). The waiters are visited in
  stored order.
- **A nil `points_set` gives two errors.** When `points_set` is required and
  nil, Rails reports two errors: blank, and not a number.
- **The API never sends a target group or stake.** The player API permits only
  `option_id`, `target_id` and `description`. Any target group or `points_set`
  a client sends is dropped. So an option that requires either can never be
  filed through the API (`Api.ApiCannotFileGroupOrStakeClaims`).
- **`verified_at` survives an undo.** Undo resets only `status` and
  `admin_message`. It keeps `verified_at` and `verified_by`, and it keeps the
  Event that a verification wrote. Verifying again appends a second, identical
  Event (`ControlRoom.VerifyUndoVerifyScoresTwice`).
- **Scoring is a parameter.** `Event#calculate_points` is not defined in
  app/models/event.rb. It is a function parameter (`Events.Scorer`) that
  receives the Event's fields and the submission's `submitted_at`. It either
  yields the computed outcome or fails. A failure stands for the
  `RecordInvalid` that `event.save!` can raise.
- **Outside calls are parameters too.** `Option#requires_posten?`,
  `requires_target_group?` and `requires_points_input?` are not in the model
  either. They are passed in as `Submissions.Requirements`.
- **`Option#option_setting` is assumed.** app/models/option.rb declares only
  `has_many :events`, yet `option.option_setting` is called by the cooldown
  check (app/services/cooldown_checker.rb:12) and the options listing
  (app/controllers/api/submissions_controller.rb:65-69). The model takes it to
  mean the first stored setting of the option (`Options.SettingFor`).
- **Events are assumed to have a target group.** app/models/event.rb:20-23
  declares only `group`, `option` and `target`. The model assumes that
  `Event.new(..., target_group:)` in `verify!` (`Submissions.DraftOf`) and
  `where(target_group:)` in the cooldown check (`Cooldown.Matches`) work as
  their names say.
- **A submission without an option is a 422.** When the request names no
  existing option, `belongs_to :option` adds its "must exist" error first. The
  checks that need an option return early, and the running-game check still
  runs. The API answers 422 with those errors (`Api.ApiCreate`).
- **Ties go to the first stored record.** Where the database picks among equal
  sort keys (`order(submitted_at: :asc).first`, `order(:time).last`,
  `order(:start_time).first`, `order(:name)`), the model picks the first stored
  record, or keeps stored order.
- **Names sort by code point.** `order(:name)` compares names code point by
  code point, as the C collation does, and puts unnamed groups last, where
  PostgreSQL puts NULL in ascending order.
- **`blank?`.** Ruby's `blank?` counts as blank a string made only of Unicode
  White_Space characters, or an empty string.

## Model

| member | source | states |
|---|---|---|
| Queue.FindBlocking | app/services/queue_manager.rb:71-129 | nothing is found exactly when no stored submission blocks the claim (pending, complementary option, filed by the claim's target group against the claim's group, submitted strictly earlier); what is found blocks it and was submitted no later than any other blocker |
| Queue.CheckQueue | app/services/queue_manager.rb:35-46 | `queued: false` exactly when nothing blocks the claim; otherwise the earliest blocker, with the reason naming it |
| Queue.OnlyPhotoAndNoticeQueue | app/services/queue_manager.rb:71-87 | claims of any option other than photograph and notice are never queued |
| Queue.NoTargetGroupNeverQueued | app/services/queue_manager.rb:91-112 | a claim without a target group is never queued |
| Queue.BlockerTraits | app/services/queue_manager.rb:89-140 | a blocker is pending and has the complementary option; it was filed by the claim's target group against the claim's group, strictly earlier; the reason reads "Wartet auf Foto-Verifizierung von …" or "Wartet auf 'Foto bemerkt' von …" with the blocker's group name |
| Queue.QueuedIffBlockerExists | app/services/queue_manager.rb:35-46 | a claim is queued if and only if some stored submission blocks it |
| Queue.BlockingIsAsymmetric | app/services/queue_manager.rb:105-126 | no submission blocks itself, and two submissions never block each other |
| Queue.QueueReasonFor | app/services/queue_manager.rb:131-140 | every reason starts "Wartet auf "; for a photograph or notice blocker it ends with the blocker's group name, otherwise it continues with the blocker's option name |
| Queue.FirstStuck | app/services/queue_manager.rb:51-55 | the first stored pending waiter whose `update!` fails re-validation, and none exactly when every waiter passes |
| Queue.Release | app/services/queue_manager.rb:50-56 | the pending submissions queued behind the resolved one, up to the first whose re-validation fails, have their queue fields cleared; that one, everything after it, and every non-waiter are unchanged |
| Queue.ProcessReleased | app/services/queue_manager.rb:50-67 | the table ends as `Release` says; the call returns `ClearedWaiters` of the table when none fails, and otherwise raises with the validation errors of the first failing one |
| Queue.ClearedWaiters | app/services/queue_manager.rb:51-55 | the returned records are exactly the cleared versions of the stored submissions that were waiting; each is pending and no longer queued |
| Queue.ReleaseKeepsFirstStuck | app/services/queue_manager.rb:51-55 | a second release stops at the same waiter as the first |
| Queue.ReleaseExactlyOnce | app/services/queue_manager.rb:51-55 | releasing twice is releasing once; when no waiter fails, nothing pending waits on the resolved submission afterwards; otherwise the failing waiter still waits and it and everything after it are unchanged |
| Queue.ReleaseOnlyClearsQueueFields | app/services/queue_manager.rb:55 | release never changes a status, and changes only `queued_behind_id` and `queue_reason` |
| Cooldown.LatestTime | app/services/cooldown_checker.rb:33-36 | the time of the latest ledger event with the same option, acting group and target group, or none when no event matches |
| Cooldown.Check | app/services/cooldown_checker.rb:11-102 | always allowed without a setting, with a cooldown ≤ 0, or for other options; a cooldown option without a target group gets "Zielgruppe erforderlich"; otherwise allowed iff every matching event lies at least `cooldown_seconds` back; a refusal reports at least one minute (photograph, spy) or one second (notice) |
| Cooldown.CheckOption | app/services/cooldown_checker.rb:30-102 | the three option checks share one shape: no target group is refused with "Zielgruppe erforderlich"; otherwise refused exactly while the latest matching event is less than the cooldown ago; `Check` states it for every input |
| Cooldown.RejectionFigures | app/services/cooldown_checker.rb:39-91 | a refusal reports ⌈remaining/60⌉ minutes for photograph and spy, and ⌈remaining⌉ seconds for notice, where remaining = cooldown − elapsed since the latest matching event |
| Cooldown.MonotoneInTime | app/services/cooldown_checker.rb:39-40 | on the same ledger, an action allowed at t is allowed at every later time |
| Cooldown.BoundaryIsAllowed | app/services/cooldown_checker.rb:40 | exactly `cooldown_seconds` after the latest matching event, the action is allowed |
| Cooldown.NonMatchingEventIgnored | app/services/cooldown_checker.rb:33-85 | appending an event of another option, actor or target group does not change the verdict |
| Cooldown.ReverseDirectionIgnored | app/services/cooldown_checker.rb:33-35 | an event in which the target group acted against the actor never affects the actor's verdict |
| Cooldown.CooldownOptionsMatchDefaults | db/seeds/option_settings_defaults.rb:31-61 | the options the checker dispatches on are exactly those seeded with a positive cooldown |
| Submissions.SetSubmittedAt | app/models/submission.rb:184-186 | `submitted_at` is filled in with now only when it is missing, and an existing value is never overwritten |
| Submissions.SetSubmittedAtIdempotent | app/models/submission.rb:184-186 | filling in twice is filling in once, whatever the second clock reading |
| Submissions.SaveErrors | app/models/submission.rb:58-62 | no error exactly when `submitted_at` is set, a required Posten and target group are there, and a required `points_set` is present and positive |
| Submissions.CreateOnlyErrors | app/models/submission.rb:63-212 | no error exactly when the cooldown check (given the Posten) allows, the game is running, and a required photo is attached |
| Submissions.Create | app/models/submission.rb:59-75 | a created record is the input with `submitted_at` filled in; a refusal carries at least one error |
| Submissions.CreateValidIff | app/models/submission.rb:59-212 | creation succeeds exactly when every validation passes |
| Submissions.NoCreationWhileStopped | app/models/submission.rb:198-203 | no submission is created while the game is not running, and the refusal names that reason |
| Submissions.CooldownVerdict | app/models/submission.rb:188-196 | the cooldown verdict creation uses, with the Posten in the target-group slot; `CooldownCallUsesPosten` states the consequence |
| Submissions.CooldownCallUsesPosten | app/models/submission.rb:188-196 | with the Posten in the target-group slot, a cooldown-option claim with positive cooldown and no Posten is refused with "Zielgruppe erforderlich" |
| Submissions.DraftOf | app/models/submission.rb:85-91 | the Event copies the submission's group, option, Posten, target group and `points_set` |
| Submissions.Verify | app/models/submission.rb:80-110 | not pending gives false; a scoring failure rolls back with its message; otherwise the submission is verified at now by the admin with the message, and exactly one scored Event is appended, unless re-validation fails, in which case nothing changes |
| Submissions.DenialMessage | app/models/submission.rb:120 | the given message when it is present, else "Abgelehnt" |
| Submissions.Deny | app/models/submission.rb:113-122 | not pending gives false; otherwise denied at now by the admin with the denial message, or the re-validation errors are raised; no Event is touched |
| Submissions.OnlyPendingIsResolved | app/models/submission.rb:44-114 | the only transitions are pending→verified and pending→denied; resolved submissions are left alone |
| Submissions.VerifyAtomic | app/models/submission.rb:83-109 | verification either appends exactly one Event for the claim and verifies it, or does neither |
| Submissions.VerifyEventIndependentOfVerificationTime | app/models/submission.rb:93-94 | the Event is scored from `submitted_at`, so verifying at another time appends the same Event |
| Submissions.WaitingDisplayAt | app/models/submission.rb:153-169 | no time without `submitted_at`; otherwise m = elapsed seconds / 60 truncated toward zero, shown as m minutes below 60, else as m/60 hours and m%60 minutes |
| Submissions.WaitingTimeText | app/models/submission.rb:159-170 | the waiting text: "<m> Min." under an hour and "<h>h <m>m" from an hour on, as `WaitingTextUnderAnHour`, `WaitingTextFromAnHour` and `RenderInjective` state |
| Submissions.WaitingTextUnderAnHour | app/models/submission.rb:162-164 | under an hour the text is "<m> Min." |
| Submissions.WaitingTextFromAnHour | app/models/submission.rb:165-168 | from an hour on the text is "<h>h <m>m" with h = m/60 and m%60 |
| Submissions.WaitingTextSlightlyAhead | app/models/submission.rb:160-164 | a `submitted_at` less than a minute in the future still reads "0 Min." |
| Submissions.RenderInjective | app/models/submission.rb:159-170 | different waiting displays render to different texts |
| GameClock.WindowErrors | app/models/game_time_window.rb:26-49 | a blank start, a blank end, and an end not after the start are each reported exactly when they occur |
| GameClock.ValidateWindow | app/models/game_time_window.rb:26-49 | a window is valid exactly when it has no errors, and then it has both times with start < end |
| GameClock.WindowActive | app/models/game_time_window.rb:32-35 | a window is active from its start to its end, both included; `ValidWindowActiveAtEnds` and `RunningWithWindows` state its uses |
| GameClock.ValidWindowActiveAtEnds | app/models/game_time_window.rb:32-35 | a valid window is active at its start and at its end, and exactly on the closed interval between them |
| GameClock.Ordered | app/models/game_time_window.rb:29 | `ordered` is a permutation of the windows with non-decreasing positions |
| GameClock.GameRunning | app/models/game_setting.rb:37-50 | `game_running?`, stated branch by branch by `InactiveNeverRuns`, `RunningWithWindows` and `RunningWithoutWindows` |
| GameClock.InactiveNeverRuns | app/models/game_setting.rb:38 | without `game_active` the game never runs, windows or not |
| GameClock.RunningWithWindows | app/models/game_setting.rb:37-43 | with windows, running iff active and some window contains now; the legacy start and end are ignored |
| GameClock.RunningWithoutWindows | app/models/game_setting.rb:46-50 | without windows, running iff active and start ≤ now ≤ end, with a missing start read as now and a missing end as a year from now |
| GameClock.StartGame | app/models/game_setting.rb:27-29 | starting sets `game_active` and the start time to now and changes nothing else |
| GameClock.StopGame | app/models/game_setting.rb:32-34 | stopping clears `game_active` and sets the end time to now, changing nothing else |
| GameClock.StoppedGameNotRunning | app/models/game_setting.rb:32-38 | a stopped game is not running at any time |
| GameClock.StartedGameRuns | app/models/game_setting.rb:27-50 | without windows, a game started at now runs at now unless its end time has passed |
| GameClock.SaveAsDefaults | app/models/game_setting.rb:66-73 | saving defaults changes only the stored defaults |
| GameClock.ResetToDefaults | app/models/game_setting.rb:54-63 | resetting keeps the stored defaults and the windows |
| GameClock.SaveThenResetRestores | app/models/game_setting.rb:54-73 | save then reset restores exactly the four saved fields, whatever they became in between |
| GameClock.ResetWithoutSavedDefaults | app/models/game_setting.rb:55-62 | with no saved defaults, reset gives multiplier 1.0, inactive, no start and no end, so the game does not run |
| ControlRoom.NextEndTime | app/controllers/admin/control_room_controller.rb:75-91 | with windows, the end of the earliest-starting window that ends after now, or none, without falling back to `game_end_time`; without windows, `game_end_time` |
| ControlRoom.NextEndTimeWhileRunning | app/controllers/admin/control_room_controller.rb:80-87 | while the game runs inside a window, the next end lies in the future; it is missing only at the very second the active windows end |
| ControlRoom.EarliestPending | app/controllers/admin/control_room_controller.rb:9-11 | the pending submission with the earliest `created_at`, or none exactly when nothing is pending |
| ControlRoom.CountWhere | app/controllers/admin/control_room_controller.rb:17-23 | a count is 0 exactly when the query selects no submission, and the table size exactly when it selects all of them |
| ControlRoom.CountWhereAppend | app/controllers/admin/control_room_controller.rb:17-23 | one more stored submission raises the count by one exactly when the query selects it |
| ControlRoom.Stats | app/controllers/admin/control_room_controller.rb:17-23 | the pending count is 0 exactly when no submission is pending, whenever created; the verified and denied counts are 0 exactly when none with that status was created today; the three never add up to more than the stored submissions |
| ControlRoom.StatsAfterNewSubmission | app/controllers/admin/control_room_controller.rb:17-23 | a new submission raises the pending count when pending, the verified or denied count when it has that status and was created today, and nothing else |
| ControlRoom.StatsBounded | app/controllers/admin/control_room_controller.rb:17-23 | no submission is counted under two statuses |
| ControlRoom.StatsCoverEverything | app/controllers/admin/control_room_controller.rb:17-23 | when every submission was created today, the three counts add up to the number of submissions |
| ControlRoom.Undo | app/controllers/admin/control_room_controller.rb:57-66 | undo succeeds exactly when the re-validation passes; it then sets status pending, clears `admin_message`, and keeps everything else including `verified_at` and `verified_by` |
| ControlRoom.VerifyUndoVerifyScoresTwice | app/controllers/admin/control_room_controller.rb:57-66 | verify, undo, verify leaves two identical Events for one claim, and the undone claim keeps its old verification time |
| PlayerSessions.Active | app/models/player_session.rb:100-102 | active while the last activity is less than 30 minutes ago; `JoinMakesActive` states it for a fresh join |
| PlayerSessions.JoinMakesActive | app/models/player_session.rb:91-102 | after a successful join at now the session is active exactly until now + 30 minutes, exclusive |
| PlayerSessions.Blocked | app/models/player_session.rb:105-107 | blocked from a set `blocked_until` up to it, exclusive; `ThirdFailureBlocksForAnHour` and `UnblockedNotBlocked` state its uses |
| PlayerSessions.ThirdFailureBlocksForAnHour | app/models/player_session.rb:72-107 | the third failed hopping attempt blocks the session from now until exactly one hour later, exclusive |
| PlayerSessions.GroupLocked | app/models/player_session.rb:110-112 | locked when the lock flag is set and an initial group is recorded; `FirstJoinLocks` and `JoinKeepsLock` state how joins keep it |
| PlayerSessions.Unblock | app/models/player_session.rb:115-117 | unblocking clears `blocked_until`, zeroes the counter and changes nothing else |
| PlayerSessions.UnblockedNotBlocked | app/models/player_session.rb:105-117 | an unblocked session is not blocked at any time |
| PlayerSessions.JoinGroup | app/models/player_session.rb:60-62 | an unknown join token raises "Invalid join token" and leaves the session unchanged; a join only succeeds for a known token |
| PlayerSessions.BlockedJoinFails | app/models/player_session.rb:65-69 | while blocked, every join fails, adds one failed attempt and leaves the group unchanged |
| PlayerSessions.HoppingRefused | app/models/player_session.rb:72-83 | a locked session joining another group fails, adds one failed attempt, keeps its group, and is blocked for an hour once it has three failures |
| PlayerSessions.SuccessfulJoin | app/models/player_session.rb:85-96 | a successful join sets the group, `joined_at` and `last_activity_at` to now, and zeroes the counter |
| PlayerSessions.JoinSucceedsIff | app/models/player_session.rb:60-96 | a join succeeds iff the token is known, the session is not blocked, and it is not locked to another group |
| PlayerSessions.JoinKeepsLock | app/models/player_session.rb:72-89 | a session locked to its initial group stays in that group after any join |
| PlayerSessions.FirstJoinLocks | app/models/player_session.rb:86-89 | a first successful join records the joined group as the initial group and locks the session to it |
| Options.KindOfName | db/seeds.rb:13-23 | reading an option name back gives the option it names |
| Options.NameRoundTrip | db/seeds.rb:13-23 | every option's name reads back as that option |
| Options.AllKindsComplete | db/seeds.rb:13-23 | there are exactly nine options, all listed once |
| Options.SettingFor | app/models/option_setting.rb:27-28 | the setting of an option is one stored for it, or none exactly when none is stored |
| Options.AddSetting | app/models/option_setting.rb:30 | a setting is added only when its option has none yet, so at most one setting per option is ever stored |
| Options.CooldownMinutes | app/models/option_setting.rb:53-55 | the minutes are the seconds divided by 60, rounded down |
| Options.SetCooldownMinutes | app/models/option_setting.rb:57-59 | setting m minutes stores m·60 seconds and nothing else |
| Options.CooldownMinutesRoundTrip | app/models/option_setting.rb:53-59 | minutes written then read back are the same minutes |
| Options.CooldownSecondsRoundTrip | app/models/option_setting.rb:53-59 | reading minutes and writing them back preserves the setting iff its seconds are a whole number of minutes |
| Options.ResetRuleToDefault | app/models/option_setting.rb:43-45 | the default rule text is copied in only when it is present; otherwise nothing changes |
| Options.SaveRuleAsDefault | app/models/option_setting.rb:48-50 | the current rule text becomes the default, and nothing else changes |
| Options.SaveThenResetKeepsRule | app/models/option_setting.rb:43-50 | save then reset leaves the rule text as it was |
| Options.ResetIdempotent | app/models/option_setting.rb:43-45 | resetting twice is resetting once |
| OptionDefaults.DefaultCooldowns | db/seeds/option_settings_defaults.rb:31-61 | only photograph (3600 s), spy (3600 s) and notice (600 s) have a cooldown |
| OptionDefaults.DefaultPoints | db/seeds/option_settings_defaults.rb:29-59 | photograph awards 400, notice 200, every other option 0 |
| OptionDefaults.DefaultCosts | db/seeds/option_settings_defaults.rb:20-90 | probe, spy and defuse cost 50, counter-espionage 300, all others, mine and bounty included, 0 |
| OptionDefaults.DefaultPhotoAndAutoVerify | db/seeds/option_settings_defaults.rb:6-28 | only capture and photograph require a photo, and exactly they are not auto-verified |
| OptionDefaults.DefaultAvailability | db/seeds/option_settings_defaults.rb:13-93 | every option is available to players |
| Groups.PlayerVisiblePoints | app/models/group.rb:57-66 | the points players see: the true points with every still-hidden deduction added back, as the four `VisiblePoints` lemmas state |
| Groups.VisiblePointsIgnoreOthers | app/models/group.rb:59-62 | an event that does not hide a deduction from the group (expired, untargeted, or without target points) leaves visible points unchanged |
| Groups.VisiblePointsAddBackHidden | app/models/group.rb:57-66 | a still-hidden deduction against the group is taken back out of the visible points |
| Groups.VisiblePointsWithoutHidden | app/models/group.rb:57-66 | with no hidden deductions, visible points equal points |
| Groups.VisiblePointsAfterExpiry | app/models/group.rb:59-60 | once every hiding window has passed, visible points equal points |
| Groups.GenerateJoinToken | app/models/group.rb:76-78 | an existing token is kept; only a missing one is filled in |
| Groups.FindByJoinToken | app/models/player_session.rb:61-62 | a group holding the token, or none exactly when no group holds it |
| Groups.CreateGroup | app/models/group.rb:32-40 | a group is stored iff its token (after generation) is present and unused; storing keeps tokens present and unique |
| Api.RequestToken | app/controllers/api/submissions_controller.rb:101 | the header token wins whenever it is sent; otherwise the parameter |
| Api.FindSession | app/controllers/api/submissions_controller.rb:102 | the first session holding the token, or none exactly when no session holds it |
| Api.Authenticate | app/controllers/api/submissions_controller.rb:100-110 | a request is rejected with "Ungültige Session. Bitte erneut beitreten." when no session holds its token or the session has no group; otherwise it authenticates as that session |
| Api.AuthenticateWithUniqueTokens | app/controllers/api/submissions_controller.rb:100-110 | with unique tokens, authenticated iff some session holds the token and has a group |
| Api.ShouldAutoVerify | app/controllers/api/submissions_controller.rb:154-163 | no submission is ever auto-verified |
| Api.ApiCreate | app/controllers/api/submissions_controller.rb:25-60 | the group and player session come from the authenticated session, never from the request; only option, Posten and description are taken from it; without an option the answer is a 422 led by "must exist", with the stopped-game error exactly when the game is not running; a created submission is pending, unqueued, and not auto-verified |
| Api.ApiIgnoresUnpermittedParams | app/controllers/api/submissions_controller.rb:119-121 | the target group and stake a client sends do not change the answer |
| Api.ApiCannotFileGroupOrStakeClaims | app/controllers/api/submissions_controller.rb:26-121 | an option that requires a target group or a stake is always refused through the API |
| Api.StatusText | app/controllers/api/submissions_controller.rb:145-152 | "pending" reads "Ausstehend", "verified" reads "Bestätigt", "denied" reads "Abgelehnt", and any other string is returned unchanged |
| Api.StatusTextDistinguishesStatuses | app/controllers/api/submissions_controller.rb:145-152 | the three statuses get three different labels, none equal to the raw status |
| Api.ReportedPoints | app/controllers/api/submissions_controller.rb:75 | the setting's points when the setting exists and has points (0 included), else the option's count |
| Api.OptionsListing | app/controllers/api/submissions_controller.rb:64-80 | the listing shows exactly the active options |
| Api.Targets | app/controllers/api/submissions_controller.rb:84-96 | exactly the groups other than the caller's, ordered by name |
| Api.TargetsExcludeCaller | app/controllers/api/submissions_controller.rb:85 | the caller's group never appears among its targets, and every other group appears as often as it is stored |
| Text.IntToStringRoundTrip | app/models/submission.rb:164-168 | an interpolated integer reads back as itself |
| Text.IntToStringInjective | app/models/submission.rb:164-168 | different integers interpolate differently |
| Numeric.CeilDiv | app/services/cooldown_checker.rb:41-91 | `ceil` of a quotient: the least q with a ≤ q·b |
| Numeric.TruncDiv | app/models/submission.rb:162 | `to_i` of a quotient truncates toward zero |

## Left out

- Scoring rules. `Event#calculate_points` is not part of this model. It enters only as the `Events.Scorer` parameter.
- Event time: the model assumes the scorer always sets an event's time. Events without a time, which SQL would sort first, are not modelled.
- Broadcasts: the ActionCable messages after create, after a status change, and on queue release are fire-and-forget I/O.
- The admin screens, forms, photo downloads, all JavaScript, CSV import, QR/PDF generation and the song downloader are UI, file storage or unrelated scripts.
- Tokens and device fingerprints: `SecureRandom` tokens are inputs to the model (`newToken`). Device-fingerprint lookup is not modelled.
- Decimal and float values: `point_multiplier` is a Dafny `real` that is only copied. `duration_hours` rounding is not modelled.
- Time: time is whole seconds. Ruby's sub-second `Time` arithmetic is not modelled. Only the sign matters in the `ceil` and `to_i` calls on elapsed time.
- The calendar year: `1.year` is fixed at 31556952 seconds. Only its being positive matters.
- Transactions, locking and concurrent requests: `verify!` is one atomic step, and the database's own constraints are not modelled.
- Option names other than the nine seeded ones, and `Option.find_by(name:)` returning nil: every option is one of the nine `Options.OptionKind`s.
- Windows without a time or a position: stored windows always have both times, because the columns are NOT NULL. Positions are integers.
- Error texts: Rails' localized full messages for validation errors are named by `Submissions.ValidationError` cases instead. The API's joined message string is not modelled.
- The non-create paths of `PlayerSession`: `find_or_create_from_device`, `PlayController#process_join` and the mass resets controller are controller glue.
- JSON rendering: `submission_json` and the JSON field layout of the listings are not modelled. So are `requires_target` in the options listing (`Option#requires_target?` is not part of this model) and the `recent` ordering of `index`.
- Control-room views: `@last_event`, `@groups`, `@recent_events`, and the JSON answers of `verify_submission` and `deny_submission` are presentation only.
- Api.ShouldAutoVerify: the `true` branch of `create` (calling `verify!` with "Automatisch verifiziert") is not modelled, because no input reaches it.
- Api.Targets: compares names by code point, not by the database collation.
- Options.SetCooldownMinutes: takes an integer. The `minutes.to_i` conversion of form input (app/models/option_setting.rb:58) is not modelled.
- PlayerSessions.JoinGroup: assumes the final `update` saves. Its `false` result, which the device-fingerprint and session-token validations (app/models/player_session.rb:32-33) could cause, is not modelled, because those columns are not part of this model.
- Submissions.Verify: the base error text that a rolled-back verification adds to the record is not modelled. The outcome carries the scorer's message or the validation errors instead.
- Rule texts: the `rule_text` strings of `OPTION_DEFAULTS` are not modelled. No rule of the core depends on them.
