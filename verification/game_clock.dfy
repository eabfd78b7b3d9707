/** The game clock: `GameSetting` (the singleton row) and its
    `GameTimeWindow`s, deciding whether the game is running at `now`. */
module GameClock {
  import opened Wrappers
  import opened Base
  import opened Ordering

  /** `1.year`; only its being positive matters, so the calendar length of
      the coming year is not modelled. */
  const SecondsPerYear: int := 31556952

  /** A stored window; both times are NOT NULL columns. */
  datatype TimeWindow = TimeWindow(name: Option<string>, startTime: Time, endTime: Time, position: int)

  /** A window as submitted in the form, before validation. */
  datatype WindowInput = WindowInput(name: Option<string>, startTime: Option<Time>, endTime: Option<Time>, position: int)

  datatype WindowError = StartTimeBlank | EndTimeBlank | EndTimeNotAfterStart

  /** `GameTimeWindow#active?`: `now` lies in the window, both ends included. */
  predicate WindowActive(w: TimeWindow, now: Time)
  {
    now >= w.startTime && now <= w.endTime
  }

  /** The presence validations and `end_time_after_start_time`, in order. */
  function WindowErrors(w: WindowInput): (errs: seq<WindowError>)
    ensures StartTimeBlank in errs <==> w.startTime.None?
    ensures EndTimeBlank in errs <==> w.endTime.None?
    ensures EndTimeNotAfterStart in errs <==>
              (w.startTime.Some? && w.endTime.Some? && w.endTime.value <= w.startTime.value)
  {
    (if w.startTime.None? then [StartTimeBlank] else [])
    + (if w.endTime.None? then [EndTimeBlank] else [])
    + (if w.startTime.Some? && w.endTime.Some? && w.endTime.value <= w.startTime.value
       then [EndTimeNotAfterStart] else [])
  }

  /** Saving a window: valid input becomes a stored window. */
  function ValidateWindow(w: WindowInput): (r: Result<TimeWindow>)
    ensures r.Ok? <==> WindowErrors(w) == []
    ensures r.Ok? ==> r.value.startTime < r.value.endTime
    ensures r.Ok? ==> Some(r.value.startTime) == w.startTime && Some(r.value.endTime) == w.endTime
  {
    if WindowErrors(w) == [] then Ok(TimeWindow(w.name, w.startTime.value, w.endTime.value, w.position))
    else Err("invalid time window")
  }

  /** A validated window is active at both its start and its end instant,
      and at no instant outside them. */
  lemma ValidWindowActiveAtEnds(w: WindowInput, now: Time)
    requires ValidateWindow(w).Ok?
    ensures WindowActive(ValidateWindow(w).value, w.startTime.value)
    ensures WindowActive(ValidateWindow(w).value, w.endTime.value)
    ensures WindowActive(ValidateWindow(w).value, now) <==> w.startTime.value <= now <= w.endTime.value
  {
  }

  /** The `ordered` scope: windows by non-decreasing `position`. */
  function Ordered(windows: seq<TimeWindow>): (r: seq<TimeWindow>)
    ensures multiset(r) == multiset(windows)
    ensures forall i, j :: 0 <= i < j < |r| ==> r[i].position <= r[j].position
  {
    var le := (a: TimeWindow, b: TimeWindow) => a.position <= b.position;
    assert TotalPreorder(le);
    var r := SortBy(windows, le);
    assert forall i, j :: 0 <= i < j < |r| ==> le(r[i], r[j]);
    r
  }

  /** The four fields `save_as_defaults!` stores in `default_values`. */
  datatype Defaults = Defaults(pointMultiplier: real, gameActive: bool, gameStartTime: Option<Time>, gameEndTime: Option<Time>)

  /** The `GameSetting` row with its windows. */
  datatype GameSetting = GameSetting(
    pointMultiplier: real,
    gameActive: bool,
    gameStartTime: Option<Time>,
    gameEndTime: Option<Time>,
    defaultValues: Option<Defaults>,
    windows: seq<TimeWindow>)

  /** The values `reset_to_defaults!` falls back to when none were saved. */
  const FactoryDefaults: Defaults := Defaults(1.0, false, None, None)

  /** `game_running?` at `now`. */
  predicate GameRunning(g: GameSetting, now: Time)
  {
    if !g.gameActive then false
    else if |g.windows| > 0 then exists i :: 0 <= i < |g.windows| && WindowActive(g.windows[i], now)
    else
      var starts := g.gameStartTime.GetOr(now);
      var ends := g.gameEndTime.GetOr(now + SecondsPerYear);
      now >= starts && now <= ends
  }

  /** `game_active` gates everything: an inactive game never runs, whatever its windows. */
  lemma InactiveNeverRuns(g: GameSetting, now: Time)
    requires !g.gameActive
    ensures !GameRunning(g, now)
  {
  }

  /** With windows, the game runs exactly when it is active and `now` lies in
      some window; the legacy start and end times are ignored. */
  lemma RunningWithWindows(g: GameSetting, now: Time, start: Option<Time>, end: Option<Time>)
    requires |g.windows| > 0
    ensures GameRunning(g, now) <==> g.gameActive && exists w :: w in g.windows && WindowActive(w, now)
    ensures GameRunning(g, now) == GameRunning(g.(gameStartTime := start, gameEndTime := end), now)
  {
    if GameRunning(g, now) {
      var i :| 0 <= i < |g.windows| && WindowActive(g.windows[i], now);
      assert g.windows[i] in g.windows;
    }
    if g.gameActive && exists w :: w in g.windows && WindowActive(w, now) {
      var w :| w in g.windows && WindowActive(w, now);
      var i :| 0 <= i < |g.windows| && g.windows[i] == w;
    }
  }

  /** Without windows, the game runs exactly when it is active and `now` lies
      between the start and end times; a missing start never blocks and a
      missing end never ends the game. */
  lemma RunningWithoutWindows(g: GameSetting, now: Time)
    requires |g.windows| == 0
    ensures GameRunning(g, now) <==>
              && g.gameActive
              && (g.gameStartTime.None? || g.gameStartTime.value <= now)
              && (g.gameEndTime.None? || now <= g.gameEndTime.value)
  {
  }

  /** `start_game!`: activates the game and records the start time. */
  function StartGame(g: GameSetting, now: Time): (r: GameSetting)
    ensures r.gameActive && r.gameStartTime == Some(now)
    ensures r == g.(gameActive := r.gameActive, gameStartTime := r.gameStartTime)
  {
    g.(gameActive := true, gameStartTime := Some(now))
  }

  /** `stop_game!`: deactivates the game and records the end time. */
  function StopGame(g: GameSetting, now: Time): (r: GameSetting)
    ensures !r.gameActive && r.gameEndTime == Some(now)
    ensures r == g.(gameActive := r.gameActive, gameEndTime := r.gameEndTime)
  {
    g.(gameActive := false, gameEndTime := Some(now))
  }

  /** After `stop_game!` the game is not running, at any time. */
  lemma StoppedGameNotRunning(g: GameSetting, now: Time, later: Time)
    ensures !GameRunning(StopGame(g, now), later)
  {
  }

  /** Without windows and with no end time in the past, `start_game!` makes
      the game run at once. */
  lemma StartedGameRuns(g: GameSetting, now: Time)
    requires |g.windows| == 0
    requires g.gameEndTime.None? || now <= g.gameEndTime.value
    ensures GameRunning(StartGame(g, now), now)
  {
  }

  /** `save_as_defaults!`. */
  function SaveAsDefaults(g: GameSetting): (r: GameSetting)
    ensures r.defaultValues.Some?
    ensures r == g.(defaultValues := r.defaultValues)
  {
    g.(defaultValues := Some(Defaults(g.pointMultiplier, g.gameActive, g.gameStartTime, g.gameEndTime)))
  }

  /** `reset_to_defaults!`: restores the four saved fields, or the factory values. */
  function ResetToDefaults(g: GameSetting): (r: GameSetting)
    ensures r.defaultValues == g.defaultValues && r.windows == g.windows
  {
    var d := g.defaultValues.GetOr(FactoryDefaults);
    g.(pointMultiplier := d.pointMultiplier, gameActive := d.gameActive,
       gameStartTime := d.gameStartTime, gameEndTime := d.gameEndTime)
  }

  /** Saving and later resetting restores exactly the saved multiplier, active
      flag, start and end, whatever changed in between to those four fields. */
  lemma SaveThenResetRestores(g: GameSetting, m: real, active: bool, start: Option<Time>, end: Option<Time>)
    ensures var saved := SaveAsDefaults(g);
            var changed := saved.(pointMultiplier := m, gameActive := active, gameStartTime := start, gameEndTime := end);
            ResetToDefaults(changed) == saved
  {
  }

  /** Without saved defaults, a reset yields multiplier 1.0, an inactive game
      and no start or end time. */
  lemma ResetWithoutSavedDefaults(g: GameSetting, now: Time)
    requires g.defaultValues.None?
    ensures var r := ResetToDefaults(g);
            r.pointMultiplier == 1.0 && !r.gameActive && r.gameStartTime.None? && r.gameEndTime.None?
    ensures !GameRunning(ResetToDefaults(g), now)
  {
  }
}
