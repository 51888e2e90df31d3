/**
 * The tutorial phases and their pop-up (pkg/game/tutorial.go), as functions of the
 * tutorial state. The game's `State` applies them in place.
 */
module Tutorial {

  datatype TutorialPhase =
    | TutorialMove
    | TutorialWaitingForBombPick
    | TutorialPlaceBombs
    | TutorialWaitingForSprint
    | TutorialSprint
    | TutorialDone

  datatype Popup = Popup(message: string, visible: bool, animation: real)

  datatype TutorialState = TutorialState(
    phase: TutorialPhase,
    waiting: real,
    hurryCount: int,
    prevStepSecond: int,
    popup: Popup,
    knowsHowToMove: bool,
    knowsHowToPlaceBombs: bool,
    knowsHowToSprint: bool)

  /** The input flags of one frame that the simulation reads. */
  datatype InputState = InputState(
    moveRight: bool,
    moveLeft: bool,
    moveUp: bool,
    moveDown: bool,
    placeBomb: bool,
    isRunning: bool,
    isPressed: bool)
  {
    predicate AnyMove() {
      moveRight || moveLeft || moveUp || moveDown
    }
  }

  /** `time.Time{}.Unix()`: the zero Go time, 1 January of year 1, in Unix seconds. */
  const ZeroTimeUnix: int := -62135596800

  /** A fresh tutorial: every field at its zero value and the phase at `TutorialMove`. */
  function Fresh(): TutorialState {
    TutorialState(TutorialMove, 0.0, 0, ZeroTimeUnix, Popup("", false, 0.0), false, false, false)
  }

  const MoveLabel: string := "Use arrow keys or left stick to move."
  const SprintLabel: string := "Hold SHIFT or trigger to sprint."
  const PlaceBombsLabel: string := "Press space or A button to plant a bomb."

  /** The number of quick steps after which the sprint hint is shown. */
  const HurryThreshold: int := 10

  function Shown(t: TutorialState, text: string): TutorialState {
    t.(popup := t.popup.(visible := true, message := text))
  }

  function Hidden(t: TutorialState): TutorialState {
    t.(popup := t.popup.(visible := false))
  }

  /** One frame of the tutorial. */
  function Update(t: TutorialState, input: InputState): TutorialState {
    match t.phase
    case TutorialMove =>
      var t1 := Shown(t, MoveLabel);
      if input.AnyMove() then Hidden(t1.(knowsHowToMove := true)).(phase := TutorialWaitingForSprint) else t1
    case TutorialWaitingForSprint =>
      if t.hurryCount >= HurryThreshold then t.(phase := TutorialSprint) else t
    case TutorialSprint =>
      var t1 := Shown(t, SprintLabel);
      if input.isRunning then Hidden(t1.(knowsHowToSprint := true)).(phase := TutorialWaitingForBombPick) else t1
    case TutorialWaitingForBombPick => t
    case TutorialPlaceBombs =>
      var t1 := Shown(t, PlaceBombsLabel);
      if input.placeBomb then Hidden(t1.(knowsHowToPlaceBombs := true)).(phase := TutorialDone) else t1
    case TutorialDone => t
  }

  /** The order of the phases: Move, WaitingForSprint, Sprint, WaitingForBombPick, PlaceBombs, Done. */
  function NextPhase(p: TutorialPhase): TutorialPhase {
    match p
    case TutorialMove => TutorialWaitingForSprint
    case TutorialWaitingForSprint => TutorialSprint
    case TutorialSprint => TutorialWaitingForBombPick
    case TutorialWaitingForBombPick => TutorialPlaceBombs
    case TutorialPlaceBombs => TutorialDone
    case TutorialDone => TutorialDone
  }

  /** The step interval below which a step counts as quick. */
  const QuickStep: real := 0.2

  /** Go's `int64(x)` on a float: truncation towards zero. */
  function Truncate(x: real): (n: int)
    ensures n as real <= x < n as real + 1.0 || (x < 0.0 && n as real - 1.0 < x <= n as real)
  {
    if x >= 0.0 then x.Floor else -((-x).Floor)
  }

  /**
   * `TutorialTrackMovementSpeed` at clock reading `now`. The previous step is kept only as
   * the whole second it fell in (`time.Unix(int64(now), 0)`), so the interval compared
   * with `QuickStep` is `now` minus that second, not minus the previous step's time.
   */
  function TrackMovementSpeed(t: TutorialState, now: real, isRunning: bool): TutorialState {
    if t.phase != TutorialWaitingForSprint then t
    else
      var fast := now - t.prevStepSecond as real < QuickStep;
      var count := if fast then t.hurryCount + 1 else if t.hurryCount > 0 then t.hurryCount - 1 else t.hurryCount;
      t.(hurryCount := count, prevStepSecond := Truncate(now), knowsHowToSprint := t.knowsHowToSprint || isRunning)
  }

  /** `ShowPopup` sets the label and visibility and nothing else; `HidePopup` clears only the visibility. */
  lemma PopupFields(t: TutorialState, text: string)
    ensures Shown(t, text).popup.visible && Shown(t, text).popup.message == text
    ensures Shown(t, text).popup.animation == t.popup.animation
    ensures Shown(t, text).(popup := t.popup) == t
    ensures !Hidden(t).popup.visible && Hidden(t).popup.message == t.popup.message
    ensures Hidden(t).(popup := t.popup) == t
  {
  }

  /** In `TutorialMove` a move input teaches moving, hides the pop-up and waits for sprinting; otherwise the phase stays. */
  lemma UpdateInMove(t: TutorialState, input: InputState)
    requires t.phase == TutorialMove
    ensures input.AnyMove() ==> var u := Update(t, input);
              u.knowsHowToMove && !u.popup.visible && u.phase == TutorialWaitingForSprint
    ensures !input.AnyMove() ==> Update(t, input).phase == TutorialMove && Update(t, input).popup.visible
  {
  }

  /** Waiting for a sprint ends exactly when the hurry count reaches the threshold. */
  lemma UpdateWhileWaitingForSprint(t: TutorialState, input: InputState)
    requires t.phase == TutorialWaitingForSprint
    ensures Update(t, input).phase == TutorialSprint <==> t.hurryCount >= HurryThreshold
    ensures Update(t, input).phase != TutorialSprint ==> Update(t, input) == t
  {
  }

  /** The sprint hint ends exactly on a running input, the bomb hint exactly on a planted bomb. */
  lemma UpdateInSprintAndPlaceBombs(t: TutorialState, input: InputState)
    ensures t.phase == TutorialSprint ==>
              (Update(t, input).phase == TutorialWaitingForBombPick <==> input.isRunning)
    ensures t.phase == TutorialPlaceBombs ==>
              (Update(t, input).phase == TutorialDone <==> input.placeBomb)
  {
  }

  /** Waiting for a bomb pick-up and being done are left alone, so `TutorialDone` is absorbing. */
  lemma UpdateLeavesSilentPhases(t: TutorialState, input: InputState)
    requires t.phase == TutorialWaitingForBombPick || t.phase == TutorialDone
    ensures Update(t, input) == t
  {
  }

  /** One update advances the phase by at most one step along the tutorial's order. */
  lemma UpdateAdvancesAtMostOneStep(t: TutorialState, input: InputState)
    ensures Update(t, input).phase == t.phase || Update(t, input).phase == NextPhase(t.phase)
  {
  }

  /** The tutorial after one update per input, in order. */
  function UpdateMany(t: TutorialState, inputs: seq<InputState>): TutorialState
    decreases |inputs|
  {
    if |inputs| == 0 then t else UpdateMany(Update(t, inputs[0]), inputs[1..])
  }

  /** Once `TutorialDone` is reached, no sequence of updates changes anything. */
  lemma {:induction false} DoneIsAbsorbing(t: TutorialState, inputs: seq<InputState>)
    requires t.phase == TutorialDone
    ensures UpdateMany(t, inputs) == t
    decreases |inputs|
  {
    if |inputs| > 0 {
      UpdateLeavesSilentPhases(t, inputs[0]);
      DoneIsAbsorbing(t, inputs[1..]);
    }
  }

  /**
   * Tracking the speed touches nothing outside `TutorialWaitingForSprint`, keeps the hurry
   * count non-negative and records the step's whole second; the count rises exactly when
   * `now` is less than `QuickStep` past the previous step's whole second.
   */
  lemma TrackMovementSpeedBounds(t: TutorialState, now: real, isRunning: bool)
    ensures t.phase != TutorialWaitingForSprint ==> TrackMovementSpeed(t, now, isRunning) == t
    ensures t.hurryCount >= 0 ==> TrackMovementSpeed(t, now, isRunning).hurryCount >= 0
    ensures TrackMovementSpeed(t, now, isRunning).phase == t.phase
    ensures t.phase == TutorialWaitingForSprint ==>
              && TrackMovementSpeed(t, now, isRunning).prevStepSecond == Truncate(now)
              && (TrackMovementSpeed(t, now, isRunning).hurryCount == t.hurryCount + 1
                  <==> now - t.prevStepSecond as real < QuickStep)
  {
  }

  /**
   * Two steps a tenth of a second apart count as slow when the first fell late in its
   * second: after a step at 5.3 s, a step at 5.4 s is measured as 0.4 s and lowers the
   * hurry count.
   */
  lemma QuickStepsLateInSecondCountAsSlow(t: TutorialState, isRunning: bool)
    requires t.phase == TutorialWaitingForSprint && t.hurryCount > 1
    ensures var t1 := TrackMovementSpeed(t, 5.3, isRunning);
            t1.prevStepSecond == 5
            && TrackMovementSpeed(t1, 5.4, isRunning).hurryCount == t1.hurryCount - 1
  {
  }

  /** The first step after a fresh start is measured from the zero Go time and never counts as quick. */
  lemma FirstStepIsSlow(now: real, isRunning: bool)
    requires now >= 0.0
    ensures var t := Fresh().(phase := TutorialWaitingForSprint);
            TrackMovementSpeed(t, now, isRunning).hurryCount == 0
  {
  }
}
