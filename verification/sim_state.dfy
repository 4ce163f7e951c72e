/**
 The simulation state and its pause handling: the quit key asks for a pause while running
 and for resuming while paused (or cancels the vehicle selector when that is open), and
 the main loop applies a requested state only for the running/paused pair, muting or
 unmuting every actor as it does.
 */
module SimStates {
  import opened Common

  datatype SimState = SimOff | SimRunning | SimPaused | SimSelecting | SimEditorMode

  /** A game variable with an active value and a pending (requested) one. */
  datatype SimStateVar = SimStateVar(active: SimState, pending: SimState)

  /** A state with no pending change. */
  function Settled(s: SimState): (v: SimStateVar)
    ensures v.active == s && v.pending == s
  {
    SimStateVar(s, s)
  }

  /** What pressing the quit key does. */
  datatype QuitEffect = CancelSelector | RequestState(s: SimState) | NoQuitEffect

  /** The quit-key handler; `active` is the state read at the start of the input update. */
  function QuitPressed(v: SimStateVar, selectorVisible: bool): (r: (SimStateVar, QuitEffect))
    ensures r.0.active == v.active
    ensures selectorVisible ==> r == (v, CancelSelector)
    ensures !selectorVisible && v.active == SimRunning ==> r == (v.(pending := SimPaused), RequestState(SimPaused))
    ensures !selectorVisible && v.active == SimPaused ==> r == (v.(pending := SimRunning), RequestState(SimRunning))
    ensures r.0 != v ==> !selectorVisible && (v.active == SimRunning || v.active == SimPaused)
    ensures !selectorVisible && v.active != SimRunning && v.active != SimPaused ==> r == (v, NoQuitEffect)
  {
    if selectorVisible then (v, CancelSelector)
    else if v.active == SimRunning then (v.(pending := SimPaused), RequestState(SimPaused))
    else if v.active == SimPaused then (v.(pending := SimRunning), RequestState(SimRunning))
    else (v, NoQuitEffect)
  }

  datatype ActorsAction = MuteAllActors | UnmuteAllActors

  /** The main loop's sim-state block: only pausing and resuming are ever applied here. */
  function ApplyPendingState(v: SimStateVar): (r: (SimStateVar, Option<ActorsAction>))
    ensures r.0.pending == v.pending
    ensures r.0.active == v.active || r.0.active == v.pending
    ensures r.0.active != v.active <==>
              (v.active == SimRunning && v.pending == SimPaused) || (v.active == SimPaused && v.pending == SimRunning)
    ensures r.1 == Some(MuteAllActors) <==> v.active == SimRunning && v.pending == SimPaused
    ensures r.1 == Some(UnmuteAllActors) <==> v.active == SimPaused && v.pending == SimRunning
  {
    if v.pending != v.active then
      if v.active == SimRunning then
        if v.pending == SimPaused then (v.(active := v.pending), Some(MuteAllActors)) else (v, None)
      else if v.active == SimPaused then
        if v.pending == SimRunning then (v.(active := v.pending), Some(UnmuteAllActors)) else (v, None)
      else (v, None)
    else (v, None)
  }

  /** One quit press followed by one pass of the main loop. */
  function QuitThenLoop(v: SimStateVar): (SimStateVar, Option<ActorsAction>) {
    ApplyPendingState(QuitPressed(v, false).0)
  }

  /** Two quit presses, each followed by the main loop, pause a running game and resume it. */
  lemma {:induction false} PauseResumeRoundTrip()
    ensures QuitThenLoop(Settled(SimRunning)) == (Settled(SimPaused), Some(MuteAllActors))
    ensures QuitThenLoop(Settled(SimPaused)) == (Settled(SimRunning), Some(UnmuteAllActors))
  {
  }

  /** Outside running and paused, quit (with no selector open) and the main loop leave the state alone. */
  lemma QuitIgnoredElsewhere(s: SimState)
    requires s != SimRunning && s != SimPaused
    ensures QuitThenLoop(Settled(s)) == (Settled(s), None)
  {
  }

  /** A pending request for any other state stays pending. */
  lemma OtherRequestsStayPending(v: SimStateVar)
    requires v.pending != SimRunning && v.pending != SimPaused
    ensures ApplyPendingState(v).0 == v
  {
  }
}
