# Rigs of Rods: console view, actor visuals and gameplay rules

This project is a Dafny model of the small decision rules inside three parts of the Rigs of
Rods game. Each rule is written as a pure step function over a small state record. Calls
into the engine (particle allocation, scene-graph attach/detach, texture switches, drawing)
come back as returned values instead of side effects.

- **Console view** (`console_view.dfy`, module `ConsoleView`). The message filter is
  checked against area, type and age. The display list is built from the newest
  `max_lines` messages, keeping the passing ones in their order. Blank lines pad the view
  when it is bottom-aligned.
- **Actor visuals** (`gfx_actor.dfy`, `gfx_particles.dfy`, `gfx_debug_view.dfy`).
  - The debug-view cycle.
  - The video-camera on/off state.
  - Rod visibility.
  - The wheel-visual slot table.
  - The per-node wet timer and the particle effects chosen from each node's water and
    ground contact, including the skid-mark bookkeeping of wheels.
  - The soft-body debug overlay: which lines, dots and labels each view draws, in which
    style, and in which order.
- **Simulation controller** (`sim_state.dfy`, `sim_editor.dfy`, `sim_replay.dfy`,
  `sim_controller.dfy`).
  - Pausing and the pending sim-state switch.
  - Terrain-editor selection and the rotation axis.
  - Replay positioning.
  - The race timer, FOV steps, the pace reset, blinkers, screenshot numbering and the
    statistics overlay.
  - Video cameras when getting in and out of vehicles.
  - Entering the nearest vehicle.

`common.dfy` (module `Common`) holds `Option` and the C++ numeric conversions the code
relies on:
- `(int)` of a float truncates toward zero;
- the game's one-argument `Round` helper is taken to round halves away from zero;
- `%` on a signed value keeps the dividend's sign;
- a signed `int` converted to `size_t` wraps modulo 2^64.

Times, slips, speeds and fields of view are `real`. Integers are unbounded, except where
the code's conversion matters: the editor's `size_t` remainder and the truncation of
replay and race-timer values.

Some types come from headers that are not part of this model: `Console.h`, `Collisions.h`,
`Actor.h` and `Application.h`. For those, the model uses only the enumerators and fields
the modelled code names:
- Message areas and types outside the filter's lists, and ground-effect kinds other than
  dusty, clumpy and hard, become one "unlisted" or "other" constructor.
- The sim states are those the controller names.
- The replay position and length are taken to be integers, as `++` on them suggests.

## Model

| member | source | states |
|---|---|---|
| Common.Trunc | source/main/gameplay/RoRFrameListener.cpp:175 | `(int)x` of a float is the integer toward zero within one unit of `x` |
| Common.Round | source/main/gameplay/RoRFrameListener.cpp:473 | the game's `Round` of the FOV: the nearest integer, with halfway cases away from zero (up for non-negative values, down for negative ones), keeping the sign |
| Common.RoundOfInteger | source/main/gameplay/RoRFrameListener.cpp:473 | rounding a whole number gives it back |
| Common.CRem2 | source/main/gfx/GfxActor.cpp:542-551 | `iswheel % 2` is 0 exactly for even values, 0 or 1 for non-negative and 0 or -1 for negative ones |
| Common.ToSize64 | source/main/gameplay/RoRFrameListener.cpp:597 | the `size_t` image of an `int` is below 2^64, congruent to it, and equal to it when already in range |
| ConsoleView.MessageFilter | source/main/gui/panels/GUI_ConsoleView.cpp:116-138 | a message passes iff its area is admitted (INFO always; LOG, ACTOR, TERRN, SCRIPT only with their flag; any other never), its type is admitted (HELP, TITLE, SYSTEM_REPLY always; ERROR, WARNING, NOTICE only with their flag; any other never), and it is recent (no duration set, or its age is within the duration) |
| ConsoleView.NoDurationIgnoresTime | source/main/gui/panels/GUI_ConsoleView.cpp:133-135 | with duration 0 the verdict does not depend on the timestamp or the clock |
| ConsoleView.NewerMessagePasses | source/main/gui/panels/GUI_ConsoleView.cpp:133-135 | a passing message still passes with a later timestamp |
| ConsoleView.DisplayWindow | source/main/gui/panels/GUI_ConsoleView.cpp:40-44 | the window is the last `min(max_lines, n)` messages, a suffix of the message list |
| ConsoleView.PassingIsFilteredSubsequence | source/main/gui/panels/GUI_ConsoleView.cpp:42-51 | the kept messages sit at strictly increasing positions of the window; each kept message passes, and every passing position is kept |
| ConsoleView.PassingMembership | source/main/gui/panels/GUI_ConsoleView.cpp:42-51 | a message is in the list iff it is in the window and passes the filter |
| ConsoleView.PassingLength | source/main/gui/panels/GUI_ConsoleView.cpp:42-51 | filtering never makes the list longer than the window |
| ConsoleView.RenderLine | source/main/gui/panels/GUI_ConsoleView.cpp:61-98 | a line shows the message text and has a player-name prefix iff the net user id is non-zero. Its colour is the highlight colour iff TITLE, error iff SYSTEM_ERROR, warning iff SYSTEM_WARNING, success iff SYSTEM_REPLY, help iff HELP, and plain iff NOTICE or an unlisted type |
| ConsoleView.ColourIdentifiesType | source/main/gui/panels/GUI_ConsoleView.cpp:72-97 | a non-plain colour determines the message type, and the colour depends only on the type |
| ConsoleView.RenderLines | source/main/gui/panels/GUI_ConsoleView.cpp:61-98 | one rendered line per display-list entry, in order |
| ConsoleView.DrawConsoleMessages | source/main/gui/panels/GUI_ConsoleView.cpp:36-59 | the display list is rebuilt from the window's passing messages: at most `min(max_lines, n)` entries, all passing, none missing; bottom alignment pads so that blank lines plus entries equal `max_lines`, and there is no padding otherwise; one rendered line per entry |
| ConsoleView.PassingIgnoresDisplayList | source/main/gui/panels/GUI_ConsoleView.cpp:38 | the rebuilt list does not depend on the previous list |
| ConsoleView.RedrawIsStable | source/main/gui/panels/GUI_ConsoleView.cpp:38 | drawing again with the same messages and settings gives the same list |
| GfxActor.CycleDebugViews | source/main/gfx/GfxActor.cpp:785-795 | the view's position advances by one modulo four (none, skeleton, nodes, beams) and never stays put |
| GfxActor.CycleReturnsAfterFour | source/main/gfx/GfxActor.cpp:785-795 | four steps return to the starting view; two or three do not |
| GfxActor.SwitchVideoCamera | source/main/gfx/GfxActor.cpp:279-296 | a camera with a render target is switched to `enable` and shows its live texture iff enabled, its "off" texture otherwise; a camera with only a window has the window switched; a camera with neither is unchanged; names and kinds never change |
| GfxActor.SwitchVideoCameraLastWins | source/main/gfx/GfxActor.cpp:279-296 | of two switches of one camera only the last one matters |
| GfxActor.SetVideoCamState | source/main/gfx/GfxActor.cpp:271-297 | requesting the current state changes nothing. Otherwise the state becomes the request and each camera with a render target is active iff the request is ENABLED_ONLINE, showing its live texture then and its "off" texture otherwise. A camera with only a window has that window active iff online. A camera with neither is untouched |
| GfxActor.SetVideoCamStateIdempotent | source/main/gfx/GfxActor.cpp:273-276 | requesting the same state twice equals requesting it once |
| GfxActor.OfflineAndDisabledLookAlike | source/main/gfx/GfxActor.cpp:278 | from online, going offline or disabled leaves the cameras in the same condition |
| GfxActor.SetRodsVisible | source/main/gfx/GfxActor.cpp:904-923 | no rods parent: nothing happens. Otherwise the parent is in the scene graph iff `visible`; it is attached exactly when it was detached and should show, and detached exactly when it was attached and should hide |
| GfxActor.SetRodsVisibleIdempotent | source/main/gfx/GfxActor.cpp:914-922 | repeating the call changes nothing and issues no scene action |
| GfxActor.SetWheelVisuals | source/main/gfx/GfxActor.cpp:976-983 | the table grows to `index + 1` only if it is too short, slot `index` holds the new value, other existing slots are unchanged, and added slots are empty |
| GfxActor.SetWheelVisualsCommute | source/main/gfx/GfxActor.cpp:976-983 | filling two different slots gives the same table in either order |
| GfxActor.SetWheelVisualsOverwrite | source/main/gfx/GfxActor.cpp:976-983 | filling a slot twice keeps only the second value |
| GfxParticles.NewNodeGfx | source/main/gfx/GfxActor.cpp:314-322 | a new node keeps its index, is dry (-1), may emit particles, cannot get wet, is not hot, makes no sparks, and was not under water |
| GfxParticles.WetTimer | source/main/gfx/GfxActor.cpp:461-485 | leaving the water restarts the timer at 0. A running timer advances by `dt` and turns dry (-1) once past 5 s. A dry timer stays dry. The node drips exactly while the timer keeps running |
| GfxParticles.WetTimerStaysValid | source/main/gfx/GfxActor.cpp:458-486 | with `dt >= 0` the timer stays dry or within [0, 5] |
| GfxParticles.DrippingTimeInRange | source/main/gfx/GfxActor.cpp:466-485 | with `dt > 0` a dripping node's timer lies in (0, 5] |
| GfxParticles.DriesOff | source/main/gfx/GfxActor.cpp:466-472 | a node that stays out of the water is dry once more than 5 s of frames have passed |
| GfxParticles.GroundEffects | source/main/gfx/GfxActor.cpp:504-577 | for a node allowed particles: dusty ground gives dust at half speed in the ground colour (if the misc pool exists); clumpy ground gives clumps only above squared speed 1; hard ground gives a wheel tyre smoke above slip 10 and a non-wheel sparks only with sparks allowed and slip above 1; smoke and sparks start at the node's position with its velocity. With skid marks on, a wheel on hard ground updates only its own entry: above slip 10 it is skidding, records the contact (inner rim for even `iswheel`, outer for odd), the contact type `iswheel % 2`, the slip and the ground model; at slip 10 or below it only stops skidding |
| GfxParticles.NodeStateStep | source/main/gfx/GfxActor.cpp:458-579 | only the wet timer (for nodes that may get wet and emit particles) and the under-water memory change; the memory ends equal to the current under-water flag |
| GfxParticles.NodeStep | source/main/gfx/GfxActor.cpp:453-580 | drip iff wet effects apply, the drip pool exists and the timer keeps running; vapour likewise for hot nodes with the misc pool, both carrying the node's position, velocity and new wet time; splash and ripple iff under water, within 0.2 of the surface and squared speed above 4, each with its pool, at the node's position and velocity; ground effects as `GroundEffects` |
| GfxParticles.WaterHeight | source/main/gfx/GfxActor.cpp:447-451 | the static water height when the terrain has water, 0 otherwise |
| GfxParticles.UpdateParticles | source/main/gfx/GfxActor.cpp:444-581 | every node is stepped in turn with the wheel table threaded through; each node's new state is its own step's, every node ends remembering its current under-water flag, and the wheel table keeps its size |
| GfxParticles.UntouchedWheelKept | source/main/gfx/GfxActor.cpp:532-561 | a wheel entry that no node of the frame writes (a wheel node on hard ground with skid marks on) is unchanged |
| GfxParticles.LastContactDecidesWheel | source/main/gfx/GfxActor.cpp:532-561 | the last node of the frame writing a wheel entry decides it: skidding iff its slip is above 10, and then holding its slip, contact type and ground model, with its position as the inner contact point for an even wheel kind and the outer one for an odd kind |
| GfxParticles.UpdateKeepsWetTimersValid | source/main/gfx/GfxActor.cpp:453-486 | one frame with `dt >= 0` keeps every node's timer dry or within [0, 5] |
| GfxParticles.NoParticlesNodeIsQuiet | source/main/gfx/GfxActor.cpp:457-505 | a "no particles" node emits nothing, leaves the wheels alone and keeps its timer |
| GfxParticles.NoPoolsNoParticles | source/main/gfx/GfxActor.cpp:444-581 | with no particle pools nothing at all is allocated |
| GfxParticles.NoSkidmarksKeepsWheels | source/main/gfx/GfxActor.cpp:532-561 | with skid marks off the wheel table is untouched |
| GfxDebugView.BeamLineStyle | source/main/gfx/GfxActor.cpp:677-689 | broken beams use the broken style, otherwise hydros the hydro style, otherwise the plain style, each iff |
| GfxDebugView.BeamLine | source/main/gfx/GfxActor.cpp:672-689 | a beam's line is drawn iff both ends have screen depth below 0, from end to end in the beam's style |
| GfxDebugView.NodeDot | source/main/gfx/GfxActor.cpp:699-709 | a node's dot is drawn iff in front of the camera, with the immovable radius and colour iff immovable, and the ordinary node radius and colour otherwise |
| GfxDebugView.ShortenStrength | source/main/gfx/GfxActor.cpp:755-766 | strength from 10^6 up is shown in "M" with 2 decimals, from 10^3 in "K" with 1 decimal (value in [1, 1000)), below that plain with 2 decimals |
| GfxDebugView.ShortenStrengthRoundTrip | source/main/gfx/GfxActor.cpp:755-766 | the shown value times its suffix's scale is the strength |
| GfxDebugView.NodeLabels | source/main/gfx/GfxActor.cpp:714-736 | a node in front of the camera gets its id text, followed by its mass text only outside the beams view |
| GfxDebugView.BeamLabels | source/main/gfx/GfxActor.cpp:739-781 | a beam whose midpoint is in front of the camera gets strength, compression and stress texts at the midpoint; otherwise nothing |
| GfxDebugView.BeamLines | source/main/gfx/GfxActor.cpp:667-690 | the line pass holds exactly the lines of beams in front of the camera, no more than there are beams |
| GfxDebugView.NodeDots | source/main/gfx/GfxActor.cpp:694-711 | the dot pass holds exactly the dots of nodes in front of the camera |
| GfxDebugView.AllNodeLabels | source/main/gfx/GfxActor.cpp:714-736 | the pass holds exactly the labels of the nodes (id, plus mass outside the beams view, none behind the camera); in the beams view there are only id texts |
| GfxDebugView.AllBeamLabels | source/main/gfx/GfxActor.cpp:739-781 | the pass holds exactly the strength, compression and stress texts of the beams with their midpoint in front of the camera |
| GfxDebugView.UpdateDebugView | source/main/gfx/GfxActor.cpp:601-783 | the none view draws nothing. Every other view draws the dot of every node in front of the camera; the nodes and beams views draw every node's labels and the beams view every beam's labels. Skeleton draws only lines and dots; nodes draws no beam texts; beams draws no mass texts |
| GfxDebugView.NodesViewShowsMass | source/main/gfx/GfxActor.cpp:714-736 | in the nodes view a node in front of the camera has both its id and its mass text |
| GfxDebugView.DrawnCommandHasSource | source/main/gfx/GfxActor.cpp:692-781 | every dot drawn is some node's dot, and every text drawn belongs to a node or beam in front of the camera |
| GfxDebugView.UpdateDebugViewIsLayered | source/main/gfx/GfxActor.cpp:648-781 | commands come in layers: lines, then dots, then node texts, then beam texts |
| GfxDebugView.VisibleBeamIsDrawn | source/main/gfx/GfxActor.cpp:648-690 | in every view but none, each beam with both ends in front of the camera has its line drawn |
| GfxDebugView.DrawnLineBelongsToBeam | source/main/gfx/GfxActor.cpp:648-690 | every line drawn is the line of some beam |
| SimStates.QuitPressed | source/main/gameplay/RoRFrameListener.cpp:210-224 | with the selector open the key cancels it and nothing else; otherwise running requests paused, paused requests running, and in any other state the key does nothing at all; the active state never changes here |
| SimStates.ApplyPendingState | source/main/gameplay/RoRFrameListener.cpp:2093-2111 | the active state changes (to the pending one) iff the pair is running to paused or paused to running; all actors are muted exactly for the first and unmuted exactly for the second |
| SimStates.PauseResumeRoundTrip | source/main/gameplay/RoRFrameListener.cpp:2093-2111 | quit and one loop pass pause a running game with muting, and resume a paused one with unmuting |
| SimStates.QuitIgnoredElsewhere | source/main/gameplay/RoRFrameListener.cpp:210-224 | in any other state, quit and a loop pass change nothing |
| SimStates.OtherRequestsStayPending | source/main/gameplay/RoRFrameListener.cpp:2093-2111 | a request for any state other than running or paused is never applied by the loop |
| SimEditor.ToggleEditor | source/main/gameplay/RoRFrameListener.cpp:529-541 | the mode flips; entering activates the editor state and clears the selection, leaving activates running |
| SimEditor.ToggleEditorTwice | source/main/gameplay/RoRFrameListener.cpp:529-541 | two toggles return to the same mode and active state, with the selection cleared after a stay in editing |
| SimEditor.NextRemainder | source/main/gameplay/RoRFrameListener.cpp:597 | the `size_t` remainder of `idx + 1 + n` equals the mathematical `(idx + 1) mod n` for `-1 <= idx < n` |
| SimEditor.PrevRemainder | source/main/gameplay/RoRFrameListener.cpp:602 | the `size_t` remainder of `idx - 1 + n` equals `(idx - 1) mod n`, even when the numerator is negative (one object) |
| SimEditor.EditorNext | source/main/gameplay/RoRFrameListener.cpp:595-599 | the next index is in `[0, n)`: the following index, or 0 after the last |
| SimEditor.EditorPrev | source/main/gameplay/RoRFrameListener.cpp:600-604 | the previous index is in `[0, n)`: the preceding index, the last one from 0, and `n - 2` (0 for one object) from no selection |
| SimEditor.EditorNextPrevInverse | source/main/gameplay/RoRFrameListener.cpp:595-604 | with a selection, next and previous undo each other |
| SimEditor.EditorNextFromNone | source/main/gameplay/RoRFrameListener.cpp:597 | next from no selection gives the first object |
| SimEditor.NearestObject | source/main/gameplay/RoRFrameListener.cpp:576-591 | found iff some squared distance is below `FLT_MAX`; then the index is the first one at the smallest distance |
| SimEditor.SelectObject | source/main/gameplay/RoRFrameListener.cpp:569-643 | runs only in editor mode with objects. The enter/exit key selects the nearest object (announcing it) or clears a selection; otherwise next or previous steps and announces; only the index changes. The announcement moves the character iff object tracking is on |
| SimEditor.CycleRotationAxis | source/main/gameplay/RoRFrameListener.cpp:605-626 | in editor mode with objects loaded, the axis key moves the axis 0 to 1 to 2 to 0; any other value stays and is announced as "ry" |
| SimEditor.CycleRotationAxisAnnouncesNewAxis | source/main/gameplay/RoRFrameListener.cpp:607-622 | the announced label names the new axis (0 "rx", 1 "ry", 2 "rz") |
| SimEditor.CycleRotationAxisThrice | source/main/gameplay/RoRFrameListener.cpp:605-626 | three presses return to the same axis |
| SimReplay.StepBackward | source/main/gameplay/RoRFrameListener.cpp:857-860 | one frame back only while above `-length` |
| SimReplay.StepFastForward | source/main/gameplay/RoRFrameListener.cpp:861-864 | ten frames forward only if that stays at or before the present |
| SimReplay.StepFastBackward | source/main/gameplay/RoRFrameListener.cpp:865-868 | ten frames back only if that stays above `-length` |
| SimReplay.ScrubFactor | source/main/gameplay/RoRFrameListener.cpp:877-884 | 1.5 frames per unit of movement with Shift, 0.05 without |
| SimReplay.ScrubAsWritten | source/main/gameplay/RoRFrameListener.cpp:873-894 | as written, with Alt inside the recording: the result stays inside. Rightward it is `min(0, pos + ceil(rel * factor))`, at least one frame up from below the present and less than `rel * factor + 1` frames. Leftward it is `max(-length, pos - floor(abs(rel) * factor))`. Without movement or outside Alt it is unchanged |
| SimReplay.ScrubAsWrittenIsLopsided | source/main/gameplay/RoRFrameListener.cpp:877-884 | as written, without Shift, 1 to 19 units to the right advance a frame while the same movement to the left does nothing |
| SimReplay.ScrubFrames | source/main/gameplay/RoRFrameListener.cpp:877-884 | corrected: the movement times the factor rounded up to a whole frame in the movement's direction; no movement stands for no frames, and any movement for at least one |
| SimReplay.ScrubFramesSymmetric | source/main/gameplay/RoRFrameListener.cpp:877-884 | corrected: opposite movements stand for opposite frame counts |
| SimReplay.Scrub | source/main/gameplay/RoRFrameListener.cpp:873-894 | corrected: with Alt inside the recording the result is `pos` plus the movement's whole frames, clamped to 0 above and to `-length` below, so it stays inside; it moves in the mouse's direction by less than `abs(rel) * factor + 1` frames and at least one frame when not already at that end; otherwise unchanged |
| SimReplay.ScrubIsSymmetric | source/main/gameplay/RoRFrameListener.cpp:873-894 | corrected: away from the ends, scrubbing left moves exactly as far as scrubbing right |
| SimReplay.ScrubAgreesRightward | source/main/gameplay/RoRFrameListener.cpp:873-894 | corrected: rightward scrubbing moves exactly as the code as written does |
| SimReplay.StepForwardAsWritten | source/main/gameplay/RoRFrameListener.cpp:853-856 | one frame forward whenever the position is at or before the present |
| SimReplay.ReplayStepAsWritten | source/main/gameplay/RoRFrameListener.cpp:851-895 | as written, a frame with no active key leaves the position; with only one step key or only scrubbing, the result is that handler's |
| SimReplay.ReplayStepAsWrittenBounds | source/main/gameplay/RoRFrameListener.cpp:851-895 | as written, a frame of replay input keeps the position within `[-length, 1]` |
| SimReplay.ForwardLeavesRecording | source/main/gameplay/RoRFrameListener.cpp:853-856 | as written, forward from the present reaches 1, outside the recording, where scrubbing no longer moves it |
| SimReplay.StepForward | source/main/gameplay/RoRFrameListener.cpp:853-856 | corrected: one frame forward only if that stays at or before the present |
| SimReplay.ReplayStep | source/main/gameplay/RoRFrameListener.cpp:851-895 | corrected: a frame with no active key leaves the position; with only one step key or only scrubbing, the result is that handler's |
| SimReplay.ReplayStepStaysInRecording | source/main/gameplay/RoRFrameListener.cpp:851-895 | corrected: a frame of replay input keeps the position within `[-length, 0]` |
| SimReplay.ForwardStepsAgreeInside | source/main/gameplay/RoRFrameListener.cpp:853-856 | both forward steps agree before the present |
| SimReplay.BackThenForward | source/main/gameplay/RoRFrameListener.cpp:853-860 | back then forward returns to the same frame |
| SimController.StartRaceTimerAsWritten | source/main/gameplay/RoRFrameListener.cpp:173-177 | the race is in progress, started at the whole second at or before the clock |
| SimController.StopRaceTimer | source/main/gameplay/RoRFrameListener.cpp:179-192 | the race is no longer in progress and its start is 0; the best lap becomes clock minus start only if a race was running; the best lap is returned |
| SimController.LapAsWrittenOvercounts | source/main/gameplay/RoRFrameListener.cpp:173-192 | as written, a lap equals its duration plus the fraction of a second at which it started |
| SimController.LapAsWrittenExample | source/main/gameplay/RoRFrameListener.cpp:175 | a race started at 0.9 s and stopped at once records 0.9 s |
| SimController.StartRaceTimer | source/main/gameplay/RoRFrameListener.cpp:173-177 | corrected: the race starts at the exact clock value |
| SimController.StopPreciseRaceTimer | source/main/gameplay/RoRFrameListener.cpp:179-192 | the stop rule over the exact start time |
| SimController.LapIsElapsedTime | source/main/gameplay/RoRFrameListener.cpp:173-192 | corrected: a race records exactly the time it lasted |
| SimController.StopWithoutRaceKeepsBestLap | source/main/gameplay/RoRFrameListener.cpp:183-191 | stopping with no race running keeps and returns the old best lap |
| SimController.StepFov | source/main/gameplay/RoRFrameListener.cpp:466-497 | with no key nothing happens. Otherwise the target is `round(fov - 1)` if "less" is pressed, else `round(fov + 1)`. In [10, 160] it becomes the camera FOV and the interior setting (cinecam) or the exterior one (otherwise), the other setting unchanged, and is announced; outside, nothing changes and the limit is announced |
| SimController.StepFovBounds | source/main/gameplay/RoRFrameListener.cpp:471-475 | a changed FOV lies in [10, 160], within 1.5 degrees of the old |
| SimController.StepFovRoundTrip | source/main/gameplay/RoRFrameListener.cpp:471-477 | from a whole degree strictly inside the limits, wider then narrower returns to it |
| SimController.InitialPace | source/main/gameplay/RoRFrameListener.cpp:126-130 | the remembered speed starts at 0.1 and the key as released |
| SimController.PaceReset | source/main/gameplay/RoRFrameListener.cpp:980-1006 | acts only on the frame the key goes down: a speed other than 1 is remembered and set to 1; at speed 1 the remembered speed is restored (a no-op when it is 1); the key memory follows the key |
| SimController.PaceResetHeld | source/main/gameplay/RoRFrameListener.cpp:982-1000 | holding the key changes nothing after the first frame |
| SimController.PaceResetRestores | source/main/gameplay/RoRFrameListener.cpp:980-1006 | press, release, press restores the original speed |
| SimController.ToggleBlink | source/main/gameplay/RoRFrameListener.cpp:1114-1136 | a blinker key turns all blinkers off iff its own is on, and otherwise turns its own on |
| SimController.ToggleBlinkTwice | source/main/gameplay/RoRFrameListener.cpp:1114-1120 | the same key twice restores the state if it was off or that blinker, and leaves all off otherwise |
| SimController.BlinkerKeys | source/main/gameplay/RoRFrameListener.cpp:1114-1136 | the three handlers in order: no key leaves the blinkers; with warning pressed the result is off or warning; else with right pressed it is off or right; with only left it is left's toggle; a blinker on afterwards was on before or its key was pressed |
| SimController.BlinkerLastKeyWins | source/main/gameplay/RoRFrameListener.cpp:1114-1136 | from all off, the last handler whose key is pressed decides |
| SimController.BlinkerSingleKey | source/main/gameplay/RoRFrameListener.cpp:1114-1136 | with one key pressed in a frame, the outcome is that key's toggle |
| SimController.TakeScreenshot | source/main/gameplay/RoRFrameListener.cpp:267-276 | the number goes up by one within the same date stamp and restarts at 1 on a new stamp |
| SimController.ScreenshotIdCountsRun | source/main/gameplay/RoRFrameListener.cpp:267-276 | after any series of shots, the number is the count of trailing shots sharing the last stamp |
| SimController.ToggleStats | source/main/gameplay/RoRFrameListener.cpp:1415-1425 | 0 or 1 become 2, 2 becomes 0, any other value stays |
| SimController.ToggleStatsAlternates | source/main/gameplay/RoRFrameListener.cpp:1415-1425 | from 0 or 2 the overlay alternates between them and never shows 1 |
| SimController.ToggleVideoCameras | source/main/gameplay/RoRFrameListener.cpp:1102-1112 | disabled cameras go online; any other state disables them |
| SimController.ToggleVideoCamerasAlternates | source/main/gameplay/RoRFrameListener.cpp:1102-1112 | the key never leaves the cameras offline and alternates disabled and online |
| SimController.LeaveVehicleCameras | source/main/gameplay/RoRFrameListener.cpp:2196-2199 | leaving takes online cameras offline and leaves others as they are |
| SimController.EnterVehicleCameras | source/main/gameplay/RoRFrameListener.cpp:2234-2237 | entering brings offline cameras online and leaves others as they are |
| SimController.LeaveThenEnterRestores | source/main/gameplay/RoRFrameListener.cpp:2196-2237 | getting out and back in restores live cameras exactly and leaves disabled ones disabled |
| SimController.NearestVehicle | source/main/gameplay/RoRFrameListener.cpp:1237-1262 | a vehicle is picked iff some driveable vehicle with a cinecam is closer than 20 m; it is then the first at the smallest distance (0 without a character) |
| SimController.EnterOrExitVehicle | source/main/gameplay/RoRFrameListener.cpp:1231-1274 | ignored until the delay has run out. On foot it enters the nearest vehicle in reach or none, with a 0.5 s delay. In a vehicle below 1 m/s it gets out with the delay; otherwise it brakes at 0.66 of the brake force with no delay |
| SimController.CountDownToggleDelay | source/main/gameplay/RoRFrameListener.cpp:1448-1451 | the delay counts down by the frame time while not negative |
| SimController.ToggleDelayBlocksHalfSecond | source/main/gameplay/RoRFrameListener.cpp:1231-1233 | fewer than 0.5 s of frames after a toggle, the delay is still positive, so the key is ignored |
| SimController.CountDownFromPositive | source/main/gameplay/RoRFrameListener.cpp:1448-1451 | while the counted time stays below the start, the delay is the start minus the elapsed time |

## Left out

- Console message locking (`MsgLockGuard`) is not modelled: it is concurrency.
- ImGui drawing is abstracted: the console's `NewLine` padding becomes a count, and the
  player-name prefix is a flag. The user lookup and player colour are networking.
- Sound in the particle update is left out: the screech modulation and trigger are OpenAL.
- The world-to-screen projection is left out; screen positions are inputs to the overlay.
- Text formatting by `snprintf` is left out. The strength label keeps its value, suffix and
  decimals. The compression text keeps the stress and the stress limit. The mass text's
  offset by the id text's width is not modelled. Nor are the offsets of the compression
  text (right of the strength text) and the stress text (below it) at lines 772 and 776:
  all three beam texts carry the midpoint. Text sizes come from ImGui.
- Vector geometry is left out. Squared distances (editor) and cinecam distances (vehicle
  entry) are inputs. Particle velocities are halved per component.
- Video-camera orientation, mirrors, rods, airbrakes, cparticles, the fork-join wheel
  update, materials and flares are left out: they are vector math, threading or
  rendering-library calls.
- The editor's other keys are left out: object tracking (space), object reset, moving and
  rotating objects, and writing `editor_out.cfg`. They are file output and vector math.
- The screenshot file name and writing, and the PNG metadata, are left out: they are file
  output.
- Simulation speed accelerate/decelerate (the `pow`-based steps) is left out; only the
  pace reset is modelled.
- The ordering of all handlers in one `UpdateInputEvents` call is not composed into one
  function. This includes the early return while paused at lines 236-237; each handler is
  modelled on its own.
- The render-mode cycle, full-screen switch, teleport and chat windows are left out: they
  are UI toggles outside the modelled rules.
- Next/previous vehicle fetching is left out. It calls into the actor manager, which is
  not part of this model.
- The frame-limit sleep, networking, force feedback and Mumble are left out: they are
  timing and I/O.
- `ScaleActor` and boat/vehicle input mappings are left out.
- Float rounding is not modelled. Thresholds are compared exactly in `real`, so a value
  the C++ `float` would round across a threshold is not distinguished.
- GfxParticles.UpdateParticles: the particles list concatenates each node's allocations
  in node order, but its contract does not state the list. Its contract states the node
  states and the size of the wheel table. The per-node effects are stated by NodeStep.
  The table's contents are stated by UntouchedWheelKept and LastContactDecidesWheel.
- GfxDebugView.BeamLines and GfxDebugView.NodeDots state which commands a pass draws,
  not their order within the pass. In the source that order (beam order, node order)
  decides which of two overlapping lines or dots is drawn on top. The order of the four
  passes is stated by UpdateDebugViewIsLayered.
- Common.Round: the definition of the game's one-argument `Round` helper is not part of
  this model. It is assumed to round to the nearest integer with halves away from zero,
  like `std::round`.

## Findings

| source | as written | input that shows it | evidently intended | confidence | as-written member | corrected member |
|---|---|---|---|---|---|---|
| source/main/gameplay/RoRFrameListener.cpp:175 | the race start is the clock truncated to whole seconds, so a lap is longer by the fraction of a second at which the race began | start the race at clock 0.9 s and stop it at once: the lap recorded is 0.9 s, not 0 | the start kept at the exact clock value, so a lap equals its duration (the line's own comment asks for this) | high, not executed | SimController.LapAsWrittenExample | SimController.LapIsElapsedTime |
| source/main/gameplay/RoRFrameListener.cpp:853-856 | the single forward step is allowed at `pos <= 0`, so from the present (0) it reaches 1. That is past the recording; scrubbing ignores it and clamps everything else at 0 | replay length 100, position 0, forward pressed: position 1; then Alt with mouse movement -40 leaves it at 1 | the same bound as the fast-forward step, `pos + 1 <= 0`, keeping the position within `[-length, 0]` | medium, not executed | SimReplay.ForwardLeavesRecording | SimReplay.ReplayStepStaysInRecording |
| source/main/gameplay/RoRFrameListener.cpp:877-884 | mouse scrubbing adds the movement times 0.05 (1.5 with Shift) to the integer position and truncates the sum toward zero. Since the position is never positive, a rightward sum is rounded up to a whole frame and a leftward one is not | replay length 100, position -5, Alt without Shift: mouse movement 1 gives -4, while movement -19 leaves -5 | equal movements left and right moving equally far. The correction rounds the movement to whole frames on its own, away from zero in both directions. Rightward this is exactly what the code does (`ScrubAsWritten` states the rightward closed form), so only leftward scrubbing changes: it now responds to every movement as rightward scrubbing already does, instead of dropping movements worth less than a frame. Truncating the movement toward zero would also be symmetric, but it would also stop rightward movements of up to 19 units, which the code does move | low, not executed | SimReplay.ScrubAsWrittenIsLopsided | SimReplay.ScrubIsSymmetric |
