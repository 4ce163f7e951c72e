/**
 The replay position of the player's vehicle while in replay mode. The position counts
 recorded frames backwards from the present: 0 is the latest frame and `-length` the
 oldest. Four keys step it by one or ten frames, and holding Alt scrubs it with the mouse.
 */
module SimReplay {
  import opened Common

  /** The replay inputs of one frame; `mouseRel` is the mouse's horizontal movement. */
  datatype ReplayKeys = ReplayKeys(
    forward: bool,
    backward: bool,
    fastForward: bool,
    fastBackward: bool,
    alt: bool,
    shift: bool,
    mouseRel: int)

  /** The position stays within the recording: between `-length` and the present. */
  predicate InRecording(pos: int, length: int) {
    -length <= pos <= 0
  }

  /** Backward and the two fast steps, each allowed only if its result keeps inside its bound. */
  function StepBackward(pos: int, length: int, pressed: bool): (r: int)
    ensures pressed && pos > -length ==> r == pos - 1
    ensures !(pressed && pos > -length) ==> r == pos
  {
    if pressed && pos > -length then pos - 1 else pos
  }

  function StepFastForward(pos: int, pressed: bool): (r: int)
    ensures pressed && pos + 10 <= 0 ==> r == pos + 10
    ensures !(pressed && pos + 10 <= 0) ==> r == pos
  {
    if pressed && pos + 10 <= 0 then pos + 10 else pos
  }

  function StepFastBackward(pos: int, length: int, pressed: bool): (r: int)
    ensures pressed && pos - 10 > -length ==> r == pos - 10
    ensures !(pressed && pos - 10 > -length) ==> r == pos
  {
    if pressed && pos - 10 > -length then pos - 10 else pos
  }

  /** Frames per unit of horizontal mouse movement: 1.5 with Shift held, 0.05 without. */
  function ScrubFactor(shift: bool): (f: real)
    ensures f > 0.0
    ensures shift ==> f == 1.5
    ensures !shift ==> f == 0.05
  {
    if shift then 1.5 else 0.05
  }

  /** The smallest integer at or above `y`. */
  function Ceil(y: real): (c: int)
    ensures y <= c as real < y + 1.0
  {
    -((-y).Floor)
  }

  /** No key that moves the position is active in this frame. */
  predicate Idle(k: ReplayKeys) {
    !k.forward && !k.backward && !k.fastForward && !k.fastBackward && (!k.alt || k.mouseRel == 0)
  }

  // ---------------------------------------------------------------------------------------
  // As written: mouse scrubbing

  /**
   Mouse scrubbing as written, while Alt is held and the position lies in the recording:
   the movement times the factor is added to the whole-frame position and the sum is
   truncated back to a whole frame, then clamped into the recording. Since the position is
   never positive, truncation rounds a rightward sum up and a leftward one down only by
   whole frames of movement: any rightward movement advances at least one frame, while a
   leftward one must reach a whole frame.
   */
  function ScrubAsWritten(pos: int, length: int, alt: bool, shift: bool, mouseRel: int): (r: int)
    ensures alt && InRecording(pos, length) ==> InRecording(r, length)
    ensures !(alt && InRecording(pos, length)) ==> r == pos
    ensures mouseRel == 0 ==> r == pos
    ensures alt && InRecording(pos, length) && mouseRel >= 0 ==>
              pos <= r && (r - pos) as real < mouseRel as real * ScrubFactor(shift) + 1.0
    ensures alt && InRecording(pos, length) && mouseRel > 0 ==>
              r == (if pos + Ceil(mouseRel as real * ScrubFactor(shift)) > 0 then 0
                    else pos + Ceil(mouseRel as real * ScrubFactor(shift)))
    ensures alt && InRecording(pos, length) && mouseRel > 0 && pos < 0 ==> r > pos
    ensures alt && InRecording(pos, length) && mouseRel <= 0 ==>
              r == (if pos - ((-mouseRel) as real * ScrubFactor(shift)).Floor < -length then -length
                    else pos - ((-mouseRel) as real * ScrubFactor(shift)).Floor)
  {
    if alt && pos <= 0 && pos >= -length then
      var moved := Trunc(pos as real + mouseRel as real * ScrubFactor(shift));
      if moved > 0 then 0 else if moved < -length then -length else moved
    else pos
  }

  /**
   As written, scrubbing is lopsided: without Shift, a movement of 1 to 19 units to the
   right advances one frame, while the same movement to the left does not move at all.
   */
  lemma ScrubAsWrittenIsLopsided(pos: int, length: int, d: int)
    requires -length <= pos < 0 && 0 < d < 20
    ensures ScrubAsWritten(pos, length, true, false, d) == pos + 1
    ensures ScrubAsWritten(pos, length, true, false, -d) == pos
  {
    assert 0.0 < d as real * 0.05 < 1.0;
    assert Ceil(d as real * 0.05) == 1;
    assert (d as real * 0.05).Floor == 0;
  }

  // ---------------------------------------------------------------------------------------
  // Corrected: the movement is rounded to whole frames on its own, away from zero in both
  // directions, as the code already does for rightward movement

  /**
   The whole frames a mouse movement stands for: the movement times the factor, rounded up
   to a whole frame in the direction of the movement.
   */
  function ScrubFrames(mouseRel: int, shift: bool): (d: int)
    ensures mouseRel == 0 ==> d == 0
    ensures mouseRel > 0 ==> 0 < d && d as real - 1.0 < mouseRel as real * ScrubFactor(shift) <= d as real
    ensures mouseRel < 0 ==> d < 0 && d as real <= mouseRel as real * ScrubFactor(shift) < d as real + 1.0
  {
    if mouseRel >= 0 then Ceil(mouseRel as real * ScrubFactor(shift))
    else -Ceil((-mouseRel) as real * ScrubFactor(shift))
  }

  /** Equal movements to the left and to the right stand for the same number of frames. */
  lemma ScrubFramesSymmetric(mouseRel: int, shift: bool)
    ensures ScrubFrames(-mouseRel, shift) == -ScrubFrames(mouseRel, shift)
  {
  }

  /**
   Mouse scrubbing while Alt is held and the position lies in the recording: the position
   moves by the movement's whole frames, clamped into the recording.
   */
  function Scrub(pos: int, length: int, alt: bool, shift: bool, mouseRel: int): (r: int)
    ensures alt && InRecording(pos, length) ==> InRecording(r, length)
    ensures !(alt && InRecording(pos, length)) ==> r == pos
    ensures mouseRel == 0 ==> r == pos
    ensures alt && InRecording(pos, length) && -length <= pos + ScrubFrames(mouseRel, shift) <= 0 ==>
              r == pos + ScrubFrames(mouseRel, shift)
    ensures alt && InRecording(pos, length) && pos + ScrubFrames(mouseRel, shift) > 0 ==> r == 0
    ensures alt && InRecording(pos, length) && pos + ScrubFrames(mouseRel, shift) < -length ==> r == -length
    ensures alt && InRecording(pos, length) && mouseRel >= 0 ==>
              pos <= r && (r - pos) as real < mouseRel as real * ScrubFactor(shift) + 1.0
    ensures alt && InRecording(pos, length) && mouseRel < 0 ==>
              r <= pos && mouseRel as real * ScrubFactor(shift) - 1.0 < (r - pos) as real
    ensures alt && InRecording(pos, length) && mouseRel > 0 && pos < 0 ==> r > pos
    ensures alt && InRecording(pos, length) && mouseRel < 0 && pos > -length ==> r < pos
  {
    if alt && pos <= 0 && pos >= -length then
      var moved := pos + ScrubFrames(mouseRel, shift);
      if moved > 0 then 0 else if moved < -length then -length else moved
    else pos
  }

  /** Away from the ends of the recording, scrubbing left undoes exactly what scrubbing right does. */
  lemma ScrubIsSymmetric(pos: int, length: int, shift: bool, mouseRel: int)
    requires InRecording(pos, length)
    requires -length <= pos - ScrubFrames(mouseRel, shift) <= 0 && -length <= pos + ScrubFrames(mouseRel, shift) <= 0
    ensures Scrub(pos, length, true, shift, -mouseRel) - pos == -(Scrub(pos, length, true, shift, mouseRel) - pos)
  {
    ScrubFramesSymmetric(mouseRel, shift);
  }

  /** The correction changes leftward scrubbing only: rightward it moves as the code does. */
  lemma ScrubAgreesRightward(pos: int, length: int, alt: bool, shift: bool, mouseRel: int)
    requires mouseRel >= 0
    ensures Scrub(pos, length, alt, shift, mouseRel) == ScrubAsWritten(pos, length, alt, shift, mouseRel)
  {
  }

  // ---------------------------------------------------------------------------------------
  // As written: the single forward step

  /** The forward step as written: allowed whenever the position is not past the present. */
  function StepForwardAsWritten(pos: int, pressed: bool): (r: int)
    ensures pressed && pos <= 0 ==> r == pos + 1
    ensures !(pressed && pos <= 0) ==> r == pos
  {
    if pressed && pos <= 0 then pos + 1 else pos
  }

  /**
   One frame of replay input as written: the four step keys in order, each seeing the
   position the previous one left, then scrubbing.
   */
  function ReplayStepAsWritten(pos: int, length: int, k: ReplayKeys): (r: int)
    ensures Idle(k) ==> r == pos
    ensures !k.alt && !k.backward && !k.fastForward && !k.fastBackward ==> r == StepForwardAsWritten(pos, k.forward)
    ensures !k.alt && !k.forward && !k.fastForward && !k.fastBackward ==> r == StepBackward(pos, length, k.backward)
    ensures !k.alt && !k.forward && !k.backward && !k.fastBackward ==> r == StepFastForward(pos, k.fastForward)
    ensures !k.alt && !k.forward && !k.backward && !k.fastForward ==> r == StepFastBackward(pos, length, k.fastBackward)
    ensures !k.forward && !k.backward && !k.fastForward && !k.fastBackward ==>
              r == ScrubAsWritten(pos, length, k.alt, k.shift, k.mouseRel)
  {
    var p1 := StepForwardAsWritten(pos, k.forward);
    var p2 := StepBackward(p1, length, k.backward);
    var p3 := StepFastForward(p2, k.fastForward);
    var p4 := StepFastBackward(p3, length, k.fastBackward);
    ScrubAsWritten(p4, length, k.alt, k.shift, k.mouseRel)
  }

  /** As written the position stays between `-length` and one frame past the present. */
  lemma ReplayStepAsWrittenBounds(pos: int, length: int, k: ReplayKeys)
    requires -length <= pos <= 1
    ensures -length <= ReplayStepAsWritten(pos, length, k) <= 1
  {
  }

  /**
   From the latest frame a forward press leaves the recording, one frame past the present,
   where mouse scrubbing no longer responds.
   */
  lemma ForwardLeavesRecording()
    ensures var k := ReplayKeys(true, false, false, false, false, false, 0);
      ReplayStepAsWritten(0, 100, k) == 1 && !InRecording(1, 100)
    ensures var scrub := ReplayKeys(false, false, false, false, true, false, -40);
      ReplayStepAsWritten(1, 100, scrub) == 1
  {
  }

  // ---------------------------------------------------------------------------------------
  // Corrected: the forward step keeps to the present, like the fast-forward step

  function StepForward(pos: int, pressed: bool): (r: int)
    ensures pressed && pos + 1 <= 0 ==> r == pos + 1
    ensures !(pressed && pos + 1 <= 0) ==> r == pos
  {
    if pressed && pos + 1 <= 0 then pos + 1 else pos
  }

  /** One frame of replay input: the four step keys in order, then scrubbing. */
  function ReplayStep(pos: int, length: int, k: ReplayKeys): (r: int)
    ensures Idle(k) ==> r == pos
    ensures !k.alt && !k.backward && !k.fastForward && !k.fastBackward ==> r == StepForward(pos, k.forward)
    ensures !k.alt && !k.forward && !k.fastForward && !k.fastBackward ==> r == StepBackward(pos, length, k.backward)
    ensures !k.alt && !k.forward && !k.backward && !k.fastBackward ==> r == StepFastForward(pos, k.fastForward)
    ensures !k.alt && !k.forward && !k.backward && !k.fastForward ==> r == StepFastBackward(pos, length, k.fastBackward)
    ensures !k.forward && !k.backward && !k.fastForward && !k.fastBackward ==>
              r == Scrub(pos, length, k.alt, k.shift, k.mouseRel)
  {
    var p1 := StepForward(pos, k.forward);
    var p2 := StepBackward(p1, length, k.backward);
    var p3 := StepFastForward(p2, k.fastForward);
    var p4 := StepFastBackward(p3, length, k.fastBackward);
    Scrub(p4, length, k.alt, k.shift, k.mouseRel)
  }

  /** The corrected step never leaves the recording. */
  lemma ReplayStepStaysInRecording(pos: int, length: int, k: ReplayKeys)
    requires InRecording(pos, length)
    ensures InRecording(ReplayStep(pos, length, k), length)
  {
  }

  /** Inside the recording, away from the present, the two forward steps agree. */
  lemma ForwardStepsAgreeInside(pos: int, pressed: bool)
    requires pos < 0
    ensures StepForward(pos, pressed) == StepForwardAsWritten(pos, pressed)
  {
  }

  /** Backward then forward, from inside the recording and away from its oldest end, returns. */
  lemma BackThenForward(pos: int, length: int)
    requires InRecording(pos, length) && pos > -length
    ensures StepForward(StepBackward(pos, length, true), true) == pos
  {
  }
}
