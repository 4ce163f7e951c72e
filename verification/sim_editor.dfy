/**
 The terrain editor's selection rules: switching editor mode on and off, picking the object
 nearest to a reference point, stepping to the next or previous object in the editor's
 object list, and cycling the rotation axis. Object positions enter as squared distances
 from the reference point (the camera when controls are locked, the character otherwise).
 */
module SimEditor {
  import opened Common
  import opened SimStates

  /** The editor's persistent state, initially not editing, nothing selected, axis 1, tracking on. */
  datatype Editor = Editor(editing: bool, objectIndex: int, rotationAxis: int, trackObject: bool)

  const InitialEditor := Editor(false, -1, 1, true)

  /** `(int)object_list.size()` must be a valid `int`. */
  const INT_MAX: int := 0x7FFF_FFFF

  /** The largest finite single-precision value, the start of the nearest-object search. */
  const FLT_MAX: real := 340282346638528859811704183484516925440.0

  // ---------------------------------------------------------------------------------------
  // Editor mode

  /**
   The editor toggle: entering makes the editor the active state and clears the selection,
   leaving makes the simulation run again.
   */
  function ToggleEditor(e: Editor, sim: SimStateVar): (r: (Editor, SimStateVar))
    ensures r.0.editing == !e.editing
    ensures r.0.editing ==> r.0 == e.(editing := true, objectIndex := -1) && r.1 == sim.(active := SimEditorMode)
    ensures !r.0.editing ==> r.0 == e.(editing := false) && r.1 == sim.(active := SimRunning)
  {
    if !e.editing then (e.(editing := true, objectIndex := -1), sim.(active := SimEditorMode))
    else (e.(editing := false), sim.(active := SimRunning))
  }

  /** Toggling twice returns to the same mode, with the selection cleared if that mode was editing. */
  lemma ToggleEditorTwice(e: Editor, sim: SimStateVar)
    ensures var (e1, s1) := ToggleEditor(e, sim); var (e2, s2) := ToggleEditor(e1, s1);
      e2.editing == e.editing && s2.pending == sim.pending
      && (e.editing ==> e2.objectIndex == -1 && s2.active == SimEditorMode)
      && (!e.editing ==> s2.active == SimRunning)
  {
  }

  // ---------------------------------------------------------------------------------------
  // Stepping through the list

  /** Small remainder facts, kept apart so that each is proved in an empty context. */
  lemma ModOneWrap(m: int, n: int)
    requires 0 < n && n <= m < 2 * n
    ensures m % n == m - n
  {
  }

  lemma ModBelow(m: int, n: int)
    requires 0 <= m < n
    ensures m % n == m
  {
  }

  lemma ModMultiple(n: int, k: int)
    requires 0 < n && (k == 1 || k == 2)
    ensures (k * n) % n == 0
  {
  }

  lemma {:induction false} NextRemainder(idx: int, n: nat)
    requires 0 < n <= INT_MAX && -1 <= idx < n
    ensures var r := ToSize64(idx + 1 + n) % n; r == (idx + 1) % n && (idx + 1 < n ==> r == idx + 1) && (idx + 1 == n ==> r == 0)
  {
    var m := idx + 1 + n;
    assert 0 <= m < SIZE_MODULUS;
    assert ToSize64(m) == m;
    if idx + 1 < n {
      ModOneWrap(m, n);
      ModBelow(idx + 1, n);
    } else {
      assert m == 2 * n && idx + 1 == 1 * n;
      ModMultiple(n, 1);
      ModMultiple(n, 2);
    }
  }

  lemma ModOne(x: int)
    ensures x % 1 == 0
  {
  }

  lemma NegWrap(m: int, n: int)
    requires 0 < n && -n <= m < 0
    ensures m % n == m + n
  {
  }

  lemma {:induction false} PrevRemainder(idx: int, n: nat)
    requires 0 < n <= INT_MAX && -1 <= idx < n
    ensures var r := ToSize64(idx - 1 + n) % n;
      && r == (idx - 1) % n
      && (idx >= 1 ==> r == idx - 1)
      && (idx == 0 ==> r == n - 1)
      && (idx == -1 ==> r == (if n >= 2 then n - 2 else 0))
  {
    var m := idx - 1 + n;
    if n == 1 {
      ModOne(ToSize64(m));
      ModOne(idx - 1);
    } else {
      assert ToSize64(m) == m;
      if idx >= 1 {
        ModOneWrap(m, n);
        ModBelow(idx - 1, n);
      } else {
        ModBelow(m, n);
        NegWrap(idx - 1, n);
      }
    }
  }

  /**
   The next object: `(object_index + 1 + (int)size) % size`, where the left operand is
   converted to `size_t` before the remainder is taken.
   */
  function EditorNext(idx: int, n: nat): (r: int)
    requires 0 < n <= INT_MAX && -1 <= idx < n
    ensures 0 <= r < n
    ensures r == (idx + 1) % n
    ensures idx + 1 < n ==> r == idx + 1
    ensures idx == n - 1 ==> r == 0
  {
    NextRemainder(idx, n);
    ToSize64(idx + 1 + n) % n
  }

  /**
   The previous object: `(object_index - 1 + (int)size) % size`, with the same conversion;
   when nothing is selected this lands on the second-to-last object (or on 0 for one object).
   */
  function EditorPrev(idx: int, n: nat): (r: int)
    requires 0 < n <= INT_MAX && -1 <= idx < n
    ensures 0 <= r < n
    ensures r == (idx - 1) % n
    ensures idx >= 1 ==> r == idx - 1
    ensures idx == 0 ==> r == n - 1
    ensures idx == -1 ==> r == (if n >= 2 then n - 2 else 0)
  {
    PrevRemainder(idx, n);
    ToSize64(idx - 1 + n) % n
  }

  /** Next undoes previous and previous undoes next, once something is selected. */
  lemma EditorNextPrevInverse(idx: int, n: nat)
    requires 0 < n <= INT_MAX && 0 <= idx < n
    ensures EditorPrev(EditorNext(idx, n), n) == idx
    ensures EditorNext(EditorPrev(idx, n), n) == idx
  {
  }

  /** From no selection, "next" selects the first object. */
  lemma EditorNextFromNone(n: nat)
    requires 0 < n <= INT_MAX
    ensures EditorNext(-1, n) == 0
  {
  }

  // ---------------------------------------------------------------------------------------
  // Nearest object

  /** Index `k` holds the first smallest distance below the search's starting bound. */
  ghost predicate FirstNearest(dists: seq<real>, k: int) {
    && 0 <= k < |dists|
    && dists[k] < FLT_MAX
    && (forall j :: 0 <= j < |dists| ==> dists[k] <= dists[j])
    && (forall j :: 0 <= j < k ==> dists[k] < dists[j])
  }

  /** The search for the nearest object, keeping the first of equally near ones. */
  method NearestObject(dists: seq<real>) returns (index: int, found: bool)
    ensures found <==> exists j :: 0 <= j < |dists| && dists[j] < FLT_MAX
    ensures found ==> FirstNearest(dists, index)
    ensures !found ==> index == -1
  {
    index := -1;
    found := false;
    var minDist := FLT_MAX;
    var i := 0;
    while i < |dists|
      invariant 0 <= i <= |dists|
      invariant found <==> exists j :: 0 <= j < i && dists[j] < FLT_MAX
      invariant !found ==> index == -1 && minDist == FLT_MAX
      invariant found ==> 0 <= index < i && minDist == dists[index] && minDist < FLT_MAX
      invariant forall j :: 0 <= j < i ==> minDist <= dists[j]
      invariant found ==> forall j :: 0 <= j < index ==> minDist < dists[j]
    {
      if dists[i] < minDist {
        index := i;
        minDist := dists[i];
        found := true;
      }
      i := i + 1;
    }
  }

  // ---------------------------------------------------------------------------------------
  // Selection keys

  /** The keys the selection block reads; they are tried in this order, first match wins. */
  datatype SelectKeys = SelectKeys(enterOrExit: bool, next: bool, prev: bool)

  /** The selection notice, and whether the character is moved onto the object. */
  datatype Selected = Selected(index: nat, count: nat, moveCharacter: bool)

  /**
   The object-selection part of the editor block, which runs only in editor mode with a
   non-empty object list: the enter/exit key selects the nearest object or drops the
   selection; otherwise "next" or "previous" steps through the list.
   */
  method SelectObject(e: Editor, sim: SimState, dists: seq<real>, keys: SelectKeys) returns (e': Editor, notice: Option<Selected>)
    requires |dists| <= INT_MAX && -1 <= e.objectIndex < |dists|
    ensures e' == e.(objectIndex := e'.objectIndex)
    ensures -1 <= e'.objectIndex < |dists|
    ensures sim != SimEditorMode || |dists| == 0 ==> e' == e && notice == None
    ensures sim == SimEditorMode && |dists| > 0 ==>
      && (keys.enterOrExit && e.objectIndex == -1 ==>
            if exists j :: 0 <= j < |dists| && dists[j] < FLT_MAX
            then FirstNearest(dists, e'.objectIndex) && notice == Some(Selected(e'.objectIndex, |dists|, e.trackObject))
            else e'.objectIndex == -1 && notice == None)
      && (keys.enterOrExit && e.objectIndex != -1 ==> e'.objectIndex == -1 && notice == None)
      && (!keys.enterOrExit && keys.next ==>
            e'.objectIndex == EditorNext(e.objectIndex, |dists|) && notice == Some(Selected(e'.objectIndex, |dists|, e.trackObject)))
      && (!keys.enterOrExit && !keys.next && keys.prev ==>
            e'.objectIndex == EditorPrev(e.objectIndex, |dists|) && notice == Some(Selected(e'.objectIndex, |dists|, e.trackObject)))
      && (!keys.enterOrExit && !keys.next && !keys.prev ==> e' == e && notice == None)
  {
    e' := e;
    notice := None;
    if sim != SimEditorMode || |dists| == 0 {
      return;
    }
    var update := false;
    var index := e.objectIndex;
    if keys.enterOrExit {
      if index == -1 {
        var found;
        index, found := NearestObject(dists);
        update := found;
      } else {
        index := -1;
      }
    } else if keys.next {
      index := EditorNext(index, |dists|);
      update := true;
    } else if keys.prev {
      index := EditorPrev(index, |dists|);
      update := true;
    }
    e' := e.(objectIndex := index);
    if index != -1 && update {
      notice := Some(Selected(index, |dists|, e.trackObject));
    }
  }

  // ---------------------------------------------------------------------------------------
  // Rotation axis

  /** The name of a rotation axis. */
  function AxisName(axis: int): string {
    if axis == 0 then "rx" else if axis == 1 then "ry" else if axis == 2 then "rz" else "ry"
  }

  /** The rotation-axis key: 0 to 1 to 2 to 0, announcing the new axis; another value stays, announced "ry". */
  function CycleRotationAxis(axis: int): (r: (int, string))
    ensures 0 <= axis <= 2 ==> r.0 == (axis + 1) % 3
    ensures !(0 <= axis <= 2) ==> r == (axis, "ry")
  {
    if axis == 0 then (1, "ry")
    else if axis == 1 then (2, "rz")
    else if axis == 2 then (0, "rx")
    else (axis, "ry")
  }

  /** The announcement always names the axis the editor rotates about afterwards. */
  lemma CycleRotationAxisAnnouncesNewAxis(axis: int)
    requires 0 <= axis <= 2
    ensures CycleRotationAxis(axis).1 == AxisName(CycleRotationAxis(axis).0)
  {
  }

  /** Three presses come back to the same axis. */
  lemma CycleRotationAxisThrice(axis: int)
    ensures CycleRotationAxis(CycleRotationAxis(CycleRotationAxis(axis).0).0).0 == axis
  {
  }
}
