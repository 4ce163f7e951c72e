/**
 Per-actor visual state kept by the graphics side of an actor: the debug-view mode, the
 on/off state of its video cameras (mirrors and screens), the visibility of its rods (the
 visual beams) and its table of wheel visuals.
 */
module GfxActor {
  import opened Common

  // ---------------------------------------------------------------------------------------
  // Debug view

  datatype DebugViewType = DebugViewNone | DebugViewSkeleton | DebugViewNodes | DebugViewBeams

  /** Position of a view in the cycle, counting from `DebugViewNone`. */
  function DebugViewOrdinal(v: DebugViewType): (k: nat)
    ensures k < 4
    ensures k == 0 <==> v == DebugViewNone
  {
    match v
    case DebugViewNone => 0
    case DebugViewSkeleton => 1
    case DebugViewNodes => 2
    case DebugViewBeams => 3
  }

  /** `CycleDebugViews`: none, skeleton, nodes, beams, and back to none. */
  function CycleDebugViews(v: DebugViewType): (r: DebugViewType)
    ensures DebugViewOrdinal(r) == (DebugViewOrdinal(v) + 1) % 4
    ensures r != v
  {
    match v
    case DebugViewNone => DebugViewSkeleton
    case DebugViewSkeleton => DebugViewNodes
    case DebugViewNodes => DebugViewBeams
    case DebugViewBeams => DebugViewNone
  }

  /** Four steps of the cycle return to the starting view, and no fewer do. */
  lemma CycleReturnsAfterFour(v: DebugViewType)
    ensures CycleDebugViews(CycleDebugViews(CycleDebugViews(CycleDebugViews(v)))) == v
    ensures CycleDebugViews(CycleDebugViews(v)) != v
    ensures CycleDebugViews(CycleDebugViews(CycleDebugViews(v))) != v
  {
  }

  // ---------------------------------------------------------------------------------------
  // Video cameras

  datatype VideoCamState = VcDisabled | VcEnabledOffline | VcEnabledOnline

  /**
   One video camera as far as its on/off state is concerned: whether it renders into a
   texture or into a window, the names of its live and "off" textures, and what is
   currently switched on and shown.
   */
  datatype VideoCamera = VideoCamera(
    hasRenderTarget: bool,
    hasRenderWindow: bool,
    liveTextureName: string,
    offTextureName: string,
    targetActive: bool,
    windowActive: bool,
    shownTexture: string)

  datatype VideoCams = VideoCams(state: VideoCamState, cams: seq<VideoCamera>)

  /** Switch one camera on or off; a render target takes precedence over a window. */
  function SwitchVideoCamera(c: VideoCamera, enable: bool): (c': VideoCamera)
    ensures c'.hasRenderTarget == c.hasRenderTarget && c'.hasRenderWindow == c.hasRenderWindow
    ensures c'.liveTextureName == c.liveTextureName && c'.offTextureName == c.offTextureName
    ensures c.hasRenderTarget ==>
              && c'.targetActive == enable && c'.windowActive == c.windowActive
              && c'.shownTexture == (if enable then c.liveTextureName else c.offTextureName)
    ensures !c.hasRenderTarget && c.hasRenderWindow ==>
              c'.windowActive == enable && c'.targetActive == c.targetActive && c'.shownTexture == c.shownTexture
    ensures !c.hasRenderTarget && !c.hasRenderWindow ==> c' == c
  {
    if c.hasRenderTarget then
      c.(targetActive := enable, shownTexture := if enable then c.liveTextureName else c.offTextureName)
    else if c.hasRenderWindow then
      c.(windowActive := enable)
    else
      c
  }

  /** Switching a camera the same way twice is the same as switching it once; the last switch decides. */
  lemma SwitchVideoCameraLastWins(c: VideoCamera, first: bool, second: bool)
    ensures SwitchVideoCamera(SwitchVideoCamera(c, first), second) == SwitchVideoCamera(c, second)
  {
  }

  /** `SetVideoCamState`. */
  function SetVideoCamState(vc: VideoCams, state: VideoCamState): (r: VideoCams)
    ensures state == vc.state ==> r == vc
    ensures r.state == state
    ensures |r.cams| == |vc.cams|
    ensures state != vc.state ==> forall i :: 0 <= i < |vc.cams| ==>
      var c, c' := vc.cams[i], r.cams[i];
      && c'.hasRenderTarget == c.hasRenderTarget && c'.hasRenderWindow == c.hasRenderWindow
      && c'.liveTextureName == c.liveTextureName && c'.offTextureName == c.offTextureName
      && (c.hasRenderTarget ==>
            && (c'.targetActive <==> state == VcEnabledOnline)
            && c'.shownTexture == (if state == VcEnabledOnline then c.liveTextureName else c.offTextureName)
            && c'.windowActive == c.windowActive)
      && (!c.hasRenderTarget && c.hasRenderWindow ==>
            && (c'.windowActive <==> state == VcEnabledOnline)
            && c'.targetActive == c.targetActive && c'.shownTexture == c.shownTexture)
      && (!c.hasRenderTarget && !c.hasRenderWindow ==> c' == c)
  {
    if state == vc.state then vc
    else
      var enable := state == VcEnabledOnline;
      VideoCams(state, seq(|vc.cams|, i requires 0 <= i < |vc.cams| => SwitchVideoCamera(vc.cams[i], enable)))
  }

  /** Requesting the same state twice does the work once. */
  lemma SetVideoCamStateIdempotent(vc: VideoCams, state: VideoCamState)
    ensures SetVideoCamState(SetVideoCamState(vc, state), state) == SetVideoCamState(vc, state)
  {
  }

  /** Only the online state lets cameras render; offline and disabled look the same to them. */
  lemma OfflineAndDisabledLookAlike(vc: VideoCams)
    requires vc.state == VcEnabledOnline
    ensures SetVideoCamState(vc, VcEnabledOffline).cams == SetVideoCamState(vc, VcDisabled).cams
  {
  }

  // ---------------------------------------------------------------------------------------
  // Rods

  /** The parent scene node of all rods, if the actor has any rods. */
  datatype RodsParent = NoRodsParent | RodsParent(inSceneGraph: bool)

  datatype SceneAction = AttachToRoot | DetachFromRoot

  /** `SetRodsVisible`: rods are shown by attaching their parent node to the root. */
  function SetRodsVisible(p: RodsParent, visible: bool): (r: (RodsParent, Option<SceneAction>))
    ensures p.NoRodsParent? ==> r == (p, None)
    ensures p.RodsParent? ==> r.0 == RodsParent(visible)
    ensures r.1 == Some(AttachToRoot) <==> p == RodsParent(false) && visible
    ensures r.1 == Some(DetachFromRoot) <==> p == RodsParent(true) && !visible
  {
    match p
    case NoRodsParent => (p, None)
    case RodsParent(attached) =>
      if visible && !attached then (RodsParent(true), Some(AttachToRoot))
      else if !visible && attached then (RodsParent(false), Some(DetachFromRoot))
      else (p, None)
  }

  /** Setting the same visibility again changes nothing and touches no scene node. */
  lemma SetRodsVisibleIdempotent(p: RodsParent, visible: bool)
    ensures var r := SetRodsVisible(p, visible).0; SetRodsVisible(r, visible) == (r, None)
  {
  }

  // ---------------------------------------------------------------------------------------
  // Wheel visuals

  /** The parts of a wheel's visuals: its scene node, its flexible mesh, its kind. */
  datatype WheelGfx = WheelGfx(hasSceneNode: bool, hasFlexMesh: bool, isMeshWheel: bool)

  /** A default-constructed slot, as `resize` fills the table with. */
  const EmptyWheelGfx := WheelGfx(false, false, false)

  const UINT16_MAX: nat := 0xFFFF

  /** `SetWheelVisuals`: grow the table only if it is too short, then fill slot `index`. */
  function SetWheelVisuals(wheels: seq<WheelGfx>, index: nat, w: WheelGfx): (r: seq<WheelGfx>)
    requires index <= UINT16_MAX
    ensures |wheels| > index ==> |r| == |wheels|
    ensures |wheels| <= index ==> |r| == index + 1
    ensures r[index] == w
    ensures forall j :: 0 <= j < |wheels| && j != index ==> r[j] == wheels[j]
    ensures forall j :: |wheels| <= j < |r| && j != index ==> r[j] == EmptyWheelGfx
  {
    var grown := if |wheels| <= index then wheels + seq(index + 1 - |wheels|, _ => EmptyWheelGfx) else wheels;
    grown[index := w]
  }

  /** Filling two different slots gives the same table in either order. */
  lemma {:induction false} SetWheelVisualsCommute(wheels: seq<WheelGfx>, i: nat, a: WheelGfx, j: nat, b: WheelGfx)
    requires i <= UINT16_MAX && j <= UINT16_MAX && i != j
    ensures SetWheelVisuals(SetWheelVisuals(wheels, i, a), j, b) == SetWheelVisuals(SetWheelVisuals(wheels, j, b), i, a)
  {
    var x := SetWheelVisuals(SetWheelVisuals(wheels, i, a), j, b);
    var y := SetWheelVisuals(SetWheelVisuals(wheels, j, b), i, a);
    assert |x| == |y|;
    forall k | 0 <= k < |x|
      ensures x[k] == y[k]
    {
    }
  }

  /** Filling the same slot twice keeps only the second value. */
  lemma SetWheelVisualsOverwrite(wheels: seq<WheelGfx>, i: nat, a: WheelGfx, b: WheelGfx)
    requires i <= UINT16_MAX
    ensures SetWheelVisuals(SetWheelVisuals(wheels, i, a), i, b) == SetWheelVisuals(wheels, i, b)
  {
    var x := SetWheelVisuals(SetWheelVisuals(wheels, i, a), i, b);
    var y := SetWheelVisuals(wheels, i, b);
    assert |x| == |y|;
    forall k | 0 <= k < |x|
      ensures x[k] == y[k]
    {
    }
  }
}
