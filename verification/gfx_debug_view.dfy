/**
 The soft-body debug overlay of an actor: what is drawn for each debug view. Beams become
 lines, nodes become dots, and the "nodes" and "beams" views add text labels; everything
 behind the camera (screen depth not negative) is skipped. The projection of world positions
 to the screen is an input: each beam and node arrives with its screen position.
 */
module GfxDebugView {
  import opened Common
  import opened GfxActor

  /** A projected position; `z < 0` means in front of the camera. */
  datatype ScreenPos = ScreenPos(x: real, y: real, z: real)

  /** A beam as the overlay sees it: its two projected ends, its projected midpoint, and its state. */
  datatype BeamView = BeamView(
    p1: ScreenPos,
    p2: ScreenPos,
    mid: ScreenPos,
    broken: bool,
    hydro: bool,
    strength: real,
    stress: real,
    maxStress: real)

  datatype NodeView = NodeView(pos: ScreenPos, immovable: bool, id: int, mass: real)

  datatype LineStyle = LineStyle(colour: int, thickness: real)

  // Colours are 32-bit ABGR values.
  const BEAM_STYLE := LineStyle(0xff556633, 1.2)
  const BEAM_BROKEN_STYLE := LineStyle(0xff4466dd, 1.8)
  const BEAM_HYDRO_STYLE := LineStyle(0xff55a3e0, 1.4)
  const NODE_COLOR: int := 0xff44ddff
  const NODE_RADIUS: real := 2.0
  const NODE_IMMOVABLE_COLOR: int := 0xff0033ff
  const NODE_IMMOVABLE_RADIUS: real := 2.8

  /** A shortened strength figure: `value` printed with `decimals` decimals, then `suffix`. */
  datatype StrengthLabel = StrengthLabel(value: real, suffix: string, decimals: nat)

  /** The overlay's draw commands, in the order they are issued. */
  datatype DrawCmd =
    | Line(x1: real, y1: real, x2: real, y2: real, style: LineStyle)
    | Dot(x: real, y: real, radius: real, colour: int)
    | NodeIdText(x: real, y: real, id: int)
    | NodeMassText(x: real, y: real, mass: real)
    | StrengthText(x: real, y: real, figure: StrengthLabel)
    | CompressionText(x: real, y: real, stress: real, maxStress: real)
    | StressText(x: real, y: real, stress: real)

  /** Drawing layer: later layers are drawn over earlier ones. */
  function Layer(c: DrawCmd): nat {
    match c
    case Line(_, _, _, _, _) => 0
    case Dot(_, _, _, _) => 1
    case NodeIdText(_, _, _) => 2
    case NodeMassText(_, _, _) => 2
    case StrengthText(_, _, _) => 3
    case CompressionText(_, _, _, _) => 3
    case StressText(_, _, _) => 3
  }

  function Scale(suffix: string): real {
    if suffix == "M" then 1000000.0 else if suffix == "K" then 1000.0 else 1.0
  }

  // ---------------------------------------------------------------------------------------
  // Per-element rules

  /** The style of a beam's line: broken wins over hydraulic, hydraulic over plain. */
  function BeamLineStyle(b: BeamView): (s: LineStyle)
    ensures s == BEAM_BROKEN_STYLE <==> b.broken
    ensures s == BEAM_HYDRO_STYLE <==> !b.broken && b.hydro
    ensures s == BEAM_STYLE <==> !b.broken && !b.hydro
  {
    if b.broken then BEAM_BROKEN_STYLE else if b.hydro then BEAM_HYDRO_STYLE else BEAM_STYLE
  }

  /** A beam's line, drawn only when both its ends are in front of the camera. */
  function BeamLine(b: BeamView): (r: Option<DrawCmd>)
    ensures r.Some? <==> b.p1.z < 0.0 && b.p2.z < 0.0
    ensures r.Some? ==> r.value == Line(b.p1.x, b.p1.y, b.p2.x, b.p2.y, BeamLineStyle(b))
  {
    if b.p1.z < 0.0 && b.p2.z < 0.0 then Some(Line(b.p1.x, b.p1.y, b.p2.x, b.p2.y, BeamLineStyle(b))) else None
  }

  /** A node's dot, larger and in another colour for immovable nodes. */
  function NodeDot(n: NodeView): (r: Option<DrawCmd>)
    ensures r.Some? <==> n.pos.z < 0.0
    ensures r.Some? ==> r.value.Dot? && r.value.x == n.pos.x && r.value.y == n.pos.y
    ensures r.Some? ==> (r.value.radius == NODE_IMMOVABLE_RADIUS <==> n.immovable)
    ensures r.Some? ==> (r.value.colour == NODE_IMMOVABLE_COLOR <==> n.immovable)
    ensures r.Some? && !n.immovable ==> r.value.radius == NODE_RADIUS && r.value.colour == NODE_COLOR
    ensures r.Some? && n.immovable ==> r.value.radius == NODE_IMMOVABLE_RADIUS && r.value.colour == NODE_IMMOVABLE_COLOR
  {
    if n.pos.z < 0.0 then
      Some(if n.immovable then Dot(n.pos.x, n.pos.y, NODE_IMMOVABLE_RADIUS, NODE_IMMOVABLE_COLOR)
           else Dot(n.pos.x, n.pos.y, NODE_RADIUS, NODE_COLOR))
    else None
  }

  /** The strength figure shortened to millions or thousands where it is that large. */
  function ShortenStrength(strength: real): (l: StrengthLabel)
    ensures strength >= 1000000.0 ==> l.suffix == "M" && l.decimals == 2
    ensures 1000.0 <= strength < 1000000.0 ==> l.suffix == "K" && l.decimals == 1
    ensures strength < 1000.0 ==> l.suffix == "" && l.decimals == 2
    ensures l.suffix == "M" ==> l.value >= 1.0
    ensures l.suffix == "K" ==> 1.0 <= l.value < 1000.0
    ensures l.suffix == "" ==> l.value < 1000.0
  {
    if strength >= 1000000.0 then StrengthLabel(strength / 1000000.0, "M", 2)
    else if strength >= 1000.0 then StrengthLabel(strength / 1000.0, "K", 1)
    else StrengthLabel(strength, "", 2)
  }

  /** The shortened figure times its suffix's scale gives back the strength. */
  lemma ShortenStrengthRoundTrip(strength: real)
    ensures var l := ShortenStrength(strength); l.value * Scale(l.suffix) == strength
  {
  }

  /** Id text for a node in front of the camera, followed by its mass in the "nodes" view only. */
  function NodeLabels(view: DebugViewType, n: NodeView): (r: seq<DrawCmd>)
    ensures n.pos.z >= 0.0 ==> r == []
    ensures n.pos.z < 0.0 ==> |r| == (if view == DebugViewBeams then 1 else 2)
    ensures n.pos.z < 0.0 ==> r[0] == NodeIdText(n.pos.x, n.pos.y, n.id)
    ensures n.pos.z < 0.0 && view != DebugViewBeams ==> r[1] == NodeMassText(n.pos.x, n.pos.y, n.mass)
  {
    if n.pos.z >= 0.0 then []
    else if view != DebugViewBeams then [NodeIdText(n.pos.x, n.pos.y, n.id), NodeMassText(n.pos.x, n.pos.y, n.mass)]
    else [NodeIdText(n.pos.x, n.pos.y, n.id)]
  }

  /** Strength, compression and stress of a beam whose midpoint is in front of the camera. */
  function BeamLabels(b: BeamView): (r: seq<DrawCmd>)
    ensures b.mid.z >= 0.0 ==> r == []
    ensures b.mid.z < 0.0 ==> r == [StrengthText(b.mid.x, b.mid.y, ShortenStrength(b.strength)),
                                    CompressionText(b.mid.x, b.mid.y, b.stress, b.maxStress),
                                    StressText(b.mid.x, b.mid.y, b.stress)]
  {
    if b.mid.z >= 0.0 then []
    else [StrengthText(b.mid.x, b.mid.y, ShortenStrength(b.strength)),
          CompressionText(b.mid.x, b.mid.y, b.stress, b.maxStress),
          StressText(b.mid.x, b.mid.y, b.stress)]
  }

  // ---------------------------------------------------------------------------------------
  // Passes over all beams and nodes

  predicate AllInLayer(s: seq<DrawCmd>, k: nat) {
    forall c :: c in s ==> Layer(c) == k
  }

  function BeamLines(beams: seq<BeamView>): (r: seq<DrawCmd>)
    ensures |r| <= |beams|
    ensures AllInLayer(r, 0)
    ensures forall i :: 0 <= i < |beams| && BeamLine(beams[i]).Some? ==> BeamLine(beams[i]).value in r
    ensures forall c :: c in r ==> exists i :: 0 <= i < |beams| && BeamLine(beams[i]) == Some(c)
  {
    if |beams| == 0 then []
    else
      var rest := BeamLines(beams[1..]);
      assert forall i :: 1 <= i < |beams| ==> beams[i] == beams[1..][i - 1];
      OptionToSeq(BeamLine(beams[0])) + rest
  }

  function NodeDots(nodes: seq<NodeView>): (r: seq<DrawCmd>)
    ensures |r| <= |nodes|
    ensures AllInLayer(r, 1)
    ensures forall i :: 0 <= i < |nodes| && NodeDot(nodes[i]).Some? ==> NodeDot(nodes[i]).value in r
    ensures forall c :: c in r ==> exists i :: 0 <= i < |nodes| && NodeDot(nodes[i]) == Some(c)
  {
    if |nodes| == 0 then []
    else
      var rest := NodeDots(nodes[1..]);
      assert forall i :: 1 <= i < |nodes| ==> nodes[i] == nodes[1..][i - 1];
      OptionToSeq(NodeDot(nodes[0])) + rest
  }

  function AllNodeLabels(view: DebugViewType, nodes: seq<NodeView>): (r: seq<DrawCmd>)
    ensures AllInLayer(r, 2)
    ensures forall i, c :: 0 <= i < |nodes| && c in NodeLabels(view, nodes[i]) ==> c in r
    ensures forall c :: c in r ==> exists i :: 0 <= i < |nodes| && c in NodeLabels(view, nodes[i])
    ensures view == DebugViewBeams ==> forall c :: c in r ==> c.NodeIdText?
  {
    if |nodes| == 0 then []
    else
      var rest := AllNodeLabels(view, nodes[1..]);
      assert forall i :: 1 <= i < |nodes| ==> nodes[i] == nodes[1..][i - 1];
      NodeLabels(view, nodes[0]) + rest
  }

  function AllBeamLabels(beams: seq<BeamView>): (r: seq<DrawCmd>)
    ensures AllInLayer(r, 3)
    ensures forall i, c :: 0 <= i < |beams| && c in BeamLabels(beams[i]) ==> c in r
    ensures forall c :: c in r ==> exists i :: 0 <= i < |beams| && c in BeamLabels(beams[i])
  {
    if |beams| == 0 then []
    else
      var rest := AllBeamLabels(beams[1..]);
      assert forall i :: 1 <= i < |beams| ==> beams[i] == beams[1..][i - 1];
      BeamLabels(beams[0]) + rest
  }

  /**
   `UpdateDebugView`: nothing for the "none" view; otherwise beam lines, then node dots,
   then node labels (nodes and beams views), then beam labels (beams view only).
   */
  function UpdateDebugView(view: DebugViewType, beams: seq<BeamView>, nodes: seq<NodeView>): (r: seq<DrawCmd>)
    ensures view == DebugViewNone ==> r == []
    ensures view != DebugViewNone ==>
              forall i :: 0 <= i < |nodes| && NodeDot(nodes[i]).Some? ==> NodeDot(nodes[i]).value in r
    ensures view == DebugViewNodes || view == DebugViewBeams ==>
              forall i, c :: 0 <= i < |nodes| && c in NodeLabels(view, nodes[i]) ==> c in r
    ensures view == DebugViewBeams ==> forall i, c :: 0 <= i < |beams| && c in BeamLabels(beams[i]) ==> c in r
    ensures view == DebugViewSkeleton ==> forall c :: c in r ==> c.Line? || c.Dot?
    ensures view == DebugViewNodes ==> forall c :: c in r ==> !(c.StrengthText? || c.CompressionText? || c.StressText?)
    ensures view == DebugViewBeams ==> forall c :: c in r ==> !c.NodeMassText?
  {
    if view == DebugViewNone then []
    else
      var lines := BeamLines(beams);
      var dots := NodeDots(nodes);
      var nodeText := if view == DebugViewNodes || view == DebugViewBeams then AllNodeLabels(view, nodes) else [];
      var beamText := if view == DebugViewBeams then AllBeamLabels(beams) else [];
      InEitherPart(lines, dots, nodeText, beamText);
      lines + dots + nodeText + beamText
  }

  /** Membership in four concatenated passes. */
  lemma InEitherPart(a: seq<DrawCmd>, b: seq<DrawCmd>, c: seq<DrawCmd>, d: seq<DrawCmd>)
    ensures forall x :: x in a + b + c + d <==> x in a || x in b || x in c || x in d
  {
  }

  // ---------------------------------------------------------------------------------------
  // Properties of the whole overlay

  /** Later commands never sit on a lower layer than earlier ones. */
  predicate Layered(s: seq<DrawCmd>) {
    forall i, j :: 0 <= i < j < |s| ==> Layer(s[i]) <= Layer(s[j])
  }

  lemma {:induction false} LayeredAppend(a: seq<DrawCmd>, b: seq<DrawCmd>, k: nat)
    requires Layered(a) && (forall c :: c in a ==> Layer(c) <= k)
    requires AllInLayer(b, k)
    ensures Layered(a + b)
    ensures forall c :: c in a + b ==> Layer(c) <= k
  {
    var s := a + b;
    forall i, j | 0 <= i < j < |s|
      ensures Layer(s[i]) <= Layer(s[j])
    {
      if j < |a| {
        assert s[i] == a[i] && s[j] == a[j];
      } else if i < |a| {
        assert s[i] == a[i] && a[i] in a;
        assert s[j] == b[j - |a|] && b[j - |a|] in b;
      } else {
        assert s[i] == b[i - |a|] && b[i - |a|] in b;
        assert s[j] == b[j - |a|] && b[j - |a|] in b;
      }
    }
  }

  lemma LayeredOneLayer(s: seq<DrawCmd>, k: nat)
    requires AllInLayer(s, k)
    ensures Layered(s) && forall c :: c in s ==> Layer(c) <= k
  {
    forall i, j | 0 <= i < j < |s|
      ensures Layer(s[i]) <= Layer(s[j])
    {
      assert s[i] in s && s[j] in s;
    }
  }

  /** The overlay is drawn in layers: lines, then dots, then node labels, then beam labels. */
  lemma {:induction false} UpdateDebugViewIsLayered(view: DebugViewType, beams: seq<BeamView>, nodes: seq<NodeView>)
    ensures Layered(UpdateDebugView(view, beams, nodes))
  {
    if view != DebugViewNone {
      var lines := BeamLines(beams);
      var dots := NodeDots(nodes);
      var nodeText := if view == DebugViewNodes || view == DebugViewBeams then AllNodeLabels(view, nodes) else [];
      var beamText := if view == DebugViewBeams then AllBeamLabels(beams) else [];
      LayeredOneLayer(lines, 0);
      LayeredAppend(lines, dots, 1);
      LayeredAppend(lines + dots, nodeText, 2);
      LayeredAppend(lines + dots + nodeText, beamText, 3);
      assert UpdateDebugView(view, beams, nodes) == lines + dots + nodeText + beamText;
    }
  }

  /** In every view but "none", each beam with both ends in front of the camera gets its line. */
  lemma VisibleBeamIsDrawn(view: DebugViewType, beams: seq<BeamView>, nodes: seq<NodeView>, i: nat)
    requires view != DebugViewNone && i < |beams|
    requires beams[i].p1.z < 0.0 && beams[i].p2.z < 0.0
    ensures Line(beams[i].p1.x, beams[i].p1.y, beams[i].p2.x, beams[i].p2.y, BeamLineStyle(beams[i]))
              in UpdateDebugView(view, beams, nodes)
  {
  }

  /** Every line drawn is the line of some beam. */
  lemma DrawnLineBelongsToBeam(view: DebugViewType, beams: seq<BeamView>, nodes: seq<NodeView>, c: DrawCmd)
    requires c in UpdateDebugView(view, beams, nodes) && c.Line?
    ensures exists i :: 0 <= i < |beams| && BeamLine(beams[i]) == Some(c)
  {
    if view != DebugViewNone {
      var lines := BeamLines(beams);
      var dots := NodeDots(nodes);
      var nodeText := if view == DebugViewNodes || view == DebugViewBeams then AllNodeLabels(view, nodes) else [];
      var beamText := if view == DebugViewBeams then AllBeamLabels(beams) else [];
      assert UpdateDebugView(view, beams, nodes) == lines + dots + nodeText + beamText;
      assert c !in dots && c !in nodeText && c !in beamText by {
        assert Layer(c) == 0;
      }
    }
  }

  /**
   Every dot and every text drawn comes from a node or beam in front of the camera: nothing
   is labelled behind it.
   */
  lemma DrawnCommandHasSource(view: DebugViewType, beams: seq<BeamView>, nodes: seq<NodeView>, c: DrawCmd)
    requires c in UpdateDebugView(view, beams, nodes)
    ensures c.Dot? ==> exists i :: 0 <= i < |nodes| && NodeDot(nodes[i]) == Some(c)
    ensures c.NodeIdText? || c.NodeMassText? ==>
              exists i :: 0 <= i < |nodes| && nodes[i].pos.z < 0.0 && c in NodeLabels(view, nodes[i])
    ensures c.StrengthText? || c.CompressionText? || c.StressText? ==>
              exists i :: 0 <= i < |beams| && beams[i].mid.z < 0.0 && c in BeamLabels(beams[i])
  {
    var lines := BeamLines(beams);
    var dots := NodeDots(nodes);
    var nodeText := if view == DebugViewNodes || view == DebugViewBeams then AllNodeLabels(view, nodes) else [];
    var beamText := if view == DebugViewBeams then AllBeamLabels(beams) else [];
    assert UpdateDebugView(view, beams, nodes) == lines + dots + nodeText + beamText;
    InEitherPart(lines, dots, nodeText, beamText);
    if c.Dot? {
      assert c !in lines && c !in nodeText && c !in beamText by { assert Layer(c) == 1; }
    } else if c.NodeIdText? || c.NodeMassText? {
      assert c !in lines && c !in dots && c !in beamText by { assert Layer(c) == 2; }
      var i :| 0 <= i < |nodes| && c in NodeLabels(view, nodes[i]);
      assert nodes[i].pos.z < 0.0;
    } else if c.StrengthText? || c.CompressionText? || c.StressText? {
      assert c !in lines && c !in dots && c !in nodeText by { assert Layer(c) == 3; }
      var i :| 0 <= i < |beams| && c in BeamLabels(beams[i]);
      assert beams[i].mid.z < 0.0;
    }
  }

  /** In the "nodes" view a node in front of the camera gets both its id and its mass text. */
  lemma NodesViewShowsMass(beams: seq<BeamView>, nodes: seq<NodeView>, i: nat)
    requires i < |nodes| && nodes[i].pos.z < 0.0
    ensures NodeIdText(nodes[i].pos.x, nodes[i].pos.y, nodes[i].id) in UpdateDebugView(DebugViewNodes, beams, nodes)
    ensures NodeMassText(nodes[i].pos.x, nodes[i].pos.y, nodes[i].mass) in UpdateDebugView(DebugViewNodes, beams, nodes)
  {
    var labels := NodeLabels(DebugViewNodes, nodes[i]);
    assert labels[0] in labels && labels[1] in labels;
  }
}
