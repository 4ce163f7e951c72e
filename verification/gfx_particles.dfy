/**
 Per-node particle effects of an actor, decided once per frame from each node's physics
 state: water dripping off a node that has just left the water (and vapour if the node is
 hot), splashes and ripples at the surface, and ground-contact effects chosen by the kind
 of ground hit (dust, clumps, tyre smoke and skid marks, sparks). Particle pools that do
 not exist simply receive nothing. Particle allocations are returned as values.
 */
module GfxParticles {
  import opened Common

  datatype Vec3 = Vec3(x: real, y: real, z: real)

  function HalfOf(v: Vec3): Vec3 {
    Vec3(v.x / 2.0, v.y / 2.0, v.z / 2.0)
  }

  function SquaredLength(v: Vec3): real {
    v.x * v.x + v.y * v.y + v.z * v.z
  }

  /** The particle effect class of a ground model; `FxOther` covers the remaining kinds. */
  datatype FxType = FxDusty | FxClumpy | FxHard | FxOther

  datatype GroundModel = GroundModel(fxType: FxType, fxColour: int)

  /** What the graphics side reads of a physics node. */
  datatype PhysNode = PhysNode(
    pos: Vec3,
    vel: Vec3,
    underWater: bool,
    collisionGround: Option<GroundModel>,
    isWheel: int,
    wheelId: int,
    collisionSlip: real)

  /** Per-node graphics state. */
  datatype NodeGfx = NodeGfx(
    nodeIdx: nat,
    wetTimeSec: real,
    noParticles: bool,
    mayGetWet: bool,
    isHot: bool,
    noSparks: bool,
    underWaterPrev: bool)

  /** The wet timer's value for a dry node. */
  const DRY: real := -1.0
  /** A wet node dries off after this many seconds. */
  const DRY_OFF_SEC: real := 5.0
  /** Ground slip above which a wheel screeches, smokes and leaves skid marks. */
  const SKID_THRESHOLD: real := 10.0
  /** Ground slip above which a non-wheel node throws sparks. */
  const SPARKS_SLIP: real := 1.0

  /** `NodeGfx(node_idx)`: a new node is dry, may emit particles, never gets wet, makes no sparks. */
  function NewNodeGfx(nodeIdx: nat): (g: NodeGfx)
    requires nodeIdx <= 0xFFFF
    ensures g.nodeIdx == nodeIdx
    ensures g.wetTimeSec == DRY
    ensures !g.noParticles && !g.mayGetWet && !g.isHot && g.noSparks && !g.underWaterPrev
  {
    NodeGfx(nodeIdx, -1.0, false, false, false, true, false)
  }

  /** The one-shot allocations the particle pools receive. */
  datatype Particle =
    | Drip(pos: Vec3, vel: Vec3, wetTime: real)
    | Vapour(pos: Vec3, vel: Vec3, wetTime: real)
    | Splash(pos: Vec3, vel: Vec3)
    | Ripple(pos: Vec3, vel: Vec3)
    | Dust(pos: Vec3, vel: Vec3, colour: int)
    | Clump(pos: Vec3, vel: Vec3, colour: int)
    | Smoke(pos: Vec3, vel: Vec3)
    | Sparks(pos: Vec3, vel: Vec3)

  /** Which particle pools exist. */
  datatype Pools = Pools(drip: bool, misc: bool, splash: bool, ripple: bool, sparks: bool, clump: bool)

  /** What the skid-mark code reads of a wheel. */
  datatype WheelContact = WheelContact(
    isSkiding: bool,
    lastContactInner: Vec3,
    lastContactOuter: Vec3,
    lastContactType: int,
    lastSlip: real,
    lastGroundModel: Option<GroundModel>)

  // ---------------------------------------------------------------------------------------
  // Wet timer

  predicate WetTimerValid(t: real) {
    t == DRY || 0.0 <= t <= DRY_OFF_SEC
  }

  datatype WetStep = WetStep(time: real, dripping: bool)

  /**
   The wet timer: leaving the water restarts it at 0; while it runs it advances by `dt`
   and reverts to dry once past 5 seconds; the node drips exactly while it keeps running.
   */
  function WetTimer(t: real, wasUnderWater: bool, underWater: bool, dt: real): (r: WetStep)
    ensures wasUnderWater && !underWater ==> r == (if dt > DRY_OFF_SEC then WetStep(DRY, false) else WetStep(dt, true))
    ensures !(wasUnderWater && !underWater) && t == DRY ==> r == WetStep(DRY, false)
    ensures !(wasUnderWater && !underWater) && t != DRY ==>
              r == (if t + dt > DRY_OFF_SEC then WetStep(DRY, false) else WetStep(t + dt, true))
    ensures !r.dripping ==> r.time == DRY
  {
    var t0 := if !underWater && wasUnderWater then 0.0 else t;
    if t0 != -1.0 then
      var t1 := t0 + dt;
      if t1 > 5.0 then WetStep(-1.0, false) else WetStep(t1, true)
    else
      WetStep(t0, false)
  }

  /** With a non-negative frame time the timer stays dry or within [0, 5]. */
  lemma WetTimerStaysValid(t: real, wasUnderWater: bool, underWater: bool, dt: real)
    requires dt >= 0.0 && WetTimerValid(t)
    ensures WetTimerValid(WetTimer(t, wasUnderWater, underWater, dt).time)
  {
  }

  /** With a positive frame time a dripping node's timer lies in (0, 5]. */
  lemma DrippingTimeInRange(t: real, wasUnderWater: bool, underWater: bool, dt: real)
    requires dt > 0.0 && WetTimerValid(t)
    requires WetTimer(t, wasUnderWater, underWater, dt).dripping
    ensures 0.0 < WetTimer(t, wasUnderWater, underWater, dt).time <= DRY_OFF_SEC
  {
  }

  /** The timer after `frames` frames spent out of the water. */
  function StayOut(t: real, dt: real, frames: nat): real
    decreases frames
  {
    if frames == 0 then t else StayOut(WetTimer(t, false, false, dt).time, dt, frames - 1)
  }

  lemma {:induction false} StayOutDryStaysDry(dt: real, frames: nat)
    ensures StayOut(DRY, dt, frames) == DRY
    decreases frames
  {
    if frames > 0 {
      StayOutDryStaysDry(dt, frames - 1);
    }
  }

  lemma {:induction false} StayOutFromWet(t: real, dt: real, frames: nat)
    requires dt > 0.0 && 0.0 <= t <= DRY_OFF_SEC
    requires t + frames as real * dt > DRY_OFF_SEC
    ensures StayOut(t, dt, frames) == DRY
    decreases frames
  {
    assert frames > 0;
    var t1 := WetTimer(t, false, false, dt).time;
    if t1 == DRY {
      StayOutDryStaysDry(dt, frames - 1);
    } else {
      assert t1 == t + dt;
      assert (frames - 1) as real * dt == frames as real * dt - dt;
      StayOutFromWet(t1, dt, frames - 1);
    }
  }

  /** A node that stays out of the water is dry again once more than 5 seconds of frames have passed. */
  lemma DriesOff(t: real, dt: real, frames: nat)
    requires dt > 0.0 && WetTimerValid(t)
    requires frames as real * dt > DRY_OFF_SEC
    ensures StayOut(t, dt, frames) == DRY
  {
    if t == DRY {
      StayOutDryStaysDry(dt, frames);
    } else {
      StayOutFromWet(t, dt, frames);
    }
  }

  // ---------------------------------------------------------------------------------------
  // One node

  /** The particle allocations for one node, one optional slot per kind, in emission order. */
  datatype NodeEffects = NodeEffects(
    drip: Option<Particle>,
    vapour: Option<Particle>,
    splash: Option<Particle>,
    ripple: Option<Particle>,
    dust: Option<Particle>,
    clump: Option<Particle>,
    smoke: Option<Particle>,
    sparks: Option<Particle>)

  function EffectsList(fx: NodeEffects): seq<Particle> {
    OptionToSeq(fx.drip) + OptionToSeq(fx.vapour) + OptionToSeq(fx.splash) + OptionToSeq(fx.ripple)
    + OptionToSeq(fx.dust) + OptionToSeq(fx.clump) + OptionToSeq(fx.smoke) + OptionToSeq(fx.sparks)
  }

  datatype NodeUpdate = NodeUpdate(node: NodeGfx, fx: NodeEffects, wheels: seq<WheelContact>)

  /** Whether the node takes part in the wet/dry cycle. */
  predicate WetEffectsApply(nfx: NodeGfx) {
    nfx.mayGetWet && !nfx.noParticles
  }

  /** The ground the node touches, if particles are allowed on it. */
  predicate HitsGround(nfx: NodeGfx, n: PhysNode, fx: FxType) {
    !nfx.noParticles && n.collisionGround.Some? && n.collisionGround.value.fxType == fx
  }

  predicate ValidWheelRefs(n: PhysNode, wheels: seq<WheelContact>) {
    n.isWheel != 0 ==> 0 <= n.wheelId < |wheels|
  }

  /** A skidding wheel records its contact on the inner rim for even kinds, outer for odd. */
  function SkidContact(w: WheelContact, n: PhysNode, gm: GroundModel): WheelContact {
    var kind := CRem2(n.isWheel);
    var w1 := if kind == 0 then w.(lastContactInner := n.pos) else w.(lastContactOuter := n.pos);
    w1.(isSkiding := true, lastContactType := kind, lastSlip := n.collisionSlip, lastGroundModel := Some(gm))
  }

  datatype GroundFx = GroundFx(
    dust: Option<Particle>,
    clump: Option<Particle>,
    smoke: Option<Particle>,
    sparks: Option<Particle>,
    wheels: seq<WheelContact>)

  /** The ground-collision effects of one node and its effect on the wheel table. */
  function GroundEffects(nfx: NodeGfx, n: PhysNode, pools: Pools, useSkidmarks: bool, wheels: seq<WheelContact>)
    : (r: GroundFx)
    requires ValidWheelRefs(n, wheels)
    ensures r.dust.Some? <==> HitsGround(nfx, n, FxDusty) && pools.misc
    ensures r.dust.Some? ==> r.dust == Some(Dust(n.pos, HalfOf(n.vel), n.collisionGround.value.fxColour))
    ensures r.clump.Some? <==> HitsGround(nfx, n, FxClumpy) && pools.clump && SquaredLength(n.vel) > 1.0
    ensures r.clump.Some? ==> r.clump == Some(Clump(n.pos, HalfOf(n.vel), n.collisionGround.value.fxColour))
    ensures r.smoke.Some? <==> HitsGround(nfx, n, FxHard) && n.isWheel != 0 && n.collisionSlip > SKID_THRESHOLD && pools.misc
    ensures r.sparks.Some? <==>
              HitsGround(nfx, n, FxHard) && n.isWheel == 0 && !nfx.noSparks && n.collisionSlip > SPARKS_SLIP && pools.sparks
    ensures r.smoke.Some? ==> r.smoke == Some(Smoke(n.pos, n.vel))
    ensures r.sparks.Some? ==> r.sparks == Some(Sparks(n.pos, n.vel))
    ensures |r.wheels| == |wheels|
    ensures !(HitsGround(nfx, n, FxHard) && n.isWheel != 0 && useSkidmarks) ==> r.wheels == wheels
    ensures HitsGround(nfx, n, FxHard) && n.isWheel != 0 && useSkidmarks ==>
              && (forall j :: 0 <= j < |wheels| && j != n.wheelId ==> r.wheels[j] == wheels[j])
              && (r.wheels[n.wheelId].isSkiding <==> n.collisionSlip > SKID_THRESHOLD)
              && (n.collisionSlip > SKID_THRESHOLD ==> WheelRecordsContact(wheels[n.wheelId], r.wheels[n.wheelId], n))
              && (n.collisionSlip <= SKID_THRESHOLD ==> r.wheels[n.wheelId] == wheels[n.wheelId].(isSkiding := false))
  {
    if n.collisionGround.None? || nfx.noParticles then GroundFx(None, None, None, None, wheels)
    else
      var gm := n.collisionGround.value;
      match gm.fxType
      case FxDusty =>
        GroundFx(if pools.misc then Some(Dust(n.pos, HalfOf(n.vel), gm.fxColour)) else None, None, None, None, wheels)
      case FxClumpy =>
        GroundFx(None, if pools.clump && SquaredLength(n.vel) > 1.0 then Some(Clump(n.pos, HalfOf(n.vel), gm.fxColour)) else None,
                 None, None, wheels)
      case FxHard =>
        if n.isWheel != 0 then
          if n.collisionSlip > SKID_THRESHOLD then
            GroundFx(None, None, if pools.misc then Some(Smoke(n.pos, n.vel)) else None, None,
                     if useSkidmarks then wheels[n.wheelId := SkidContact(wheels[n.wheelId], n, gm)] else wheels)
          else
            GroundFx(None, None, None, None,
                     if useSkidmarks then wheels[n.wheelId := wheels[n.wheelId].(isSkiding := false)] else wheels)
        else
          GroundFx(None, None, None,
                   if !nfx.noSparks && n.collisionSlip > SPARKS_SLIP && pools.sparks then Some(Sparks(n.pos, n.vel)) else None,
                   wheels)
      case FxOther => GroundFx(None, None, None, None, wheels)
  }

  /** A node's own state after the frame: only the wet timer and the under-water memory change. */
  function NodeStateStep(nfx: NodeGfx, n: PhysNode, dt: real): (g: NodeGfx)
    ensures g == nfx.(wetTimeSec := g.wetTimeSec, underWaterPrev := n.underWater)
    ensures WetEffectsApply(nfx) ==> g.wetTimeSec == WetTimer(nfx.wetTimeSec, nfx.underWaterPrev, n.underWater, dt).time
    ensures !WetEffectsApply(nfx) ==> g.wetTimeSec == nfx.wetTimeSec
  {
    var wetTime := if nfx.mayGetWet && !nfx.noParticles
                   then WetTimer(nfx.wetTimeSec, nfx.underWaterPrev, n.underWater, dt).time
                   else nfx.wetTimeSec;
    nfx.(wetTimeSec := wetTime, underWaterPrev := n.underWater)
  }

  /** The per-node body of `UpdateParticles`. */
  function NodeStep(nfx: NodeGfx, n: PhysNode, pools: Pools, useSkidmarks: bool, waterHeight: real, dt: real,
                    wheels: seq<WheelContact>): (r: NodeUpdate)
    requires ValidWheelRefs(n, wheels)
    ensures r.node == NodeStateStep(nfx, n, dt)
    // wet effects
    ensures r.fx.drip.Some? <==> WetEffectsApply(nfx) && pools.drip && WetTimer(nfx.wetTimeSec, nfx.underWaterPrev, n.underWater, dt).dripping
    ensures r.fx.drip.Some? ==> r.fx.drip == Some(Drip(n.pos, n.vel, r.node.wetTimeSec))
    ensures r.fx.vapour.Some? <==>
              WetEffectsApply(nfx) && nfx.isHot && pools.misc && WetTimer(nfx.wetTimeSec, nfx.underWaterPrev, n.underWater, dt).dripping
    ensures r.fx.vapour.Some? ==> r.fx.vapour == Some(Vapour(n.pos, n.vel, r.node.wetTimeSec))
    // water surface
    ensures r.fx.splash.Some? <==> n.underWater && !nfx.noParticles && waterHeight - n.pos.y < 0.2
                                   && SquaredLength(n.vel) > 4.0 && pools.splash
    ensures r.fx.ripple.Some? <==> n.underWater && !nfx.noParticles && waterHeight - n.pos.y < 0.2
                                   && SquaredLength(n.vel) > 4.0 && pools.ripple
    ensures r.fx.splash.Some? ==> r.fx.splash == Some(Splash(n.pos, n.vel))
    ensures r.fx.ripple.Some? ==> r.fx.ripple == Some(Ripple(n.pos, n.vel))
    // ground contact is decided by `GroundEffects`
    ensures var g := GroundEffects(nfx, n, pools, useSkidmarks, wheels);
      r.fx.dust == g.dust && r.fx.clump == g.clump && r.fx.smoke == g.smoke && r.fx.sparks == g.sparks
      && r.wheels == g.wheels
  {
    var wet := WetTimer(nfx.wetTimeSec, nfx.underWaterPrev, n.underWater, dt);
    var wetApplies := nfx.mayGetWet && !nfx.noParticles;
    var wetTime := if wetApplies then wet.time else nfx.wetTimeSec;
    var dripping := wetApplies && wet.dripping && nfx.mayGetWet;
    var drip := if dripping && pools.drip then Some(Drip(n.pos, n.vel, wetTime)) else None;
    var vapour := if dripping && nfx.isHot && pools.misc then Some(Vapour(n.pos, n.vel, wetTime)) else None;
    var surface := n.underWater && !nfx.noParticles && waterHeight - n.pos.y < 0.2 && SquaredLength(n.vel) > 4.0;
    var splash := if surface && pools.splash then Some(Splash(n.pos, n.vel)) else None;
    var ripple := if surface && pools.ripple then Some(Ripple(n.pos, n.vel)) else None;
    var g := GroundEffects(nfx, n, pools, useSkidmarks, wheels);
    NodeUpdate(
      NodeStateStep(nfx, n, dt),
      NodeEffects(drip, vapour, splash, ripple, g.dust, g.clump, g.smoke, g.sparks),
      g.wheels)
  }

  /**
   A skidding wheel's record after a hard contact: skidding, the contact point on the rim
   side given by the wheel kind's parity, that parity as contact type, and the slip and
   ground model of the contact.
   */
  ghost predicate WheelRecordsContact(before: WheelContact, after: WheelContact, n: PhysNode) {
    && after.isSkiding
    && after.lastContactType == CRem2(n.isWheel)
    && after.lastSlip == n.collisionSlip
    && after.lastGroundModel == n.collisionGround
    && (n.isWheel % 2 == 0 ==> after.lastContactInner == n.pos && after.lastContactOuter == before.lastContactOuter)
    && (n.isWheel % 2 != 0 ==> after.lastContactOuter == n.pos && after.lastContactInner == before.lastContactInner)
  }

  // ---------------------------------------------------------------------------------------
  // All nodes

  /** The water height `UpdateParticles` compares against: 0 when the terrain has no water. */
  function WaterHeight(staticWaterHeight: Option<real>): (h: real)
    ensures staticWaterHeight.Some? ==> h == staticWaterHeight.value
    ensures staticWaterHeight.None? ==> h == 0.0
  {
    match staticWaterHeight
    case None => 0.0
    case Some(h) => h
  }

  ghost predicate ValidRefs(gfx: seq<NodeGfx>, phys: seq<PhysNode>, wheels: seq<WheelContact>) {
    && (forall k :: 0 <= k < |gfx| ==> gfx[k].nodeIdx < |phys|)
    && (forall i :: 0 <= i < |phys| ==> ValidWheelRefs(phys[i], wheels))
  }

  datatype ParticlesUpdate = ParticlesUpdate(nodes: seq<NodeGfx>, particles: seq<Particle>, wheels: seq<WheelContact>)

  /** `UpdateParticles`: every node in turn, the wheel table threaded through. */
  function UpdateParticles(gfx: seq<NodeGfx>, phys: seq<PhysNode>, pools: Pools, useSkidmarks: bool,
                           staticWaterHeight: Option<real>, dt: real, wheels: seq<WheelContact>): (r: ParticlesUpdate)
    requires ValidRefs(gfx, phys, wheels)
    ensures |r.nodes| == |gfx|
    ensures |r.wheels| == |wheels|
    ensures forall k :: 0 <= k < |gfx| ==>
      r.nodes[k] == NodeStateStep(gfx[k], phys[gfx[k].nodeIdx], dt)
    ensures forall k :: 0 <= k < |gfx| ==> r.nodes[k].underWaterPrev == phys[gfx[k].nodeIdx].underWater
    decreases |gfx|
  {
    if |gfx| == 0 then ParticlesUpdate([], [], wheels)
    else
      var step := NodeStep(gfx[0], phys[gfx[0].nodeIdx], pools, useSkidmarks, WaterHeight(staticWaterHeight), dt, wheels);
      assert forall i :: 0 <= i < |phys| ==> ValidWheelRefs(phys[i], step.wheels);
      var rest := UpdateParticles(gfx[1..], phys, pools, useSkidmarks, staticWaterHeight, dt, step.wheels);
      ParticlesUpdate([step.node] + rest.nodes, EffectsList(step.fx) + rest.particles, rest.wheels)
  }

  /** One frame keeps every node's wet timer valid when the frame time is non-negative. */
  lemma UpdateKeepsWetTimersValid(gfx: seq<NodeGfx>, phys: seq<PhysNode>, pools: Pools, useSkidmarks: bool,
                                  staticWaterHeight: Option<real>, dt: real, wheels: seq<WheelContact>)
    requires ValidRefs(gfx, phys, wheels)
    requires dt >= 0.0
    requires forall k :: 0 <= k < |gfx| ==> WetTimerValid(gfx[k].wetTimeSec)
    ensures var r := UpdateParticles(gfx, phys, pools, useSkidmarks, staticWaterHeight, dt, wheels);
      forall k :: 0 <= k < |r.nodes| ==> WetTimerValid(r.nodes[k].wetTimeSec)
  {
    var r := UpdateParticles(gfx, phys, pools, useSkidmarks, staticWaterHeight, dt, wheels);
    forall k | 0 <= k < |r.nodes|
      ensures WetTimerValid(r.nodes[k].wetTimeSec)
    {
      var n := phys[gfx[k].nodeIdx];
      WetTimerStaysValid(gfx[k].wetTimeSec, gfx[k].underWaterPrev, n.underWater, dt);
    }
  }

  /** A node flagged "no particles" emits nothing and leaves the wheels alone. */
  lemma NoParticlesNodeIsQuiet(nfx: NodeGfx, n: PhysNode, pools: Pools, useSkidmarks: bool, waterHeight: real, dt: real,
                               wheels: seq<WheelContact>)
    requires ValidWheelRefs(n, wheels) && nfx.noParticles
    ensures var r := NodeStep(nfx, n, pools, useSkidmarks, waterHeight, dt, wheels);
      EffectsList(r.fx) == [] && r.wheels == wheels && r.node == nfx.(underWaterPrev := n.underWater)
  {
  }

  const NoPools := Pools(false, false, false, false, false, false)

  /** Without any particle pool no particle is ever allocated. */
  lemma {:induction false} NoPoolsNoParticles(gfx: seq<NodeGfx>, phys: seq<PhysNode>, useSkidmarks: bool,
                                             staticWaterHeight: Option<real>, dt: real, wheels: seq<WheelContact>)
    requires ValidRefs(gfx, phys, wheels)
    ensures UpdateParticles(gfx, phys, NoPools, useSkidmarks, staticWaterHeight, dt, wheels).particles == []
    decreases |gfx|
  {
    if |gfx| > 0 {
      var step := NodeStep(gfx[0], phys[gfx[0].nodeIdx], NoPools, useSkidmarks, WaterHeight(staticWaterHeight), dt, wheels);
      assert EffectsList(step.fx) == [];
      assert forall i :: 0 <= i < |phys| ==> ValidWheelRefs(phys[i], step.wheels);
      NoPoolsNoParticles(gfx[1..], phys, useSkidmarks, staticWaterHeight, dt, step.wheels);
    }
  }

  /** With skid marks switched off the wheel table comes back untouched. */
  lemma {:induction false} NoSkidmarksKeepsWheels(gfx: seq<NodeGfx>, phys: seq<PhysNode>, pools: Pools,
                                                 staticWaterHeight: Option<real>, dt: real, wheels: seq<WheelContact>)
    requires ValidRefs(gfx, phys, wheels)
    ensures UpdateParticles(gfx, phys, pools, false, staticWaterHeight, dt, wheels).wheels == wheels
    decreases |gfx|
  {
    if |gfx| > 0 {
      var step := NodeStep(gfx[0], phys[gfx[0].nodeIdx], pools, false, WaterHeight(staticWaterHeight), dt, wheels);
      assert step.wheels == wheels;
      NoSkidmarksKeepsWheels(gfx[1..], phys, pools, staticWaterHeight, dt, wheels);
    }
  }

  /** Whether a node's hard-ground contact writes wheel entry `j` of the skid-mark table. */
  predicate TouchesWheel(nfx: NodeGfx, n: PhysNode, useSkidmarks: bool, j: int) {
    useSkidmarks && HitsGround(nfx, n, FxHard) && n.isWheel != 0 && n.wheelId == j
  }

  /** A wheel entry that no node of the frame writes comes back unchanged. */
  lemma {:induction false} UntouchedWheelKept(gfx: seq<NodeGfx>, phys: seq<PhysNode>, pools: Pools, useSkidmarks: bool,
                                             staticWaterHeight: Option<real>, dt: real, wheels: seq<WheelContact>, j: int)
    requires ValidRefs(gfx, phys, wheels) && 0 <= j < |wheels|
    requires forall k :: 0 <= k < |gfx| ==> !TouchesWheel(gfx[k], phys[gfx[k].nodeIdx], useSkidmarks, j)
    ensures UpdateParticles(gfx, phys, pools, useSkidmarks, staticWaterHeight, dt, wheels).wheels[j] == wheels[j]
    decreases |gfx|
  {
    if |gfx| > 0 {
      var step := NodeStep(gfx[0], phys[gfx[0].nodeIdx], pools, useSkidmarks, WaterHeight(staticWaterHeight), dt, wheels);
      assert !TouchesWheel(gfx[0], phys[gfx[0].nodeIdx], useSkidmarks, j);
      assert step.wheels[j] == wheels[j];
      assert forall i :: 0 <= i < |phys| ==> ValidWheelRefs(phys[i], step.wheels);
      assert forall k :: 0 <= k < |gfx| - 1 ==> gfx[1..][k] == gfx[k + 1];
      UntouchedWheelKept(gfx[1..], phys, pools, useSkidmarks, staticWaterHeight, dt, step.wheels, j);
    }
  }

  /**
   The last node of the frame that writes a wheel entry decides it: the wheel is skidding
   iff that node's slip is above the skid threshold, and then it holds that node's slip,
   contact type and ground model, and that node's position as the contact point of the
   rim side its parity names.
   */
  lemma {:induction false} LastContactDecidesWheel(gfx: seq<NodeGfx>, phys: seq<PhysNode>, pools: Pools, useSkidmarks: bool,
                                                  staticWaterHeight: Option<real>, dt: real, wheels: seq<WheelContact>,
                                                  j: int, k: nat)
    requires ValidRefs(gfx, phys, wheels) && k < |gfx|
    requires TouchesWheel(gfx[k], phys[gfx[k].nodeIdx], useSkidmarks, j)
    requires forall m :: k < m < |gfx| ==> !TouchesWheel(gfx[m], phys[gfx[m].nodeIdx], useSkidmarks, j)
    ensures 0 <= j < |wheels|
    ensures var w := UpdateParticles(gfx, phys, pools, useSkidmarks, staticWaterHeight, dt, wheels).wheels[j];
      var n := phys[gfx[k].nodeIdx];
      && (w.isSkiding <==> n.collisionSlip > SKID_THRESHOLD)
      && (n.collisionSlip > SKID_THRESHOLD ==>
            w.lastSlip == n.collisionSlip && w.lastContactType == CRem2(n.isWheel) && w.lastGroundModel == n.collisionGround)
      && (n.collisionSlip > SKID_THRESHOLD && n.isWheel % 2 == 0 ==> w.lastContactInner == n.pos)
      && (n.collisionSlip > SKID_THRESHOLD && n.isWheel % 2 != 0 ==> w.lastContactOuter == n.pos)
    decreases |gfx|
  {
    assert ValidWheelRefs(phys[gfx[k].nodeIdx], wheels);
    var step := NodeStep(gfx[0], phys[gfx[0].nodeIdx], pools, useSkidmarks, WaterHeight(staticWaterHeight), dt, wheels);
    assert forall i :: 0 <= i < |phys| ==> ValidWheelRefs(phys[i], step.wheels);
    assert forall m :: 0 <= m < |gfx| - 1 ==> gfx[1..][m] == gfx[m + 1];
    if k == 0 {
      UntouchedWheelKept(gfx[1..], phys, pools, useSkidmarks, staticWaterHeight, dt, step.wheels, j);
    } else {
      LastContactDecidesWheel(gfx[1..], phys, pools, useSkidmarks, staticWaterHeight, dt, step.wheels, j, k - 1);
    }
  }
}
