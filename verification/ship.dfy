/** The local ship of src/components/Ship.tsx: the W/A/S/D key flags, the
    per-frame velocity update (thrust, turn, drag, speed caps), the outbound
    pose message, and the rock-collision damage rule. The physics engine is
    outside the model: the ship's heading (the unit forward vector its
    orientation yields), its velocities, the frame time and the current speed
    (`currentVelocity.length()`, a square root) are inputs. */
module Ship {
  import opened Optional
  import opened Vectors
  import opened Catalog
  import opened Roster
  import Sync

  // ---------------------------------------------------------------------
  // Key flags

  datatype Controls = Controls(forward: bool, backward: bool, left: bool, right: bool)

  const Released := Controls(false, false, false, false)

  /** Key down: W, S, A and D raise their own flag; other keys change
      nothing. */
  function KeyDown(c: Controls, code: string): (r: Controls)
    ensures r.forward == (c.forward || code == "KeyW")
    ensures r.backward == (c.backward || code == "KeyS")
    ensures r.left == (c.left || code == "KeyA")
    ensures r.right == (c.right || code == "KeyD")
  {
    match code
    case "KeyW" => c.(forward := true)
    case "KeyS" => c.(backward := true)
    case "KeyA" => c.(left := true)
    case "KeyD" => c.(right := true)
    case _ => c
  }

  /** Key up: W, S, A and D lower their own flag; other keys change
      nothing. */
  function KeyUp(c: Controls, code: string): (r: Controls)
    ensures r.forward == (c.forward && code != "KeyW")
    ensures r.backward == (c.backward && code != "KeyS")
    ensures r.left == (c.left && code != "KeyA")
    ensures r.right == (c.right && code != "KeyD")
  {
    match code
    case "KeyW" => c.(forward := false)
    case "KeyS" => c.(backward := false)
    case "KeyA" => c.(left := false)
    case "KeyD" => c.(right := false)
    case _ => c
  }

  /** Pressing and releasing a key that was up leaves the flags as they
      were. */
  lemma PressThenReleaseRestores(c: Controls, code: string)
    requires code == "KeyW" ==> !c.forward
    requires code == "KeyS" ==> !c.backward
    requires code == "KeyA" ==> !c.left
    requires code == "KeyD" ==> !c.right
    ensures KeyUp(KeyDown(c, code), code) == c
  {
  }

  // ---------------------------------------------------------------------
  // Velocity update

  /** The scale factor of three.js `setLength(target)` on a vector of length
      `len`: normalize (dividing by the length, or by 1 for the zero vector)
      then multiply by the target. */
  function LengthFactor(len: real, target: real): real {
    target / (if len == 0.0 then 1.0 else len)
  }

  /** `setLength(target)` on `v`, whose length `len` the caller supplies. */
  function SetLength(v: Vec3, len: real, target: real): (r: Vec3)
    requires len >= 0.0 && len * len == Norm2(v)
    ensures r == Scale(v, LengthFactor(len, target))
    ensures Norm2(r) == if len == 0.0 then 0.0 else target * target
    ensures target >= 0.0 ==> LengthFactor(len, target) >= 0.0
  {
    var k := LengthFactor(len, target);
    ScaleNorm2(v, k);
    assert len != 0.0 ==> k * len == target;
    assert k * k * (len * len) == (k * len) * (k * len);
    Scale(v, k)
  }

  /** The velocity handed to the physics engine: the vertical component
      dropped. */
  function Level(v: Vec3): Vec3 {
    Vec3(v.x, 0.0, v.z)
  }

  /** A velocity together with its length. */
  datatype Sized = Sized(v: Vec3, len: real)

  /** `len` is the length of `v`. */
  ghost predicate Measured(s: Sized) {
    s.len >= 0.0 && s.len * s.len == Norm2(s.v)
  }

  /** `setLength(target)` on a measured velocity, with the new length. */
  function Resize(s: Sized, target: real): (r: Sized)
    requires Measured(s)
    ensures Measured(r)
    ensures r.v == Scale(s.v, LengthFactor(s.len, target))
    ensures 0.0 <= target ==> r.len <= target && LengthFactor(s.len, target) >= 0.0
    ensures 0.0 <= target && s.len != 0.0 ==> r.len == target
  {
    var v := SetLength(s.v, s.len, target);
    var target' := Abs(target);
    assert target' * target' == target * target;
    Sized(v, if s.len == 0.0 then 0.0 else target')
  }

  /** The first cap: above `limit` the velocity is cut back to exactly
      `limit`, keeping its direction. */
  function CapSpeed(s: Sized, limit: real): (r: Sized)
    requires Measured(s)
    ensures Measured(r)
    ensures s.len <= limit ==> r == s
    ensures s.len > limit ==> r.v == Scale(s.v, LengthFactor(s.len, limit))
    ensures 0.0 <= limit < s.len ==> r.len == limit && r.v == Scale(s.v, limit / s.len)
    ensures 0.0 <= limit ==> r.len <= limit && r.len <= s.len
  {
    if s.len > limit then Resize(s, limit) else s
  }

  /** The second cap: when the velocity points against `probe` and `over`
      holds, it is cut back to exactly `limit`, keeping its direction. */
  function ReverseCap(s: Sized, probe: Vec3, limit: real, over: bool): (r: Sized)
    requires Measured(s)
    ensures Measured(r)
    ensures !(over && Dot(s.v, probe) < 0.0) ==> r == s
    ensures over && Dot(s.v, probe) < 0.0 ==> r.v == Scale(s.v, LengthFactor(s.len, limit))
    ensures 0.0 <= limit && over && Dot(s.v, probe) < 0.0 ==>
              s.len != 0.0 && r.len == limit && r.v == Scale(s.v, limit / s.len)
    ensures 0.0 <= limit && Dot(r.v, probe) < 0.0 ==> Dot(s.v, probe) < 0.0
  {
    if over && Dot(s.v, probe) < 0.0 then
      ScaleDot(s.v, LengthFactor(s.len, limit), probe);
      StillOnlyIfZero(s, probe);
      Resize(s, limit)
    else s
  }

  /** A velocity of length 0 points against nothing. */
  lemma StillOnlyIfZero(s: Sized, probe: Vec3)
    requires Measured(s)
    ensures s.len == 0.0 ==> Dot(s.v, probe) == 0.0
  {
    if s.len == 0.0 {
      NullVector(s.v);
    }
  }

  /** The factor by which the two caps together scale a velocity of length
      `len`, in closed form. `against` says whether the velocity points
      against the probe. Above `maxSpeed` the first cap scales by
      `maxSpeed / len`; when the velocity, still pointing against the probe
      after that, is longer than `backwardMaxSpeed`, the second cap brings it
      to `backwardMaxSpeed`, scaling by `backwardMaxSpeed / len` overall. */
  function CapFactor(len: real, against: bool, st: ShipStats): (k: real)
    ensures 0.0 <= st.backwardMaxSpeed && 0.0 <= st.maxSpeed && 0.0 <= len ==>
              0.0 <= k <= 1.0 &&
              (len <= st.maxSpeed && !(against && len > st.backwardMaxSpeed) ==> k == 1.0) &&
              (len > st.maxSpeed && !(against && len > st.backwardMaxSpeed) ==> k * len == st.maxSpeed) &&
              (against && len > st.backwardMaxSpeed && (len <= st.maxSpeed || 0.0 < st.maxSpeed) ==>
                 k * len == st.backwardMaxSpeed) &&
              (st.backwardMaxSpeed <= st.maxSpeed ==> k * len <= st.maxSpeed)
  {
    DivBelowOne(st.maxSpeed, len);
    DivBelowOne(st.backwardMaxSpeed, len);
    if against && len > st.backwardMaxSpeed && (len <= st.maxSpeed || 0.0 < st.maxSpeed) then
      LengthFactor(len, st.backwardMaxSpeed)
    else if len > st.maxSpeed then LengthFactor(len, st.maxSpeed)
    else 1.0
  }

  /** A share of a larger positive whole lies in [0, 1] and multiplies back
      to the share. */
  lemma DivBelowOne(part: real, whole: real)
    ensures 0.0 <= part < whole ==> 0.0 <= part / whole <= 1.0 && part / whole * whole == part
  {
  }

  /** Cutting to `max` and then to `back` is one cut to `back`. */
  lemma DivChain(back: real, max: real, len: real)
    requires max != 0.0 && len != 0.0
    ensures back / max * (max / len) == back / len
  {
  }

  /** The speed caps. Above `maxSpeed` the velocity is cut back to
      `maxSpeed`; then, when it points against `probe` and the speed measured
      before the first cut exceeds `backwardMaxSpeed`, it is cut back to
      `backwardMaxSpeed`. With non-negative limits the result is the input
      scaled by `CapFactor`. */
  function Clamp(s: Sized, probe: Vec3, st: ShipStats): (r: Sized)
    requires Measured(s)
    ensures Measured(r)
    ensures 0.0 <= st.backwardMaxSpeed && 0.0 <= st.maxSpeed ==>
              var k := CapFactor(s.len, Dot(s.v, probe) < 0.0, st);
              r.v == Scale(s.v, k)
    ensures 0.0 <= st.backwardMaxSpeed <= st.maxSpeed ==> r.len <= st.maxSpeed
    ensures 0.0 <= st.backwardMaxSpeed && 0.0 <= st.maxSpeed ==> r.len <= s.len
    ensures 0.0 <= st.backwardMaxSpeed && 0.0 <= st.maxSpeed && Dot(r.v, probe) < 0.0 ==>
              r.len <= st.backwardMaxSpeed
    ensures s.len <= st.maxSpeed && s.len <= st.backwardMaxSpeed ==> r == s
  {
    var c := CapSpeed(s, st.maxSpeed);
    var r := ReverseCap(c, probe, st.backwardMaxSpeed, s.len > st.backwardMaxSpeed);
    if 0.0 <= st.backwardMaxSpeed && 0.0 <= st.maxSpeed then
      ClampFactor(s, c, r, probe, st);
      r
    else r
  }

  /** The two caps in sequence scale by `CapFactor`. */
  lemma ClampFactor(s: Sized, c: Sized, r: Sized, probe: Vec3, st: ShipStats)
    requires Measured(s) && 0.0 <= st.backwardMaxSpeed && 0.0 <= st.maxSpeed
    requires c == CapSpeed(s, st.maxSpeed)
    requires r == ReverseCap(c, probe, st.backwardMaxSpeed, s.len > st.backwardMaxSpeed)
    ensures var k := CapFactor(s.len, Dot(s.v, probe) < 0.0, st);
            r.v == Scale(s.v, k)
  {
    if s.len <= st.maxSpeed {
      assert c == s;
      ReverseOnly(s, r, probe, st);
    } else if st.maxSpeed == 0.0 {
      CutToStandstill(s, c, r, probe, st);
    } else {
      CutThenReverse(s, c, r, probe, st);
    }
  }

  /** Under the speed cap only the reverse cap can cut. */
  lemma ReverseOnly(s: Sized, r: Sized, probe: Vec3, st: ShipStats)
    requires Measured(s) && 0.0 <= st.backwardMaxSpeed && s.len <= st.maxSpeed
    requires r == ReverseCap(s, probe, st.backwardMaxSpeed, s.len > st.backwardMaxSpeed)
    ensures var k := CapFactor(s.len, Dot(s.v, probe) < 0.0, st);
            r.v == Scale(s.v, k)
  {
    var k := CapFactor(s.len, Dot(s.v, probe) < 0.0, st);
    if Dot(s.v, probe) < 0.0 && s.len > st.backwardMaxSpeed {
      assert k == st.backwardMaxSpeed / s.len;
      assert r.v == Scale(s.v, k);
    } else {
      assert k == 1.0;
      assert r == s;
      assert s.v == Scale(s.v, 1.0);
    }
  }

  /** A zero speed cap stops the ship, and the reverse cap then has
      nothing left to cut. */
  lemma CutToStandstill(s: Sized, c: Sized, r: Sized, probe: Vec3, st: ShipStats)
    requires Measured(s) && 0.0 <= st.backwardMaxSpeed && st.maxSpeed == 0.0 < s.len
    requires c == CapSpeed(s, st.maxSpeed)
    requires r == ReverseCap(c, probe, st.backwardMaxSpeed, s.len > st.backwardMaxSpeed)
    ensures var k := CapFactor(s.len, Dot(s.v, probe) < 0.0, st);
            r.v == Scale(s.v, k)
  {
    StandstillFactor(s.len, Dot(s.v, probe) < 0.0, st);
    assert c.v == Scale(s.v, 0.0);
    ScaleDot(s.v, 0.0, probe);
    assert r == c;
  }

  lemma StandstillFactor(len: real, against: bool, st: ShipStats)
    requires st.maxSpeed == 0.0 < len
    ensures CapFactor(len, against, st) == 0.0
  {
    assert LengthFactor(len, st.maxSpeed) == 0.0;
  }

  /** Above a positive speed cap the velocity is first scaled down to
      `maxSpeed`; if it still points against the probe and was over
      `backwardMaxSpeed`, the second cut lands on `backwardMaxSpeed`. */
  lemma CutThenReverse(s: Sized, c: Sized, r: Sized, probe: Vec3, st: ShipStats)
    requires Measured(s) && 0.0 <= st.backwardMaxSpeed && 0.0 < st.maxSpeed < s.len
    requires c == CapSpeed(s, st.maxSpeed)
    requires r == ReverseCap(c, probe, st.backwardMaxSpeed, s.len > st.backwardMaxSpeed)
    ensures var k := CapFactor(s.len, Dot(s.v, probe) < 0.0, st);
            r.v == Scale(s.v, k)
  {
    var against := Dot(s.v, probe) < 0.0;
    FactorAfterCut(s.len, against, st);
    FirstCut(s, c, probe, st);
    if against && s.len > st.backwardMaxSpeed {
      assert r.v == Scale(c.v, LengthFactor(c.len, st.backwardMaxSpeed));
      SecondCut(s.v, s.len, c.v, c.len, r.v, st);
    } else {
      assert r == c;
    }
  }

  /** The caps' factor above a positive speed cap. */
  lemma FactorAfterCut(len: real, against: bool, st: ShipStats)
    requires 0.0 <= st.backwardMaxSpeed && 0.0 < st.maxSpeed < len
    ensures CapFactor(len, against, st) ==
              if against && len > st.backwardMaxSpeed then st.backwardMaxSpeed / len else st.maxSpeed / len
  {
  }

  /** Above a positive speed cap the first cut scales by `maxSpeed / len`
      to length `maxSpeed`, keeping the side of the probe. */
  lemma FirstCut(s: Sized, c: Sized, probe: Vec3, st: ShipStats)
    requires Measured(s) && 0.0 < st.maxSpeed < s.len
    requires c == CapSpeed(s, st.maxSpeed)
    ensures c.v == Scale(s.v, st.maxSpeed / s.len) && c.len == st.maxSpeed
    ensures Dot(c.v, probe) < 0.0 <==> Dot(s.v, probe) < 0.0
  {
    var first := st.maxSpeed / s.len;
    DivBelowOne(st.maxSpeed, s.len);
    ScaleDot(s.v, first, probe);
    PositiveFactorKeepsSign(first, Dot(s.v, probe));
  }

  /** After the first cut, the reverse cut to `backwardMaxSpeed` amounts to
      one cut of the original velocity. */
  lemma SecondCut(v: Vec3, len: real, cv: Vec3, clen: real, rv: Vec3, st: ShipStats)
    requires 0.0 < st.maxSpeed < len
    requires cv == Scale(v, st.maxSpeed / len) && clen == st.maxSpeed
    requires rv == Scale(cv, LengthFactor(clen, st.backwardMaxSpeed))
    ensures rv == Scale(v, st.backwardMaxSpeed / len)
  {
    var b := st.backwardMaxSpeed / st.maxSpeed;
    assert rv == Scale(cv, b);
    ScaleScale(v, st.maxSpeed / len, b);
    DivChain(st.backwardMaxSpeed, st.maxSpeed, len);
  }

  /** A positive factor keeps the sign of a product. */
  lemma PositiveFactorKeepsSign(a: real, b: real)
    requires a > 0.0
    ensures a * b < 0.0 <==> b < 0.0
  {
    if b < 0.0 {
      assert a * (-b) > 0.0;
    } else {
      assert a * b >= 0.0;
    }
  }

  /** Angular velocity about the vertical axis: A turns one way, D the
      other, then angular drag applies. */
  function Turn(c: Controls, st: ShipStats, angvelY: real, dt: real): (r: real)
    ensures c.left == c.right ==> r == angvelY * st.angularDrag
    ensures c.left && !c.right ==> r == (angvelY + st.rotationSpeed * dt) * st.angularDrag
    ensures c.right && !c.left ==> r == (angvelY - st.rotationSpeed * dt) * st.angularDrag
  {
    var w := if c.left then angvelY + st.rotationSpeed * dt else angvelY;
    var w' := if c.right then w - st.rotationSpeed * dt else w;
    w' * st.angularDrag
  }

  /** Velocity after thrust, and the forward vector as it stands afterwards. */
  datatype Thrust = Thrust(velocity: Vec3, forward: Vec3)

  /** The thrust signed by the keys: full acceleration ahead, half astern. */
  function ThrustFactor(c: Controls, st: ShipStats, dt: real): real {
    (if c.forward then st.acceleration * dt else 0.0) + (if c.backward then -st.acceleration * 0.5 * dt else 0.0)
  }

  /** The intended thrust: W adds `acceleration * dt` along the heading and
      S adds `-0.5 * acceleration * dt` along it; the heading itself is left
      alone. */
  function ThrustIntended(c: Controls, st: ShipStats, heading: Vec3, v: Vec3, dt: real): (r: Thrust)
    ensures r.forward == heading
    ensures !c.forward && !c.backward ==> r.velocity == v
    ensures c.forward && !c.backward ==> r.velocity == Add(v, Scale(heading, st.acceleration * dt))
    ensures !c.forward && c.backward ==> r.velocity == Add(v, Scale(heading, -st.acceleration * 0.5 * dt))
    ensures c.forward && c.backward ==>
              r.velocity == Add(Add(v, Scale(heading, st.acceleration * dt)), Scale(heading, -st.acceleration * 0.5 * dt))
  {
    Thrust(Add(v, Scale(heading, ThrustFactor(c, st, dt))), heading)
  }

  /** The thrust as the source computes it: `multiplyScalar` rescales the
      forward vector in place, so S scales the vector W already scaled, and
      the rescaled vector is what the reverse cap later tests against. */
  function ThrustAsWritten(c: Controls, st: ShipStats, heading: Vec3, v: Vec3, dt: real): (r: Thrust)
    ensures !(c.forward && c.backward) ==> r.velocity == ThrustIntended(c, st, heading, v, dt).velocity
    ensures r.forward == Scale(heading, (if c.forward then st.acceleration * dt else 1.0) *
                                        (if c.backward then -st.acceleration * 0.5 * dt else 1.0))
  {
    var f1 := if c.forward then Scale(heading, st.acceleration * dt) else heading;
    var v1 := if c.forward then Add(v, f1) else v;
    var f2 := if c.backward then Scale(f1, -st.acceleration * 0.5 * dt) else f1;
    var v2 := if c.backward then Add(v1, f2) else v1;
    if c.forward && c.backward then
      ScaleScale(heading, st.acceleration * dt, -st.acceleration * 0.5 * dt);
      Thrust(v2, f2)
    else
      assert Scale(heading, 1.0) == heading;
      Thrust(v2, f2)
  }

  /** As written, W and S together add the full forward thrust and then
      the forward thrust vector scaled once more by `-0.5 * acceleration *
      dt`, not the half-strength reverse thrust along the heading. */
  lemma BothKeysAsWritten(st: ShipStats, heading: Vec3, v: Vec3, dt: real)
    ensures var both := Controls(true, true, false, false);
            ThrustAsWritten(both, st, heading, v, dt).velocity ==
              Add(Add(v, Scale(heading, st.acceleration * dt)),
                  Scale(heading, (-st.acceleration * 0.5 * dt) * (st.acceleration * dt)))
  {
    ScaleScale(heading, st.acceleration * dt, -st.acceleration * 0.5 * dt);
  }

  /** What the frame hands to the physics engine: linear and angular
      velocity. */
  datatype Output = Output(linvel: Vec3, angvel: Vec3)

  /** Linear drag after the thrust step. */
  function Dragged(t: Thrust, st: ShipStats): Vec3 {
    Scale(t.velocity, st.drag)
  }

  /** The rest of a frame once thrust is applied: drag, the two speed caps
      (the reverse one testing against `probe`), the vertical component
      dropped, and the turn. `speed` is the length of the dragged velocity. */
  function Settle(t: Thrust, probe: Vec3, c: Controls, st: ShipStats, angvelY: real, dt: real, speed: real): (r: Output)
    requires speed >= 0.0 && speed * speed == Norm2(Dragged(t, st))
    ensures r.linvel.y == 0.0 && r.angvel.x == 0.0 && r.angvel.z == 0.0
    ensures r.angvel.y == Turn(c, st, angvelY, dt)
    ensures speed <= st.maxSpeed && speed <= st.backwardMaxSpeed ==>
              r.linvel == Vec3(st.drag * t.velocity.x, 0.0, st.drag * t.velocity.z)
    ensures 0.0 <= st.backwardMaxSpeed && 0.0 <= st.maxSpeed ==>
              var d := Dragged(t, st);
              var k := CapFactor(speed, Dot(d, probe) < 0.0, st);
              r.linvel == Level(Scale(d, k)) && 0.0 <= k <= 1.0
  {
    var s := Clamp(Sized(Dragged(t, st), speed), probe, st);
    FlatFactor(Dragged(t, st), speed, s, probe, st);
    Output(Level(s.v), Vec3(0.0, Turn(c, st, angvelY, dt), 0.0))
  }

  /** With non-negative limits the frame's output is no faster than
      `maxSpeed` (when the reverse limit is the lower one), no faster than
      drag alone leaves it, and, moving against a level probe, no faster
      than `backwardMaxSpeed`. */
  lemma SettleWithinCaps(t: Thrust, probe: Vec3, c: Controls, st: ShipStats, angvelY: real, dt: real, speed: real)
    requires speed >= 0.0 && speed * speed == Norm2(Dragged(t, st))
    requires 0.0 <= st.backwardMaxSpeed && 0.0 <= st.maxSpeed
    ensures var out := Settle(t, probe, c, st, angvelY, dt, speed).linvel;
            (st.backwardMaxSpeed <= st.maxSpeed ==> Norm2(out) <= st.maxSpeed * st.maxSpeed) &&
            Norm2(out) <= speed * speed &&
            (probe.y == 0.0 && Dot(out, probe) < 0.0 ==> Norm2(out) <= st.backwardMaxSpeed * st.backwardMaxSpeed)
  {
    var s := Clamp(Sized(Dragged(t, st), speed), probe, st);
    FlatBounds(s, speed, probe, st);
    assert Settle(t, probe, c, st, angvelY, dt, speed).linvel == Level(s.v);
  }

  /** The length bounds `Clamp` promises, carried over to the levelled
      velocity in squared form. */
  lemma FlatBounds(s: Sized, speed: real, probe: Vec3, st: ShipStats)
    requires Measured(s)
    requires 0.0 <= st.backwardMaxSpeed <= st.maxSpeed ==> s.len <= st.maxSpeed
    requires 0.0 <= st.backwardMaxSpeed && 0.0 <= st.maxSpeed ==> s.len <= speed
    requires 0.0 <= st.backwardMaxSpeed && 0.0 <= st.maxSpeed && Dot(s.v, probe) < 0.0 ==>
               s.len <= st.backwardMaxSpeed
    ensures var flat := Vec3(s.v.x, 0.0, s.v.z);
            (0.0 <= st.backwardMaxSpeed <= st.maxSpeed ==> Norm2(flat) <= st.maxSpeed * st.maxSpeed) &&
            (0.0 <= st.backwardMaxSpeed && 0.0 <= st.maxSpeed ==> Norm2(flat) <= speed * speed) &&
            (0.0 <= st.backwardMaxSpeed && 0.0 <= st.maxSpeed && probe.y == 0.0 && Dot(flat, probe) < 0.0 ==>
               Norm2(flat) <= st.backwardMaxSpeed * st.backwardMaxSpeed)
  {
    var flat := Vec3(s.v.x, 0.0, s.v.z);
    if 0.0 <= st.backwardMaxSpeed && 0.0 <= st.maxSpeed {
      FlatWithin(s.v, s.len, speed);
      if st.backwardMaxSpeed <= st.maxSpeed {
        FlatWithin(s.v, s.len, st.maxSpeed);
      }
      if probe.y == 0.0 && Dot(flat, probe) < 0.0 {
        assert Dot(flat, probe) == Dot(s.v, probe);
        FlatWithin(s.v, s.len, st.backwardMaxSpeed);
      }
    }
  }

  /** The levelled output is the dragged velocity scaled by the caps'
      factor, with the vertical component dropped. */
  lemma FlatFactor(d: Vec3, speed: real, s: Sized, probe: Vec3, st: ShipStats)
    requires speed >= 0.0 && speed * speed == Norm2(d)
    requires s == Clamp(Sized(d, speed), probe, st)
    ensures 0.0 <= st.backwardMaxSpeed && 0.0 <= st.maxSpeed ==>
              var k := CapFactor(speed, Dot(d, probe) < 0.0, st);
              Level(s.v) == Level(Scale(d, k)) && 0.0 <= k <= 1.0
  {
    if 0.0 <= st.backwardMaxSpeed && 0.0 <= st.maxSpeed {
      var k := CapFactor(speed, Dot(d, probe) < 0.0, st);
      assert s.v == Scale(d, k);
      assert 0.0 <= k <= 1.0;
    }
  }

  /** One frame as written: the reverse cap tests against the rescaled
      forward vector. The output is the dragged velocity scaled by the caps'
      factor and levelled. */
  function TickAsWritten(c: Controls, st: ShipStats, heading: Vec3, linvel: Vec3, angvelY: real, dt: real, speed: real): (r: Output)
    requires speed >= 0.0 && speed * speed == Norm2(Dragged(ThrustAsWritten(c, st, heading, linvel, dt), st))
    ensures r.linvel.y == 0.0 && r.angvel.x == 0.0 && r.angvel.z == 0.0
    ensures r.angvel.y == Turn(c, st, angvelY, dt)
    ensures 0.0 <= st.backwardMaxSpeed && 0.0 <= st.maxSpeed ==>
              var t := ThrustAsWritten(c, st, heading, linvel, dt);
              var d := Dragged(t, st);
              var k := CapFactor(speed, Dot(d, t.forward) < 0.0, st);
              r.linvel == Level(Scale(d, k)) && 0.0 <= k <= 1.0
  {
    var t := ThrustAsWritten(c, st, heading, linvel, dt);
    Settle(t, t.forward, c, st, angvelY, dt, speed)
  }

  /** As written, the first cap still holds the ship to `maxSpeed` when
      `backwardMaxSpeed <= maxSpeed`, as for the default ship. */
  lemma TickAsWrittenWithinMaxSpeed(c: Controls, st: ShipStats, heading: Vec3, linvel: Vec3, angvelY: real, dt: real, speed: real)
    requires speed >= 0.0 && speed * speed == Norm2(Dragged(ThrustAsWritten(c, st, heading, linvel, dt), st))
    requires 0.0 <= st.backwardMaxSpeed <= st.maxSpeed
    ensures Norm2(TickAsWritten(c, st, heading, linvel, angvelY, dt, speed).linvel) <= st.maxSpeed * st.maxSpeed
  {
    var t := ThrustAsWritten(c, st, heading, linvel, dt);
    SettleWithinCaps(t, t.forward, c, st, angvelY, dt, speed);
    assert TickAsWritten(c, st, heading, linvel, angvelY, dt, speed) == Settle(t, t.forward, c, st, angvelY, dt, speed);
  }

  /** One frame as intended: thrust along the unscaled heading, and the
      reverse cap tests against the heading. The output is the dragged
      velocity scaled by the caps' factor and levelled. */
  function Tick(c: Controls, st: ShipStats, heading: Vec3, linvel: Vec3, angvelY: real, dt: real, speed: real): (r: Output)
    requires speed >= 0.0 && speed * speed == Norm2(Dragged(ThrustIntended(c, st, heading, linvel, dt), st))
    ensures r.linvel.y == 0.0 && r.angvel.x == 0.0 && r.angvel.z == 0.0
    ensures r.angvel.y == Turn(c, st, angvelY, dt)
    ensures 0.0 <= st.backwardMaxSpeed && 0.0 <= st.maxSpeed ==>
              var d := Dragged(ThrustIntended(c, st, heading, linvel, dt), st);
              var k := CapFactor(speed, Dot(d, heading) < 0.0, st);
              r.linvel == Level(Scale(d, k)) && 0.0 <= k <= 1.0
  {
    var t := ThrustIntended(c, st, heading, linvel, dt);
    Settle(t, heading, c, st, angvelY, dt, speed)
  }

  /** The intended frame never leaves the ship faster than drag alone
      would, nor, when `backwardMaxSpeed <= maxSpeed` (as for the default
      ship), faster than `maxSpeed`. */
  lemma TickWithinMaxSpeed(c: Controls, st: ShipStats, heading: Vec3, linvel: Vec3, angvelY: real, dt: real, speed: real)
    requires speed >= 0.0 && speed * speed == Norm2(Dragged(ThrustIntended(c, st, heading, linvel, dt), st))
    requires 0.0 <= st.backwardMaxSpeed && 0.0 <= st.maxSpeed
    ensures var out := Tick(c, st, heading, linvel, angvelY, dt, speed).linvel;
            (st.backwardMaxSpeed <= st.maxSpeed ==> Norm2(out) <= st.maxSpeed * st.maxSpeed) &&
            Norm2(out) <= speed * speed
  {
    var t := ThrustIntended(c, st, heading, linvel, dt);
    SettleWithinCaps(t, heading, c, st, angvelY, dt, speed);
    assert Tick(c, st, heading, linvel, angvelY, dt, speed) == Settle(t, heading, c, st, angvelY, dt, speed);
  }

  /** The intended frame never leaves the ship moving against a level
      heading faster than `backwardMaxSpeed`. */
  lemma TickReverseCapped(c: Controls, st: ShipStats, heading: Vec3, linvel: Vec3, angvelY: real, dt: real, speed: real)
    requires speed >= 0.0 && speed * speed == Norm2(Dragged(ThrustIntended(c, st, heading, linvel, dt), st))
    requires 0.0 <= st.backwardMaxSpeed && 0.0 <= st.maxSpeed && heading.y == 0.0
    ensures var out := Tick(c, st, heading, linvel, angvelY, dt, speed).linvel;
            Dot(out, heading) < 0.0 ==> Norm2(out) <= st.backwardMaxSpeed * st.backwardMaxSpeed
  {
    var t := ThrustIntended(c, st, heading, linvel, dt);
    SettleWithinCaps(t, heading, c, st, angvelY, dt, speed);
    assert Tick(c, st, heading, linvel, angvelY, dt, speed) == Settle(t, heading, c, st, angvelY, dt, speed);
  }

  /** Only S held. */
  const Astern := Controls(false, true, false, false)

  /** As written, with only S held the reverse cap never fires on a ship
      already moving against its heading: the probe has been flipped to
      point astern, so the velocity does not point against it, and the ship
      keeps its full dragged velocity up to `maxSpeed`, however far that is
      above `backwardMaxSpeed`. For instance, heading (0, 0, -1), velocity
      (0, 0, 2.5), 0.1 s and the default ship give 2.6675 against a cap of
      1.5; `Tick` caps the same frame. */
  lemma ReverseCapMissedAsWritten(st: ShipStats, heading: Vec3, linvel: Vec3, angvelY: real, dt: real, speed: real)
    requires st.acceleration > 0.0 && dt > 0.0
    requires heading.y == 0.0 && linvel.y == 0.0
    requires speed >= 0.0 && speed * speed == Norm2(Dragged(ThrustAsWritten(Astern, st, heading, linvel, dt), st))
    requires speed <= st.maxSpeed
    requires Dot(Dragged(ThrustAsWritten(Astern, st, heading, linvel, dt), st), heading) < 0.0
    ensures var out := TickAsWritten(Astern, st, heading, linvel, angvelY, dt, speed).linvel;
            out == Dragged(ThrustAsWritten(Astern, st, heading, linvel, dt), st) &&
            Dot(out, heading) < 0.0 && Norm2(out) == speed * speed
    ensures 0.0 <= st.backwardMaxSpeed < speed ==>
              Norm2(TickAsWritten(Astern, st, heading, linvel, angvelY, dt, speed).linvel) >
              st.backwardMaxSpeed * st.backwardMaxSpeed
  {
    var t := ThrustAsWritten(Astern, st, heading, linvel, dt);
    var k := -st.acceleration * 0.5 * dt;
    assert st.acceleration * dt > 0.0;
    assert k < 0.0;
    assert t.forward == Scale(heading, k);
    var v := Dragged(t, st);
    assert v.y == 0.0;
    ScaleDot(heading, k, v);
    assert Dot(heading, v) == Dot(v, heading);
    assert k * Dot(heading, v) > 0.0;
    assert Dot(v, t.forward) > 0.0;
    var sized := Sized(v, speed);
    assert Clamp(sized, t.forward, st) == sized;
    if 0.0 <= st.backwardMaxSpeed < speed {
      SquareStrictlyMonotone(st.backwardMaxSpeed, speed);
    }
  }

  /** Holding both A and D cancels the turn. */
  lemma OpposedTurnsCancel(c: Controls, st: ShipStats, angvelY: real, dt: real)
    requires c.left && c.right
    ensures Turn(c, st, angvelY, dt) == Turn(Released, st, angvelY, dt)
  {
  }

  /** With no key held, drag still applies: a ship under the speed cap
      coasts on at `drag` times its velocity, level. */
  lemma IdleFrameOnlyDrags(st: ShipStats, heading: Vec3, linvel: Vec3, angvelY: real, dt: real, speed: real)
    requires speed >= 0.0 && speed * speed == Norm2(Dragged(ThrustIntended(Released, st, heading, linvel, dt), st))
    requires speed <= st.maxSpeed && speed <= st.backwardMaxSpeed
    ensures Tick(Released, st, heading, linvel, angvelY, dt, speed).linvel ==
              Vec3(st.drag * linvel.x, 0.0, st.drag * linvel.z)
    ensures Tick(Released, st, heading, linvel, angvelY, dt, speed).angvel.y == angvelY * st.angularDrag
  {
    var t := Thrust(linvel, heading);
    assert ThrustIntended(Released, st, heading, linvel, dt) == t;
    var out := Settle(t, heading, Released, st, angvelY, dt, speed);
    assert Tick(Released, st, heading, linvel, angvelY, dt, speed) == out;
  }

  // ---------------------------------------------------------------------
  // Outbound pose

  datatype Socket = Socket(connected: bool, id: string)

  datatype Move = Move(id: string, position: Vec3, rotation: Quat)

  /** The `playerMove` message a frame sends: only when a socket exists and
      is connected, carrying the socket's id and the ship's pose. */
  function MoveMessage(socket: Option<Socket>, position: Vec3, rotation: Quat): (m: Option<Move>)
    ensures m.Some? <==> socket.Some? && socket.value.connected
    ensures m.Some? ==> m.value.id == socket.value.id && m.value.position == position && m.value.rotation == rotation
  {
    match socket
    case Some(s) => if s.connected then Some(Move(s.id, position, rotation)) else None
    case None => None
  }

  /** The pose a frame sends arrives intact at a peer: delivered back as
      `playerMoved` (the server relays it unchanged), it stores exactly this
      ship's id, position and rotation under the sender's socket id and
      leaves every other roster entry as it was. */
  lemma MoveReachesPeers(socket: Socket, position: Vec3, rotation: Quat, roster: Players, self: string)
    requires socket.connected
    ensures var m := MoveMessage(Some(socket), position, rotation).value;
            var r := Sync.Apply(roster, self, Sync.PlayerMoved(PlayerState(m.id, m.position, m.rotation)));
            r.Keys == roster.Keys + {socket.id} &&
            r[socket.id] == Entry(Some(socket.id), Some(position), Some(rotation)) &&
            forall k :: k in roster && k != socket.id ==> r[k] == roster[k]
  {
  }

  // ---------------------------------------------------------------------
  // Collision damage

  const RockTag := "rock"
  const RockDamage := 5

  /** A contact: hitting a body tagged "rock" costs 5 health, floored at 0;
      any other body, or one without a tag, costs nothing. */
  function Collide(health: int, tag: Option<string>): (r: int)
    ensures tag != Some(RockTag) ==> r == health
    ensures tag == Some(RockTag) && health >= RockDamage ==> r == health - RockDamage
    ensures tag == Some(RockTag) && health < RockDamage ==> r == 0
    ensures 0 <= health ==> 0 <= r <= health
  {
    if tag == Some(RockTag) then (if health - RockDamage > 0 then health - RockDamage else 0) else health
  }

  function CollideAll(health: int, tags: seq<Option<string>>): int
    decreases |tags|
  {
    if tags == [] then health else CollideAll(Collide(health, tags[0]), tags[1..])
  }

  function RockHits(tags: seq<Option<string>>): nat
    decreases |tags|
  {
    if tags == [] then 0 else (if tags[0] == Some(RockTag) then 1 else 0) + RockHits(tags[1..])
  }

  /** Without any debounce every rock contact counts: after a run of
      contacts health is the starting health less 5 per rock hit, floored
      at 0. It never rises and stays in [0, 100]. */
  lemma {:induction false} CollisionsAccumulate(health: int, tags: seq<Option<string>>)
    requires 0 <= health <= 100
    ensures var h := health - RockDamage * RockHits(tags);
            CollideAll(health, tags) == if h > 0 then h else 0
    ensures 0 <= CollideAll(health, tags) <= health
    decreases |tags|
  {
    if tags != [] {
      CollisionsAccumulate(Collide(health, tags[0]), tags[1..]);
    }
  }
}
