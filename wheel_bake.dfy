/** The bake operator: the cumulative ticks of every drive command, turned
    back into wheel angles and written as keyframes on each wheel's
    `rotation_euler[1]` F-curve, so the computed motion can be previewed. */
module WheelBake {
  import opened Units
  import opened Kinematics

  /** The part of a wheel object the bake touches. */
  class Wheel {
    /** The current value of `rotation_euler.y`. */
    var rotationY: real
    /** The F-curve `rotation_euler[1]`: keyframe values by frame; an absent
        curve is the empty map. */
    var rotationYCurve: map<int, real>

    constructor (rotationY: real, rotationYCurve: map<int, real>)
      ensures this.rotationY == rotationY && this.rotationYCurve == rotationYCurve
    {
      this.rotationY := rotationY;
      this.rotationYCurve := rotationYCurve;
    }

    /** `fcurves.remove` of the `rotation_euler[1]` curve, when there is one. */
    method RemoveRotationYCurve()
      modifies this
      ensures rotationYCurve == map[]
      ensures rotationY == old(rotationY)
    {
      rotationYCurve := map[];
    }

    /** `keyframe_insert(data_path="rotation_euler", frame=frame, index=1)`:
        keys the current value at `frame`, replacing a key already there. */
    method KeyframeInsertRotationY(frame: int)
      modifies this
      ensures rotationYCurve == old(rotationYCurve)[frame := rotationY]
      ensures rotationY == old(rotationY)
    {
      rotationYCurve := rotationYCurve[frame := rotationY];
    }
  }

  /** The tick total of the left or of the right wheel in one command. */
  function WheelTicks(c: DriveCommand, isLeft: bool): int {
    if isLeft then c.leftTicks else c.rightTicks
  }

  /** The keyframes one wheel holds after the commands are baked onto an
      emptied curve, one after another (a later key at the same frame wins).
      There is at most one key per command, and a key whenever there is a
      command; `TrackKeys` and `TrackValues` say which. */
  function Track(frameData: seq<DriveCommand>, isLeft: bool, ticksPerRevolution: int): (track: map<int, real>)
    requires ticksPerRevolution != 0
    ensures |track| <= |frameData|
    ensures track == map[] <==> frameData == []
  {
    if frameData == [] then map[]
    else
      var init, last := frameData[..|frameData| - 1], frameData[|frameData| - 1];
      Track(init, isLeft, ticksPerRevolution)[last.frame := TicksToRadians(WheelTicks(last, isLeft), ticksPerRevolution)]
  }

  /** The body of the per-wheel loop: clear the curve, then key every command. */
  method BakeWheel(wheel: Wheel, frameData: seq<DriveCommand>, isLeft: bool, ticksPerRevolution: int)
    requires ticksPerRevolution != 0
    modifies wheel
    ensures wheel.rotationYCurve == Track(frameData, isLeft, ticksPerRevolution)
    ensures frameData != [] ==>
      wheel.rotationY == TicksToRadians(WheelTicks(frameData[|frameData| - 1], isLeft), ticksPerRevolution)
    ensures frameData == [] ==> wheel.rotationY == old(wheel.rotationY)
  {
    wheel.RemoveRotationYCurve();
    for i := 0 to |frameData|
      invariant wheel.rotationYCurve == Track(frameData[..i], isLeft, ticksPerRevolution)
      invariant i > 0 ==> wheel.rotationY == TicksToRadians(WheelTicks(frameData[i - 1], isLeft), ticksPerRevolution)
      invariant i == 0 ==> wheel.rotationY == old(wheel.rotationY)
    {
      var c := frameData[i];
      var ticks := if isLeft then c.leftTicks else c.rightTicks;
      var angle := TicksToRadians(ticks, ticksPerRevolution);
      wheel.rotationY := angle;
      wheel.KeyframeInsertRotationY(c.frame);
      assert frameData[..i + 1][..i] == frameData[..i];
    }
    assert frameData[..|frameData|] == frameData;
  }

  /** `ROBOT_OT_bake_wheel_rotation.execute`: compute the commands, then bake
      the left wheel and then the right one. Each wheel is left at the angle
      of its total in the last command. When both names resolve to the same
      object, the right wheel's bake is the one that remains. */
  method BakeWheelRotation(scene: int -> Sample, frameStart: int, frameEnd: int, g: Geometry,
                           length: Vec3 -> real, lWheel: Wheel, rWheel: Wheel)
    requires g.Valid()
    modifies lWheel, rWheel
    ensures rWheel.rotationYCurve == Track(Rotations(scene, frameStart, frameEnd, g, length), false, g.ticksPerRevolution)
    ensures lWheel != rWheel ==>
      lWheel.rotationYCurve == Track(Rotations(scene, frameStart, frameEnd, g, length), true, g.ticksPerRevolution)
    ensures var r := Rotations(scene, frameStart, frameEnd, g, length);
      rWheel.rotationY == TicksToRadians(r[|r| - 1].rightTicks, g.ticksPerRevolution)
    ensures var r := Rotations(scene, frameStart, frameEnd, g, length);
      lWheel != rWheel ==> lWheel.rotationY == TicksToRadians(r[|r| - 1].leftTicks, g.ticksPerRevolution)
  {
    var frameData := CalculateRotations(scene, frameStart, frameEnd, g, length);
    BakeWheel(lWheel, frameData, true, g.ticksPerRevolution);
    BakeWheel(rWheel, frameData, false, g.ticksPerRevolution);
  }

  /** Baking twice with the same inputs: the tracks after the second bake
      are the ones the first bake left (the old curve is removed first, so
      nothing from the first bake is duplicated or mixed in). */
  method BakeTwice(scene: int -> Sample, frameStart: int, frameEnd: int, g: Geometry,
                   length: Vec3 -> real, lWheel: Wheel, rWheel: Wheel)
    returns (leftAfterFirst: map<int, real>, rightAfterFirst: map<int, real>)
    requires g.Valid()
    modifies lWheel, rWheel
    ensures lWheel.rotationYCurve == leftAfterFirst && rWheel.rotationYCurve == rightAfterFirst
  {
    BakeWheelRotation(scene, frameStart, frameEnd, g, length, lWheel, rWheel);
    leftAfterFirst, rightAfterFirst := lWheel.rotationYCurve, rWheel.rotationYCurve;
    BakeWheelRotation(scene, frameStart, frameEnd, g, length, lWheel, rWheel);
  }

  // ---------------------------------------------------------------------
  // Properties of a baked track

  /** When the frames strictly increase, every command's own angle is the key at its frame. */
  lemma {:induction false} TrackValues(frameData: seq<DriveCommand>, isLeft: bool, ticksPerRevolution: int, k: int)
    requires ticksPerRevolution != 0
    requires forall i, j :: 0 <= i < j < |frameData| ==> frameData[i].frame < frameData[j].frame
    requires 0 <= k < |frameData|
    ensures frameData[k].frame in Track(frameData, isLeft, ticksPerRevolution)
    ensures Track(frameData, isLeft, ticksPerRevolution)[frameData[k].frame]
         == TicksToRadians(WheelTicks(frameData[k], isLeft), ticksPerRevolution)
    decreases |frameData|
  {
    if k < |frameData| - 1 {
      TrackValues(frameData[..|frameData| - 1], isLeft, ticksPerRevolution, k);
    }
  }

  /** The keys of a baked track are exactly the frames of the commands. */
  lemma {:induction false} TrackKeys(frameData: seq<DriveCommand>, isLeft: bool, ticksPerRevolution: int)
    requires ticksPerRevolution != 0
    ensures Track(frameData, isLeft, ticksPerRevolution).Keys == set c | c in frameData :: c.frame
    decreases |frameData|
  {
    if frameData != [] {
      var init := frameData[..|frameData| - 1];
      TrackKeys(init, isLeft, ticksPerRevolution);
      assert frameData == init + [frameData[|frameData| - 1]];
    }
  }

  /** After a bake, each wheel's track has one key per frame of the range and no other. */
  lemma BakedTrackKeys(scene: int -> Sample, frameStart: int, frameEnd: int, g: Geometry,
                       length: Vec3 -> real, isLeft: bool)
    requires g.Valid()
    ensures var track := Track(Rotations(scene, frameStart, frameEnd, g, length), isLeft, g.ticksPerRevolution);
      forall f :: f in track <==> frameStart <= f < frameStart + FrameCount(frameStart, frameEnd)
  {
    var r := Rotations(scene, frameStart, frameEnd, g, length);
    RotationsShape(scene, frameStart, frameEnd, g, length);
    TrackKeys(r, isLeft, g.ticksPerRevolution);
    var frames := set c | c in r :: c.frame;
    forall f | frameStart <= f < frameStart + |r|
      ensures f in frames
    {
      assert r[f - frameStart] in r;
    }
  }

  /** The key at frame `frameStart + k` is that wheel's running total after
      `k` frames, as an angle, and turning it back into ticks gives that
      total exactly. */
  lemma BakedTrackValue(scene: int -> Sample, frameStart: int, frameEnd: int, g: Geometry,
                        length: Vec3 -> real, isLeft: bool, k: int)
    requires g.Valid()
    requires 0 <= k < FrameCount(frameStart, frameEnd)
    ensures var track := Track(Rotations(scene, frameStart, frameEnd, g, length), isLeft, g.ticksPerRevolution);
      var totals := Totals(scene, frameStart, k, g, length);
      var ticks := if isLeft then totals.left else totals.right;
      && frameStart + k in track
      && track[frameStart + k] == TicksToRadians(ticks, g.ticksPerRevolution)
      && RadiansToTicks(track[frameStart + k], g.ticksPerRevolution) == ticks
  {
    var r := Rotations(scene, frameStart, frameEnd, g, length);
    RotationsShape(scene, frameStart, frameEnd, g, length);
    RotationsAt(scene, frameStart, frameEnd, g, length, k);
    var totals := Totals(scene, frameStart, k, g, length);
    var ticks := if isLeft then totals.left else totals.right;
    assert r[k].frame == frameStart + k;
    assert WheelTicks(r[k], isLeft) == ticks;
    TrackValueAt(r, isLeft, g.ticksPerRevolution, k, ticks);
  }

  /** A command's angle is the key at its frame and reads back as its ticks. */
  lemma TrackValueAt(frameData: seq<DriveCommand>, isLeft: bool, ticksPerRevolution: int, k: int, ticks: int)
    requires ticksPerRevolution != 0
    requires forall i, j :: 0 <= i < j < |frameData| ==> frameData[i].frame < frameData[j].frame
    requires 0 <= k < |frameData| && WheelTicks(frameData[k], isLeft) == ticks
    ensures frameData[k].frame in Track(frameData, isLeft, ticksPerRevolution)
    ensures Track(frameData, isLeft, ticksPerRevolution)[frameData[k].frame] == TicksToRadians(ticks, ticksPerRevolution)
    ensures RadiansToTicks(TicksToRadians(ticks, ticksPerRevolution), ticksPerRevolution) == ticks
  {
    TrackValues(frameData, isLeft, ticksPerRevolution, k);
    TicksRoundTrip(ticks, ticksPerRevolution);
  }
}
