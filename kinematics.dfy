/** `calculate_rotations`: the per-frame fold that turns the body's pose and
    the head's pan angle into drive commands (servo pulse width and running
    right/left encoder tick totals). */
module Kinematics {
  import opened Numeric
  import opened Units

  datatype Vec3 = Vec3(x: real, y: real, z: real)

  function Sub(a: Vec3, b: Vec3): Vec3 {
    Vec3(a.x - b.x, a.y - b.y, a.z - b.z)
  }

  /** What a `length` argument must satisfy to stand for `Vector.length`:
      it is never negative and the zero vector has length zero. */
  ghost predicate IsLength(length: Vec3 -> real) {
    && (forall v :: length(v) >= 0.0)
    && length(Vec3(0.0, 0.0, 0.0)) == 0.0
  }

  /** What the scene gives for one frame once the frame is set: the body's
      world translation, the body's rotation about Z and the head's rotation
      about Y. */
  datatype Sample = Sample(position: Vec3, heading: real, headPan: real)

  /** The robot's configuration, in millimetres and encoder ticks. */
  datatype Geometry = Geometry(wheelDiameterMm: real, wheelSpacingMm: real, ticksPerRevolution: int) {
    predicate Valid() {
      wheelDiameterMm > 0.0 && wheelSpacingMm > 0.0 && ticksPerRevolution >= 1
    }
    function WheelRadius(): real {
      wheelDiameterMm / 2.0
    }
  }

  /** One element of `frame_data`: `(frame, servo_us, total_right_ticks, total_left_ticks)`. */
  datatype DriveCommand = DriveCommand(frame: int, servoUs: real, rightTicks: int, leftTicks: int)

  /** The signed tick deltas of one frame, right wheel first. */
  datatype Deltas = Deltas(right: int, left: int)

  /** The running tick totals after some frames, right wheel first. */
  datatype TickTotals = TickTotals(right: int, left: int)

  /** A heading change above this many radians is a turn. */
  const TurnThreshold: real := 0.01

  predicate IsTurn(rotDiff: real) {
    Abs(rotDiff) > TurnThreshold
  }

  /** The arc each wheel travels while the body turns in place by `rotDiff`. */
  function ArcLength(rotDiff: real, g: Geometry): (d: real)
    requires g.Valid()
    ensures d >= 0.0
  {
    (g.wheelSpacingMm * Abs(rotDiff)) / 2.0
  }

  /** The wheel rotation, in radians, that rolls the wheel over `distance`. */
  function WheelAngle(distance: real, g: Geometry): (angle: real)
    requires g.Valid()
    ensures distance >= 0.0 ==> angle >= 0.0
  {
    distance / g.WheelRadius()
  }

  /** Ticks each wheel travels while the body turns in place by `rotDiff`. */
  function TurnTicks(rotDiff: real, g: Geometry): int
    requires g.Valid()
  {
    RadiansToTicks(WheelAngle(ArcLength(rotDiff, g), g), g.ticksPerRevolution)
  }

  /** Ticks both wheels travel while the body moves by `movement`. */
  function TranslationTicks(movement: Vec3, g: Geometry, length: Vec3 -> real): int
    requires g.Valid()
  {
    RadiansToTicks(WheelAngle(length(movement), g), g.ticksPerRevolution)
  }

  /** Turning branch: a positive heading change drives the right wheel forward
      and the left one back, anything else the other way round. */
  function TurnDeltas(rotDiff: real, g: Geometry): (d: Deltas)
    requires g.Valid()
    ensures d.right + d.left == 0
  {
    var k := TurnTicks(rotDiff, g);
    if rotDiff > 0.0 then Deltas(k, -k) else Deltas(-k, k)
  }

  /** Translation branch: a move towards -Y is forward for both wheels. */
  function TranslationDeltas(movement: Vec3, g: Geometry, length: Vec3 -> real): (d: Deltas)
    requires g.Valid()
    ensures d.right == d.left
  {
    var ticks := TranslationTicks(movement, g, length);
    if movement.y < 0.0 then Deltas(ticks, ticks) else Deltas(-ticks, -ticks)
  }

  /** The deltas of the frame whose sample is `cur`, the previous one being `prev`. */
  function FrameDeltas(prev: Sample, cur: Sample, g: Geometry, length: Vec3 -> real): (d: Deltas)
    requires g.Valid()
    ensures IsTurn(cur.heading - prev.heading) ==> d.right + d.left == 0
    ensures !IsTurn(cur.heading - prev.heading) ==> d.right == d.left
  {
    var rotDiff := cur.heading - prev.heading;
    if IsTurn(rotDiff) then TurnDeltas(rotDiff, g)
    else TranslationDeltas(Sub(cur.position, prev.position), g, length)
  }

  /** Number of records: the first frame, then one per frame of
      `range(frame_start + 1, frame_end + 1)`. */
  function FrameCount(frameStart: int, frameEnd: int): (n: nat)
    ensures n >= 1
    ensures frameEnd >= frameStart ==> n == frameEnd - frameStart + 1
    ensures frameEnd < frameStart ==> n == 1
  {
    if frameEnd > frameStart then frameEnd - frameStart + 1 else 1
  }

  /** The running totals after `k` frames past the first. */
  function Totals(scene: int -> Sample, frameStart: int, k: nat, g: Geometry, length: Vec3 -> real): TickTotals
    requires g.Valid()
  {
    if k == 0 then TickTotals(0, 0)
    else
      var before := Totals(scene, frameStart, k - 1, g, length);
      var d := FrameDeltas(scene(frameStart + k - 1), scene(frameStart + k), g, length);
      TickTotals(before.right + d.right, before.left + d.left)
  }

  /** The record for frame `frameStart + k`. */
  function RecordAt(scene: int -> Sample, frameStart: int, k: nat, g: Geometry, length: Vec3 -> real): DriveCommand
    requires g.Valid()
  {
    var t := Totals(scene, frameStart, k, g, length);
    DriveCommand(frameStart + k, RotationToMicroseconds(scene(frameStart + k).headPan), t.right, t.left)
  }

  /** The records of the first `n` frames, built one frame at a time as the
      loop appends them. */
  function Records(scene: int -> Sample, frameStart: int, n: nat, g: Geometry, length: Vec3 -> real): (r: seq<DriveCommand>)
    requires g.Valid()
    ensures |r| == n
    ensures forall k :: 0 <= k < n ==> r[k] == RecordAt(scene, frameStart, k, g, length)
  {
    if n == 0 then [] else Records(scene, frameStart, n - 1, g, length) + [RecordAt(scene, frameStart, n - 1, g, length)]
  }

  /** What `calculate_rotations` returns, as a value. */
  function Rotations(scene: int -> Sample, frameStart: int, frameEnd: int, g: Geometry, length: Vec3 -> real): (r: seq<DriveCommand>)
    requires g.Valid()
    ensures |r| == FrameCount(frameStart, frameEnd)
    ensures r[0] == DriveCommand(frameStart, RotationToMicroseconds(scene(frameStart).headPan), 0, 0)
  {
    Records(scene, frameStart, FrameCount(frameStart, frameEnd), g, length)
  }

  /** The body of the source's loop for one frame: the turn branch when the
      heading changed by more than the threshold, the translation branch
      otherwise. It repeats `TurnDeltas` and `TranslationDeltas` statement by
      statement, as the source writes them, and is proved equal to them; it is
      split out of `CalculateRotations` so that each branch is verified on its
      own. */
  method FrameTicks(prev: Sample, current: Sample, g: Geometry, length: Vec3 -> real)
    returns (rightTicks: int, leftTicks: int)
    requires g.Valid()
    ensures Deltas(rightTicks, leftTicks) == FrameDeltas(prev, current, g, length)
  {
    var wheelRadius := g.wheelDiameterMm / 2.0;
    var rotDiff := current.heading - prev.heading;
    if Abs(rotDiff) > TurnThreshold {
      var arcLength := (g.wheelSpacingMm * Abs(rotDiff)) / 2.0;
      var wheelAngle := arcLength / wheelRadius;
      var turnTicks := RadiansToTicks(wheelAngle, g.ticksPerRevolution);
      assert wheelAngle == WheelAngle(ArcLength(rotDiff, g), g);
      if rotDiff > 0.0 {
        rightTicks, leftTicks := turnTicks, -turnTicks;
      } else {
        rightTicks, leftTicks := -turnTicks, turnTicks;
      }
    } else {
      var movement := Sub(current.position, prev.position);
      var distance := length(movement);
      var wheelAngle := distance / wheelRadius;
      var ticks := RadiansToTicks(wheelAngle, g.ticksPerRevolution);
      assert wheelAngle == WheelAngle(length(movement), g);
      if movement.y < 0.0 {
        rightTicks, leftTicks := ticks, ticks;
      } else {
        rightTicks, leftTicks := -ticks, -ticks;
      }
    }
  }

  /** One step of the loop. When the records and totals are those of the
      frames before `frame`, and `(dRight, dLeft)` are the deltas of `frame`,
      appending `frame`'s record gives the records up to `next`, the frame
      after, and adding the deltas gives the totals at `frame`. */
  lemma RecordStep(scene: int -> Sample, frameStart: int, frame: int, next: int, g: Geometry, length: Vec3 -> real,
                   records: seq<DriveCommand>, right: int, left: int, dRight: int, dLeft: int)
    requires g.Valid() && frame > frameStart && next == frame + 1
    requires records == Records(scene, frameStart, frame - frameStart, g, length)
    requires Totals(scene, frameStart, frame - frameStart - 1, g, length) == TickTotals(right, left)
    requires Deltas(dRight, dLeft) == FrameDeltas(scene(frame - 1), scene(frame), g, length)
    ensures records + [DriveCommand(frame, RotationToMicroseconds(scene(frame).headPan), right + dRight, left + dLeft)]
         == Records(scene, frameStart, next - frameStart, g, length)
    ensures Totals(scene, frameStart, next - frameStart - 1, g, length) == TickTotals(right + dRight, left + dLeft)
  {
    assert frameStart + (frame - frameStart) == frame;
  }

  /** `calculate_rotations`, step by step as the source does it. */
  method CalculateRotations(scene: int -> Sample, frameStart: int, frameEnd: int, g: Geometry, length: Vec3 -> real)
    returns (frameData: seq<DriveCommand>)
    requires g.Valid()
    ensures frameData == Rotations(scene, frameStart, frameEnd, g, length)
    ensures |frameData| == FrameCount(frameStart, frameEnd)
  {
    var totalLeftTicks, totalRightTicks := 0, 0;

    var first := scene(frameStart);
    var servoUs := RotationToMicroseconds(first.headPan);
    frameData := [DriveCommand(frameStart, servoUs, 0, 0)];
    var prev := first;

    var frame := frameStart + 1;
    while frame < frameEnd + 1
      invariant frameStart + 1 <= frame <= frameStart + FrameCount(frameStart, frameEnd)
      invariant frameData == Records(scene, frameStart, frame - frameStart, g, length)
      invariant Totals(scene, frameStart, frame - frameStart - 1, g, length) == TickTotals(totalRightTicks, totalLeftTicks)
      invariant prev == scene(frame - 1)
    {
      var current := scene(frame);
      servoUs := RotationToMicroseconds(current.headPan);

      var rightTicks, leftTicks := FrameTicks(prev, current, g, length);
      ghost var before, records, right, left := frame, frameData, totalRightTicks, totalLeftTicks;

      totalLeftTicks := totalLeftTicks + leftTicks;
      totalRightTicks := totalRightTicks + rightTicks;
      frameData := frameData + [DriveCommand(frame, servoUs, totalRightTicks, totalLeftTicks)];

      prev := current;
      frame := frame + 1;
      RecordStep(scene, frameStart, before, frame, g, length, records, right, left, rightTicks, leftTicks);
    }
    assert frame - frameStart == FrameCount(frameStart, frameEnd);
  }

  // ---------------------------------------------------------------------
  // Properties of the per-frame deltas

  /** A turn frame moves the wheels by opposite, equal amounts: `+k` on the
      right and `-k` on the left for a positive heading change, the reverse
      otherwise, with `k` the rounded wheel arc and never negative. */
  lemma TurnFrame(prev: Sample, cur: Sample, g: Geometry, length: Vec3 -> real)
    requires g.Valid()
    requires IsTurn(cur.heading - prev.heading)
    ensures var d := FrameDeltas(prev, cur, g, length);
      var rotDiff := cur.heading - prev.heading;
      var k := RadiansToTicks(WheelAngle(ArcLength(rotDiff, g), g), g.ticksPerRevolution);
      && k >= 0
      && d.right + d.left == 0
      && (rotDiff > 0.0 ==> d == Deltas(k, -k))
      && (rotDiff <= 0.0 ==> d == Deltas(-k, k))
  {
    var rotDiff := cur.heading - prev.heading;
    RadiansToTicksNonNegative(WheelAngle(ArcLength(rotDiff, g), g), g.ticksPerRevolution);
  }

  /** Heading changes of `+theta` and `-theta` past the threshold give
      sign-swapped mirror deltas. */
  lemma TurnMirror(rotDiff: real, g: Geometry)
    requires g.Valid()
    requires IsTurn(rotDiff)
    ensures IsTurn(-rotDiff)
    ensures TurnDeltas(-rotDiff, g) == Deltas(TurnDeltas(rotDiff, g).left, TurnDeltas(rotDiff, g).right)
    ensures TurnDeltas(-rotDiff, g) == Deltas(-TurnDeltas(rotDiff, g).right, -TurnDeltas(rotDiff, g).left)
  {
    assert ArcLength(-rotDiff, g) == ArcLength(rotDiff, g);
  }

  /** A translation frame moves both wheels by the same amount: forward (non-negative)
      when the body moves towards -Y, backward otherwise; the magnitude is the
      rounded wheel angle for the full 3-D distance travelled. */
  lemma TranslationFrame(prev: Sample, cur: Sample, g: Geometry, length: Vec3 -> real)
    requires g.Valid() && IsLength(length)
    requires !IsTurn(cur.heading - prev.heading)
    ensures var d := FrameDeltas(prev, cur, g, length);
      var movement := Sub(cur.position, prev.position);
      var ticks := RadiansToTicks(WheelAngle(length(movement), g), g.ticksPerRevolution);
      && ticks >= 0
      && d.right == d.left
      && (movement.y < 0.0 ==> d.right == ticks)
      && (movement.y >= 0.0 ==> d.right == -ticks)
  {
    var movement := Sub(cur.position, prev.position);
    assert length(movement) >= 0.0;
    RadiansToTicksNonNegative(WheelAngle(length(movement), g), g.ticksPerRevolution);
  }

  /** A frame where the body neither turns nor moves leaves both wheels still. */
  lemma StillFrame(prev: Sample, cur: Sample, g: Geometry, length: Vec3 -> real)
    requires g.Valid() && IsLength(length)
    requires cur.heading == prev.heading && cur.position == prev.position
    ensures FrameDeltas(prev, cur, g, length) == Deltas(0, 0)
  {
    assert Sub(cur.position, prev.position) == Vec3(0.0, 0.0, 0.0);
    assert WheelAngle(0.0, g) == 0.0;
    RoundOfInteger(0);
  }

  // ---------------------------------------------------------------------
  // Properties of the whole output

  /** One record per frame of the range, in increasing frame order, the first
      being the starting frame with zero ticks. */
  lemma RotationsShape(scene: int -> Sample, frameStart: int, frameEnd: int, g: Geometry, length: Vec3 -> real)
    requires g.Valid()
    ensures var r := Rotations(scene, frameStart, frameEnd, g, length);
      && |r| == FrameCount(frameStart, frameEnd)
      && r[0] == DriveCommand(frameStart, RotationToMicroseconds(scene(frameStart).headPan), 0, 0)
      && (forall k :: 0 <= k < |r| ==> r[k].frame == frameStart + k)
      && (forall i, j :: 0 <= i < j < |r| ==> r[i].frame < r[j].frame)
  {
  }

  /** Record `k` of the result is `RecordAt` for `k`. */
  lemma RotationsAt(scene: int -> Sample, frameStart: int, frameEnd: int, g: Geometry, length: Vec3 -> real, k: int)
    requires g.Valid()
    requires 0 <= k < FrameCount(frameStart, frameEnd)
    ensures Rotations(scene, frameStart, frameEnd, g, length)[k] == RecordAt(scene, frameStart, k, g, length)
  {
  }

  /** Each record after the first adds that frame's deltas to the previous
      record's totals, and its servo value depends only on that frame's head
      angle. */
  lemma RotationsAccumulate(scene: int -> Sample, frameStart: int, frameEnd: int, g: Geometry, length: Vec3 -> real, k: int)
    requires g.Valid()
    requires 0 < k < FrameCount(frameStart, frameEnd)
    ensures var r := Rotations(scene, frameStart, frameEnd, g, length);
      var d := FrameDeltas(scene(frameStart + k - 1), scene(frameStart + k), g, length);
      && r[k].rightTicks == r[k - 1].rightTicks + d.right
      && r[k].leftTicks == r[k - 1].leftTicks + d.left
      && r[k].servoUs == RotationToMicroseconds(scene(r[k].frame).headPan)
  {
  }

  /** Over a run of frames none of which turns, the difference between the
      right and the left total does not change. */
  lemma {:induction false} NoTurnKeepsDifference(scene: int -> Sample, frameStart: int, a: nat, b: nat, g: Geometry, length: Vec3 -> real)
    requires g.Valid()
    requires a <= b
    requires forall f :: frameStart + a < f <= frameStart + b ==> !IsTurn(scene(f).heading - scene(f - 1).heading)
    ensures var ta, tb := Totals(scene, frameStart, a, g, length), Totals(scene, frameStart, b, g, length);
      tb.right - tb.left == ta.right - ta.left
    decreases b
  {
    if a < b {
      NoTurnKeepsDifference(scene, frameStart, a, b - 1, g, length);
      var prev, cur := scene(frameStart + b - 1), scene(frameStart + b);
      assert !IsTurn(cur.heading - prev.heading);
      var d := FrameDeltas(prev, cur, g, length);
      assert d.right == d.left;
    }
  }

  /** Hence, over a run with no turn frames from the start, the two totals stay equal. */
  lemma NoTurnKeepsTotalsEqual(scene: int -> Sample, frameStart: int, n: nat, g: Geometry, length: Vec3 -> real)
    requires g.Valid()
    requires forall f :: frameStart < f <= frameStart + n ==> !IsTurn(scene(f).heading - scene(f - 1).heading)
    ensures Totals(scene, frameStart, n, g, length).right == Totals(scene, frameStart, n, g, length).left
  {
    NoTurnKeepsDifference(scene, frameStart, 0, n, g, length);
  }

  /** Straight-line motion: if the heading stays fixed and the body moves by the
      same vector every frame, each wheel total after `n` frames is `n` times
      one frame's signed tick count. */
  lemma {:induction false} StraightLineTotals(scene: int -> Sample, frameStart: int, n: nat, v: Vec3, g: Geometry, length: Vec3 -> real)
    requires g.Valid()
    requires forall f :: frameStart < f <= frameStart + n ==>
      scene(f).heading == scene(f - 1).heading && Sub(scene(f).position, scene(f - 1).position) == v
    ensures var step := if v.y < 0.0 then TranslationTicks(v, g, length) else -TranslationTicks(v, g, length);
      Totals(scene, frameStart, n, g, length) == TickTotals(n * step, n * step)
  {
    if n > 0 {
      StraightLineTotals(scene, frameStart, n - 1, v, g, length);
      var step := if v.y < 0.0 then TranslationTicks(v, g, length) else -TranslationTicks(v, g, length);
      var prev, cur := scene(frameStart + n - 1), scene(frameStart + n);
      assert cur.heading == prev.heading && Sub(cur.position, prev.position) == v;
      assert !IsTurn(cur.heading - prev.heading);
      assert FrameDeltas(prev, cur, g, length) == TranslationDeltas(v, g, length) == Deltas(step, step);
      assert n * step == (n - 1) * step + step;
    }
  }
}
