# Playbot exporter: trajectory to drive commands

This project models the core of the Playbot Exporter Blender add-on. The add-on
turns an animated two-wheeled robot into the firmware-compatible command stream the robot plays
back. For every frame of the scene's frame range it samples the body's position
and heading and the head's pan angle. It classifies each frame as a turn in
place or a straight translation, and converts the wheel travel into encoder
ticks. It keeps running right and left tick totals and maps the pan angle to
a servo pulse width. Two consumers use the resulting list of
`(frame, servo_us, right_ticks, left_ticks)` records:

- the export operator writes one `frame/servo/right/left` line per record;
- the bake operator converts the tick totals back into wheel angles and writes
  them as keyframes on each wheel's `rotation_euler[1]` curve.

Modules, following the source's structure:

- `Numeric` (`numeric.dfy`): `math.pi` and Python's `abs` and `round` on reals.
  Rounding is half-to-even, which is also what the `:.0f` format does.
- `Units` (`units.dfy`): `radians_to_ticks`, `ticks_to_radians` and
  `rotation_to_microseconds` as functions, with their round trip, sign,
  range, monotonicity and saturation lemmas.
- `Kinematics` (`kinematics.dfy`): `calculate_rotations`.
  - The method `CalculateRotations` is the source's loop, with the same state
    (previous position, previous heading, two running totals, the growing list).
  - It is proved equal to the value `Rotations`, which is built from the
    per-frame deltas `FrameDeltas` and the running sums `Totals`.
  - Lemmas give the turn and translation sign rules, the mirror symmetry of
    turns, the accumulator law, and the straight-run laws.
- `CommandText` (`command_text.dfy`): the export's write loop `WriteCommands`,
  the export operator `ExportRotations`, and the text they produce
  (`Serialize`).
  - `Decode` is a reader of this format.
  - `DecodeSerialize` proves that decoding the text gives back every record, in
    order, with the servo value rounded the way `:.0f` rounds it.
- `WheelBake` (`wheel_bake.dfy`): a `Wheel` class.
  - Its fields are `rotation_euler.y` and the `rotation_euler[1]` F-curve, the
    curve modelled as a map from frame to value.
  - Its methods model the F-curve removal and `keyframe_insert`.
  - The per-wheel loop is `BakeWheel` and the operator is `BakeWheelRotation`.
  - Both are proved against the value `Track`.

Modelling choices:

- Floats are reals. `PI` is the exact value of the double `math.pi`. The
  threshold `0.01` is the exact decimal.
- The scene is a parameter `scene: int -> Sample`, the pose the scene gives
  once a frame is set, together with `frameStart` and `frameEnd`.
  - This keeps the `range(frame_start + 1, frame_end + 1)` semantics.
  - So an end frame before the start frame still gives the single first record.
- `Vector.length` (mathutils) is a parameter `length: Vec3 -> real`. `IsLength`
  constrains it to be non-negative and zero on the zero vector.
  - It is applied to the full 3-D movement vector, as the code does. A
    horizontal-only norm would be a different model.
- The geometry must satisfy `Geometry.Valid()`: diameter > 0, spacing > 0 and
  ticks per revolution >= 1. The `min=` arguments of the `RobotProperties`
  properties (lines 366-385) are 1.0, 1.0 and 1, which are stronger.
- The docstring of `rotation_to_microseconds` says that ±π maps to 2000/1000 µs.
  The formula adds 500 µs per 90°, so it already saturates at ±π/2.
  - The model follows the formula.
  - `ServoSaturatesAtQuarterTurn` states where it saturates, and
    `ServoLinearWithinQuarterTurn` states that it is linear inside that range.
- If the left and right wheel names resolve to the same object, the bake runs
  twice on it and the right wheel's keys remain. `BakeWheelRotation`'s contract
  says so.

## Model

| member | source | states |
|---|---|---|
| `Numeric.Round` | Python/Playbot_Exporter.py:33 | `round` of a float: the result is within 1/2 of the argument, and on an exact tie it is even |
| `Units.RadiansToTicks` | Python/Playbot_Exporter.py:21-33 | the tick count is within half a tick of the angle's share of a full turn times the resolution; the tie rule is `Numeric.Round`'s |
| `Units.TicksToRadians` | Python/Playbot_Exporter.py:35-46 | the angle is `ticks` parts out of `ticks_per_revolution` of a full turn: angle · resolution = ticks · 2π |
| `Units.DegreesScale` | Python/Playbot_Exporter.py:61 | `math.degrees` scales by 180/π, so π is 180° |
| `Units.RotationToMicroseconds` | Python/Playbot_Exporter.py:48-63 | the servo pulse is always within [1000, 2000] µs |
| `Units.TicksRoundTrip` | Python/Playbot_Exporter.py:21-46 | for every non-zero resolution and every integer `t`, `radians_to_ticks(ticks_to_radians(t, r), r) == t` |
| `Units.RadiansToTicksNonNegative` | Python/Playbot_Exporter.py:32-33 | a non-negative angle with a non-negative resolution gives non-negative ticks |
| `Units.RadiansToTicksNegate` | Python/Playbot_Exporter.py:32-33 | negating the angle negates the ticks, because half-to-even rounding is symmetric |
| `Units.ServoCentre` | Python/Playbot_Exporter.py:61-63 | angle 0 gives exactly 1500 µs |
| `Units.ServoMonotone` | Python/Playbot_Exporter.py:61-63 | the pulse width is monotone non-decreasing in the angle |
| `Units.ServoSaturatesAtQuarterTurn` | Python/Playbot_Exporter.py:51-63 | every angle >= π/2 (π included) gives 2000 µs, and every angle <= -π/2 gives 1000 µs |
| `Units.ServoLinearWithinQuarterTurn` | Python/Playbot_Exporter.py:61-63 | between -π/2 and π/2 the clamp does not act: 1500 + degrees·500/90 |
| `Kinematics.ArcLength` | Python/Playbot_Exporter.py:97 | the wheel arc of a turn is never negative |
| `Kinematics.TurnDeltas` | Python/Playbot_Exporter.py:96-106 | the turn branch drives the wheels by opposite amounts: the two deltas sum to 0 |
| `Kinematics.TranslationDeltas` | Python/Playbot_Exporter.py:108-125 | the translation branch gives both wheels the same delta |
| `Kinematics.FrameDeltas` | Python/Playbot_Exporter.py:95-125 | a frame whose heading changed by more than 0.01 has opposite deltas, any other frame equal deltas |
| `Kinematics.WheelAngle` | Python/Playbot_Exporter.py:98-99 | `distance / wheel_radius`, as at lines 98-99 and 117-118: a non-negative distance gives a non-negative wheel angle |
| `Kinematics.TurnTicks` | Python/Playbot_Exporter.py:97-99 | the rounded ticks of `arc_length / wheel_radius`. `TurnFrame` proves that they are never negative |
| `Kinematics.TranslationTicks` | Python/Playbot_Exporter.py:110-118 | the rounded ticks of the 3-D movement length over the wheel radius. `TranslationFrame` proves that they are never negative |
| `Kinematics.FrameCount` | Python/Playbot_Exporter.py:83-87 | the first record plus one per frame of `range(frame_start + 1, frame_end + 1)`: always at least 1 |
| `Kinematics.Totals` | Python/Playbot_Exporter.py:73-74 | `total_right_ticks`/`total_left_ticks` after `k` frames (updated at lines 127-128). They start at (0, 0) (`RotationsShape`) and add each frame's `FrameDeltas` (`RotationsAccumulate`). `NoTurnKeepsDifference` and `StraightLineTotals` give the straight-run laws |
| `Kinematics.RecordAt` | Python/Playbot_Exporter.py:130 | the tuple appended for frame `frame_start + k`: that frame, its servo value and the totals after `k` frames. `Records` and `RotationsAt` prove that it is record `k` of the result |
| `Kinematics.Records` | Python/Playbot_Exporter.py:78-133 | the first `n` records, appended one per frame: exactly `n` of them, record `k` being frame `frame_start + k` with the servo value of that frame and the totals after `k` frames |
| `Kinematics.Rotations` | Python/Playbot_Exporter.py:65-135 | `calculate_rotations`' result has one record per frame of the range, and the first is `(frame_start, servo(head at start), 0, 0)` |
| `Kinematics.FrameTicks` | Python/Playbot_Exporter.py:95-125 | one frame of the loop: on a turn (heading change above 0.01) the deltas are the turn branch's, otherwise the translation branch's for the movement since the previous frame |
| `Kinematics.CalculateRotations` | Python/Playbot_Exporter.py:65-135 | the loop returns exactly `Rotations`, one record per frame of the range |
| `Kinematics.TurnFrame` | Python/Playbot_Exporter.py:95-106 | on a turn frame the deltas are `(+k, -k)` when the heading grows and `(-k, +k)` otherwise. `k` is the rounded wheel turn for arc `spacing·abs(rot_diff)/2` and is never negative, and the deltas sum to 0 |
| `Kinematics.TurnMirror` | Python/Playbot_Exporter.py:96-106 | heading changes of `+θ` and `-θ` beyond the threshold give sign-swapped mirror deltas |
| `Kinematics.TranslationFrame` | Python/Playbot_Exporter.py:108-125 | on a translation frame both wheels get the same delta: `+ticks` when `movement.y < 0` and `-ticks` otherwise. `ticks` is the rounded wheel turn for the full 3-D length and is never negative |
| `Kinematics.StillFrame` | Python/Playbot_Exporter.py:108-125 | a frame with no heading change and no movement adds no ticks |
| `Kinematics.RotationsShape` | Python/Playbot_Exporter.py:78-130 | the records are one per frame, frames `frame_start + k` in strictly increasing order, and the first has zero ticks |
| `Kinematics.RotationsAccumulate` | Python/Playbot_Exporter.py:92-133 | each later record's totals are the previous record's plus that frame's deltas, and its servo value is a function of that frame's head angle alone |
| `Kinematics.NoTurnKeepsDifference` | Python/Playbot_Exporter.py:122-128 | over frames that are not turns, `right - left` does not change |
| `Kinematics.NoTurnKeepsTotalsEqual` | Python/Playbot_Exporter.py:122-128 | with no turn frame since the start, the right and left totals are equal |
| `Kinematics.StraightLineTotals` | Python/Playbot_Exporter.py:108-128 | with a fixed heading and the same movement `v` every frame, both totals after `n` frames are `n` times one frame's signed ticks |
| `CommandText.IntToString` | Python/Playbot_Exporter.py:237 | `str(int)` is never empty. `IntToStringRoundTrip` shows it reads back as the integer, and `IntToStringCanonical` shows it carries a '-' exactly for negative values, no leading zero and no "-0" |
| `CommandText.IntToStringCanonical` | Python/Playbot_Exporter.py:237 | the decimal text starts with '-' exactly for negative values, starts with '0' only for 0, and never reads "-0…" |
| `CommandText.FormatFixed0Sign` | Python/Playbot_Exporter.py:237 | `:.0f` starts with '-' exactly for negative values: `"-"` and the magnitude of the rounded value (so "-0" for a value in [-0.5, 0)), and for other values the rounded value's decimal text |
| `CommandText.Fields` | Python/Playbot_Exporter.py:237 | the four `/`-separated fields of the line. `FieldsHaveNoNewline` proves that they hold no newline, and `DecodeOneLine` that they read back as the record |
| `CommandText.IntToStringRoundTrip` | Python/Playbot_Exporter.py:237 | the decimal text of a tick count or frame reads back as the same integer |
| `CommandText.FormatFixed0` | Python/Playbot_Exporter.py:237 | `:.0f` of the servo value reads back as its half-to-even rounding and holds no `/` or newline |
| `CommandText.Line` | Python/Playbot_Exporter.py:237 | every written line ends in a newline |
| `CommandText.Serialize` | Python/Playbot_Exporter.py:235-237 | the text is empty exactly when there are no records |
| `CommandText.WireAll` | Python/Playbot_Exporter.py:237 | the records as a reader sees them: one per record, in order, with the servo rounded |
| `CommandText.Decode` | Python/Playbot_Exporter.py:235-237 | a text that decodes yields one command per newline it holds |
| `CommandText.SerializeAppend` | Python/Playbot_Exporter.py:235-237 | writing one more record appends exactly its line |
| `CommandText.WriteCommands` | Python/Playbot_Exporter.py:235-237 | the write loop produces exactly `Serialize`: the records' lines in order, with no header or trailer |
| `CommandText.ExportRotations` | Python/Playbot_Exporter.py:201-237 | the exported text is the serialization of `calculate_rotations`' output and decodes to those records |
| `CommandText.DecodeSerialize` | Python/Playbot_Exporter.py:235-237 | decoding the text gives every record back in order, with the servo rounded |
| `CommandText.SerializeLineCount` | Python/Playbot_Exporter.py:235-237 | the text holds exactly one newline per record |
| `CommandText.LineExample` | Python/Playbot_Exporter.py:237 | the record `(5, 1500.0, -12, 12)` is written as `5/1500/-12/12\n` |
| `WheelBake.Wheel.constructor` | Python/Playbot_Exporter.py:316-328 | a wheel with the given `rotation_euler.y` and `rotation_euler[1]` curve |
| `WheelBake.Wheel.RemoveRotationYCurve` | Python/Playbot_Exporter.py:316-320 | the `rotation_euler[1]` curve is gone (empty) and the property value is unchanged |
| `WheelBake.Wheel.KeyframeInsertRotationY` | Python/Playbot_Exporter.py:327-328 | the curve gains, or replaces, a key at the frame holding the current `rotation_euler.y` |
| `WheelBake.WheelTicks` | Python/Playbot_Exporter.py:324 | the left or the right total of a record, as the per-wheel loop picks it. `TrackValues` and `BakedTrackValue` show it is the total keyed for that wheel |
| `WheelBake.Track` | Python/Playbot_Exporter.py:323-328 | the keys written for a list of records: at most one per record, and none exactly when there are no records |
| `WheelBake.BakeWheel` | Python/Playbot_Exporter.py:316-330 | after clearing and keying, the curve is `Track` of the records, which does not depend on the old curve. `rotation_euler.y` is left at the last record's angle |
| `WheelBake.BakeWheelRotation` | Python/Playbot_Exporter.py:289-330 | the right wheel's curve is the right-tick track of `calculate_rotations`' output and its `rotation_euler.y` is the angle of the last record's right total. The left wheel gets the left-tick track and the last left total's angle, unless the two are the same object |
| `WheelBake.BakeTwice` | Python/Playbot_Exporter.py:316-328 | baking a second time with the same inputs leaves exactly the tracks of the first bake |
| `WheelBake.TrackKeys` | Python/Playbot_Exporter.py:323-328 | the keys of a baked track are exactly the frames of the records |
| `WheelBake.TrackValues` | Python/Playbot_Exporter.py:323-328 | with strictly increasing frames, each record's `ticks_to_radians` of its own wheel's total is the key at its frame |
| `WheelBake.BakedTrackKeys` | Python/Playbot_Exporter.py:289-328 | after a bake each wheel's track has a key at every frame of the range and nowhere else |
| `WheelBake.BakedTrackValue` | Python/Playbot_Exporter.py:323-328 | the key at frame `frame_start + k` is `ticks_to_radians` of that wheel's total after `k` frames, and `radians_to_ticks` of it is that total again |

## Left out

- Blender scene access (`scene.frame_set`, `matrix_world`, `rotation_euler` reads, `bpy.data.objects` lookups): replaced by the explicit `scene` parameter. The `KeyError` to `CANCELLED` path (lines 193-199 and 281-287) and the operator's `poll` (lines 273-276) are host lookup glue.
- IsLength: `Vector.length` lives in mathutils. The model only assumes it is non-negative and zero on the zero vector. It does not model the Euclidean square root itself.
- Floating-point behaviour: reals stand for floats, so no float rounding is modelled. That covers the quotient and product at line 32, `ticks * 2 * math.pi` and the division by `ticks_per_revolution` at line 46, and `math.degrees` and the `500 / 90` factor at lines 61-62. A float `-0.0` cannot be told from `0.0`.
- Rendering: `render_viewport`, the viewport shading and overlay save and restore, `os.makedirs`, `bpy.ops.render.opengl` and the per-frame PNG paths (lines 158-188 and 211-263) are host UI and I/O.
- The nested `bpy.ops.robot.bake_wheel_rotation` call inside the export (line 209) is not modelled in `ExportRotations`. `BakeWheelRotation` models that operator on its own.
- Selection and active-object save and restore around the bake (lines 296-307 and 330-335), and `animation_data`/action creation (lines 309-314): host glue.
- Opening and writing the file: `Serialize` is the text passed to `f.write` at line 237. The file at line 235 is opened in text mode, so that text is the file's bytes only on POSIX systems. On Windows every `\n` becomes `\r\n`, and `Decode` rejects such a file. Newline translation is not modelled.
- The default `ticks_per_revolution=870` of `radians_to_ticks` and `ticks_to_radians` (lines 21 and 35) is not modelled: every call site passes `ticks_per_rev`, so the default is never used.
- `RobotProperties` defaults, `ROBOT_PT_panel`, `register`/`unregister`, and `ExportHelper`/`invoke`: UI and registration. The property minimums appear as the `Geometry.Valid()` precondition.
