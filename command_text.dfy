/** The text format written by the export operator: one line
    `frame/servo/right/left` per drive command, each ending in a newline, and
    nothing else. `Decode` is a reader of this format and the serializer's
    partner. */
module CommandText {
  import opened Numeric
  import opened Kinematics

  // ---------------------------------------------------------------------
  // Decimal integers, as Python's `str(int)` writes them

  predicate IsDigit(c: char) {
    '0' <= c <= '9'
  }

  predicate AllDigits(s: string) {
    forall i :: 0 <= i < |s| ==> IsDigit(s[i])
  }

  function DigitChar(d: int): (c: char)
    requires 0 <= d < 10
    ensures IsDigit(c)
  {
    (('0' as int) + d) as char
  }

  function DigitValue(c: char): (d: int)
    requires IsDigit(c)
    ensures 0 <= d < 10
  {
    (c as int) - ('0' as int)
  }

  /** Decimal digits of `n`, most significant first, no leading zeros. */
  function NatToString(n: nat): (s: string)
    ensures |s| >= 1 && AllDigits(s)
    ensures s[0] == '0' ==> n == 0
    decreases n
  {
    if n < 10 then [DigitChar(n)] else
      var high := NatToString(n / 10);
      assert (high + [DigitChar(n % 10)])[0] == high[0];
      high + [DigitChar(n % 10)]
  }

  function IntToString(i: int): (s: string)
    ensures |s| >= 1
  {
    if i < 0 then "-" + NatToString(-i) else NatToString(i)
  }

  /** Python's `str(int)` is canonical: a '-' exactly for negative values, no
      leading zero, and no "-0". */
  lemma IntToStringCanonical(i: int)
    ensures IntToString(i)[0] == '-' <==> i < 0
    ensures IntToString(i)[0] == '0' ==> i == 0
    ensures i < 0 ==> IntToString(i)[1] != '0'
  {
    if i < 0 {
      assert IntToString(i)[1] == NatToString(-i)[0];
    } else {
      assert IsDigit(NatToString(i)[0]);
    }
  }

  /** The value of a string of decimal digits. */
  function DigitsValue(s: string): nat
    requires AllDigits(s)
  {
    if s == [] then 0 else DigitsValue(s[..|s| - 1]) * 10 + DigitValue(s[|s| - 1])
  }

  /** A signed decimal integer: an optional '-' and at least one digit. */
  function ParseInt(s: string): Option<int> {
    if |s| >= 2 && s[0] == '-' && AllDigits(s[1..]) then Some(-(DigitsValue(s[1..]) as int))
    else if |s| >= 1 && AllDigits(s) then Some(DigitsValue(s))
    else None
  }

  datatype Option<T> = None | Some(value: T)

  lemma {:induction false} NatToStringValue(n: nat)
    ensures DigitsValue(NatToString(n)) == n
    decreases n
  {
    var s := NatToString(n);
    if n >= 10 {
      NatToStringValue(n / 10);
      assert s[..|s| - 1] == NatToString(n / 10);
    }
  }

  /** Printing an integer and reading it back gives the same integer. */
  lemma IntToStringRoundTrip(i: int)
    ensures ParseInt(IntToString(i)) == Some(i)
  {
    if i < 0 {
      var d := NatToString(-i);
      NatToStringValue(-i);
      ParseNegative(d);
      assert IntToString(i) == "-" + d;
    } else {
      var d := NatToString(i);
      NatToStringValue(i);
      ParseDigits(d);
      assert IntToString(i) == d;
    }
  }

  lemma ParseNegative(d: string)
    requires |d| >= 1 && AllDigits(d)
    ensures ParseInt("-" + d) == Some(-(DigitsValue(d) as int))
  {
    assert ("-" + d)[1..] == d;
  }

  lemma ParseDigits(d: string)
    requires |d| >= 1 && AllDigits(d)
    ensures ParseInt(d) == Some(DigitsValue(d) as int)
  {
    assert IsDigit(d[0]);
  }

  /** Printed integers hold no field or line separator. */
  lemma IntToStringHasNoSeparator(i: int, c: char)
    requires c == '/' || c == '\n'
    ensures c !in IntToString(i)
  {
    var s := IntToString(i);
    if i < 0 {
      assert forall k :: 1 <= k < |s| ==> s[k] == NatToString(-i)[k - 1];
    }
  }

  // ---------------------------------------------------------------------
  // Serialization

  /** Python's `format(x, '.0f')`: the nearest integer, ties to even, and a
      negative value that rounds to zero keeps its sign ("-0").
      The text reads back as the rounded value and holds no separator. */
  function FormatFixed0(x: real): (s: string)
    ensures ParseInt(s) == Some(Round(x))
    ensures '/' !in s && '\n' !in s
  {
    if x < 0.0 && Round(x) == 0 then
      assert "-0"[1..] == "0";
      assert "0"[..0] == [];
      "-0"
    else
      IntToStringRoundTrip(Round(x));
      IntToStringHasNoSeparator(Round(x), '/');
      IntToStringHasNoSeparator(Round(x), '\n');
      IntToString(Round(x))
  }

  /** `format(x, '.0f')` writes a '-' exactly for negative values, followed
      by the magnitude of the rounded value; otherwise the rounded value. */
  lemma FormatFixed0Sign(x: real)
    ensures FormatFixed0(x)[0] == '-' <==> x < 0.0
    ensures x < 0.0 ==> FormatFixed0(x) == "-" + IntToString(-Round(x))
    ensures x >= 0.0 ==> FormatFixed0(x) == IntToString(Round(x))
  {
    RoundOfInteger(0);
    if x < 0.0 {
      RoundMonotone(x, 0.0);
      if Round(x) == 0 {
        assert IntToString(0) == "0";
      } else {
        IntToStringCanonical(Round(x));
      }
    } else {
      RoundNonNegative(x);
      IntToStringCanonical(Round(x));
    }
  }

  /** The four fields written for one drive command, `/`-separated. */
  function Fields(c: DriveCommand): string {
    IntToString(c.frame) + "/" + FormatFixed0(c.servoUs) + "/"
      + IntToString(c.rightTicks) + "/" + IntToString(c.leftTicks)
  }

  /** The fields of a command hold no line separator. */
  lemma FieldsHaveNoNewline(c: DriveCommand)
    ensures '\n' !in Fields(c)
  {
    IntToStringHasNoSeparator(c.frame, '\n');
    IntToStringHasNoSeparator(c.rightTicks, '\n');
    IntToStringHasNoSeparator(c.leftTicks, '\n');
  }

  /** The line written for one drive command: it ends in a newline. */
  function Line(c: DriveCommand): (l: string)
    ensures |l| >= 1 && l[|l| - 1] == '\n'
  {
    Fields(c) + "\n"
  }

  /** The whole file: the lines of the commands, in order, and nothing else.
      It is empty exactly when there are no commands. */
  function Serialize(commands: seq<DriveCommand>): (text: string)
    ensures text == [] <==> commands == []
  {
    if commands == [] then "" else Line(commands[0]) + Serialize(commands[1..])
  }

  lemma {:induction false} SerializeAppend(commands: seq<DriveCommand>, c: DriveCommand)
    ensures Serialize(commands + [c]) == Serialize(commands) + Line(c)
    decreases |commands|
  {
    if commands == [] {
      assert [c][1..] == [];
    } else {
      assert (commands + [c])[1..] == commands[1..] + [c];
      SerializeAppend(commands[1..], c);
    }
  }

  lemma SerializePrefix(commands: seq<DriveCommand>, i: nat)
    requires i < |commands|
    ensures Serialize(commands[..i + 1]) == Serialize(commands[..i]) + Line(commands[i])
  {
    assert commands[..i + 1] == commands[..i] + [commands[i]];
    SerializeAppend(commands[..i], commands[i]);
  }

  /** The write loop of the export operator. */
  method WriteCommands(frameData: seq<DriveCommand>) returns (text: string)
    ensures text == Serialize(frameData)
  {
    text := "";
    for i := 0 to |frameData|
      invariant text == Serialize(frameData[..i])
    {
      SerializePrefix(frameData, i);
      text := text + Line(frameData[i]);
    }
    assert frameData[..|frameData|] == frameData;
  }

  /** `ROBOT_OT_export_rotations.execute`, without the nested bake and the
      rendering: compute the commands, then produce the file's text. */
  method ExportRotations(scene: int -> Sample, frameStart: int, frameEnd: int, g: Geometry, length: Vec3 -> real)
    returns (text: string)
    requires g.Valid()
    ensures text == Serialize(Rotations(scene, frameStart, frameEnd, g, length))
    ensures Decode(text) == Some(WireAll(Rotations(scene, frameStart, frameEnd, g, length)))
  {
    var frameData := CalculateRotations(scene, frameStart, frameEnd, g, length);
    text := WriteCommands(frameData);
    DecodeSerialize(frameData);
  }

  // ---------------------------------------------------------------------
  // Reading the format back

  /** A command as a reader of the format sees it: every field an integer. */
  datatype WireCommand = WireCommand(frame: int, servoUs: int, rightTicks: int, leftTicks: int)

  function Wire(c: DriveCommand): WireCommand {
    WireCommand(c.frame, Round(c.servoUs), c.rightTicks, c.leftTicks)
  }

  /** The commands as they read back, one for one and in order. */
  function WireAll(commands: seq<DriveCommand>): (w: seq<WireCommand>)
    ensures |w| == |commands|
    ensures forall k :: 0 <= k < |w| ==> w[k] == Wire(commands[k])
  {
    if commands == [] then [] else [Wire(commands[0])] + WireAll(commands[1..])
  }

  /** Index of the first `sep` in `s`, or `|s|` when there is none. */
  function Find(s: string, sep: char): (i: nat)
    ensures i <= |s|
    ensures i < |s| ==> s[i] == sep
    ensures forall j :: 0 <= j < i ==> s[j] != sep
  {
    if s == [] then 0 else if s[0] == sep then 0 else 1 + Find(s[1..], sep)
  }

  /** The text before the first `sep` and the text after it, if there is one. */
  function Split(s: string, sep: char): Option<(string, string)> {
    var i := Find(s, sep);
    if i == |s| then None else Some((s[..i], s[i + 1..]))
  }

  lemma SplitAfterField(a: string, sep: char, b: string)
    requires sep !in a
    ensures Split(a + [sep] + b, sep) == Some((a, b))
  {
    var s := a + [sep] + b;
    assert s[|a|] == sep;
    assert forall j :: 0 <= j < |a| ==> s[j] == a[j];
    assert s[..|a|] == a && s[|a| + 1..] == b;
  }

  /** The four `/`-separated integer fields of one line. */
  function DecodeLine(line: string): Option<WireCommand> {
    match Split(line, '/')
    case None => None
    case Some((f, rest1)) =>
      match Split(rest1, '/')
      case None => None
      case Some((s, rest2)) =>
        match Split(rest2, '/')
        case None => None
        case Some((r, l)) =>
          match (ParseInt(f), ParseInt(s), ParseInt(r), ParseInt(l))
          case (Some(frame), Some(servo), Some(right), Some(left)) => Some(WireCommand(frame, servo, right, left))
          case _ => None
  }

  /** A whole file: newline-terminated lines, each one a command. A file
      that decodes holds one command per newline. */
  function Decode(text: string): (r: Option<seq<WireCommand>>)
    ensures r.Some? ==> |r.value| == multiset(text)['\n']
    decreases |text|
  {
    if text == [] then Some([]) else
    match Split(text, '\n')
    case None => None
    case Some((line, rest)) =>
      assert text == line + ['\n'] + rest;
      assert '\n' !in line;
      match (DecodeLine(line), Decode(rest))
      case (Some(c), Some(cs)) => Some([c] + cs)
      case _ => None
  }

  /** Four fields free of `/` that each parse as an integer decode to the command they spell. */
  lemma DecodeFields(f: string, s: string, r: string, l: string, w: WireCommand)
    requires '/' !in f && '/' !in s && '/' !in r
    requires ParseInt(f) == Some(w.frame) && ParseInt(s) == Some(w.servoUs)
    requires ParseInt(r) == Some(w.rightTicks) && ParseInt(l) == Some(w.leftTicks)
    ensures DecodeLine(f + "/" + s + "/" + r + "/" + l) == Some(w)
  {
    var rest2 := r + "/" + l;
    var rest1 := s + "/" + rest2;
    assert f + "/" + s + "/" + r + "/" + l == f + "/" + rest1;
    SplitAfterField(f, '/', rest1);
    SplitAfterField(s, '/', rest2);
    SplitAfterField(r, '/', l);
  }

  lemma DecodeOneLine(c: DriveCommand)
    ensures '\n' !in Fields(c)
    ensures DecodeLine(Fields(c)) == Some(Wire(c))
  {
    var f, s, r, l := IntToString(c.frame), FormatFixed0(c.servoUs), IntToString(c.rightTicks), IntToString(c.leftTicks);
    IntToStringRoundTrip(c.frame);
    IntToStringRoundTrip(c.rightTicks);
    IntToStringRoundTrip(c.leftTicks);
    IntToStringHasNoSeparator(c.frame, '/');
    IntToStringHasNoSeparator(c.rightTicks, '/');
    FieldsHaveNoNewline(c);
    DecodeFields(f, s, r, l, Wire(c));
    assert Fields(c) == f + "/" + s + "/" + r + "/" + l;
  }

  /** A reader of the format gets back exactly the commands that were
      written, in order, with the servo value rounded as `:.0f` rounds it. */
  lemma {:induction false} DecodeSerialize(commands: seq<DriveCommand>)
    ensures Decode(Serialize(commands)) == Some(WireAll(commands))
    decreases |commands|
  {
    if commands != [] {
      DecodeSerialize(commands[1..]);
      DecodeFirstLine(commands[0], Serialize(commands[1..]));
      assert WireAll(commands) == [Wire(commands[0])] + WireAll(commands[1..]);
    }
  }

  /** A line followed by more text decodes to that line's command, then the rest. */
  lemma DecodeFirstLine(c: DriveCommand, rest: string)
    ensures Decode(Line(c) + rest) ==
      match Decode(rest)
      case Some(cs) => Some([Wire(c)] + cs)
      case None => None
  {
    DecodeOneLine(c);
    assert Line(c) + rest == Fields(c) + ['\n'] + rest;
    DecodeAfterLine(Fields(c), Wire(c), rest);
  }

  /** Text free of newlines that decodes as one command, a newline and more
      text decode to that command, then the rest. */
  lemma DecodeAfterLine(fields: string, w: WireCommand, rest: string)
    requires '\n' !in fields && DecodeLine(fields) == Some(w)
    ensures Decode(fields + ['\n'] + rest) ==
      match Decode(rest)
      case Some(cs) => Some([w] + cs)
      case None => None
  {
    SplitAfterField(fields, '\n', rest);
  }

  /** The line count of the file is the number of commands. */
  lemma {:induction false} SerializeLineCount(commands: seq<DriveCommand>)
    ensures multiset(Serialize(commands))['\n'] == |commands|
    decreases |commands|
  {
    if commands != [] {
      var c, rest := commands[0], commands[1..];
      FieldsHaveNoNewline(c);
      SerializeLineCount(rest);
      assert Serialize(commands) == Fields(c) + ['\n'] + Serialize(rest);
      NewlineCountAfterLine(Fields(c), Serialize(rest));
    }
  }

  /** A newline-free text, a newline and more text hold one newline more than the rest. */
  lemma NewlineCountAfterLine(fields: string, rest: string)
    requires '\n' !in fields
    ensures multiset(fields + ['\n'] + rest)['\n'] == multiset(rest)['\n'] + 1
  {
    assert multiset(fields + ['\n'] + rest) == multiset(fields) + multiset(['\n']) + multiset(rest);
  }

  /** The decimal numerals the worked example needs. */
  lemma ExampleNumerals()
    ensures NatToString(5) == "5" && NatToString(12) == "12" && NatToString(1500) == "1500"
  {
    assert NatToString(1) == "1";
    assert NatToString(15) == "15";
    assert NatToString(150) == "150";
  }

  /** The worked example: frame 5, centred servo, -12 and 12 ticks. */
  lemma LineExample()
    ensures Line(DriveCommand(5, 1500.0, -12, 12)) == "5/1500/-12/12\n"
  {
    RoundOfInteger(1500);
    ExampleNumerals();
    assert FormatFixed0(1500.0) == "1500";
    assert IntToString(-12) == "-12";
    assert Fields(DriveCommand(5, 1500.0, -12, 12)) == "5" + "/" + "1500" + "/" + "-12" + "/" + "12";
  }
}
