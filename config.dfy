/**
 * The frame codec of config.go: the status and configuration records of the
 * fan-controller board, the decoding of a received buffer into the first
 * recognised frame (parseData), and the rendering of a configuration as an
 * FCS command (configToStr).
 */
module FrameCodec {
  import opened GoLib
  import opened Util

  // ---------------------------------------------------------------------
  // Data model

  datatype Temperatures = Temperatures(sensorA: int8, sensorB: int8, sensorC: int8, sensorD: int8)

  datatype Outputs = Outputs(fan1: int8, fan2: int8, fan3: int8, fan4: int8)

  datatype Rpms = Rpms(
    fan1A: int16, fan1B: int16, fan2A: int16, fan2B: int16,
    fan3A: int16, fan3B: int16, fan4A: int16, fan4B: int16)

  /** One live snapshot sent by the board in an FCD record. */
  datatype Status = Status(temperatures: Temperatures, outputs: Outputs, rpms: Rpms)

  // Sensor type codes
  const SensorNotConnected: int8 := 0
  const SensorTypeC: int8 := 1
  const SensorTypeF: int8 := 2

  // Controlling-sensor codes
  const SensorA: int8 := 0
  const SensorB: int8 := 1
  const SensorC: int8 := 2
  const SensorD: int8 := 3
  const SensorAD: int8 := 4
  const SensorBD: int8 := 5
  const SensorCD: int8 := 6
  const ManualControl: int8 := 7

  // Fan type codes
  const FanNotConnected: int8 := 0
  const Fan2Wire: int8 := 1
  const Fan3WireX1Tacho: int8 := 2
  const Fan3WireX2Tacho: int8 := 3
  const Fan3WireX4Tacho: int8 := 4
  const Fan4Wire: int8 := 5

  datatype SensorTypes = SensorTypes(sensorTypeA: int8, sensorTypeB: int8, sensorTypeC: int8, sensorTypeD: int8)

  datatype FanConfig = FanConfig(
    minimumPower: int8,
    sensorControlling: int8,
    minimumTemperature: int16,
    maximumTemperature: int16,
    allowStopped: bool,
    fanTypeA: int8,
    fanTypeB: int8)

  /** The controller's full configuration, sent in FCR and set with FCS. */
  datatype Config = Config(
    sensorTypes: SensorTypes,
    fan1Config: FanConfig,
    fan2Config: FanConfig,
    fan3Config: FanConfig,
    fan4Config: FanConfig)

  /** What parseData returns; NoFrame stands for Go's nil. */
  datatype Frame =
    | StatusFrame(status: Status)
    | ConfigFrame(config: Config)
    | SuccessApply
    | ErrorMessage(message: string)
    | NoFrame

  /** Go's zero values Status{} and Config{}. */
  const ZeroStatus := Status(Temperatures(0, 0, 0, 0), Outputs(0, 0, 0, 0), Rpms(0, 0, 0, 0, 0, 0, 0, 0))
  const ZeroFan := FanConfig(0, 0, 0, 0, false, 0, 0)
  const ZeroConfig := Config(SensorTypes(0, 0, 0, 0), ZeroFan, ZeroFan, ZeroFan, ZeroFan)

  const NUL: char := 0 as char
  const CRLF: string := "\r\n"

  // ---------------------------------------------------------------------
  // Wire layout: the numeric fields of a record, in the order they travel

  /** The 16 numbers of an FCD record: temperatures A-D, outputs 1-4, RPMs 1A,1B,...,4B. */
  function StatusFields(s: Status): (r: seq<int>)
    ensures |r| == 16
    ensures forall i :: 0 <= i < |r| ==> -32768 <= r[i] < 32768
  {
    [s.temperatures.sensorA, s.temperatures.sensorB, s.temperatures.sensorC, s.temperatures.sensorD,
     s.outputs.fan1, s.outputs.fan2, s.outputs.fan3, s.outputs.fan4,
     s.rpms.fan1A, s.rpms.fan1B, s.rpms.fan2A, s.rpms.fan2B,
     s.rpms.fan3A, s.rpms.fan3B, s.rpms.fan4A, s.rpms.fan4B]
  }

  /** The 7 numbers of one fan channel; AllowStopped travels as 0 or 1. */
  function FanFields(f: FanConfig): (r: seq<int>)
    ensures |r| == 7
    ensures forall i :: 0 <= i < |r| ==> -32768 <= r[i] < 32768
  {
    [f.minimumPower, f.sensorControlling, f.minimumTemperature, f.maximumTemperature,
     BoolToInt(f.allowStopped), f.fanTypeA, f.fanTypeB]
  }

  /** The 32 numbers of an FCR / FCS record: sensor types A-D, then fans 1-4. */
  function ConfigFields(c: Config): (r: seq<int>)
    ensures |r| == 32
    ensures forall i :: 0 <= i < |r| ==> -32768 <= r[i] < 32768
  {
    [c.sensorTypes.sensorTypeA, c.sensorTypes.sensorTypeB, c.sensorTypes.sensorTypeC, c.sensorTypes.sensorTypeD]
    + FanFields(c.fan1Config) + FanFields(c.fan2Config) + FanFields(c.fan3Config) + FanFields(c.fan4Config)
  }

  /** Each number as %d prints it. */
  function Render(xs: seq<int>): (r: seq<string>)
    ensures |r| == |xs|
  {
    seq(|xs|, i requires 0 <= i < |xs| => IntToStr(xs[i]))
  }

  // ---------------------------------------------------------------------
  // Tag matching

  /** The text with one leading NUL removed, if it has one. */
  function StripNul(s: string): string {
    if |s| > 0 && s[0] == NUL then s[1..] else s
  }

  /** checkCommand: the tag is exactly the name, optionally preceded by one NUL. */
  function CheckCommand(cmd: string, name: string): (b: bool)
    ensures |name| > 0 && name[0] != NUL ==> (b <==> StripNul(cmd) == name)
  {
    cmd == name || cmd == [NUL] + name
  }

  /** checkCommandPrefix: the tag starts with the name, optionally after one NUL. */
  function CheckCommandPrefix(cmd: string, name: string): (b: bool)
    ensures |name| > 0 && name[0] != NUL ==> (b <==> HasPrefix(StripNul(cmd), name))
  {
    PrefixAfterNul(cmd, name);
    HasPrefix(cmd, name) || HasPrefix(cmd, [NUL] + name)
  }

  lemma PrefixAfterNul(cmd: string, name: string)
    ensures HasPrefix(cmd, [NUL] + name) <==> |cmd| > 0 && cmd[0] == NUL && HasPrefix(cmd[1..], name)
    ensures |name| > 0 && name[0] != NUL && |cmd| > 0 && cmd[0] == NUL ==> !HasPrefix(cmd, name)
  {
    if |name| > 0 && |cmd| >= |name| {
      assert cmd[..|name|][0] == cmd[0];
    }
    if HasPrefix(cmd, [NUL] + name) {
      assert cmd[..|name| + 1][0] == cmd[0];
      assert cmd[1..][..|name|] == cmd[..|name| + 1][1..];
    }
    if |cmd| > 0 && cmd[0] == NUL && HasPrefix(cmd[1..], name) {
      assert cmd[..|name| + 1] == [cmd[0]] + cmd[1..][..|name|];
    }
  }

  // ---------------------------------------------------------------------
  // Decoding

  /** The comma-separated fields of one record; a record that is a lone NUL counts as empty. */
  function RecordFields(rec: string): (sp: seq<string>)
    ensures |sp| >= 1
  {
    var rs := if rec != [NUL] then rec else "";
    Split(rs, ",")
  }

  function ParseStatus(sp: seq<string>): Status
    requires |sp| == 17
  {
    Status(
      Temperatures(StrToInt8(sp[1]), StrToInt8(sp[2]), StrToInt8(sp[3]), StrToInt8(sp[4])),
      Outputs(StrToInt8(sp[5]), StrToInt8(sp[6]), StrToInt8(sp[7]), StrToInt8(sp[8])),
      Rpms(StrToInt16(sp[9]), StrToInt16(sp[10]), StrToInt16(sp[11]), StrToInt16(sp[12]),
           StrToInt16(sp[13]), StrToInt16(sp[14]), StrToInt16(sp[15]), StrToInt16(sp[16])))
  }

  /** One fan channel from its 7 fields. */
  function ParseFan(f: seq<string>): FanConfig
    requires |f| == 7
  {
    FanConfig(
      StrToInt8(f[0]), StrToInt8(f[1]), StrToInt16(f[2]), StrToInt16(f[3]),
      Int8ToBool(StrToInt8(f[4])), StrToInt8(f[5]), StrToInt8(f[6]))
  }

  function ParseConfig(sp: seq<string>): Config
    requires |sp| == 33
  {
    Config(
      SensorTypes(StrToInt8(sp[1]), StrToInt8(sp[2]), StrToInt8(sp[3]), StrToInt8(sp[4])),
      ParseFan(sp[5..12]), ParseFan(sp[12..19]), ParseFan(sp[19..26]), ParseFan(sp[26..33]))
  }

  /** The recognition chain of parseData's loop, on the fields of one record. */
  function ParseFields(sp: seq<string>): Frame
    requires |sp| >= 1
  {
    if CheckCommand(sp[0], "FCD") && |sp| == 17 then StatusFrame(ParseStatus(sp))
    else if CheckCommand(sp[0], "FCR") && |sp| == 33 then ConfigFrame(ParseConfig(sp))
    else if CheckCommand(sp[0], "FCA") && |sp| == 1 then SuccessApply
    else if CheckCommandPrefix(sp[0], "ERR") && |sp| == 1 then ErrorMessage(TrimPrefix(sp[0], "ERR:"))
    else NoFrame
  }

  /** The body of parseData's loop: what one record decodes to. */
  function ParseRecord(rec: string): Frame {
    ParseFields(RecordFields(rec))
  }

  /** The records of a received buffer, in order. */
  function Records(d: seq<byte>): (recs: seq<string>)
    ensures |recs| >= 1
  {
    Split(BytesToString(d), CRLF)
  }

  /** The first record that decodes to a frame decides; NoFrame when none does. */
  function FirstFrame(recs: seq<string>): (f: Frame)
    ensures f.NoFrame? <==> forall i :: 0 <= i < |recs| ==> ParseRecord(recs[i]).NoFrame?
    ensures !f.NoFrame? ==>
      exists i :: 0 <= i < |recs| && f == ParseRecord(recs[i]) &&
        forall j :: 0 <= j < i ==> ParseRecord(recs[j]).NoFrame?
    decreases |recs|
  {
    if recs == [] then NoFrame
    else
      var f := ParseRecord(recs[0]);
      if !f.NoFrame? then f else FirstFrame(recs[1..])
  }

  /** What parseData returns for a buffer. */
  function Decode(d: seq<byte>): Frame {
    FirstFrame(Records(d))
  }

  /** parseData: scan the records in order and return the first recognised frame. */
  method ParseData(d: seq<byte>) returns (f: Frame)
    ensures f == Decode(d)
  {
    var ss := Split(BytesToString(d), CRLF);
    var k := 0;
    while k < |ss|
      invariant 0 <= k <= |ss|
      invariant FirstFrame(ss) == FirstFrame(ss[k..])
    {
      var r := ParseRecord(ss[k]);
      if !r.NoFrame? {
        return r;
      }
      assert ss[k..][1..] == ss[k + 1..];
      k := k + 1;
    }
    return NoFrame;
  }

  // ---------------------------------------------------------------------
  // Encoding

  /**
   * configToStr: the FCS command, without the line ending.  It starts with
   * "FCS," and its comma-separated fields are the tag followed by the 32
   * numbers of the layout printed with %d.
   */
  function ConfigToStr(c: Config): (r: string)
    ensures HasPrefix(r, "FCS,")
    ensures Split(r, ",") == ["FCS"] + Render(ConfigFields(c))
  {
    var xs := ConfigFields(c);
    SplitTagged("FCS", xs);
    "FCS" + "," + Join(Render(xs), ",")
  }

  // ---------------------------------------------------------------------
  // Properties of the codec

  /** Which kind of frame a record gives is decided by its tag and its field count alone. */
  lemma RecordKinds(rec: string)
    ensures var sp := RecordFields(rec);
      && (ParseRecord(rec).StatusFrame? <==> CheckCommand(sp[0], "FCD") && |sp| == 17)
      && (ParseRecord(rec).ConfigFrame? <==> CheckCommand(sp[0], "FCR") && |sp| == 33)
      && (ParseRecord(rec).SuccessApply? <==> CheckCommand(sp[0], "FCA") && |sp| == 1)
      && (ParseRecord(rec).ErrorMessage? <==> CheckCommandPrefix(sp[0], "ERR") && |sp| == 1)
  {
  }

  /** Every field of a decoded status comes from the field at the same position, narrowed to its width. */
  lemma StatusLayout(rec: string)
    requires ParseRecord(rec).StatusFrame?
    ensures var sp := RecordFields(rec);
      |sp| == 17 &&
      forall k :: 0 <= k < 16 ==>
        StatusFields(ParseRecord(rec).status)[k] == if k < 8 then StrToInt8(sp[k + 1]) else StrToInt16(sp[k + 1])
  {
    var sp := RecordFields(rec);
    assert CheckCommand(sp[0], "FCD") && |sp| == 17;
    assert ParseRecord(rec).status == ParseStatus(sp);
    StatusFieldsOf(sp);
  }

  /** The four fan channels of a configuration, in wire order. */
  function Fans(c: Config): (r: seq<FanConfig>)
    ensures |r| == 4
  {
    [c.fan1Config, c.fan2Config, c.fan3Config, c.fan4Config]
  }

  /**
   * A decoded configuration holds the sensor types as int8 in fields 1-4,
   * and channel n in fields 5+7n .. 11+7n: power and control as int8,
   * the two temperatures as int16, the stop flag as "that field read as
   * int8 is positive", and the two fan types as int8.
   */
  lemma ConfigLayout(rec: string)
    requires ParseRecord(rec).ConfigFrame?
    ensures var sp := RecordFields(rec);
      var c := ParseRecord(rec).config;
      && |sp| == 33
      && c.sensorTypes == SensorTypes(StrToInt8(sp[1]), StrToInt8(sp[2]), StrToInt8(sp[3]), StrToInt8(sp[4]))
      && forall n :: 0 <= n < 4 ==>
           var b := 5 + 7 * n;
           Fans(c)[n] == FanConfig(StrToInt8(sp[b]), StrToInt8(sp[b + 1]), StrToInt16(sp[b + 2]),
                                   StrToInt16(sp[b + 3]), StrToInt8(sp[b + 4]) > 0,
                                   StrToInt8(sp[b + 5]), StrToInt8(sp[b + 6]))
  {
    var sp := RecordFields(rec);
    assert CheckCommand(sp[0], "FCR") && |sp| == 33;
    assert ParseRecord(rec).config == ParseConfig(sp);
    ConfigFieldsOf(sp);
  }

  /** The field layout of ParseConfig, channel by channel. */
  lemma ConfigFieldsOf(sp: seq<string>)
    requires |sp| == 33
    ensures var c := ParseConfig(sp);
      && c.sensorTypes == SensorTypes(StrToInt8(sp[1]), StrToInt8(sp[2]), StrToInt8(sp[3]), StrToInt8(sp[4]))
      && forall n :: 0 <= n < 4 ==>
           var b := 5 + 7 * n;
           Fans(c)[n] == FanConfig(StrToInt8(sp[b]), StrToInt8(sp[b + 1]), StrToInt16(sp[b + 2]),
                                   StrToInt16(sp[b + 3]), StrToInt8(sp[b + 4]) > 0,
                                   StrToInt8(sp[b + 5]), StrToInt8(sp[b + 6]))
  {
    var c := ParseConfig(sp);
    forall n | 0 <= n < 4
      ensures var b := 5 + 7 * n;
        Fans(c)[n] == FanConfig(StrToInt8(sp[b]), StrToInt8(sp[b + 1]), StrToInt16(sp[b + 2]),
                                StrToInt16(sp[b + 3]), StrToInt8(sp[b + 4]) > 0,
                                StrToInt8(sp[b + 5]), StrToInt8(sp[b + 6]))
    {
      var b := 5 + 7 * n;
      if n == 0 {
        assert b == 5 && Fans(c)[n] == ParseFan(sp[5..12]);
      } else if n == 1 {
        assert b == 12 && Fans(c)[n] == ParseFan(sp[12..19]);
      } else if n == 2 {
        assert b == 19 && Fans(c)[n] == ParseFan(sp[19..26]);
      } else {
        assert b == 26 && Fans(c)[n] == ParseFan(sp[26..33]);
      }
      FanFieldsAt(sp, b);
    }
  }

  /** ParseFan on the 7 fields starting at b. */
  lemma FanFieldsAt(sp: seq<string>, b: nat)
    requires b + 7 <= |sp|
    ensures ParseFan(sp[b..b + 7])
      == FanConfig(StrToInt8(sp[b]), StrToInt8(sp[b + 1]), StrToInt16(sp[b + 2]), StrToInt16(sp[b + 3]),
                   StrToInt8(sp[b + 4]) > 0, StrToInt8(sp[b + 5]), StrToInt8(sp[b + 6]))
  {
    var f := sp[b..b + 7];
    assert f[0] == sp[b] && f[1] == sp[b + 1] && f[2] == sp[b + 2] && f[3] == sp[b + 3];
    assert f[4] == sp[b + 4] && f[5] == sp[b + 5] && f[6] == sp[b + 6];
  }

  /** The numbers of a decoded status, in wire order, are its fields read as int8 (8) then int16 (8). */
  lemma StatusFieldsOf(sp: seq<string>)
    requires |sp| == 17
    ensures forall k :: 0 <= k < 16 ==>
      StatusFields(ParseStatus(sp))[k] == if k < 8 then StrToInt8(sp[k + 1]) else StrToInt16(sp[k + 1])
  {
    var a := seq(8, i requires 0 <= i < 8 => StrToInt8(sp[i + 1]));
    var b := seq(8, i requires 0 <= i < 8 => StrToInt16(sp[i + 9]));
    assert ParseStatus(sp) == StatusOf(a, b);
    StatusOfFields(a, b);
  }

  function StatusOf(a: seq<int8>, b: seq<int16>): Status
    requires |a| == 8 && |b| == 8
  {
    Status(Temperatures(a[0], a[1], a[2], a[3]), Outputs(a[4], a[5], a[6], a[7]),
           Rpms(b[0], b[1], b[2], b[3], b[4], b[5], b[6], b[7]))
  }

  lemma StatusOfFields(a: seq<int8>, b: seq<int16>)
    requires |a| == 8 && |b| == 8
    ensures StatusFields(StatusOf(a, b)) == a + b
  {
  }

  /** An ERR record's message is the record with a leading "ERR:" removed, nothing trimmed. */
  lemma ErrorText(rec: string)
    requires ParseRecord(rec).ErrorMessage?
    ensures HasPrefix(StripNul(rec), "ERR")
    ensures HasPrefix(rec, "ERR:") ==> rec == "ERR:" + ParseRecord(rec).message
    ensures !HasPrefix(rec, "ERR:") ==> rec == ParseRecord(rec).message
  {
    var sp := RecordFields(rec);
    JoinSplit(if rec != [NUL] then rec else "", ",");
    assert sp == [sp[0]];
    assert rec != [NUL];
  }

  /** The pieces of a record of numbers carry no comma. */
  lemma RenderedNoComma(xs: seq<int>)
    ensures forall k, i :: 0 <= k < |Render(xs)| && 0 <= i < |Render(xs)[k]| ==> Render(xs)[k][i] != ','
  {
    forall k | 0 <= k < |xs| { IntToStrChars(xs[k]); }
  }

  /** A tag followed by numbers printed with %d splits back into the tag and those numbers. */
  lemma SplitTagged(tag: string, xs: seq<int>)
    requires |xs| >= 1
    requires forall i :: 0 <= i < |tag| ==> tag[i] != ','
    ensures Split(tag + "," + Join(Render(xs), ","), ",") == [tag] + Render(xs)
  {
    var parts := [tag] + Render(xs);
    assert parts[1..] == Render(xs);
    assert Join(parts, ",") == tag + "," + Join(Render(xs), ",");
    RenderedNoComma(xs);
    SplitJoin(parts, ",");
  }

  /** The fields of a tagged record of numbers are the tag and the numbers' texts. */
  lemma TaggedRecordFields(tag: string, xs: seq<int>)
    requires |xs| >= 1 && |tag| > 0 && tag[0] != NUL
    requires forall i :: 0 <= i < |tag| ==> tag[i] != ','
    ensures RecordFields(tag + "," + Join(Render(xs), ",")) == [tag] + Render(xs)
  {
    var line := tag + "," + Join(Render(xs), ",");
    assert line[0] == tag[0];
    SplitTagged(tag, xs);
  }

  /** Each of the 32 fields after the FCS tag is the decimal text of its number. */
  lemma ConfigToStrValues(c: Config)
    ensures |Split(ConfigToStr(c), ",")| == 33
    ensures forall k :: 0 <= k < 32 ==> Atoi(Split(ConfigToStr(c), ",")[k + 1]) == Some(ConfigFields(c)[k])
  {
    RenderedValues(ConfigFields(c));
  }

  /** Every number printed with %d that fits in 64 bits is parsed back by Atoi. */
  lemma RenderedValues(xs: seq<int>)
    requires forall i :: 0 <= i < |xs| ==> MinInt64 <= xs[i] <= MaxInt64
    ensures forall k :: 0 <= k < |xs| ==> Atoi(Render(xs)[k]) == Some(xs[k])
  {
    forall k | 0 <= k < |xs| ensures Atoi(Render(xs)[k]) == Some(xs[k]) {
      AtoiIntToStr(xs[k]);
    }
  }

  /** configToStr is one line of ASCII text: no CR, no LF. */
  lemma ConfigToStrOneLine(c: Config)
    ensures forall i :: 0 <= i < |ConfigToStr(c)| ==> ConfigToStr(c)[i] != '\r' && ConfigToStr(c)[i] != '\n'
    ensures IsByteString(ConfigToStr(c))
    ensures forall i :: 0 <= i < |ConfigToStr(c)| ==> ConfigToStr(c)[i] as int < 128
  {
    var xs := ConfigFields(c);
    var parts := ["FCS"] + Render(xs);
    forall k, i | 0 <= k < |parts| && 0 <= i < |parts[k]|
      ensures parts[k][i] != '\r' && parts[k][i] != '\n' && parts[k][i] as int < 128
    {
      if k > 0 {
        assert parts[k] == IntToStr(xs[k - 1]);
        IntToStrChars(xs[k - 1]);
      }
    }
    JoinAscii(parts);
    assert parts[1..] == Render(xs);
    assert Join(parts, ",") == ConfigToStr(c);
  }

  /** Joining pieces made of ASCII digits, letters and '-' with commas gives an ASCII line. */
  lemma {:induction false} JoinAscii(parts: seq<string>)
    requires forall k, i :: 0 <= k < |parts| && 0 <= i < |parts[k]| ==>
      parts[k][i] != '\r' && parts[k][i] != '\n' && parts[k][i] as int < 128
    ensures forall i :: 0 <= i < |Join(parts, ",")| ==>
      Join(parts, ",")[i] != '\r' && Join(parts, ",")[i] != '\n' && Join(parts, ",")[i] as int < 128
    decreases |parts|
  {
    if |parts| > 1 {
      JoinAscii(parts[1..]);
    }
  }

  /** One fan channel survives rendering and decoding. */
  lemma FanRoundTrip(f: FanConfig)
    ensures ParseFan(Render(FanFields(f))) == f
  {
    var r := Render(FanFields(f));
    StrToInt8RoundTrip(f.minimumPower);
    StrToInt8RoundTrip(f.sensorControlling);
    StrToInt16RoundTrip(f.minimumTemperature);
    StrToInt16RoundTrip(f.maximumTemperature);
    FlagRoundTrip(f.allowStopped);
    StrToInt8RoundTrip(f.fanTypeA);
    StrToInt8RoundTrip(f.fanTypeB);
  }

  /** The device-side FCD line for a status, in the layout parseData reads. */
  function StatusLine(s: Status): string {
    "FCD," + Join(Render(StatusFields(s)), ",")
  }

  lemma ParseStatusRendered(s: Status)
    ensures ParseStatus(["FCD"] + Render(StatusFields(s))) == s
  {
    var xs := StatusFields(s);
    var sp := ["FCD"] + Render(xs);
    forall k | 0 <= k < 16 ensures sp[k + 1] == IntToStr(xs[k]) { }
    var t := s.temperatures;
    var o := s.outputs;
    var m := s.rpms;
    StrToInt8RoundTrip(t.sensorA); StrToInt8RoundTrip(t.sensorB);
    StrToInt8RoundTrip(t.sensorC); StrToInt8RoundTrip(t.sensorD);
    StrToInt8RoundTrip(o.fan1); StrToInt8RoundTrip(o.fan2);
    StrToInt8RoundTrip(o.fan3); StrToInt8RoundTrip(o.fan4);
    StrToInt16RoundTrip(m.fan1A); StrToInt16RoundTrip(m.fan1B);
    StrToInt16RoundTrip(m.fan2A); StrToInt16RoundTrip(m.fan2B);
    StrToInt16RoundTrip(m.fan3A); StrToInt16RoundTrip(m.fan3B);
    StrToInt16RoundTrip(m.fan4A); StrToInt16RoundTrip(m.fan4B);
  }

  /** An FCD line carrying a status decodes to that very status. */
  lemma StatusLineRoundTrip(s: Status)
    ensures ParseRecord(StatusLine(s)) == StatusFrame(s)
  {
    var sp := ["FCD"] + Render(StatusFields(s));
    TaggedRecordFields("FCD", StatusFields(s));
    assert StatusLine(s) == "FCD" + "," + Join(Render(StatusFields(s)), ",");
    assert RecordFields(StatusLine(s)) == sp;
    assert CheckCommand(sp[0], "FCD") && |sp| == 17;
    ParseStatusRendered(s);
  }

  lemma RenderSlice(xs: seq<int>, a: nat, b: nat)
    requires a <= b <= |xs|
    ensures Render(xs)[a..b] == Render(xs[a..b])
  {
  }

  lemma ConfigFieldsSlices(c: Config)
    ensures ConfigFields(c)[..4] == [c.sensorTypes.sensorTypeA, c.sensorTypes.sensorTypeB,
                                     c.sensorTypes.sensorTypeC, c.sensorTypes.sensorTypeD]
    ensures ConfigFields(c)[4..11] == FanFields(c.fan1Config)
    ensures ConfigFields(c)[11..18] == FanFields(c.fan2Config)
    ensures ConfigFields(c)[18..25] == FanFields(c.fan3Config)
    ensures ConfigFields(c)[25..32] == FanFields(c.fan4Config)
  {
  }

  /** The seven texts of one fan channel decode back to that channel. */
  lemma FanSlot(f: FanConfig, xs: seq<int>, lo: nat)
    requires lo + 7 <= |xs| && xs[lo..lo + 7] == FanFields(f)
    ensures ParseFan((["FCR"] + Render(xs))[lo + 1..lo + 8]) == f
  {
    assert (["FCR"] + Render(xs))[lo + 1..lo + 8] == Render(xs)[lo..lo + 7];
    RenderSlice(xs, lo, lo + 7);
    FanRoundTrip(f);
  }

  /** One int8 text of a rendered record decodes back to its number. */
  lemma Int8Slot(xs: seq<int>, k: nat, v: int8)
    requires k < |xs| && xs[k] == v
    ensures StrToInt8((["FCR"] + Render(xs))[k + 1]) == v
  {
    assert (["FCR"] + Render(xs))[k + 1] == Render(xs)[k];
    StrToInt8RoundTrip(v);
  }

  lemma ConfigFromParts(sp: seq<string>, c: Config)
    requires |sp| == 33
    requires ParseFan(sp[5..12]) == c.fan1Config && ParseFan(sp[12..19]) == c.fan2Config
    requires ParseFan(sp[19..26]) == c.fan3Config && ParseFan(sp[26..33]) == c.fan4Config
    requires StrToInt8(sp[1]) == c.sensorTypes.sensorTypeA && StrToInt8(sp[2]) == c.sensorTypes.sensorTypeB
    requires StrToInt8(sp[3]) == c.sensorTypes.sensorTypeC && StrToInt8(sp[4]) == c.sensorTypes.sensorTypeD
    ensures ParseConfig(sp) == c
  {
  }

  /** 32 numbers laid out as a configuration's fields decode back to that configuration. */
  lemma ParseConfigLaidOut(xs: seq<int>, c: Config)
    requires |xs| == 32
    requires xs[0] == c.sensorTypes.sensorTypeA && xs[1] == c.sensorTypes.sensorTypeB
    requires xs[2] == c.sensorTypes.sensorTypeC && xs[3] == c.sensorTypes.sensorTypeD
    requires xs[4..11] == FanFields(c.fan1Config) && xs[11..18] == FanFields(c.fan2Config)
    requires xs[18..25] == FanFields(c.fan3Config) && xs[25..32] == FanFields(c.fan4Config)
    ensures ParseConfig(["FCR"] + Render(xs)) == c
  {
    FanSlot(c.fan1Config, xs, 4);
    FanSlot(c.fan2Config, xs, 11);
    FanSlot(c.fan3Config, xs, 18);
    FanSlot(c.fan4Config, xs, 25);
    var st := c.sensorTypes;
    Int8Slot(xs, 0, st.sensorTypeA);
    Int8Slot(xs, 1, st.sensorTypeB);
    Int8Slot(xs, 2, st.sensorTypeC);
    Int8Slot(xs, 3, st.sensorTypeD);
    ConfigFromParts(["FCR"] + Render(xs), c);
  }

  lemma ParseConfigRendered(c: Config)
    ensures ParseConfig(["FCR"] + Render(ConfigFields(c))) == c
  {
    var xs := ConfigFields(c);
    ConfigFieldsSlices(c);
    assert xs[..4][0] == xs[0] && xs[..4][1] == xs[1] && xs[..4][2] == xs[2] && xs[..4][3] == xs[3];
    ParseConfigLaidOut(xs, c);
  }

  /** configToStr with its FCS tag read as FCR decodes to the same configuration. */
  lemma ConfigRoundTrip(c: Config)
    ensures ParseRecord("FCR" + ConfigToStr(c)[3..]) == ConfigFrame(c)
  {
    var xs := ConfigFields(c);
    var line := "FCR" + ConfigToStr(c)[3..];
    assert line == "FCR" + "," + Join(Render(xs), ",");
    TaggedRecordFields("FCR", xs);
    var sp := ["FCR"] + Render(xs);
    assert RecordFields(line) == sp;
    assert CheckCommand(sp[0], "FCR") && |sp| == 33 && !CheckCommand(sp[0], "FCD");
    ParseConfigRendered(c);
  }

  // ---------------------------------------------------------------------
  // Whole buffers and the stray NUL

  /** The first piece of a join is a prefix of the joined text. */
  lemma JoinHead(parts: seq<string>, sep: string)
    requires |parts| >= 1
    ensures HasPrefix(Join(parts, sep), parts[0])
  {
  }

  /** A character other than the separator's first one just extends the first piece. */
  lemma SplitPrepend(c: char, s: string, sep: string)
    requires |sep| > 0 && c != sep[0]
    ensures Split([c] + s, sep) == [[c] + Split(s, sep)[0]] + Split(s, sep)[1..]
  {
    var t := [c] + s;
    assert t[1..] == s;
    if |t| >= |sep| {
      assert t[..|sep|][0] == c;
    }
  }

  /** The first piece of a split starts like the text itself. */
  lemma SplitHead(s: string, sep: string)
    requires |sep| > 0
    ensures HasPrefix(s, Split(s, sep)[0])
  {
    JoinSplit(s, sep);
    JoinHead(Split(s, sep), sep);
  }

  /** A NUL put in front of the tag changes nothing but an ERR message. */
  lemma NulTag(sp: seq<string>)
    requires |sp| >= 1 && (sp[0] == [] || sp[0][0] != NUL)
    ensures !ParseFields(sp).ErrorMessage? ==> ParseFields([[NUL] + sp[0]] + sp[1..]) == ParseFields(sp)
    ensures ParseFields(sp).ErrorMessage? ==> ParseFields([[NUL] + sp[0]] + sp[1..]) == ErrorMessage([NUL] + sp[0])
  {
    var tag := [NUL] + sp[0];
    var sp' := [tag] + sp[1..];
    assert StripNul(tag) == sp[0];
    assert StripNul(sp[0]) == sp[0];
    assert |sp'| == |sp| && sp'[1..] == sp[1..];
    if |sp| == 17 && CheckCommand(sp[0], "FCD") {
      assert ParseStatus(sp') == ParseStatus(sp) by {
        forall k | 1 <= k < 17 ensures sp'[k] == sp[k] { assert sp'[k] == sp'[1..][k - 1]; }
      }
    } else if |sp| == 33 && CheckCommand(sp[0], "FCR") {
      assert ParseConfig(sp') == ParseConfig(sp) by {
        assert sp'[5..12] == sp[5..12] && sp'[12..19] == sp[12..19];
        assert sp'[19..26] == sp[19..26] && sp'[26..33] == sp[26..33];
        forall k | 1 <= k < 5 ensures sp'[k] == sp[k] { assert sp'[k] == sp'[1..][k - 1]; }
      }
    } else if |sp| == 1 && CheckCommandPrefix(sp[0], "ERR") && !CheckCommand(sp[0], "FCA") {
      assert !HasPrefix(tag, "ERR:") by {
        if |tag| >= 4 { assert tag[..4][0] == NUL; }
      }
    }
  }

  /**
   * A stray NUL in front of a record changes nothing, except that an ERR
   * record then keeps its whole text, NUL and "ERR:" included, as message.
   */
  lemma NulPrefixedRecord(rec: string)
    requires rec == [] || rec[0] != NUL
    ensures !ParseRecord(rec).ErrorMessage? ==> ParseRecord([NUL] + rec) == ParseRecord(rec)
    ensures ParseRecord(rec).ErrorMessage? ==> ParseRecord([NUL] + rec) == ErrorMessage([NUL] + rec)
  {
    if rec == [] {
      assert [NUL] + rec == [NUL];
    } else {
      var sp := RecordFields(rec);
      assert [NUL] + rec != [NUL];
      SplitPrepend(NUL, rec, ",");
      assert RecordFields([NUL] + rec) == [[NUL] + sp[0]] + sp[1..];
      SplitHead(rec, ",");
      assert sp[0] == [] || sp[0][0] != NUL by {
        if |sp[0]| > 0 { assert sp[0][0] == rec[0]; }
      }
      NulTag(sp);
      if ParseFields(sp).ErrorMessage? {
        JoinSplit(rec, ",");
      }
    }
  }

  /** A stray NUL in front of a whole buffer gives the same frame, unless its first record is an ERR. */
  lemma NulPrefixedBuffer(d: seq<byte>)
    requires |d| == 0 || d[0] != 0
    requires !ParseRecord(Records(d)[0]).ErrorMessage?
    ensures Decode([0] + d) == Decode(d)
  {
    var s := BytesToString(d);
    assert BytesToString([0] + d) == [NUL] + s;
    SplitPrepend(NUL, s, CRLF);
    var recs := Records(d);
    SplitHead(s, CRLF);
    assert recs[0] == [] || recs[0][0] != NUL by {
      if |recs[0]| > 0 { assert recs[0][0] == s[0]; }
    }
    NulPrefixedRecord(recs[0]);
    var recs' := Records([0] + d);
    assert recs' == [[NUL] + recs[0]] + recs[1..];
    assert recs'[1..] == recs[1..];
  }

  /** A text with no CR-LF inside it ends at the first CR-LF that follows it. */
  lemma {:induction false} SplitAtCRLF(a: string, b: string)
    requires forall i :: 0 <= i < |a| - 1 ==> !(a[i] == '\r' && a[i + 1] == '\n')
    ensures Split(a + CRLF + b, CRLF) == [a] + Split(b, CRLF)
    decreases |a|
  {
    var s := a + CRLF + b;
    if |a| == 0 {
      assert s[..2] == CRLF;
      assert s[2..] == b;
    } else {
      assert s[..2] != CRLF by {
        if |a| == 1 {
          assert s[1] == '\r';
        } else {
          assert s[0] == a[0] && s[1] == a[1];
        }
      }
      assert s[1..] == a[1..] + CRLF + b;
      SplitAtCRLF(a[1..], b);
      assert [a[0]] + a[1..] == a;
    }
  }

  /** The empty record that follows a final CRLF decodes to no frame. */
  lemma EmptyRecord()
    ensures ParseRecord("").NoFrame?
  {
    assert RecordFields("") == [""];
    assert !CheckCommandPrefix("", "ERR");
  }

  /** One line of text followed by CRLF, sent as bytes, decodes as that line alone. */
  lemma DecodeLine(t: string)
    requires IsByteString(t)
    requires forall i :: 0 <= i < |t| - 1 ==> !(t[i] == '\r' && t[i + 1] == '\n')
    ensures Decode(StringToBytes(t + CRLF)) == ParseRecord(t)
  {
    BytesStringRoundTrip(t + CRLF);
    SplitAtCRLF(t, "");
    assert t + CRLF + "" == t + CRLF;
    assert Records(StringToBytes(t + CRLF)) == [t, ""];
    EmptyRecord();
  }

  /** "ERR:" and a message on a line decodes to that message, untrimmed. */
  lemma ErrorLine(msg: string)
    requires IsByteString(msg)
    requires forall i :: 0 <= i < |msg| ==> msg[i] != ','
    requires forall i :: 0 <= i < |msg| - 1 ==> !(msg[i] == '\r' && msg[i + 1] == '\n')
    ensures Decode(StringToBytes("ERR:" + msg + CRLF)) == ErrorMessage(msg)
  {
    var t := "ERR:" + msg;
    forall i | 0 <= i < |t| - 1 ensures !(t[i] == '\r' && t[i + 1] == '\n') {
      if i >= 4 { assert t[i] == msg[i - 4] && t[i + 1] == msg[i - 3]; }
    }
    SplitNoSep(t, ",");
    assert t != [NUL];
    assert HasPrefix(t, "ERR:");
    assert ParseRecord(t) == ErrorMessage(msg);
    DecodeLine(t);
  }

  /** The FCS command, echoed back under the FCR tag with its line ending, decodes to the same configuration. */
  lemma ConfigWireRoundTrip(c: Config)
    ensures Decode(StringToBytes("FCR" + ConfigToStr(c)[3..] + CRLF)) == ConfigFrame(c)
  {
    var s := ConfigToStr(c);
    ConfigToStrOneLine(c);
    Retag(s);
    ConfigRoundTrip(c);
    DecodeLine("FCR" + s[3..]);
  }

  /** Replacing the three-letter tag of a one-line ASCII command keeps it one line of ASCII. */
  lemma Retag(s: string)
    requires |s| >= 3 && IsByteString(s)
    requires forall i :: 0 <= i < |s| ==> s[i] != '\r' && s[i] != '\n'
    ensures IsByteString("FCR" + s[3..])
    ensures forall i :: 0 <= i < |"FCR" + s[3..]| ==> ("FCR" + s[3..])[i] != '\r'
  {
    var t := "FCR" + s[3..];
    forall i | 3 <= i < |t| ensures t[i] == s[i] {
    }
  }
}
