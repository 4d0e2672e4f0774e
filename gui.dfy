/**
 * The checkable helpers of gui.go: the conversions between configuration
 * values and the widgets that show them (comboboxes hold an index, spin
 * boxes a bounded number), and the rebuild of the remembered port list
 * after a successful connection.
 */
module Gui {
  import opened GoLib
  import opened Util
  import opened FrameCodec

  // ---------------------------------------------------------------------
  // Combobox indices

  const SensorTypeNames: seq<string> := ["Not Connected", "Use °C", "Use °F"]
  const FanTypeNames: seq<string> :=
    ["Not Used", "2 Wire", "3 Wire - x1 tacho", "3 Wire - x2 tacho", "3 Wire - x4 tacho", "4 Wire"]
  const ControlNames: seq<string> :=
    ["Sensor A", "Sensor B", "Sensor C", "Sensor D",
     "Sensor A - Sensor D", "Sensor B - Sensor D", "Sensor C - Sensor D", "Manual control"]

  /** sensorTypeToIndex: a known sensor type selects its own entry, anything else the first. */
  function SensorTypeToIndex(sensorType: int8): (i: int)
    ensures 0 <= i < |SensorTypeNames|
    ensures 0 <= sensorType < |SensorTypeNames| ==> i == sensorType
    ensures !(0 <= sensorType < |SensorTypeNames|) ==> i == 0
  {
    if sensorType >= 0 && sensorType <= 2 then sensorType as int else 0
  }

  /** fanTypeToIndex: a known fan type selects its own entry, anything else the first. */
  function FanTypeToIndex(fanType: int8): (i: int)
    ensures 0 <= i < |FanTypeNames|
    ensures 0 <= fanType < |FanTypeNames| ==> i == fanType
    ensures !(0 <= fanType < |FanTypeNames|) ==> i == 0
  {
    if fanType >= 0 && fanType <= 5 then fanType as int else 0
  }

  /** controlToIndex: a known control source selects its own entry, anything else the first. */
  function ControlToIndex(control: int8): (i: int)
    ensures 0 <= i < |ControlNames|
    ensures 0 <= control < |ControlNames| ==> i == control
    ensures !(0 <= control < |ControlNames|) ==> i == 0
  {
    if control >= 0 && control <= 7 then control as int else 0
  }

  /** Every code the protocol defines selects the entry that names it. */
  lemma CodesSelectTheirEntries()
    ensures SensorTypeNames[SensorTypeToIndex(SensorNotConnected)] == "Not Connected"
    ensures SensorTypeNames[SensorTypeToIndex(SensorTypeC)] == "Use °C"
    ensures SensorTypeNames[SensorTypeToIndex(SensorTypeF)] == "Use °F"
    ensures FanTypeNames[FanTypeToIndex(FanNotConnected)] == "Not Used"
    ensures FanTypeNames[FanTypeToIndex(Fan2Wire)] == "2 Wire"
    ensures FanTypeNames[FanTypeToIndex(Fan3WireX1Tacho)] == "3 Wire - x1 tacho"
    ensures FanTypeNames[FanTypeToIndex(Fan3WireX2Tacho)] == "3 Wire - x2 tacho"
    ensures FanTypeNames[FanTypeToIndex(Fan3WireX4Tacho)] == "3 Wire - x4 tacho"
    ensures FanTypeNames[FanTypeToIndex(Fan4Wire)] == "4 Wire"
    ensures ControlNames[ControlToIndex(SensorA)] == "Sensor A"
    ensures ControlNames[ControlToIndex(SensorB)] == "Sensor B"
    ensures ControlNames[ControlToIndex(SensorC)] == "Sensor C"
    ensures ControlNames[ControlToIndex(SensorD)] == "Sensor D"
    ensures ControlNames[ControlToIndex(SensorAD)] == "Sensor A - Sensor D"
    ensures ControlNames[ControlToIndex(SensorBD)] == "Sensor B - Sensor D"
    ensures ControlNames[ControlToIndex(SensorCD)] == "Sensor C - Sensor D"
    ensures ControlNames[ControlToIndex(ManualControl)] == "Manual control"
  {
  }

  // ---------------------------------------------------------------------
  // Spin box values

  const MaxPower := 100
  /** The bound tempToInt clamps to, a literal of its own. */
  const TempLimit := 150
  /**
   * The upper end of the temperature spin boxes: the application's
   * configured MaxTemp, fixed here at its default MAX_TEMP.  A MaxTemp
   * read from the configuration file is not modelled.
   */
  const MaxTemp := 150

  function Dist(a: int, b: int): nat {
    if a <= b then b - a else a - b
  }

  /** powerToInt: the power clamped into the spin box range [0, 100]: the nearest point of it. */
  function PowerToInt(power: int8): (v: int)
    ensures 0 <= v <= MaxPower
    ensures 0 <= power <= MaxPower ==> v == power
    ensures forall y :: 0 <= y <= MaxPower ==> Dist(v, power) <= Dist(y, power)
  {
    if power >= 0 && power <= 100 then power as int
    else if power < 0 then 0
    else 100
  }

  /** tempToInt: the temperature clamped into [0, 150]: the nearest point of it. */
  function TempToInt(temp: int16): (v: int)
    ensures 0 <= v <= TempLimit
    ensures 0 <= temp <= TempLimit ==> v == temp
    ensures forall y :: 0 <= y <= TempLimit ==> Dist(v, temp) <= Dist(y, temp)
  {
    if temp >= 0 && temp < 150 then temp as int
    else if temp < 0 then 0
    else 150
  }

  // ---------------------------------------------------------------------
  // A fan page: the widgets of one fan's configuration

  /** What the widgets of one fan page hold: combobox indices, spin box values and a checkbox. */
  datatype FanPage = FanPage(
    fanTypeA: int, fanTypeB: int, control: int,
    power: int, minTemp: int, maxTemp: int,
    allowStop: bool)

  /** Values every widget of a fan page can actually hold. */
  predicate ValidFanPage(p: FanPage) {
    && 0 <= p.fanTypeA < |FanTypeNames| && 0 <= p.fanTypeB < |FanTypeNames|
    && 0 <= p.control < |ControlNames|
    && 0 <= p.power <= MaxPower
    && 0 <= p.minTemp <= MaxTemp && 0 <= p.maxTemp <= MaxTemp
  }

  /** A fan configuration whose every field a fan page can show as it is. */
  predicate ShowableFanConfig(f: FanConfig) {
    && 0 <= f.fanTypeA < |FanTypeNames| && 0 <= f.fanTypeB < |FanTypeNames|
    && 0 <= f.sensorControlling < |ControlNames|
    && 0 <= f.minimumPower <= MaxPower
    && 0 <= f.minimumTemperature <= MaxTemp && 0 <= f.maximumTemperature <= MaxTemp
  }

  /** updateConfigPage: put a fan configuration on the page; every widget gets a value it can hold. */
  function ShowFanConfig(f: FanConfig): (p: FanPage)
    ensures ValidFanPage(p)
    ensures p.allowStop == f.allowStopped
  {
    FanPage(FanTypeToIndex(f.fanTypeA), FanTypeToIndex(f.fanTypeB), ControlToIndex(f.sensorControlling),
            PowerToInt(f.minimumPower), TempToInt(f.minimumTemperature), TempToInt(f.maximumTemperature),
            f.allowStopped)
  }

  /** getFanConfig: read a fan configuration off the page with Go's int8 / int16 casts. */
  function GetFanConfig(p: FanPage): (f: FanConfig)
    ensures ValidFanPage(p) ==> ShowableFanConfig(f)
  {
    FanConfig(Wrap8(p.power), Wrap8(p.control), Wrap16(p.minTemp), Wrap16(p.maxTemp),
              p.allowStop, Wrap8(p.fanTypeA), Wrap8(p.fanTypeB))
  }

  /** Reading a page and showing the result again leaves every widget as it was. */
  lemma PageRoundTrip(p: FanPage)
    requires ValidFanPage(p)
    ensures ShowFanConfig(GetFanConfig(p)) == p
  {
  }

  /** A showable configuration survives being shown and read back. */
  lemma FanConfigRoundTrip(f: FanConfig)
    requires ShowableFanConfig(f)
    ensures GetFanConfig(ShowFanConfig(f)) == f
  {
  }

  /** Showing a configuration the page cannot hold and reading it back gives the clamped one. */
  lemma ShowClamps(f: FanConfig)
    ensures ShowableFanConfig(GetFanConfig(ShowFanConfig(f)))
    ensures ShowFanConfig(GetFanConfig(ShowFanConfig(f))) == ShowFanConfig(f)
  {
    PageRoundTrip(ShowFanConfig(f));
  }

  // ---------------------------------------------------------------------
  // The remembered port list

  /** The entries of `ports` other than `name`, in their order. */
  function Others(ports: seq<string>, name: string): (r: seq<string>)
    decreases |ports|
  {
    if ports == [] then []
    else
      var last := ports[|ports| - 1];
      Others(ports[..|ports| - 1], name) + (if last == name then [] else [last])
  }

  /** The list UpdateConfig stores: the connected port first, then the others. */
  function RebuildPorts(ports: seq<string>, name: string): (r: seq<string>)
  {
    [name] + Others(ports, name)
  }

  /** Others distributes over concatenation, so it keeps the old order. */
  lemma {:induction false} OthersAppend(a: seq<string>, b: seq<string>, name: string)
    ensures Others(a + b, name) == Others(a, name) + Others(b, name)
    decreases |b|
  {
    if b != [] {
      var b' := b[..|b| - 1];
      assert (a + b)[..|a + b| - 1] == a + b';
      assert (a + b)[|a + b| - 1] == b[|b| - 1];
      OthersAppend(a, b', name);
    } else {
      assert a + b == a;
    }
  }

  /** Others drops every copy of `name` and keeps every copy of every other entry. */
  lemma {:induction false} OthersMultiset(ports: seq<string>, name: string)
    ensures multiset(Others(ports, name)) == multiset(ports)[name := 0]
    decreases |ports|
  {
    if ports != [] {
      var init := ports[..|ports| - 1];
      var last := ports[|ports| - 1];
      OthersMultiset(init, name);
      assert ports == init + [last];
      var m := multiset(init);
      assert multiset(ports) == m + multiset{last};
      if last == name {
        assert Others(ports, name) == Others(init, name);
        assert (m + multiset{last})[name := 0] == m[name := 0];
      } else {
        assert Others(ports, name) == Others(init, name) + [last];
        assert (m + multiset{last})[name := 0] == m[name := 0] + multiset{last};
      }
    }
  }

  /** A list without `name` is its own Others. */
  lemma {:induction false} OthersWithoutName(ports: seq<string>, name: string)
    requires name !in ports
    ensures Others(ports, name) == ports
    decreases |ports|
  {
    if ports != [] {
      var init := ports[..|ports| - 1];
      assert name !in init;
      OthersWithoutName(init, name);
      assert ports == init + [ports[|ports| - 1]];
    }
  }

  /** Others drops every copy of `name`, keeps every other entry's count, and is shorter exactly when `name` was there. */
  lemma OthersCounts(ports: seq<string>, name: string)
    ensures multiset(Others(ports, name))[name] == 0
    ensures forall x :: x != name ==> multiset(Others(ports, name))[x] == multiset(ports)[x]
    ensures name in ports <==> |Others(ports, name)| < |ports|
    ensures name !in ports ==> Others(ports, name) == ports
  {
    OthersMultiset(ports, name);
    var m := multiset(ports);
    assert |multiset(Others(ports, name))| == |Others(ports, name)|;
    assert m == m[name := 0] + multiset{}[name := m[name]];
    assert |m| == |m[name := 0]| + m[name];
    if name !in ports {
      OthersWithoutName(ports, name);
    }
  }

  /** Others removes nothing from a list that no longer holds `name`. */
  lemma OthersIdempotent(ports: seq<string>, name: string)
    ensures Others(Others(ports, name), name) == Others(ports, name)
  {
    OthersCounts(ports, name);
    OthersCounts(Others(ports, name), name);
  }

  /**
   * The rebuilt list starts with the connected port, holds it exactly once,
   * holds every other old entry as often as before, and is one longer than
   * the old list exactly when the port was not in it.
   */
  lemma RebuildPortsShape(ports: seq<string>, name: string)
    ensures |RebuildPorts(ports, name)| > 0 && RebuildPorts(ports, name)[0] == name
    ensures multiset(RebuildPorts(ports, name))[name] == 1
    ensures forall x :: x != name ==> multiset(RebuildPorts(ports, name))[x] == multiset(ports)[x]
    ensures name !in ports ==> |RebuildPorts(ports, name)| == |ports| + 1
    ensures name in ports ==> |RebuildPorts(ports, name)| <= |ports|
  {
    OthersCounts(ports, name);
    assert multiset(RebuildPorts(ports, name)) == multiset{name} + multiset(Others(ports, name));
  }

  /** Connecting to the same port twice stores the same list as connecting once. */
  lemma RebuildPortsIdempotent(ports: seq<string>, name: string)
    ensures RebuildPorts(RebuildPorts(ports, name), name) == RebuildPorts(ports, name)
  {
    OthersAppend([name], Others(ports, name), name);
    assert Others([name], name) == [] by {
      assert [name][..0] == [];
    }
    OthersIdempotent(ports, name);
  }

  /** The part of the application state UpdateConfig changes. */
  class AppGui {
    /** The remembered ports of the application configuration. */
    var ports: seq<string>
    /** The entries of the port combobox of the port selection window. */
    var portItems: seq<string>

    constructor (ports: seq<string>, portItems: seq<string>)
      ensures this.ports == ports && this.portItems == portItems
    {
      this.ports := ports;
      this.portItems := portItems;
    }

    /**
     * UpdateConfig: put the connected port first in the remembered list,
     * keep the others in order, and add it to the combobox when it is new.
     */
    method UpdateConfig(portName: string) returns (notExist: bool)
      modifies this
      ensures ports == RebuildPorts(old(ports), portName)
      ensures notExist <==> portName !in old(ports)
      ensures portItems == if notExist then old(portItems) + [portName] else old(portItems)
    {
      notExist := true;
      var rebuilt := [portName];
      var i := 0;
      while i < |ports|
        invariant 0 <= i <= |ports|
        invariant rebuilt == [portName] + Others(ports[..i], portName)
        invariant notExist <==> portName !in ports[..i]
      {
        assert ports[..i + 1][..i] == ports[..i];
        if ports[i] != portName {
          rebuilt := rebuilt + [ports[i]];
        } else {
          notExist := false;
        }
        assert ports[..i + 1] == ports[..i] + [ports[i]];
        i := i + 1;
      }
      assert ports[..|ports|] == ports;
      ports := rebuilt;
      if notExist {
        portItems := portItems + [portName];
      }
    }
  }
}
