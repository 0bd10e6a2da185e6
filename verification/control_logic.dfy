/**
 * The device's actuator state and its auto-mode rule. Relays are active LOW,
 * and a setter drives its pin only when the state actually changes; the pin
 * writes are kept as a log so the model can say which relay was driven when.
 */
module ControlLogic {
  import opened Wrappers
  import opened FirmwareConfig
  import Sensors

  datatype Actuator = Fan | Heater | Humidifier

  datatype Level = Low | High

  datatype PinWrite = PinWrite(pin: int, level: Level)

  datatype ActuatorState = ActuatorState(fan: bool, heater: bool, humidifier: bool, autoMode: bool)

  /** Actuator state together with every pin write made so far. */
  datatype Relays = Relays(state: ActuatorState, writes: seq<PinWrite>)

  function PinOf(a: Actuator): int {
    match a
    case Fan => FAN_PIN
    case Heater => HEATER_PIN
    case Humidifier => HUMIDIFIER_PIN
  }

  /** Active LOW: LOW switches the relay on. */
  function RelayLevel(on: bool): Level {
    if on then Low else High
  }

  function IsOn(s: ActuatorState, a: Actuator): bool {
    match a
    case Fan => s.fan
    case Heater => s.heater
    case Humidifier => s.humidifier
  }

  /**
   * The effect of `setFan`/`setHeater`/`setHumidifier`: the actuator ends
   * equal to the argument, and its pin is driven only when that changed it.
   */
  function Set(r: Relays, a: Actuator, on: bool): (r': Relays)
    ensures IsOn(r'.state, a) == on
    ensures forall b :: b != a ==> IsOn(r'.state, b) == IsOn(r.state, b)
    ensures r'.state.autoMode == r.state.autoMode
    ensures r.writes <= r'.writes
    ensures IsOn(r.state, a) == on ==> r' == r
    ensures IsOn(r.state, a) != on ==> r'.writes == r.writes + [PinWrite(PinOf(a), RelayLevel(on))]
  {
    if IsOn(r.state, a) == on then r
    else
      var s := match a
        case Fan => r.state.(fan := on)
        case Heater => r.state.(heater := on)
        case Humidifier => r.state.(humidifier := on);
      Relays(s, r.writes + [PinWrite(PinOf(a), RelayLevel(on))])
  }

  /** Setting an actuator twice to the same value is the same as setting it once. */
  lemma SetIdempotent(r: Relays, a: Actuator, on: bool)
    ensures Set(Set(r, a, on), a, on) == Set(r, a, on)
  {
  }

  /** The level of the last write to `pin`, if it was ever written. */
  function LastLevel(writes: seq<PinWrite>, pin: int): Option<Level> {
    if writes == [] then None
    else if writes[|writes| - 1].pin == pin then Some(writes[|writes| - 1].level)
    else LastLevel(writes[..|writes| - 1], pin)
  }

  /** Every relay that has been driven is at the level of its actuator's state. */
  ghost predicate RelaysAgree(r: Relays) {
    forall a :: LastLevel(r.writes, PinOf(a)) in {None, Some(RelayLevel(IsOn(r.state, a)))}
  }

  /** A setter keeps every driven relay in agreement with the state. */
  lemma SetKeepsRelaysAgree(r: Relays, a: Actuator, on: bool)
    requires RelaysAgree(r)
    ensures RelaysAgree(Set(r, a, on))
  {
    var r' := Set(r, a, on);
    if r' != r {
      forall b ensures LastLevel(r'.writes, PinOf(b)) in {None, Some(RelayLevel(IsOn(r'.state, b)))} {
        assert r'.writes[..|r'.writes| - 1] == r.writes;
      }
    }
  }

  const HEATER_ON_BELOW: real := TEMP_MIN - TEMP_HYSTERESIS
  const FAN_ON_ABOVE: real := TEMP_MAX + TEMP_HYSTERESIS
  const HUMIDIFIER_ON_BELOW: int := MOISTURE_MIN - MOISTURE_HYSTERESIS
  const DRYING_ABOVE: int := MOISTURE_MAX + MOISTURE_HYSTERESIS

  /**
   * One auto-mode pass as the firmware runs it: the temperature branch sets
   * heater and fan, then the moisture branch sets the humidifier and may
   * switch the fan on again to dry the substrate.
   */
  function AutoStep(r: Relays, temp: real, moisture: int): Relays {
    var afterTemp :=
      if temp < HEATER_ON_BELOW then Set(Set(r, Heater, true), Fan, false)
      else if temp > FAN_ON_ABOVE then Set(Set(r, Fan, true), Heater, false)
      else Set(Set(r, Heater, false), Fan, false);
    if moisture < HUMIDIFIER_ON_BELOW then Set(afterTemp, Humidifier, true)
    else if moisture > DRYING_ABOVE then
      var dried := Set(afterTemp, Humidifier, false);
      if !dried.state.fan then Set(dried, Fan, true) else dried
    else Set(afterTemp, Humidifier, false)
  }

  /** The state an auto-mode pass ends in, given the readings alone. */
  function AutoTarget(temp: real, moisture: int, autoMode: bool): ActuatorState {
    ActuatorState(
      fan := temp > 26.5 || moisture > 73,
      heater := temp < 21.5,
      humidifier := moisture < 57,
      autoMode := autoMode)
  }

  /**
   * The heater ends on iff temperature < 21.5, the fan iff temperature > 26.5
   * or moisture > 73, the humidifier iff moisture < 57; the prior actuator
   * state does not matter, and pin writes are only appended.
   */
  lemma AutoStepOutcome(r: Relays, temp: real, moisture: int)
    ensures AutoStep(r, temp, moisture).state == AutoTarget(temp, moisture, r.state.autoMode)
    ensures r.writes <= AutoStep(r, temp, moisture).writes
  {
    var afterTemp :=
      if temp < HEATER_ON_BELOW then Set(Set(r, Heater, true), Fan, false)
      else if temp > FAN_ON_ABOVE then Set(Set(r, Fan, true), Heater, false)
      else Set(Set(r, Heater, false), Fan, false);
    assert afterTemp.state == AutoTarget(temp, 0, r.state.autoMode).(humidifier := r.state.humidifier);
    assert r.writes <= afterTemp.writes;
    if moisture > DRYING_ABOVE {
      var dried := Set(afterTemp, Humidifier, false);
      assert AutoStep(r, temp, moisture) == if !dried.state.fan then Set(dried, Fan, true) else dried;
    }
  }

  /** Readings exactly on a band edge switch nothing on. */
  lemma BandEdgesStayOff(r: Relays)
    ensures !AutoStep(r, 21.5, 57).state.heater && !AutoStep(r, 21.5, 57).state.humidifier
    ensures !AutoStep(r, 26.5, 73).state.fan
  {
    AutoStepOutcome(r, 21.5, 57);
    AutoStepOutcome(r, 26.5, 73);
  }

  /** Cold and wet together run the heater and the fan at once. */
  lemma HeaterAndFanTogether(r: Relays, temp: real, moisture: int)
    requires temp < 21.5 && moisture > 73
    ensures AutoStep(r, temp, moisture).state.heater && AutoStep(r, temp, moisture).state.fan
  {
    AutoStepOutcome(r, temp, moisture);
  }

  /** An auto-mode pass keeps every driven relay in agreement with the state. */
  lemma AutoStepKeepsRelaysAgree(r: Relays, temp: real, moisture: int)
    requires RelaysAgree(r)
    ensures RelaysAgree(AutoStep(r, temp, moisture))
  {
    var afterTemp :=
      if temp < HEATER_ON_BELOW then Set(Set(r, Heater, true), Fan, false)
      else if temp > FAN_ON_ABOVE then Set(Set(r, Fan, true), Heater, false)
      else Set(Set(r, Heater, false), Fan, false);
    SetKeepsRelaysAgree(r, Heater, true);
    SetKeepsRelaysAgree(r, Fan, true);
    SetKeepsRelaysAgree(r, Heater, false);
    SetKeepsRelaysAgree(Set(r, Heater, true), Fan, false);
    SetKeepsRelaysAgree(Set(r, Fan, true), Heater, false);
    SetKeepsRelaysAgree(Set(r, Heater, false), Fan, false);
    SetKeepsRelaysAgree(afterTemp, Humidifier, true);
    SetKeepsRelaysAgree(afterTemp, Humidifier, false);
    SetKeepsRelaysAgree(Set(afterTemp, Humidifier, false), Fan, true);
  }

  /**
   * As written, a wet substrate at a normal temperature toggles a running fan
   * off and straight back on in every pass: two relay writes for no change.
   */
  lemma FanChatterAsWritten()
    ensures var r := Relays(ActuatorState(true, false, false, true), []);
      AutoStep(r, 24.0, 80).writes == [PinWrite(FAN_PIN, High), PinWrite(FAN_PIN, Low)]
      && AutoStep(r, 24.0, 80).state == r.state
  {
  }

  /** The evidently intended pass: each actuator is set once, to its final value. */
  function AutoStepSettled(r: Relays, temp: real, moisture: int): Relays {
    var target := AutoTarget(temp, moisture, r.state.autoMode);
    Set(Set(Set(r, Heater, target.heater), Fan, target.fan), Humidifier, target.humidifier)
  }

  /** The one write that moves actuator `a` from state `s` to state `t`, if it differs. */
  function ChangeWrite(s: ActuatorState, t: ActuatorState, a: Actuator): seq<PinWrite> {
    if IsOn(s, a) != IsOn(t, a) then [PinWrite(PinOf(a), RelayLevel(IsOn(t, a)))] else []
  }

  /** Setting each actuator once to a target reaches it with one write per change. */
  lemma SetEachOnce(r: Relays, t: ActuatorState)
    requires t.autoMode == r.state.autoMode
    ensures var r' := Set(Set(Set(r, Heater, t.heater), Fan, t.fan), Humidifier, t.humidifier);
      && r'.state == t
      && r'.writes == r.writes + ChangeWrite(r.state, t, Heater) + ChangeWrite(r.state, t, Fan)
                     + ChangeWrite(r.state, t, Humidifier)
  {
    var r1 := Set(r, Heater, t.heater);
    var r2 := Set(r1, Fan, t.fan);
    var r3 := Set(r2, Humidifier, t.humidifier);
    assert r1.writes == r.writes + ChangeWrite(r.state, t, Heater);
    assert r2.writes == r1.writes + ChangeWrite(r.state, t, Fan);
    assert r3.writes == r2.writes + ChangeWrite(r.state, t, Humidifier);
    assert r3.state == t;
  }

  /**
   * The settled pass ends in the same state as the firmware's, and drives
   * each relay once, to its new level, exactly when its actuator changes.
   */
  lemma AutoStepSettledIsQuiet(r: Relays, temp: real, moisture: int)
    ensures AutoStepSettled(r, temp, moisture).state == AutoStep(r, temp, moisture).state
    ensures var t := AutoStep(r, temp, moisture).state;
      AutoStepSettled(r, temp, moisture).writes
      == r.writes + ChangeWrite(r.state, t, Heater) + ChangeWrite(r.state, t, Fan) + ChangeWrite(r.state, t, Humidifier)
  {
    AutoStepOutcome(r, temp, moisture);
    SetEachOnce(r, AutoTarget(temp, moisture, r.state.autoMode));
  }

  /** The actuator globals of the firmware, with the log of relay pin writes. */
  class Controller {
    var fanState: bool
    var heaterState: bool
    var humidifierState: bool
    var systemAuto: bool
    var pinWrites: seq<PinWrite>

    function State(): ActuatorState reads this {
      ActuatorState(fanState, heaterState, humidifierState, systemAuto)
    }

    function Snapshot(): Relays reads this {
      Relays(State(), pinWrites)
    }

    ghost predicate Valid() reads this {
      RelaysAgree(Snapshot())
    }

    constructor()
      ensures Valid()
      ensures State() == ActuatorState(false, false, false, true) && pinWrites == []
    {
      fanState, heaterState, humidifierState, systemAuto := false, false, false, true;
      pinWrites := [];
    }

    method SetFan(on: bool)
      requires Valid()
      modifies this
      ensures Valid()
      ensures Snapshot() == Set(old(Snapshot()), Fan, on)
    {
      SetKeepsRelaysAgree(Snapshot(), Fan, on);
      if fanState != on {
        fanState := on;
        pinWrites := pinWrites + [PinWrite(FAN_PIN, RelayLevel(fanState))];
      }
    }

    method SetHeater(on: bool)
      requires Valid()
      modifies this
      ensures Valid()
      ensures Snapshot() == Set(old(Snapshot()), Heater, on)
    {
      SetKeepsRelaysAgree(Snapshot(), Heater, on);
      if heaterState != on {
        heaterState := on;
        pinWrites := pinWrites + [PinWrite(HEATER_PIN, RelayLevel(heaterState))];
      }
    }

    method SetHumidifier(on: bool)
      requires Valid()
      modifies this
      ensures Valid()
      ensures Snapshot() == Set(old(Snapshot()), Humidifier, on)
    {
      SetKeepsRelaysAgree(Snapshot(), Humidifier, on);
      if humidifierState != on {
        humidifierState := on;
        pinWrites := pinWrites + [PinWrite(HUMIDIFIER_PIN, RelayLevel(humidifierState))];
      }
    }

    /** Sets only the mode flag; no relay is driven. */
    method SetSystemMode(autoMode: bool)
      requires Valid()
      modifies this
      ensures Valid()
      ensures Snapshot() == old(Snapshot()).(state := old(State()).(autoMode := autoMode))
    {
      systemAuto := autoMode;
    }

    function IsFanOn(): bool reads this { fanState }
    function IsHeaterOn(): bool reads this { heaterState }
    function IsHumidifierOn(): bool reads this { humidifierState }
    function IsAutoMode(): bool reads this { systemAuto }

    /**
     * One control pass over the current readings: nothing in manual mode,
     * the auto rule otherwise. pH only logs a warning and drives nothing.
     */
    method RunControlLogic(sensors: Sensors.SensorState)
      requires Valid()
      modifies this
      ensures Valid()
      ensures !old(systemAuto) ==> Snapshot() == old(Snapshot())
      ensures old(systemAuto) ==>
        Snapshot() == AutoStep(old(Snapshot()), sensors.GetTemperature(), sensors.GetMoisture())
    {
      if !systemAuto {
        return;
      }
      var temp := sensors.GetTemperature();
      var moisture := sensors.GetMoisture();
      if temp < HEATER_ON_BELOW {
        SetHeater(true);
        SetFan(false);
      } else if temp > FAN_ON_ABOVE {
        SetFan(true);
        SetHeater(false);
      } else {
        SetHeater(false);
        SetFan(false);
      }
      if moisture < HUMIDIFIER_ON_BELOW {
        SetHumidifier(true);
      } else if moisture > DRYING_ABOVE {
        SetHumidifier(false);
        if !fanState {
          SetFan(true);
        }
      } else {
        SetHumidifier(false);
      }
    }

    /**
     * The corrected pass: the same final state as `RunControlLogic`, with
     * each relay set once to its target, so a running fan is never toggled.
     */
    method RunControlLogicSettled(sensors: Sensors.SensorState)
      requires Valid()
      modifies this
      ensures Valid()
      ensures !old(systemAuto) ==> Snapshot() == old(Snapshot())
      ensures old(systemAuto) ==>
        Snapshot() == AutoStepSettled(old(Snapshot()), sensors.GetTemperature(), sensors.GetMoisture())
      ensures old(systemAuto) ==>
        State() == AutoTarget(sensors.GetTemperature(), sensors.GetMoisture(), true)
    {
      if !systemAuto {
        return;
      }
      var temp := sensors.GetTemperature();
      var moisture := sensors.GetMoisture();
      SetEachOnce(Snapshot(), AutoTarget(temp, moisture, true));
      SetHeater(temp < HEATER_ON_BELOW);
      SetFan(temp > FAN_ON_ABOVE || moisture > DRYING_ABOVE);
      SetHumidifier(moisture < HUMIDIFIER_ON_BELOW);
    }
  }
}
