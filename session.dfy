/**
 * The view controller's BLE session: the stored peripheral, the two
 * characteristic bindings, the view state, the widgets the session writes to,
 * and the log of every command sent to the radio. Each delegate callback and
 * each control action is one method.
 */
module Session {
  import opened Wrappers
  import opened Codec
  import opened Gatt

  /** The three screens the controller switches between. */
  datatype ViewState = Connected | Disconnected | BTPoweredOff

  /** The central manager's radio states. */
  datatype RadioState = Unknown | Resetting | Unsupported | Unauthorized | PoweredOff | PoweredOn

  /**
   * The values the session shows. A `None` label or text field reads "N/A";
   * `Some(v)` shows `v` with its unit.
   */
  datatype Display = Display(
    stepperValue: uint8,
    stepperEnabled: bool,
    setTempLabel: Option<uint8>,
    switchOn: bool,
    switchEnabled: bool,
    statusText: string,
    actualTemp: Option<uint8>,
    battery: Option<uint8>)

  /**
   * `changeViewState`'s effect on the widgets: the controls are enabled
   * exactly on the connected screen; leaving it clears the switch, the status
   * and the readings, and the stepper keeps its value throughout.
   */
  function Shown(d: Display, state: ViewState): (r: Display)
    ensures r.stepperValue == d.stepperValue
    ensures r.stepperEnabled == r.switchEnabled == (state == Connected)
    ensures state == Connected ==> r == d.(stepperEnabled := true, switchEnabled := true)
    ensures state != Connected ==>
              && !r.switchOn && r.statusText == "StandBy"
              && r.setTempLabel.None? && r.actualTemp.None? && r.battery.None?
  {
    match state
    case Connected =>
      d.(stepperEnabled := true, switchEnabled := true)
    case Disconnected | BTPoweredOff =>
      d.(stepperEnabled := false, setTempLabel := None, switchEnabled := false, switchOn := false,
         statusText := "StandBy", actualTemp := None, battery := None)
  }

  class Controller {
    /** `BTPeripheral` */
    var peripheral: Option<Peripheral>
    /** `SetTempCharacteristic` */
    var setTempChar: Option<Characteristic>
    /** `OpStateCharacteristic` */
    var opStateChar: Option<Characteristic>
    /** `SetTemperature` */
    var setTemperature: Option<uint8>
    var view: ViewState
    var display: Display
    /** every command sent to the radio, oldest first */
    var log: seq<Command>

    /**
     * Each binding holds a characteristic of its own role, and every command
     * issued so far follows the device protocol.
     */
    ghost predicate Valid()
      reads this
    {
      && (setTempChar.Some? ==> setTempChar.value.uuid == SetTempUuid)
      && (opStateChar.Some? ==> opStateChar.value.uuid == OpStateUuid)
      && forall cmd | cmd in log :: Conforms(cmd)
    }

    /** The controller once its view has loaded, before the radio reports a state. */
    constructor (view0: ViewState, display0: Display)
      ensures Valid()
      ensures peripheral == None && setTempChar == None && opStateChar == None
      ensures setTemperature == None && view == view0 && display == display0 && log == []
    {
      peripheral, setTempChar, opStateChar, setTemperature := None, None, None, None;
      view, display, log := view0, display0, [];
    }

    method ChangeViewState(state: ViewState)
      modifies this`view, this`display
      ensures view == state && display == Shown(old(display), state)
    {
      view := state;
      match state {
        case Connected =>
          display := display.(stepperEnabled := true, switchEnabled := true);
        case Disconnected | BTPoweredOff =>
          display := display.(stepperEnabled := false, setTempLabel := None, switchEnabled := false,
                              switchOn := false, statusText := "StandBy", actualTemp := None, battery := None);
      }
    }

    /** Sends one byte, without response, to `c` on the stored peripheral. */
    method WriteCharacteristic(v: uint8, c: Characteristic)
      requires peripheral.Some?
      modifies this`log
      ensures log == old(log) + [WriteWithoutResponse(peripheral.value, c, Encode(v))]
    {
      var data := [v];
      log := log + [WriteWithoutResponse(peripheral.value, c, data)];
    }

    /** The operating-state switch was moved to `isOn`. */
    method StateSwitchChanged(isOn: bool)
      requires Valid()
      requires opStateChar.Some? && peripheral.Some?
      modifies this`display, this`log
      ensures Valid()
      ensures display == old(display).(switchOn := isOn, statusText := SwitchStatusText(isOn))
      ensures log == old(log) + [WriteWithoutResponse(peripheral.value, opStateChar.value, Encode(SwitchByte(isOn)))]
    {
      display := display.(switchOn := isOn);
      if isOn {
        display := display.(statusText := "Ready!");
      } else {
        display := display.(statusText := "Standby");
      }
      WriteCharacteristic(if isOn then 1 else 0, opStateChar.value);
    }

    /** The set-temperature stepper now shows `value`. */
    method SetTempStepperChanged(value: uint8)
      requires Valid()
      requires setTempChar.Some? && peripheral.Some?
      modifies this`setTemperature, this`display, this`log
      ensures Valid()
      ensures setTemperature == Some(value)
      ensures display == old(display).(stepperValue := value, setTempLabel := Some(value))
      ensures log == old(log) + [WriteWithoutResponse(peripheral.value, setTempChar.value, Encode(value))]
    {
      display := display.(stepperValue := value);
      setTemperature := Some(value);
      display := display.(setTempLabel := setTemperature);
      WriteCharacteristic(setTemperature.value, setTempChar.value);
    }

    /** The radio reported `state`: scan when it is powered on, else show the power-off screen. */
    method CentralManagerDidUpdateState(state: RadioState)
      requires Valid()
      modifies this`view, this`display, this`log
      ensures Valid()
      ensures state == PoweredOn ==>
                && view == Disconnected && display == Shown(old(display), Disconnected)
                && log == old(log) + [Scan([ServiceUuid])]
      ensures state != PoweredOn ==>
                && view == BTPoweredOff && display == Shown(old(display), BTPoweredOff)
                && log == old(log)
    {
      if state == PoweredOn {
        ChangeViewState(Disconnected);
        log := log + [Scan([ServiceUuid])];
      } else {
        ChangeViewState(BTPoweredOff);
      }
    }

    /**
     * A peripheral advertising the service was found: keep it, stop scanning
     * and connect to it. The advertised name is force-unwrapped.
     */
    method DidDiscover(p: Peripheral)
      requires Valid()
      requires p.name.Some?
      modifies this`peripheral, this`log
      ensures Valid()
      ensures peripheral == Some(p)
      ensures log == old(log) + [StopScan, Connect(p)]
    {
      peripheral := Some(p);
      log := log + [StopScan];
      log := log + [Connect(peripheral.value)];
    }

    /** Connected: show the connected screen and ask the stored peripheral, if any, for the service. */
    method DidConnect(p: Peripheral)
      requires Valid()
      modifies this`view, this`display, this`log
      ensures Valid()
      ensures view == Connected && display == Shown(old(display), Connected)
      ensures log == old(log) + if peripheral.Some? then [DiscoverServices(peripheral.value, [ServiceUuid])] else []
    {
      ChangeViewState(Connected);
      if peripheral.Some? {
        log := log + [DiscoverServices(peripheral.value, [ServiceUuid])];
      }
    }

    /**
     * Disconnected: show the disconnected screen and scan again. The stored
     * peripheral and the bindings are kept.
     */
    method DidDisconnectPeripheral(p: Peripheral)
      requires Valid()
      modifies this`view, this`display, this`log
      ensures Valid()
      ensures view == Disconnected && display == Shown(old(display), Disconnected)
      ensures log == old(log) + [Scan([ServiceUuid])]
      ensures peripheral == old(peripheral) && setTempChar == old(setTempChar) && opStateChar == old(opStateChar)
    {
      ChangeViewState(Disconnected);
      log := log + [Scan([ServiceUuid])];
    }

    /** Services of `p` were found: discover all characteristics of each matching one. */
    method DidDiscoverServices(p: Peripheral, services: seq<Service>)
      requires Valid()
      modifies this`log
      ensures Valid()
      ensures log == old(log) + ServiceCommands(p, services)
    {
      var i := 0;
      while i < |services|
        invariant 0 <= i <= |services|
        invariant log == old(log) + ServiceCommands(p, services[..i])
      {
        assert services[..i + 1][..i] == services[..i];
        if services[i].uuid == ServiceUuid {
          log := log + [DiscoverCharacteristics(p, services[i])];
        }
        i := i + 1;
      }
      assert services[..i] == services;
      ServiceCommandsConform(p, services);
    }

    /**
     * One pass of the characteristic loop: bind and read a set-temperature or
     * operating-state characteristic, subscribe to the three notifying ones.
     * The five identifier tests are independent, as in the controller.
     */
    method HandleCharacteristic(p: Peripheral, c: Characteristic)
      modifies this`setTempChar, this`opStateChar, this`log
      ensures setTempChar == if c.uuid == SetTempUuid then Some(c) else old(setTempChar)
      ensures opStateChar == if c.uuid == OpStateUuid then Some(c) else old(opStateChar)
      ensures log == old(log) + CharacteristicCommands(p, c)
    {
      if c.uuid == SetTempUuid {
        setTempChar := Some(c);
        log := log + [ReadValue(p, c)];
      }
      if c.uuid == OpStateUuid {
        opStateChar := Some(c);
        log := log + [ReadValue(p, c)];
      }
      if c.uuid == ActualTempUuid {
        log := log + [SetNotifyValue(p, true, c)];
      }
      if c.uuid == BatteryUuid {
        log := log + [SetNotifyValue(p, true, c)];
      }
      if c.uuid == OpStatusUuid {
        log := log + [SetNotifyValue(p, true, c)];
      }
    }

    /**
     * Characteristics of a service of `p` were found: handle each in list
     * order. The bindings end as the last characteristic of their role, and
     * the log grows by the discovery commands of the whole list.
     */
    method DidDiscoverCharacteristicsFor(p: Peripheral, characteristics: seq<Characteristic>)
      requires Valid()
      modifies this`setTempChar, this`opStateChar, this`log
      ensures Valid()
      ensures setTempChar == Bound(old(setTempChar), characteristics, SetTempUuid)
      ensures opStateChar == Bound(old(opStateChar), characteristics, OpStateUuid)
      ensures log == old(log) + DiscoveredCommands(p, characteristics)
    {
      var i := 0;
      while i < |characteristics|
        invariant 0 <= i <= |characteristics|
        invariant setTempChar == Bound(old(setTempChar), characteristics[..i], SetTempUuid)
        invariant opStateChar == Bound(old(opStateChar), characteristics[..i], OpStateUuid)
        invariant log == old(log) + DiscoveredCommands(p, characteristics[..i])
      {
        BoundStep(old(setTempChar), characteristics, i, SetTempUuid);
        BoundStep(old(opStateChar), characteristics, i, OpStateUuid);
        DiscoveredStep(p, characteristics, i);
        HandleCharacteristic(p, characteristics[i]);
        assert log == old(log) + (DiscoveredCommands(p, characteristics[..i]) + CharacteristicCommands(p, characteristics[i]));
        i := i + 1;
      }
      assert characteristics[..i] == characteristics;
      DiscoveredConforms(p, characteristics);
    }

    /**
     * A value arrived for `c`, from a read or a notification. The payload is
     * force-unwrapped for the five known characteristics only; a set-temperature
     * or operating-state value is echoed back through the control it sets,
     * which needs that control's binding and the stored peripheral.
     */
    method DidUpdateValueFor(p: Peripheral, c: Characteristic, value: Option<seq<uint8>>)
      requires Valid()
      requires IsKnownUuid(c.uuid) ==> value.Some? && |value.value| > 0
      requires c.uuid == SetTempUuid ==> setTempChar.Some? && peripheral.Some?
      requires c.uuid == OpStateUuid ==> opStateChar.Some? && peripheral.Some?
      modifies this`setTemperature, this`display, this`log
      ensures Valid()
      ensures c.uuid == SetTempUuid ==>
                var v := Decode(value.value);
                && setTemperature == Some(v)
                && display == old(display).(stepperValue := v, setTempLabel := Some(v))
                && log == old(log) + [WriteWithoutResponse(peripheral.value, setTempChar.value, Encode(v))]
      ensures c.uuid != SetTempUuid ==> setTemperature == old(setTemperature)
      ensures c.uuid == OpStateUuid ==>
                var on := IsOn(Decode(value.value));
                && display == old(display).(switchOn := on, statusText := SwitchStatusText(on))
                && log == old(log) + [WriteWithoutResponse(peripheral.value, opStateChar.value, Encode(SwitchByte(on)))]
      ensures c.uuid == ActualTempUuid ==>
                display == old(display).(actualTemp := Some(Decode(value.value))) && log == old(log)
      ensures c.uuid == BatteryUuid ==>
                display == old(display).(battery := Some(Decode(value.value))) && log == old(log)
      ensures c.uuid == OpStatusUuid ==>
                display == old(display).(statusText := OpStatusText(Decode(value.value))) && log == old(log)
      ensures !IsKnownUuid(c.uuid) ==> display == old(display) && log == old(log)
    {
      if c.uuid == SetTempUuid {
        // the stepper takes the value, then its action fires
        var v := Decode(value.value);
        display := display.(stepperValue := v);
        SetTempStepperChanged(display.stepperValue);
      }
      if c.uuid == OpStateUuid {
        var stateInt := Decode(value.value);
        display := display.(switchOn := IsOn(stateInt));
        StateSwitchChanged(display.switchOn);
      }
      if c.uuid == ActualTempUuid {
        display := display.(actualTemp := Some(Decode(value.value)));
      }
      if c.uuid == BatteryUuid {
        display := display.(battery := Some(Decode(value.value)));
      }
      if c.uuid == OpStatusUuid {
        var statusInt := Decode(value.value);
        if statusInt == 0 {
          display := display.(statusText := "Ready!");
        } else {
          display := display.(statusText := "Heating!");
        }
      }
    }
  }
}
