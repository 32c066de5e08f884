/**
 * Whole sessions driven through the controller's callbacks, from power-on to
 * steady state, for any thermostat and any handles it reports.
 */
module Scenarios {
  import opened Wrappers
  import opened Codec
  import opened Gatt
  import opened Session

  /** The handles one thermostat reports: its service, its five characteristics and one unknown one. */
  datatype Handles = Handles(
    service: Service,
    setTemp: Characteristic,
    actualTemp: Characteristic,
    battery: Characteristic,
    opState: Characteristic,
    opStatus: Characteristic,
    unknown: Characteristic)

  predicate WellKnown(h: Handles)
  {
    && h.service.uuid == ServiceUuid
    && h.setTemp.uuid == SetTempUuid && h.actualTemp.uuid == ActualTempUuid
    && h.battery.uuid == BatteryUuid && h.opState.uuid == OpStateUuid
    && h.opStatus.uuid == OpStatusUuid && !IsKnownUuid(h.unknown.uuid)
  }

  /** The characteristics as one discovery callback reports them. */
  function Advertised(h: Handles): seq<Characteristic>
  {
    [h.setTemp, h.opState, h.unknown, h.actualTemp, h.battery, h.opStatus]
  }

  /** Discovering those characteristics binds the two readable ones. */
  lemma ThermostatBindings(h: Handles, setTemp0: Option<Characteristic>, opState0: Option<Characteristic>)
    requires WellKnown(h)
    ensures Bound(setTemp0, Advertised(h), SetTempUuid) == Some(h.setTemp)
    ensures Bound(opState0, Advertised(h), OpStateUuid) == Some(h.opState)
  {
    BoundIsLast(setTemp0, Advertised(h), SetTempUuid, 0);
    BoundIsLast(opState0, Advertised(h), OpStateUuid, 1);
  }

  /**
   * Discovering those characteristics reads the two readable ones, subscribes
   * to the other three and skips the unknown one.
   */
  lemma ThermostatCommands(p: Peripheral, h: Handles)
    requires WellKnown(h)
    ensures DiscoveredCommands(p, Advertised(h)) == [
      ReadValue(p, h.setTemp), ReadValue(p, h.opState),
      SetNotifyValue(p, true, h.actualTemp),
      SetNotifyValue(p, true, h.battery),
      SetNotifyValue(p, true, h.opStatus)]
  {
    var cs := Advertised(h);
    assert cs[..0] == [];
    DiscoveredStep(p, cs, 0);
    DiscoveredStep(p, cs, 1);
    DiscoveredStep(p, cs, 2);
    DiscoveredStep(p, cs, 3);
    DiscoveredStep(p, cs, 4);
    DiscoveredStep(p, cs, 5);
    assert cs[..6] == cs;
  }

  /** Service discovery skips the other service and asks for the thermostat's characteristics. */
  lemma ThermostatServices(p: Peripheral, other: Service, s: Service)
    requires other.uuid != ServiceUuid && s.uuid == ServiceUuid
    ensures ServiceCommands(p, [other, s]) == [DiscoverCharacteristics(p, s)]
  {
    var ss := [other, s];
    assert ss[..1] == [other] && [other][..0] == [];
    assert ServiceCommands(p, [other]) == ServiceCommands(p, []) + [];
    assert ServiceCommands(p, ss) == ServiceCommands(p, [other]) + [DiscoverCharacteristics(p, s)];
  }

  /** The commands issued from power-on until the characteristics are bound. */
  function BindingCommands(p: Peripheral, h: Handles): seq<Command>
  {
    [ Scan([ServiceUuid]), StopScan, Connect(p),
      DiscoverServices(p, [ServiceUuid]),
      DiscoverCharacteristics(p, h.service),
      ReadValue(p, h.setTemp), ReadValue(p, h.opState),
      SetNotifyValue(p, true, h.actualTemp),
      SetNotifyValue(p, true, h.battery),
      SetNotifyValue(p, true, h.opStatus)]
  }

  /**
   * Power on, find and connect the thermostat and discover its service among
   * others: the connected screen, no bindings yet, and exactly the first
   * five commands.
   */
  method PowerOnToConnected(p: Peripheral, other: Service, h: Handles, d: Display) returns (ctl: Controller)
    requires p.name.Some? && other.uuid != ServiceUuid && WellKnown(h)
    ensures fresh(ctl) && ctl.Valid()
    ensures ctl.peripheral == Some(p) && ctl.setTempChar == None && ctl.opStateChar == None
    ensures ctl.view == Connected
    ensures ctl.display == Shown(Shown(d, Disconnected), Connected)
    ensures ctl.log == BindingCommands(p, h)[..5]
  {
    ctl := new Controller(BTPoweredOff, d);
    ctl.CentralManagerDidUpdateState(PoweredOn);
    ctl.DidDiscover(p);
    ctl.DidConnect(p);
    ThermostatServices(p, other, h.service);
    ctl.DidDiscoverServices(p, [other, h.service]);
  }

  /**
   * Then its characteristics: both bindings are set, the connected screen
   * shows no readings yet, and the log holds exactly the binding commands.
   */
  method PowerOnToBound(p: Peripheral, other: Service, h: Handles, d: Display) returns (ctl: Controller)
    requires p.name.Some? && other.uuid != ServiceUuid && WellKnown(h)
    ensures fresh(ctl) && ctl.Valid()
    ensures ctl.peripheral == Some(p)
    ensures ctl.setTempChar == Some(h.setTemp) && ctl.opStateChar == Some(h.opState)
    ensures ctl.view == Connected
    ensures ctl.display == Shown(Shown(d, Disconnected), Connected)
    ensures ctl.log == BindingCommands(p, h)
  {
    ctl := PowerOnToConnected(p, other, h, d);
    ThermostatBindings(h, None, None);
    ThermostatCommands(p, h);
    ctl.DidDiscoverCharacteristicsFor(p, Advertised(h));
  }

  /**
   * From there, the two reads arrive (each echoed back as a write) and then
   * three notifications; the trailing byte of the battery payload is ignored.
   */
  method ReadsAndNotifications(p: Peripheral, other: Service, h: Handles, d: Display)
    returns (log: seq<Command>, shown: Display, view: ViewState)
    requires p.name.Some? && other.uuid != ServiceUuid && WellKnown(h)
    ensures log == BindingCommands(p, h) + [
      WriteWithoutResponse(p, h.setTemp, [72]),
      WriteWithoutResponse(p, h.opState, [1])]
    ensures view == Connected
    ensures shown == d.(stepperValue := 72, stepperEnabled := true, setTempLabel := Some(72),
                        switchOn := true, switchEnabled := true, statusText := "Heating!",
                        actualTemp := Some(75), battery := Some(90))
  {
    var ctl := PowerOnToBound(p, other, h, d);
    ctl.DidUpdateValueFor(p, h.setTemp, Some([72]));
    ctl.DidUpdateValueFor(p, h.opState, Some([1]));
    ctl.DidUpdateValueFor(p, h.actualTemp, Some([75]));
    ctl.DidUpdateValueFor(p, h.battery, Some([90, 0]));
    ctl.DidUpdateValueFor(p, h.opStatus, Some([1]));
    log, shown, view := ctl.log, ctl.display, ctl.view;
  }
}
