# SmartThermos BLE session controller

A Dafny model of the Bluetooth Low Energy session that the SmartThermos iOS
app's view controller runs against the thermostat. The controller scans for a
peripheral advertising service 0x1234, connects to the first one it finds,
discovers that service and its characteristics, binds the set-temperature
(0x2001) and operating-state (0x2004) characteristics and reads them once,
subscribes to actual temperature (0x2002), battery (0x2003) and operating
status (0x2005), and from then on turns every value update into a change of
the screen. Moving the set-temperature stepper or the operating-state switch
writes one byte, without response, to the bound characteristic. Every
characteristic carries a single unsigned byte.

The radio is abstract. Peripherals, services and characteristics are opaque
handles that carry an identifier. Every call the controller makes into
CoreBluetooth is appended to a command log: scan, stop scan, connect, discover
services, discover characteristics, read, enable notifications and write
without response.

- `codec.dfy` (module `Codec`): the one-byte payload codec, the 0/1 switch
  byte and the two status-text mappings.
- `gatt.dfy` (module `Gatt`): the six identifiers, handles, the command type,
  the discovery dispatch table, what service and characteristic discovery
  issue for a whole list, and the protocol every issued command follows
  (`Conforms`).
- `session.dfy` (module `Session`): class `Controller`, which holds the stored
  peripheral (`BTPeripheral`), the two bindings, `SetTemperature`, the view
  state, the displayed values and the command log. It has one method per
  delegate callback and per control action. Each method states the new value
  of every field it may change, and its `modifies` clause names those fields
  and no others. Every delegate callback and control action keeps `Valid()`:
  each binding holds a characteristic of its own role, and every command in
  the log conforms to the device protocol. The two helpers
  `WriteCharacteristic` and `HandleCharacteristic` state their effect without
  it, as the source's helpers accept any characteristic.
- `scenarios.dfy` (module `Scenarios`): a whole session from power-on to
  steady state, for any thermostat handles.

What the controller does not do, although a reader might expect it to. The
model follows the code:
- A disconnect does not clear the stored peripheral or the bindings. Power-off
  does not clear them either. After reconnection a write can go to a
  characteristic of the previous connection.
- There is no "not bound" rejection of writes. The controller force-unwraps
  the binding and the stored peripheral, so these are method preconditions.
- There is no recovery from an empty or missing payload. The force-unwrap and
  `[0]` make a non-empty payload a precondition, but only for the five known
  characteristics. An update for any other characteristic never touches its
  value.
- There are no Connecting, Discovering or Ready states. There are only the
  three screens `Connected`, `Disconnected` and `BTPoweredOff`.
- Only the two readable roles are bound. The three notifying ones are
  subscribed and never stored.
- Discovery has no first-found guard. Every discovery callback overwrites the
  stored peripheral and issues stop-scan and connect again.
- The status text on leaving the connected screen is "StandBy". Turning the
  switch off shows "Standby". Both spellings are kept as written.

## Model

| member | source | states |
|---|---|---|
| `Codec.Decode` | SmartThermos_iOS/ViewController.swift:253-256 | a non-empty payload is the decoded byte followed by bytes the decoder ignores |
| `Codec.IsOn` | SmartThermos_iOS/ViewController.swift:206 | a byte turns the switch on exactly when it is not the byte written for off |
| `Codec.DecodeIgnoresTrailing` | SmartThermos_iOS/ViewController.swift:253-256 | decoding a payload gives its first byte whatever bytes follow |
| `Codec.Encode` | SmartThermos_iOS/ViewController.swift:259-263 | the written payload is exactly one byte, and decoding it gives back the value written |
| `Codec.EncodeDecode` | SmartThermos_iOS/ViewController.swift:253-263 | the other direction of the round trip: a one-byte payload decoded and re-encoded is unchanged |
| `Codec.SwitchByte` | SmartThermos_iOS/ViewController.swift:62 | the operating-state byte is 0 or 1, and nonzero exactly when the switch is on |
| `Codec.SwitchRoundTrip` | SmartThermos_iOS/ViewController.swift:199-208 | reading back the byte written for a switch position (`boolValue`) gives that position |
| `Codec.SwitchByteOfIsOn` | SmartThermos_iOS/ViewController.swift:203-207 | a 0/1 operating-state byte read into the switch is written back unchanged |
| `Codec.OpStatusText` | SmartThermos_iOS/ViewController.swift:239-248 | operating status 0 shows "Ready!" and any nonzero value shows "Heating!", both directions |
| `Codec.SwitchStatusText` | SmartThermos_iOS/ViewController.swift:52-59 | the switch on shows "Ready!" and off shows "Standby", both directions |
| `Gatt.Dispatch` | SmartThermos_iOS/ViewController.swift:14-184 | the identifiers of lines 14-18, as the tests of lines 165-184 use them: the table sends 0x2001 and 0x2004 to a read, 0x2002, 0x2003 and 0x2005 to a subscription, and every other identifier to nothing, each iff |
| `Gatt.CharacteristicCommands` | SmartThermos_iOS/ViewController.swift:165-184 | one loop pass issues at most one command, and issues one exactly when the identifier is one of the five known ones |
| `Gatt.DiscoveredCommands` | SmartThermos_iOS/ViewController.swift:163-185 | a whole characteristic list issues at most one command per characteristic |
| `Gatt.CharacteristicCommandsFollowTable` | SmartThermos_iOS/ViewController.swift:165-184 | the five independent identifier tests of one loop pass issue exactly the table's commands: at most one test fires |
| `Gatt.CharacteristicCounts` | SmartThermos_iOS/ViewController.swift:165-184 | one loop pass reads a characteristic once iff it is that readable characteristic, and subscribes once iff it is that notifying one |
| `Gatt.DiscoveredReads` | SmartThermos_iOS/ViewController.swift:163-172 | over a whole list, each readable characteristic is read exactly once per occurrence and nothing else is read |
| `Gatt.DiscoveredSubscriptions` | SmartThermos_iOS/ViewController.swift:163-185 | over a whole list, each notifying characteristic gets exactly one notify-enable per occurrence and nothing else does |
| `Gatt.ReadOrSubscribe` | SmartThermos_iOS/ViewController.swift:163-185 | a characteristic is read iff listed and readable, subscribed iff listed and notifying, and never both |
| `Gatt.Bound` | SmartThermos_iOS/ViewController.swift:165-171 | a binding is either left alone or set to a characteristic of its own identifier |
| `Gatt.BoundUnchanged` | SmartThermos_iOS/ViewController.swift:163-171 | a list with no characteristic of a role leaves that role's binding as it was |
| `Gatt.BoundIsLast` | SmartThermos_iOS/ViewController.swift:163-171 | otherwise the binding is the last characteristic of the list with that identifier |
| `Gatt.ServiceCommands` | SmartThermos_iOS/ViewController.swift:149-156 | service discovery issues at most one request per returned service |
| `Gatt.ServiceCommandsInOrder` | SmartThermos_iOS/ViewController.swift:149-156 | service discovery asks for all characteristics of exactly the 0x1234 services, one request each, in list order |
| `Gatt.ServiceCommandsCount` | SmartThermos_iOS/ViewController.swift:149-156 | each returned 0x1234 service gets one request per occurrence and any other service gets none |
| `Gatt.DiscoveredConforms` | SmartThermos_iOS/ViewController.swift:163-185 | characteristic discovery reads only readable roles and subscribes only notifying ones |
| `Gatt.ServiceCommandsConform` | SmartThermos_iOS/ViewController.swift:149-156 | service discovery targets only the thermostat's service |
| `Session.Shown` | SmartThermos_iOS/ViewController.swift:266-300 | controls are enabled exactly on the connected screen; leaving it turns the switch off, shows "StandBy" and blanks the set-temperature label and both readings; the stepper keeps its value |
| `Session.Controller.constructor` | SmartThermos_iOS/ViewController.swift:29-37 | a fresh controller has no peripheral, no bindings, no set temperature and an empty log, and it is valid |
| `Session.Controller.ChangeViewState` | SmartThermos_iOS/ViewController.swift:266-300 | sets the view state and applies that screen's widget changes; nothing else changes |
| `Session.Controller.WriteCharacteristic` | SmartThermos_iOS/ViewController.swift:259-263 | appends exactly one write-without-response of the one-byte payload to the given characteristic on the stored peripheral, which must be present |
| `Session.Controller.StateSwitchChanged` | SmartThermos_iOS/ViewController.swift:51-63 | shows "Ready!" or "Standby" to match the switch, and writes byte 1 or 0 to the bound operating-state characteristic; binding and peripheral must be present |
| `Session.Controller.SetTempStepperChanged` | SmartThermos_iOS/ViewController.swift:66-77 | records the set temperature, shows it on the label and writes it as one byte to the bound set-temperature characteristic |
| `Session.Controller.CentralManagerDidUpdateState` | SmartThermos_iOS/ViewController.swift:92-110 | powered on: disconnected screen and exactly one scan filtered by 0x1234; any other radio state: power-off screen and no command |
| `Session.Controller.DidDiscover` | SmartThermos_iOS/ViewController.swift:113-123 | stores the peripheral unconditionally, then appends stop-scan followed by connect to it; the advertised name must be present |
| `Session.Controller.DidConnect` | SmartThermos_iOS/ViewController.swift:126-132 | connected screen and one service discovery filtered by 0x1234 on the stored peripheral, or no command when none is stored |
| `Session.Controller.DidDisconnectPeripheral` | SmartThermos_iOS/ViewController.swift:135-143 | disconnected screen and exactly one new scan filtered by 0x1234; the stored peripheral and both bindings are unchanged |
| `Session.Controller.DidDiscoverServices` | SmartThermos_iOS/ViewController.swift:146-157 | the log grows by exactly the service-discovery commands of the returned list; nothing else changes |
| `Session.Controller.HandleCharacteristic` | SmartThermos_iOS/ViewController.swift:165-184 | one loop pass: binds 0x2001 or 0x2004 to the characteristic and appends that pass's commands |
| `Session.Controller.DidDiscoverCharacteristicsFor` | SmartThermos_iOS/ViewController.swift:160-186 | the bindings become the last matching characteristic of the list, or stay as they were, and the log grows by the list's discovery commands |
| `Session.Controller.DidUpdateValueFor` | SmartThermos_iOS/ViewController.swift:189-250 | per identifier: set temperature moves the stepper and label and echoes the byte back; operating state sets the switch iff nonzero, its text, and writes 1 or 0; the two readings show the value; operating status sets "Ready!" or "Heating!"; any other identifier changes nothing |
| `Scenarios.ThermostatBindings` | SmartThermos_iOS/ViewController.swift:163-172 | discovering the thermostat's characteristics binds its set-temperature and operating-state handles |
| `Scenarios.ThermostatCommands` | SmartThermos_iOS/ViewController.swift:163-185 | that discovery reads both readable handles, then subscribes to the three notifying ones, and skips an unknown one |
| `Scenarios.ThermostatServices` | SmartThermos_iOS/ViewController.swift:149-156 | a foreign service followed by 0x1234 yields one characteristic discovery, for the latter |
| `Scenarios.PowerOnToConnected` | SmartThermos_iOS/ViewController.swift:92-157 | power-on, discovery, connection and service discovery issue exactly scan, stop-scan, connect, one service discovery and one characteristic discovery, and bind nothing |
| `Scenarios.PowerOnToBound` | SmartThermos_iOS/ViewController.swift:160-186 | characteristic discovery then binds both readable handles and adds exactly two reads and three subscriptions |
| `Scenarios.ReadsAndNotifications` | SmartThermos_iOS/ViewController.swift:189-250 | the two read completions are echoed back as writes of 72 and 1, and the screen ends showing 72, switch on, "Heating!", 75 and 90 |

## Left out

- UIKit presentation: colours, the connection and peripheral-name labels (the view state stands for the connection label), `autorepeat`, and the "°F" and "%" suffixes. A label or text field is modelled as "N/A" (`None`) or the number it shows.
- `viewDidLoad` and the storyboard. The constructor takes the initial view state and widget values as parameters.
- `print` logging.
- CoreBluetooth itself. The delegate assignment `BTPeripheral?.delegate = self` is not modelled. The central manager is treated as always present, because callbacks only come from it.
- The ignored `error:` parameters of the callbacks.
- The delegate queue and threading. Callbacks and actions run one at a time.
- The `peripheral.services!` and `service.characteristics!` force-unwraps. The lists are plain (non-optional) parameters, so a missing list cannot be passed.
- Session.Controller.SetTempStepperChanged: the stepper value is a byte (0..255). The `Double` round trip of `UIStepper.value` and its clamping to the storyboard's minimum and maximum are not modelled. `UInt8(SetTemperature!)` therefore never traps in the model.
- Session.Controller.DidUpdateValueFor: does not model the stepper clamping a read set temperature to its range. `sendActions` is modelled as firing whether or not the control is enabled.
- Session.Controller.DidDiscoverCharacteristicsFor: the `service` parameter only supplies the list of characteristics. The method takes that list directly.
