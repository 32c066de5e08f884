/**
 * The thermostat's GATT topology as the controller sees it: the fixed
 * identifiers, opaque handles for peripherals, services and characteristics,
 * the transport commands the controller issues, and what service and
 * characteristic discovery issue for a whole list of handles.
 */
module Gatt {
  import opened Wrappers
  import opened Codec

  const ServiceUuid: nat := 0x1234
  const SetTempUuid: nat := 0x2001
  const ActualTempUuid: nat := 0x2002
  const BatteryUuid: nat := 0x2003
  const OpStateUuid: nat := 0x2004
  const OpStatusUuid: nat := 0x2005

  /** A discovered peripheral; `name` is the advertised local name, if any. */
  datatype Peripheral = Peripheral(id: nat, name: Option<string>)

  datatype Service = Service(id: nat, uuid: nat)

  datatype Characteristic = Characteristic(id: nat, uuid: nat)

  /** One call into the radio: central-manager calls and calls on a peripheral. */
  datatype Command =
    | Scan(services: seq<nat>)
    | StopScan
    | Connect(peripheral: Peripheral)
    | DiscoverServices(peripheral: Peripheral, services: seq<nat>)
      /** characteristic discovery with a `nil` filter: all of the service's characteristics */
    | DiscoverCharacteristics(peripheral: Peripheral, service: Service)
    | ReadValue(peripheral: Peripheral, characteristic: Characteristic)
    | SetNotifyValue(peripheral: Peripheral, enabled: bool, characteristic: Characteristic)
    | WriteWithoutResponse(peripheral: Peripheral, characteristic: Characteristic, data: seq<uint8>)

  /** The characteristics whose value is read once when discovered (and written later). */
  predicate IsReadUuid(uuid: nat)
  {
    uuid == SetTempUuid || uuid == OpStateUuid
  }

  /** The characteristics the controller subscribes to. */
  predicate IsNotifyUuid(uuid: nat)
  {
    uuid == ActualTempUuid || uuid == BatteryUuid || uuid == OpStatusUuid
  }

  /** The five characteristics the controller knows. */
  predicate IsKnownUuid(uuid: nat)
  {
    IsReadUuid(uuid) || IsNotifyUuid(uuid)
  }

  /** What discovering a characteristic leads to. */
  datatype Action = ReadOnce | Subscribe | Ignore

  /** The dispatch table of characteristic discovery, one entry per known identifier. */
  const DispatchTable: map<nat, Action> := map[
    SetTempUuid := ReadOnce,
    ActualTempUuid := Subscribe,
    BatteryUuid := Subscribe,
    OpStateUuid := ReadOnce,
    OpStatusUuid := Subscribe
  ]

  /** The table's action for an identifier; identifiers outside it are ignored. */
  function Dispatch(uuid: nat): (a: Action)
    ensures a == ReadOnce <==> IsReadUuid(uuid)
    ensures a == Subscribe <==> IsNotifyUuid(uuid)
    ensures a == Ignore <==> !IsKnownUuid(uuid)
  {
    if uuid in DispatchTable then DispatchTable[uuid] else Ignore
  }

  /** The commands an action stands for, sent to peripheral `p`. */
  function ActionCommands(p: Peripheral, a: Action, c: Characteristic): seq<Command>
  {
    match a
    case ReadOnce => [ReadValue(p, c)]
    case Subscribe => [SetNotifyValue(p, true, c)]
    case Ignore => []
  }

  /**
   * The commands one pass of the characteristic loop issues for `c`: five
   * independent identifier tests, in the order the controller makes them.
   */
  function CharacteristicCommands(p: Peripheral, c: Characteristic): (cmds: seq<Command>)
    ensures |cmds| <= 1
    ensures |cmds| == 1 <==> IsKnownUuid(c.uuid)
  {
    (if c.uuid == SetTempUuid then [ReadValue(p, c)] else [])
    + (if c.uuid == OpStateUuid then [ReadValue(p, c)] else [])
    + (if c.uuid == ActualTempUuid then [SetNotifyValue(p, true, c)] else [])
    + (if c.uuid == BatteryUuid then [SetNotifyValue(p, true, c)] else [])
    + (if c.uuid == OpStatusUuid then [SetNotifyValue(p, true, c)] else [])
  }

  /** The five tests agree with the dispatch table: at most one of them fires. */
  lemma CharacteristicCommandsFollowTable(p: Peripheral, c: Characteristic)
    ensures CharacteristicCommands(p, c) == ActionCommands(p, Dispatch(c.uuid), c)
  {
  }

  /** The commands characteristic discovery issues for the list `cs`, in list order. */
  function DiscoveredCommands(p: Peripheral, cs: seq<Characteristic>): (cmds: seq<Command>)
    ensures |cmds| <= |cs|
    decreases |cs|
  {
    if cs == [] then []
    else DiscoveredCommands(p, cs[..|cs| - 1]) + CharacteristicCommands(p, cs[|cs| - 1])
  }

  /** How often one pass of the loop reads or subscribes to `c`. */
  lemma CharacteristicCounts(p: Peripheral, d: Characteristic, c: Characteristic)
    ensures multiset(CharacteristicCommands(p, d))[ReadValue(p, c)]
         == if IsReadUuid(c.uuid) && d == c then 1 else 0
    ensures multiset(CharacteristicCommands(p, d))[SetNotifyValue(p, true, c)]
         == if IsNotifyUuid(c.uuid) && d == c then 1 else 0
  {
    CharacteristicCommandsFollowTable(p, d);
  }

  /** Every readable characteristic in the list is read once per occurrence; nothing else is read. */
  lemma {:induction false} DiscoveredReads(p: Peripheral, cs: seq<Characteristic>, c: Characteristic)
    ensures multiset(DiscoveredCommands(p, cs))[ReadValue(p, c)]
         == if IsReadUuid(c.uuid) then multiset(cs)[c] else 0
    decreases |cs|
  {
    if cs != [] {
      var init, last := cs[..|cs| - 1], cs[|cs| - 1];
      assert cs == init + [last];
      assert multiset(cs)[c] == multiset(init)[c] + if last == c then 1 else 0;
      DiscoveredReads(p, init, c);
      CharacteristicCounts(p, last, c);
    }
  }

  /** Every notifying characteristic in the list is subscribed once per occurrence; nothing else is. */
  lemma {:induction false} DiscoveredSubscriptions(p: Peripheral, cs: seq<Characteristic>, c: Characteristic)
    ensures multiset(DiscoveredCommands(p, cs))[SetNotifyValue(p, true, c)]
         == if IsNotifyUuid(c.uuid) then multiset(cs)[c] else 0
    decreases |cs|
  {
    if cs != [] {
      var init, last := cs[..|cs| - 1], cs[|cs| - 1];
      assert cs == init + [last];
      assert multiset(cs)[c] == multiset(init)[c] + if last == c then 1 else 0;
      DiscoveredSubscriptions(p, init, c);
      CharacteristicCounts(p, last, c);
    }
  }

  /**
   * A discovered characteristic is read iff it is readable, subscribed iff it
   * notifies, and never both.
   */
  lemma ReadOrSubscribe(p: Peripheral, cs: seq<Characteristic>, c: Characteristic)
    ensures ReadValue(p, c) in DiscoveredCommands(p, cs) <==> c in cs && IsReadUuid(c.uuid)
    ensures SetNotifyValue(p, true, c) in DiscoveredCommands(p, cs) <==> c in cs && IsNotifyUuid(c.uuid)
    ensures !(ReadValue(p, c) in DiscoveredCommands(p, cs) && SetNotifyValue(p, true, c) in DiscoveredCommands(p, cs))
  {
    DiscoveredReads(p, cs, c);
    DiscoveredSubscriptions(p, cs, c);
  }

  /**
   * The binding characteristic discovery leaves for identifier `uuid`, starting
   * from `b`: the last characteristic of `cs` with that identifier, or `b`
   * unchanged when there is none.
   */
  function Bound(b: Option<Characteristic>, cs: seq<Characteristic>, uuid: nat): (r: Option<Characteristic>)
    ensures r == b || (r.Some? && r.value.uuid == uuid)
    decreases |cs|
  {
    if cs == [] then b
    else if cs[|cs| - 1].uuid == uuid then Some(cs[|cs| - 1])
    else Bound(b, cs[..|cs| - 1], uuid)
  }

  /** With no characteristic of that identifier the binding is left as it was. */
  lemma {:induction false} BoundUnchanged(b: Option<Characteristic>, cs: seq<Characteristic>, uuid: nat)
    requires forall i | 0 <= i < |cs| :: cs[i].uuid != uuid
    ensures Bound(b, cs, uuid) == b
    decreases |cs|
  {
    if cs != [] {
      BoundUnchanged(b, cs[..|cs| - 1], uuid);
    }
  }

  /** Otherwise the binding is the last characteristic of the list with that identifier. */
  lemma {:induction false} BoundIsLast(b: Option<Characteristic>, cs: seq<Characteristic>, uuid: nat, k: nat)
    requires k < |cs| && cs[k].uuid == uuid
    requires forall j | k < j < |cs| :: cs[j].uuid != uuid
    ensures Bound(b, cs, uuid) == Some(cs[k])
    decreases |cs|
  {
    if k < |cs| - 1 {
      BoundIsLast(b, cs[..|cs| - 1], uuid, k);
    }
  }

  /** Handling one more characteristic moves its binding to it if it has the identifier. */
  lemma BoundStep(b: Option<Characteristic>, cs: seq<Characteristic>, i: nat, uuid: nat)
    requires i < |cs|
    ensures Bound(b, cs[..i + 1], uuid) == if cs[i].uuid == uuid then Some(cs[i]) else Bound(b, cs[..i], uuid)
  {
    assert cs[..i + 1][..i] == cs[..i];
  }

  /** Handling one more characteristic appends its commands. */
  lemma DiscoveredStep(p: Peripheral, cs: seq<Characteristic>, i: nat)
    requires i < |cs|
    ensures DiscoveredCommands(p, cs[..i + 1]) == DiscoveredCommands(p, cs[..i]) + CharacteristicCommands(p, cs[i])
  {
    assert cs[..i + 1][..i] == cs[..i];
  }

  /** The commands service discovery issues for the returned list `ss`, in list order. */
  function ServiceCommands(p: Peripheral, ss: seq<Service>): (cmds: seq<Command>)
    ensures |cmds| <= |ss|
    decreases |ss|
  {
    if ss == [] then []
    else
      var s := ss[|ss| - 1];
      ServiceCommands(p, ss[..|ss| - 1]) + (if s.uuid == ServiceUuid then [DiscoverCharacteristics(p, s)] else [])
  }

  /** The services of `ss` that are the thermostat's service, in list order. */
  function MatchingServices(ss: seq<Service>): (ms: seq<Service>)
    decreases |ss|
  {
    if ss == [] then []
    else (if ss[0].uuid == ServiceUuid then [ss[0]] else []) + MatchingServices(ss[1..])
  }

  lemma {:induction false} MatchingServicesAppend(ss: seq<Service>, s: Service)
    ensures MatchingServices(ss + [s])
         == MatchingServices(ss) + (if s.uuid == ServiceUuid then [s] else [])
    decreases |ss|
  {
    if ss != [] {
      assert (ss + [s])[1..] == ss[1..] + [s];
      MatchingServicesAppend(ss[1..], s);
    }
  }

  /**
   * Service discovery asks for the characteristics of exactly the matching
   * services, one request each, in the order the services were returned.
   */
  lemma {:induction false} ServiceCommandsInOrder(p: Peripheral, ss: seq<Service>)
    ensures |ServiceCommands(p, ss)| == |MatchingServices(ss)|
    ensures forall i | 0 <= i < |ServiceCommands(p, ss)| ::
              ServiceCommands(p, ss)[i] == DiscoverCharacteristics(p, MatchingServices(ss)[i])
    decreases |ss|
  {
    if ss != [] {
      var init, last := ss[..|ss| - 1], ss[|ss| - 1];
      assert ss == init + [last];
      MatchingServicesAppend(init, last);
      ServiceCommandsInOrder(p, init);
    }
  }

  /** Each returned service with the thermostat's identifier gets one request per occurrence; others none. */
  lemma {:induction false} ServiceCommandsCount(p: Peripheral, ss: seq<Service>, s: Service)
    ensures multiset(ServiceCommands(p, ss))[DiscoverCharacteristics(p, s)]
         == if s.uuid == ServiceUuid then multiset(ss)[s] else 0
    decreases |ss|
  {
    if ss != [] {
      var init, last := ss[..|ss| - 1], ss[|ss| - 1];
      assert ss == init + [last];
      ServiceCommandsCount(p, init, s);
    }
  }

  /**
   * The device protocol every command of the controller follows: scans and
   * service discovery filter on the thermostat's service, characteristic
   * discovery targets that service, reads and subscriptions go to the roles
   * meant for them, and a write carries one byte to a writable role (0 or 1
   * for the operating state).
   */
  predicate Conforms(cmd: Command)
  {
    match cmd
    case Scan(filter) => filter == [ServiceUuid]
    case StopScan => true
    case Connect(_) => true
    case DiscoverServices(_, filter) => filter == [ServiceUuid]
    case DiscoverCharacteristics(_, s) => s.uuid == ServiceUuid
    case ReadValue(_, c) => IsReadUuid(c.uuid)
    case SetNotifyValue(_, enabled, c) => enabled && IsNotifyUuid(c.uuid)
    case WriteWithoutResponse(_, c, data) =>
      |data| == 1 && (c.uuid == SetTempUuid || (c.uuid == OpStateUuid && data[0] <= 1))
  }

  /** Characteristic discovery issues only conforming commands. */
  lemma {:induction false} DiscoveredConforms(p: Peripheral, cs: seq<Characteristic>)
    ensures forall cmd | cmd in DiscoveredCommands(p, cs) :: Conforms(cmd)
    decreases |cs|
  {
    if cs != [] {
      DiscoveredConforms(p, cs[..|cs| - 1]);
    }
  }

  /** Service discovery issues only conforming commands. */
  lemma {:induction false} ServiceCommandsConform(p: Peripheral, ss: seq<Service>)
    ensures forall cmd | cmd in ServiceCommands(p, ss) :: Conforms(cmd)
    decreases |ss|
  {
    if ss != [] {
      ServiceCommandsConform(p, ss[..|ss| - 1]);
    }
  }
}
