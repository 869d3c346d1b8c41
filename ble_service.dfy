/** The connection manager `RealBLEService` (src/services/BLEService.js):
    one optional session, the scanning flag and the fallback UUID pair,
    changed by the public operations and by the callbacks the library
    delivers. Library calls are replaced by their outcomes, passed in as
    parameters; each callback is a method the library may invoke. */
module BleService {
  import opened BleTypes
  import opened NameFilter
  import opened WriteSelection

  const DefaultServiceUuid: string := "12345678-1234-1234-1234-123456789abc"
  const DefaultCharacteristicUuid: string := "87654321-4321-4321-4321-cba987654321"
  const UnknownDeviceName: string := "Unknown Device"

  /** A live session: the connected device and the services its discovery
      returned, in discovery order. */
  datatype Connection = Connection(device: Device, services: seq<Service>)

  class RealBleService {
    var connectedDevice: Option<Connection>
    /** The connected device's name as the scan reported it (`None` for a
        device that advertised no name); `Some("")` without a session. */
    var deviceName: Option<string>
    var scanning: bool
    var serviceUUID: string
    var characteristicUUID: string
    /** Devices whose `onDisconnected` callback has been registered by a
        successful connect; the library may fire any of them later. */
    ghost var disconnectListeners: seq<string>

    /** No half-initialised session: the name field always belongs to the
        current session, and is empty without one. */
    ghost predicate Valid()
      reads this
    {
      && (connectedDevice.None? ==> deviceName == Some(""))
      && (connectedDevice.Some? ==> deviceName == connectedDevice.value.device.name)
    }

    /** The discovered services of the session, `None` when disconnected. */
    function SessionServices(): Option<seq<Service>>
      reads this
    {
      if connectedDevice.None? then None else Some(connectedDevice.value.services)
    }

    /** A new manager: disconnected, not scanning, default UUID pair. */
    constructor ()
      ensures Valid()
      ensures connectedDevice == None && deviceName == Some("") && !scanning
      ensures serviceUUID == DefaultServiceUuid && characteristicUUID == DefaultCharacteristicUuid
      ensures disconnectListeners == []
      ensures !IsConnected() && GetConnectedDeviceName() == UnknownDeviceName
    {
      connectedDevice := None;
      serviceUUID := DefaultServiceUuid;
      characteristicUUID := DefaultCharacteristicUuid;
      deviceName := Some("");
      scanning := false;
      disconnectListeners := [];
    }

    /** The `onStateChange` handler: power-off ends the session and the scan,
        any other state changes nothing. */
    method HandleStateChange(state: AdapterState)
      requires Valid()
      modifies this
      ensures Valid()
      ensures state == PoweredOff ==>
        && connectedDevice == None && deviceName == Some("") && !scanning
        && serviceUUID == old(serviceUUID) && characteristicUUID == old(characteristicUUID)
        && disconnectListeners == old(disconnectListeners)
      ensures state != PoweredOff ==> unchanged(this)
    {
      if state == PoweredOff {
        if connectedDevice.Some? {
          connectedDevice := None;
          deviceName := Some("");
        }
        if scanning {
          scanning := false;
        }
      }
    }

    /** The start of `scanForDevices`. `adapterReady` says whether the adapter
        was powered on, or the user brought it up when prompted; `stopOk`
        whether stopping a previous scan succeeded. On success a scan runs
        and its results arrive through HandleScanResult and HandleScanTimeout. */
    method ScanForDevices(adapterReady: bool, stopOk: bool) returns (r: Status)
      requires Valid()
      modifies this`scanning
      ensures Valid()
      ensures !adapterReady ==> r == Failed(BluetoothNotEnabled) && !scanning
      ensures adapterReady && !stopOk ==> r == Failed(ScanStopFailed) && !scanning
      ensures adapterReady && stopOk ==> r == Done && scanning
    {
      if !adapterReady {
        scanning := false;
        return Failed(BluetoothNotEnabled);
      }
      scanning := true;
      if !stopOk {
        scanning := false;
        return Failed(ScanStopFailed);
      }
      r := Done;
    }

    /** The scan callback: an error ends the scan; a device the name filter
        accepts ends the scan and is handed to `onDeviceFound` (the result);
        any other device is ignored. */
    method HandleScanResult(error: bool, device: Option<Device>) returns (found: Option<Device>)
      requires Valid()
      modifies this`scanning
      ensures Valid()
      ensures error ==> found == None && !scanning
      ensures !error ==> (found.Some? <==> device.Some? && Accepts(device.value))
      ensures !error && found.Some? ==> found == device && !scanning
      ensures !error && found.None? ==> scanning == old(scanning)
    {
      if error {
        scanning := false;
        return None;
      }
      found := None;
      if device.Some? && device.value.name.Some? && device.value.name.value != "" {
        if Accepts(device.value) {
          scanning := false;
          found := device;
        }
      }
    }

    /** The 10 s scan timer: ends a scan still running, no-op otherwise. */
    method HandleScanTimeout()
      requires Valid()
      modifies this`scanning
      ensures Valid()
      ensures !scanning
      ensures !old(scanning) ==> unchanged(this)
    {
      if scanning {
        scanning := false;
      }
    }

    /** `connectToDevice`: `connectOk` is the outcome of the transport
        connection, `discoveryOk` that of service discovery, `discovered`
        the services it returns. Either the session is the new device with
        its name, or (on any failure) there is no session at all. */
    method ConnectToDevice(device: Device, connectOk: bool, discoveryOk: bool, discovered: seq<Service>)
      returns (r: Status)
      requires Valid()
      modifies this`connectedDevice, this`deviceName, this`disconnectListeners
      ensures Valid()
      ensures r == Done <==> connectOk && discoveryOk
      ensures !connectOk ==> r == Failed(ConnectFailed)
      ensures connectOk && !discoveryOk ==> r == Failed(DiscoveryFailed)
      ensures r == Done ==>
        && connectedDevice == Some(Connection(device, discovered))
        && deviceName == device.name
        && disconnectListeners == old(disconnectListeners) + [device.id]
      ensures r != Done ==>
        && connectedDevice == None && deviceName == Some("")
        && disconnectListeners == old(disconnectListeners)
    {
      if !connectOk {
        connectedDevice := None;
        deviceName := Some("");
        return Failed(ConnectFailed);
      }
      connectedDevice := Some(Connection(device, discovered));
      deviceName := device.name;
      if !discoveryOk {
        connectedDevice := None;
        deviceName := Some("");
        return Failed(DiscoveryFailed);
      }
      disconnectListeners := disconnectListeners + [device.id];
      r := Done;
    }

    /** The `onDisconnected` callback of a device connected earlier: it ends
        the session, whichever device is connected now. */
    method HandleDeviceDisconnected(id: string)
      requires Valid()
      requires id in disconnectListeners
      modifies this`connectedDevice, this`deviceName
      ensures Valid()
      ensures connectedDevice == None && deviceName == Some("")
    {
      connectedDevice := None;
      deviceName := Some("");
    }

    /** `disconnect`: a no-op without a session; otherwise `cancelOk` is the
        outcome of `cancelConnection`, which ends the session on success and
        leaves it untouched when it throws. */
    method Disconnect(cancelOk: bool) returns (r: Status)
      requires Valid()
      modifies this`connectedDevice, this`deviceName
      ensures Valid()
      ensures old(connectedDevice).None? ==> r == Done && unchanged(this)
      ensures old(connectedDevice).Some? && cancelOk ==>
        r == Done && connectedDevice == None && deviceName == Some("")
      ensures old(connectedDevice).Some? && !cancelOk ==>
        r == Failed(CancelFailed) && unchanged(this)
    {
      r := Done;
      if connectedDevice.Some? {
        if !cancelOk {
          return Failed(CancelFailed);
        }
        connectedDevice := None;
        deviceName := Some("");
      }
    }

    /** `sendCommand`: `accepts(t, command)` is the outcome of writing the
        command to target `t`. The nested loops visit the discovered
        characteristics in order and stop at the first accepted write; when
        none accepts, one write to the configured pair decides. */
    method SendCommand(command: string, accepts: (WriteTarget, string) -> bool)
      returns (r: Status, attempts: seq<WriteTarget>)
      requires Valid()
      ensures SendReport(r, attempts) == Send(SessionServices(), serviceUUID, characteristicUUID, command, accepts)
    {
      if connectedDevice.None? {
        return Failed(NoDeviceConnected), [];
      }
      var services := connectedDevice.value.services;
      ghost var cs := Candidates(services);
      ghost var pending := cs;  // candidates not yet visited
      attempts := [];
      var si := 0;
      while si < |services|
        invariant 0 <= si <= |services|
        invariant pending == ServiceCandidates(services, si)
        invariant attempts + pending == cs
        invariant AllRefused(attempts, command, accepts)
      {
        var chars := services[si].characteristics;
        var ci := 0;
        while ci < |chars|
          invariant 0 <= ci <= |chars|
          invariant pending == CharCandidates(si, chars, ci) + ServiceCandidates(services, si + 1)
          invariant attempts + pending == cs
          invariant AllRefused(attempts, command, accepts)
        {
          var c := chars[ci];
          ghost var next := CharCandidates(si, chars, ci + 1) + ServiceCandidates(services, si + 1);
          if c.isWritableWithResponse || c.isWritableWithoutResponse {
            var t := Discovered(si, ci, c.uuid);
            assert pending == [t] + next;
            if accepts(t, command) {
              SendStopsAtFirstAccepted(services, serviceUUID, characteristicUUID, command, accepts, attempts, t, next);
              return Done, attempts + [t];
            }
            AppendAssoc(attempts, [t], next);
            attempts := attempts + [t];
          }
          pending := next;
          ci := ci + 1;
        }
        si := si + 1;
      }
      SendFallsBackAfterRefusals(services, serviceUUID, characteristicUUID, command, accepts, attempts);
      var fallback := Configured(serviceUUID, characteristicUUID);
      attempts := attempts + [fallback];
      if accepts(fallback, command) {
        r := Done;
      } else {
        r := Failed(NoWritableCharacteristic);
      }
    }

    function IsConnected(): (r: bool)
      reads this
      ensures r <==> SessionServices().Some?
    {
      connectedDevice.Some?
    }

    /** `getConnectedDeviceName`: the session's name, or 'Unknown Device'
        when there is no session or the name is missing or empty. */
    function GetConnectedDeviceName(): (r: string)
      reads this
      requires Valid()
      ensures r != ""
      ensures !IsConnected() ==> r == UnknownDeviceName
      ensures IsConnected() && connectedDevice.value.device.name.Some? && connectedDevice.value.device.name.value != "" ==>
        r == connectedDevice.value.device.name.value
      ensures IsConnected() && (connectedDevice.value.device.name.None? || connectedDevice.value.device.name.value == "") ==>
        r == UnknownDeviceName
    {
      if deviceName.Some? && deviceName.value != "" then deviceName.value else UnknownDeviceName
    }

    /** `setCustomUUIDs`: replaces the fallback pair and nothing else. */
    method SetCustomUUIDs(service: string, characteristic: string)
      requires Valid()
      modifies this`serviceUUID, this`characteristicUUID
      ensures Valid()
      ensures serviceUUID == service && characteristicUUID == characteristic
    {
      serviceUUID := service;
      characteristicUUID := characteristic;
    }

    /** `getDeviceInfo`: `None` without a session or when reading the
        services throws (`servicesOk` false); otherwise the session's name,
        id and services, copied service by service in discovery order. */
    method GetDeviceInfo(servicesOk: bool) returns (info: Option<DeviceInfo>)
      requires Valid()
      ensures info.Some? <==> IsConnected() && servicesOk
      ensures info.Some? ==>
        && info.value.name == connectedDevice.value.device.name
        && info.value.id == connectedDevice.value.device.id
        && info.value.services == connectedDevice.value.services
    {
      if connectedDevice.None? {
        return None;
      }
      if !servicesOk {
        return None;
      }
      var services := connectedDevice.value.services;
      var copied: seq<Service> := [];
      var i := 0;
      while i < |services|
        invariant 0 <= i <= |services|
        invariant copied == services[..i]
      {
        // the copy equals the input: `Characteristic` holds exactly the four
        // fields the per-characteristic map keeps
        copied := copied + [Service(services[i].uuid, services[i].characteristics)];
        i := i + 1;
      }
      info := Some(DeviceInfo(deviceName, connectedDevice.value.device.id, copied));
    }
  }

  lemma AppendAssoc<T>(a: seq<T>, b: seq<T>, c: seq<T>)
    ensures a + b + c == a + (b + c)
  {
  }

  /** Every write in `ts` was refused. */
  predicate AllRefused(ts: seq<WriteTarget>, command: string, accepts: (WriteTarget, string) -> bool) {
    forall j :: 0 <= j < |ts| ==> !accepts(ts[j], command)
  }

  /** The visit stops at the first accepted candidate. */
  lemma SendStopsAtFirstAccepted(
    services: seq<Service>, sUuid: string, cUuid: string,
    command: string, accepts: (WriteTarget, string) -> bool,
    refused: seq<WriteTarget>, t: WriteTarget, rest: seq<WriteTarget>)
    requires Candidates(services) == refused + [t] + rest
    requires AllRefused(refused, command, accepts)
    requires accepts(t, command)
    ensures Send(Some(services), sUuid, cUuid, command, accepts) == SendReport(Done, refused + [t])
  {
    FirstAcceptedAfterRefusals(refused, t, rest, command, accepts);
    assert Candidates(services)[..|refused| + 1] == refused + [t];
  }

  /** When every candidate was refused, the fallback write decides. */
  lemma SendFallsBackAfterRefusals(
    services: seq<Service>, sUuid: string, cUuid: string,
    command: string, accepts: (WriteTarget, string) -> bool, refused: seq<WriteTarget>)
    requires Candidates(services) == refused
    requires AllRefused(refused, command, accepts)
    ensures Send(Some(services), sUuid, cUuid, command, accepts)
         == SendReport(
              if accepts(Configured(sUuid, cUuid), command) then Done else Failed(NoWritableCharacteristic),
              refused + [Configured(sUuid, cUuid)])
  {
  }

  /** Refused writes followed by an accepted one: the accepted one is the
      first accepted target of any list that continues them. */
  lemma {:induction false} FirstAcceptedAfterRefusals(
    refused: seq<WriteTarget>, t: WriteTarget, rest: seq<WriteTarget>,
    command: string, accepts: (WriteTarget, string) -> bool)
    requires AllRefused(refused, command, accepts)
    requires accepts(t, command)
    ensures FirstAccepted(refused + [t] + rest, command, accepts) == Some(|refused|)
    decreases |refused|
  {
    if refused != [] {
      assert (refused + [t] + rest)[1..] == refused[1..] + [t] + rest;
      FirstAcceptedAfterRefusals(refused[1..], t, rest, command, accepts);
    }
  }
}
