/** Sequences of operations on one connection manager, as the app drives
    it: connect then send, save a custom pair then fall back to it,
    disconnect twice, power-off before a send. */
module Scenarios {
  import opened BleTypes
  import opened WriteSelection
  import opened BleService
  import MotorControl

  /** A fresh manager refuses to send and reports no device. */
  method SendBeforeConnect(command: string, accepts: (WriteTarget, string) -> bool)
    returns (r: Status, attempts: seq<WriteTarget>)
    ensures r == Failed(NoDeviceConnected) && attempts == []
  {
    var ble := new RealBleService();
    r, attempts := ble.SendCommand(command, accepts);
  }

  /** Connecting to a device whose one service has one writable
      characteristic, then pressing motor A's up button: "A1" is written to
      that characteristic, and only there, when the write succeeds. */
  method ConnectThenPressUp(device: Device, uuid: string, accepts: (WriteTarget, string) -> bool)
    returns (r: Status, attempts: seq<WriteTarget>)
    requires accepts(Discovered(0, 0, uuid), "A1")
    ensures r == Done && attempts == [Discovered(0, 0, uuid)]
  {
    var ble := new RealBleService();
    var services := [Service("svc", [Characteristic(uuid, false, true, false)])];
    var c := ble.ConnectToDevice(device, true, true, services);
    var pressed := MotorControl.PressButton("A", MotorControl.Up, true);
    MotorControl.CommandSpelling("A", MotorControl.Up);
    r, attempts := ble.SendCommand(pressed.event.command.value, accepts);
    assert CharCandidates(0, services[0].characteristics, 1) == [];
    assert ServiceCandidates(services, 1) == [];
    assert Candidates(services) == [Discovered(0, 0, uuid)];
  }

  /** A saved custom pair is where the fallback write goes once every
      discovered characteristic has refused the command. */
  method CustomPairReachesFallback(
    ble: RealBleService, s: string, c: string,
    command: string, accepts: (WriteTarget, string) -> bool)
    returns (r: Status, attempts: seq<WriteTarget>)
    requires ble.Valid() && ble.IsConnected()
    requires forall t :: t in Candidates(ble.connectedDevice.value.services) ==> !accepts(t, command)
    modifies ble
    ensures |attempts| > 0 && attempts[|attempts| - 1] == Configured(s, c)
    ensures r == Done <==> accepts(Configured(s, c), command)
  {
    ble.SetCustomUUIDs(s, c);
    r, attempts := ble.SendCommand(command, accepts);
    SendFallsBackOnce(ble.connectedDevice.value.services, s, c, command, accepts);
  }

  /** A second `disconnect` after a successful one is a no-op. */
  method DisconnectTwice(ble: RealBleService)
    returns (first: Status, second: Status)
    requires ble.Valid() && ble.IsConnected()
    modifies ble
    ensures first == Done ==> second == Done && !ble.IsConnected()
    ensures first != Done ==> first == Failed(CancelFailed)
  {
    first := ble.Disconnect(true);
    second := ble.Disconnect(false);
  }

  /** After the adapter powers off, a send fails with no device. */
  method PowerOffThenSend(ble: RealBleService, command: string, accepts: (WriteTarget, string) -> bool)
    returns (r: Status, attempts: seq<WriteTarget>)
    requires ble.Valid()
    modifies ble
    ensures r == Failed(NoDeviceConnected) && attempts == []
    ensures ble.Valid() && ble.GetConnectedDeviceName() == UnknownDeviceName
  {
    ble.HandleStateChange(PoweredOff);
    r, attempts := ble.SendCommand(command, accepts);
  }

  /** The disconnect callback of an earlier session ends a later one: it
      does not check which device fired. */
  method StaleDisconnectEndsNewSession(ble: RealBleService, d1: Device, d2: Device, services: seq<Service>)
    requires ble.Valid()
    modifies ble
    ensures !ble.IsConnected()
  {
    var r1 := ble.ConnectToDevice(d1, true, true, services);
    var r2 := ble.ConnectToDevice(d2, true, true, services);
    ble.HandleDeviceDisconnected(d1.id);
  }
}
