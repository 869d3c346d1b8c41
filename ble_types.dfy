/** Values exchanged between the connection manager and the BLE library:
    devices reported by a scan, the services and characteristics found by
    discovery, adapter states, and the outcome of an operation. */
module BleTypes {

  datatype Option<+T> = None | Some(value: T)

  /** The adapter states the library reports to `onStateChange`. */
  datatype AdapterState = Unknown | Resetting | Unsupported | Unauthorized | PoweredOff | PoweredOn

  /** A device reported by a scan: its identifier and its advertised name,
      `None` when the advertisement carries no name (JavaScript `null`). */
  datatype Device = Device(id: string, name: Option<string>)

  /** A characteristic as discovery reports it, with the flags the
      connection manager and the configuration screen look at. */
  datatype Characteristic = Characteristic(
    uuid: string,
    isReadable: bool,
    isWritableWithResponse: bool,
    isWritableWithoutResponse: bool)

  /** A discovered service and its characteristics, in discovery order. */
  datatype Service = Service(uuid: string, characteristics: seq<Characteristic>)

  /** The flag test shared by `sendCommand` and the auto-detect screen:
      either kind of write makes a characteristic a write target. */
  predicate IsWritable(c: Characteristic) {
    c.isWritableWithResponse || c.isWritableWithoutResponse
  }

  /** The snapshot `getDeviceInfo` hands to the configuration screen. */
  datatype DeviceInfo = DeviceInfo(name: Option<string>, id: string, services: seq<Service>)

  /** Failures the connection manager raises (thrown errors in the source). */
  datatype BleError =
    | BluetoothNotEnabled        // the pre-scan adapter check failed
    | ScanStopFailed             // stopping a previous scan threw
    | ConnectFailed              // the transport connection was refused
    | DiscoveryFailed            // service discovery threw after connecting
    | CancelFailed               // cancelConnection threw
    | NoDeviceConnected          // sendCommand without a session
    | NoWritableCharacteristic   // every candidate and the fallback write failed

  /** The outcome of an operation that either completes or throws. */
  datatype Status = Done | Failed(error: BleError)
}
