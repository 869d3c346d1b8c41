# BLE control panel — connection core in Dafny

This project models the connection core of a React Native control panel that drives a robot arm over Bluetooth Low Energy. The core has five parts:

- **The connection manager `RealBLEService`** (`ble_service.dfy`). It is a class with the fields `connectedDevice`, `deviceName`, `scanning`, `serviceUUID` and `characteristicUUID`. It models:
  - the constructor and the power-off handler;
  - the scan start, the scan callback with its name filter, and the 10 s scan timeout;
  - `connectToDevice` and its `onDisconnected` callback;
  - `disconnect`, `sendCommand`, `isConnected`, `getConnectedDeviceName`, `setCustomUUIDs` and `getDeviceInfo`.

  Library calls are not modelled. Their outcomes are parameters: `adapterReady` and `stopOk` for the scan start, `error` for the scan callback, `connectOk`, `discoveryOk`, `cancelOk`, `servicesOk`, and an oracle `accepts(target, command)` that says whether a write succeeds. Callbacks the library fires are methods the environment may call in any order.
- **The name filter** (`name_filter.dfy`, with `ascii.dfy`). A device is taken when its name is non-empty and its lower-cased form contains `esp`, `u-arm`, `uarm`, `arduino` or `bluetooth`.
- **The write-target search** (`write_selection.dfy`). This is a pure specification of `sendCommand`:
  - discovered services and their characteristics are visited in order;
  - every characteristic flagged writable with or without response is tried with `writeWithResponse`;
  - the first accepted write wins, and a refused write moves on to the next candidate;
  - if none accepts, exactly one write goes to the configured pair.

  The method `RealBleService.SendCommand` runs the two nested loops and is proved equal to this specification.
- **The configuration screen** (`esp_configuration.dfy`, with `uuid.dfy`):
  - the UUID regular expression, proved to accept exactly the string form of section 3 of RFC 4122;
  - `handleSave`, which checks the service UUID, then the characteristic UUID, then commits;
  - `handleDetectConfiguration`, which auto-fills the fields from the first service and its first writable characteristic.
- **The motor panel** (`motor_control.dfy`): the command table `motorCommands`, the three buttons and `handleCommand`.

`ble_types.dfy` holds the shared value types. `scenarios.dfy` chains the operations as the app uses them.

## Model

| member | source | states |
|---|---|---|
| `BleService.RealBleService.Valid` | src/services/BLEService.js:240-262 | Defines the no-half-session invariant. Without a session the name is empty. With one, the name is the connected device's name. Every state-changing method keeps it. |
| `BleService.RealBleService.constructor` | src/services/BLEService.js:5-16 | A new manager has no session, is not scanning, reports "Unknown Device" and holds the default service and characteristic UUIDs. |
| `BleService.RealBleService.HandleStateChange` | src/services/BLEService.js:19-32 | PoweredOff clears the session and the name and stops the scan, keeping the UUID pair. Any other adapter state changes no field. |
| `BleService.RealBleService.ScanForDevices` | src/services/BLEService.js:164-179 | An adapter that stays off fails with "Bluetooth is not enabled" and leaves `scanning` false. A failed stop of a previous scan also leaves it false and rethrows. Otherwise a scan is running. |
| `BleService.RealBleService.HandleScanResult` | src/services/BLEService.js:182-206 | A scan error ends the scan. A device is handed on exactly when the name filter accepts it, and the scan then ends. Any other device changes nothing. |
| `BleService.RealBleService.HandleScanTimeout` | src/services/BLEService.js:208-215 | Afterwards no scan runs. If none was running, nothing changes. |
| `BleService.RealBleService.ConnectToDevice` | src/services/BLEService.js:235-264 | Success holds exactly when both the connection and discovery succeed. The session is then the device with its discovered services and its name. Any failure leaves no session and an empty name, so no session is ever half set up. |
| `BleService.RealBleService.HandleDeviceDisconnected` | src/services/BLEService.js:251-255 | The `onDisconnected` callback of any device connected earlier clears the session and the name. |
| `BleService.RealBleService.Disconnect` | src/services/BLEService.js:266-278 | With no session it is a no-op that succeeds. A successful cancel clears the session. A failed cancel changes nothing and reports the error. |
| `BleService.RealBleService.SendCommand` | src/services/BLEService.js:280-330 | The status and the sequence of attempted writes equal `WriteSelection.Send` on the session's services and the configured pair. This is proved through loop invariants over the nested loops. |
| `BleService.RealBleService.IsConnected` | src/services/BLEService.js:332-334 | True exactly when there is a session. |
| `BleService.RealBleService.GetConnectedDeviceName` | src/services/BLEService.js:336-338 | Never empty. "Unknown Device" without a session. Otherwise the device's name when it has a non-empty one, and "Unknown Device" when it has none. |
| `BleService.RealBleService.SetCustomUUIDs` | src/services/BLEService.js:341-344 | Replaces the fallback pair and no other field. |
| `BleService.RealBleService.GetDeviceInfo` | src/services/BLEService.js:347-378 | Returns a value exactly when connected and the services could be read. The value holds the session's name, id and every service in discovery order. |
| `BleTypes.IsWritable` | src/services/BLEService.js:299 | Defines the flag test shared by `sendCommand` and auto-detect: writable with response or without response. |
| `BleService.SendStopsAtFirstAccepted` | src/services/BLEService.js:297-303 | After refused candidates, the first accepted write ends the send with success, and those candidates are exactly the attempts. |
| `BleService.SendFallsBackAfterRefusals` | src/services/BLEService.js:312-324 | When every candidate was refused, the attempts are the candidates plus one write to the configured pair, and that write decides the status. |
| `BleService.FirstAcceptedAfterRefusals` | src/services/BLEService.js:297-307 | The first accepted target in refused writes, then an accepted one, then anything, is the accepted one. |
| `Ascii.Lower` | src/services/BLEService.js:193 | Lower-casing keeps the length and maps each ASCII capital to its small letter, character by character. |
| `NameFilter.IncludesFrom` | src/services/BLEService.js:194-198 | Defines the `includes` search from index i onward. A success leaves room for the keyword at i or later. |
| `NameFilter.Includes` | src/services/BLEService.js:194-198 | Defines `String.prototype.includes` as the search from index 0. A keyword can only be found in a name at least as long. |
| `NameFilter.Accepts` | src/services/BLEService.js:189-198 | Defines the scan filter, disjunct for disjunct. An accepted device has a name of at least three characters, the length of the shortest keyword. |
| `NameFilter.IncludesFromIff` | src/services/BLEService.js:194-198 | The `includes` search from index i succeeds exactly when the keyword occurs at i or later. |
| `NameFilter.IncludesIff` | src/services/BLEService.js:194-198 | `includes` holds exactly when the keyword occurs somewhere in the name. |
| `NameFilter.AcceptsIff` | src/services/BLEService.js:189-198 | A device is accepted exactly when its name is present and non-empty and one of the five keywords occurs in its lower-cased form. |
| `NameFilter.AcceptsIgnoresCase` | src/services/BLEService.js:193 | Names equal up to ASCII case are filtered alike. |
| `NameFilter.UnnamedRejected` | src/services/BLEService.js:189 | A device with no name or an empty name is never accepted. |
| `NameFilter.Esp32ArmAccepted` | src/services/BLEService.js:189-198 | "ESP32-Arm" is accepted. |
| `NameFilter.MyHeadphonesRejected` | src/services/BLEService.js:189-198 | "MyHeadphones" is rejected. |
| `WriteSelection.CharCandidates` | src/services/BLEService.js:297-299 | Defines the inner loop's candidates: the writable characteristics of one service from a position on, in order. |
| `WriteSelection.ServiceCandidates` | src/services/BLEService.js:294-299 | Defines the outer loop's candidates: those of each service from a position on, in service order. |
| `WriteSelection.Candidates` | src/services/BLEService.js:294-299 | Defines every write target the nested loops visit, in visiting order. |
| `WriteSelection.Send` | src/services/BLEService.js:280-324 | Defines `sendCommand`'s outcome and its attempted writes: no session; the first accepted candidate; or all candidates refused plus the one fallback write. |
| `WriteSelection.FirstAccepted` | src/services/BLEService.js:297-307 | Gives the index of an accepted target before which every target was refused, or none when all are refused. |
| `WriteSelection.CharCandidatesExactly` | src/services/BLEService.js:297-299 | The inner loop from position ci on tries exactly the characteristics from ci on that are flagged writable, each at its own position. |
| `WriteSelection.ServiceCandidatesExactly` | src/services/BLEService.js:294-299 | The loops from service si on try exactly the writable characteristics of those services. |
| `WriteSelection.CandidatesExactly` | src/services/BLEService.js:294-299 | A target is tried exactly when it names a characteristic flagged writable with or without response, at its discovered position. |
| `WriteSelection.WithoutResponseOnlyIsCandidate` | src/services/BLEService.js:299-301 | A characteristic flagged only writable-without-response is still a candidate; every write in the model is a `writeWithResponse`. |
| `WriteSelection.CharCandidatesOrdered` | src/services/BLEService.js:297 | One service's candidates come in characteristic order. |
| `WriteSelection.ServiceCandidatesOrdered` | src/services/BLEService.js:294-297 | Candidates from service si on come in service order, then characteristic order. |
| `WriteSelection.CandidatesOrdered` | src/services/BLEService.js:294-297 | All candidates come in discovery order. |
| `WriteSelection.SendWhenDisconnected` | src/services/BLEService.js:282-284 | Without a session the result is "No device connected" and nothing is written. |
| `WriteSelection.SendFirstMatchWins` | src/services/BLEService.js:294-303 | When candidate k is the first to accept, the attempts are candidates 0..k, the send succeeds and every attempt was a discovered writable characteristic. |
| `WriteSelection.SendFallsBackOnce` | src/services/BLEService.js:312-324 | When no candidate accepts, every candidate is tried once, then exactly one write goes to the configured pair. Its failure is "no writable characteristic found". |
| `WriteSelection.SendSkipsFailedWrites` | src/services/BLEService.js:300-324 | With a session at least one write is attempted and all but the last were refused. The send succeeds exactly when the last write was accepted. The only failure is "no writable characteristic found". |
| `Uuid.MatchesPattern` | src/components/ESPConfiguration.js:12 | Defines anchored matching, one character per atom. A matched string has as many characters as the pattern has atoms. |
| `Uuid.IsUuid` | src/components/ESPConfiguration.js:12 | Defines `uuidRegex.test` with the quantifiers expanded. Every accepted string has 36 characters. |
| `Uuid.MatchesPatternIff` | src/components/ESPConfiguration.js:12 | An anchored token pattern matches exactly the strings of the same length that match it character by character. |
| `Uuid.UuidPatternAt` | src/components/ESPConfiguration.js:12 | The expanded regular expression has 36 atoms, with dashes exactly at offsets 8, 13, 18 and 23. |
| `Uuid.IsUuidIff` | src/components/ESPConfiguration.js:12 | The regular expression accepts exactly the RFC 4122 string form: 36 characters, dashes at 8, 13, 18 and 23, hexadecimal digits elsewhere. |
| `Uuid.IsUuidFromGroups` | src/components/ESPConfiguration.js:12 | Any five hexadecimal groups of 8, 4, 4, 4 and 12 digits joined by dashes pass the check. |
| `Uuid.IsUuidIgnoresCase` | src/components/ESPConfiguration.js:12 | Because of the `i` flag, lower-casing never changes the verdict. |
| `EspConfiguration.AutoFill` | src/components/ESPConfiguration.js:42-55 | Defines the fields after auto-detect. Without services they are kept. Otherwise the service UUID is the first service's, and the characteristic UUID is kept or is the UUID of a writable characteristic of that service. |
| `EspConfiguration.FirstWritable` | src/components/ESPConfiguration.js:48-50 | `find` returns the first characteristic flagged writable, or none when no characteristic is writable. |
| `EspConfiguration.ConfigurationForm.constructor` | src/components/ESPConfiguration.js:5-8 | The fields start with the default pair and no device information. |
| `EspConfiguration.ConfigurationForm.EditServiceUuid` | src/components/ESPConfiguration.js:79 | Typing replaces the service UUID field. |
| `EspConfiguration.ConfigurationForm.EditCharacteristicUuid` | src/components/ESPConfiguration.js:91 | Typing replaces the characteristic UUID field. |
| `EspConfiguration.ConfigurationForm.HandleSave` | src/components/ESPConfiguration.js:10-33 | An invalid service UUID is reported first and an invalid characteristic UUID second. Each leaves the manager unchanged. The save succeeds exactly when both pass. The manager then holds the pair, and `onSave`, when present, gets that same pair. |
| `EspConfiguration.ConfigurationForm.HandleDetectConfiguration` | src/components/ESPConfiguration.js:35-60 | "No Device" exactly when there is no session or the services cannot be read, and then the fields do not change. Otherwise the snapshot is stored and the fields become the auto-fill of the old fields. |
| `EspConfiguration.InitialUuidsAreDefaults` | src/components/ESPConfiguration.js:6-7 | The screen's initial pair is the manager's default pair. |
| `EspConfiguration.InitialServiceUuidValid` | src/components/ESPConfiguration.js:6 | The default service UUID passes the check. |
| `EspConfiguration.InitialCharacteristicUuidValid` | src/components/ESPConfiguration.js:7 | The default characteristic UUID passes the check. |
| `EspConfiguration.AutoFillReadsFirstServiceOnly` | src/components/ESPConfiguration.js:42-55 | Devices whose first services agree fill the fields alike: later services are never examined. |
| `EspConfiguration.AutoFillPicksFirstWritable` | src/components/ESPConfiguration.js:42-55 | The service UUID becomes the first service's UUID. The characteristic UUID becomes that service's first writable characteristic, and is kept when there is none. |
| `EspConfiguration.AutoFillMatchesFirstSendTarget` | src/components/ESPConfiguration.js:42-52 | The detected characteristic is the first target `sendCommand` tries on the same services. |
| `EspConfiguration.SkipUnwritable` | src/components/ESPConfiguration.js:48-50 | Characteristics before the first writable one contribute no write candidate. |
| `MotorControl.ParseAction` | src/components/MotorControl.js:52-66 | An action name that reads back as an action is that action's name. |
| `MotorControl.HandleCommand` | src/components/MotorControl.js:25-31 | Motor name, action and command reach `onCommand` unchanged when a handler exists. Nothing is forwarded otherwise. |
| `MotorControl.CommandOf` | src/components/MotorControl.js:37-66 | Defines `commands.up`, `commands.rotate` and `commands.down`. On a row of the table `MotorCommands` (the `motorCommands` literal), the result is the motor's letter followed by the action's digit. |
| `MotorControl.LookUp` | src/components/MotorControl.js:37-66 | Defines `motorCommands[motorName]` followed by the field read. It throws exactly for names neither in the table nor inherited, gives `undefined` exactly for inherited names, and gives the spelled command for `A` and `B`. |
| `MotorControl.PressButton` | src/components/MotorControl.js:42-70 | A name neither in the table nor inherited from `Object.prototype` throws before forwarding. Otherwise, with a handler, the event carries the motor and an action name that reads back as the button's action. Its command is that action's table entry for `A` and `B`, and `undefined` for an inherited name such as `constructor`. |
| `MotorControl.InheritedNameForwardsUndefined` | src/components/MotorControl.js:25-52 | For a panel named after a property every object inherits, such as `constructor`, a press with a handler forwards the motor name and the action name with an `undefined` command. |
| `MotorControl.CommandSpelling` | src/components/MotorControl.js:37-40 | Every command is its motor's letter followed by 1, 2 or 3 for up, rotate and down ("A1".."A3", "B1".."B3"). It begins with its motor's letter. |
| `MotorControl.CommandsDistinct` | src/components/MotorControl.js:37-40 | Distinct motor and action pairs give distinct commands, so the six commands are pairwise different. |
| `MotorControl.ButtonActionKeysItsCommand` | src/components/MotorControl.js:51-70 | Each button forwards the command keyed by the action name it passes. |
| `Scenarios.SendBeforeConnect` | src/services/BLEService.js:5-16 | On a new manager, a send fails with "No device connected" and writes nothing. |
| `Scenarios.ConnectThenPressUp` | src/services/BLEService.js:235-303 | After connecting to a device with one writable characteristic, pressing motor A's up button writes "A1" there once and succeeds, when that write is accepted. |
| `Scenarios.CustomPairReachesFallback` | src/services/BLEService.js:312-344 | After `setCustomUUIDs`, the fallback write goes to the new pair, and it decides the outcome. |
| `Scenarios.DisconnectTwice` | src/services/BLEService.js:266-278 | A second disconnect after a successful one succeeds and leaves the manager disconnected. |
| `Scenarios.PowerOffThenSend` | src/services/BLEService.js:19-32 | After power-off, the name is "Unknown Device" and a send fails with "No device connected". |
| `Scenarios.StaleDisconnectEndsNewSession` | src/services/BLEService.js:251-255 | The disconnect callback of an earlier device ends a later session. |

## Left out

- `initialize`, `handleBluetoothDisabled` and `requestBluetoothPermissions` (src/services/BLEService.js:35-162). These are operating-system permission prompts and settings intents. Their effect on a scan is the `adapterReady` parameter of `ScanForDevices`.
- The Bluetooth library itself:
  - the manager, the scan, connect, discovery, writes, cancel and `destroy`;
  - every outcome is a parameter, or the `accepts` oracle for writes;
  - `destroy` (src/services/BLEService.js:225-233) only calls the library, so it is not modelled.
- The UTF-8 and base64 encoding of the command (src/services/BLEService.js:289). Writes are modelled on the command text.
- Failures of `services()` and `characteristics()` inside `sendCommand` (src/services/BLEService.js:292, 295). The discovered services are the ones stored at connect time.
- A throwing pre-scan `state()` query (src/services/BLEService.js:167). It is treated like an adapter that is not ready.
- Time and concurrency:
  - the 10 s timer and the `async` interleavings are not modelled;
  - the timeout, the scan callback, power changes and disconnects are separate events the environment may deliver in any order;
  - a stale timeout from an earlier scan can therefore end a later one, as in the code.
- Non-ASCII lower-casing in the name filter. Only A-Z are folded.
- The catch branch of `handleDetectConfiguration` (src/components/ESPConfiguration.js:61-63). `getDeviceInfo` catches its own errors, so the branch is not reached in the model.
- Alerts, `onClose` and rendering, including the device-information panel of the configuration screen. `console` logging is also left out.
- App.tsx and src/components/ConnectionStatus.js are not part of this model.
- `ConnectToDevice`: the code does not cancel an earlier session before connecting a new one. The model replaces the session the same way.
- `HandleDeviceDisconnected`: the code clears the session whichever registered device fires, so a late callback from an earlier device ends a newer session (`Scenarios.StaleDisconnectEndsNewSession`). A session-identity check before clearing would prevent this; the code has none. The model follows the code.
