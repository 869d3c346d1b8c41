/** The configuration screen `ESPConfiguration`
    (src/components/ESPConfiguration.js): two text fields holding the
    service and characteristic UUIDs, a save action that validates them and
    hands them to the connection manager, and an auto-detect action that
    fills them from the connected device. */
module EspConfiguration {
  import opened BleTypes
  import opened Uuid
  import opened WriteSelection
  import BleService

  /** The initial contents of the two fields. */
  const InitialServiceUuid: string := "12345678-1234-1234-1234-123456789abc"
  const InitialCharacteristicUuid: string := "87654321-4321-4321-4321-cba987654321"

  datatype UuidPair = UuidPair(serviceUUID: string, characteristicUUID: string)

  /** How `handleSave` ends: one of the two "Invalid UUID" alerts, or the
      configuration saved, with the pair given to `onSave` when the screen
      has an `onSave` handler. */
  datatype SaveOutcome = InvalidServiceUuid | InvalidCharacteristicUuid | Saved(notified: Option<UuidPair>)

  /** How `handleDetectConfiguration` ends: "Device Detected" or "No Device". */
  datatype DetectOutcome = DeviceDetected | NoDevice

  /** `Array.prototype.find` with the writable test: the index of the first
      characteristic flagged writable with or without response. */
  function FirstWritable(chars: seq<Characteristic>): (k: Option<nat>)
    ensures k.Some? ==> k.value < |chars| && IsWritable(chars[k.value])
    ensures k.Some? ==> forall j :: 0 <= j < k.value ==> !IsWritable(chars[j])
    ensures k.None? ==> forall j :: 0 <= j < |chars| ==> !IsWritable(chars[j])
  {
    if chars == [] then None
    else if IsWritable(chars[0]) then Some(0)
    else match FirstWritable(chars[1..])
      case None => None
      case Some(j) => Some(j + 1)
  }

  /** The fields after auto-detect on `info`: the first service's UUID and
      its first writable characteristic's UUID, each kept when absent. */
  function AutoFill(info: DeviceInfo, current: UuidPair): (r: UuidPair)
    ensures |info.services| == 0 ==> r == current
    ensures |info.services| > 0 ==>
      && r.serviceUUID == info.services[0].uuid
      && (r.characteristicUUID == current.characteristicUUID
          || exists j :: 0 <= j < |info.services[0].characteristics|
               && IsWritable(info.services[0].characteristics[j])
               && info.services[0].characteristics[j].uuid == r.characteristicUUID)
  {
    if |info.services| == 0 then current
    else
      var service := info.services[0];
      var characteristic :=
        if |service.characteristics| > 0 && FirstWritable(service.characteristics).Some?
        then service.characteristics[FirstWritable(service.characteristics).value].uuid
        else current.characteristicUUID;
      UuidPair(service.uuid, characteristic)
  }

  class ConfigurationForm {
    /** The connection manager the screen imports. */
    const ble: BleService.RealBleService
    var serviceUUID: string
    var characteristicUUID: string
    var deviceInfo: Option<DeviceInfo>

    constructor (ble: BleService.RealBleService)
      ensures this.ble == ble
      ensures serviceUUID == InitialServiceUuid && characteristicUUID == InitialCharacteristicUuid
      ensures deviceInfo == None
    {
      this.ble := ble;
      serviceUUID := InitialServiceUuid;
      characteristicUUID := InitialCharacteristicUuid;
      deviceInfo := None;
    }

    /** The service UUID field's `onChangeText`. */
    method EditServiceUuid(text: string)
      modifies this`serviceUUID
      ensures serviceUUID == text
    {
      serviceUUID := text;
    }

    /** The characteristic UUID field's `onChangeText`. */
    method EditCharacteristicUuid(text: string)
      modifies this`characteristicUUID
      ensures characteristicUUID == text
    {
      characteristicUUID := text;
    }

    /** `handleSave`: the service UUID is checked first, then the
        characteristic UUID; only when both pass does the manager's fallback
        pair change, and `onSave` (when present) gets that same pair. */
    method HandleSave(hasOnSave: bool) returns (outcome: SaveOutcome)
      requires ble.Valid()
      modifies ble`serviceUUID, ble`characteristicUUID
      ensures ble.Valid()
      ensures !IsUuid(serviceUUID) ==> outcome == InvalidServiceUuid && unchanged(ble)
      ensures IsUuid(serviceUUID) && !IsUuid(characteristicUUID) ==>
        outcome == InvalidCharacteristicUuid && unchanged(ble)
      ensures IsUuid(serviceUUID) && IsUuid(characteristicUUID) ==>
        && ble.serviceUUID == serviceUUID && ble.characteristicUUID == characteristicUUID
        && outcome == Saved(if hasOnSave then Some(UuidPair(serviceUUID, characteristicUUID)) else None)
      ensures outcome.Saved? <==> IsUuid(serviceUUID) && IsUuid(characteristicUUID)
    {
      if !IsUuid(serviceUUID) {
        return InvalidServiceUuid;
      }
      if !IsUuid(characteristicUUID) {
        return InvalidCharacteristicUuid;
      }
      ble.SetCustomUUIDs(serviceUUID, characteristicUUID);
      outcome := Saved(if hasOnSave then Some(UuidPair(serviceUUID, characteristicUUID)) else None);
    }

    /** `handleDetectConfiguration`: without device information (no session,
        or reading the services failed) nothing changes; otherwise the
        snapshot is kept and the fields are auto-filled from it. */
    method HandleDetectConfiguration(servicesOk: bool) returns (outcome: DetectOutcome)
      requires ble.Valid()
      modifies this`serviceUUID, this`characteristicUUID, this`deviceInfo
      ensures outcome == NoDevice <==> !ble.IsConnected() || !servicesOk
      ensures outcome == NoDevice ==> unchanged(this)
      ensures outcome == DeviceDetected ==>
        var c := ble.connectedDevice.value;
        var info := DeviceInfo(c.device.name, c.device.id, c.services);
        && deviceInfo == Some(info)
        && UuidPair(serviceUUID, characteristicUUID)
           == AutoFill(info, UuidPair(old(serviceUUID), old(characteristicUUID)))
    {
      var info := ble.GetDeviceInfo(servicesOk);
      if info.None? {
        return NoDevice;
      }
      deviceInfo := info;
      if |info.value.services| > 0 {
        var service := info.value.services[0];
        serviceUUID := service.uuid;
        if |service.characteristics| > 0 {
          var writable := FirstWritable(service.characteristics);
          if writable.Some? {
            characteristicUUID := service.characteristics[writable.value].uuid;
          }
        }
      }
      outcome := DeviceDetected;
    }
  }

  /** The screen starts from the manager's default pair. */
  lemma InitialUuidsAreDefaults()
    ensures InitialServiceUuid == BleService.DefaultServiceUuid
    ensures InitialCharacteristicUuid == BleService.DefaultCharacteristicUuid
  {
  }

  lemma InitialServiceGroupsHex()
    ensures AllHex("12345678") && AllHex("1234") && AllHex("123456789abc")
  {
  }

  lemma InitialCharacteristicGroupsHex()
    ensures AllHex("87654321") && AllHex("4321") && AllHex("cba987654321")
  {
  }

  /** The default service UUID passes the check. */
  lemma InitialServiceUuidValid()
    ensures IsUuid(InitialServiceUuid)
  {
    InitialServiceGroupsHex();
    IsUuidFromGroups(InitialServiceUuid, "12345678", "1234", "1234", "1234", "123456789abc");
  }

  /** The default characteristic UUID passes the check. */
  lemma InitialCharacteristicUuidValid()
    ensures IsUuid(InitialCharacteristicUuid)
  {
    InitialCharacteristicGroupsHex();
    IsUuidFromGroups(InitialCharacteristicUuid, "87654321", "4321", "4321", "4321", "cba987654321");
  }

  /** Auto-detect reads only the first service: devices that agree on it
      fill the fields alike, whatever their later services. */
  lemma AutoFillReadsFirstServiceOnly(a: DeviceInfo, b: DeviceInfo, current: UuidPair)
    requires |a.services| > 0 && |b.services| > 0 && a.services[0] == b.services[0]
    ensures AutoFill(a, current) == AutoFill(b, current)
  {
  }

  /** What auto-detect puts in the fields: the first service's UUID, and the
      first writable characteristic of that service, or the old
      characteristic UUID when it has none. */
  lemma AutoFillPicksFirstWritable(info: DeviceInfo, current: UuidPair)
    requires |info.services| > 0
    ensures AutoFill(info, current).serviceUUID == info.services[0].uuid
    ensures var chars := info.services[0].characteristics;
      (forall j :: 0 <= j < |chars| ==> !IsWritable(chars[j])) ==>
        AutoFill(info, current).characteristicUUID == current.characteristicUUID
    ensures var chars := info.services[0].characteristics;
      forall k :: 0 <= k < |chars| && IsWritable(chars[k]) && (forall j :: 0 <= j < k ==> !IsWritable(chars[j])) ==>
        AutoFill(info, current).characteristicUUID == chars[k].uuid
  {
  }

  /** Auto-detect and `sendCommand` agree when the first service has a
      writable characteristic: the detected pair names the first target
      `sendCommand` tries. */
  lemma AutoFillMatchesFirstSendTarget(info: DeviceInfo, current: UuidPair)
    requires |info.services| > 0
    requires FirstWritable(info.services[0].characteristics).Some?
    ensures |Candidates(info.services)| > 0
    ensures var k := FirstWritable(info.services[0].characteristics).value;
      Candidates(info.services)[0] == Discovered(0, k, AutoFill(info, current).characteristicUUID)
  {
    var chars := info.services[0].characteristics;
    var k := FirstWritable(chars).value;
    SkipUnwritable(0, chars, 0, k);
    assert Candidates(info.services)
        == CharCandidates(0, chars, 0) + ServiceCandidates(info.services, 1);
  }

  /** Characteristics before the first writable one add no candidate. */
  lemma {:induction false} SkipUnwritable(si: nat, chars: seq<Characteristic>, ci: nat, k: nat)
    requires ci <= k < |chars|
    requires forall j :: ci <= j < k ==> !IsWritable(chars[j])
    requires IsWritable(chars[k])
    ensures CharCandidates(si, chars, ci) == [Discovered(si, k, chars[k].uuid)] + CharCandidates(si, chars, k + 1)
    decreases k - ci
  {
    if ci < k {
      SkipUnwritable(si, chars, ci + 1, k);
    }
  }
}
