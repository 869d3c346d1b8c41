/** What `sendCommand` (src/services/BLEService.js) writes and where: a
    two-level ordered search over the discovered services and their
    characteristics, first accepted write wins, a failed write moves on to
    the next candidate, and one final write to the configured UUID pair when
    no discovered characteristic takes the command. */
module WriteSelection {
  import opened BleTypes

  /** Where a write goes: a discovered characteristic, by its position in
      discovery order, or the configured fallback pair. */
  datatype WriteTarget =
    | Discovered(service: nat, index: nat, uuid: string)
    | Configured(serviceUuid: string, characteristicUuid: string)

  /** What one `sendCommand` does: its outcome and the writes it attempted,
      in order. Every write is a `writeWithResponse`, whichever flag made the
      characteristic a candidate. */
  datatype SendReport = SendReport(status: Status, attempts: seq<WriteTarget>)

  /** The writable characteristics of service `si`, from index `ci` on. */
  function CharCandidates(si: nat, chars: seq<Characteristic>, ci: nat): (r: seq<WriteTarget>)
    requires ci <= |chars|
    decreases |chars| - ci
  {
    if ci == |chars| then []
    else
      (if IsWritable(chars[ci]) then [Discovered(si, ci, chars[ci].uuid)] else [])
      + CharCandidates(si, chars, ci + 1)
  }

  /** The writable characteristics of the services from `si` on. */
  function ServiceCandidates(services: seq<Service>, si: nat): (r: seq<WriteTarget>)
    requires si <= |services|
    decreases |services| - si
  {
    if si == |services| then []
    else CharCandidates(si, services[si].characteristics, 0) + ServiceCandidates(services, si + 1)
  }

  /** Every write target the nested loops visit, in visiting order. */
  function Candidates(services: seq<Service>): (r: seq<WriteTarget>)
  {
    ServiceCandidates(services, 0)
  }

  /** `t` names a writable characteristic at its discovered position. */
  predicate IsCandidate(services: seq<Service>, t: WriteTarget) {
    && t.Discovered?
    && t.service < |services|
    && t.index < |services[t.service].characteristics|
    && IsWritable(services[t.service].characteristics[t.index])
    && t.uuid == services[t.service].characteristics[t.index].uuid
  }

  /** Discovery order: by service, then by characteristic. */
  predicate Before(a: WriteTarget, b: WriteTarget)
    requires a.Discovered? && b.Discovered?
  {
    a.service < b.service || (a.service == b.service && a.index < b.index)
  }

  /** Every target is a discovered characteristic, and they come in
      discovery order. */
  predicate InDiscoveryOrder(ts: seq<WriteTarget>) {
    && (forall i :: 0 <= i < |ts| ==> ts[i].Discovered?)
    && (forall i, j :: 0 <= i < j < |ts| ==> ts[i].Discovered? && ts[j].Discovered? && Before(ts[i], ts[j]))
  }

  /** The index of the first target whose write is accepted, if any. */
  function FirstAccepted(targets: seq<WriteTarget>, command: string, accepts: (WriteTarget, string) -> bool): (k: Option<nat>)
    ensures k.Some? ==> k.value < |targets| && accepts(targets[k.value], command)
    ensures k.Some? ==> forall j :: 0 <= j < k.value ==> !accepts(targets[j], command)
    ensures k.None? ==> forall j :: 0 <= j < |targets| ==> !accepts(targets[j], command)
  {
    if targets == [] then None
    else if accepts(targets[0], command) then Some(0)
    else match FirstAccepted(targets[1..], command, accepts)
      case None => None
      case Some(j) => Some(j + 1)
  }

  /** `sendCommand` on the session's discovered services (`None` when no
      device is connected) with the configured fallback pair. */
  function Send(
    services: Option<seq<Service>>, serviceUuid: string, characteristicUuid: string,
    command: string, accepts: (WriteTarget, string) -> bool): (r: SendReport)
  {
    if services.None? then SendReport(Failed(NoDeviceConnected), [])
    else
      var cs := Candidates(services.value);
      match FirstAccepted(cs, command, accepts)
      case Some(k) => SendReport(Done, cs[..k + 1])
      case None =>
        var fallback := Configured(serviceUuid, characteristicUuid);
        SendReport(if accepts(fallback, command) then Done else Failed(NoWritableCharacteristic),
                   cs + [fallback])
  }

  // ---------------------------------------------------------------------
  // The candidate list

  lemma {:induction false} CharCandidatesExactly(si: nat, chars: seq<Characteristic>, ci: nat, t: WriteTarget)
    requires ci <= |chars|
    ensures t in CharCandidates(si, chars, ci) <==>
      && t.Discovered? && t.service == si && ci <= t.index < |chars|
      && IsWritable(chars[t.index]) && t.uuid == chars[t.index].uuid
    decreases |chars| - ci
  {
    if ci < |chars| {
      CharCandidatesExactly(si, chars, ci + 1, t);
    }
  }

  lemma {:induction false} ServiceCandidatesExactly(services: seq<Service>, si: nat, t: WriteTarget)
    requires si <= |services|
    ensures t in ServiceCandidates(services, si) <==> IsCandidate(services, t) && si <= t.service
    decreases |services| - si
  {
    if si < |services| {
      CharCandidatesExactly(si, services[si].characteristics, 0, t);
      ServiceCandidatesExactly(services, si + 1, t);
    }
  }

  /** The nested loops visit exactly the characteristics flagged writable
      with or without response, each at its discovered position. */
  lemma CandidatesExactly(services: seq<Service>, t: WriteTarget)
    ensures t in Candidates(services) <==> IsCandidate(services, t)
  {
    ServiceCandidatesExactly(services, 0, t);
  }

  /** A characteristic flagged only writable-without-response is still a
      candidate; every write in the model is a `writeWithResponse`. */
  lemma WithoutResponseOnlyIsCandidate(services: seq<Service>, si: nat, ci: nat)
    requires si < |services| && ci < |services[si].characteristics|
    requires services[si].characteristics[ci].isWritableWithoutResponse
    ensures Discovered(si, ci, services[si].characteristics[ci].uuid) in Candidates(services)
  {
    CandidatesExactly(services, Discovered(si, ci, services[si].characteristics[ci].uuid));
  }

  lemma {:induction false} CharCandidatesOrdered(si: nat, chars: seq<Characteristic>, ci: nat)
    requires ci <= |chars|
    ensures InDiscoveryOrder(CharCandidates(si, chars, ci))
    decreases |chars| - ci
  {
    if ci < |chars| {
      CharCandidatesOrdered(si, chars, ci + 1);
      var head := if IsWritable(chars[ci]) then [Discovered(si, ci, chars[ci].uuid)] else [];
      var rest := CharCandidates(si, chars, ci + 1);
      forall t | t in rest ensures t.Discovered? && t.service == si && ci < t.index {
        CharCandidatesExactly(si, chars, ci + 1, t);
      }
      OrderedConcat(head, rest);
    }
  }

  /** Two ordered runs, the first wholly before the second, make an ordered run. */
  lemma OrderedConcat(a: seq<WriteTarget>, b: seq<WriteTarget>)
    requires InDiscoveryOrder(a) && InDiscoveryOrder(b)
    requires forall x, y :: x in a && y in b ==> Before(x, y)
    ensures InDiscoveryOrder(a + b)
  {
  }

  lemma {:induction false} ServiceCandidatesOrdered(services: seq<Service>, si: nat)
    requires si <= |services|
    ensures InDiscoveryOrder(ServiceCandidates(services, si))
    decreases |services| - si
  {
    if si < |services| {
      var head := CharCandidates(si, services[si].characteristics, 0);
      var rest := ServiceCandidates(services, si + 1);
      CharCandidatesOrdered(si, services[si].characteristics, 0);
      ServiceCandidatesOrdered(services, si + 1);
      forall t | t in head ensures t.Discovered? && t.service == si {
        CharCandidatesExactly(si, services[si].characteristics, 0, t);
      }
      forall t | t in rest ensures t.Discovered? && si < t.service {
        ServiceCandidatesExactly(services, si + 1, t);
      }
      OrderedConcat(head, rest);
    }
  }

  /** The candidates come in discovery order: services in order, and
      characteristics in order within a service. */
  lemma CandidatesOrdered(services: seq<Service>)
    ensures InDiscoveryOrder(Candidates(services))
  {
    ServiceCandidatesOrdered(services, 0);
  }

  // ---------------------------------------------------------------------
  // sendCommand's outcome

  /** Without a session nothing is written and the error is 'No device connected'. */
  lemma SendWhenDisconnected(sUuid: string, cUuid: string, command: string, accepts: (WriteTarget, string) -> bool)
    ensures Send(None, sUuid, cUuid, command, accepts) == SendReport(Failed(NoDeviceConnected), [])
  {
  }

  /** First match wins: when candidate `k` is the first to accept, the
      writes are candidates 0..k in order and the command is sent; earlier
      failed writes were skipped and the fallback pair is never tried. */
  lemma SendFirstMatchWins(
    services: seq<Service>, sUuid: string, cUuid: string,
    command: string, accepts: (WriteTarget, string) -> bool, k: nat)
    requires k < |Candidates(services)|
    requires accepts(Candidates(services)[k], command)
    requires forall j :: 0 <= j < k ==> !accepts(Candidates(services)[j], command)
    ensures Send(Some(services), sUuid, cUuid, command, accepts)
         == SendReport(Done, Candidates(services)[..k + 1])
    ensures forall t :: t in Send(Some(services), sUuid, cUuid, command, accepts).attempts ==>
      IsCandidate(services, t)
  {
    var cs := Candidates(services);
    forall t | t in cs[..k + 1] ensures IsCandidate(services, t) {
      CandidatesExactly(services, t);
    }
  }

  /** Fallback: when no discovered characteristic accepts the write, every
      candidate is tried once in order, then exactly one write goes to the
      configured pair, and its failure is 'no writable characteristic found'. */
  lemma SendFallsBackOnce(
    services: seq<Service>, sUuid: string, cUuid: string,
    command: string, accepts: (WriteTarget, string) -> bool)
    requires forall t :: t in Candidates(services) ==> !accepts(t, command)
    ensures Send(Some(services), sUuid, cUuid, command, accepts).attempts
         == Candidates(services) + [Configured(sUuid, cUuid)]
    ensures Send(Some(services), sUuid, cUuid, command, accepts).status
         == if accepts(Configured(sUuid, cUuid), command) then Done else Failed(NoWritableCharacteristic)
    ensures forall i :: 0 <= i < |Send(Some(services), sUuid, cUuid, command, accepts).attempts| - 1 ==>
      Send(Some(services), sUuid, cUuid, command, accepts).attempts[i].Discovered?
  {
    var cs := Candidates(services);
    forall i | 0 <= i < |cs| ensures cs[i].Discovered? {
      CandidatesExactly(services, cs[i]);
    }
  }

  /** Every attempted write but the last was refused, and the command is
      sent exactly when the last attempted write was accepted. */
  lemma SendSkipsFailedWrites(
    services: seq<Service>, sUuid: string, cUuid: string,
    command: string, accepts: (WriteTarget, string) -> bool)
    ensures var r := Send(Some(services), sUuid, cUuid, command, accepts);
      && |r.attempts| > 0
      && (forall i :: 0 <= i < |r.attempts| - 1 ==> !accepts(r.attempts[i], command))
      && (r.status == Done <==> accepts(r.attempts[|r.attempts| - 1], command))
      && (r.status != Done ==> r.status == Failed(NoWritableCharacteristic))
  {
  }
}
