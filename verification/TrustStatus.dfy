/**
  Certificate status of `proxy/src/agent_ocsp.rs` (good, revoked or unknown, as in section 2.2 of
  RFC 6960) over the revocation list and the device registry, and the `revoke_device` step of
  `proxy/src/agent_api.rs` that joins the two.
 */
module TrustStatus {
  import opened Certificates
  import opened Text
  import Crl = AgentCrl
  import Reg = DeviceRegistry

  const NEXT_UPDATE_SECS: nat := 300

  datatype Status = Good | Revoked | Unknown

  datatype StatusResponse = StatusResponse(
    status: Status, fingerprint: Option<string>, serial: Option<string>, deviceId: Option<string>,
    thisUpdate: nat, nextUpdate: nat, revokedAt: Option<nat>, reason: Option<string>)

  // ----- the status decision -----

  function Listed(crl: Crl.Node, key: Key, value: Option<string>): Option<Crl.CrlEntry> {
    if value.Some? then Crl.EntryBy(crl.entries, key, value.value) else None
  }

  function LowerOption(s: Option<string>): Option<string> { if s.Some? then Some(Lower(s.value)) else None }

  /** `revoked_response`. */
  function RevokedResponse(serial: Option<string>, e: Crl.CrlEntry, now: nat): StatusResponse {
    StatusResponse(Revoked, Some(e.fingerprint), if e.serial.Some? then e.serial else LowerOption(serial), Some(e.deviceId),
                   now, now + NEXT_UPDATE_SECS, Some(e.revokedAt), Some(e.reason))
  }

  /** `check_status`; None when the query names neither key. */
  ghost function CheckStatus(crl: Crl.Node, node: Reg.Node, fingerprint: Option<string>, serial: Option<string>, now: nat): Option<StatusResponse> {
    var fp, ser := Crl.Cleaned(fingerprint), Crl.Cleaned(serial);
    if fp.None? && ser.None? then None
    else if Listed(crl, Fingerprint, fp).Some? then Some(RevokedResponse(ser, Listed(crl, Fingerprint, fp).value, now))
    else if Listed(crl, Serial, ser).Some? then Some(RevokedResponse(ser, Listed(crl, Serial, ser).value, now))
    else
      var plain := StatusResponse(Unknown, LowerOption(fp), LowerOption(ser), None, now, now + NEXT_UPDATE_SECS, None, None);
      if StatusLookup(node, fp, ser).0 then Some(plain.(status := Good))
      else if (fp.Some? && Reg.Known(node, Fingerprint, fp.value)) || (ser.Some? && Reg.Known(node, Serial, ser.value)) then
        Some(plain.(status := Revoked, revokedAt := Some(now), reason := Some("device-revoked")))
      else Some(plain)
  }

  /** Whether the registry vouches for either key, fingerprint first, and the registry after what it caches. */
  ghost function StatusLookup(node: Reg.Node, fp: Option<string>, ser: Option<string>): (bool, Reg.Node) {
    if fp.Some? && Reg.CheckCert(node, Fingerprint, fp.value).0 then Reg.CheckCert(node, Fingerprint, fp.value)
    else if ser.Some? then Reg.CheckCert(node, Serial, ser.value)
    else (false, node)
  }

  /** The registry after a status question: untouched when the list answers. */
  ghost function NodeAfter(crl: Crl.Node, node: Reg.Node, fingerprint: Option<string>, serial: Option<string>): Reg.Node {
    var fp, ser := Crl.Cleaned(fingerprint), Crl.Cleaned(serial);
    if Listed(crl, Fingerprint, fp).Some? || Listed(crl, Serial, ser).Some? then node else StatusLookup(node, fp, ser).1
  }

  /** `check_status`: list, list, scans, on the shared objects. */
  method CheckStatusApi(crl: Crl.CrlHandle, registry: Reg.RegistryHandle, fingerprint: Option<string>, serial: Option<string>, now: nat)
    returns (r: Option<StatusResponse>, ghost order: seq<string>)
    modifies crl, registry
    ensures r == CheckStatus(crl.Value(), old(registry.Value()), fingerprint, serial, now)
    ensures registry.Value() == NodeAfter(crl.Value(), old(registry.Value()), fingerprint, serial)
    ensures crl.redis == null || r.None? ==> crl.Value() == old(crl.Value())
    ensures crl.redis != null && r.Some? ==>
      IsListing(order, crl.redis.entries.Keys) && crl.Value() == Crl.Pulled(old(crl.Value()), crl.redis.Value(), order)
  {
    hide Trim, Lower, Crl.EntryBy, Crl.Pulled, Reg.CheckCert, Reg.Known;
    var fp, ser := Crl.Cleaned(fingerprint), Crl.Cleaned(serial);
    order := [];
    if fp.None? && ser.None? {
      return None, order;
    }
    if fp.Some? {
      var entry;
      entry, order := crl.Entry(Fingerprint, fp.value);
      if entry.Some? {
        return Some(RevokedResponse(ser, entry.value, now)), order;
      }
    }
    if ser.Some? {
      ghost var first := order;
      var entry;
      entry, order := crl.Entry(Serial, ser.value);
      if fp.Some? && crl.redis != null {
        Crl.PullTwice(old(crl.Value()), crl.redis.Value(), first, order);
        order := first;
      }
      if entry.Some? {
        return Some(RevokedResponse(ser, entry.value, now)), order;
      }
    }
    var plain := StatusResponse(Unknown, LowerOption(fp), LowerOption(ser), None, now, now + NEXT_UPDATE_SECS, None, None);
    var good := false;
    if fp.Some? {
      good := registry.CertValid(Fingerprint, fp.value);
    }
    if !good && ser.Some? {
      good := registry.CertValid(Serial, ser.value);
    }
    if good {
      return Some(plain.(status := Good)), order;
    }
    var known := false;
    if fp.Some? {
      known := registry.CertKnown(Fingerprint, fp.value);
    }
    if !known && ser.Some? {
      known := registry.CertKnown(Serial, ser.value);
    }
    if known {
      return Some(plain.(status := Revoked, revokedAt := Some(now), reason := Some("device-revoked"))), order;
    }
    return Some(plain), order;
  }

  /** One key, asked alone. */
  ghost function StatusOf(crl: Crl.Node, node: Reg.Node, key: Key, value: string, now: nat): Option<StatusResponse> {
    if key.Fingerprint? then CheckStatus(crl, node, Some(value), None, now) else CheckStatus(crl, node, None, Some(value), now)
  }

  ghost predicate OnList(crl: Crl.Node, key: Key, value: string) {
    exists e :: e in crl.entries && Crl.EntryHolds(e, key, value)
  }

  /** The status of one key, given what the registry holds and where its Redis index leads. */
  function StatusBy(listed: bool, trusted: bool, held: bool, hit: Option<Reg.Device>): Status {
    if listed then Revoked
    else if trusted || (hit.Some? && !hit.value.revoked) then Good
    else if held || hit.Some? then Revoked
    else Unknown
  }

  lemma StatusIs(crl: Crl.Node, node: Reg.Node, key: Key, value: string, now: nat)
    requires Trim(value) != ""
    ensures var r, v := StatusOf(crl, node, key, value, now), Trim(value);
            && r.Some?
            && r.value.status == StatusBy(OnList(crl, key, v), Reg.HeldByTrusted(node.devices, key, v),
                                          Reg.HeldBySome(node.devices, key, v), Reg.KeyHit(node.redis, key, v))
  {
    hide Trim, Lower, Reg.HeldByTrusted, Reg.HeldBySome, Reg.KeyHit, Crl.EntryHolds;
    Crl.EntryByIs(crl.entries, key, Trim(value));
  }

  /**
    The status of one key, without Redis: revoked exactly when it is on the list, or held only by
    revoked devices; good exactly when it is off the list and held by a trusted device; else unknown.
   */
  lemma StatusMeaning(crl: Crl.Node, devices: Reg.Devices, key: Key, value: string, now: nat)
    requires Trim(value) != ""
    ensures var r, v := StatusOf(crl, Reg.Node(devices, None), key, value, now), Trim(value);
            && r.Some?
            && (r.value.status == Revoked <==>
                OnList(crl, key, v) || (Reg.HeldBySome(devices, key, v) && !Reg.HeldByTrusted(devices, key, v)))
            && (r.value.status == Good <==> !OnList(crl, key, v) && Reg.HeldByTrusted(devices, key, v))
            && (r.value.status == Unknown <==> !OnList(crl, key, v) && !Reg.HeldBySome(devices, key, v))
  {
    hide Trim, Lower, StatusOf;
    StatusIs(crl, Reg.Node(devices, None), key, value, now);
  }

  /**
    Redis changes no answer exactly when the list answers, the index leads nowhere, a trusted device
    holds the key, or the index leads to a revoked device while some device holds the key.
   */
  lemma RedisHarmless(crl: Crl.Node, node: Reg.Node, key: Key, value: string, now: nat)
    requires Trim(value) != ""
    ensures var with, without, v, hit :=
              StatusOf(crl, node, key, value, now), StatusOf(crl, Reg.Node(node.devices, None), key, value, now),
              Trim(value), Reg.KeyHit(node.redis, key, Trim(value));
            && with.Some? && without.Some?
            && (with.value.status == without.value.status <==>
                || OnList(crl, key, v) || hit.None? || Reg.HeldByTrusted(node.devices, key, v)
                || (hit.value.revoked && Reg.HeldBySome(node.devices, key, v)))
  {
    hide Trim, Lower, StatusOf;
    StatusIs(crl, node, key, value, now);
    StatusIs(crl, Reg.Node(node.devices, None), key, value, now);
  }

  /** The device the index leads to after a run: the last one that was stored with the key. */
  lemma HitInRuns(ops: seq<Reg.Op>, hash: string -> string, key: Key, value: string)
    ensures var (node, log) := Reg.RunOps(true, ops, hash);
            var hit, carrier := Reg.KeyHit(node.redis, key, value), Reg.LastCarrier(log, key, Lower(value));
            && (hit.Some? <==> carrier.Some?)
            && (hit.Some? ==> (hit.value.revoked <==> Reg.Withdrawn(carrier.value) in log))
  {
    hide Lower, Reg.LastCarrier, Reg.RunOps, Reg.LastOf, Reg.Latest;
    Reg.CarrierLaw(ops, hash);
    Reg.RunKeepsInv(true, ops, hash);
    var (node, log) := Reg.RunOps(true, ops, hash);
    Reg.CarrierReported(log, key, Lower(value));
    assert Reg.IdAt(Reg.KeyIndex(node.redis.value, key), Lower(value)) == Reg.LastCarrier(log, key, Lower(value));
    if Reg.LastCarrier(log, key, Lower(value)).Some? {
      var d := Reg.LastCarrier(log, key, Lower(value)).value;
      assert Reg.RecordTells(Reg.Get(node.devices, d), log, d, hash);
    }
  }

  /**
    The status law for every run of one node with Redis, in terms of what was reported and withdrawn:
    unknown exactly when no device ever reported the key; good exactly when a device that still holds
    it, or the last one that was ever stored with it, has not been withdrawn; else revoked.
   */
  lemma StatusInRuns(ops: seq<Reg.Op>, hash: string -> string, crl: Crl.Node, key: Key, value: string, now: nat)
    requires Trim(value) != ""
    ensures var (node, log) := Reg.RunOps(true, ops, hash);
            var r, v, k := StatusOf(crl, node, key, value, now), Trim(value), Lower(Trim(value));
            var carrier := Reg.LastCarrier(log, key, k);
            && r.Some?
            && (carrier.Some? <==> Reg.Reported(log, key, k))
            && (r.value.status == Unknown <==> !OnList(crl, key, v) && carrier.None?)
            && (r.value.status == Good <==>
                !OnList(crl, key, v) && carrier.Some? &&
                (Reg.TrustedHolder(log, key, k) || Reg.Withdrawn(carrier.value) !in log))
            && (r.value.status == Revoked <==>
                OnList(crl, key, v) ||
                (carrier.Some? && !Reg.TrustedHolder(log, key, k) && Reg.Withdrawn(carrier.value) in log))
  {
    hide Trim, Lower, StatusOf, OnList, Reg.LastCarrier, Reg.RunOps, Reg.KeyHit, Reg.HeldByTrusted, Reg.HeldBySome;
    var (node, log) := Reg.RunOps(true, ops, hash);
    var v := Trim(value);
    StatusIs(crl, node, key, value, now);
    HitInRuns(ops, hash, key, v);
    Reg.HeldInRuns(true, ops, hash, key, v);
    Reg.CarrierReported(log, key, Lower(v));
    HolderReported(log, key, Lower(v));
  }

  lemma HolderReported(log: seq<Reg.Event>, key: Key, k: string)
    ensures (exists d :: Reg.HeldInLog(log, key, k, d)) ==> Reg.Reported(log, key, k)
  {
    hide Lower, Reg.LastOf, Reg.PickOf;
    if d :| Reg.HeldInLog(log, key, k, d) {
      var i := Reg.LastOfSaid(log, d, key);
      assert Reg.ReportedAt(log, key, k, i);
    }
  }

  /** A device that reports `a` and then `b` holds only `b`, and `a` is still answered good. */
  lemma RotatedStaysGood(id: string, a: string, b: string, early: nat, later: nat, hash: string -> string, now: nat)
    requires !Reg.Blank(id) && Trim(a) == a != "" && Lower(a) != Lower(b)
    ensures var ops := [Reg.DoBeat(Reg.Heartbeat(id, Some(a), None), early), Reg.DoBeat(Reg.Heartbeat(id, Some(b), None), later)];
            var (node, _) := Reg.RunOps(true, ops, hash);
            var r := StatusOf(Crl.Node([], 1), node, Fingerprint, a, now);
            !Reg.HeldBySome(node.devices, Fingerprint, a) && r.Some? && r.value.status == Good
  {
    hide Trim, Lower, Reg.Blank, StatusOf;
    var first, second := Reg.DoBeat(Reg.Heartbeat(id, Some(a), None), early), Reg.DoBeat(Reg.Heartbeat(id, Some(b), None), later);
    var empty := Reg.Node(map[], Some(Reg.Redis(map[], map[], map[], map[])));
    assert [first, second][..1] == [first] && [first][..0] == [];
    assert Reg.RunOps(true, [], hash).0 == empty;
    var one := Reg.RunOps(true, [first], hash).0;
    assert one == Reg.Stored(empty, Reg.BeatDevice(None, first.hb, early), None);
    var two := Reg.RunOps(true, [first, second], hash).0;
    assert two == Reg.Stored(one, Reg.BeatDevice(Some(one.devices[id]), second.hb, later), None);
    StatusIs(Crl.Node([], 1), two, Fingerprint, a, now);
  }

  // ----- revoking a device -----

  datatype Process = Process(registry: Reg.Node, crl: Crl.Node)

  /** The revocation that `revoke_device` hands to the list. */
  function RevocationOf(d: Reg.Device, id: string, now: nat): Crl.Revocation {
    Crl.Revocation(id, d.certFingerprint, d.certSerial, "cessationOfOperation", now)
  }

  function RevokeDevice(p: Process, id: string, now: nat): Result<Process, Reg.RevokeError> {
    match Reg.Revoke(p.registry, id)
    case Err(e) => Err(e)
    case Ok(after) =>
      if id !in after.devices then Err(Reg.NotFound)
      else Ok(Process(after, Crl.Taken(p.crl, RevocationOf(after.devices[id], id, now))))
  }

  datatype Step = Registry(op: Reg.Op) | Withdraw(id: string, now: nat)

  function After(p: Process, step: Step, hash: string -> string): Process {
    match step
    case Registry(op) => if op.DoRevoke? then p else p.(registry := Reg.Apply(p.registry, op, hash).0)
    case Withdraw(id, now) => match RevokeDevice(p, id, now) case Ok(q) => q case Err(_) => p
  }

  function RunSteps(p: Process, steps: seq<Step>, hash: string -> string): Process {
    if steps == [] then p else After(RunSteps(p, steps[..|steps| - 1], hash), steps[|steps| - 1], hash)
  }

  lemma {:induction false} ListNeverShrinks(p: Process, steps: seq<Step>, hash: string -> string, e: Crl.CrlEntry)
    requires e in p.crl.entries
    ensures e in RunSteps(p, steps, hash).crl.entries
  {
    hide Crl.Target, Crl.EntryFor, Reg.Revoke, Reg.Apply;
    if steps != [] {
      ListNeverShrinks(p, steps[..|steps| - 1], hash, e);
    }
  }

  lemma TakenIsListed(crl: Crl.Node, r: Crl.Revocation) returns (e: Crl.CrlEntry)
    requires Crl.Target(r).Some?
    ensures e in Crl.Taken(crl, r).entries && e.fingerprint == Crl.Target(r).value
    ensures !Crl.Has(crl.entries, Crl.Target(r).value) ==> Crl.Tells(e, r)
  {
    hide Trim, Lower;
    Crl.EntryTells(r);
    var f := Crl.Target(r).value;
    if Crl.Has(crl.entries, f) {
      var i :| 0 <= i < |crl.entries| && crl.entries[i].fingerprint == f;
      e := crl.entries[i];
    } else {
      e := Crl.EntryFor(r, f);
    }
  }

  /** An answer that gives the data of entry `x`, and the serial asked for when the entry has none. */
  predicate AnswersWith(r: StatusResponse, x: Crl.CrlEntry, serial: Option<string>, now: nat) {
    && r.status == Revoked && r.fingerprint == Some(x.fingerprint) && r.deviceId == Some(x.deviceId)
    && r.revokedAt == Some(x.revokedAt) && r.reason == Some(x.reason)
    && (x.serial.Some? ==> r.serial == x.serial)
    && (x.serial.None? && Present(serial) ==> r.serial == Some(Lower(Trim(serial.value))))
    && (x.serial.None? && !Present(serial) ==> r.serial == None)
    && r.thisUpdate == now && r.nextUpdate == now + 300
  }

  /** A listed key is answered revoked with the data of the first entry that holds it, fingerprint first. */
  lemma ListedMeansRevoked(crl: Crl.Node, node: Reg.Node, e: Crl.CrlEntry, fingerprint: Option<string>, serial: Option<string>, now: nat)
    requires e in crl.entries
    requires || (Present(fingerprint) && Crl.EntryHolds(e, Fingerprint, Trim(fingerprint.value)))
             || (Present(serial) && Crl.EntryHolds(e, Serial, Trim(serial.value)))
    ensures var r := CheckStatus(crl, node, fingerprint, serial, now);
            && r.Some? && r.value.status == Revoked
            && exists i: nat :: (if Present(fingerprint) && OnList(crl, Fingerprint, Trim(fingerprint.value))
                                 then Crl.FirstHolding(crl.entries, Fingerprint, Trim(fingerprint.value), i)
                                 else Present(serial) && Crl.FirstHolding(crl.entries, Serial, Trim(serial.value), i)) &&
                 AnswersWith(r.value, crl.entries[i], serial, now)
  {
    hide Trim, Lower, StatusLookup, Crl.EntryHolds;
    if Present(fingerprint) && OnList(crl, Fingerprint, Trim(fingerprint.value)) {
      var v := Trim(fingerprint.value);
      Crl.EntryByIs(crl.entries, Fingerprint, v);
      var found := Crl.EntryBy(crl.entries, Fingerprint, v);
      var i: nat :| Crl.FirstHolding(crl.entries, Fingerprint, v, i) && found.value == crl.entries[i];
    } else {
      var v := Trim(serial.value);
      if Present(fingerprint) { Crl.EntryByIs(crl.entries, Fingerprint, Trim(fingerprint.value)); }
      Crl.EntryByIs(crl.entries, Serial, v);
      var found := Crl.EntryBy(crl.entries, Serial, v);
      var i: nat :| Crl.FirstHolding(crl.entries, Serial, v, i) && found.value == crl.entries[i];
    }
  }

  /**
    A question by both keys. Either on the list: revoked. Otherwise good exactly when one of the two alone
    would be, unknown exactly when both would be, else revoked.
   */
  lemma BothKeys(crl: Crl.Node, node: Reg.Node, fingerprint: string, serial: string, now: nat)
    requires Trim(fingerprint) != "" && Trim(serial) != ""
    ensures var r := CheckStatus(crl, node, Some(fingerprint), Some(serial), now);
            var f, s := StatusOf(crl, node, Fingerprint, fingerprint, now), StatusOf(crl, node, Serial, serial, now);
            && r.Some? && f.Some? && s.Some?
            && (OnList(crl, Fingerprint, Trim(fingerprint)) || OnList(crl, Serial, Trim(serial)) ==> r.value.status == Revoked)
            && (!OnList(crl, Fingerprint, Trim(fingerprint)) && !OnList(crl, Serial, Trim(serial)) ==>
                && (r.value.status == Good <==> f.value.status == Good || s.value.status == Good)
                && (r.value.status == Unknown <==> f.value.status == Unknown && s.value.status == Unknown))
  {
    hide Trim, Lower, Crl.EntryHolds, Reg.HeldByTrusted, Reg.HeldBySome, Reg.KeyHit;
    Crl.EntryByIs(crl.entries, Fingerprint, Trim(fingerprint));
    Crl.EntryByIs(crl.entries, Serial, Trim(serial));
  }

  /** What an answer echoes when the list does not give it: the keys asked for, in lower case, and its times. */
  lemma Echoed(crl: Crl.Node, node: Reg.Node, fingerprint: Option<string>, serial: Option<string>, now: nat)
    ensures var r := CheckStatus(crl, node, fingerprint, serial, now);
            && (r.None? <==> !Present(fingerprint) && !Present(serial))
            && (r.Some? && !(Present(fingerprint) && OnList(crl, Fingerprint, Trim(fingerprint.value)))
                && !(Present(serial) && OnList(crl, Serial, Trim(serial.value))) ==>
                && r.value.fingerprint == (if Present(fingerprint) then Some(Lower(Trim(fingerprint.value))) else None)
                && r.value.serial == (if Present(serial) then Some(Lower(Trim(serial.value))) else None)
                && r.value.deviceId == None && r.value.thisUpdate == now && r.value.nextUpdate == now + 300
                && (r.value.status == Revoked ==> r.value.revokedAt == Some(now) && r.value.reason == Some("device-revoked"))
                && (r.value.status != Revoked ==> r.value.revokedAt == None && r.value.reason == None))
  {
    hide Trim, Lower, Crl.EntryHolds, StatusLookup, Reg.Known;
    if Present(fingerprint) {
      Crl.EntryByIs(crl.entries, Fingerprint, Trim(fingerprint.value));
    }
    if Present(serial) {
      Crl.EntryByIs(crl.entries, Serial, Trim(serial.value));
    }
  }

  /** Revoking a device whose fingerprint is new to the list puts it there with its id, serial, time and reason. */
  lemma WithdrawnListed(p: Process, id: string, now: nat)
    requires RevokeDevice(p, id, now).Ok?
    ensures var q := RevokeDevice(p, id, now).value;
            && id in q.registry.devices && q.registry.devices[id].revoked
            && var d := q.registry.devices[id];
            Present(d.certFingerprint) && !Crl.Has(p.crl.entries, Lower(Trim(d.certFingerprint.value))) ==>
              exists e :: e in q.crl.entries && e.deviceId == id && e.revokedAt == now && e.reason == "cessationOfOperation"
                && e.fingerprint == Lower(Trim(d.certFingerprint.value))
                && e.serial == (if Present(d.certSerial) then Some(Lower(Trim(d.certSerial.value))) else None)
  {
    hide Trim, Lower, Reg.Put;
    var q := RevokeDevice(p, id, now).value;
    var d := q.registry.devices[id];
    if Present(d.certFingerprint) {
      Crl.EntryTells(RevocationOf(d, id, now));
      var e := TakenIsListed(p.crl, RevocationOf(d, id, now));
    }
  }

  /**
    In every run of one process, once `revoke_device` has acted on a device with a fingerprint, every
    later query by that fingerprint, in any case and with any serial, is answered revoked, whatever
    heartbeats and enrolments follow. If the fingerprint was new to the list, so is every later query by
    the device's serial, with any fingerprint.
   */
  lemma RevokedForGood(p: Process, id: string, now: nat, steps: seq<Step>, hash: string -> string,
                       query: string, other: Option<string>, later: nat)
    requires RevokeDevice(p, id, now).Ok?
    ensures var q := RevokeDevice(p, id, now).value;
            && id in q.registry.devices
            && var d, end := q.registry.devices[id], RunSteps(q, steps, hash);
            && (Present(d.certFingerprint) && Trim(query) != "" && Lower(Trim(query)) == Lower(Trim(d.certFingerprint.value)) ==>
                var r := CheckStatus(end.crl, end.registry, Some(query), other, later);
                r.Some? && r.value.status == Revoked)
            && (&& Present(d.certFingerprint) && !Crl.Has(p.crl.entries, Lower(Trim(d.certFingerprint.value)))
                && Present(d.certSerial) && Trim(query) != "" && Lower(Trim(query)) == Lower(Trim(d.certSerial.value)) ==>
                var r := CheckStatus(end.crl, end.registry, other, Some(query), later);
                r.Some? && r.value.status == Revoked)
  {
    hide Trim, Lower, CheckStatus, Reg.Revoke;
    var p' := RevokeDevice(p, id, now).value;
    var d := p'.registry.devices[id];
    if Present(d.certFingerprint) {
      var revocation := RevocationOf(d, id, now);
      Crl.EntryTells(revocation);
      var e := TakenIsListed(p.crl, revocation);
      ListNeverShrinks(p', steps, hash, e);
      LowerIdempotent(Trim(query));
      var q := RunSteps(p', steps, hash);
      if Trim(query) != "" && Lower(Trim(query)) == Lower(Trim(d.certFingerprint.value)) {
        ListedMeansRevoked(q.crl, q.registry, e, Some(query), other, later);
      }
      if Trim(query) != "" && Present(d.certSerial) && Crl.Tells(e, revocation) && Lower(Trim(query)) == Lower(Trim(d.certSerial.value)) {
        ListedMeansRevoked(q.crl, q.registry, e, other, Some(query), later);
      }
    }
  }

  /**
    In every run of any number of nodes over one shared list, once some node has revoked a fingerprint,
    every node answers revoked at every later moment, whatever its registry says.
   */
  lemma RevokedEverywhere(states: seq<Crl.Cluster>, steps: seq<Crl.Step>, i: nat, j: nat, b: nat, order: seq<string>,
                          node: Reg.Node, query: string, serial: Option<string>, now: nat)
    requires Crl.Run(states, steps) && i < j <= |steps| && steps[i].Revoke?
    requires b in states[j].nodes && IsListing(order, states[j].shared.entries.Keys)
    ensures Trim(query) != "" && Crl.Target(steps[i].revocation) == Some(Lower(Trim(query))) ==>
              var r := CheckStatus(Crl.Pulled(states[j].nodes[b], states[j].shared, order), node, Some(query), serial, now);
              r.Some? && r.value.status == Revoked
  {
    if Trim(query) == "" || Crl.Target(steps[i].revocation) != Some(Lower(Trim(query))) { return; }
    hide Trim, Lower, CheckStatus, Crl.Target, Crl.StepAt, Crl.Pulled;
    Crl.RevocationSpreads(states, steps, i, j, b, order, Trim(query));
    var crl := Crl.Pulled(states[j].nodes[b], states[j].shared, order);
    var k :| 0 <= k < |crl.entries| && Lower(crl.entries[k].fingerprint) == Lower(Trim(query));
    ListedMeansRevoked(crl, node, crl.entries[k], Some(query), serial, now);
  }

  /** The same by serial, with any fingerprint, after a revocation that added its entry. */
  lemma SerialRevokedEverywhere(states: seq<Crl.Cluster>, steps: seq<Crl.Step>, i: nat, j: nat, b: nat, order: seq<string>,
                                node: Reg.Node, fingerprint: Option<string>, query: string, now: nat)
    requires Crl.Run(states, steps) && i < j <= |steps| && Crl.AddsEntry(states[i], steps[i])
    requires b in states[j].nodes && IsListing(order, states[j].shared.entries.Keys)
    ensures var serial := steps[i].revocation.serial;
            Present(serial) && Trim(query) != "" && Lower(Trim(query)) == Lower(Trim(serial.value)) ==>
              var r := CheckStatus(Crl.Pulled(states[j].nodes[b], states[j].shared, order), node, fingerprint, Some(query), now);
              r.Some? && r.value.status == Revoked
  {
    hide Trim, Lower, CheckStatus, Crl.Target, Crl.StepAt, Crl.Pulled, Crl.Has;
    var serial := steps[i].revocation.serial;
    if Present(serial) && Trim(query) != "" && Lower(Trim(query)) == Lower(Trim(serial.value)) {
      var e := Crl.EntrySpreads(states, steps, i, j, b, order);
      LowerIdempotent(Trim(query));
      ListedMeansRevoked(Crl.Pulled(states[j].nodes[b], states[j].shared, order), node, e, fingerprint, Some(query), now);
    }
  }

  /** `revoke_device`: the registry first, then the list, on the shared objects. */
  method RevokeDeviceApi(registry: Reg.RegistryHandle, crl: Crl.CrlHandle, id: string, now: nat)
    returns (r: Result<bool, Reg.RevokeError>, ghost order: seq<string>)
    modifies registry, registry.redis, crl, crl.redis
    ensures match Reg.Revoke(old(registry.Value()), id)
            case Err(e) =>
              && r == Err(e)
              && registry.Value() == (if e.NotFound? then Reg.Fetched(old(registry.Value()), id) else old(registry.Value()))
              && crl.Value() == old(crl.Value()) && (crl.redis != null ==> crl.redis.Value() == old(crl.redis.Value()))
            case Ok(after) =>
              registry.Value() == after && id in after.devices && r.Ok? && (r.value ==> Crl.Target(RevocationOf(after.devices[id], id, now)).Some?)
    ensures crl.redis == null ==>
              match RevokeDevice(Process(old(registry.Value()), old(crl.Value())), id, now)
              case Err(e) => r == Err(e)
              case Ok(p) => r.Ok? && Process(registry.Value(), crl.Value()) == p
    ensures crl.redis != null && r.Ok? ==>
              && id in registry.devices
              && var revocation := RevocationOf(registry.devices[id], id, now);
              match Crl.Target(revocation)
              case None => crl.Value() == old(crl.Value()) && crl.redis.Value() == old(crl.redis.Value())
              case Some(f) =>
                && IsListing(order, old(crl.redis.entries.Keys))
                && var pulled := Crl.Pulled(old(crl.Value()), old(crl.redis.Value()), order);
                && r.value == !Crl.Has(pulled.entries, f)
                && crl.Value() == Crl.Revoked(pulled, revocation, f)
                && crl.redis.Value() ==
                   if r.value then Crl.Published(old(crl.redis.Value()), Crl.EntryFor(revocation, f), crl.number)
                   else old(crl.redis.Value())
  {
    hide Trim, Lower, Reg.Put, Crl.Pulled, Crl.Target, Crl.EntryFor;
    var revoked := registry.RevokeDevice(id);
    if revoked.Err? {
      return Err(revoked.error), [];
    }
    var (fingerprint, serial) := revoked.value;
    var added;
    added, order := crl.Revoke(Crl.Revocation(id, fingerprint, serial, "cessationOfOperation", now));
    return Ok(added), order;
  }
}
