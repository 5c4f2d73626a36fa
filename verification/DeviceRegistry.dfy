/**
  The agent device registry of `proxy/src/device_registry.rs`: a local map of devices, optionally
  written through to Redis, where a token index points from token hashes back to device ids.
 */
module DeviceRegistry {
  import opened Certificates
  import opened Text

  datatype Device = Device(
    id: string, certFingerprint: Option<string>, certSerial: Option<string>, trustScore: Option<nat>,
    lastSeen: nat, revoked: bool, platform: Option<string>, enrolledAt: Option<nat>, tokenHash: Option<string>)

  type Devices = map<string, Device>

  /** The Redis side: the device hash and the three indexes of ids. */
  datatype Redis = Redis(devices: Devices, tokens: map<string, string>, fingerprints: map<string, string>, serials: map<string, string>)

  /** A registry without Redis has None. */
  datatype Node = Node(devices: Devices, redis: Option<Redis>)

  datatype Heartbeat = Heartbeat(deviceId: string, certFingerprint: Option<string>, trustScore: Option<nat>)

  datatype HeartbeatError = EmptyHeartbeatId | InvalidTrustScore

  datatype EnrollRequest = EnrollRequest(deviceId: Option<string>, platform: string, certFingerprint: Option<string>, certSerial: Option<string>)

  datatype EnrollError = InvalidPlatform | EmptyDeviceId | AlreadyRevoked

  datatype RevokeError = InvalidId | NotFound

  // ----- records -----

  function Get(m: Devices, id: string): Option<Device> { if id in m then Some(m[id]) else None }

  function TokenOf(d: Option<Device>): Option<string> { if d.Some? then d.value.tokenHash else None }

  function OrElse<T>(a: Option<T>, b: Option<T>): Option<T> { if a.Some? then a else b }

  predicate Blank(s: string) { Trim(s) == "" }

  function NonBlank(s: Option<string>): Option<string> { if s.Some? && !Blank(s.value) then s else None }

  /** The record a heartbeat writes over the previous one. */
  function BeatDevice(prev: Option<Device>, hb: Heartbeat, now: nat): Device {
    match prev
    case None => Device(hb.deviceId, hb.certFingerprint, None, hb.trustScore, now, false, None, None, None)
    case Some(d) =>
      d.(id := hb.deviceId, certFingerprint := OrElse(hb.certFingerprint, d.certFingerprint),
         trustScore := OrElse(hb.trustScore, d.trustScore), lastSeen := now)
  }

  /** The record an enrolment writes over the previous one. */
  function EnrolledDevice(prev: Option<Device>, id: string, req: EnrollRequest, tokenHash: string, now: nat): Device {
    Device(id,
           OrElse(NonBlank(req.certFingerprint), if prev.Some? then prev.value.certFingerprint else None),
           OrElse(NonBlank(req.certSerial), if prev.Some? then prev.value.certSerial else None),
           if prev.Some? then prev.value.trustScore else None,
           now, false, Some(Lower(req.platform)), Some(now), Some(tokenHash))
  }

  // ----- Redis write-through -----

  /** `redis_put_device`: the hash first, then the indexes. */
  function Put(r: Redis, d: Device, oldToken: Option<string>): Redis {
    var cleaned := if oldToken.Some? && d.tokenHash != oldToken then r.tokens - {oldToken.value} else r.tokens;
    Redis(r.devices[d.id := d],
          if d.tokenHash.Some? then cleaned[d.tokenHash.value := d.id] else cleaned,
          if d.certFingerprint.Some? then r.fingerprints[Lower(d.certFingerprint.value) := d.id] else r.fingerprints,
          if d.certSerial.Some? then r.serials[Lower(d.certSerial.value) := d.id] else r.serials)
  }

  function ById(index: map<string, string>, devices: Devices, key: string): Option<Device> {
    if key in index then Get(devices, index[key]) else None
  }

  /** Store a record locally and write it through. */
  function Stored(node: Node, d: Device, oldToken: Option<string>): Node {
    Node(node.devices[d.id := d], if node.redis.Some? then Some(Put(node.redis.value, d, oldToken)) else None)
  }

  // ----- the operations on values -----

  function Beat(node: Node, hb: Heartbeat, now: nat): Result<Node, HeartbeatError> {
    if Blank(hb.deviceId) then Err(EmptyHeartbeatId)
    else if hb.trustScore.Some? && hb.trustScore.value > 100 then Err(InvalidTrustScore)
    else Ok(Stored(node, BeatDevice(Get(node.devices, hb.deviceId), hb, now), None))
  }

  /** The id an enrolment is for; None when the request names a bad one. */
  function EnrollId(req: EnrollRequest, nonce: string): Option<string> {
    match req.deviceId
    case None => Some("dev-" + nonce)
    case Some(id) => if Blank(id) || '/' in Trim(id) then None else Some(Trim(id))
  }

  predicate KnownPlatform(p: string) { p == "linux" || p == "macos" || p == "windows" }

  /** The id enrolled and the registry after, with the token hash now stored for it. */
  function Enroll(node: Node, req: EnrollRequest, nonce: string, tokenHash: string, now: nat): Result<(string, Node), EnrollError> {
    if !KnownPlatform(Lower(req.platform)) then Err(InvalidPlatform)
    else
      match EnrollId(req, nonce)
      case None => Err(EmptyDeviceId)
      case Some(id) =>
        var prev := Get(node.devices, id);
        if prev.Some? && prev.value.revoked then Err(AlreadyRevoked)
        else
          Ok((id, Stored(node, EnrolledDevice(prev, id, req, tokenHash, now), TokenOf(prev))))
  }

  /** The node after fetching a device that only Redis has. */
  function Fetched(node: Node, id: string): Node {
    if id !in node.devices && node.redis.Some? && id in node.redis.value.devices then
      Cached(node, node.redis.value.devices[id])
    else node
  }

  /** `cache_device`. */
  function Cached(node: Node, d: Device): Node { node.(devices := node.devices[d.id := d]) }

  function Revoke(node: Node, id: string): Result<Node, RevokeError> {
    if id == "" || '/' in id then Err(InvalidId)
    else
      var n := Fetched(node, id);
      if id !in n.devices then Err(NotFound)
      else
        var d := n.devices[id];
        var after := d.(revoked := true, tokenHash := None);
        Ok(Node(n.devices[id := after], if n.redis.Some? then Some(Put(n.redis.value, after, d.tokenHash)) else None))
  }

  // ----- what each operation refuses and writes, field by field -----

  /** The new value if one was given, else what the record had. */
  predicate GivenElseKept(after: Option<string>, given: Option<string>, kept: Option<string>) {
    after == if Present(given) then given else kept
  }

  predicate PlatformNamed(platform: string) {
    SameLetters(platform, "linux") || SameLetters(platform, "macos") || SameLetters(platform, "windows")
  }

  lemma PlatformIs(platform: string)
    ensures KnownPlatform(Lower(platform)) <==> PlatformNamed(platform)
  {
    assert Lower("linux") == "linux" && Lower("macos") == "macos" && Lower("windows") == "windows";
    hide Lower, SameLetters;
    LowerSame(platform, "linux");
    LowerSame(platform, "macos");
    LowerSame(platform, "windows");
  }

  /**
    An enrolment is refused for an unknown platform, a blank or slashed id, or a revoked device, in that
    order, and otherwise writes one record: certificate keys as given unless blank, the token, the times.
   */
  lemma EnrollMeans(node: Node, req: EnrollRequest, nonce: string, tokenHash: string, now: nat)
    ensures var r := Enroll(node, req, nonce, tokenHash, now);
            var badId := req.deviceId.Some? && (Trim(req.deviceId.value) == "" || '/' in Trim(req.deviceId.value));
            var id := if req.deviceId.Some? then Trim(req.deviceId.value) else "dev-" + nonce;
            var had := Get(node.devices, id);
            && (r == Err(InvalidPlatform) <==> !PlatformNamed(req.platform))
            && (r == Err(EmptyDeviceId) <==> PlatformNamed(req.platform) && badId)
            && (r == Err(AlreadyRevoked) <==> PlatformNamed(req.platform) && !badId && had.Some? && had.value.revoked)
            && (r.Ok? ==>
                && r.value.0 == id && id in r.value.1.devices
                && var d := r.value.1.devices[id];
                && r.value.1.devices == node.devices[id := d] && d.id == id && !d.revoked && d.tokenHash == Some(tokenHash)
                && d.lastSeen == now && d.enrolledAt == Some(now) && d.platform == Some(Lower(req.platform))
                && GivenElseKept(d.certFingerprint, req.certFingerprint, if had.Some? then had.value.certFingerprint else None)
                && GivenElseKept(d.certSerial, req.certSerial, if had.Some? then had.value.certSerial else None)
                && d.trustScore == if had.Some? then had.value.trustScore else None)
  {
    hide Trim, Lower, SameLetters, KnownPlatform, Put;
    PlatformIs(req.platform);
  }

  /** A heartbeat is refused for a blank id or a score over 100, and otherwise updates one record. */
  lemma BeatMeans(node: Node, hb: Heartbeat, now: nat)
    ensures var r, had := Beat(node, hb, now), Get(node.devices, hb.deviceId);
            && (r == Err(EmptyHeartbeatId) <==> Trim(hb.deviceId) == "")
            && (r == Err(InvalidTrustScore) <==> Trim(hb.deviceId) != "" && hb.trustScore.Some? && hb.trustScore.value > 100)
            && (r.Ok? ==>
                && hb.deviceId in r.value.devices
                && var d := r.value.devices[hb.deviceId];
                && r.value.devices == node.devices[hb.deviceId := d] && d.id == hb.deviceId && d.lastSeen == now
                && (hb.certFingerprint.Some? ==> d.certFingerprint == hb.certFingerprint)
                && (hb.trustScore.Some? ==> d.trustScore == hb.trustScore)
                && (had.None? ==> !d.revoked && d.tokenHash == None && d.certSerial == None && d.platform == None && d.enrolledAt == None)
                && (had.Some? ==>
                    && d.revoked == had.value.revoked && d.tokenHash == had.value.tokenHash && d.certSerial == had.value.certSerial
                    && d.platform == had.value.platform && d.enrolledAt == had.value.enrolledAt
                    && (hb.certFingerprint.None? ==> d.certFingerprint == had.value.certFingerprint)
                    && (hb.trustScore.None? ==> d.trustScore == had.value.trustScore)))
  {
    hide Trim, Put;
  }

  /** A revocation is refused for an empty or slashed id or an unknown device, and else flags one record. */
  lemma RevokeMeans(node: Node, id: string)
    requires node.redis.Some? ==> forall k :: k in node.redis.value.devices ==> node.redis.value.devices[k].id == k
    ensures var r := Revoke(node, id);
            var known := if id in node.devices then Get(node.devices, id)
                         else if node.redis.Some? then Get(node.redis.value.devices, id) else None;
            && (r == Err(InvalidId) <==> id == "" || '/' in id)
            && (r == Err(NotFound) <==> id != "" && '/' !in id && known.None?)
            && (r.Ok? ==> known.Some? && r.value.devices == node.devices[id := known.value.(revoked := true, tokenHash := None)])
  {
    hide Put;
  }

  /** A non-revoked local device holds this token hash. */
  ghost predicate Scan(devices: Devices, tokenHash: string) {
    exists id :: id in devices && !devices[id].revoked && devices[id].tokenHash == Some(tokenHash)
  }

  /** What the Redis token index leads to, if it is not revoked. */
  function IndexHit(redis: Option<Redis>, tokenHash: string): Option<Device> {
    if redis.None? then None
    else
      var found := ById(redis.value.tokens, redis.value.devices, tokenHash);
      if found.Some? && !found.value.revoked then found else None
  }

  /** `device_token_valid`: the scan, then the index, caching what the index finds. */
  ghost function CheckToken(node: Node, token: string, hash: string -> string): (bool, Node) {
    if token == "" then (false, node)
    else if Scan(node.devices, hash(token)) then (true, node)
    else
      var hit := IndexHit(node.redis, hash(token));
      if hit.Some? then (true, Cached(node, hit.value)) else (false, node)
  }

  // ----- certificates -----

  function KeyOf(d: Device, key: Key): Option<string> {
    if key.Fingerprint? then d.certFingerprint else d.certSerial
  }

  predicate Holds(d: Device, key: Key, value: string) {
    KeyOf(d, key).Some? && Lower(KeyOf(d, key).value) == Lower(value)
  }

  /** A local device, trusted or not, holds the key. */
  ghost predicate HeldBySome(devices: Devices, key: Key, value: string) {
    exists id :: id in devices && Holds(devices[id], key, value)
  }

  /** A local device that is not revoked holds the key. */
  ghost predicate HeldByTrusted(devices: Devices, key: Key, value: string) {
    exists id :: id in devices && !devices[id].revoked && Holds(devices[id], key, value)
  }

  function KeyIndex(r: Redis, key: Key): map<string, string> {
    if key.Fingerprint? then r.fingerprints else r.serials
  }

  /** The device that the Redis index of the key leads to. */
  function KeyHit(redis: Option<Redis>, key: Key, value: string): Option<Device> {
    if redis.None? then None else ById(KeyIndex(redis.value, key), redis.value.devices, Lower(value))
  }

  /** `cert_fingerprint_valid` and `cert_serial_valid`: the scan, then the index, caching what the index finds. */
  ghost function CheckCert(node: Node, key: Key, value: string): (r: (bool, Node))
    ensures !r.0 ==> r.1 == node
  {
    if value == "" then (false, node)
    else if HeldByTrusted(node.devices, key, value) then (true, node)
    else
      var hit := KeyHit(node.redis, key, value);
      if hit.Some? && !hit.value.revoked then (true, Cached(node, hit.value)) else (false, node)
  }

  /** `cert_fingerprint_known` and `cert_serial_known`. */
  ghost predicate Known(node: Node, key: Key, value: string) {
    value != "" && (HeldBySome(node.devices, key, value) || KeyHit(node.redis, key, value).Some?)
  }

  /** A lookup that only Redis can answer leaves the record it found in the local map, and any other nothing. */
  lemma LookupsCache(node: Node, token: string, key: Key, value: string, hash: string -> string)
    ensures var (ok, after) := CheckToken(node, token, hash);
            if ok && !Scan(node.devices, hash(token)) then
              exists d: Device :: Some(d) == IndexHit(node.redis, hash(token)) && after.devices == node.devices[d.id := d] && after.redis == node.redis
            else after == node
    ensures var (ok, after) := CheckCert(node, key, value);
            if ok && !HeldByTrusted(node.devices, key, value) then
              exists d: Device :: Some(d) == KeyHit(node.redis, key, value) && !d.revoked && after.devices == node.devices[d.id := d] && after.redis == node.redis
            else after == node
  {
    hide Lower;
  }

  // ----- runs of one node -----

  datatype Op =
    | DoBeat(hb: Heartbeat, now: nat)
    | DoEnroll(req: EnrollRequest, nonce: string, token: string, now: nat)
    | DoRevoke(id: string)

  /** What the operations that succeeded did, as their callers know it. */
  datatype Event =
    | Beaten(device: string, fingerprint: Option<string>, score: Option<nat>, now: nat)
    | Issued(device: string, token: string, fingerprint: Option<string>, serial: Option<string>, platform: string, now: nat)
    | Withdrawn(device: string)

  function Apply(node: Node, op: Op, hash: string -> string): (Node, seq<Event>) {
    match op
    case DoBeat(hb, now) =>
      (match Beat(node, hb, now)
       case Ok(n) => (n, [Beaten(hb.deviceId, hb.certFingerprint, hb.trustScore, now)])
       case Err(_) => (node, []))
    case DoEnroll(req, nonce, token, now) =>
      (match Enroll(node, req, nonce, hash(token), now)
       case Ok((id, n)) =>
         (n, [Issued(id, token, NonBlank(req.certFingerprint), NonBlank(req.certSerial), Lower(req.platform), now)])
       case Err(_) => (node, []))
    case DoRevoke(id) =>
      (match Revoke(node, id)
       case Ok(n) => (n, [Withdrawn(id)])
       case Err(_) => (node, []))
  }

  function RunOps(redis: bool, ops: seq<Op>, hash: string -> string): (Node, seq<Event>) {
    if ops == [] then (Node(map[], if redis then Some(Redis(map[], map[], map[], map[])) else None), [])
    else
      var (node, log) := RunOps(redis, ops[..|ops| - 1], hash);
      var (after, events) := Apply(node, ops[|ops| - 1], hash);
      (after, log + events)
  }

  /** The last thing `pick` finds in the events of device `d`. */
  function LastOf<T>(log: seq<Event>, d: string, pick: Event -> Option<T>): Option<T> {
    if log == [] then None
    else
      var last := log[|log| - 1];
      if last.device == d && pick(last).Some? then pick(last) else LastOf(log[..|log| - 1], d, pick)
  }

  function FingerprintIn(e: Event): Option<string> {
    match e case Beaten(_, f, _, _) => f case Issued(_, _, f, _, _, _) => f case Withdrawn(_) => None
  }

  function SerialIn(e: Event): Option<string> { if e.Issued? then e.serial else None }

  function ScoreIn(e: Event): Option<nat> { if e.Beaten? then e.score else None }

  function PlatformIn(e: Event): Option<string> { if e.Issued? then Some(e.platform) else None }

  function EnrolledIn(e: Event): Option<nat> { if e.Issued? then Some(e.now) else None }

  function SeenIn(e: Event): Option<nat> { if e.Withdrawn? then None else Some(e.now) }

  /** An enrolment sets the token; a revocation clears it. */
  function TokenIn(e: Event): Option<Option<string>> {
    match e case Beaten(_, _, _, _) => None case Issued(_, token, _, _, _, _) => Some(Some(token)) case Withdrawn(_) => Some(None)
  }

  /** The last token issued to `d` and not withdrawn since. */
  function Latest(log: seq<Event>, d: string): Option<string> {
    var t := LastOf(log, d, TokenIn);
    if t.Some? then t.value else None
  }

  ghost predicate Injective(hash: string -> string) { forall a: string, b: string :: hash(a) == hash(b) ==> a == b }

  // ----- what every operation keeps -----

  /** Keys are ids, and a revoked record has no token. */
  predicate Sound(devices: Devices) {
    && (forall id :: id in devices ==> devices[id].id == id)
    && (forall id :: id in devices && devices[id].revoked ==> devices[id].tokenHash == None)
  }

  /** Every index entry is backed by a record that holds the hash. */
  predicate IndexBacked(r: Redis) {
    forall h :: h in r.tokens ==> r.tokens[h] in r.devices && r.devices[r.tokens[h]].tokenHash == Some(h)
  }

  /** The index is the exact inverse of the id-to-token map of the records. */
  predicate IndexExact(r: Redis) {
    && IndexBacked(r)
    && forall id :: id in r.devices && r.devices[id].tokenHash.Some? ==>
        r.devices[id].tokenHash.value in r.tokens && r.tokens[r.devices[id].tokenHash.value] == id
  }

  ghost predicate NodeInv(node: Node) {
    Sound(node.devices) && (node.redis.Some? ==> node.redis.value.devices == node.devices && IndexBacked(node.redis.value))
  }

  /** A record says exactly what the events of its device say. */
  ghost predicate RecordTells(r: Option<Device>, log: seq<Event>, d: string, hash: string -> string) {
    match r
    case None => forall e :: e in log ==> e.device != d
    case Some(dev) =>
      && LastOf(log, d, SeenIn) == Some(dev.lastSeen)
      && dev.certFingerprint == LastOf(log, d, FingerprintIn) && dev.certSerial == LastOf(log, d, SerialIn)
      && dev.trustScore == LastOf(log, d, ScoreIn)
      && dev.platform == LastOf(log, d, PlatformIn) && dev.enrolledAt == LastOf(log, d, EnrolledIn)
      && dev.tokenHash == (if Latest(log, d).Some? then Some(hash(Latest(log, d).value)) else None)
      && (dev.revoked <==> Withdrawn(d) in log)
  }

  ghost predicate TellsLog(devices: Devices, log: seq<Event>, hash: string -> string) {
    forall d :: RecordTells(Get(devices, d), log, d, hash)
  }

  lemma LastOfAppend<T>(log: seq<Event>, e: Event, d: string, pick: Event -> Option<T>)
    ensures LastOf(log + [e], d, pick) == if e.device == d && pick(e).Some? then pick(e) else LastOf(log, d, pick)
  {
    assert (log + [e])[..|log|] == log;
  }

  lemma {:induction false} LastOfNothing<T>(log: seq<Event>, d: string, pick: Event -> Option<T>)
    requires forall e :: e in log ==> e.device != d
    ensures LastOf(log, d, pick) == None
  {
    if log != [] {
      LastOfNothing(log[..|log| - 1], d, pick);
    }
  }

  /** What one more event changes in everything the log says about a device. */
  lemma LogAppend(log: seq<Event>, e: Event, d: string)
    ensures LastOf(log + [e], d, SeenIn) == if e.device == d && SeenIn(e).Some? then SeenIn(e) else LastOf(log, d, SeenIn)
    ensures LastOf(log + [e], d, FingerprintIn) == if e.device == d && FingerprintIn(e).Some? then FingerprintIn(e) else LastOf(log, d, FingerprintIn)
    ensures LastOf(log + [e], d, SerialIn) == if e.device == d && SerialIn(e).Some? then SerialIn(e) else LastOf(log, d, SerialIn)
    ensures LastOf(log + [e], d, ScoreIn) == if e.device == d && ScoreIn(e).Some? then ScoreIn(e) else LastOf(log, d, ScoreIn)
    ensures LastOf(log + [e], d, PlatformIn) == if e.device == d && PlatformIn(e).Some? then PlatformIn(e) else LastOf(log, d, PlatformIn)
    ensures LastOf(log + [e], d, EnrolledIn) == if e.device == d && EnrolledIn(e).Some? then EnrolledIn(e) else LastOf(log, d, EnrolledIn)
    ensures Latest(log + [e], d) == if e.device == d && TokenIn(e).Some? then TokenIn(e).value else Latest(log, d)
    ensures Withdrawn(d) in log + [e] <==> Withdrawn(d) in log || e == Withdrawn(d)
  {
    hide LastOf;
    LastOfAppend(log, e, d, SeenIn);
    LastOfAppend(log, e, d, FingerprintIn);
    LastOfAppend(log, e, d, SerialIn);
    LastOfAppend(log, e, d, ScoreIn);
    LastOfAppend(log, e, d, PlatformIn);
    LastOfAppend(log, e, d, EnrolledIn);
    LastOfAppend(log, e, d, TokenIn);
  }

  /** The old token handed to `Put` lets it drop a hash the record no longer holds. */
  predicate OldTokenGiven(r: Redis, d: Device, oldToken: Option<string>) {
    var held := TokenOf(Get(r.devices, d.id));
    oldToken == held || held == d.tokenHash
  }

  lemma PutKeepsBacked(r: Redis, d: Device, oldToken: Option<string>)
    requires Sound(r.devices) && IndexBacked(r) && OldTokenGiven(r, d, oldToken)
    ensures IndexBacked(Put(r, d, oldToken))
  {
  }

  /** No other record holds the token hash of `d`. */
  predicate FreshToken(r: Redis, d: Device) {
    d.tokenHash.Some? ==> forall id :: id in r.devices && id != d.id ==> r.devices[id].tokenHash != d.tokenHash
  }

  /** Writing a record keeps the index exact if and only if no other record holds its token hash. */
  lemma PutKeepsExact(r: Redis, d: Device, oldToken: Option<string>)
    requires Sound(r.devices) && IndexExact(r) && OldTokenGiven(r, d, oldToken)
    requires oldToken.Some? ==> oldToken == TokenOf(Get(r.devices, d.id))
    ensures IndexExact(Put(r, d, oldToken)) <==> FreshToken(r, d)
  {
    var after := Put(r, d, oldToken);
    PutKeepsBacked(r, d, oldToken);
    if FreshToken(r, d) {
      forall id | id in after.devices && after.devices[id].tokenHash.Some?
        ensures after.devices[id].tokenHash.value in after.tokens && after.tokens[after.devices[id].tokenHash.value] == id
      {
        if id != d.id {
          assert r.tokens[r.devices[id].tokenHash.value] == id;
        }
      }
    } else {
      var id :| id in r.devices && id != d.id && r.devices[id].tokenHash == d.tokenHash;
      assert after.devices[id].tokenHash == d.tokenHash && after.tokens[d.tokenHash.value] == d.id;
    }
  }

  /** Records with matching keys on both sides; the two sides may differ. */
  ghost predicate BothSound(node: Node) { Sound(node.devices) && (node.redis.Some? ==> Sound(node.redis.value.devices)) }

  lemma BeatSound(node: Node, hb: Heartbeat, now: nat)
    requires BothSound(node)
    ensures Beat(node, hb, now).Ok? ==> BothSound(Beat(node, hb, now).value)
  {
    hide Trim, Lower, Blank, KnownPlatform;
  }

  lemma EnrollSound(node: Node, req: EnrollRequest, nonce: string, tokenHash: string, now: nat)
    requires BothSound(node)
    ensures Enroll(node, req, nonce, tokenHash, now).Ok? ==> BothSound(Enroll(node, req, nonce, tokenHash, now).value.1)
  {
    hide Trim, Lower, Blank, KnownPlatform;
  }

  lemma RevokeSound(node: Node, id: string)
    requires BothSound(node)
    ensures Revoke(node, id).Ok? ==> BothSound(Revoke(node, id).value)
  {
    hide Trim, Lower, Blank, KnownPlatform;
  }

  lemma ApplySound(node: Node, op: Op, hash: string -> string)
    requires BothSound(node)
    ensures BothSound(Apply(node, op, hash).0)
  {
    hide Beat, Enroll, Revoke;
    match op
    case DoBeat(hb, now) => BeatSound(node, hb, now);
    case DoEnroll(req, nonce, token, now) => EnrollSound(node, req, nonce, hash(token), now);
    case DoRevoke(id) => RevokeSound(node, id);
  }

  lemma StoredKeepsInv(node: Node, d: Device, oldToken: Option<string>)
    requires NodeInv(node) && (d.revoked ==> d.tokenHash == None)
    requires oldToken == TokenOf(Get(node.devices, d.id)) || TokenOf(Get(node.devices, d.id)) == d.tokenHash
    ensures NodeInv(Stored(node, d, oldToken))
  {
    if node.redis.Some? {
      PutKeepsBacked(node.redis.value, d, oldToken);
    }
  }

  lemma ApplyKeepsInv(node: Node, op: Op, hash: string -> string)
    requires NodeInv(node)
    ensures NodeInv(Apply(node, op, hash).0)
  {
    hide Trim, Lower, Blank, KnownPlatform;
    match op
    case DoBeat(hb, now) => StoredKeepsInv(node, BeatDevice(Get(node.devices, hb.deviceId), hb, now), None);
    case DoEnroll(req, nonce, token, now) =>
      if EnrollId(req, nonce).Some? {
        var id := EnrollId(req, nonce).value;
        var prev := Get(node.devices, id);
        StoredKeepsInv(node, EnrolledDevice(prev, id, req, hash(token), now), TokenOf(prev));
      }
    case DoRevoke(id) =>
      if id in node.devices {
        StoredKeepsInv(node, node.devices[id].(revoked := true, tokenHash := None), node.devices[id].tokenHash);
      }
  }

  /** A device the log does not mention has nothing to say. */
  lemma UnknownSaysNothing(log: seq<Event>, d: string)
    requires forall e :: e in log ==> e.device != d
    ensures LastOf(log, d, FingerprintIn) == None && LastOf(log, d, SerialIn) == None && LastOf(log, d, ScoreIn) == None
    ensures LastOf(log, d, PlatformIn) == None && LastOf(log, d, EnrolledIn) == None && Latest(log, d) == None
    ensures Withdrawn(d) !in log
  {
    hide LastOf;
    LastOfNothing(log, d, FingerprintIn);
    LastOfNothing(log, d, SerialIn);
    LastOfNothing(log, d, ScoreIn);
    LastOfNothing(log, d, PlatformIn);
    LastOfNothing(log, d, EnrolledIn);
    LastOfNothing(log, d, TokenIn);
  }

  /** An event on one device leaves what is told of every other. */
  lemma OthersTell(devices: Devices, log: seq<Event>, e: Event, dev: Device, hash: string -> string)
    requires TellsLog(devices, log, hash) && e.device == dev.id
    requires RecordTells(Some(dev), log + [e], dev.id, hash)
    ensures TellsLog(devices[dev.id := dev], log + [e], hash)
  {
    hide LastOf, Latest;
    var after := devices[dev.id := dev];
    forall d
      ensures RecordTells(Get(after, d), log + [e], d, hash)
    {
      if d != dev.id {
        assert RecordTells(Get(devices, d), log, d, hash);
        LogAppend(log, e, d);
      }
    }
  }

  lemma BeatTells(prev: Option<Device>, log: seq<Event>, hb: Heartbeat, now: nat, hash: string -> string)
    requires RecordTells(prev, log, hb.deviceId, hash)
    ensures RecordTells(Some(BeatDevice(prev, hb, now)), log + [Beaten(hb.deviceId, hb.certFingerprint, hb.trustScore, now)], hb.deviceId, hash)
  {
    hide LastOf, Latest;
    LogAppend(log, Beaten(hb.deviceId, hb.certFingerprint, hb.trustScore, now), hb.deviceId);
    if prev.None? { UnknownSaysNothing(log, hb.deviceId); }
  }

  lemma EnrollTells(prev: Option<Device>, log: seq<Event>, id: string, req: EnrollRequest, token: string, now: nat, hash: string -> string)
    requires RecordTells(prev, log, id, hash) && (prev.Some? ==> !prev.value.revoked)
    ensures var e := Issued(id, token, NonBlank(req.certFingerprint), NonBlank(req.certSerial), Lower(req.platform), now);
            RecordTells(Some(EnrolledDevice(prev, id, req, hash(token), now)), log + [e], id, hash)
  {
    hide LastOf, Latest, NonBlank, Lower;
    LogAppend(log, Issued(id, token, NonBlank(req.certFingerprint), NonBlank(req.certSerial), Lower(req.platform), now), id);
    if prev.None? { UnknownSaysNothing(log, id); }
  }

  lemma RevokeTells(dev: Device, log: seq<Event>, hash: string -> string)
    requires RecordTells(Some(dev), log, dev.id, hash)
    ensures RecordTells(Some(dev.(revoked := true, tokenHash := None)), log + [Withdrawn(dev.id)], dev.id, hash)
  {
    hide LastOf, Latest;
    LogAppend(log, Withdrawn(dev.id), dev.id);
  }

  lemma ApplyTellsLog(node: Node, log: seq<Event>, op: Op, hash: string -> string)
    requires NodeInv(node) && TellsLog(node.devices, log, hash)
    ensures TellsLog(Apply(node, op, hash).0.devices, log + Apply(node, op, hash).1, hash)
  {
    hide Trim, Lower, Blank, NonBlank, KnownPlatform, RecordTells, Put, LastOf;
    if Apply(node, op, hash).1 == [] {
      assert log + Apply(node, op, hash).1 == log;
    } else {
      var e := Apply(node, op, hash).1[0];
      var prev := Get(node.devices, e.device);
      assert RecordTells(prev, log, e.device, hash);
      match op
      case DoBeat(hb, now) =>
        BeatTells(prev, log, hb, now, hash);
        OthersTell(node.devices, log, e, BeatDevice(prev, hb, now), hash);
      case DoEnroll(req, nonce, token, now) =>
        EnrollTells(prev, log, e.device, req, token, now, hash);
        OthersTell(node.devices, log, e, EnrolledDevice(prev, e.device, req, hash(token), now), hash);
      case DoRevoke(id) =>
        RevokeTells(prev.value, log, hash);
        OthersTell(node.devices, log, e, prev.value.(revoked := true, tokenHash := None), hash);
    }
  }

  /**
    After every run of one node, keys are ids, revoked records have no token, Redis mirrors the map, and
    every field of every record is what the events of its device last said.
   */
  lemma {:induction false} RunKeepsInv(redis: bool, ops: seq<Op>, hash: string -> string)
    ensures var (node, log) := RunOps(redis, ops, hash); NodeInv(node) && TellsLog(node.devices, log, hash)
  {
    if ops != [] {
      var front := ops[..|ops| - 1];
      RunKeepsInv(redis, front, hash);
      var (node, log) := RunOps(redis, front, hash);
      ApplyKeepsInv(node, ops[|ops| - 1], hash);
      ApplyTellsLog(node, log, ops[|ops| - 1], hash);
    }
  }

  /**
    The token law, for every run of one node, with or without Redis: a token is accepted exactly when
    it is the latest token issued to some device that has not been revoked since.
   */
  lemma TokenLaw(redis: bool, ops: seq<Op>, hash: string -> string, token: string)
    requires Injective(hash)
    ensures var (node, log) := RunOps(redis, ops, hash);
            CheckToken(node, token, hash).0 <==> token != "" && exists d :: Latest(log, d) == Some(token)
  {
    var (node, log) := RunOps(redis, ops, hash);
    RunKeepsInv(redis, ops, hash);
    if token != "" && exists d :: Latest(log, d) == Some(token) {
      var d :| Latest(log, d) == Some(token);
      assert RecordTells(Get(node.devices, d), log, d, hash);
      if d !in node.devices { UnknownSaysNothing(log, d); }
      assert node.devices[d].tokenHash == Some(hash(token));
    }
    if token != "" && Scan(node.devices, hash(token)) {
      var id :| id in node.devices && !node.devices[id].revoked && node.devices[id].tokenHash == Some(hash(token));
      assert RecordTells(Get(node.devices, id), log, id, hash);
    }
  }

  lemma {:induction false} LogGrows(redis: bool, ops: seq<Op>, hash: string -> string, i: nat)
    requires i <= |ops|
    ensures RunOps(redis, ops[..i], hash).1 <= RunOps(redis, ops, hash).1
    decreases |ops|
  {
    if i == |ops| {
      assert ops[..i] == ops;
    } else {
      var front := ops[..|ops| - 1];
      assert front[..i] == ops[..i];
      LogGrows(redis, front, hash, i);
    }
  }

  /** Revocation is permanent: once withdrawn, the record stays revoked, holds no token and is never issued one. */
  lemma RevokedForever(redis: bool, ops: seq<Op>, hash: string -> string, i: nat, d: string)
    requires i <= |ops|
    ensures Withdrawn(d) in RunOps(redis, ops[..i], hash).1 ==>
              var (node, log) := RunOps(redis, ops, hash);
              && d in node.devices && node.devices[d].revoked && node.devices[d].tokenHash == None
              && Latest(log, d) == None
  {
    LogGrows(redis, ops, hash, i);
    RunKeepsInv(redis, ops, hash);
    var (node, log) := RunOps(redis, ops, hash);
    assert RecordTells(Get(node.devices, d), log, d, hash);
  }

  // ----- the certificate indexes, which are never cleaned -----

  function PickOf(key: Key): Event -> Option<string> { if key.Fingerprint? then FingerprintIn else SerialIn }

  /** The device of the last event that left its record holding `k`. */
  function LastCarrier(log: seq<Event>, key: Key, k: string): Option<string> {
    if log == [] then None
    else
      var last := log[|log| - 1];
      var held := LastOf(log, last.device, PickOf(key));
      if held.Some? && Lower(held.value) == k then Some(last.device) else LastCarrier(log[..|log| - 1], key, k)
  }

  /** Some event reported the key. */
  ghost predicate Reported(log: seq<Event>, key: Key, k: string) {
    exists i :: 0 <= i < |log| && ReportedAt(log, key, k, i)
  }

  predicate ReportedAt(log: seq<Event>, key: Key, k: string, i: nat)
    requires i < |log|
  {
    PickOf(key)(log[i]).Some? && Lower(PickOf(key)(log[i]).value) == k
  }

  function IdAt(index: map<string, string>, k: string): Option<string> { if k in index then Some(index[k]) else None }

  /** Each index entry names the last device whose stored record held the key. */
  ghost predicate IndexTells(r: Redis, log: seq<Event>) {
    forall key: Key, k: string :: IdAt(KeyIndex(r, key), k) == LastCarrier(log, key, k)
  }

  lemma CarrierAppend(log: seq<Event>, e: Event, key: Key, k: string)
    ensures var held := LastOf(log + [e], e.device, PickOf(key));
            LastCarrier(log + [e], key, k) ==
            if held.Some? && Lower(held.value) == k then Some(e.device) else LastCarrier(log, key, k)
  {
    hide LastOf, PickOf, Lower;
    assert (log + [e])[..|log|] == log;
  }

  lemma PutTells(r: Redis, d: Device, oldToken: Option<string>, log: seq<Event>, e: Event)
    requires IndexTells(r, log) && d.id == e.device
    requires d.certFingerprint == LastOf(log + [e], e.device, FingerprintIn)
    requires d.certSerial == LastOf(log + [e], e.device, SerialIn)
    ensures IndexTells(Put(r, d, oldToken), log + [e])
  {
    hide LastOf, Lower, LastCarrier;
    var after := Put(r, d, oldToken);
    forall key: Key, k: string
      ensures IdAt(KeyIndex(after, key), k) == LastCarrier(log + [e], key, k)
    {
      assert IdAt(KeyIndex(r, key), k) == LastCarrier(log, key, k);
      CarrierAppend(log, e, key, k);
    }
  }

  /** An event is a write of its device's record, as the registry then has it. */
  lemma ApplyWrites(node: Node, op: Op, hash: string -> string)
    requires NodeInv(node)
    ensures var (after, events) := Apply(node, op, hash);
            if events == [] then after == node
            else
              && |events| == 1 && events[0].device in after.devices && after.devices[events[0].device].id == events[0].device
              && (node.redis.Some? ==> exists oldToken ::
                    after.redis == Some(Put(node.redis.value, after.devices[events[0].device], oldToken)))
  {
    hide Trim, Lower, Blank, NonBlank, KnownPlatform, Put;
    if node.redis.Some? && Apply(node, op, hash).1 != [] {
      var (after, events) := Apply(node, op, hash);
      var held := if op.DoBeat? then None else TokenOf(Get(node.devices, events[0].device));
      assert after.redis == Some(Put(node.redis.value, after.devices[events[0].device], held));
    }
  }

  /** After every run with Redis, each certificate index entry names the last device whose record held it. */
  lemma {:induction false} CarrierLaw(ops: seq<Op>, hash: string -> string)
    ensures var (node, log) := RunOps(true, ops, hash); node.redis.Some? && IndexTells(node.redis.value, log)
  {
    hide LastOf, Apply, Put, NodeInv, KeyIndex;
    if ops == [] {
      NothingCarried();
    } else {
      var front, op := ops[..|ops| - 1], ops[|ops| - 1];
      CarrierLaw(front, hash);
      RunKeepsInv(true, front, hash);
      RunKeepsInv(true, ops, hash);
      var (node, log) := RunOps(true, front, hash);
      var (after, events) := Apply(node, op, hash);
      ApplyWrites(node, op, hash);
      if events == [] {
        assert log + events == log;
      } else {
        var oldToken :| after.redis == Some(Put(node.redis.value, after.devices[events[0].device], oldToken));
        assert events == [events[0]];
        assert RecordTells(Get(after.devices, events[0].device), log + events, events[0].device, hash);
        PutTells(node.redis.value, after.devices[events[0].device], oldToken, log, events[0]);
      }
    }
  }

  lemma NothingCarried()
    ensures IndexTells(Redis(map[], map[], map[], map[]), [])
  {
  }

  /** What `LastOf` finds was said by some event of the device. */
  lemma {:induction false} LastOfSaid(log: seq<Event>, d: string, key: Key) returns (i: nat)
    requires LastOf(log, d, PickOf(key)).Some?
    ensures i < |log| && log[i].device == d && PickOf(key)(log[i]) == LastOf(log, d, PickOf(key))
  {
    i := |log| - 1;
    if !(log[i].device == d && PickOf(key)(log[i]).Some?) {
      i := LastOfSaid(log[..i], d, key);
    }
  }

  /** A key has a carrier exactly when it was ever reported, and the carrier is a device of the log. */
  lemma {:induction false} CarrierReported(log: seq<Event>, key: Key, k: string)
    ensures LastCarrier(log, key, k).Some? <==> Reported(log, key, k)
    ensures LastCarrier(log, key, k).Some? ==> exists e :: e in log && e.device == LastCarrier(log, key, k).value
  {
    hide LastOf, PickOf, Lower;
    if log != [] {
      var n := |log| - 1;
      var front, last := log[..n], log[n];
      CarrierReported(front, key, k);
      var held := LastOf(log, last.device, PickOf(key));
      assert forall i :: 0 <= i < n ==> front[i] == log[i];
      if held.Some? && Lower(held.value) == k {
        var i := LastOfSaid(log, last.device, key);
        assert ReportedAt(log, key, k, i);
        assert last in log;
      } else {
        LastSaidNow(log, key);
        if Reported(front, key, k) {
          var i :| 0 <= i < n && ReportedAt(front, key, k, i);
          assert ReportedAt(log, key, k, i);
        }
        if Reported(log, key, k) {
          var i :| 0 <= i < |log| && ReportedAt(log, key, k, i);
          assert i < n && ReportedAt(front, key, k, i);
        }
      }
    }
  }

  lemma LastSaidNow(log: seq<Event>, key: Key)
    requires log != []
    ensures PickOf(key)(log[|log| - 1]).Some? ==> LastOf(log, log[|log| - 1].device, PickOf(key)) == PickOf(key)(log[|log| - 1])
  {
  }

  /** A device not withdrawn holds the key, by the log. */
  ghost predicate TrustedHolder(log: seq<Event>, key: Key, k: string) {
    exists d :: HeldInLog(log, key, k, d) && Withdrawn(d) !in log
  }

  predicate HeldInLog(log: seq<Event>, key: Key, k: string, d: string) {
    LastOf(log, d, PickOf(key)).Some? && Lower(LastOf(log, d, PickOf(key)).value) == k
  }

  /** After every run the records hold exactly the keys the log says they hold. */
  lemma HeldInRuns(redis: bool, ops: seq<Op>, hash: string -> string, key: Key, value: string)
    ensures var (node, log) := RunOps(redis, ops, hash);
            && (HeldByTrusted(node.devices, key, value) <==> TrustedHolder(log, key, Lower(value)))
            && (HeldBySome(node.devices, key, value) <==> exists d :: HeldInLog(log, key, Lower(value), d))
  {
    hide LastOf, Lower, Latest, RunOps;
    RunKeepsInv(redis, ops, hash);
    var (node, log) := RunOps(redis, ops, hash);
    forall d
      ensures HeldInLog(log, key, Lower(value), d) <==> d in node.devices && Holds(node.devices[d], key, value)
      ensures d in node.devices ==> (node.devices[d].revoked <==> Withdrawn(d) in log)
    {
      assert RecordTells(Get(node.devices, d), log, d, hash);
      if d !in node.devices { UnknownSaysNothing(log, d); }
    }
  }

  // ----- the token index with one writer and fresh tokens -----

  /** Each enrolment of the run draws a token no other device holds. */
  ghost predicate FreshRun(ops: seq<Op>, hash: string -> string) {
    ops != [] ==>
      && FreshRun(ops[..|ops| - 1], hash)
      && var (node, op) := (RunOps(true, ops[..|ops| - 1], hash).0, ops[|ops| - 1]);
      op.DoEnroll? ==> forall id :: id in node.devices && Some(id) != EnrollId(op.req, op.nonce) ==>
        node.devices[id].tokenHash != Some(hash(op.token))
  }

  lemma ApplyKeepsExact(node: Node, op: Op, hash: string -> string)
    requires NodeInv(node) && node.redis.Some? && IndexExact(node.redis.value)
    requires op.DoEnroll? ==> forall id :: id in node.devices && Some(id) != EnrollId(op.req, op.nonce) ==>
      node.devices[id].tokenHash != Some(hash(op.token))
    ensures Apply(node, op, hash).0.redis.Some? && IndexExact(Apply(node, op, hash).0.redis.value)
  {
    hide Trim, Lower, Blank, KnownPlatform;
    var r := node.redis.value;
    match op
    case DoBeat(hb, now) => PutKeepsExact(r, BeatDevice(Get(node.devices, hb.deviceId), hb, now), None);
    case DoEnroll(req, nonce, token, now) =>
      if EnrollId(req, nonce).Some? {
        var id := EnrollId(req, nonce).value;
        var prev := Get(node.devices, id);
        PutKeepsExact(r, EnrolledDevice(prev, id, req, hash(token), now), TokenOf(prev));
      }
    case DoRevoke(id) =>
      if id in node.devices {
        PutKeepsExact(r, node.devices[id].(revoked := true, tokenHash := None), node.devices[id].tokenHash);
      }
  }

  lemma {:induction false} RunKeepsExact(ops: seq<Op>, hash: string -> string)
    ensures FreshRun(ops, hash) ==> var (node, _) := RunOps(true, ops, hash); node.redis.Some? && IndexExact(node.redis.value)
  {
    if ops != [] && FreshRun(ops, hash) {
      var front := ops[..|ops| - 1];
      RunKeepsExact(front, hash);
      RunKeepsInv(true, front, hash);
      ApplyKeepsExact(RunOps(true, front, hash).0, ops[|ops| - 1], hash);
    }
  }

  /** With fresh tokens a lookup through the index and a scan of every record always agree. */
  lemma IndexAgreesWithScan(ops: seq<Op>, hash: string -> string, tokenHash: string)
    ensures FreshRun(ops, hash) ==>
              var (node, _) := RunOps(true, ops, hash);
              && node.redis.Some? && IndexExact(node.redis.value)
              && (IndexHit(node.redis, tokenHash).Some? <==> Scan(node.redis.value.devices, tokenHash))
  {
    if !FreshRun(ops, hash) { return; }
    RunKeepsExact(ops, hash);
    RunKeepsInv(true, ops, hash);
    var node := RunOps(true, ops, hash).0;
    if Scan(node.devices, tokenHash) {
      var id :| id in node.devices && !node.devices[id].revoked && node.devices[id].tokenHash == Some(tokenHash);
      assert node.redis.value.tokens[tokenHash] == id;
    }
    if IndexHit(node.redis, tokenHash).Some? {
      assert node.devices[node.redis.value.tokens[tokenHash]].tokenHash == Some(tokenHash);
    }
  }

  // ----- pulling the shared hash -----

  /** One remote record meets the local map: newer records win, ties keep the local one. */
  function Accepted(devices: Devices, d: Device): Devices {
    if Blank(d.id) || (d.id in devices && devices[d.id].lastSeen >= d.lastSeen) then devices
    else devices[d.id := d]
  }

  function Pulled(devices: Devices, remote: Devices, order: seq<string>): Devices
    requires forall k :: k in order ==> k in remote
  {
    if order == [] then devices
    else Accepted(Pulled(devices, remote, order[..|order| - 1]), remote[order[|order| - 1]])
  }

  /** How many remote records a pull takes. */
  function Taken(devices: Devices, remote: Devices, order: seq<string>): nat
    requires forall k :: k in order ==> k in remote
  {
    if order == [] then 0
    else
      var before, d := Pulled(devices, remote, order[..|order| - 1]), remote[order[|order| - 1]];
      Taken(devices, remote, order[..|order| - 1]) + if Accepted(before, d) == before then 0 else 1
  }

  /** The winner for one id. */
  function Newer(local: Option<Device>, remote: Option<Device>): Option<Device> {
    if remote.None? || Blank(remote.value.id) then local
    else if local.Some? && local.value.lastSeen >= remote.value.lastSeen then local
    else remote
  }

  lemma {:induction false} PulledAt(devices: Devices, remote: Devices, order: seq<string>, id: string)
    requires forall k :: k in order ==> k in remote && remote[k].id == k
    requires forall i, j :: 0 <= i < j < |order| ==> order[i] != order[j]
    ensures Get(Pulled(devices, remote, order), id) ==
            if id in order then Newer(Get(devices, id), Get(remote, id)) else Get(devices, id)
  {
    if order != [] {
      var last := |order| - 1;
      PulledAt(devices, remote, order[..last], id);
      assert order == order[..last] + [order[last]];
    }
  }

  /** The merge keeps for each id the newer record, in whatever order the hash is walked. */
  lemma MergeIsPointwise(devices: Devices, remote: Devices, order: seq<string>)
    requires Sound(remote) && IsListing(order, remote.Keys)
    ensures forall id :: Get(Pulled(devices, remote, order), id) == Newer(Get(devices, id), Get(remote, id))
  {
    forall id
      ensures Get(Pulled(devices, remote, order), id) == Newer(Get(devices, id), Get(remote, id))
    {
      PulledAt(devices, remote, order, id);
    }
  }

  lemma SameMap(a: Devices, b: Devices)
    requires forall id :: Get(a, id) == Get(b, id)
    ensures a == b
  {
    forall id
      ensures id in a <==> id in b
      ensures id in a ==> a[id] == b[id]
    {
      assert Get(a, id) == Get(b, id);
    }
  }

  /** So the result does not depend on the order, pulling twice changes nothing, and no `lastSeen` goes back. */
  lemma MergeLaws(devices: Devices, remote: Devices, order: seq<string>, order': seq<string>)
    requires Sound(remote) && IsListing(order, remote.Keys) && IsListing(order', remote.Keys)
    ensures Pulled(devices, remote, order) == Pulled(devices, remote, order')
    ensures Pulled(Pulled(devices, remote, order), remote, order') == Pulled(devices, remote, order)
    ensures forall id :: id in devices ==>
      id in Pulled(devices, remote, order) && devices[id].lastSeen <= Pulled(devices, remote, order)[id].lastSeen
  {
    var once := Pulled(devices, remote, order);
    MergeIsPointwise(devices, remote, order);
    MergeIsPointwise(devices, remote, order');
    MergeIsPointwise(once, remote, order');
    SameMap(once, Pulled(devices, remote, order'));
    SameMap(Pulled(once, remote, order'), once);
    forall id | id in devices
      ensures id in once && devices[id].lastSeen <= once[id].lastSeen
    {
      assert Get(once, id) == Newer(Get(devices, id), Get(remote, id));
    }
  }

  // ----- the locked object -----

  class RedisDevices {
    var devices: Devices
    var tokens: map<string, string>
    var fingerprints: map<string, string>
    var serials: map<string, string>

    function Value(): Redis
      reads this
    {
      Redis(devices, tokens, fingerprints, serials)
    }

    /** `redis_put_device`: one command after another. */
    method PutDevice(d: Device, oldToken: Option<string>)
      modifies this
      ensures Value() == Put(old(Value()), d, oldToken)
    {
      hide Lower;
      devices := devices[d.id := d];
      if oldToken.Some? {
        if d.tokenHash.None? || d.tokenHash.value != oldToken.value {
          tokens := tokens - {oldToken.value};
        }
      }
      if d.tokenHash.Some? {
        tokens := tokens[d.tokenHash.value := d.id];
      } else if oldToken.Some? {
        tokens := tokens - {oldToken.value};
      }
      if d.certFingerprint.Some? {
        fingerprints := fingerprints[Lower(d.certFingerprint.value) := d.id];
      }
      if d.certSerial.Some? {
        serials := serials[Lower(d.certSerial.value) := d.id];
      }
    }
  }

  class RegistryHandle {
    var devices: Devices
    const redis: RedisDevices?

    constructor (redis: RedisDevices?)
      ensures this.redis == redis && devices == map[]
    {
      this.redis := redis;
      devices := map[];
    }

    function Value(): Node
      reads this, redis
    {
      Node(devices, if redis == null then None else Some(redis.Value()))
    }

    method ApplyHeartbeat(hb: Heartbeat, now: nat) returns (r: Result<(), HeartbeatError>)
      modifies this, redis
      ensures match Beat(old(Value()), hb, now)
              case Err(e) => r == Err(e) && Value() == old(Value())
              case Ok(after) => r == Ok(()) && Value() == after
    {
      hide Trim, Put;
      if Blank(hb.deviceId) {
        return Err(EmptyHeartbeatId);
      }
      if hb.trustScore.Some? && hb.trustScore.value > 100 {
        return Err(InvalidTrustScore);
      }
      var device := BeatDevice(Get(devices, hb.deviceId), hb, now);
      devices := devices[device.id := device];
      if redis != null {
        redis.PutDevice(device, None);
      }
      return Ok(());
    }

    method EnrollDevice(req: EnrollRequest, nonce: string, tokenHash: string, now: nat) returns (r: Result<string, EnrollError>)
      modifies this, redis
      ensures match Enroll(old(Value()), req, nonce, tokenHash, now)
              case Err(e) => r == Err(e) && Value() == old(Value())
              case Ok((id, after)) => r == Ok(id) && Value() == after
    {
      hide Trim, Lower, Put, KnownPlatform;
      if !KnownPlatform(Lower(req.platform)) {
        return Err(InvalidPlatform);
      }
      var named := EnrollId(req, nonce);
      if named.None? {
        return Err(EmptyDeviceId);
      }
      var id := named.value;
      var previous := Get(devices, id);
      if previous.Some? && previous.value.revoked {
        return Err(AlreadyRevoked);
      }
      var device := EnrolledDevice(previous, id, req, tokenHash, now);
      devices := devices[device.id := device];
      if redis != null {
        redis.PutDevice(device, TokenOf(previous));
      }
      return Ok(id);
    }

    method RevokeDevice(id: string) returns (r: Result<(Option<string>, Option<string>), RevokeError>)
      modifies this, redis
      ensures match Revoke(old(Value()), id)
              case Err(e) => r == Err(e) && Value() == if e.NotFound? then Fetched(old(Value()), id) else old(Value())
              case Ok(after) =>
                && Value() == after
                && r == Ok((after.devices[id].certFingerprint, after.devices[id].certSerial))
    {
      hide Put;
      if id == "" || '/' in id {
        return Err(InvalidId);
      }
      if id !in devices && redis != null && id in redis.devices {
        var remote := redis.devices[id];
        devices := devices[remote.id := remote];
      }
      if id !in devices {
        return Err(NotFound);
      }
      var device := devices[id];
      var oldToken := device.tokenHash;
      device := device.(revoked := true, tokenHash := None);
      devices := devices[id := device];
      if redis != null {
        redis.PutDevice(device, oldToken);
      }
      return Ok((device.certFingerprint, device.certSerial));
    }

    method PullFromRedis() returns (merged: nat, ghost order: seq<string>)
      modifies this
      ensures redis == null ==> merged == 0 && devices == old(devices)
      ensures redis != null ==>
        && IsListing(order, redis.devices.Keys)
        && devices == Pulled(old(devices), redis.devices, order) && merged == Taken(old(devices), redis.devices, order)
    {
      hide Trim;
      if redis == null {
        return 0, [];
      }
      var remote := redis.devices;
      var todo := remote.Keys;
      merged, order := 0, [];
      while todo != {}
        invariant todo <= remote.Keys
        invariant IsListing(order, remote.Keys - todo)
        invariant devices == Pulled(old(devices), remote, order) && merged == Taken(old(devices), remote, order)
        decreases todo
      {
        var k :| k in todo;
        var dev := remote[k];
        todo := todo - {k};
        assert (order + [k])[..|order|] == order;
        order := order + [k];
        if Blank(dev.id) {
          continue;
        }
        if dev.id in devices && devices[dev.id].lastSeen >= dev.lastSeen {
        } else {
          devices := devices[dev.id := dev];
          merged := merged + 1;
        }
      }
      assert remote.Keys - todo == remote.Keys;
    }

    method DeviceTokenValid(token: string, hash: string -> string) returns (valid: bool)
      modifies this
      ensures (valid, Value()) == CheckToken(old(Value()), token, hash)
    {
      if token == "" {
        return false;
      }
      var tokenHash := hash(token);
      var todo := devices.Keys;
      while todo != {}
        invariant todo <= devices.Keys && devices == old(devices)
        invariant forall id :: id in devices && id !in todo && !devices[id].revoked ==> devices[id].tokenHash != Some(tokenHash)
        decreases todo
      {
        var id :| id in todo;
        if !devices[id].revoked && devices[id].tokenHash == Some(tokenHash) {
          return true;
        }
        todo := todo - {id};
      }
      var hit := IndexHit(if redis == null then None else Some(redis.Value()), tokenHash);
      if hit.Some? {
        devices := devices[hit.value.id := hit.value];
        return true;
      }
      return false;
    }

    method CertValid(key: Key, value: string) returns (valid: bool)
      modifies this
      ensures (valid, Value()) == CheckCert(old(Value()), key, value)
    {
      hide Lower;
      if value == "" {
        return false;
      }
      var todo := devices.Keys;
      while todo != {}
        invariant todo <= devices.Keys && devices == old(devices)
        invariant forall id :: id in devices && id !in todo && !devices[id].revoked ==> !Holds(devices[id], key, value)
        decreases todo
      {
        var id :| id in todo;
        if !devices[id].revoked && Holds(devices[id], key, value) {
          return true;
        }
        todo := todo - {id};
      }
      var hit := KeyHit(if redis == null then None else Some(redis.Value()), key, value);
      if hit.Some? && !hit.value.revoked {
        devices := devices[hit.value.id := hit.value];
        return true;
      }
      return false;
    }

    method CertKnown(key: Key, value: string) returns (known: bool)
      ensures known == Known(Value(), key, value)
    {
      hide Lower;
      if value == "" {
        return false;
      }
      var todo := devices.Keys;
      while todo != {}
        invariant todo <= devices.Keys
        invariant forall id :: id in devices && id !in todo ==> !Holds(devices[id], key, value)
        decreases todo
      {
        var id :| id in todo;
        if Holds(devices[id], key, value) {
          return true;
        }
        todo := todo - {id};
      }
      var hit := KeyHit(if redis == null then None else Some(redis.Value()), key, value);
      return hit.Some?;
    }
  }
}
