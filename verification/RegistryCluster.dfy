/**
  Any number of registries of `proxy/src/device_registry.rs` over one Redis: heartbeats, enrolments and
  revocations on any node, pulls, and the lookups that cache what they find. Each is one step.
 */
module RegistryCluster {
  import opened Certificates
  import opened Text
  import opened DeviceRegistry

  datatype Cluster = Cluster(nodes: map<nat, Devices>, redis: Redis)

  datatype Step =
    | Local(node: nat, op: Op)
    | Pull(node: nat, order: seq<string>)
    | TokenCheck(node: nat, token: string)
    | CertCheck(node: nat, key: Key, value: string)

  ghost predicate Next(s: Cluster, step: Step, s': Cluster, hash: string -> string) {
    && step.node in s.nodes
    && var node := Node(s.nodes[step.node], Some(s.redis));
    match step
    case Local(n, op) =>
      var after := Apply(node, op, hash).0;
      after.redis.Some? && s' == Cluster(s.nodes[n := after.devices], after.redis.value)
    case Pull(n, order) =>
      IsListing(order, s.redis.devices.Keys) && s' == s.(nodes := s.nodes[n := Pulled(node.devices, s.redis.devices, order)])
    case TokenCheck(n, token) => s' == s.(nodes := s.nodes[n := CheckToken(node, token, hash).1.devices])
    case CertCheck(n, key, value) => s' == s.(nodes := s.nodes[n := CheckCert(node, key, value).1.devices])
  }

  ghost predicate AllSound(s: Cluster) {
    Sound(s.redis.devices) && forall n :: n in s.nodes ==> Sound(s.nodes[n])
  }

  lemma {:induction false} PulledSound(devices: Devices, remote: Devices, order: seq<string>)
    requires Sound(devices) && Sound(remote) && forall k :: k in order ==> k in remote
    ensures Sound(Pulled(devices, remote, order))
  {
    if order != [] {
      PulledSound(devices, remote, order[..|order| - 1]);
    }
  }

  lemma StepKeepsSound(s: Cluster, step: Step, s': Cluster, hash: string -> string)
    requires AllSound(s) && Next(s, step, s', hash)
    ensures AllSound(s')
  {
    var devices := s.nodes[step.node];
    match step
    case Local(n, op) => ApplySound(Node(devices, Some(s.redis)), op, hash);
    case Pull(n, order) => PulledSound(devices, s.redis.devices, order);
    case TokenCheck(n, token) =>
    case CertCheck(n, key, value) =>
  }

  ghost predicate StepAt(states: seq<Cluster>, steps: seq<Step>, i: nat, hash: string -> string) {
    i < |steps| && i + 1 < |states| && Next(states[i], steps[i], states[i + 1], hash)
  }

  ghost predicate Run(states: seq<Cluster>, steps: seq<Step>, hash: string -> string) {
    && |states| == |steps| + 1
    && states[0].redis == Redis(map[], map[], map[], map[]) && (forall n :: n in states[0].nodes ==> states[0].nodes[n] == map[])
    && forall i :: 0 <= i < |steps| ==> StepAt(states, steps, i, hash)
  }

  /** In every run, in every cache and in Redis, keys are ids and a revoked record has no token hash. */
  lemma {:induction false} ClusterSound(states: seq<Cluster>, steps: seq<Step>, hash: string -> string, i: nat)
    requires Run(states, steps, hash) && i <= |steps|
    ensures AllSound(states[i])
    decreases i
  {
    hide Next;
    if i > 0 {
      ClusterSound(states, steps, hash, i - 1);
      assert StepAt(states, steps, i - 1, hash);
      StepKeepsSound(states[i - 1], steps[i - 1], states[i], hash);
    }
  }

  // ----- the revoked flag in Redis is that of its last writer -----

  /** The events of a step: at most one, the write of one record. */
  function Events(s: Cluster, step: Step, hash: string -> string): seq<Event>
    requires step.node in s.nodes
  {
    if step.Local? then Apply(Node(s.nodes[step.node], Some(s.redis)), step.op, hash).1 else []
  }

  predicate Writes(s: Cluster, step: Step, hash: string -> string, d: string): (r: bool)
    ensures r ==> step.Local? && step.node in s.nodes
  {
    step.node in s.nodes && Events(s, step, hash) != [] && Events(s, step, hash)[0].device == d
  }

  predicate HeldRevoked(devices: Devices, d: string) { d in devices && devices[d].revoked }

  lemma PutTouches(r: Redis, d: Device, oldToken: Option<string>, h: string)
    ensures IdAt(Put(r, d, oldToken).tokens, h) ==
            if d.tokenHash == Some(h) then Some(d.id) else if oldToken == Some(h) then None else IdAt(r.tokens, h)
    ensures Put(r, d, oldToken).devices == r.devices[d.id := d]
  {
    hide Lower;
  }

  /** A step writes the record of at most one device, and its flag is settled by the writer's cache. */
  lemma StepWrites(s: Cluster, step: Step, s': Cluster, hash: string -> string, d: string)
    requires AllSound(s) && Next(s, step, s', hash)
    ensures if Writes(s, step, hash, d) then HeldRevoked(s'.redis.devices, d) <==> step.op.DoRevoke? || HeldRevoked(s.nodes[step.node], d)
            else Get(s'.redis.devices, d) == Get(s.redis.devices, d)
    ensures Writes(s, step, hash, d) ==> d in s'.redis.devices
  {
    hide Trim, Lower, Blank, NonBlank, KnownPlatform, CheckToken, CheckCert, Pulled, Put;
    if step.Local? {
      var cache := s.nodes[step.node];
      match step.op
      case DoBeat(hb, now) => PutTouches(s.redis, BeatDevice(Get(cache, hb.deviceId), hb, now), None, "");
      case DoEnroll(req, nonce, token, now) =>
        if EnrollId(req, nonce).Some? {
          var id := EnrollId(req, nonce).value;
          PutTouches(s.redis, EnrolledDevice(Get(cache, id), id, req, hash(token), now), TokenOf(Get(cache, id)), "");
        }
      case DoRevoke(id) =>
        var known := if id in cache then Get(cache, id) else Get(s.redis.devices, id);
        if known.Some? {
          PutTouches(s.redis, known.value.(revoked := true, tokenHash := None), known.value.tokenHash, "");
        }
    }
  }

  /** The last step before `j` that wrote `d`. */
  ghost function LastWrite(states: seq<Cluster>, steps: seq<Step>, hash: string -> string, d: string, j: nat): (r: Option<nat>)
    requires j <= |steps| < |states|
    ensures r.Some? ==> r.value < j && WroteAt(states, steps, hash, d, r.value)
  {
    if j == 0 then None
    else if WroteAt(states, steps, hash, d, j - 1) then Some(j - 1)
    else LastWrite(states, steps, hash, d, j - 1)
  }

  ghost predicate WroteAt(states: seq<Cluster>, steps: seq<Step>, hash: string -> string, d: string, k: nat) {
    k < |steps| && k < |states| && Writes(states[k], steps[k], hash, d)
  }

  lemma {:induction false} LastWriteAfter(states: seq<Cluster>, steps: seq<Step>, hash: string -> string, d: string, i: nat, j: nat)
    requires i < j <= |steps| < |states| && WroteAt(states, steps, hash, d, i)
    ensures var k := LastWrite(states, steps, hash, d, j); k.Some? && i <= k.value
    decreases j
  {
    hide WroteAt;
    if !WroteAt(states, steps, hash, d, j - 1) {
      LastWriteAfter(states, steps, hash, d, i, j - 1);
    }
  }

  /** By its history, `d` stands revoked in Redis. */
  ghost predicate RevokedByHistory(states: seq<Cluster>, steps: seq<Step>, hash: string -> string, d: string, j: nat)
    requires j <= |steps| < |states|
  {
    var k := LastWrite(states, steps, hash, d, j);
    k.Some? && (steps[k.value].op.DoRevoke? || HeldRevoked(states[k.value].nodes[steps[k.value].node], d))
  }

  /**
    In every run Redis has a device exactly when some step wrote it, and has it revoked exactly when the
    last step that wrote it is a revocation or was made by a node whose cache then held it revoked.
   */
  lemma {:induction false} RevokedFlagLaw(states: seq<Cluster>, steps: seq<Step>, hash: string -> string, d: string, j: nat)
    requires Run(states, steps, hash) && j <= |steps|
    ensures d in states[j].redis.devices <==> LastWrite(states, steps, hash, d, j).Some?
    ensures HeldRevoked(states[j].redis.devices, d) <==> RevokedByHistory(states, steps, hash, d, j)
    decreases j
  {
    hide Next, Writes, AllSound;
    if j > 0 {
      RevokedFlagLaw(states, steps, hash, d, j - 1);
      ClusterSound(states, steps, hash, j - 1);
      assert StepAt(states, steps, j - 1, hash);
      StepWrites(states[j - 1], steps[j - 1], states[j], hash, d);
    }
  }

  /** So after a withdrawal the flag is settled by the last write since. */
  lemma AfterWithdrawal(states: seq<Cluster>, steps: seq<Step>, hash: string -> string, d: string, i: nat, j: nat)
    requires Run(states, steps, hash) && i < j <= |steps| && steps[i].Local? && steps[i].op.DoRevoke?
    requires Writes(states[i], steps[i], hash, d)
    ensures var k := LastWrite(states, steps, hash, d, j);
            && k.Some? && i <= k.value
            && (HeldRevoked(states[j].redis.devices, d) <==>
                steps[k.value].op.DoRevoke? || HeldRevoked(states[k.value].nodes[steps[k.value].node], d))
  {
    hide StepAt, Writes;
    RevokedFlagLaw(states, steps, hash, d, j);
    LastWriteAfter(states, steps, hash, d, i, j);
  }

  // ----- the token index -----

  /** What a step does to the index entry of token hash `h`: nothing, set it, or drop it. */
  function Touch(s: Cluster, step: Step, hash: string -> string, h: string): Option<Option<string>>
    requires step.node in s.nodes
  {
    if Events(s, step, hash) == [] then None
    else
      var cache, e := s.nodes[step.node], Events(s, step, hash)[0];
      match e
      case Beaten(d, _, _, _) => if TokenOf(Get(cache, d)) == Some(h) then Some(Some(d)) else None
      case Issued(d, token, _, _, _, _) =>
        if hash(token) == h then Some(Some(d)) else if TokenOf(Get(cache, d)) == Some(h) then Some(None) else None
      case Withdrawn(d) =>
        var known := if d in cache then Get(cache, d) else Get(s.redis.devices, d);
        if TokenOf(known) == Some(h) then Some(None) else None
  }

  lemma BeatTouches(s: Cluster, n: nat, hb: Heartbeat, now: nat, hash: string -> string, h: string)
    requires AllSound(s) && n in s.nodes
    ensures Touched(s, Local(n, DoBeat(hb, now)), hash, h)
  {
    hide Blank, Put;
    PutTouches(s.redis, BeatDevice(Get(s.nodes[n], hb.deviceId), hb, now), None, h);
  }

  lemma EnrollTouches(s: Cluster, n: nat, req: EnrollRequest, nonce: string, token: string, now: nat, hash: string -> string, h: string)
    requires AllSound(s) && n in s.nodes
    ensures Touched(s, Local(n, DoEnroll(req, nonce, token, now)), hash, h)
  {
    hide Trim, Lower, Blank, NonBlank, KnownPlatform, Put;
    if EnrollId(req, nonce).Some? {
      var id := EnrollId(req, nonce).value;
      var prev := Get(s.nodes[n], id);
      PutTouches(s.redis, EnrolledDevice(prev, id, req, hash(token), now), TokenOf(prev), h);
    }
  }

  lemma RevokeTouches(s: Cluster, n: nat, id: string, hash: string -> string, h: string)
    requires AllSound(s) && n in s.nodes
    ensures Touched(s, Local(n, DoRevoke(id)), hash, h)
  {
    hide Put;
    var known := if id in s.nodes[n] then Get(s.nodes[n], id) else Get(s.redis.devices, id);
    if known.Some? {
      PutTouches(s.redis, known.value.(revoked := true, tokenHash := None), known.value.tokenHash, h);
    }
  }

  /** A local step leaves the index entry of `h` as `Touch` says, always backed by a record. */
  ghost predicate Touched(s: Cluster, step: Step, hash: string -> string, h: string)
    requires step.node in s.nodes && step.Local?
  {
    var after, touch := Apply(Node(s.nodes[step.node], Some(s.redis)), step.op, hash).0, Touch(s, step, hash, h);
    && after.redis.Some?
    && IdAt(after.redis.value.tokens, h) == (match touch case Some(t) => t case None => IdAt(s.redis.tokens, h))
    && (touch.Some? && touch.value.Some? ==> touch.value.value in after.redis.value.devices)
    && s.redis.devices.Keys <= after.redis.value.devices.Keys
  }

  lemma StepTouches(s: Cluster, step: Step, s': Cluster, hash: string -> string, h: string)
    requires AllSound(s) && Next(s, step, s', hash)
    ensures IdAt(s'.redis.tokens, h) == match Touch(s, step, hash, h) case Some(t) => t case None => IdAt(s.redis.tokens, h)
    ensures Touch(s, step, hash, h).Some? && Touch(s, step, hash, h).value.Some? ==> Touch(s, step, hash, h).value.value in s'.redis.devices
    ensures s.redis.devices.Keys <= s'.redis.devices.Keys
  {
    hide Apply, CheckToken, CheckCert, Pulled;
    match step
    case Local(n, op) =>
      match op {
        case DoBeat(hb, now) => BeatTouches(s, n, hb, now, hash, h);
        case DoEnroll(req, nonce, token, now) => EnrollTouches(s, n, req, nonce, token, now, hash, h);
        case DoRevoke(id) => RevokeTouches(s, n, id, hash, h);
      }
    case _ =>
  }

  /** Where the index entry of `h` leads, by its history. */
  ghost function IndexByHistory(states: seq<Cluster>, steps: seq<Step>, hash: string -> string, h: string, j: nat): Option<string>
    requires Run(states, steps, hash) && j <= |steps|
  {
    if j == 0 then None
    else
      assert StepAt(states, steps, j - 1, hash);
      match Touch(states[j - 1], steps[j - 1], hash, h)
      case Some(t) => t
      case None => IndexByHistory(states, steps, hash, h, j - 1)
  }

  lemma {:induction false} TokenIndexLaw(states: seq<Cluster>, steps: seq<Step>, hash: string -> string, h: string, j: nat)
    requires Run(states, steps, hash) && j <= |steps|
    ensures IdAt(states[j].redis.tokens, h) == IndexByHistory(states, steps, hash, h, j)
    ensures h in states[j].redis.tokens ==> states[j].redis.tokens[h] in states[j].redis.devices
    decreases j
  {
    hide Next, Touch, AllSound;
    if j > 0 {
      TokenIndexLaw(states, steps, hash, h, j - 1);
      ClusterSound(states, steps, hash, j - 1);
      assert StepAt(states, steps, j - 1, hash);
      StepTouches(states[j - 1], steps[j - 1], states[j], hash, h);
    }
  }

  /**
    The token law of every run of any number of nodes: a node accepts a token exactly when its own cache
    holds an unrevoked record of its hash, or the last step that touched the hash's index entry set it
    for a device whose last writer neither revoked it nor held it revoked.
   */
  lemma ClusterTokenLaw(states: seq<Cluster>, steps: seq<Step>, hash: string -> string, j: nat, n: nat, token: string)
    requires Run(states, steps, hash) && j <= |steps| && n in states[j].nodes
    ensures var h := hash(token);
            var to := IndexByHistory(states, steps, hash, h, j);
            CheckToken(Node(states[j].nodes[n], Some(states[j].redis)), token, hash).0 <==>
            token != "" && (Scan(states[j].nodes[n], h) || (to.Some? && !RevokedByHistory(states, steps, hash, to.value, j)))
  {
    hide Run, Scan, LastWrite;
    var h := hash(token);
    TokenIndexLaw(states, steps, hash, h, j);
    var to := IndexByHistory(states, steps, hash, h, j);
    if to.Some? {
      RevokedFlagLaw(states, steps, hash, to.value, j);
    }
  }

  /**
    When a node accepts a token of a device withdrawn at step `i`: exactly when its own cache still holds
    it, or the index leads to the device and the last write of the device came after the withdrawal, is
    no revocation, and was made by a node that did not hold the device revoked.
   */
  lemma WithdrawnTokenAccepted(states: seq<Cluster>, steps: seq<Step>, hash: string -> string, d: string, i: nat, j: nat, n: nat, token: string)
    requires Run(states, steps, hash) && i < j <= |steps| && n in states[j].nodes
    requires steps[i].Local? && steps[i].op.DoRevoke? && Writes(states[i], steps[i], hash, d)
    requires IndexByHistory(states, steps, hash, hash(token), j) in {None, Some(d)}
    ensures var k := LastWrite(states, steps, hash, d, j);
            && k.Some? && i <= k.value
            && (CheckToken(Node(states[j].nodes[n], Some(states[j].redis)), token, hash).0 <==>
                token != "" &&
                (|| Scan(states[j].nodes[n], hash(token))
                 || (&& IndexByHistory(states, steps, hash, hash(token), j) == Some(d) && i < k.value
                     && !steps[k.value].op.DoRevoke? && !HeldRevoked(states[k.value].nodes[steps[k.value].node], d))))
  {
    hide StepAt, Scan, Writes, CheckToken;
    ClusterTokenLaw(states, steps, hash, j, n, token);
    LastWriteAfter(states, steps, hash, d, i, j);
  }

  // ----- when revocation is final -----

  /** Redis and every node hold `d` revoked. */
  ghost predicate Settled(s: Cluster, d: string) {
    HeldRevoked(s.redis.devices, d) && forall n :: n in s.nodes ==> HeldRevoked(s.nodes[n], d)
  }

  lemma PulledSettled(devices: Devices, remote: Devices, order: seq<string>, d: string)
    requires Sound(remote) && IsListing(order, remote.Keys) && HeldRevoked(devices, d) && HeldRevoked(remote, d)
    ensures HeldRevoked(Pulled(devices, remote, order), d)
  {
    hide Pulled, Blank;
    MergeIsPointwise(devices, remote, order);
    assert Get(Pulled(devices, remote, order), d) == Newer(Get(devices, d), Get(remote, d));
  }

  lemma StepKeepsSettled(s: Cluster, step: Step, s': Cluster, hash: string -> string, d: string)
    requires AllSound(s) && Next(s, step, s', hash) && Settled(s, d)
    ensures Settled(s', d)
  {
    hide Trim, Lower, Blank, NonBlank, KnownPlatform, Scan, HeldByTrusted, Pulled;
    if step.Pull? {
      PulledSettled(s.nodes[step.node], s.redis.devices, step.order, d);
    }
  }

  /** Once Redis and every node hold a device revoked, they do so at every later moment of the run. */
  lemma {:induction false} SettledForever(states: seq<Cluster>, steps: seq<Step>, hash: string -> string, d: string, i: nat, j: nat)
    requires Run(states, steps, hash) && i <= j <= |steps| && Settled(states[i], d)
    ensures Settled(states[j], d)
    decreases j
  {
    hide Next, Settled, AllSound;
    if i < j {
      SettledForever(states, steps, hash, d, i, j - 1);
      ClusterSound(states, steps, hash, j - 1);
      assert StepAt(states, steps, j - 1, hash);
      StepKeepsSettled(states[j - 1], steps[j - 1], states[j], hash, d);
    }
  }

  // ----- how a revocation is undone -----

  lemma Longer(states: seq<Cluster>, steps: seq<Step>, step: Step, next: Cluster, hash: string -> string)
    returns (states': seq<Cluster>, steps': seq<Step>)
    requires Run(states, steps, hash) && Next(states[|steps|], step, next, hash)
    ensures Run(states', steps', hash) && states'[|steps'|] == next && steps' == steps + [step]
  {
    hide Next;
    states', steps' := states + [next], steps + [step];
    forall i | 0 <= i < |steps'|
      ensures StepAt(states', steps', i, hash)
    {
      assert i < |steps| ==> StepAt(states, steps, i, hash);
    }
  }

  predicate PlainId(id: string) { Trim(id) == id != "" && '/' !in id }

  function Enrolment(id: string): EnrollRequest { EnrollRequest(Some(id), "linux", None, None) }

  function Enrolled(id: string, h: string, now: nat): Device {
    Device(id, None, None, None, now, false, Some("linux"), Some(now), Some(h))
  }

  function Withheld(id: string, h: string, now: nat): Device { Enrolled(id, h, now).(revoked := true, tokenHash := None) }

  function Held(id: string, d: Device): Redis { Redis(map[id := d], map[], map[], map[]) }

  function Indexed(id: string, h: string, d: Device): Redis { Redis(map[id := d], map[h := id], map[], map[]) }

  function Pair(first: Devices, second: Devices): map<nat, Devices> { map[0 := first, 1 := second] }

  lemma LinuxIsKnown()
    ensures KnownPlatform(Lower("linux")) && Lower("linux") == "linux"
  {
    assert Lower("linux") == "linux";
  }

  function Heard(id: string): Heartbeat { Heartbeat(id, None, None) }

  /** Node 0 enrols a device. */
  lemma EnrolStep(id: string, token: string, at: nat, hash: string -> string)
    requires PlainId(id)
    ensures var d := Enrolled(id, hash(token), at);
            Next(Cluster(Pair(map[], map[]), Redis(map[], map[], map[], map[])), Local(0, DoEnroll(Enrolment(id), "", token, at)),
                 Cluster(Pair(map[id := d], map[]), Indexed(id, hash(token), d)), hash)
  {
    hide Trim, Lower;
    LinuxIsKnown();
    var d, start := Enrolled(id, hash(token), at), Pair(map[], map[]);
    assert EnrolledDevice(None, id, Enrolment(id), hash(token), at) == d;
    assert start[0 := map[id := d]] == Pair(map[id := d], map[]);
  }

  /** Node 0 revokes the device it holds. */
  lemma RevokeStep(id: string, h: string, at: nat, other: Devices, hash: string -> string)
    requires PlainId(id)
    ensures var d, gone := Enrolled(id, h, at), Withheld(id, h, at);
            Next(Cluster(Pair(map[id := d], other), Indexed(id, h, d)), Local(0, DoRevoke(id)),
                 Cluster(Pair(map[id := gone], other), Held(id, gone)), hash)
  {
    hide Trim, Lower;
    var d, gone := Enrolled(id, h, at), Withheld(id, h, at);
    assert Pair(map[id := d], other)[0 := map[id := gone]] == Pair(map[id := gone], other);
    assert map[h := id] - {h} == map[];
    assert map[id := d][id := gone] == map[id := gone];
  }

  /** Node 1, holding what `mine` says of the device, hears from it. */
  lemma BeatStep(id: string, first: Devices, mine: Option<Device>, remote: Device, now: nat, hash: string -> string)
    requires PlainId(id) && (mine.Some? ==> mine.value.id == id && mine.value.certFingerprint == None && mine.value.certSerial == None)
    ensures var after := BeatDevice(mine, Heard(id), now);
            var second := if mine.Some? then map[id := mine.value] else map[];
            Next(Cluster(Pair(first, second), Held(id, remote)), Local(1, DoBeat(Heard(id), now)),
                 Cluster(Pair(first, map[id := after]),
                         if after.tokenHash.Some? then Indexed(id, after.tokenHash.value, after) else Held(id, after)), hash)
  {
    hide Trim, Lower;
    var after := BeatDevice(mine, Heard(id), now);
    var second := if mine.Some? then map[id := mine.value] else map[];
    assert second[id := after] == map[id := after];
    assert Pair(first, second)[1 := map[id := after]] == Pair(first, map[id := after]);
    assert map[id := remote][id := after] == map[id := after];
  }

  /** Node `n` pulls one newer record. */
  lemma PullStep(nodes: map<nat, Devices>, n: nat, h: string, d: Device, hash: string -> string)
    requires n in nodes && !Blank(d.id) && nodes[n].Keys <= {d.id} && (d.id in nodes[n] ==> nodes[n][d.id].lastSeen < d.lastSeen)
    ensures Next(Cluster(nodes, Indexed(d.id, h, d)), Pull(n, [d.id]), Cluster(nodes[n := map[d.id := d]], Indexed(d.id, h, d)), hash)
  {
    hide Blank;
    var remote := map[d.id := d];
    assert [d.id][..0] == [] && remote.Keys == {d.id};
    assert nodes[n][d.id := d] == remote;
    assert Pulled(nodes[n], remote, []) == nodes[n];
    assert Pulled(nodes[n], remote, [d.id]) == remote;
  }

  /** Node 0 enrols a device. */
  lemma EnrolledRun(id: string, token: string, at: nat, hash: string -> string) returns (states: seq<Cluster>, steps: seq<Step>)
    requires PlainId(id)
    ensures Run(states, steps, hash)
    ensures var d := Enrolled(id, hash(token), at);
            states[|steps|] == Cluster(Pair(map[id := d], map[]), Indexed(id, hash(token), d))
  {
    hide Next, StepAt;
    var d := Enrolled(id, hash(token), at);
    EnrolStep(id, token, at, hash);
    states, steps := [Cluster(Pair(map[], map[]), Redis(map[], map[], map[], map[]))], [];
    states, steps := Longer(states, steps, Local(0, DoEnroll(Enrolment(id), "", token, at)),
                            Cluster(Pair(map[id := d], map[]), Indexed(id, hash(token), d)), hash);
  }

  /**
    A revocation undone: node 0 enrols and revokes a device that node 1 has pulled in between; one later
    heartbeat on node 1 makes the record unrevoked in Redis and indexes its token again, and the next
    pull makes it unrevoked on the node that revoked it, which accepts the token.
   */
  lemma HeartbeatUndoes(id: string, token: string, at: nat, later: nat, hash: string -> string) returns (states: seq<Cluster>, steps: seq<Step>)
    requires PlainId(id) && token != "" && at < later
    ensures Run(states, steps, hash)
    ensures Local(0, DoRevoke(id)) in steps
    ensures var s := states[|steps|];
            && id in s.redis.devices && !s.redis.devices[id].revoked && IdAt(s.redis.tokens, hash(token)) == Some(id)
            && 0 in s.nodes && id in s.nodes[0] && !s.nodes[0][id].revoked
            && CheckToken(Node(s.nodes[0], Some(s.redis)), token, hash).0
  {
    hide Next, StepAt, Trim;
    var h := hash(token);
    var d, gone, back := Enrolled(id, h, at), Withheld(id, h, at), Enrolled(id, h, at).(lastSeen := later);
    var first, both := Pair(map[id := d], map[]), Pair(map[id := d], map[id := d]);
    states, steps := EnrolledRun(id, token, at, hash);
    PullStep(first, 1, h, d, hash);
    assert first[1 := map[id := d]] == both;
    states, steps := Longer(states, steps, Pull(1, [id]), Cluster(both, Indexed(id, h, d)), hash);
    RevokeStep(id, h, at, map[id := d], hash);
    states, steps := Longer(states, steps, Local(0, DoRevoke(id)), Cluster(Pair(map[id := gone], map[id := d]), Held(id, gone)), hash);
    BeatStep(id, map[id := gone], Some(d), gone, later, hash);
    var mixed := Pair(map[id := gone], map[id := back]);
    states, steps := Longer(states, steps, Local(1, DoBeat(Heard(id), later)), Cluster(mixed, Indexed(id, h, back)), hash);
    PullStep(mixed, 0, h, back, hash);
    var undone := mixed[0 := map[id := back]];
    states, steps := Longer(states, steps, Pull(0, [id]), Cluster(undone, Indexed(id, h, back)), hash);
    assert undone[0][id] == back;
  }

  /** A heartbeat on a node that never saw the device clears its revocation in Redis just the same. */
  lemma StrangerUndoes(id: string, token: string, at: nat, later: nat, hash: string -> string) returns (states: seq<Cluster>, steps: seq<Step>)
    requires PlainId(id)
    ensures Run(states, steps, hash)
    ensures Local(0, DoRevoke(id)) in steps
    ensures var s := states[|steps|]; id in s.redis.devices && !s.redis.devices[id].revoked
  {
    hide Next, StepAt, Trim;
    var h := hash(token);
    var gone, blank := Withheld(id, h, at), BeatDevice(None, Heard(id), later);
    states, steps := EnrolledRun(id, token, at, hash);
    RevokeStep(id, h, at, map[], hash);
    states, steps := Longer(states, steps, Local(0, DoRevoke(id)), Cluster(Pair(map[id := gone], map[]), Held(id, gone)), hash);
    BeatStep(id, map[id := gone], None, gone, later, hash);
    states, steps := Longer(states, steps, Local(1, DoBeat(Heard(id), later)),
                            Cluster(Pair(map[id := gone], map[id := blank]), Held(id, blank)), hash);
  }
}
