/**
  The agent certificate revocation list of `proxy/src/agent_crl.rs`: an entry vector and a CRL number
  on each node, written through to one shared Redis hash. Section 5.2.3 of RFC 5280 asks that a CRL
  number never goes back and that lists with the same number are the same list.
 */
module AgentCrl {
  import opened Certificates
  import opened Text

  datatype CrlEntry = CrlEntry(fingerprint: string, serial: Option<string>, deviceId: string, revokedAt: nat, reason: string)

  /** The Redis side: the hash of entries by fingerprint and the number key. */
  datatype Shared = Shared(entries: map<string, CrlEntry>, number: Option<nat>)

  /** One node's list. */
  datatype Node = Node(entries: seq<CrlEntry>, number: nat)

  datatype Revocation = Revocation(deviceId: string, fingerprint: Option<string>, serial: Option<string>, reason: string, now: nat)

  // ----- the operations on values -----

  /** `map(str::trim).filter(non-empty)`. */
  function Cleaned(s: Option<string>): Option<string> {
    if s.Some? && Trim(s.value) != "" then Some(Trim(s.value)) else None
  }

  predicate Has(entries: seq<CrlEntry>, fingerprint: string) {
    exists i :: 0 <= i < |entries| && entries[i].fingerprint == fingerprint
  }

  /** The entries after merging the remote ones named by `order`. */
  function Merged(entries: seq<CrlEntry>, remote: map<string, CrlEntry>, order: seq<string>): seq<CrlEntry>
    requires forall k :: k in order ==> k in remote
  {
    if order == [] then entries
    else
      var before := Merged(entries, remote, order[..|order| - 1]);
      var e := remote[order[|order| - 1]];
      if Has(before, e.fingerprint) then before else before + [e]
  }

  function Max(a: nat, b: nat): nat { if a > b then a else b }

  function Pulled(node: Node, shared: Shared, order: seq<string>): Node
    requires IsListing(order, shared.entries.Keys)
  {
    var remote := Max(if shared.number.Some? then shared.number.value else 1, 1);
    Node(Merged(node.entries, shared.entries, order), Max(node.number, remote))
  }

  function EntryFor(r: Revocation, fingerprint: string): (e: CrlEntry)
    ensures e.fingerprint == fingerprint
  {
    CrlEntry(fingerprint, match Cleaned(r.serial) case Some(s) => Some(Lower(s)) case None => None,
             r.deviceId, r.now, if r.reason == "" then "unspecified" else r.reason)
  }

  /** The fingerprint a revocation puts on the list, if any. */
  function Target(r: Revocation): Option<string> {
    match Cleaned(r.fingerprint) case Some(f) => Some(Lower(f)) case None => None
  }

  /** The entry tells all of the revocation: keys trimmed and in lower case, and who, when and why. */
  predicate Tells(e: CrlEntry, r: Revocation) {
    && Present(r.fingerprint) && e.fingerprint == Lower(Trim(r.fingerprint.value))
    && e.serial.Some? == Present(r.serial) && (e.serial.Some? ==> e.serial.value == Lower(Trim(r.serial.value)))
    && e.deviceId == r.deviceId && e.revokedAt == r.now
    && (r.reason != "" ==> e.reason == r.reason) && (r.reason == "" ==> e.reason == "unspecified")
  }

  /** A revocation is for the list exactly when its fingerprint is not blank, and its entry tells all of it. */
  lemma EntryTells(r: Revocation)
    ensures Target(r).Some? <==> Present(r.fingerprint)
    ensures Target(r).Some? ==> Tells(EntryFor(r, Target(r).value), r)
  {
    hide Trim, Lower;
  }

  function Revoked(node: Node, r: Revocation, fingerprint: string): Node {
    if Has(node.entries, fingerprint) then node
    else Node(node.entries + [EntryFor(r, fingerprint)], node.number + 1)
  }

  /** A list without Redis takes a revocation. */
  function Taken(node: Node, r: Revocation): Node {
    match Target(r) case None => node case Some(f) => Revoked(node, r, f)
  }

  function Published(shared: Shared, e: CrlEntry, number: nat): Shared {
    Shared(shared.entries[e.fingerprint := e], Some(number))
  }

  /** `is_fingerprint_revoked`, after its pull. */
  predicate ListedFingerprint(node: Node, fingerprint: string) {
    fingerprint != "" && exists i :: 0 <= i < |node.entries| && Lower(node.entries[i].fingerprint) == Lower(fingerprint)
  }

  predicate EntryHolds(e: CrlEntry, key: Key, value: string) {
    if key.Fingerprint? then Lower(e.fingerprint) == Lower(value)
    else e.serial.Some? && Lower(e.serial.value) == Lower(value)
  }

  predicate FirstHolding(entries: seq<CrlEntry>, key: Key, value: string, i: nat) {
    && i < |entries| && EntryHolds(entries[i], key, value)
    && forall j :: 0 <= j < i ==> !EntryHolds(entries[j], key, value)
  }

  /** The first entry that holds the key. */
  function EntryBy(entries: seq<CrlEntry>, key: Key, value: string): Option<CrlEntry> {
    if entries == [] then None
    else if EntryHolds(entries[0], key, value) then Some(entries[0])
    else EntryBy(entries[1..], key, value)
  }

  /** An entry is found exactly when one holds the key, and it is the first that does. */
  lemma {:induction false} EntryByIs(entries: seq<CrlEntry>, key: Key, value: string)
    ensures var r := EntryBy(entries, key, value);
            && (r.None? <==> forall e :: e in entries ==> !EntryHolds(e, key, value))
            && (r.Some? ==> exists i: nat :: FirstHolding(entries, key, value, i) && r.value == entries[i])
  {
    hide EntryHolds;
    if entries != [] {
      if EntryHolds(entries[0], key, value) {
        assert FirstHolding(entries, key, value, 0);
      } else {
        var rest := entries[1..];
        EntryByIs(rest, key, value);
        var r := EntryBy(rest, key, value);
        if r.Some? {
          var i: nat :| FirstHolding(rest, key, value, i) && r.value == rest[i];
          assert forall j :: 1 <= j <= i + 1 ==> entries[j] == rest[j - 1];
          assert FirstHolding(entries, key, value, i + 1);
        }
      }
    }
  }

  // ----- the locked object -----

  class RedisCrl {
    var entries: map<string, CrlEntry>
    var number: Option<nat>

    function Value(): Shared
      reads this
    {
      Shared(entries, number)
    }
  }

  class CrlHandle {
    var entries: seq<CrlEntry>
    var number: nat
    const redis: RedisCrl?

    constructor (redis: RedisCrl?)
      ensures this.redis == redis && Value() == Node([], 1)
    {
      this.redis := redis;
      entries, number := [], 1;
    }

    function Value(): Node
      reads this
    {
      Node(entries, number)
    }

    /** `pull_from_redis`: the hash is walked in whatever order it comes. */
    method Pull() returns (added: nat, ghost order: seq<string>)
      modifies this
      ensures redis == null ==> Value() == old(Value())
      ensures redis != null ==>
        IsListing(order, redis.entries.Keys) && Value() == Pulled(old(Value()), redis.Value(), order)
      ensures added == |entries| - |old(entries)|
    {
      if redis == null {
        return 0, [];
      }
      var remote := redis.entries;
      var todo := remote.Keys;
      added, order := 0, [];
      while todo != {}
        invariant todo <= remote.Keys
        invariant IsListing(order, remote.Keys - todo)
        invariant number == old(number)
        invariant entries == Merged(old(entries), remote, order)
        invariant added == |entries| - |old(entries)|
        decreases todo
      {
        var k :| k in todo;
        var entry := remote[k];
        todo := todo - {k};
        assert (order + [k])[..|order|] == order;
        order := order + [k];
        var found := Contains(entries, entry.fingerprint);
        if found {
          continue;
        }
        entries := entries + [entry];
        added := added + 1;
      }
      assert remote.Keys - todo == remote.Keys;
      var remoteNumber := Max(if redis.number.Some? then redis.number.value else 1, 1);
      if remoteNumber > number {
        number := remoteNumber;
      }
    }

    /** `entry_by_fingerprint` and `entry_by_serial`: pull, then the first entry that holds the key. */
    method Entry(key: Key, value: string) returns (r: Option<CrlEntry>, ghost order: seq<string>)
      modifies this
      ensures value == "" || redis == null ==> Value() == old(Value())
      ensures value != "" && redis != null ==>
        IsListing(order, redis.entries.Keys) && Value() == Pulled(old(Value()), redis.Value(), order)
      ensures r == if value == "" then None else EntryBy(entries, key, value)
    {
      hide Lower;
      if value == "" {
        return None, [];
      }
      var pulled;
      pulled, order := Pull();
      for i := 0 to |entries|
        invariant EntryBy(entries, key, value) == EntryBy(entries[i..], key, value)
      {
        assert entries[i..][1..] == entries[i + 1..];
        if EntryHolds(entries[i], key, value) {
          return Some(entries[i]), order;
        }
      }
      return None, order;
    }

    /** `revoke`: pull, add once, number, publish. */
    method Revoke(r: Revocation) returns (added: bool, ghost order: seq<string>)
      modifies this, redis
      ensures Target(r).None? ==> !added && Value() == old(Value()) && (redis != null ==> redis.Value() == old(redis.Value()))
      ensures redis == null ==>
        Value() == Taken(old(Value()), r) && (added <==> Target(r).Some? && !Has(old(entries), Target(r).value))
      ensures redis != null && Target(r).Some? ==>
        && IsListing(order, old(redis.entries.Keys))
        && var f, pulled := Target(r).value, Pulled(old(Value()), old(redis.Value()), order);
        && added == !Has(pulled.entries, f)
        && Value() == Revoked(pulled, r, f)
        && redis.Value() == if added then Published(old(redis.Value()), EntryFor(r, f), number) else old(redis.Value())
    {
      hide Trim, Lower, Merged;
      added, order := false, [];
      var cleaned := Cleaned(r.fingerprint);
      if cleaned.None? {
        return;
      }
      var fp := Lower(cleaned.value);
      var pulled;
      pulled, order := Pull();
      var found := Contains(entries, fp);
      if found {
        return;
      }
      var entry := EntryFor(r, fp);
      entries := entries + [entry];
      number := number + 1;
      added := true;
      if redis != null {
        redis.entries := redis.entries[entry.fingerprint := entry];
        redis.number := Some(number);
      }
    }
  }

  method Contains(entries: seq<CrlEntry>, fingerprint: string) returns (found: bool)
    ensures found == Has(entries, fingerprint)
  {
    for i := 0 to |entries|
      invariant forall j :: 0 <= j < i ==> entries[j].fingerprint != fingerprint
    {
      if entries[i].fingerprint == fingerprint {
        return true;
      }
    }
    return false;
  }

  lemma {:induction false} MergedHolds(entries: seq<CrlEntry>, remote: map<string, CrlEntry>, order: seq<string>)
    requires forall k :: k in order ==> k in remote
    ensures entries <= Merged(entries, remote, order)
    ensures forall k :: k in order ==> Has(Merged(entries, remote, order), remote[k].fingerprint)
  {
    if order != [] {
      var last := |order| - 1;
      var before, m, e := Merged(entries, remote, order[..last]), Merged(entries, remote, order), remote[order[last]];
      MergedHolds(entries, remote, order[..last]);
      assert !Has(before, e.fingerprint) ==> m[|before|] == e;
      forall f | Has(before, f)
        ensures Has(m, f)
      {
        HasLonger(before, m, f);
      }
      assert order == order[..last] + [order[last]];
    }
  }

  lemma HasLonger(entries: seq<CrlEntry>, more: seq<CrlEntry>, f: string)
    requires entries <= more && Has(entries, f)
    ensures Has(more, f)
  {
    var i :| 0 <= i < |entries| && entries[i].fingerprint == f;
    assert more[i].fingerprint == f;
  }

  lemma {:induction false} MergedNothing(entries: seq<CrlEntry>, remote: map<string, CrlEntry>, order: seq<string>)
    requires forall k :: k in order ==> k in remote && Has(entries, remote[k].fingerprint)
    ensures Merged(entries, remote, order) == entries
  {
    if order != [] {
      MergedNothing(entries, remote, order[..|order| - 1]);
    }
  }

  /** Pulling twice is pulling once, in whatever orders. */
  lemma PullTwice(node: Node, shared: Shared, order: seq<string>, order': seq<string>)
    requires IsListing(order, shared.entries.Keys) && IsListing(order', shared.entries.Keys)
    ensures Pulled(Pulled(node, shared, order), shared, order') == Pulled(node, shared, order)
  {
    hide Has;
    MergedHolds(node.entries, shared.entries, order);
    MergedNothing(Merged(node.entries, shared.entries, order), shared.entries, order');
  }

  // ----- any number of nodes over one shared hash -----

  datatype Cluster = Cluster(nodes: map<nat, Node>, shared: Shared)

  /** A lookup pulls before it answers, so its effect on the cluster is a pull. */
  datatype Step = Revoke(node: nat, revocation: Revocation, order: seq<string>) | Pull(node: nat, order: seq<string>)

  ghost predicate Next(s: Cluster, step: Step, s': Cluster) {
    && step.node in s.nodes && IsListing(step.order, s.shared.entries.Keys)
    && var node := s.nodes[step.node];
    match step
    case Pull(n, order) => s' == s.(nodes := s.nodes[n := Pulled(node, s.shared, order)])
    case Revoke(n, r, order) =>
      match Target(r)
      case None => s' == s
      case Some(f) =>
        var pulled := Pulled(node, s.shared, order);
        var after := Revoked(pulled, r, f);
        var shared := if Has(pulled.entries, f) then s.shared else Published(s.shared, EntryFor(r, f), after.number);
        s' == Cluster(s.nodes[n := after], shared)
  }

  ghost predicate Starts(s: Cluster) {
    && s.shared == Shared(map[], None)
    && forall n :: n in s.nodes ==> s.nodes[n] == Node([], 1)
  }

  ghost predicate Run(states: seq<Cluster>, steps: seq<Step>) {
    && |states| == |steps| + 1 && Starts(states[0])
    && forall i :: 0 <= i < |steps| ==> StepAt(states, steps, i)
  }

  ghost predicate StepAt(states: seq<Cluster>, steps: seq<Step>, i: nat) {
    i < |steps| && i + 1 < |states| && Next(states[i], steps[i], states[i + 1])
  }

  // ----- the invariant: every node holds a prefix of one history -----

  predicate IsHistory(hist: seq<CrlEntry>) {
    && (forall i, j :: 0 <= i < j < |hist| ==> hist[i].fingerprint != hist[j].fingerprint)
    && (forall i :: 0 <= i < |hist| ==> Lower(hist[i].fingerprint) == hist[i].fingerprint != "")
  }

  /** The hash holds exactly the history, keyed by fingerprint. */
  ghost predicate EntriesHold(entries: map<string, CrlEntry>, hist: seq<CrlEntry>) {
    && (forall i :: 0 <= i < |hist| ==> hist[i].fingerprint in entries && entries[hist[i].fingerprint] == hist[i])
    && (forall k :: k in entries ==> exists i :: 0 <= i < |hist| && hist[i].fingerprint == k)
  }

  function NumberOf(hist: seq<CrlEntry>): Option<nat> { if hist == [] then None else Some(|hist| + 1) }

  /** The hash holds exactly the history and the number counts it. */
  ghost predicate SharedHolds(shared: Shared, hist: seq<CrlEntry>) {
    EntriesHold(shared.entries, hist) && shared.number == NumberOf(hist)
  }

  /** The node holds the first `number - 1` revocations, in some order. */
  ghost predicate NodeHolds(node: Node, hist: seq<CrlEntry>) {
    && 1 <= node.number <= |hist| + 1
    && multiset(node.entries) == multiset(hist[..node.number - 1])
  }

  ghost predicate Inv(s: Cluster, hist: seq<CrlEntry>) {
    && IsHistory(hist) && SharedHolds(s.shared, hist)
    && forall n :: n in s.nodes ==> NodeHolds(s.nodes[n], hist)
  }

  predicate Distinct(entries: seq<CrlEntry>) {
    forall i, j :: 0 <= i < j < |entries| ==> entries[i].fingerprint != entries[j].fingerprint
  }

  lemma {:induction false} CountDistinct(entries: seq<CrlEntry>, e: CrlEntry)
    requires Distinct(entries)
    ensures multiset(entries)[e] == if e in entries then 1 else 0
  {
    if entries != [] {
      var last := |entries| - 1;
      CountDistinct(entries[..last], e);
      assert entries == entries[..last] + [entries[last]];
    }
  }

  lemma SameEntries(a: seq<CrlEntry>, b: seq<CrlEntry>)
    requires Distinct(a) && Distinct(b) && forall e :: e in a <==> e in b
    ensures multiset(a) == multiset(b)
  {
    forall e
      ensures multiset(a)[e] == multiset(b)[e]
    {
      CountDistinct(a, e);
      CountDistinct(b, e);
    }
  }

  lemma {:induction false} DistinctOfMultiset(a: seq<CrlEntry>, b: seq<CrlEntry>)
    requires Distinct(b) && multiset(a) == multiset(b)
    ensures Distinct(a)
    ensures forall e :: e in a <==> e in b
  {
    forall e
      ensures e in a <==> e in b
    {
      assert e in multiset(a) <==> e in multiset(b);
    }
    forall i, j | 0 <= i < j < |a|
      ensures a[i].fingerprint != a[j].fingerprint
    {
      assert a[i] in b && a[j] in b;
      if a[i] == a[j] {
        TwiceCounted(a, i, j);
        CountDistinct(b, a[i]);
      }
    }
  }

  lemma TwiceCounted(a: seq<CrlEntry>, i: nat, j: nat)
    requires i < j < |a| && a[i] == a[j]
    ensures multiset(a)[a[i]] >= 2
  {
    assert a == a[..i] + [a[i]] + a[i + 1..j] + [a[j]] + a[j + 1..];
    assert multiset(a) == multiset(a[..i]) + multiset{a[i]} + multiset(a[i + 1..j]) + multiset{a[j]} + multiset(a[j + 1..]);
  }

  lemma {:induction false} MergedIs(entries: seq<CrlEntry>, remote: map<string, CrlEntry>, order: seq<string>, hist: seq<CrlEntry>)
    requires Distinct(entries) && forall e :: e in entries ==> e in hist
    requires forall k :: k in order ==> k in remote && remote[k] in hist && remote[k].fingerprint == k
    ensures var m := Merged(entries, remote, order);
            && Distinct(m) && (forall e :: e in m ==> e in hist) && (forall k :: k in order ==> Has(m, k))
            && (forall k :: Has(entries, k) ==> Has(m, k))
  {
    if order != [] {
      var last := |order| - 1;
      var before := Merged(entries, remote, order[..last]);
      MergedIs(entries, remote, order[..last], hist);
      var e := remote[order[last]];
      assert order == order[..last] + [order[last]];
      if !Has(before, e.fingerprint) {
        var m := before + [e];
        assert m[|before|] == e;
        forall k | Has(before, k)
          ensures Has(m, k)
        {
          var i :| 0 <= i < |before| && before[i].fingerprint == k;
          assert m[i].fingerprint == k;
        }
      }
    }
  }

  lemma HistoryPart(hist: seq<CrlEntry>, k: nat)
    requires IsHistory(hist) && k <= |hist|
    ensures IsHistory(hist[..k])
  {
  }

  /** In a part of a history, a fingerprint stands for its whole entry. */
  lemma SameEntry(m: seq<CrlEntry>, hist: seq<CrlEntry>, e: CrlEntry)
    requires IsHistory(hist) && e in hist && (forall x :: x in m ==> x in hist) && Has(m, e.fingerprint)
    ensures e in m
  {
    var i :| 0 <= i < |m| && m[i].fingerprint == e.fingerprint;
    assert m[i] in hist;
  }

  /** The hash of a history gives each of its entries under its own fingerprint. */
  lemma EntriesAre(entries: map<string, CrlEntry>, hist: seq<CrlEntry>, k: string)
    requires EntriesHold(entries, hist) && k in entries
    ensures entries[k] in hist && entries[k].fingerprint == k
  {
    var i :| 0 <= i < |hist| && hist[i].fingerprint == k;
  }

  /** Merging a hash of the first `p` revocations brings a node to the longer of the two prefixes. */
  lemma MergedHoldsPrefix(node: Node, remote: map<string, CrlEntry>, order: seq<string>, hist: seq<CrlEntry>, p: nat)
    requires IsHistory(hist) && NodeHolds(node, hist) && p <= |hist| && EntriesHold(remote, hist[..p])
    requires IsListing(order, remote.Keys)
    ensures multiset(Merged(node.entries, remote, order)) == multiset(hist[..Max(node.number, p + 1) - 1])
  {
    hide Merged, EntriesHold, IsHistory, Has, Distinct;
    var m, whole := Merged(node.entries, remote, order), hist[..Max(node.number, p + 1) - 1];
    HistoryPart(hist, |whole|);
    HistoryDistinct(whole);
    MergedWithin(node, remote, order, hist, p);
    forall e | e in whole
      ensures e in m
    {
      PrefixMerged(node, remote, order, hist, p, m, e);
      SameEntry(m, whole, e);
    }
    SameEntries(m, whole);
  }

  /** Everything a merge leaves is of the longer prefix, once each, and nothing is dropped. */
  lemma MergedWithin(node: Node, remote: map<string, CrlEntry>, order: seq<string>, hist: seq<CrlEntry>, p: nat)
    requires IsHistory(hist) && NodeHolds(node, hist) && p <= |hist| && EntriesHold(remote, hist[..p])
    requires IsListing(order, remote.Keys)
    ensures var m := Merged(node.entries, remote, order);
            && Distinct(m) && (forall e :: e in m ==> e in hist[..Max(node.number, p + 1) - 1])
            && (forall k :: k in order ==> Has(m, k)) && (forall k :: Has(node.entries, k) ==> Has(m, k))
  {
    hide Merged, EntriesHold, IsHistory, Has, Distinct;
    var whole, own := hist[..Max(node.number, p + 1) - 1], hist[..node.number - 1];
    HistoryPart(hist, |own|);
    HistoryDistinct(own);
    DistinctOfMultiset(node.entries, own);
    PartOf(hist, |own|, |whole|);
    PartOf(hist, p, |whole|);
    forall k | k in order
      ensures k in remote && remote[k] in whole && remote[k].fingerprint == k
    {
      EntriesAre(remote, hist[..p], k);
    }
    MergedIs(node.entries, remote, order, whole);
  }

  lemma PartOf(hist: seq<CrlEntry>, a: nat, b: nat)
    requires a <= b <= |hist|
    ensures forall e :: e in hist[..a] ==> e in hist[..b]
  {
    assert forall i :: 0 <= i < a ==> hist[..a][i] == hist[..b][i];
  }

  lemma HistoryDistinct(hist: seq<CrlEntry>)
    requires IsHistory(hist)
    ensures Distinct(hist)
  {
  }

  lemma PrefixMerged(node: Node, remote: map<string, CrlEntry>, order: seq<string>, hist: seq<CrlEntry>, p: nat, m: seq<CrlEntry>, e: CrlEntry)
    requires NodeHolds(node, hist) && p <= |hist| && EntriesHold(remote, hist[..p]) && IsListing(order, remote.Keys)
    requires e in hist[..Max(node.number, p + 1) - 1]
    requires (forall k :: k in order ==> Has(m, k)) && (forall k :: Has(node.entries, k) ==> Has(m, k))
    ensures Has(m, e.fingerprint)
  {
    if node.number >= p + 1 {
      assert e in multiset(hist[..node.number - 1]) && e in multiset(node.entries);
      var i :| 0 <= i < |node.entries| && node.entries[i] == e;
      assert Has(node.entries, e.fingerprint);
    } else {
      var i :| 0 <= i < p && hist[..p][i] == e;
      assert e.fingerprint in order;
    }
  }

  /** A pull brings a node to the whole history. */
  lemma PullCatchesUp(node: Node, shared: Shared, order: seq<string>, hist: seq<CrlEntry>)
    requires IsHistory(hist) && SharedHolds(shared, hist) && NodeHolds(node, hist)
    requires IsListing(order, shared.entries.Keys)
    ensures var p := Pulled(node, shared, order); p.number == |hist| + 1 && multiset(p.entries) == multiset(hist)
  {
    hide Merged, EntriesHold, IsHistory, IsListing;
    assert hist[..|hist|] == hist;
    MergedHoldsPrefix(node, shared.entries, order, hist, |hist|);
  }

  /** A shorter history is still held when the history grows. */
  lemma HoldsLonger(node: Node, hist: seq<CrlEntry>, e: CrlEntry)
    requires NodeHolds(node, hist)
    ensures NodeHolds(node, hist + [e])
  {
    assert (hist + [e])[..node.number - 1] == hist[..node.number - 1];
  }

  lemma FullNodeHolds(node: Node, hist: seq<CrlEntry>)
    requires node.number == |hist| + 1 && multiset(node.entries) == multiset(hist)
    ensures NodeHolds(node, hist)
    ensures forall f :: Has(node.entries, f) <==> Has(hist, f)
  {
    assert hist[..|hist|] == hist;
    forall e
      ensures e in node.entries <==> e in hist
    {
      assert e in multiset(node.entries) <==> e in multiset(hist);
    }
    forall f
      ensures Has(node.entries, f) <==> Has(hist, f)
    {
      if Has(hist, f) {
        var i :| 0 <= i < |hist| && hist[i].fingerprint == f;
        assert hist[i] in node.entries;
      }
      if Has(node.entries, f) {
        var i :| 0 <= i < |node.entries| && node.entries[i].fingerprint == f;
        assert node.entries[i] in hist;
      }
    }
  }

  lemma PublishExtends(shared: Shared, hist: seq<CrlEntry>, e: CrlEntry)
    requires IsHistory(hist) && SharedHolds(shared, hist) && !Has(hist, e.fingerprint)
    requires Lower(e.fingerprint) == e.fingerprint != ""
    ensures IsHistory(hist + [e]) && SharedHolds(Published(shared, e, |hist| + 2), hist + [e])
  {
    var more, after := hist + [e], Published(shared, e, |hist| + 2);
    forall k | k in after.entries
      ensures exists i :: 0 <= i < |more| && more[i].fingerprint == k
    {
      if k == e.fingerprint {
        assert more[|hist|].fingerprint == k;
      } else {
        var i :| 0 <= i < |hist| && hist[i].fingerprint == k;
        assert more[i].fingerprint == k;
      }
    }
  }

  /** What a step does to the history: at most one new entry at the end. */
  function Extended(hist: seq<CrlEntry>, step: Step): seq<CrlEntry> {
    if step.Revoke? && Target(step.revocation).Some? && !Has(hist, Target(step.revocation).value) then
      hist + [EntryFor(step.revocation, Target(step.revocation).value)]
    else hist
  }

  lemma TrimmedTargetNonEmpty(r: Revocation)
    requires Target(r).Some?
    ensures Lower(Target(r).value) == Target(r).value != ""
  {
    LowerIdempotent(Trim(r.fingerprint.value));
  }

  lemma AddKeepsInv(s: Cluster, n: nat, pulled: Node, e: CrlEntry, hist: seq<CrlEntry>)
    requires Inv(s, hist) && n in s.nodes && !Has(hist, e.fingerprint)
    requires pulled.number == |hist| + 1 && multiset(pulled.entries) == multiset(hist)
    requires Lower(e.fingerprint) == e.fingerprint != ""
    ensures var after := Node(pulled.entries + [e], pulled.number + 1);
            Inv(Cluster(s.nodes[n := after], Published(s.shared, e, after.number)), hist + [e])
  {
    PublishExtends(s.shared, hist, e);
    forall m | m in s.nodes
      ensures NodeHolds(s.nodes[m], hist + [e])
    {
      HoldsLonger(s.nodes[m], hist, e);
    }
    FullNodeHolds(Node(pulled.entries + [e], pulled.number + 1), hist + [e]);
  }

  lemma StepKeepsInv(s: Cluster, step: Step, s': Cluster, hist: seq<CrlEntry>)
    requires Inv(s, hist) && Next(s, step, s')
    ensures Inv(s', Extended(hist, step))
  {
    hide Merged, Has, IsListing, EntriesHold, IsHistory, EntryFor, Cleaned, Lower;
    var node := s.nodes[step.node];
    PullCatchesUp(node, s.shared, step.order, hist);
    var pulled := Pulled(node, s.shared, step.order);
    FullNodeHolds(pulled, hist);
    if step.Revoke? && Target(step.revocation).Some? {
      var f := Target(step.revocation).value;
      if !Has(hist, f) {
        TrimmedTargetNonEmpty(step.revocation);
        AddKeepsInv(s, step.node, pulled, EntryFor(step.revocation, f), hist);
      }
    }
  }

  /** The revocations of a run, in order. */
  function History(steps: seq<Step>): seq<CrlEntry> {
    if steps == [] then [] else Extended(History(steps[..|steps| - 1]), steps[|steps| - 1])
  }

  lemma {:induction false} RunKeepsInv(states: seq<Cluster>, steps: seq<Step>, i: nat)
    requires Run(states, steps) && i <= |steps|
    ensures Inv(states[i], History(steps[..i]))
    decreases i
  {
    if i > 0 {
      RunKeepsInv(states, steps, i - 1);
      assert steps[..i][..i - 1] == steps[..i - 1];
      assert StepAt(states, steps, i - 1);
      StepKeepsInv(states[i - 1], steps[i - 1], states[i], History(steps[..i - 1]));
    }
  }

  lemma {:induction false} HistoryGrows(steps: seq<Step>, i: nat, j: nat)
    requires i <= j <= |steps|
    ensures History(steps[..i]) <= History(steps[..j])
    decreases j
  {
    if i < j {
      assert steps[..j][..j - 1] == steps[..j - 1];
      HistoryGrows(steps, i, j - 1);
    }
  }

  /** What numbers say of two lists. */
  ghost predicate Numbered(x: Node, y: Node) {
    && x.number == |x.entries| + 1
    && (x.number <= y.number ==> multiset(x.entries) <= multiset(y.entries))
    && (x.number == y.number ==> multiset(x.entries) == multiset(y.entries))
    && Distinct(x.entries) && (forall e :: e in x.entries ==> Lower(e.fingerprint) == e.fingerprint)
  }

  /** Lists that hold parts of one history are numbered by it. */
  lemma HistoryNumbers(x: Node, y: Node, hist: seq<CrlEntry>)
    requires IsHistory(hist) && NodeHolds(x, hist) && NodeHolds(y, hist)
    ensures Numbered(x, y)
  {
    hide Lower;
    PrefixHeld(x, y, hist);
    PrefixHeld(y, x, hist);
    DistinctOfMultiset(x.entries, hist[..x.number - 1]);
  }

  /**
    The numbering law, at any two moments of any run and on any two nodes: the number is one more than
    the entry count, equal numbers mean equal lists, a smaller number means a sublist, and on every
    list fingerprints are distinct and lower-case.
   */
  lemma NumberingLaw(states: seq<Cluster>, steps: seq<Step>, i: nat, j: nat, a: nat, b: nat)
    requires Run(states, steps) && i <= |steps| && j <= |steps|
    requires a in states[i].nodes && b in states[j].nodes
    ensures Numbered(states[i].nodes[a], states[j].nodes[b])
  {
    hide StepAt, Numbered, NodeHolds, SharedHolds, IsHistory, History;
    var top := if i <= j then j else i;
    HeldLater(states, steps, i, top, a);
    HeldLater(states, steps, j, top, b);
    RunKeepsInv(states, steps, top);
    HistoryNumbers(states[i].nodes[a], states[j].nodes[b], History(steps[..top]));
  }

  lemma HeldLater(states: seq<Cluster>, steps: seq<Step>, i: nat, j: nat, n: nat)
    requires Run(states, steps) && i <= j <= |steps| && n in states[i].nodes
    ensures NodeHolds(states[i].nodes[n], History(steps[..j]))
  {
    hide StepAt, History, NodeHolds, SharedHolds, IsHistory;
    RunKeepsInv(states, steps, i);
    HistoryGrows(steps, i, j);
    HeldLonger(states[i].nodes[n], History(steps[..i]), History(steps[..j]));
  }

  /** What is held of a history is held of every longer one. */
  lemma HeldLonger(x: Node, early: seq<CrlEntry>, late: seq<CrlEntry>)
    requires NodeHolds(x, early) && early <= late
    ensures NodeHolds(x, late)
  {
    assert early[..x.number - 1] == late[..x.number - 1];
  }

  lemma PrefixHeld(x: Node, y: Node, h: seq<CrlEntry>)
    requires NodeHolds(x, h) && NodeHolds(y, h)
    ensures |x.entries| == x.number - 1
    ensures x.number <= y.number ==> multiset(x.entries) <= multiset(y.entries)
  {
    assert |multiset(x.entries)| == |multiset(h[..x.number - 1])|;
    if x.number <= y.number {
      assert h[..y.number - 1] == h[..x.number - 1] + h[x.number - 1..y.number - 1];
    }
  }

  /** Along a run no node's number goes back and no node loses an entry. */
  lemma {:induction false} NothingLost(states: seq<Cluster>, steps: seq<Step>, i: nat, j: nat, n: nat)
    requires Run(states, steps) && i <= j <= |steps| && n in states[i].nodes
    ensures n in states[j].nodes
    ensures states[i].nodes[n].number <= states[j].nodes[n].number
    ensures multiset(states[i].nodes[n].entries) <= multiset(states[j].nodes[n].entries)
    decreases j
  {
    if i < j {
      NothingLost(states, steps, i, j - 1, n);
      assert StepAt(states, steps, j - 1);
      NumberingLaw(states, steps, j - 1, j, n, n);
    }
  }

  /**
    Revocation spreads: once any node has revoked a fingerprint, every later lookup on every node,
    under any spelling of case, finds it.
   */
  lemma RevocationSpreads(states: seq<Cluster>, steps: seq<Step>, i: nat, j: nat, b: nat, order: seq<string>, query: string)
    requires Run(states, steps) && i < j <= |steps| && steps[i].Revoke?
    requires Target(steps[i].revocation).Some? && Lower(query) == Target(steps[i].revocation).value
    requires b in states[j].nodes && IsListing(order, states[j].shared.entries.Keys)
    ensures ListedFingerprint(Pulled(states[j].nodes[b], states[j].shared, order), query)
  {
    var f := Target(steps[i].revocation).value;
    TrimmedTargetNonEmpty(steps[i].revocation);
    RunKeepsInv(states, steps, j);
    HistoryGrows(steps, i + 1, j);
    var early, h := History(steps[..i + 1]), History(steps[..j]);
    assert steps[..i + 1][..i] == steps[..i];
    assert Has(early, f) by {
      if !Has(History(steps[..i]), f) {
        assert early[|early| - 1].fingerprint == f;
      }
    }
    var k :| 0 <= k < |early| && early[k].fingerprint == f;
    assert h[k].fingerprint == f;
    var p := Pulled(states[j].nodes[b], states[j].shared, order);
    PullCatchesUp(states[j].nodes[b], states[j].shared, order, h);
    FullNodeHolds(p, h);
    assert Has(p.entries, f);
    LowerIdempotent(query);
  }

  /** The step is a revocation that finds its fingerprint on no list its node can see. */
  ghost predicate AddsEntry(s: Cluster, step: Step) {
    && step.Revoke? && step.node in s.nodes && IsListing(step.order, s.shared.entries.Keys) && Present(step.revocation.fingerprint)
    && !Has(Pulled(s.nodes[step.node], s.shared, step.order).entries, Lower(Trim(step.revocation.fingerprint.value)))
  }

  lemma AddedToHistory(states: seq<Cluster>, steps: seq<Step>, i: nat)
    requires Run(states, steps) && i < |steps| && AddsEntry(states[i], steps[i])
    ensures var r := steps[i].revocation;
            Target(r).Some? && EntryFor(r, Target(r).value) in History(steps[..i + 1])
  {
    hide StepAt, Trim, Lower, EntryFor, Merged, Has;
    var r, h := steps[i].revocation, History(steps[..i]);
    RunKeepsInv(states, steps, i);
    var p := Pulled(states[i].nodes[steps[i].node], states[i].shared, steps[i].order);
    PullCatchesUp(states[i].nodes[steps[i].node], states[i].shared, steps[i].order, h);
    FullNodeHolds(p, h);
    assert steps[..i + 1][..i] == steps[..i];
    assert !Has(h, Target(r).value);
    var more := h + [EntryFor(r, Target(r).value)];
    assert more[|h|] in more;
  }

  /**
    All that a revocation says spreads: once any node has added one, every later lookup on every node
    sees an entry with its device, time, reason, fingerprint and serial.
   */
  lemma EntrySpreads(states: seq<Cluster>, steps: seq<Step>, i: nat, j: nat, b: nat, order: seq<string>) returns (e: CrlEntry)
    requires Run(states, steps) && i < j <= |steps| && AddsEntry(states[i], steps[i])
    requires b in states[j].nodes && IsListing(order, states[j].shared.entries.Keys)
    ensures e in Pulled(states[j].nodes[b], states[j].shared, order).entries && Tells(e, steps[i].revocation)
  {
    hide StepAt, Trim, Lower, EntryFor, Merged, History, Target;
    AddedToHistory(states, steps, i);
    EntryTells(steps[i].revocation);
    e := EntryFor(steps[i].revocation, Target(steps[i].revocation).value);
    HistoryGrows(steps, i + 1, j);
    RunKeepsInv(states, steps, j);
    var h, p := History(steps[..j]), Pulled(states[j].nodes[b], states[j].shared, order);
    PullCatchesUp(states[j].nodes[b], states[j].shared, order, h);
    var k :| 0 <= k < |History(steps[..i + 1])| && History(steps[..i + 1])[k] == e;
    assert h[k] == e;
    assert e in multiset(h) && e in multiset(p.entries);
  }

  /** So a lookup by the serial of an added revocation finds an entry on every node, in any case. */
  lemma SerialSpreads(states: seq<Cluster>, steps: seq<Step>, i: nat, j: nat, b: nat, order: seq<string>, query: string)
    requires Run(states, steps) && i < j <= |steps| && AddsEntry(states[i], steps[i])
    requires b in states[j].nodes && IsListing(order, states[j].shared.entries.Keys)
    ensures Present(steps[i].revocation.serial) && Lower(query) == Lower(Trim(steps[i].revocation.serial.value)) ==>
            EntryBy(Pulled(states[j].nodes[b], states[j].shared, order).entries, Serial, query).Some?
  {
    hide StepAt, Trim, Lower, Pulled;
    if Present(steps[i].revocation.serial) && Lower(query) == Lower(Trim(steps[i].revocation.serial.value)) {
      var e := EntrySpreads(states, steps, i, j, b, order);
      LowerIdempotent(Trim(steps[i].revocation.serial.value));
      assert EntryHolds(e, Serial, query);
      EntryByIs(Pulled(states[j].nodes[b], states[j].shared, order).entries, Serial, query);
    }
  }
}
