/**
  URL categorisation of `proxy/src/categorization.rs`, hot path only: local lists, a live blocked-domain
  set that a background task swaps, and a cache of answers with a time to live.
 */
module Categorization {
  import opened Clock
  import opened Text

  datatype Category = Listed(name: string) | Rkn

  type Database = map<string, set<Category>>

  datatype Engine = Engine(ttl: nat, ut1: Option<Database>, custom: Option<Database>, rknEnabled: bool, host: string -> Option<string>)

  datatype Answer = Answer(categories: set<Category>, source: string)

  datatype Cached = Cached(answer: Answer, at: nat)

  datatype State = State(cache: map<string, Cached>, rkn: set<string>)

  // ----- suffixes of a domain -----

  function NonEmpty(parts: seq<string>): (r: seq<string>)
    ensures |r| <= |parts|
  {
    if parts == [] then []
    else if parts[0] == "" then NonEmpty(parts[1..])
    else [parts[0]] + NonEmpty(parts[1..])
  }

  function DomainLabels(domain: string): seq<string> { NonEmpty(Split(Lower(Trim(domain)), '.')) }

  /** `domain_suffixes`: longest first, down to two labels. */
  function Suffixes(domain: string): seq<string> {
    var labels := DomainLabels(domain);
    if |labels| < 2 then [Lower(Trim(domain))] else LabelSuffixes(labels)
  }

  function LabelSuffixes(labels: seq<string>): (r: seq<string>)
    requires |labels| >= 2
    ensures |r| == |labels| - 1
  {
    seq(|labels| - 1, i requires 0 <= i < |labels| - 1 => Join(labels[i..], '.'))
  }

  /** The entry of the first suffix that is listed. */
  function FirstListed(db: Database, suffixes: seq<string>): Option<set<Category>> {
    if suffixes == [] then None
    else if suffixes[0] in db then Some(db[suffixes[0]])
    else FirstListed(db, suffixes[1..])
  }

  /** `i` is the first listed suffix. */
  predicate FirstAt(db: Database, suffixes: seq<string>, i: nat) {
    i < |suffixes| && suffixes[i] in db && forall j :: 0 <= j < i ==> suffixes[j] !in db
  }

  lemma {:induction false} FirstListedIs(db: Database, suffixes: seq<string>)
    ensures FirstListed(db, suffixes).None? <==> forall i :: 0 <= i < |suffixes| ==> suffixes[i] !in db
    ensures FirstListed(db, suffixes).Some? ==>
      exists i: nat :: FirstAt(db, suffixes, i) && FirstListed(db, suffixes) == Some(db[suffixes[i]])
  {
    if suffixes != [] {
      if suffixes[0] in db {
        assert FirstAt(db, suffixes, 0);
      } else {
        var rest := suffixes[1..];
        FirstListedIs(db, rest);
        if FirstListed(db, rest).Some? {
          var i: nat :| FirstAt(db, rest, i) && FirstListed(db, rest) == Some(db[rest[i]]);
          assert forall j :: 0 < j < i + 1 ==> suffixes[j] == rest[j - 1];
          assert FirstAt(db, suffixes, i + 1);
        }
      }
    }
  }

  /** The last `n` labels as a name. */
  function LastLabels(labels: seq<string>, n: nat): string
    requires n <= |labels|
  {
    Join(labels[|labels| - n..], '.')
  }

  /** The last `n` labels are listed, and no longer suffix is. */
  predicate LongestListed(db: Database, labels: seq<string>, n: nat) {
    && 2 <= n <= |labels| && LastLabels(labels, n) in db
    && forall m :: n < m <= |labels| ==> LastLabels(labels, m) !in db
  }

  lemma SuffixAt(labels: seq<string>, n: nat)
    requires 2 <= n <= |labels|
    ensures LabelSuffixes(labels)[|labels| - n] == LastLabels(labels, n)
  {
  }

  /** A domain of two or more labels gets the entry of its longest listed label suffix, and no other. */
  lemma LongestSuffixWins(db: Database, domain: string)
    requires |DomainLabels(domain)| >= 2
    ensures var labels, r := DomainLabels(domain), FirstListed(db, Suffixes(domain));
            && (r.None? <==> forall n :: 2 <= n <= |labels| ==> LastLabels(labels, n) !in db)
            && (r.Some? ==> exists n: nat :: LongestListed(db, labels, n) && r == Some(db[LastLabels(labels, n)]))
  {
    hide DomainLabels, Join, Trim, Lower;
    var labels := DomainLabels(domain);
    var suffixes := LabelSuffixes(labels);
    FirstListedIs(db, suffixes);
    forall n | 2 <= n <= |labels|
      ensures LastLabels(labels, n) == suffixes[|labels| - n]
    {
      SuffixAt(labels, n);
    }
    if FirstListed(db, suffixes).Some? {
      var i: nat :| FirstAt(db, suffixes, i) && FirstListed(db, suffixes) == Some(db[suffixes[i]]);
      assert LongestListed(db, labels, |labels| - i);
    } else {
      assert forall n :: 2 <= n <= |labels| ==> LastLabels(labels, n) !in db;
    }
  }

  // ----- one lookup -----

  function Extend(a: Answer, more: Option<set<Category>>, source: string): Answer {
    if more.None? then a
    else Answer(a.categories + more.value, if a.source == "unknown" then source else "multiple")
  }

  /** The local answer with no cache in the way. */
  function Uncached(engine: Engine, rkn: set<string>, domain: string): Answer {
    var ut1 := if engine.ut1.Some? then FirstListed(engine.ut1.value, Suffixes(domain)) else None;
    var custom := if engine.custom.Some? && domain in engine.custom.value then Some(engine.custom.value[domain]) else None;
    var blocked := if engine.rknEnabled && exists s :: s in Suffixes(domain) && s in rkn then Some({Rkn}) else None;
    Extend(Extend(Extend(Answer({}, "unknown"), ut1, "ut1"), custom, "custom"), blocked, "rkn")
  }

  // ----- what an answer ought to be, from the lists alone -----

  /** A name a domain may be listed under: its last two or more labels, or itself when it has fewer. */
  ghost predicate Candidate(domain: string, name: string) {
    var labels := DomainLabels(domain);
    if |labels| < 2 then name == Lower(Trim(domain))
    else exists n: nat :: 2 <= n <= |labels| && name == LastLabels(labels, n)
  }

  /** The blocked set is in use and holds such a name. */
  ghost predicate Blocked(engine: Engine, rkn: set<string>, domain: string) {
    engine.rknEnabled && exists name :: name in rkn && Candidate(domain, name)
  }

  /** `r` is what the UT1 list says: the entry of the longest name that is listed. */
  ghost predicate Ut1Says(engine: Engine, domain: string, r: Option<set<Category>>) {
    var labels := DomainLabels(domain);
    if engine.ut1.None? then r == None
    else
      var db := engine.ut1.value;
      && (r.None? <==> forall name :: Candidate(domain, name) ==> name !in db)
      && (r.Some? ==>
          if |labels| < 2 then Lower(Trim(domain)) in db && r.value == db[Lower(Trim(domain))]
          else exists n: nat :: LongestListed(db, labels, n) && r.value == db[LastLabels(labels, n)])
  }

  /** The custom list speaks of the domain itself only. */
  function CustomSays(engine: Engine, domain: string): Option<set<Category>> {
    if engine.custom.Some? && domain in engine.custom.value then Some(engine.custom.value[domain]) else None
  }

  /** The categories of all that spoke, and a source that names the one or says that there were several. */
  ghost predicate Combines(a: Answer, ut1: Option<set<Category>>, custom: Option<set<Category>>, blocked: bool) {
    var spoke := (if ut1.Some? then 1 else 0) + (if custom.Some? then 1 else 0) + (if blocked then 1 else 0);
    && (forall c :: c in a.categories <==>
          (ut1.Some? && c in ut1.value) || (custom.Some? && c in custom.value) || (blocked && c == Rkn))
    && (spoke == 0 ==> a.source == "unknown")
    && (spoke == 1 ==> a.source == if ut1.Some? then "ut1" else if custom.Some? then "custom" else "rkn")
    && (spoke > 1 ==> a.source == "multiple")
  }

  /** The answer for a domain, given the lists and the blocked set. */
  ghost predicate Right(engine: Engine, rkn: set<string>, domain: string, a: Answer) {
    exists ut1: Option<set<Category>> ::
      Ut1Says(engine, domain, ut1) && Combines(a, ut1, CustomSays(engine, domain), Blocked(engine, rkn, domain))
  }

  lemma CandidateIsSuffix(domain: string, name: string)
    ensures Candidate(domain, name) <==> name in Suffixes(domain)
  {
    hide DomainLabels, Join, Trim, Lower;
    var labels := DomainLabels(domain);
    if |labels| >= 2 {
      var suffixes := LabelSuffixes(labels);
      if n: nat :| 2 <= n <= |labels| && name == LastLabels(labels, n) {
        SuffixAt(labels, n);
      }
      if name in suffixes {
        var i :| 0 <= i < |suffixes| && suffixes[i] == name;
        SuffixAt(labels, |labels| - i);
      }
    }
  }

  lemma FirstListedSays(engine: Engine, domain: string)
    ensures Ut1Says(engine, domain, if engine.ut1.Some? then FirstListed(engine.ut1.value, Suffixes(domain)) else None)
  {
    hide DomainLabels, Join, Trim, Lower, LabelSuffixes, Candidate;
    if engine.ut1.Some? {
      var db, suffixes := engine.ut1.value, Suffixes(domain);
      FirstListedIs(db, suffixes);
      forall name
        ensures Candidate(domain, name) <==> name in suffixes
      {
        CandidateIsSuffix(domain, name);
      }
      assert FirstListed(db, suffixes).None? <==> forall name :: Candidate(domain, name) ==> name !in db;
      if |DomainLabels(domain)| >= 2 {
        LongestSuffixWins(db, domain);
      }
    }
  }

  lemma Ut1Unique(engine: Engine, domain: string, r: Option<set<Category>>, r': Option<set<Category>>)
    requires Ut1Says(engine, domain, r) && Ut1Says(engine, domain, r')
    ensures r == r'
  {
    hide DomainLabels, Trim, Lower, Candidate, LastLabels;
    var labels := DomainLabels(domain);
    if r.Some? && |labels| >= 2 {
      var db := engine.ut1.value;
      var n: nat :| LongestListed(db, labels, n) && r.value == db[LastLabels(labels, n)];
      var m: nat :| LongestListed(db, labels, m) && r'.value == db[LastLabels(labels, m)];
      assert n == m;
    }
  }

  /** The lists and the set determine the answer, and it is the one that is computed. */
  lemma RightExactly(engine: Engine, rkn: set<string>, domain: string, a: Answer)
    ensures Right(engine, rkn, domain, a) <==> a == Uncached(engine, rkn, domain)
  {
    hide Suffixes, Candidate, FirstListed, Ut1Says;
    var ut1 := if engine.ut1.Some? then FirstListed(engine.ut1.value, Suffixes(domain)) else None;
    FirstListedSays(engine, domain);
    assert Blocked(engine, rkn, domain) <==> engine.rknEnabled && exists s :: s in Suffixes(domain) && s in rkn by {
      forall name
        ensures Candidate(domain, name) <==> name in Suffixes(domain)
      {
        CandidateIsSuffix(domain, name);
      }
    }
    var custom, blocked := CustomSays(engine, domain), Blocked(engine, rkn, domain);
    CombinedOnce(Uncached(engine, rkn, domain), ut1, custom, blocked);
    if Right(engine, rkn, domain, a) {
      var other: Option<set<Category>> :| Ut1Says(engine, domain, other) && Combines(a, other, custom, blocked);
      Ut1Unique(engine, domain, ut1, other);
      assert a.categories == Uncached(engine, rkn, domain).categories;
    }
  }

  lemma CombinedOnce(a: Answer, ut1: Option<set<Category>>, custom: Option<set<Category>>, blocked: bool)
    requires a == Extend(Extend(Extend(Answer({}, "unknown"), ut1, "ut1"), custom, "custom"), if blocked then Some({Rkn}) else None, "rkn")
    ensures Combines(a, ut1, custom, blocked)
  {
  }

  predicate Live(engine: Engine, c: Cached, now: nat) { Elapsed(now, c.at) <= engine.ttl }

  /** `categorize_local`, on values: the new state and the answer. */
  function Lookup(engine: Engine, s: State, url: string, now: nat): (State, Answer) {
    match engine.host(url)
    case None => (s, Answer({}, "error"))
    case Some(domain) =>
      if domain in s.cache && Live(engine, s.cache[domain], now) then (s, s.cache[domain].answer)
      else
        var a := Uncached(engine, s.rkn, domain);
        (if a.categories != {} then s.(cache := s.cache[domain := Cached(a, now)]) else s, a)
  }

  function Cleaned(engine: Engine, s: State, now: nat): State {
    s.(cache := map d | d in s.cache && Live(engine, s.cache[d], now) :: s.cache[d])
  }

  class Categorizer {
    var cache: map<string, Cached>
    var rkn: set<string>
    const engine: Engine

    constructor (engine: Engine)
      ensures this.engine == engine && Value() == State(map[], {})
    {
      this.engine := engine;
      cache, rkn := map[], {};
    }

    function Value(): State
      reads this
    {
      State(cache, rkn)
    }

    method CategorizeLocal(url: string, now: nat) returns (a: Answer, cached: bool)
      modifies this
      ensures (Value(), a) == Lookup(engine, old(Value()), url, now)
      ensures engine.host(url).None? ==> a == Answer({}, "error") && !cached && Value() == old(Value())
      ensures engine.host(url).Some? && !cached ==> Right(engine, rkn, engine.host(url).value, a)
      ensures cached <==>
        && engine.host(url).Some? && engine.host(url).value in old(cache)
        && Live(engine, old(cache)[engine.host(url).value], now)
    {
      hide Suffixes, Right;
      var host := engine.host(url);
      if host.None? {
        return Answer({}, "error"), false;
      }
      var domain := host.value;
      if domain in cache && Live(engine, cache[domain], now) {
        return cache[domain].answer, true;
      }
      var categories: set<Category> := {};
      var source := "unknown";
      var suffixes := Suffixes(domain);
      if engine.ut1.Some? {
        var cats := CheckLocalDb(engine.ut1.value, suffixes);
        if cats.Some? {
          categories := categories + cats.value;
          source := "ut1";
        }
      }
      if engine.custom.Some? && domain in engine.custom.value {
        categories := categories + engine.custom.value[domain];
        source := if source == "unknown" then "custom" else "multiple";
      }
      if engine.rknEnabled && exists s :: s in suffixes && s in rkn {
        categories := categories + {Rkn};
        source := if source == "unknown" then "rkn" else "multiple";
      }
      a := Answer(categories, source);
      RightExactly(engine, rkn, domain, a);
      if categories != {} {
        cache := cache[domain := Cached(a, now)];
      }
      return a, false;
    }

    /** `cleanup_cache`: `retain`, one key at a time. */
    method CleanupCache(now: nat)
      modifies this
      ensures Value() == Cleaned(engine, old(Value()), now)
    {
      var todo := cache.Keys;
      while todo != {}
        invariant todo <= cache.Keys <= old(cache).Keys && rkn == old(rkn)
        invariant forall d :: d in cache ==> cache[d] == old(cache)[d]
        invariant forall d :: d in old(cache) && d !in todo ==> (d in cache <==> Live(engine, old(cache)[d], now))
        decreases todo
      {
        var d :| d in todo;
        todo := todo - {d};
        if !Live(engine, cache[d], now) {
          cache := cache - {d};
        }
      }
    }

    method SwapRkn(domains: set<string>)
      modifies this
      ensures Value() == old(Value()).(rkn := domains)
    {
      rkn := domains;
    }
  }

  method CheckLocalDb(db: Database, suffixes: seq<string>) returns (r: Option<set<Category>>)
    ensures r == FirstListed(db, suffixes)
  {
    for i := 0 to |suffixes|
      invariant FirstListed(db, suffixes) == FirstListed(db, suffixes[i..])
    {
      assert suffixes[i..][1..] == suffixes[i + 1..];
      if suffixes[i] in db {
        return Some(db[suffixes[i]]);
      }
    }
    return None;
  }

  // ----- runs -----

  datatype Op = Ask(url: string, now: nat) | Swap(domains: set<string>, now: nat) | Cleanup(now: nat)

  function After(engine: Engine, s: State, op: Op): State {
    match op
    case Ask(url, now) => Lookup(engine, s, url, now).0
    case Swap(domains, _) => s.(rkn := domains)
    case Cleanup(now) => Cleaned(engine, s, now)
  }

  function RunOps(engine: Engine, ops: seq<Op>): State {
    if ops == [] then State(map[], {}) else After(engine, RunOps(engine, ops[..|ops| - 1]), ops[|ops| - 1])
  }

  predicate Ordered(ops: seq<Op>) { forall i, j :: 0 <= i < j < |ops| ==> ops[i].now <= ops[j].now }

  /** The answer is what an uncached lookup would have given at step `j`. */
  ghost predicate TrueAt(engine: Engine, ops: seq<Op>, j: nat, domain: string, a: Answer)
    requires j <= |ops|
  {
    a == Uncached(engine, RunOps(engine, ops[..j]).rkn, domain)
  }

  /** The answer is the right one for the blocked set as it was at step `j`. */
  ghost predicate RightAt(engine: Engine, ops: seq<Op>, j: nat, domain: string, a: Answer)
    requires j <= |ops|
  {
    Right(engine, RunOps(engine, ops[..j]).rkn, domain, a)
  }

  /** Every cache entry was true at the step that wrote it. */
  ghost predicate Inv(engine: Engine, ops: seq<Op>, n: nat)
    requires n <= |ops|
  {
    forall d :: d in RunOps(engine, ops[..n]).cache ==>
      exists j :: 0 <= j < n && ops[j].now == RunOps(engine, ops[..n]).cache[d].at &&
        TrueAt(engine, ops, j, d, RunOps(engine, ops[..n]).cache[d].answer)
  }

  lemma {:induction false} RunInv(engine: Engine, ops: seq<Op>, n: nat)
    requires n <= |ops|
    ensures Inv(engine, ops, n)
    decreases n
  {
    hide Uncached, Live;
    if n > 0 {
      RunInv(engine, ops, n - 1);
      assert ops[..n][..n - 1] == ops[..n - 1];
      var before, after := RunOps(engine, ops[..n - 1]), RunOps(engine, ops[..n]);
      assert after == After(engine, before, ops[n - 1]);
      forall d | d in after.cache
        ensures exists j :: 0 <= j < n && ops[j].now == after.cache[d].at && TrueAt(engine, ops, j, d, after.cache[d].answer)
      {
        if d in before.cache && after.cache[d] == before.cache[d] {
          var j :| 0 <= j < n - 1 && ops[j].now == before.cache[d].at && TrueAt(engine, ops, j, d, before.cache[d].answer);
        } else {
          assert TrueAt(engine, ops, n - 1, d, after.cache[d].answer);
        }
      }
    }
  }

  /**
    In every run of lookups, clock steps, cleanups and swaps of the blocked set, each answer is what an
    uncached lookup would have given at some moment no longer ago than the time to live.
   */
  lemma AnswersAreRecent(engine: Engine, ops: seq<Op>, i: nat, domain: string)
    requires Ordered(ops) && i < |ops| && ops[i].Ask? && engine.host(ops[i].url) == Some(domain)
    ensures var answer := Lookup(engine, RunOps(engine, ops[..i]), ops[i].url, ops[i].now).1;
            exists j :: 0 <= j <= i && ops[i].now - ops[j].now <= engine.ttl && RightAt(engine, ops, j, domain, answer)
  {
    hide Uncached, Right;
    var s := RunOps(engine, ops[..i]);
    var answer := Lookup(engine, s, ops[i].url, ops[i].now).1;
    RunInv(engine, ops, i);
    var at := i;
    if domain in s.cache && Live(engine, s.cache[domain], ops[i].now) {
      var j :| 0 <= j < i && ops[j].now == s.cache[domain].at && TrueAt(engine, ops, j, domain, s.cache[domain].answer);
      at := j;
    }
    assert TrueAt(engine, ops, at, domain, answer);
    RightExactly(engine, RunOps(engine, ops[..at]).rkn, domain, answer);
    assert RightAt(engine, ops, at, domain, answer);
  }

  /** The lookup at step `i` is for `domain` and finds no live entry. */
  ghost predicate Misses(engine: Engine, ops: seq<Op>, i: nat, domain: string)
    requires i < |ops|
  {
    var s := RunOps(engine, ops[..i]);
    && ops[i].Ask? && engine.host(ops[i].url) == Some(domain)
    && !(domain in s.cache && Live(engine, s.cache[domain], ops[i].now))
  }

  lemma {:induction false} EntryStays(engine: Engine, ops: seq<Op>, i: nat, m: nat, domain: string)
    requires Ordered(ops) && i < m <= |ops| && Misses(engine, ops, i, domain)
    requires ops[m - 1].now - ops[i].now <= engine.ttl
    ensures var a := Uncached(engine, RunOps(engine, ops[..i]).rkn, domain);
            a.categories != {} ==>
              domain in RunOps(engine, ops[..m]).cache && RunOps(engine, ops[..m]).cache[domain] == Cached(a, ops[i].now)
    decreases m
  {
    hide Uncached;
    assert ops[..m][..m - 1] == ops[..m - 1];
    if m > i + 1 {
      EntryStays(engine, ops, i, m - 1, domain);
    }
  }

  /**
    An answer with categories sticks: every later lookup of the domain within the time to live of the one
    that computed it gives the same answer, whatever was swapped in between. One without is not kept.
   */
  lemma AnswersStick(engine: Engine, ops: seq<Op>, i: nat, j: nat, domain: string)
    requires Ordered(ops) && i < j < |ops| && Misses(engine, ops, i, domain)
    requires ops[j].Ask? && engine.host(ops[j].url) == Some(domain) && ops[j].now - ops[i].now <= engine.ttl
    ensures var first, again := Lookup(engine, RunOps(engine, ops[..i]), ops[i].url, ops[i].now),
                               Lookup(engine, RunOps(engine, ops[..j]), ops[j].url, ops[j].now);
            && (first.1.categories != {} ==> again.1 == first.1)
            && (first.1.categories == {} ==> RunOps(engine, ops[..i + 1]) == RunOps(engine, ops[..i]))
  {
    hide Uncached;
    assert ops[..i + 1][..i] == ops[..i];
    EntryStays(engine, ops, i, j, domain);
  }
}
