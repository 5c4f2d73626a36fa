/**
  The access-control engine of `proxy/src/acl.rs`: a rule vector kept in descending priority by stable
  sorts, with a cache of compiled regular expressions beside it, replaced copy-on-write.
 */
module AclEngine {
  import opened Text

  datatype Action = Allow | Deny | Redirect

  datatype Ip = V4(v4: nat) | V6(v6: nat)

  datatype RuleType =
    | Domain(pattern: string)
    | UrlPrefix(prefix: string)
    | Regex(regex: string)
    | Category(category: string)
    | IpRange(first: Ip, last: Ip)
    | TimeWindow(start: string, end: string)
    | Principal(user: Option<string>, group: Option<string>)

  datatype Rule = Rule(id: string, name: string, enabled: bool, priority: nat, action: Action, ruleType: RuleType,
                       redirectUrl: Option<string>)

  datatype Decision = Decision(action: Action, ruleId: Option<string>, redirectUrl: Option<string>, reason: string)

  /** What a check is asked, with the local time in minutes since midnight. */
  datatype Request = Request(url: string, domain: string, categories: seq<string>, user: Option<string>,
                             groups: seq<string>, clientIp: Option<Ip>, minutes: nat)

  /** A compiled pattern is what it matches; `Compiler` is the regex library. */
  type Matcher = string -> bool
  type Compiler = string -> Option<Matcher>

  // ----- matching one rule -----

  function ParseHhMm(s: string): Option<nat> {
    var parts := Split(s, ':');
    if |parts| < 2 then None
    else
      var hour, minute := ParseUnsigned(Trim(parts[0]), 0xFFFF_FFFF), ParseUnsigned(Trim(Join(parts[1..], ':')), 0xFFFF_FFFF);
      if hour.None? || minute.None? || hour.value > 23 || minute.value > 59 then None
      else Some(hour.value * 60 + minute.value)
  }

  /** A time of day is read as it is written, and nothing past 23:59 is one. */
  lemma ClockParses(hour: nat, minute: nat)
    ensures ParseHhMm(Decimal(hour) + ":" + Decimal(minute)) ==
            if hour <= 23 && minute <= 59 then Some(hour * 60 + minute) else None
  {
    hide Decimal, Split, Trim, ParseUnsigned, Join;
    var h, m := Decimal(hour), Decimal(minute);
    DecimalTrimmed(hour);
    DecimalTrimmed(minute);
    SplitWithout(h, ':');
    SplitWithout(m, ':');
    SplitConcat(h, m, ':');
    assert h + [':'] + m == h + ":" + m;
    assert ([h] + [m])[1..] == [m] && Join([m], ':') == m by { JoinOne(m, ':'); }
    DecimalParses(hour, 0xFFFF_FFFF);
    DecimalParses(minute, 0xFFFF_FFFF);
  }

  lemma JoinOne(s: string, c: char)
    ensures Join([s], c) == s
  {
  }

  /** `time_in_window`: an end before the start wraps past midnight. */
  predicate InWindow(start: string, end: string, now: nat) {
    var s, e := ParseHhMm(start), ParseHhMm(end);
    s.Some? && e.Some? && if s.value <= e.value then s.value <= now <= e.value else now >= s.value || now <= e.value
  }

  /** `group_matches`: the plain name, or a CN component of a distinguished name. */
  predicate GroupMatches(member: string, group: string) {
    || Lower(member) == Lower(group)
    || exists i :: 0 <= i < |Split(member, ',')| &&
         var part := Trim(Split(member, ',')[i]);
         (StartsWith(part, "cn=") || StartsWith(part, "CN=")) && Lower(part[3..]) == Lower(group)
  }

  predicate MatchPrincipal(user: Option<string>, group: Option<string>, req: Request) {
    || (user.Some? && req.user == user)
    || (group.Some? && exists g :: g in req.groups && GroupMatches(g, group.value))
  }

  predicate MatchDomain(domain: string, pattern: string) {
    if StartsWith(pattern, "*.") then EndsWith(domain, pattern[2..]) || domain == pattern[2..]
    else if StartsWith(pattern, "*") then EndsWith(domain, pattern[1..])
    else domain == pattern
  }

  predicate InRange(ip: Ip, first: Ip, last: Ip) {
    || (ip.V4? && first.V4? && last.V4? && first.v4 <= ip.v4 <= last.v4)
    || (ip.V6? && first.V6? && last.V6? && first.v6 <= ip.v6 <= last.v6)
  }

  const DAY: nat := 1440

  /** A window is the arc of the clock from start to end: now is in it when it comes no later than the end. */
  lemma WindowIsArc(start: string, end: string, now: nat)
    requires now < DAY
    ensures InWindow(start, end, now) <==>
            var s, e := ParseHhMm(start), ParseHhMm(end);
            s.Some? && e.Some? && (now - s.value) % DAY <= (e.value - s.value) % DAY
  {
    hide Split, Trim, Join, ParseUnsigned;
    var s, e := ParseHhMm(start), ParseHhMm(end);
    if s.Some? && e.Some? {
      assert now < s.value ==> (now - s.value) % DAY == now - s.value + DAY;
      assert e.value < s.value ==> (e.value - s.value) % DAY == e.value - s.value + DAY;
    }
  }

  /**
    A `*.` pattern is the subdomain test on labels exactly when the character before the matched suffix,
    if there is one, is a dot.
   */
  lemma WildcardIsSubdomain(domain: string, suffix: string)
    ensures (MatchDomain(domain, "*." + suffix) <==> IsTail(Split(suffix, '.'), Split(domain, '.'))) <==>
            !(EndsWith(domain, suffix) && |domain| > |suffix| && domain[|domain| - |suffix| - 1] != '.')
  {
    hide Split, IsTail;
    SuffixTestIsLabelTail(domain, suffix, '.');
    assert ("*." + suffix)[2..] == suffix;
    if |domain| > |suffix| {
      var tail := domain[|domain| - |suffix| - 1..];
      assert tail == [tail[0]] + domain[|domain| - |suffix|..];
    }
  }

  /** So a wildcard also takes names that merely end in the same letters. */
  lemma WildcardOverreach()
    ensures MatchDomain("badexample.com", "*.example.com")
    ensures !IsTail(Split("example.com", '.'), Split("badexample.com", '.'))
  {
    assert "*.example.com" == "*." + "example.com";
    WildcardIsSubdomain("badexample.com", "example.com");
  }

  /** `matches_rule`, reading compiled patterns from `cache`. */
  predicate MatchesRule(cache: map<string, Matcher>, rule: Rule, req: Request) {
    match rule.ruleType
    case Domain(pattern) => MatchDomain(req.domain, pattern)
    case UrlPrefix(prefix) => StartsWith(req.url, prefix)
    case Regex(pattern) => pattern in cache && cache[pattern](req.url)
    case Category(c) => c in req.categories
    case IpRange(first, last) => req.clientIp.Some? && InRange(req.clientIp.value, first, last)
    case TimeWindow(start, end) => InWindow(start, end, req.minutes)
    case Principal(user, group) => MatchPrincipal(user, group, req)
  }

  // ----- what a rule means, apart from how it is matched -----

  predicate EndsIn(s: string, tail: string) { exists k :: 0 <= k <= |s| && s[k..] == tail }

  predicate BeginsWith(s: string, head: string) { exists k :: 0 <= k <= |s| && s[..k] == head }

  /** A pattern with a star stands for every name that ends in what follows the star and its dot, if any. */
  predicate Covers(pattern: string, domain: string) {
    if pattern == [] || pattern[0] != '*' then domain == pattern
    else EndsIn(domain, if |pattern| > 1 && pattern[1] == '.' then pattern[2..] else pattern[1..])
  }

  /** A member entry is the group's name, or a distinguished name with a part `cn=` or `CN=` of that name. */
  predicate NamesGroup(member: string, group: string) {
    || SameLetters(member, group)
    || exists i :: 0 <= i < |Split(member, ',')| && PartNames(Trim(Split(member, ',')[i]), group)
  }

  predicate PartNames(part: string, group: string) {
    |part| >= 3 && part[..3] in ["cn=", "CN="] && SameLetters(part[3..], group)
  }

  function Number(ip: Ip): nat { match ip case V4(n) => n case V6(n) => n }

  /** What a rule means for a request: its pattern is compiled on the spot. */
  predicate Means(compile: Compiler, rule: Rule, req: Request) {
    match rule.ruleType
    case Domain(pattern) => Covers(pattern, req.domain)
    case UrlPrefix(prefix) => BeginsWith(req.url, prefix)
    case Regex(pattern) => compile(pattern).Some? && compile(pattern).value(req.url)
    case Category(c) => exists i :: 0 <= i < |req.categories| && req.categories[i] == c
    case IpRange(first, last) =>
      && req.clientIp.Some? && req.clientIp.value.V4? == first.V4? == last.V4?
      && Number(first) <= Number(req.clientIp.value) <= Number(last)
    case TimeWindow(start, end) => InWindow(start, end, req.minutes)
    case Principal(user, group) =>
      || (user.Some? && req.user.Some? && req.user.value == user.value)
      || (group.Some? && exists i :: 0 <= i < |req.groups| && NamesGroup(req.groups[i], group.value))
  }

  lemma EndsWithIs(s: string, tail: string)
    ensures EndsWith(s, tail) <==> EndsIn(s, tail)
  {
    if EndsWith(s, tail) {
      assert s[|s| - |tail|..] == tail;
    }
  }

  lemma StartsWithIs(s: string, head: string)
    ensures StartsWith(s, head) <==> BeginsWith(s, head)
  {
    if StartsWith(s, head) {
      assert s[..|head|] == head;
    }
  }

  lemma DomainIs(domain: string, pattern: string)
    ensures MatchDomain(domain, pattern) <==> Covers(pattern, domain)
  {
    hide EndsIn, EndsWith;
    if StartsWith(pattern, "*.") {
      EndsWithIs(domain, pattern[2..]);
      if domain == pattern[2..] { WholeEnds(domain); }
    } else if StartsWith(pattern, "*") {
      EndsWithIs(domain, pattern[1..]);
    }
  }

  lemma WholeEnds(s: string)
    ensures EndsIn(s, s)
  {
    assert s[0..] == s;
  }

  lemma PartIs(part: string, group: string)
    ensures (StartsWith(part, "cn=") || StartsWith(part, "CN=")) && Lower(part[3..]) == Lower(group) <==> PartNames(part, group)
  {
    hide Lower, SameLetters;
    if |part| >= 3 {
      LowerSame(part[3..], group);
      assert part == part[..3] + part[3..];
      assert StartsWith(part, "cn=") <==> part[..3] == "cn=";
      assert StartsWith(part, "CN=") <==> part[..3] == "CN=";
    }
  }

  lemma GroupIs(member: string, group: string)
    ensures GroupMatches(member, group) <==> NamesGroup(member, group)
  {
    hide Lower, SameLetters, Split, Trim, PartNames;
    LowerSame(member, group);
    forall i | 0 <= i < |Split(member, ',')|
      ensures var part := Trim(Split(member, ',')[i]);
              (StartsWith(part, "cn=") || StartsWith(part, "CN=")) && Lower(part[3..]) == Lower(group) <==> PartNames(part, group)
    {
      PartIs(Trim(Split(member, ',')[i]), group);
    }
  }

  lemma PrincipalIs(user: Option<string>, group: Option<string>, req: Request)
    ensures MatchPrincipal(user, group, req) <==>
            || (user.Some? && req.user.Some? && req.user.value == user.value)
            || (group.Some? && exists i :: 0 <= i < |req.groups| && NamesGroup(req.groups[i], group.value))
  {
    hide GroupMatches, NamesGroup;
    if group.Some? {
      forall i | 0 <= i < |req.groups|
        ensures GroupMatches(req.groups[i], group.value) <==> NamesGroup(req.groups[i], group.value)
      {
        GroupIs(req.groups[i], group.value);
      }
    }
  }

  // ----- the decision -----

  function RuleDecision(rule: Rule): Decision {
    match rule.action
    case Allow => Decision(Allow, None, None, "Rule: " + rule.name)
    case Deny => Decision(Deny, Some(rule.id), None, "Blocked by rule: " + rule.name)
    case Redirect =>
      Decision(Redirect, Some(rule.id), Some(if rule.redirectUrl.Some? then rule.redirectUrl.value else ""),
               "Redirected by rule: " + rule.name)
  }

  function DefaultDecision(action: Action): Decision {
    match action
    case Allow => Decision(Allow, None, None, "Default policy: allow")
    case Deny => Decision(Deny, Some("default"), None, "Default policy: deny")
    case Redirect => Decision(Redirect, Some("default"), Some("about:blank"), "Default policy: redirect")
  }

  function Outcome(decider: Option<Rule>, default: Action): Decision {
    match decider case Some(rule) => RuleDecision(rule) case None => DefaultDecision(default)
  }

  function ActionName(a: Action): string { match a case Allow => "allow" case Deny => "deny" case Redirect => "redirect" }

  /** An answer that is the deciding rule's, or the default's when none decides. */
  predicate AnswerOf(d: Decision, decider: Option<Rule>, default: Action) {
    var action := if decider.Some? then decider.value.action else default;
    && d.action == action
    && (d.ruleId.Some? <==> action != Allow)
    && (d.ruleId.Some? ==> d.ruleId.value == if decider.Some? then decider.value.id else "default")
    && (d.redirectUrl.Some? <==> action == Redirect)
    && (d.redirectUrl.Some? && decider.None? ==> d.redirectUrl.value == "about:blank")
    && (d.redirectUrl.Some? && decider.Some? ==>
        decider.value.redirectUrl == Some(d.redirectUrl.value) || (decider.value.redirectUrl == None && d.redirectUrl.value == ""))
    && d.reason == if decider.Some? then ReasonFor(action) + decider.value.name else "Default policy: " + ActionName(default)
  }

  function ReasonFor(a: Action): string {
    match a case Allow => "Rule: " case Deny => "Blocked by rule: " case Redirect => "Redirected by rule: "
  }

  lemma OutcomeIs(decider: Option<Rule>, default: Action)
    ensures AnswerOf(Outcome(decider, default), decider, default)
  {
  }

  /** A rule is live for a request when it is enabled and matches; `live` stands for that test. */
  type Live = Rule -> bool

  /** The first live rule, which is how the engine decides. */
  function FirstLive(rules: seq<Rule>, live: Live): Option<Rule> {
    if rules == [] then None
    else if live(rules[0]) then Some(rules[0])
    else FirstLive(rules[1..], live)
  }

  /** `i` is the live rule of highest priority, the earliest among equals. */
  predicate IsBest(rules: seq<Rule>, live: Live, i: nat) {
    && i < |rules| && live(rules[i])
    && (forall j :: 0 <= j < |rules| && live(rules[j]) ==> rules[j].priority <= rules[i].priority)
    && (forall j :: 0 <= j < i && live(rules[j]) ==> rules[j].priority < rules[i].priority)
  }

  predicate NoneLive(rules: seq<Rule>, live: Live) {
    forall i :: 0 <= i < |rules| ==> !live(rules[i])
  }

  /** What a list of rules in any order ought to decide. */
  ghost predicate Decides(rules: seq<Rule>, live: Live, decider: Option<Rule>) {
    if NoneLive(rules, live) then decider == None
    else exists i: nat :: IsBest(rules, live, i) && decider == Some(rules[i])
  }

  // ----- sorting -----

  predicate Sorted(rules: seq<Rule>) {
    forall i, j :: 0 <= i < j < |rules| ==> rules[i].priority >= rules[j].priority
  }

  /** The rules of one priority, in order. */
  function Class(rules: seq<Rule>, p: nat): seq<Rule> {
    if rules == [] then []
    else (if rules[0].priority == p then [rules[0]] else []) + Class(rules[1..], p)
  }

  /** A stable sort moves no rule past another of its priority. */
  ghost predicate StableSortOf(out: seq<Rule>, rules: seq<Rule>) {
    Sorted(out) && forall p: nat :: Class(out, p) == Class(rules, p)
  }

  /** Place a rule before the first one of equal or lower priority. */
  function InsertFront(rule: Rule, rules: seq<Rule>): seq<Rule> {
    if rules == [] || rule.priority >= rules[0].priority then [rule] + rules
    else [rules[0]] + InsertFront(rule, rules[1..])
  }

  /** `sort_by_key(Reverse(priority))`. */
  function StableSort(rules: seq<Rule>): seq<Rule> {
    if rules == [] then [] else InsertFront(rules[0], StableSort(rules[1..]))
  }

  lemma {:induction false} InsertFrontSorted(rule: Rule, rules: seq<Rule>)
    requires Sorted(rules)
    ensures Sorted(InsertFront(rule, rules))
    ensures forall r :: r in InsertFront(rule, rules) ==> r == rule || r in rules
  {
    if rules != [] && rule.priority < rules[0].priority {
      var rest := InsertFront(rule, rules[1..]);
      InsertFrontSorted(rule, rules[1..]);
      assert forall r :: r in rules[1..] ==> r in rules;
      forall j | 0 <= j < |rest|
        ensures rules[0].priority >= rest[j].priority
      {
        assert rest[j] in rest;
      }
    }
  }

  lemma {:induction false} InsertFrontStable(rule: Rule, rules: seq<Rule>, p: nat)
    ensures Class(InsertFront(rule, rules), p) == (if rule.priority == p then [rule] else []) + Class(rules, p)
  {
    if rules == [] || rule.priority >= rules[0].priority {
      assert ([rule] + rules)[1..] == rules;
    } else {
      InsertFrontStable(rule, rules[1..], p);
      assert InsertFront(rule, rules)[1..] == InsertFront(rule, rules[1..]);
    }
  }

  lemma {:induction false} StableSortIs(rules: seq<Rule>)
    ensures StableSortOf(StableSort(rules), rules)
  {
    if rules != [] {
      var rest := StableSort(rules[1..]);
      StableSortIs(rules[1..]);
      InsertFrontSorted(rules[0], rest);
      forall p: nat
        ensures Class(StableSort(rules), p) == Class(rules, p)
      {
        InsertFrontStable(rules[0], rest, p);
      }
    }
  }

  lemma {:induction false} ClassMember(rules: seq<Rule>, p: nat)
    ensures forall r :: r in Class(rules, p) <==> r in rules && r.priority == p
  {
    if rules != [] {
      ClassMember(rules[1..], p);
    }
  }

  /** Sorted and stable determine the list: there is only one stable sort. */
  lemma {:induction false} StableSortUnique(a: seq<Rule>, b: seq<Rule>)
    requires Sorted(a) && Sorted(b) && forall p: nat :: Class(a, p) == Class(b, p)
    ensures a == b
    decreases |a|
  {
    if a == [] {
      if b != [] {
        ClassMember(b, b[0].priority);
        assert false;
      }
    } else {
      var p := a[0].priority;
      ClassMember(a, p);
      ClassMember(b, p);
      assert a[0] in Class(b, p);
      ClassMember(a, b[0].priority);
      ClassMember(b, b[0].priority);
      assert b[0] in Class(a, b[0].priority);
      assert b[0].priority == p;
      assert a[0] == Class(a, p)[0] == Class(b, p)[0] == b[0];
      forall q: nat
        ensures Class(a[1..], q) == Class(b[1..], q)
      {
        TailClass(a, q);
        TailClass(b, q);
      }
      StableSortUnique(a[1..], b[1..]);
    }
  }

  lemma TailClass(rules: seq<Rule>, p: nat)
    requires rules != []
    ensures Class(rules[1..], p) == if rules[0].priority == p then Class(rules, p)[1..] else Class(rules, p)
  {
  }

  lemma {:induction false} ClassConcat(a: seq<Rule>, b: seq<Rule>, p: nat)
    ensures Class(a + b, p) == Class(a, p) + Class(b, p)
  {
    if a == [] {
      assert a + b == b;
    } else {
      assert (a + b)[1..] == a[1..] + b;
      ClassConcat(a[1..], b, p);
      var head := if a[0].priority == p then [a[0]] else [];
      assert Class(a + b, p) == head + (Class(a[1..], p) + Class(b, p)) == (head + Class(a[1..], p)) + Class(b, p);
    }
  }

  /** Sorting a sorted list changes nothing. */
  lemma SortIdempotent(rules: seq<Rule>)
    requires Sorted(rules)
    ensures StableSort(rules) == rules
  {
    StableSortIs(rules);
    StableSortUnique(StableSort(rules), rules);
  }

  // ----- the first live rule of a sorted list, class by class -----

  /** The decider is the first live rule of the highest class that has one. */
  ghost predicate ByClass(rules: seq<Rule>, live: Live, decider: Option<Rule>) {
    match decider
    case None => forall p: nat :: FirstLive(Class(rules, p), live) == None
    case Some(r) =>
      && FirstLive(Class(rules, r.priority), live) == decider
      && forall p: nat :: p > r.priority ==> FirstLive(Class(rules, p), live) == None
  }

  lemma {:induction false} HigherClassEmpty(rules: seq<Rule>, p: nat)
    requires forall i :: 0 <= i < |rules| ==> rules[i].priority < p
    ensures Class(rules, p) == []
  {
    if rules != [] {
      HigherClassEmpty(rules[1..], p);
    }
  }

  lemma {:induction false} FirstLiveByClass(rules: seq<Rule>, live: Live)
    requires Sorted(rules)
    ensures ByClass(rules, live, FirstLive(rules, live))
  {
    if rules != [] {
      if live(rules[0]) {
        forall p: nat | p > rules[0].priority
          ensures Class(rules, p) == []
        {
          HigherClassEmpty(rules, p);
        }
      } else {
        FirstLiveByClass(rules[1..], live);
        forall p: nat
          ensures FirstLive(Class(rules, p), live) == FirstLive(Class(rules[1..], p), live)
        {
          TailClass(rules, p);
        }
      }
    }
  }

  lemma {:induction false} FirstLiveIs(rules: seq<Rule>, live: Live)
    ensures FirstLive(rules, live).None? <==> NoneLive(rules, live)
    ensures FirstLive(rules, live).Some? ==> live(FirstLive(rules, live).value) && FirstLive(rules, live).value in rules
  {
    if rules != [] {
      FirstLiveIs(rules[1..], live);
      if live(rules[0]) {
        assert !NoneLive(rules, live);
      }
    }
  }

  /** Where the first live rule of a class stands in the whole list. */
  lemma {:induction false} FirstOfClass(rules: seq<Rule>, live: Live, p: nat) returns (i: nat)
    requires FirstLive(Class(rules, p), live).Some?
    ensures i < |rules| && FirstLive(Class(rules, p), live) == Some(rules[i]) && live(rules[i]) && rules[i].priority == p
    ensures forall j :: 0 <= j < i && rules[j].priority == p ==> !live(rules[j])
  {
    if rules[0].priority == p && live(rules[0]) {
      i := 0;
    } else {
      TailClass(rules, p);
      i := FirstOfClass(rules[1..], live, p);
      i := i + 1;
    }
  }

  lemma ClassHasLive(rules: seq<Rule>, live: Live, j: nat)
    requires j < |rules| && live(rules[j])
    ensures FirstLive(Class(rules, rules[j].priority), live).Some?
  {
    ClassMember(rules, rules[j].priority);
    assert rules[j] in Class(rules, rules[j].priority);
    FirstLiveIs(Class(rules, rules[j].priority), live);
  }

  /** Class by class is what a list in any order ought to decide. */
  lemma ByClassDecides(rules: seq<Rule>, live: Live, decider: Option<Rule>)
    requires ByClass(rules, live, decider)
    ensures Decides(rules, live, decider)
  {
    forall j | 0 <= j < |rules| && live(rules[j])
      ensures decider.Some? && rules[j].priority <= decider.value.priority
    {
      ClassHasLive(rules, live, j);
    }
    if decider.Some? {
      var i := FirstOfClass(rules, live, decider.value.priority);
      assert IsBest(rules, live, i);
    }
  }

  /**
    Scanning the sorted rules for the first live one finds, among the rules in the order they were
    given, the live rule of highest priority, the earliest on ties.
   */
  lemma SortedScanDecides(given: seq<Rule>, live: Live)
    ensures Decides(given, live, FirstLive(StableSort(given), live))
  {
    StableSortIs(given);
    var decider := FirstLive(StableSort(given), live);
    FirstLiveByClass(StableSort(given), live);
    assert ByClass(given, live, decider);
    ByClassDecides(given, live, decider);
  }

  lemma DecidesUnique(rules: seq<Rule>, live: Live, x: Option<Rule>, y: Option<Rule>)
    requires Decides(rules, live, x) && Decides(rules, live, y)
    ensures x == y
  {
    if !NoneLive(rules, live) {
      var i: nat :| IsBest(rules, live, i) && x == Some(rules[i]);
      var j: nat :| IsBest(rules, live, j) && y == Some(rules[j]);
      assert i == j;
    }
  }

  // ----- the operations on rule lists -----

  function Added(rules: seq<Rule>, rule: Rule): seq<Rule> { StableSort(rules + [rule]) }

  /** `retain(|r| r.id != id)`. */
  function Removed(rules: seq<Rule>, id: string): seq<Rule> {
    if rules == [] then []
    else if rules[0].id == id then Removed(rules[1..], id)
    else [rules[0]] + Removed(rules[1..], id)
  }

  function Position(rules: seq<Rule>, id: string): (i: nat)
    ensures i <= |rules|
    ensures i < |rules| ==> rules[i].id == id
    ensures forall j :: 0 <= j < i ==> rules[j].id != id
  {
    if rules == [] || rules[0].id == id then 0 else 1 + Position(rules[1..], id)
  }

  function Updated(rules: seq<Rule>, rule: Rule): seq<Rule> {
    var i := Position(rules, rule.id);
    if i < |rules| then StableSort(rules[i := rule]) else rules
  }

  datatype Op = Load(rules: seq<Rule>) | Add(rule: Rule) | Update(rule: Rule) | Remove(id: string)

  function Applied(rules: seq<Rule>, op: Op): seq<Rule> {
    match op
    case Load(given) => StableSort(given)
    case Add(rule) => Added(rules, rule)
    case Update(rule) => Updated(rules, rule)
    case Remove(id) => Removed(rules, id)
  }

  function RunOps(ops: seq<Op>): seq<Rule> {
    if ops == [] then [] else Applied(RunOps(ops[..|ops| - 1]), ops[|ops| - 1])
  }

  lemma {:induction false} RemovedIs(rules: seq<Rule>, id: string)
    ensures forall r :: r in Removed(rules, id) <==> r in rules && r.id != id
    ensures Sorted(rules) ==> Sorted(Removed(rules, id))
  {
    if rules != [] {
      RemovedIs(rules[1..], id);
      if Sorted(rules) && rules[0].id != id {
        var rest := Removed(rules[1..], id);
        forall j | 0 <= j < |rest|
          ensures rules[0].priority >= rest[j].priority
        {
          assert rest[j] in rest;
        }
      }
    }
  }

  // ----- the order of ties after a run -----

  function HoldsId(id: string): Live { (r: Rule) => r.id == id }

  /** Where the rule an update meets stands: of that id the highest priority, the earliest on ties. */
  function BestHolder(rules: seq<Rule>, id: string): (i: nat)
    ensures i <= |rules|
    ensures i == |rules| <==> NoneLive(rules, HoldsId(id))
    ensures i < |rules| ==> IsBest(rules, HoldsId(id), i)
  {
    if rules == [] then 0
    else
      var n := |rules| - 1;
      var i := BestHolder(rules[..n], id);
      if i < n && !(rules[n].id == id && rules[n].priority > rules[i].priority) then i
      else if rules[n].id == id then n
      else n + 1
  }

  /**
    A list that is never sorted, in which rules of one priority stand in the order they win ties: an
    added rule goes last, an update that keeps the priority stays in place, one that raises it goes
    last, and one that lowers it goes first.
   */
  function Arrived(rules: seq<Rule>, op: Op): seq<Rule> {
    match op
    case Load(given) => given
    case Add(rule) => rules + [rule]
    case Remove(id) => Removed(rules, id)
    case Update(rule) =>
      var i := BestHolder(rules, rule.id);
      if i == |rules| then rules else Moved(rules[..i], rules[i + 1..], rules[i].priority, rule)
  }

  /** Where `rule` goes when it takes the place, between `before` and `after`, of one of priority `was`. */
  function Moved(before: seq<Rule>, after: seq<Rule>, was: nat, rule: Rule): seq<Rule> {
    if rule.priority == was then before + [rule] + after
    else if rule.priority < was then [rule] + (before + after)
    else before + after + [rule]
  }

  function Arrivals(ops: seq<Op>): seq<Rule> {
    if ops == [] then [] else Arrived(Arrivals(ops[..|ops| - 1]), ops[|ops| - 1])
  }

  lemma {:induction false} ClassRemoved(rules: seq<Rule>, id: string, p: nat)
    ensures Class(Removed(rules, id), p) == Removed(Class(rules, p), id)
  {
    if rules != [] {
      ClassRemoved(rules[1..], id, p);
      var rest := Removed(rules[1..], id);
      assert rules[0].id != id ==> ([rules[0]] + rest)[1..] == rest;
      assert rules[0].priority == p ==> ([rules[0]] + Class(rules[1..], p))[1..] == Class(rules[1..], p);
      assert [] + Class(rules[1..], p) == Class(rules[1..], p) && [] + Class(rest, p) == Class(rest, p);
    }
  }

  /** Lists that agree class by class sort alike. */
  lemma SortsAlike(a: seq<Rule>, b: seq<Rule>)
    requires forall p: nat :: Class(a, p) == Class(b, p)
    ensures StableSort(a) == StableSort(b)
  {
    hide Class, StableSort;
    StableSortIs(a);
    StableSortIs(b);
    StableSortUnique(StableSort(a), StableSort(b));
  }

  lemma ClassOfThree(front: seq<Rule>, rule: Rule, back: seq<Rule>, p: nat)
    ensures Class(front + [rule] + back, p) == Class(front, p) + (if rule.priority == p then [rule] else []) + Class(back, p)
  {
    assert Class([rule], p) == if rule.priority == p then [rule] else [] by { assert Class([], p) == []; }
    hide Class;
    ClassConcat(front + [rule], back, p);
    ClassConcat(front, [rule], p);
  }

  /** A list splits at its first rule of an id in one way only. */
  lemma {:induction false} SplitAtFirst(a: seq<Rule>, b: seq<Rule>, x: seq<Rule>, y: seq<Rule>, o: Rule)
    requires a + [o] + b == x + [o] + y
    requires (forall r :: r in a ==> r.id != o.id) && (forall r :: r in x ==> r.id != o.id)
    ensures a == x && b == y
  {
    var s := a + [o] + b;
    assert forall i :: 0 <= i < |a| ==> s[i] == a[i] && a[i] in a;
    assert forall i :: 0 <= i < |x| ==> s[i] == x[i] && x[i] in x;
    assert s[|a|] == o && s[|x|] == o;
    assert s[..|a|] == a && s[|a| + 1..] == b;
    assert s[..|x|] == x && s[|x| + 1..] == y;
  }

  /** No rule of the class of `o` before it has its id, in the list and in its sorted form. */
  lemma HolderSplits(front: seq<Rule>, back: seq<Rule>, x: seq<Rule>, y: seq<Rule>, o: Rule)
    requires forall p: nat :: Class(front + [o] + back, p) == Class(x + [o] + y, p)
    requires forall r :: r in front ==> r.id != o.id
    requires forall r :: r in x && r.priority == o.priority ==> r.id != o.id
    ensures Class(front, o.priority) == Class(x, o.priority) && Class(back, o.priority) == Class(y, o.priority)
    ensures forall p: nat :: p != o.priority ==> Class(front, p) + Class(back, p) == Class(x, p) + Class(y, p)
  {
    hide Class;
    var q := o.priority;
    ClassOfThree(front, o, back, q);
    ClassOfThree(x, o, y, q);
    ClassMember(front, q);
    ClassMember(x, q);
    SplitAtFirst(Class(front, q), Class(back, q), Class(x, q), Class(y, q), o);
    forall p: nat | p != q
      ensures Class(front, p) + Class(back, p) == Class(x, p) + Class(y, p)
    {
      ClassOfThree(front, o, back, p);
      ClassOfThree(x, o, y, p);
      assert Class(front, p) + [] == Class(front, p) && Class(x, p) + [] == Class(x, p);
    }
  }

  lemma {:induction false} ClassEmpty(rules: seq<Rule>, p: nat)
    requires forall r :: r in rules ==> r.priority != p
    ensures Class(rules, p) == []
  {
    if rules != [] {
      ClassEmpty(rules[1..], p);
    }
  }

  /** Replacing a rule in the sorted list and moving it in the unsorted one agree in every class. */
  lemma MovedAlike(front: seq<Rule>, back: seq<Rule>, x: seq<Rule>, y: seq<Rule>, o: Rule, rule: Rule, p: nat)
    requires Sorted(front + [o] + back)
    requires Class(front, o.priority) == Class(x, o.priority) && Class(back, o.priority) == Class(y, o.priority)
    requires p != o.priority ==> Class(front, p) + Class(back, p) == Class(x, p) + Class(y, p)
    ensures Class(front + [rule] + back, p) == Class(Moved(x, y, o.priority, rule), p)
  {
    hide Class, Sorted;
    ClassOfThree(front, rule, back, p);
    MovedClasses(x, y, rule, p);
    if rule.priority != p {
      assert Class(front, p) + [] == Class(front, p) && Class(x, p) + [] == Class(x, p);
      assert [] + (Class(x, p) + Class(y, p)) == Class(x, p) + Class(y, p) == Class(x, p) + Class(y, p) + [];
    } else if rule.priority != o.priority {
      OutOfOrder(front, back, o, p);
      assert Class(front, p) == [] || Class(back, p) == [];
      assert [] + [rule] == [rule] && [] + Class(back, p) == Class(back, p) && Class(front, p) + [] == Class(front, p);
      assert Class(front, p) + [rule] + [] == Class(front, p) + [rule];
    }
  }

  lemma MovedClasses(x: seq<Rule>, y: seq<Rule>, rule: Rule, p: nat)
    ensures var own := if rule.priority == p then [rule] else [];
            && Class(x + [rule] + y, p) == Class(x, p) + own + Class(y, p)
            && Class([rule] + (x + y), p) == own + (Class(x, p) + Class(y, p))
            && Class(x + y + [rule], p) == Class(x, p) + Class(y, p) + own
  {
    assert Class([rule], p) == if rule.priority == p then [rule] else [] by { assert Class([], p) == []; }
    hide Class;
    ClassOfThree(x, rule, y, p);
    ClassConcat(x, y, p);
    ClassConcat([rule], x + y, p);
    ClassConcat(x + y, [rule], p);
  }

  /** Around a rule of a sorted list, lower classes are empty before it and higher ones after it. */
  lemma OutOfOrder(front: seq<Rule>, back: seq<Rule>, o: Rule, p: nat)
    requires Sorted(front + [o] + back)
    ensures p < o.priority ==> Class(front, p) == []
    ensures p > o.priority ==> Class(back, p) == []
  {
    hide Class;
    var list := front + [o] + back;
    assert list[|front|] == o;
    forall k | 0 <= k < |front|
      ensures front[k].priority >= o.priority
    {
      assert list[k] == front[k];
    }
    forall k | 0 <= k < |back|
      ensures back[k].priority <= o.priority
    {
      assert list[|front| + 1 + k] == back[k];
    }
    if p < o.priority { ClassEmpty(front, p); }
    if p > o.priority { ClassEmpty(back, p); }
  }

  lemma Around(rules: seq<Rule>, i: nat, rule: Rule)
    requires i < |rules|
    ensures rules == rules[..i] + [rules[i]] + rules[i + 1..]
    ensures rules[i := rule] == rules[..i] + [rule] + rules[i + 1..]
  {
  }

  lemma UpdateArrives(rules: seq<Rule>, rule: Rule)
    ensures Updated(StableSort(rules), rule) == StableSort(Arrived(rules, Update(rule)))
  {
    hide Class, StableSort, FirstLive, IsBest, NoneLive, Sorted, Moved;
    var sorted := StableSort(rules);
    var k, i := Position(sorted, rule.id), BestHolder(rules, rule.id);
    StableSortIs(rules);
    SortMembers(rules);
    NoHolder(rules, sorted, rule.id);
    if i < |rules| {
      var o, front, back, x, y := rules[i], sorted[..k], sorted[k + 1..], rules[..i], rules[i + 1..];
      SameHolder(rules, rule.id);
      Around(sorted, k, rule);
      Around(rules, i, rule);
      assert forall r :: r in x && r.priority == o.priority ==> r.id != o.id by { EarliestHolder(rules, rule.id); }
      UpdateMoves(front, back, x, y, o, rule);
      SortsAlike(sorted[k := rule], Moved(x, y, o.priority, rule));
    }
  }

  lemma EarliestHolder(rules: seq<Rule>, id: string)
    requires BestHolder(rules, id) < |rules|
    ensures var i := BestHolder(rules, id);
            rules[i].id == id && forall r :: r in rules[..i] && r.priority == rules[i].priority ==> r.id != id
  {
    var i := BestHolder(rules, id);
    forall r | r in rules[..i] && r.priority == rules[i].priority
      ensures r.id != id
    {
      var j :| 0 <= j < i && rules[j] == r;
      assert !HoldsId(id)(rules[j]);
    }
  }

  lemma UpdateMoves(front: seq<Rule>, back: seq<Rule>, x: seq<Rule>, y: seq<Rule>, o: Rule, rule: Rule)
    requires Sorted(front + [o] + back) && forall p: nat :: Class(front + [o] + back, p) == Class(x + [o] + y, p)
    requires forall r :: r in front ==> r.id != o.id
    requires forall r :: r in x && r.priority == o.priority ==> r.id != o.id
    ensures forall p: nat :: Class(front + [rule] + back, p) == Class(Moved(x, y, o.priority, rule), p)
  {
    hide Class, Sorted, Moved;
    HolderSplits(front, back, x, y, o);
    forall p: nat
      ensures Class(front + [rule] + back, p) == Class(Moved(x, y, o.priority, rule), p)
    {
      MovedAlike(front, back, x, y, o, rule, p);
    }
  }

  lemma NoHolder(rules: seq<Rule>, sorted: seq<Rule>, id: string)
    requires forall r :: r in sorted <==> r in rules
    ensures Position(sorted, id) == |sorted| <==> BestHolder(rules, id) == |rules|
  {
    var k, i := Position(sorted, id), BestHolder(rules, id);
    if k < |sorted| {
      assert sorted[k] in rules;
    }
    if i < |rules| {
      assert rules[i] in sorted;
    }
  }

  /** The rule an update meets in the sorted list is the best one of its id in the unsorted list. */
  lemma SameHolder(rules: seq<Rule>, id: string)
    requires Position(StableSort(rules), id) < |StableSort(rules)| && BestHolder(rules, id) < |rules|
    ensures StableSort(rules)[Position(StableSort(rules), id)] == rules[BestHolder(rules, id)]
  {
    hide StableSort;
    var sorted, live := StableSort(rules), HoldsId(id);
    FirstHolder(sorted, id);
    SortedScanDecides(rules, live);
    assert Decides(rules, live, Some(rules[BestHolder(rules, id)]));
    DecidesUnique(rules, live, FirstLive(sorted, live), Some(rules[BestHolder(rules, id)]));
  }

  lemma {:induction false} FirstHolder(rules: seq<Rule>, id: string)
    requires Position(rules, id) < |rules|
    ensures FirstLive(rules, HoldsId(id)) == Some(rules[Position(rules, id)])
  {
    if rules[0].id != id {
      FirstHolder(rules[1..], id);
    }
  }

  lemma OpArrives(rules: seq<Rule>, op: Op)
    ensures Applied(StableSort(rules), op) == StableSort(Arrived(rules, op))
  {
    hide Class, StableSort, Removed, Updated;
    StableSortIs(rules);
    match op
    case Load(given) =>
    case Add(rule) =>
      forall p: nat
        ensures Class(StableSort(rules) + [rule], p) == Class(rules + [rule], p)
      {
        ClassConcat(StableSort(rules), [rule], p);
        ClassConcat(rules, [rule], p);
      }
      SortsAlike(StableSort(rules) + [rule], rules + [rule]);
    case Update(rule) => UpdateArrives(rules, rule);
    case Remove(id) =>
      RemovedIs(StableSort(rules), id);
      StableSortIs(Removed(rules, id));
      forall p: nat
        ensures Class(Removed(StableSort(rules), id), p) == Class(StableSort(Removed(rules, id)), p)
      {
        ClassRemoved(StableSort(rules), id, p);
        ClassRemoved(rules, id, p);
      }
      StableSortUnique(Removed(StableSort(rules), id), StableSort(Removed(rules, id)));
  }

  /**
    After every sequence of operations the rules are the stable sort of the list that was never sorted,
    so ties stand exactly in that list's order.
   */
  lemma {:induction false} RunsSortArrivals(ops: seq<Op>)
    ensures RunOps(ops) == StableSort(Arrivals(ops)) && Sorted(RunOps(ops))
    ensures forall p: nat :: Class(RunOps(ops), p) == Class(Arrivals(ops), p)
  {
    hide Class, StableSort, Applied, Arrived;
    if ops == [] {
      NothingSorts();
    } else {
      RunsSortArrivals(ops[..|ops| - 1]);
      OpArrives(Arrivals(ops[..|ops| - 1]), ops[|ops| - 1]);
    }
    StableSortIs(Arrivals(ops));
  }

  lemma NothingSorts()
    ensures StableSort([]) == []
  {
  }

  /** So after every run the decider is the best live rule of the unsorted list, the earliest on ties. */
  lemma RunDecides(ops: seq<Op>, live: Live)
    ensures Decides(Arrivals(ops), live, FirstLive(RunOps(ops), live))
  {
    RunsSortArrivals(ops);
    SortedScanDecides(Arrivals(ops), live);
  }

  // ----- changes that leave decisions alone -----

  lemma {:induction false} RemoveOtherDecides(rules: seq<Rule>, live: Live, id: string)
    requires FirstLive(rules, live).Some? ==> FirstLive(rules, live).value.id != id
    ensures FirstLive(Removed(rules, id), live) == FirstLive(rules, live)
  {
    if rules != [] && !live(rules[0]) {
      RemoveOtherDecides(rules[1..], live, id);
    }
  }

  lemma {:induction false} FirstLiveConcat(a: seq<Rule>, b: seq<Rule>, live: Live)
    ensures FirstLive(a + b, live) == if FirstLive(a, live).Some? then FirstLive(a, live) else FirstLive(b, live)
  {
    if a == [] {
      assert a + b == b;
    } else {
      assert (a + b)[1..] == a[1..] + b;
      FirstLiveConcat(a[1..], b, live);
    }
  }

  /** The first live rule of a class after `rule` joins the end of it. */
  function FirstWith(rules: seq<Rule>, rule: Rule, live: Live, p: nat): Option<Rule> {
    var first := FirstLive(Class(rules, p), live);
    if first.Some? then first else if p == rule.priority && live(rule) then Some(rule) else None
  }

  /** An added rule decides exactly when it is live and outranks the decider; otherwise nothing changes. */
  lemma AddDecides(rules: seq<Rule>, rule: Rule, live: Live)
    requires Sorted(rules)
    ensures var before := FirstLive(rules, live);
            FirstLive(Added(rules, rule), live) ==
            if live(rule) && (before.None? || rule.priority > before.value.priority) then Some(rule) else before
  {
    var out, before := Added(rules, rule), FirstLive(rules, live);
    StableSortIs(rules + [rule]);
    FirstLiveByClass(out, live);
    FirstLiveByClass(rules, live);
    var after := FirstLive(out, live);
    FirstLiveIs(out, live);
    FirstLiveIs(rules, live);
    forall p: nat
      ensures FirstLive(Class(out, p), live) == FirstWith(rules, rule, live, p)
    {
      ClassConcat(rules, [rule], p);
      var own := Class([rule], p);
      assert Class([], p) == [];
      assert own == if rule.priority == p then [rule] else [];
      FirstLiveConcat(Class(rules, p), own, live);
    }
    AddedDecider(rules, rule, live, before, after);
  }

  lemma AddedDecider(rules: seq<Rule>, rule: Rule, live: Live, before: Option<Rule>, after: Option<Rule>)
    requires ByClass(rules, live, before) && ByClass(Added(rules, rule), live, after)
    requires forall p: nat :: FirstLive(Class(Added(rules, rule), p), live) == FirstWith(rules, rule, live, p)
    requires after.Some? ==> FirstLive(Class(Added(rules, rule), after.value.priority), live) == after
    ensures after == if live(rule) && (before.None? || rule.priority > before.value.priority) then Some(rule) else before
  {
    var out := Added(rules, rule);
    if before.Some? {
      assert FirstLive(Class(out, before.value.priority), live) == before;
    }
    if live(rule) {
      assert FirstLive(Class(out, rule.priority), live).Some?;
    }
    if after.Some? {
      assert FirstLive(Class(rules, after.value.priority), live) == after || after == Some(rule);
    }
  }

  predicate UniqueIds(rules: seq<Rule>) {
    forall i, j :: 0 <= i < j < |rules| ==> rules[i].id != rules[j].id
  }

  lemma {:induction false} RemoveNothing(rules: seq<Rule>, id: string)
    requires forall i :: 0 <= i < |rules| ==> rules[i].id != id
    ensures Removed(rules, id) == rules
  {
    if rules != [] {
      RemoveNothing(rules[1..], id);
    }
  }

  lemma {:induction false} RemoveUnique(rules: seq<Rule>, id: string, i: nat)
    requires UniqueIds(rules) && i < |rules| && rules[i].id == id
    ensures Removed(rules, id) == rules[..i] + rules[i + 1..]
  {
    if i == 0 {
      RemoveNothing(rules[1..], id);
    } else {
      RemoveUnique(rules[1..], id, i - 1);
      assert rules[..i] + rules[i + 1..] == [rules[0]] + (rules[1..][..i - 1] + rules[1..][i..]);
    }
  }

  /** Whether `rule`, in place of one of priority `was` between `before` and `after`, decides over the others. */
  ghost predicate Outranks(before: seq<Rule>, after: seq<Rule>, was: nat, rule: Rule, live: Live) {
    var other := FirstLive(before + after, live);
    && live(rule)
    && (|| other.None?
        || rule.priority > other.value.priority
        || (&& rule.priority == other.value.priority
            && (rule.priority < was || (rule.priority == was && NoneLive(before, live)))))
  }

  lemma {:induction false} InsertedDecides(rule: Rule, rules: seq<Rule>, live: Live)
    requires Sorted(rules)
    ensures var d := FirstLive(rules, live);
            FirstLive(InsertFront(rule, rules), live) ==
            if live(rule) && (d.None? || rule.priority >= d.value.priority) then Some(rule) else d
  {
    if rules == [] || rule.priority >= rules[0].priority {
      assert ([rule] + rules)[1..] == rules;
      FirstLiveIs(rules, live);
    } else {
      InsertedDecides(rule, rules[1..], live);
      assert InsertFront(rule, rules)[1..] == InsertFront(rule, rules[1..]);
    }
  }

  lemma SortedAround(front: seq<Rule>, o: Rule, back: seq<Rule>, rule: Rule)
    requires Sorted(front + [o] + back)
    ensures Sorted(front + back) && (rule.priority == o.priority ==> Sorted(front + [rule] + back))
  {
    var list, rest, same := front + [o] + back, front + back, front + [rule] + back;
    assert list[|front|] == o && same[|front|] == rule;
    assert forall j :: 0 <= j < |front| ==> rest[j] == list[j] == same[j];
    assert forall j :: |front| <= j < |rest| ==> rest[j] == list[j + 1] == same[j + 1];
    assert forall j :: 0 <= j < |list| && j != |front| ==> same[j] == list[j];
  }

  lemma MovedSortsAlike(front: seq<Rule>, o: Rule, back: seq<Rule>, rule: Rule)
    requires Sorted(front + [o] + back)
    ensures StableSort(front + [rule] + back) == StableSort(Moved(front, back, o.priority, rule))
  {
    hide Class, Moved, StableSort, Sorted;
    forall p: nat
      ensures Class(front + [rule] + back, p) == Class(Moved(front, back, o.priority, rule), p)
    {
      MovedAlike(front, back, front, back, o, rule, p);
    }
    SortsAlike(front + [rule] + back, Moved(front, back, o.priority, rule));
  }

  lemma SameRankDecides(front: seq<Rule>, rule: Rule, back: seq<Rule>, live: Live)
    requires Sorted(front + [rule] + back)
    ensures FirstLive(front + [rule] + back, live) ==
            if live(rule) && NoneLive(front, live) then Some(rule) else FirstLive(front + back, live)
    ensures NoneLive(front, live) && FirstLive(front + back, live).Some? ==> FirstLive(front + back, live).value.priority <= rule.priority
    ensures !NoneLive(front, live) ==> FirstLive(front + back, live).Some? && FirstLive(front + back, live).value.priority >= rule.priority
  {
    assert FirstLive([rule], live) == if live(rule) then Some(rule) else None by { assert [rule][1..] == []; }
    FirstLiveIs(front, live);
    FirstLiveIs(back, live);
    hide FirstLive;
    FirstLiveConcat(front + [rule], back, live);
    FirstLiveConcat(front, [rule], live);
    FirstLiveConcat(front, back, live);
    var list := front + [rule] + back;
    assert list[|front|] == rule;
    assert forall j :: 0 <= j < |front| ==> list[j] == front[j];
    assert forall j :: 0 <= j < |back| ==> list[|front| + 1 + j] == back[j];
  }

  /**
    What an update decides: the rule itself exactly when it is live and outranks the best of the others,
    a tie going to it when it was lowered, against it when it was raised, and by place when neither.
   */
  lemma UpdateDecides(rules: seq<Rule>, rule: Rule, live: Live)
    requires Sorted(rules)
    ensures var i := Position(rules, rule.id);
            FirstLive(Updated(rules, rule), live) ==
            if i == |rules| then FirstLive(rules, live)
            else if Outranks(rules[..i], rules[i + 1..], rules[i].priority, rule, live) then Some(rule)
            else FirstLive(rules[..i] + rules[i + 1..], live)
  {
    hide FirstLive, StableSort, Sorted, Outranks;
    var i := Position(rules, rule.id);
    if i < |rules| {
      Around(rules, i, rule);
      ReplacedDecides(rules[..i], rules[i], rules[i + 1..], rule, live);
    }
  }

  lemma ReplacedDecides(front: seq<Rule>, o: Rule, back: seq<Rule>, rule: Rule, live: Live)
    requires Sorted(front + [o] + back)
    ensures FirstLive(StableSort(front + [rule] + back), live) ==
            if Outranks(front, back, o.priority, rule, live) then Some(rule) else FirstLive(front + back, live)
  {
    hide FirstLive, StableSort, Sorted, NoneLive;
    SortedAround(front, o, back, rule);
    MovedSortsAlike(front, o, back, rule);
    if rule.priority == o.priority {
      SortIdempotent(front + [rule] + back);
      SameRankDecides(front, rule, back, live);
    } else if rule.priority < o.priority {
      LoweredSorts(front + back, rule);
      InsertedDecides(rule, front + back, live);
    } else {
      AddDecides(front + back, rule, live);
    }
  }

  lemma LoweredSorts(rules: seq<Rule>, rule: Rule)
    requires Sorted(rules)
    ensures StableSort([rule] + rules) == InsertFront(rule, rules)
  {
    SortIdempotent(rules);
    assert ([rule] + rules)[1..] == rules;
  }

  /** With unique ids, an update that makes a rule dead decides like removing it. */
  lemma DisableIsRemove(rules: seq<Rule>, rule: Rule, live: Live)
    requires Sorted(rules) && UniqueIds(rules) && !live(rule)
    ensures FirstLive(Updated(rules, rule), live) == FirstLive(Removed(rules, rule.id), live)
  {
    hide FirstLive, Updated, Removed, Sorted;
    UpdateDecides(rules, rule, live);
    var i := Position(rules, rule.id);
    if i == |rules| {
      RemoveNothing(rules, rule.id);
    } else {
      RemoveUnique(rules, rule.id, i);
    }
  }

  // ----- the regex cache -----

  function Patterns(rules: seq<Rule>): set<string> {
    set r | r in rules && r.ruleType.Regex? :: r.ruleType.regex
  }

  /** The engine panics on a pattern the library rejects, so every pattern compiles. */
  predicate AllCompile(rules: seq<Rule>, compile: Compiler) {
    forall r :: r in rules && r.ruleType.Regex? ==> compile(r.ruleType.regex).Some?
  }

  /** The cache maps exactly the patterns of the current rules to their compiled form. */
  ghost predicate CacheExact(cache: map<string, Matcher>, rules: seq<Rule>, compile: Compiler) {
    && cache.Keys == Patterns(rules)
    && forall p :: p in cache ==> compile(p) == Some(cache[p])
  }

  function LiveWith(cache: map<string, Matcher>, req: Request): Live {
    (rule: Rule) => rule.enabled && MatchesRule(cache, rule, req)
  }

  function LiveBy(compile: Compiler, req: Request): Live {
    (rule: Rule) => rule.enabled && Means(compile, rule, req)
  }

  lemma CacheMeans(cache: map<string, Matcher>, rules: seq<Rule>, compile: Compiler, rule: Rule, req: Request)
    requires CacheExact(cache, rules, compile) && rule in rules
    ensures MatchesRule(cache, rule, req) == Means(compile, rule, req)
  {
    hide MatchDomain, Covers, StartsWith, BeginsWith, InWindow, MatchPrincipal, NamesGroup;
    match rule.ruleType
    case Domain(pattern) => DomainIs(req.domain, pattern);
    case UrlPrefix(prefix) => StartsWithIs(req.url, prefix);
    case Regex(pattern) => assert pattern in Patterns(rules);
    case Principal(user, group) => PrincipalIs(user, group, req);
    case _ =>
  }

  lemma {:induction false} SameFirstLive(rules: seq<Rule>, a: Live, b: Live)
    requires forall r :: r in rules ==> a(r) == b(r)
    ensures FirstLive(rules, a) == FirstLive(rules, b)
  {
    if rules != [] {
      SameFirstLive(rules[1..], a, b);
    }
  }

  /** What `check_access` answers, with the cache and without it. */
  function Access(rules: seq<Rule>, live: Live, default: Action): Decision {
    Outcome(FirstLive(rules, live), default)
  }

  /** The cached scan decides for the enabled matching rule of highest priority, earliest on ties. */
  lemma AccessDecides(rules: seq<Rule>, cache: map<string, Matcher>, compile: Compiler, req: Request, default: Action)
    requires Sorted(rules) && CacheExact(cache, rules, compile)
    ensures Access(rules, LiveWith(cache, req), default) == Access(rules, LiveBy(compile, req), default)
    ensures Decides(rules, LiveBy(compile, req), FirstLive(rules, LiveWith(cache, req)))
  {
    hide MatchesRule, Means;
    forall r | r in rules
      ensures LiveWith(cache, req)(r) == LiveBy(compile, req)(r)
    {
      CacheMeans(cache, rules, compile, r, req);
    }
    SameFirstLive(rules, LiveWith(cache, req), LiveBy(compile, req));
    SortIdempotent(rules);
    SortedScanDecides(rules, LiveBy(compile, req));
  }

  // ----- the engine object -----

  class Engine {
    var rules: seq<Rule>
    var cache: map<string, Matcher>
    const default: Action
    const compile: Compiler

    ghost predicate Valid()
      reads this
    {
      Sorted(rules) && CacheExact(cache, rules, compile)
    }

    constructor (default: Action, compile: Compiler)
      ensures Valid() && rules == [] && this.default == default && this.compile == compile
    {
      this.default, this.compile := default, compile;
      rules, cache := [], map[];
    }

    /** `rebuild_regex_cache`: one entry for each distinct pattern. */
    method RebuildCache()
      requires AllCompile(rules, compile)
      modifies this`cache
      ensures CacheExact(cache, rules, compile)
    {
      var compiled: map<string, Matcher> := map[];
      for i := 0 to |rules|
        invariant CacheExact(compiled, rules[..i], compile)
      {
        var rule := rules[i];
        assert rules[..i + 1] == rules[..i] + [rule];
        if rule.ruleType.Regex? {
          var pattern := rule.ruleType.regex;
          assert Patterns(rules[..i + 1]) == Patterns(rules[..i]) + {pattern};
          if pattern !in compiled {
            compiled := compiled[pattern := compile(pattern).value];
          }
        } else {
          assert Patterns(rules[..i + 1]) == Patterns(rules[..i]);
        }
      }
      assert rules[..|rules|] == rules;
      cache := compiled;
    }

    method AddRule(rule: Rule)
      requires Valid() && AllCompile(rules + [rule], compile)
      modifies this
      ensures Valid() && rules == Added(old(rules), rule)
    {
      rules := rules + [rule];
      Sort();
      RebuildCache();
    }

    method UpdateRule(rule: Rule) returns (found: bool)
      requires Valid() && AllCompile(rules + [rule], compile)
      modifies this
      ensures Valid() && rules == Updated(old(rules), rule)
      ensures found <==> exists r :: r in old(rules) && r.id == rule.id
    {
      var i := Position(rules, rule.id);
      if i == |rules| {
        return false;
      }
      assert rules[i] in rules;
      rules := rules[i := rule];
      Sort();
      RebuildCache();
      return true;
    }

    method RemoveRule(id: string) returns (found: bool)
      requires Valid()
      modifies this
      ensures Valid() && rules == Removed(old(rules), id)
      ensures found <==> exists r :: r in old(rules) && r.id == id
    {
      RemovedIs(rules, id);
      var kept := Retain(rules, id);
      if |kept| == |rules| {
        RemovedLength(rules, id);
        return false;
      }
      RemovedLength(rules, id);
      assert forall r :: r in kept ==> r in rules;
      assert AllCompile(kept, compile) by { CachedCompile(); }
      rules := kept;
      RebuildCache();
      return true;
    }

    lemma CachedCompile()
      requires Valid()
      ensures AllCompile(rules, compile)
    {
      forall r | r in rules && r.ruleType.Regex?
        ensures compile(r.ruleType.regex).Some?
      {
        assert r.ruleType.regex in Patterns(rules);
      }
    }

    method LoadRules(given: seq<Rule>)
      requires AllCompile(given, compile)
      modifies this
      ensures Valid() && rules == StableSort(given)
    {
      rules := given;
      Sort();
      RebuildCache();
    }

    /** The library's stable sort; the rules stay the same rules. */
    method Sort()
      modifies this`rules
      ensures rules == StableSort(old(rules)) && Sorted(rules)
      ensures forall r :: r in rules <==> r in old(rules)
    {
      StableSortIs(rules);
      SortMembers(rules);
      rules := StableSort(rules);
    }

    /** `check_access`: the first enabled rule that matches, else the default. */
    method CheckAccess(req: Request) returns (d: Decision)
      requires Valid()
      ensures d == Access(rules, LiveBy(compile, req), default)
      ensures exists decider :: Decides(rules, LiveBy(compile, req), decider) && AnswerOf(d, decider, default)
    {
      hide MatchesRule, Means, AnswerOf, RuleDecision, DefaultDecision;
      var live := LiveWith(cache, req);
      OutcomeIs(FirstLive(rules, live), default);
      AccessDecides(rules, cache, compile, req, default);
      for i := 0 to |rules|
        invariant FirstLive(rules, live) == FirstLive(rules[i..], live)
      {
        assert rules[i..][1..] == rules[i + 1..];
        if rules[i].enabled && MatchesRule(cache, rules[i], req) {
          return RuleDecision(rules[i]);
        }
      }
      return DefaultDecision(default);
    }
  }

  method Retain(rules: seq<Rule>, id: string) returns (kept: seq<Rule>)
    ensures kept == Removed(rules, id)
  {
    kept := [];
    for i := 0 to |rules|
      invariant kept + Removed(rules[i..], id) == Removed(rules, id)
    {
      assert rules[i..][1..] == rules[i + 1..];
      if rules[i].id != id {
        kept := kept + [rules[i]];
      }
    }
  }

  lemma {:induction false} RemovedLength(rules: seq<Rule>, id: string)
    ensures |Removed(rules, id)| <= |rules|
    ensures |Removed(rules, id)| == |rules| <==> forall r :: r in rules ==> r.id != id
    ensures |Removed(rules, id)| == |rules| ==> Removed(rules, id) == rules
  {
    if rules != [] {
      RemovedLength(rules[1..], id);
      assert rules == [rules[0]] + rules[1..];
    }
  }

  lemma SortMembers(rules: seq<Rule>)
    ensures forall r :: r in StableSort(rules) <==> r in rules
  {
    StableSortIs(rules);
    forall r: Rule
      ensures r in StableSort(rules) <==> r in rules
    {
      ClassMember(rules, r.priority);
      ClassMember(StableSort(rules), r.priority);
      assert Class(rules, r.priority) == Class(StableSort(rules), r.priority);
    }
  }

  // ----- copy-on-write and persistence -----

  /** `AclEngineHandle`: readers hold a snapshot, writers replace it. */
  class Handle {
    var snapshot: Engine

    constructor (engine: Engine)
      ensures snapshot == engine
    {
      snapshot := engine;
    }

    /** `mutate`: fork, change the fork, publish it; the old snapshot is left as it was. */
    method Mutate(op: Op)
      requires snapshot.Valid()
      requires match op
               case Load(given) => AllCompile(given, snapshot.compile)
               case Add(rule) => AllCompile([rule], snapshot.compile)
               case Update(rule) => AllCompile([rule], snapshot.compile)
               case Remove(_) => true
      modifies this
      ensures fresh(snapshot) && snapshot.Valid()
      ensures snapshot.default == old(snapshot).default && snapshot.compile == old(snapshot).compile
      ensures snapshot.rules == Applied(old(snapshot.rules), op)
      ensures unchanged(old(snapshot))
    {
      var next := Fork(snapshot);
      next.CachedCompile();
      match op {
        case Load(given) => next.LoadRules(given);
        case Add(rule) => next.AddRule(rule);
        case Update(rule) => var _ := next.UpdateRule(rule);
        case Remove(id) => var _ := next.RemoveRule(id);
      }
      snapshot := next;
    }
  }

  /** `fork_from`: a new engine with the same rules and cache. */
  method Fork(engine: Engine) returns (next: Engine)
    requires engine.Valid()
    ensures fresh(next) && next.Valid() && next.rules == engine.rules
    ensures next.default == engine.default && next.compile == engine.compile
  {
    engine.CachedCompile();
    next := new Engine(engine.default, engine.compile);
    SortIdempotent(engine.rules);
    next.LoadRules(engine.rules);
  }

  /** The JSON document; the encoding itself is the library's. */
  datatype Document = Document(defaultAction: Option<string>, rules: seq<Rule>)

  function ParseAction(value: string): Action {
    if Lower(value) == "deny" then Deny else if Lower(value) == "redirect" then Redirect else Allow
  }

  lemma ActionRoundTrip(a: Action)
    ensures ParseAction(ActionName(a)) == a
    ensures forall text :: ParseAction(text) == a <==>
              SameLetters(text, ActionName(a)) || (a == Allow && !SameLetters(text, "deny") && !SameLetters(text, "redirect"))
  {
    assert Lower("deny") == "deny" && Lower("redirect") == "redirect" && Lower("allow") == "allow";
    forall text: string
      ensures SameLetters(text, "deny") <==> Lower(text) == "deny"
      ensures SameLetters(text, "redirect") <==> Lower(text) == "redirect"
      ensures SameLetters(text, "allow") <==> Lower(text) == "allow"
    {
      LowerSame(text, "deny");
      LowerSame(text, "redirect");
      LowerSame(text, "allow");
    }
  }

  method SaveEngine(engine: Engine) returns (doc: Document)
    ensures doc == Document(Some(ActionName(engine.default)), engine.rules)
  {
    return Document(Some(ActionName(engine.default)), engine.rules);
  }

  method LoadEngine(doc: Document, fallback: Action, compile: Compiler) returns (engine: Engine)
    requires AllCompile(doc.rules, compile)
    ensures fresh(engine) && engine.Valid() && engine.compile == compile
    ensures engine.rules == StableSort(doc.rules)
    ensures engine.default == if doc.defaultAction.Some? then ParseAction(doc.defaultAction.value) else fallback
  {
    engine := new Engine(if doc.defaultAction.Some? then ParseAction(doc.defaultAction.value) else fallback, compile);
    engine.LoadRules(doc.rules);
  }

  /** A saved engine comes back with the same rules and default, whatever the fallback. */
  method SaveThenLoad(engine: Engine, fallback: Action) returns (copy: Engine)
    requires engine.Valid()
    ensures fresh(copy) && copy.Valid() && copy.rules == engine.rules
    ensures copy.default == engine.default && copy.compile == engine.compile
  {
    engine.CachedCompile();
    ActionRoundTrip(engine.default);
    SortIdempotent(engine.rules);
    var doc := SaveEngine(engine);
    copy := LoadEngine(doc, fallback, engine.compile);
  }
}
