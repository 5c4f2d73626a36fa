/** Cache-Control and the store decision of `proxy/src/cache_freshness.rs` (section 5.2 of RFC 9111). */
module CacheFreshness {
  import opened Text

  const U64_MAX: nat := 0xFFFF_FFFF_FFFF_FFFF

  datatype Directives = Directives(noStore: bool, noCache: bool, maxAge: Option<nat>, sMaxage: Option<nat>, isPrivate: bool)

  const NO_DIRECTIVES := Directives(false, false, None, None, false)

  // ----- parsing -----

  /** A directive as written: a lower-cased name and, after an equals sign, an argument. */
  datatype Token = Token(name: string, arg: Option<string>)

  function TokenOf(part: string): Token {
    var token := Trim(part);
    var pieces := Split(token, '=');
    if |pieces| == 1 then Token(Lower(token), None)
    else Token(Lower(Trim(pieces[0])), Some(Trim(Join(pieces[1..], '='))))
  }

  function AgeOf(t: Token): Option<nat> {
    if t.arg.Some? then ParseUnsigned(t.arg.value, U64_MAX) else None
  }

  lemma SplitToken(part: string, left: string, right: string)
    requires '=' !in left && Trim(part) == left + "=" + right
    ensures TokenOf(part) == Token(Lower(Trim(left)), Some(Trim(right)))
  {
    hide Trim, Lower, Join, Split;
    SplitConcat(left, right, '=');
    assert left + ['='] + right == left + "=" + right;
    SplitWithout(left, '=');
    var pieces := [left] + Split(right, '=');
    assert pieces[1..] == Split(right, '=');
    JoinSplit(right, '=');
  }

  /**
    A directive is read as it is written, for all strings: without an equals sign it is its trimmed name
    in lower case, with one it is the same of what stands before the first and, trimmed, what follows.
   */
  lemma TokenForms(left: string, right: string)
    requires '=' !in left
    ensures TokenOf(left) == Token(Lower(Trim(left)), None)
    ensures TokenOf(left + "=" + right) == Token(Lower(Trim(left)), Some(Trim(right)))
  {
    assert Split(Trim(left), '=') == [Trim(left)] by {
      TrimKeeps(left, '=');
      SplitWithout(Trim(left), '=');
    }
    hide Trim, Lower, TrimStart, TrimEnd, Split;
    TrimAround(left, '=', right);
    assert '=' !in TrimStart(left);
    assert left + ['='] + right == left + "=" + right;
    SplitToken(left + "=" + right, TrimStart(left), TrimEnd(right));
    TrimTwice(left);
    TrimTwice(right);
  }

  /** An age written as a number is read back, up to the largest 64-bit one. */
  lemma AgeForm(name: string, age: nat)
    ensures AgeOf(Token(name, Some(Decimal(age)))) == if age <= U64_MAX then Some(age) else None
    ensures AgeOf(Token(name, None)) == None
  {
    hide ParseUnsigned;
    DecimalParses(age, U64_MAX);
  }

  /** The directives this cache reads. */
  datatype Kind = NoStore | NoCache | Private | MaxAge | SMaxage | Other

  function KindOf(name: string): Kind {
    if name == "no-store" then NoStore
    else if name == "no-cache" then NoCache
    else if name == "private" then Private
    else if name == "max-age" then MaxAge
    else if name == "s-maxage" then SMaxage
    else Other
  }

  /** The effect of one directive; unknown names and unreadable ages have none. */
  function Set(d: Directives, t: Token): Directives {
    match KindOf(t.name)
    case NoStore => d.(noStore := true)
    case NoCache => d.(noCache := true)
    case Private => d.(isPrivate := true)
    case MaxAge => if AgeOf(t).Some? then d.(maxAge := AgeOf(t)) else d
    case SMaxage => if AgeOf(t).Some? then d.(sMaxage := AgeOf(t)) else d
    case Other => d
  }

  function SetAll(d: Directives, parts: seq<string>): Directives {
    if parts == [] then d else Set(SetAll(d, parts[..|parts| - 1]), TokenOf(parts[|parts| - 1]))
  }

  /** What `parse_cache_control` returns. */
  function Parsed(value: string): Directives { SetAll(NO_DIRECTIVES, Split(value, ',')) }

  method ParseCacheControl(value: string) returns (d: Directives)
    ensures d == Parsed(value)
  {
    hide TokenOf, AgeOf;
    var parts := Split(value, ',');
    d := NO_DIRECTIVES;
    for i := 0 to |parts|
      invariant d == SetAll(NO_DIRECTIVES, parts[..i])
    {
      assert parts[..i + 1][..i] == parts[..i];
      var t := TokenOf(parts[i]);
      if Trim(parts[i]) == "" {
        BlankHasNoEffect(d, parts[i]);
        continue;
      }
      var age := AgeOf(t);
      match KindOf(t.name) {
        case NoStore => d := d.(noStore := true);
        case NoCache => d := d.(noCache := true);
        case Private => d := d.(isPrivate := true);
        case MaxAge =>
          if age.Some? { d := d.(maxAge := age); }
        case SMaxage =>
          if age.Some? { d := d.(sMaxage := age); }
        case Other =>
      }
    }
    assert parts[..|parts|] == parts;
  }

  lemma BlankHasNoEffect(d: Directives, part: string)
    requires Trim(part) == ""
    ensures Set(d, TokenOf(part)) == d
  {
    hide TokenOf;
    BlankToken(part);
    assert KindOf("") == Other;
  }

  lemma BlankToken(part: string)
    requires Trim(part) == ""
    ensures TokenOf(part).name == ""
  {
    hide Trim;
    SplitWithout("", '=');
  }

  /** What a directive does, by its name. */
  lemma SetByName(d: Directives, t: Token)
    ensures var r := Set(d, t);
            && r.noStore == (d.noStore || t.name == "no-store") && r.noCache == (d.noCache || t.name == "no-cache")
            && r.isPrivate == (d.isPrivate || t.name == "private")
            && r.maxAge == (if t.name == "max-age" && AgeOf(t).Some? then AgeOf(t) else d.maxAge)
            && r.sMaxage == (if t.name == "s-maxage" && AgeOf(t).Some? then AgeOf(t) else d.sMaxage)
  {
    hide AgeOf;
  }

  /** Flags are or-ed; an age on the right replaces one on the left. */
  function Merge(a: Directives, b: Directives): Directives {
    Directives(a.noStore || b.noStore, a.noCache || b.noCache,
               if b.maxAge.Some? then b.maxAge else a.maxAge, if b.sMaxage.Some? then b.sMaxage else a.sMaxage,
               a.isPrivate || b.isPrivate)
  }

  lemma MergeNothing(d: Directives)
    ensures Merge(d, NO_DIRECTIVES) == d
  {
  }

  lemma SetMerges(a: Directives, b: Directives, t: Token)
    ensures Set(Merge(a, b), t) == Merge(a, Set(b, t))
  {
    hide AgeOf, KindOf;
  }

  lemma {:induction false} SetAllMerges(d: Directives, parts: seq<string>)
    ensures SetAll(d, parts) == Merge(d, SetAll(NO_DIRECTIVES, parts))
  {
    hide TokenOf, Set, Merge;
    if parts == [] {
      MergeNothing(d);
    } else {
      SetAllMerges(d, parts[..|parts| - 1]);
      SetMerges(d, SetAll(NO_DIRECTIVES, parts[..|parts| - 1]), TokenOf(parts[|parts| - 1]));
    }
  }

  lemma {:induction false} SetAllConcat(d: Directives, a: seq<string>, b: seq<string>)
    ensures SetAll(d, a + b) == SetAll(SetAll(d, a), b)
  {
    hide TokenOf, Set;
    if b == [] {
      assert a + b == a;
    } else {
      var n := |b| - 1;
      assert (a + b)[..|a| + n] == a + b[..n];
      SetAllConcat(d, a, b[..n]);
    }
  }

  /** Joining two field lines with a comma, as section 5.3 of RFC 9110 allows, merges their directives. */
  lemma CombinedFields(a: string, b: string)
    ensures Parsed(a + "," + b) == Merge(Parsed(a), Parsed(b))
  {
    hide Set;
    SplitConcat(a, b, ',');
    SetAllConcat(NO_DIRECTIVES, Split(a, ','), Split(b, ','));
    SetAllMerges(Parsed(a), Split(b, ','));
  }

  predicate Named(parts: seq<string>, name: string) {
    exists i :: 0 <= i < |parts| && TokenOf(parts[i]).name == name
  }

  predicate LastAgeAt(parts: seq<string>, name: string, i: nat) {
    && i < |parts| && TokenOf(parts[i]).name == name && AgeOf(TokenOf(parts[i])).Some?
    && forall j :: i < j < |parts| && TokenOf(parts[j]).name == name ==> AgeOf(TokenOf(parts[j])).None?
  }

  /** `r` is the age of the last directive of that name that has a readable one. */
  ghost predicate LastAge(parts: seq<string>, name: string, r: Option<nat>) {
    if r.None? then forall i :: 0 <= i < |parts| && TokenOf(parts[i]).name == name ==> AgeOf(TokenOf(parts[i])).None?
    else exists i: nat :: LastAgeAt(parts, name, i) && AgeOf(TokenOf(parts[i])) == r
  }

  lemma LastAgeStep(parts: seq<string>, last: string, name: string, before: Option<nat>)
    requires LastAge(parts, name, before)
    ensures var t := TokenOf(last);
            LastAge(parts + [last], name, if t.name == name && AgeOf(t).Some? then AgeOf(t) else before)
  {
    hide TokenOf, AgeOf;
    var t, all := TokenOf(last), parts + [last];
    assert all[|parts|] == last;
    assert forall i :: 0 <= i < |parts| ==> all[i] == parts[i];
    if t.name == name && AgeOf(t).Some? {
      assert LastAgeAt(all, name, |parts|);
    } else if before.Some? {
      var i: nat :| LastAgeAt(parts, name, i) && AgeOf(TokenOf(parts[i])) == before;
      assert LastAgeAt(all, name, i);
    }
  }

  /** What the directives mean in terms of the list that was sent. */
  lemma {:induction false} DirectivesMean(parts: seq<string>)
    ensures var d := SetAll(NO_DIRECTIVES, parts);
            && (d.noStore <==> Named(parts, "no-store")) && (d.noCache <==> Named(parts, "no-cache"))
            && (d.isPrivate <==> Named(parts, "private"))
            && LastAge(parts, "max-age", d.maxAge) && LastAge(parts, "s-maxage", d.sMaxage)
  {
    hide TokenOf, AgeOf, Set;
    if parts != [] {
      var n := |parts| - 1;
      var front, last := parts[..n], parts[n];
      assert parts == front + [last];
      DirectivesMean(front);
      var d := SetAll(NO_DIRECTIVES, front);
      SetByName(d, TokenOf(last));
      LastAgeStep(front, last, "max-age", d.maxAge);
      LastAgeStep(front, last, "s-maxage", d.sMaxage);
      NamedStep(front, last);
    }
  }

  lemma NamedStep(parts: seq<string>, last: string)
    ensures forall name :: Named(parts + [last], name) <==> Named(parts, name) || TokenOf(last).name == name
  {
    hide TokenOf;
    var all := parts + [last];
    assert all[|parts|] == last;
    forall name
      ensures Named(all, name) <==> Named(parts, name) || TokenOf(last).name == name
    {
      if Named(parts, name) {
        var i :| 0 <= i < |parts| && TokenOf(parts[i]).name == name;
        assert TokenOf(all[i]).name == name;
      }
      if Named(all, name) {
        var i :| 0 <= i < |all| && TokenOf(all[i]).name == name;
        if i < |parts| { assert TokenOf(parts[i]).name == name; }
      }
    }
  }

  // ----- the store decision -----

  /** A header map, in the order it is iterated. */
  type Headers = seq<(string, string)>

  datatype Config = Config(maxBodySize: nat, negativeEnabled: bool, negativeTtl: nat, honorCacheControl: bool, defaultTtl: nat)

  datatype StoreDecision = StoreDecision(store: bool, ttl: nat, isNegative: bool, mustRevalidate: bool,
                                         etag: Option<string>, lastModified: Option<string>)

  const BYPASS := StoreDecision(false, 0, false, false, None, None)

  function HeaderValue(headers: Headers, name: string): Option<string> {
    if headers == [] then None
    else if Lower(headers[0].0) == Lower(name) then Some(headers[0].1)
    else HeaderValue(headers[1..], name)
  }

  /** A header is the first of its name, in any case. */
  lemma {:induction false} HeaderIs(headers: Headers, name: string)
    ensures var r := HeaderValue(headers, name);
            && (r.None? <==> forall i :: 0 <= i < |headers| ==> !SameLetters(headers[i].0, name))
            && (r.Some? ==> exists i: nat :: FirstHeader(headers, name, i) && r.value == headers[i].1)
  {
    hide Lower, SameLetters;
    if headers != [] {
      LowerSame(headers[0].0, name);
      if SameLetters(headers[0].0, name) {
        assert FirstHeader(headers, name, 0);
      } else {
        var rest := headers[1..];
        HeaderIs(rest, name);
        assert forall j :: 1 <= j < |headers| ==> headers[j] == rest[j - 1];
        if HeaderValue(rest, name).Some? {
          var i: nat :| FirstHeader(rest, name, i) && HeaderValue(rest, name).value == rest[i].1;
          assert FirstHeader(headers, name, i + 1);
        }
      }
    }
  }

  predicate FirstHeader(headers: Headers, name: string, i: nat) {
    && i < |headers| && SameLetters(headers[i].0, name)
    && forall j :: 0 <= j < i ==> !SameLetters(headers[j].0, name)
  }

  function ContentLength(headers: Headers): Option<nat> {
    var v := HeaderValue(headers, "content-length");
    if v.Some? then ParseUnsigned(v.value, U64_MAX) else None
  }

  predicate CacheableMethod(m: string) { m == "GET" || m == "HEAD" }

  predicate CacheableStatus(s: nat) { s in {200, 203, 204, 206, 300, 301, 404, 405, 410, 414, 501} }

  predicate NegativeStatus(s: nat) { s == 403 || s == 404 }

  function ControlOf(headers: Headers): Directives {
    var v := HeaderValue(headers, "cache-control");
    if v.Some? then Parsed(v.value) else NO_DIRECTIVES
  }

  function TtlFrom(d: Directives, default: nat): nat {
    if d.sMaxage.Some? then d.sMaxage.value else if d.maxAge.Some? then d.maxAge.value else default
  }

  /** `evaluate_store`. */
  function EvaluateStore(verb: string, status: nat, headers: Headers, bodySize: nat, config: Config): StoreDecision {
    if !CacheableMethod(verb) || bodySize > config.maxBodySize then BYPASS
    else
      var control := ControlOf(headers);
      if control.noStore || control.isPrivate then BYPASS
      else
        var negative := NegativeStatus(status);
        if (negative && !config.negativeEnabled) || (!negative && !CacheableStatus(status)) then BYPASS
        else
          StoreDecision(true,
            if negative then config.negativeTtl
            else if config.honorCacheControl then TtlFrom(control, config.defaultTtl) else config.defaultTtl,
            negative, !negative && config.honorCacheControl && control.noCache,
            HeaderValue(headers, "etag"), HeaderValue(headers, "last-modified"))
  }

  /** `evaluate_store_precheck`: the declared length stands in for the size. */
  function Precheck(verb: string, status: nat, headers: Headers, config: Config): StoreDecision {
    var declared := ContentLength(headers);
    EvaluateStore(verb, status, headers, if declared.Some? then declared.value else 0, config)
  }

  /**
    A response that is stored was announced by the precheck with the very same decision exactly when
    its declared length, if any, is within the body limit; in particular whenever the declared length
    is no more than the real size.
   */
  lemma PrecheckExact(verb: string, status: nat, headers: Headers, bodySize: nat, config: Config)
    requires EvaluateStore(verb, status, headers, bodySize, config).store
    ensures Precheck(verb, status, headers, config) == EvaluateStore(verb, status, headers, bodySize, config) <==>
            ContentLength(headers).None? || ContentLength(headers).value <= config.maxBodySize
    ensures ContentLength(headers).None? || ContentLength(headers).value <= bodySize ==>
            Precheck(verb, status, headers, config) == EvaluateStore(verb, status, headers, bodySize, config)
  {
    hide ContentLength, ControlOf, HeaderValue;
  }

  /** The directives of a response as they were sent: the pieces of its first Cache-Control field. */
  function Sent(headers: Headers): seq<string> {
    var v := HeaderValue(headers, "cache-control");
    if v.Some? then Split(v.value, ',') else []
  }

  /**
    The store decision in terms of the response as it was sent: what is stored, and for how long. An age
    is the last readable one of its name, and a shared age goes before a plain one.
   */
  lemma StoreMeans(verb: string, status: nat, headers: Headers, bodySize: nat, config: Config)
    ensures var r, sent := EvaluateStore(verb, status, headers, bodySize, config), Sent(headers);
            && (r.store <==>
                && verb in {"GET", "HEAD"} && bodySize <= config.maxBodySize
                && !Named(sent, "no-store") && !Named(sent, "private")
                && (if status in {403, 404} then config.negativeEnabled
                    else status in {200, 203, 204, 206, 300, 301, 405, 410, 414, 501}))
            && (!r.store ==> r == StoreDecision(false, 0, false, false, None, None))
            && (r.store ==> r.etag == HeaderValue(headers, "etag") && r.lastModified == HeaderValue(headers, "last-modified"))
            && (r.store ==> (r.isNegative <==> status in {403, 404}))
            && (r.store && status in {403, 404} ==> r.ttl == config.negativeTtl && !r.mustRevalidate)
            && (r.store && status !in {403, 404} ==>
                && (r.mustRevalidate <==> config.honorCacheControl && Named(sent, "no-cache"))
                && if !config.honorCacheControl then r.ttl == config.defaultTtl else Fresh(sent, r.ttl, config.defaultTtl))
  {
    hide Split, SetAll, HeaderValue, Named, LastAge;
    DirectivesMean(Sent(headers));
    assert ControlOf(headers) == SetAll(NO_DIRECTIVES, Sent(headers)) by { NothingSent(); }
    var d := ControlOf(headers);
    assert LastAge(Sent(headers), "s-maxage", d.sMaxage) && LastAge(Sent(headers), "max-age", d.maxAge);
  }

  lemma NothingSent()
    ensures SetAll(NO_DIRECTIVES, []) == NO_DIRECTIVES
  {
  }

  /** How long the directives `sent` keep a response fresh. */
  ghost predicate Fresh(sent: seq<string>, ttl: nat, default: nat) {
    || LastAge(sent, "s-maxage", Some(ttl))
    || (LastAge(sent, "s-maxage", None) && LastAge(sent, "max-age", Some(ttl)))
    || (LastAge(sent, "s-maxage", None) && LastAge(sent, "max-age", None) && ttl == default)
  }

  /** Combining a second field line never makes a response storable. */
  lemma CombiningNeverLoosens(verb: string, status: nat, headers: Headers, bodySize: nat, config: Config, a: string, b: string)
    ensures EvaluateStore(verb, status, [("cache-control", a + "," + b)] + headers, bodySize, config).store ==>
              && EvaluateStore(verb, status, [("cache-control", a)] + headers, bodySize, config).store
              && EvaluateStore(verb, status, [("cache-control", b)] + headers, bodySize, config).store
  {
    hide Parsed, Merge;
    CombinedFields(a, b);
    FirstControl(a + "," + b, headers);
    FirstControl(a, headers);
    FirstControl(b, headers);
    MergedFlags(Parsed(a), Parsed(b));
  }

  lemma MergedFlags(a: Directives, b: Directives)
    ensures Merge(a, b).noStore == (a.noStore || b.noStore) && Merge(a, b).isPrivate == (a.isPrivate || b.isPrivate)
  {
  }

  lemma FirstControl(value: string, headers: Headers)
    ensures ControlOf([("cache-control", value)] + headers) == Parsed(value)
  {
    hide Parsed;
  }
}
