/** The blocklist zone of `dns-sinkhole/src/zone.rs`: a text file indexed by exact name and by suffix. */
module DnsZone {
  import opened Text
  import opened Utf8

  type Ipv4 = a: seq<byte> | |a| == 4 witness [0, 0, 0, 0]
  type Ipv6 = a: seq<byte> | |a| == 16 witness seq(16, _ => 0)

  datatype Action = Policy | A(v4: Ipv4) | Aaaa(v6: Ipv6)

  /** The standard library's address parsers, which are not modelled. */
  datatype AddressParser = AddressParser(v4: string -> Option<Ipv4>, v6: string -> Option<Ipv6>)

  datatype LineError = MissingType | BadA | BadAaaa | UnsupportedType(rtype: string)

  datatype ZoneError = ZoneError(line: nat, error: LineError)

  /** One line of the zone that says something. */
  datatype Entry = Exact(name: string, action: Action) | Suffix(name: string, action: Action)

  // ----- what a line says -----

  /** `normalize_name`. */
  function NormalizeName(name: string): (r: string)
    ensures r == [] || r[|r| - 1] != '.'
  {
    Lower(TrimEndChar(Trim(name), '.'))
  }

  /** The text before the first unquoted `;` or `#`. */
  function Uncommented(line: string, inQuote: bool): (r: string) {
    if line == [] then []
    else
      var quoted := if line[0] == '"' then !inQuote else inQuote;
      if !quoted && (line[0] == ';' || line[0] == '#') then []
      else [line[0]] + Uncommented(line[1..], quoted)
  }

  /** Whether a character after `s` is inside quotes. */
  function Quoted(s: string, inQuote: bool): bool {
    if s == [] then inQuote else Quoted(s[1..], if s[0] == '"' then !inQuote else inQuote)
  }

  predicate CommentMark(c: char) { c == ';' || c == '#' }

  /** Comment removal keeps a prefix that ends at the first comment mark outside quotes. */
  lemma {:induction false} UncommentedIs(line: string, inQuote: bool)
    ensures var r := Uncommented(line, inQuote);
            && r <= line
            && (|r| < |line| ==> CommentMark(line[|r|]) && !Quoted(line[..|r|], inQuote))
            && (forall i :: 0 <= i < |r| && CommentMark(line[i]) ==> Quoted(line[..i], inQuote))
  {
    if line != [] {
      var quoted := if line[0] == '"' then !inQuote else inQuote;
      var rest, r := line[1..], Uncommented(line, inQuote);
      if quoted || !CommentMark(line[0]) {
        UncommentedIs(rest, quoted);
        forall i | 1 <= i <= |r|
          ensures Quoted(line[..i], inQuote) == Quoted(rest[..i - 1], quoted)
        {
          assert line[..i][1..] == rest[..i - 1];
        }
        assert forall i :: 1 <= i < |line| ==> line[i] == rest[i - 1];
      }
    }
  }

  function Upper(s: string): string {
    seq(|s|, i requires 0 <= i < |s| => if 'a' <= s[i] <= 'z' then (s[i] as int - 32) as char else s[i])
  }

  predicate AllDigits(s: string) { forall c :: c in s ==> IsDigit(c) }

  /** The entry a line of two or more tokens makes: name, optional TTL, optional class, type, data. */
  function RecordEntry(parts: seq<string>, ip: AddressParser): Result<Entry, LineError>
    requires |parts| >= 2
  {
    var afterTtl := if AllDigits(parts[1]) then 2 else 1;
    var idx := if afterTtl < |parts| && Lower(parts[afterTtl]) == "in" then afterTtl + 1 else afterTtl;
    if idx >= |parts| then Err(MissingType)
    else
      var rtype, rdata := Upper(parts[idx]), Join(parts[idx + 1..], ' ');
      var action: Result<Action, LineError> :=
        if rtype == "CNAME" then Ok(Policy)
        else if rtype == "A" then match ip.v4(rdata) case Some(a) => Ok(A(a)) case None => Err(BadA)
        else if rtype == "AAAA" then match ip.v6(rdata) case Some(a) => Ok(Aaaa(a)) case None => Err(BadAaaa)
        else Err(UnsupportedType(rtype));
      match action
      case Err(e) => Err(e)
      case Ok(a) =>
        if StartsWith(parts[0], "*.") then Ok(Suffix(NormalizeName(parts[0][2..]), a))
        else Ok(Exact(NormalizeName(parts[0]), a))
  }

  /** At most one token, of the given kind. */
  predicate Optional(field: seq<string>, kind: string -> bool) { field == [] || (|field| == 1 && kind(field[0])) }

  const IsClassIn: string -> bool := s => Lower(s) == "in"

  const IsTtl: string -> bool := s => AllDigits(s)

  /** A TTL and a class before the type say nothing: the entry is that of the line without them. */
  lemma OptionalFieldsIgnored(name: string, ttl: seq<string>, cls: seq<string>, rtype: string, data: seq<string>, ip: AddressParser)
    requires Optional(ttl, IsTtl) && Optional(cls, IsClassIn)
    requires !AllDigits(rtype) && Lower(rtype) != "in"
    ensures RecordEntry([name] + ttl + cls + [rtype] + data, ip) == RecordEntry([name, rtype] + data, ip)
  {
    hide Join, Upper, NormalizeName;
    var parts, plain := [name] + ttl + cls + [rtype] + data, [name, rtype] + data;
    var idx := 1 + |ttl| + |cls|;
    assert parts[idx] == rtype && parts[idx + 1..] == data && plain[2..] == data;
    if |cls| == 1 {
      assert parts[idx - 1] == cls[0] && Lower(cls[0])[0] == 'i';
      assert cls[0][0] in cls[0] && !AllDigits(cls[0]);
    }
    if |ttl| == 1 {
      assert parts[1] == ttl[0];
    }
  }

  /** What a line left after cleaning says. */
  function LineSays(line: string, ip: AddressParser): Result<Option<Entry>, LineError> {
    var parts := SplitWhitespace(line);
    if parts == [] then Ok(None)
    else if |parts| == 1 then
      if StartsWith(parts[0], ".") then Ok(Some(Suffix(NormalizeName(parts[0][1..]), Policy)))
      else Ok(Some(Exact(NormalizeName(parts[0]), Policy)))
    else
      match RecordEntry(parts, ip)
      case Err(e) => Err(e)
      case Ok(e) => Ok(Some(e))
  }

  /** The same for whole lines of the file. */
  lemma LineForms(name: string, ttl: seq<string>, cls: seq<string>, rtype: string, data: seq<string>, ip: AddressParser)
    requires Optional(ttl, IsTtl) && Optional(cls, IsClassIn)
    requires !AllDigits(rtype) && Lower(rtype) != "in"
    requires forall t :: t in [name] + ttl + cls + [rtype] + data ==> IsToken(t)
    ensures LineSays(Join([name] + ttl + cls + [rtype] + data, ' '), ip) == LineSays(Join([name, rtype] + data, ' '), ip)
  {
    hide Join, RecordEntry, SplitWhitespace, IsToken;
    TokensSplitBack([name] + ttl + cls + [rtype] + data);
    TokensSplitBack([name, rtype] + data);
    OptionalFieldsIgnored(name, ttl, cls, rtype, data, ip);
  }

  /** What a raw line says: nothing for blank lines, comments and `$` directives. */
  function RawLineSays(raw: string, ip: AddressParser): Result<Option<Entry>, LineError> {
    var line := Trim(Uncommented(raw, false));
    if line == "" || line[0] == '$' then Ok(None) else LineSays(line, ip)
  }

  function FileSays(text: string, ip: AddressParser): seq<Result<Option<Entry>, LineError>> {
    var lines := Lines(text);
    seq(|lines|, i requires 0 <= i < |lines| => RawLineSays(lines[i], ip))
  }

  /** The entries in file order, or the first bad line, counted from 1. */
  function Collect(said: seq<Result<Option<Entry>, LineError>>): Result<seq<Entry>, ZoneError> {
    if said == [] then Ok([])
    else
      var last := |said| - 1;
      match Collect(said[..last])
      case Err(e) => Err(e)
      case Ok(before) =>
        match said[last]
        case Err(e) => Err(ZoneError(|said|, e))
        case Ok(None) => Ok(before)
        case Ok(Some(e)) => Ok(before + [e])
  }

  /** The entries a zone text stands for. */
  function ZoneEntries(text: string, ip: AddressParser): Result<seq<Entry>, ZoneError> {
    Collect(FileSays(text, ip))
  }

  // ----- what is written is what is said -----

  /** A name is normalised to its text without surrounding blanks and final dots, in lower case. */
  lemma NormalizedIs(front: string, name: string, dots: nat, back: string)
    requires Blanks(front) && Blanks(back) && name != [] && Trimmed(name) && name[|name| - 1] != '.'
    ensures NormalizeName(front + (name + seq(dots, _ => '.')) + back) == Lower(name)
  {
    hide Trim, TrimEndChar, Lower;
    var written := name + seq(dots, _ => '.');
    assert !IsWhitespace('.');
    assert Trimmed(written) by {
      assert written[0] == name[0];
      assert written[|written| - 1] == if dots == 0 then name[|name| - 1] else '.';
    }
    TrimOf(front, written, back);
    TrimEndCharOf(name, '.', dots);
  }

  /** The first token of a record line: `*.` marks a suffix. */
  function Owner(wild: bool, name: string): string { if wild then "*." + name else name }

  function Filed(wild: bool, name: string, action: Action): Entry {
    if wild then Suffix(NormalizeName(name), action) else Exact(NormalizeName(name), action)
  }

  /** What a record line says, by its type: policy for CNAME, the address for A and AAAA, else an error. */
  ghost predicate Records(said: Result<Option<Entry>, LineError>, wild: bool, name: string, rtype: string, data: string, ip: AddressParser) {
    && (Upper(rtype) == "CNAME" ==> said == Ok(Some(Filed(wild, name, Policy))))
    && (Upper(rtype) == "A" && ip.v4(data).Some? ==> said == Ok(Some(Filed(wild, name, A(ip.v4(data).value)))))
    && (Upper(rtype) == "A" && ip.v4(data).None? ==> said == Err(BadA))
    && (Upper(rtype) == "AAAA" && ip.v6(data).Some? ==> said == Ok(Some(Filed(wild, name, Aaaa(ip.v6(data).value)))))
    && (Upper(rtype) == "AAAA" && ip.v6(data).None? ==> said == Err(BadAaaa))
    && (Upper(rtype) !in {"CNAME", "A", "AAAA"} ==> said == Err(UnsupportedType(Upper(rtype))))
  }

  /**
    Every record line, for all tokens: an owner with or without `*.`, an optional TTL and class, a type
    and data, says a suffix or an exact entry of the owner's name with what the type stands for.
   */
  lemma RecordSays(wild: bool, name: string, ttl: seq<string>, cls: seq<string>, rtype: string, data: seq<string>, ip: AddressParser)
    requires Optional(ttl, IsTtl) && Optional(cls, IsClassIn)
    requires !AllDigits(rtype) && Lower(rtype) != "in" && (wild || !StartsWith(name, "*."))
    requires forall t :: t in [Owner(wild, name)] + ttl + cls + [rtype] + data ==> IsToken(t)
    ensures Records(LineSays(Join([Owner(wild, name)] + ttl + cls + [rtype] + data, ' '), ip), wild, name, rtype, Join(data, ' '), ip)
  {
    hide Join, SplitWhitespace, IsToken, NormalizeName, Upper, Lower;
    var owner := Owner(wild, name);
    LineForms(owner, ttl, cls, rtype, data, ip);
    var plain := [owner, rtype] + data;
    TokensSplitBack(plain);
    assert plain[2..] == data;
    assert wild ==> owner[2..] == name;
  }

  /** An owner with a TTL or a class and nothing more lacks its type. */
  lemma TypeMissing(owner: string, ttl: seq<string>, cls: seq<string>, ip: AddressParser)
    requires Optional(ttl, IsTtl) && Optional(cls, IsClassIn) && ttl + cls != []
    requires forall t :: t in [owner] + ttl + cls ==> IsToken(t)
    ensures LineSays(Join([owner] + ttl + cls, ' '), ip) == Err(MissingType)
  {
    hide Join, SplitWhitespace, IsToken;
    var parts := [owner] + ttl + cls;
    TokensSplitBack(parts);
    if |cls| == 1 {
      assert parts[|parts| - 1] == cls[0] && Lower(cls[0])[0] == 'i';
      assert cls[0][0] in cls[0] && !AllDigits(cls[0]);
    }
    if |ttl| == 1 {
      assert parts[1] == ttl[0];
    }
  }

  /** A line of one token is a policy entry: of a suffix with a leading dot, of the name itself without. */
  lemma SingleSays(name: string, ip: AddressParser)
    ensures IsToken("." + name) ==> LineSays("." + name, ip) == Ok(Some(Suffix(NormalizeName(name), Policy)))
    ensures IsToken(name) && !StartsWith(name, ".") ==> LineSays(name, ip) == Ok(Some(Exact(NormalizeName(name), Policy)))
  {
    hide SplitWhitespace, IsToken, NormalizeName;
    if IsToken("." + name) {
      TokenThenRest("." + name, "");
      assert ("." + name)[1..] == name;
    }
    if IsToken(name) {
      TokenThenRest(name, "");
    }
  }

  predicate Plain(s: string) { forall c :: c in s ==> !CommentMark(c) && c != '"' }

  lemma {:induction false} UncommentedPlain(line: string, comment: string)
    requires Plain(line) && (comment == [] || CommentMark(comment[0]))
    ensures Uncommented(line + comment, false) == line
  {
    if line == [] {
      assert line + comment == comment;
    } else {
      assert line[0] in line && (line + comment)[1..] == line[1..] + comment;
      UncommentedPlain(line[1..], comment);
    }
  }

  /** Indentation, trailing blanks and a comment change nothing of what a line says. */
  lemma WrittenLine(front: string, line: string, back: string, comment: string, ip: AddressParser)
    requires Blanks(front) && Blanks(back) && Plain(front + line + back) && (comment == [] || CommentMark(comment[0]))
    requires line != [] && Trimmed(line) && line[0] != '$'
    ensures RawLineSays(front + line + back + comment, ip) == LineSays(line, ip)
  {
    hide Trim, LineSays;
    UncommentedPlain(front + line + back, comment);
    TrimOf(front, line, back);
  }

  /** A line of blanks, comments or a `$` directive says nothing. */
  lemma SaysNothing(front: string, rest: string, comment: string, ip: AddressParser)
    requires Blanks(front) && Plain(front + rest) && (comment == [] || CommentMark(comment[0]))
    requires rest == [] || rest[0] == '$'
    ensures RawLineSays(front + rest + comment, ip) == Ok(None)
  {
    hide Trim, LineSays, IsWhitespace;
    UncommentedPlain(front + rest, comment);
    if rest == [] {
      TrimOf(front, "", "");
      assert front + "" + "" == front + rest;
    } else {
      DirectiveTrims(front, rest);
    }
  }

  lemma DirectiveTrims(front: string, rest: string)
    requires Blanks(front) && rest != [] && rest[0] == '$'
    ensures Trim(front + rest) != [] && Trim(front + rest)[0] == '$'
  {
    assert !IsWhitespace('$');
    hide TrimStart, TrimEnd, IsWhitespace;
    TrimStartOf(front, rest);
    EndTrims(rest);
  }

  lemma EndTrims(s: string)
    requires s != [] && !IsWhitespace(s[0])
    ensures TrimEnd(s) == [s[0]] + TrimEnd(s[1..])
  {
    hide TrimEnd, IsWhitespace;
    TrimEndAfter([s[0]], s[1..]);
    assert [s[0]] + s[1..] == s;
  }

  // ----- what a zone answers, from its entries alone -----

  /** `i` is the last exact entry for `name`. */
  predicate LastExact(entries: seq<Entry>, name: string, i: nat) {
    && i < |entries| && entries[i].Exact? && entries[i].name == name
    && forall j :: i < j < |entries| && entries[j].Exact? ==> entries[j].name != name
  }

  /** `i` is the first suffix entry accepted by `hit`. */
  predicate FirstSuffix(entries: seq<Entry>, hit: string -> bool, i: nat) {
    && i < |entries| && entries[i].Suffix? && hit(entries[i].name)
    && forall j :: 0 <= j < i && entries[j].Suffix? ==> !hit(entries[j].name)
  }

  predicate NoExact(entries: seq<Entry>, name: string) {
    forall i :: 0 <= i < |entries| && entries[i].Exact? ==> entries[i].name != name
  }

  predicate NoSuffix(entries: seq<Entry>, hit: string -> bool) {
    forall i :: 0 <= i < |entries| && entries[i].Suffix? ==> !hit(entries[i].name)
  }

  /** A suffix matches when its labels are the last labels of the name. */
  function TailOf(name: string): string -> bool {
    suffix => IsTail(Split(suffix, '.'), Split(name, '.'))
  }

  /** The same test as the code makes it, on characters. */
  function EndOf(name: string): string -> bool {
    suffix => name == suffix || EndsWith(name, "." + suffix)
  }

  /** `r` is what the entries say about `name`: the last exact line, else the first suffix line. */
  ghost predicate Answers(entries: seq<Entry>, name: string, hit: string -> bool, r: Option<Action>) {
    if !NoExact(entries, name) then exists i: nat :: LastExact(entries, name, i) && r == Some(entries[i].action)
    else if !NoSuffix(entries, hit) then exists i: nat :: FirstSuffix(entries, hit, i) && r == Some(entries[i].action)
    else r == None
  }

  // ----- from the lines of a text to its answers -----

  /** The error of a text is that of its first bad line, counted from 1. */
  ghost predicate FirstBad(said: seq<Result<Option<Entry>, LineError>>, error: ZoneError) {
    && 1 <= error.line <= |said| && said[error.line - 1] == Err(error.error)
    && forall k :: 0 <= k < error.line - 1 ==> said[k].Ok?
  }

  lemma {:induction false} CollectFails(said: seq<Result<Option<Entry>, LineError>>)
    ensures Collect(said).Ok? <==> forall k :: 0 <= k < |said| ==> said[k].Ok?
    ensures Collect(said).Err? ==> FirstBad(said, Collect(said).error)
  {
    if said != [] {
      var front := said[..|said| - 1];
      CollectFails(front);
      assert forall k :: 0 <= k < |front| ==> front[k] == said[k];
    }
  }

  lemma {:induction false} CollectAt(said: seq<Result<Option<Entry>, LineError>>, i: nat)
    requires Collect(said).Ok? && i <= |said|
    ensures Collect(said[..i]).Ok? && Collect(said[..i]).value <= Collect(said).value
    decreases |said|
  {
    if i == |said| {
      assert said[..i] == said;
    } else {
      var front := said[..|said| - 1];
      CollectAt(front, i);
      assert front[..i] == said[..i];
    }
  }

  /** The entries are what some line says. */
  lemma {:induction false} CollectFrom(said: seq<Result<Option<Entry>, LineError>>, e: Entry)
    requires Collect(said).Ok? && e in Collect(said).value
    ensures exists k :: 0 <= k < |said| && said[k] == Ok(Some(e))
  {
    var last := |said| - 1;
    if said[last] != Ok(Some(e)) {
      CollectFrom(said[..last], e);
      var k :| 0 <= k < last && said[..last][k] == Ok(Some(e));
      assert said[k] == Ok(Some(e));
    }
  }

  /** A line that says an entry puts it after the entries of the lines before it. */
  lemma CollectPlaces(said: seq<Result<Option<Entry>, LineError>>, i: nat, e: Entry)
    requires Collect(said).Ok? && i < |said| && said[i] == Ok(Some(e))
    ensures var entries, before := Collect(said).value, Collect(said[..i]);
            before.Ok? && |before.value| < |entries| && before.value <= entries && entries[|before.value|] == e
  {
    CollectAt(said, i);
    CollectAt(said, i + 1);
    assert said[..i + 1][..i] == said[..i];
  }

  /** No line before `n` says an entry of this kind and name. */
  ghost predicate NoLine(said: seq<Result<Option<Entry>, LineError>>, n: nat, bad: Entry -> bool)
    requires n <= |said|
  {
    forall k, e :: 0 <= k < n && said[k] == Ok(Some(e)) ==> !bad(e)
  }

  lemma NoLineNoEntry(said: seq<Result<Option<Entry>, LineError>>, bad: Entry -> bool)
    requires Collect(said).Ok? && NoLine(said, |said|, bad)
    ensures forall e :: e in Collect(said).value ==> !bad(e)
  {
    forall e | e in Collect(said).value
      ensures !bad(e)
    {
      CollectFrom(said, e);
      var k :| 0 <= k < |said| && said[k] == Ok(Some(e));
    }
  }

  function ExactOf(name: string): Entry -> bool { (e: Entry) => e.Exact? && e.name == name }

  function SuffixIn(hit: string -> bool): Entry -> bool { (e: Entry) => e.Suffix? && hit(e.name) }

  /**
    A suffix line of an accepted text decides every name that ends in its labels, if no line of the text
    names that name exactly and no earlier suffix line ends it too.
   */
  lemma SuffixLineAnswers(text: string, ip: AddressParser, i: nat, suffix: string, action: Action, name: string)
    requires ZoneEntries(text, ip).Ok? && i < |FileSays(text, ip)| && FileSays(text, ip)[i] == Ok(Some(Suffix(suffix, action)))
    requires IsTail(Split(suffix, '.'), Split(name, '.'))
    requires NoLine(FileSays(text, ip), |FileSays(text, ip)|, ExactOf(name)) && NoLine(FileSays(text, ip), i, SuffixIn(TailOf(name)))
    ensures Answers(ZoneEntries(text, ip).value, name, TailOf(name), Some(action))
  {
    hide FileSays, Split, IsTail;
    var said := FileSays(text, ip);
    var entries := Collect(said).value;
    CollectPlaces(said, i, Suffix(suffix, action));
    var at := |Collect(said[..i]).value|;
    NoLineNoEntry(said, ExactOf(name));
    assert NoExact(entries, name) by {
      forall k | 0 <= k < |entries| && entries[k].Exact?
        ensures entries[k].name != name
      {
        assert !ExactOf(name)(entries[k]);
      }
    }
    assert forall k :: 0 <= k < i ==> said[..i][k] == said[k];
    NoLineNoEntry(said[..i], SuffixIn(TailOf(name)));
    forall k | 0 <= k < at && entries[k].Suffix?
      ensures !TailOf(name)(entries[k].name)
    {
      assert entries[k] == Collect(said[..i]).value[k];
      assert !SuffixIn(TailOf(name))(entries[k]);
    }
    assert FirstSuffix(entries, TailOf(name), at);
  }

  /** An exact line decides its name, if no later line names it exactly, whatever the suffix lines say. */
  lemma ExactLineAnswers(text: string, ip: AddressParser, i: nat, name: string, action: Action)
    requires ZoneEntries(text, ip).Ok? && i < |FileSays(text, ip)| && FileSays(text, ip)[i] == Ok(Some(Exact(name, action)))
    requires forall k, e :: i < k < |FileSays(text, ip)| && FileSays(text, ip)[k] == Ok(Some(e)) ==> !ExactOf(name)(e)
    ensures Answers(ZoneEntries(text, ip).value, name, TailOf(name), Some(action))
  {
    hide FileSays;
    var said := FileSays(text, ip);
    var entries := Collect(said).value;
    CollectPlaces(said, i, Exact(name, action));
    var at := |Collect(said[..i]).value|;
    LaterFrom(said, i, ExactOf(name));
    assert said[..i + 1][..i] == said[..i];
    forall k | at < k < |entries| && entries[k].Exact?
      ensures entries[k].name != name
    {
      assert !ExactOf(name)(entries[k]);
    }
    assert LastExact(entries, name, at);
  }

  /** Entries after those of the first `i + 1` lines are said by later lines. */
  lemma {:induction false} LaterFrom(said: seq<Result<Option<Entry>, LineError>>, i: nat, bad: Entry -> bool)
    requires Collect(said).Ok? && i < |said|
    requires forall k, e :: i < k < |said| && said[k] == Ok(Some(e)) ==> !bad(e)
    ensures Collect(said[..i + 1]).Ok?
    ensures forall m :: |Collect(said[..i + 1]).value| <= m < |Collect(said).value| ==> !bad(Collect(said).value[m])
    decreases |said|
  {
    if i + 1 == |said| {
      assert said[..i + 1] == said;
    } else {
      var last := |said| - 1;
      var front := said[..last];
      LaterFrom(front, i, bad);
      assert front[..i + 1] == said[..i + 1];
    }
  }

  // ----- the index -----

  function ExactIndex(entries: seq<Entry>): map<string, Action> {
    if entries == [] then map[]
    else
      var last := entries[|entries| - 1];
      var before := ExactIndex(entries[..|entries| - 1]);
      if last.Exact? then before[last.name := last.action] else before
  }

  function SuffixIndex(entries: seq<Entry>): seq<(string, Action)> {
    if entries == [] then []
    else
      var last := entries[|entries| - 1];
      var before := SuffixIndex(entries[..|entries| - 1]);
      if last.Suffix? then before + [(last.name, last.action)] else before
  }

  function FirstMatch(suffixes: seq<(string, Action)>, hit: string -> bool): Option<Action> {
    if suffixes == [] then None
    else if hit(suffixes[0].0) then Some(suffixes[0].1)
    else FirstMatch(suffixes[1..], hit)
  }

  function IndexLookup(exact: map<string, Action>, suffixes: seq<(string, Action)>, name: string): Option<Action> {
    if name in exact then Some(exact[name]) else FirstMatch(suffixes, EndOf(name))
  }

  lemma {:induction false} ExactIndexAnswers(entries: seq<Entry>, name: string)
    ensures name in ExactIndex(entries) <==> !NoExact(entries, name)
    ensures name in ExactIndex(entries) ==>
      exists i: nat :: LastExact(entries, name, i) && ExactIndex(entries)[name] == entries[i].action
  {
    if entries != [] {
      var n := |entries| - 1;
      var before := entries[..n];
      ExactIndexAnswers(before, name);
      if entries[n].Exact? && entries[n].name == name {
        assert LastExact(entries, name, n);
      } else if name in ExactIndex(before) {
        var i: nat :| LastExact(before, name, i) && ExactIndex(before)[name] == before[i].action;
        assert before[i] == entries[i];
        assert LastExact(entries, name, i);
      } else {
        assert forall j :: 0 <= j < n ==> before[j] == entries[j];
      }
    }
  }

  lemma {:induction false} FirstMatchAppend(suffixes: seq<(string, Action)>, more: (string, Action), hit: string -> bool)
    ensures FirstMatch(suffixes + [more], hit) ==
            if FirstMatch(suffixes, hit).Some? then FirstMatch(suffixes, hit)
            else if hit(more.0) then Some(more.1) else None
  {
    if suffixes != [] {
      assert (suffixes + [more])[1..] == suffixes[1..] + [more];
      FirstMatchAppend(suffixes[1..], more, hit);
    } else {
      assert [more][1..] == [];
    }
  }

  lemma {:induction false} SuffixIndexAnswers(entries: seq<Entry>, hit: string -> bool)
    ensures FirstMatch(SuffixIndex(entries), hit) == None <==> NoSuffix(entries, hit)
    ensures !NoSuffix(entries, hit) ==>
      exists i: nat :: FirstSuffix(entries, hit, i) && FirstMatch(SuffixIndex(entries), hit) == Some(entries[i].action)
  {
    if entries != [] {
      var n := |entries| - 1;
      var before, last := entries[..n], entries[n];
      SuffixIndexAnswers(before, hit);
      if last.Suffix? {
        FirstMatchAppend(SuffixIndex(before), (last.name, last.action), hit);
      }
      assert forall j :: 0 <= j < n ==> before[j] == entries[j];
      if !NoSuffix(before, hit) {
        var i: nat :| FirstSuffix(before, hit, i) && FirstMatch(SuffixIndex(before), hit) == Some(before[i].action);
        assert FirstSuffix(entries, hit, i);
      } else if last.Suffix? && hit(last.name) {
        assert FirstSuffix(entries, hit, n);
      }
    }
  }

  /** Suffix tests that agree find the same match. */
  lemma {:induction false} SameMatch(suffixes: seq<(string, Action)>, hit: string -> bool, hit': string -> bool)
    requires forall s: string :: hit(s) == hit'(s)
    ensures FirstMatch(suffixes, hit) == FirstMatch(suffixes, hit')
  {
    if suffixes != [] {
      SameMatch(suffixes[1..], hit, hit');
    }
  }

  /** The two-part index agrees with the entries: last exact line, else first label-suffix line. */
  lemma IndexAnswers(entries: seq<Entry>, name: string)
    ensures Answers(entries, name, TailOf(name), IndexLookup(ExactIndex(entries), SuffixIndex(entries), name))
  {
    forall s: string
      ensures TailOf(name)(s) == EndOf(name)(s)
    {
      SuffixTestIsLabelTail(name, s, '.');
    }
    SameMatch(SuffixIndex(entries), TailOf(name), EndOf(name));
    ExactIndexAnswers(entries, name);
    SuffixIndexAnswers(entries, TailOf(name));
  }

  /** The entries determine the answer. */
  lemma AnswersUnique(entries: seq<Entry>, name: string, hit: string -> bool, r: Option<Action>, r': Option<Action>)
    requires Answers(entries, name, hit, r) && Answers(entries, name, hit, r')
    ensures r == r'
  {
    if !NoExact(entries, name) {
      var i: nat :| LastExact(entries, name, i) && r == Some(entries[i].action);
      var j: nat :| LastExact(entries, name, j) && r' == Some(entries[j].action);
      assert i == j;
    } else if !NoSuffix(entries, hit) {
      var i: nat :| FirstSuffix(entries, hit, i) && r == Some(entries[i].action);
      var j: nat :| FirstSuffix(entries, hit, j) && r' == Some(entries[j].action);
      assert i == j;
    }
  }

  /** `strip_comment`: the loop with its quote flag. */
  method StripComment(line: string) returns (out: string)
    ensures out == Uncommented(line, false)
  {
    out := "";
    var inQuote := false;
    for i := 0 to |line|
      invariant Uncommented(line, false) == out + Uncommented(line[i..], inQuote)
    {
      assert line[i..][1..] == line[i + 1..];
      if line[i] == '"' {
        inQuote := !inQuote;
      }
      if !inQuote && (line[i] == ';' || line[i] == '#') {
        return;
      }
      out := out + [line[i]];
    }
  }

  class Zone {
    var exact: map<string, Action>
    var suffixes: seq<(string, Action)>

    /** The index holds exactly these entries. */
    ghost predicate Indexes(entries: seq<Entry>)
      reads this
    {
      exact == ExactIndex(entries) && suffixes == SuffixIndex(entries)
    }

    constructor ()
      ensures Indexes([])
    {
      exact, suffixes := map[], [];
    }

    /** `parse_line`: adds what the line says, or reports why it cannot. */
    method ParseLine(line: string, ip: AddressParser, ghost entries: seq<Entry>) returns (bad: Option<LineError>)
      requires Indexes(entries)
      modifies this
      ensures match LineSays(line, ip)
              case Err(e) => bad == Some(e) && Indexes(entries)
              case Ok(None) => bad == None && Indexes(entries)
              case Ok(Some(e)) => bad == None && Indexes(entries + [e])
    {
      hide SplitWhitespace, NormalizeName, Join, Upper, Lower, ExactIndex, SuffixIndex;
      var parts := SplitWhitespace(line);
      if parts == [] {
        return None;
      }
      if |parts| == 1 {
        var token := parts[0];
        if StartsWith(token, ".") {
          Add(Suffix(NormalizeName(token[1..]), Policy), entries);
        } else {
          Add(Exact(NormalizeName(token), Policy), entries);
        }
        return None;
      }
      var idx := 1;
      if AllDigits(parts[idx]) {
        idx := idx + 1;
      }
      if idx < |parts| && Lower(parts[idx]) == "in" {
        idx := idx + 1;
      }
      if idx >= |parts| {
        return Some(MissingType);
      }
      var rtype := Upper(parts[idx]);
      idx := idx + 1;
      var rdata := Join(parts[idx..], ' ');
      var suffix := StartsWith(parts[0], "*.");
      var name := NormalizeName(if suffix then parts[0][2..] else parts[0]);
      var action: Action;
      if rtype == "CNAME" {
        action := Policy;
      } else if rtype == "A" {
        var a := ip.v4(rdata);
        if a.None? {
          return Some(BadA);
        }
        action := A(a.value);
      } else if rtype == "AAAA" {
        var a := ip.v6(rdata);
        if a.None? {
          return Some(BadAaaa);
        }
        action := Aaaa(a.value);
      } else {
        return Some(UnsupportedType(rtype));
      }
      Add(if suffix then Suffix(name, action) else Exact(name, action), entries);
      return None;
    }

    method Add(e: Entry, ghost entries: seq<Entry>)
      requires Indexes(entries)
      modifies this
      ensures Indexes(entries + [e])
    {
      assert (entries + [e])[..|entries|] == entries;
      match e
      case Exact(name, action) => exact := exact[name := action];
      case Suffix(name, action) => suffixes := suffixes + [(name, action)];
    }

    /** `lookup`: a map probe, then a scan of the suffixes in order. */
    method Lookup(qname: string, ghost entries: seq<Entry>) returns (r: Option<Action>)
      requires Indexes(entries)
      ensures r == IndexLookup(ExactIndex(entries), SuffixIndex(entries), NormalizeName(qname))
      ensures Answers(entries, NormalizeName(qname), TailOf(NormalizeName(qname)), r)
    {
      var name := NormalizeName(qname);
      IndexAnswers(entries, name);
      if name in exact {
        return Some(exact[name]);
      }
      r := Scan(suffixes, EndOf(name));
    }
  }

  method Scan(suffixes: seq<(string, Action)>, hit: string -> bool) returns (r: Option<Action>)
    ensures r == FirstMatch(suffixes, hit)
  {
    for i := 0 to |suffixes|
      invariant FirstMatch(suffixes, hit) == FirstMatch(suffixes[i..], hit)
    {
      assert suffixes[i..][1..] == suffixes[i + 1..];
      if hit(suffixes[i].0) {
        return Some(suffixes[i].1);
      }
    }
    return None;
  }

  /** `Zone::parse`: every accepted text gives an index of its entries; the first bad line is reported. */
  method ParseZone(text: string, ip: AddressParser) returns (zone: Zone, error: Option<ZoneError>)
    ensures fresh(zone)
    ensures match ZoneEntries(text, ip)
            case Err(e) => error == Some(e)
            case Ok(entries) => error == None && zone.Indexes(entries)
  {
    hide Trim, Uncommented, LineSays, Lines;
    zone := new Zone();
    var lines := Lines(text);
    ghost var said := FileSays(text, ip);
    ghost var entries: seq<Entry> := [];
    for i := 0 to |lines|
      invariant fresh(zone)
      invariant Collect(said[..i]) == Ok(entries) && zone.Indexes(entries)
    {
      assert said[..i + 1][..i] == said[..i];
      FirstErrorStays(said, i + 1);
      var cleaned := StripComment(lines[i]);
      var line := Trim(cleaned);
      if line == "" || line[0] == '$' {
        continue;
      }
      assert said[i] == LineSays(line, ip);
      var bad := zone.ParseLine(line, ip, entries);
      if bad.Some? {
        return zone, Some(ZoneError(i + 1, bad.value));
      }
      if said[i].value.Some? {
        entries := entries + [said[i].value.value];
      }
    }
    assert said[..|lines|] == said;
    error := None;
  }

  lemma {:induction false} FirstErrorStays(said: seq<Result<Option<Entry>, LineError>>, n: nat)
    requires n <= |said|
    ensures Collect(said[..n]).Err? ==> Collect(said) == Collect(said[..n])
    decreases |said|
  {
    if n < |said| {
      var front := said[..|said| - 1];
      FirstErrorStays(front, n);
      assert front[..n] == said[..n];
    } else {
      assert said[..n] == said;
    }
  }
}
