/** Strings as the Rust standard library treats them: sequences of Unicode scalar values. */
module Text {

  datatype Option<+T> = None | Some(value: T)

  datatype Result<+T, +E> = Ok(value: T) | Err(error: E)

  // ----- walking a hash map -----

  /** `order` lists the keys of a map, each once, as its iteration would. */
  ghost predicate IsListing(order: seq<string>, keys: set<string>) {
    && (forall k :: k in keys <==> k in order)
    && (forall i, j :: 0 <= i < j < |order| ==> order[i] != order[j])
  }

  // ----- characters -----

  function LowerChar(c: char): char {
    if 'A' <= c <= 'Z' then (c as int + 32) as char else c
  }

  /** `str::to_ascii_lowercase`. */
  function Lower(s: string): (r: string)
    ensures |r| == |s|
  {
    seq(|s|, i requires 0 <= i < |s| => LowerChar(s[i]))
  }

  lemma LowerConcat(a: string, b: string)
    ensures Lower(a + b) == Lower(a) + Lower(b)
  {
  }

  lemma LowerIdempotent(s: string)
    ensures Lower(Lower(s)) == Lower(s)
  {
    assert forall i :: 0 <= i < |s| ==> Lower(Lower(s))[i] == Lower(s)[i];
  }

  /** Equal up to the case of an ASCII letter. */
  predicate SameLetter(c: char, d: char) {
    || c == d
    || ('A' <= c <= 'Z' && d as int == c as int + 32)
    || ('A' <= d <= 'Z' && c as int == d as int + 32)
  }

  predicate SameLetters(a: string, b: string) {
    |a| == |b| && forall i :: 0 <= i < |a| ==> SameLetter(a[i], b[i])
  }

  /** Lower-casing tells strings apart exactly when they differ in more than the case of ASCII letters. */
  lemma LowerSame(a: string, b: string)
    ensures Lower(a) == Lower(b) <==> SameLetters(a, b)
  {
    if Lower(a) == Lower(b) {
      forall i | 0 <= i < |a|
        ensures SameLetter(a[i], b[i])
      {
        assert Lower(a)[i] == Lower(b)[i];
      }
    }
  }

  /** `char::is_whitespace`: the Unicode White_Space property. */
  predicate IsWhitespace(c: char) {
    var v := c as int;
    || 9 <= v <= 13 || v == 0x20 || v == 0x85 || v == 0xA0 || v == 0x1680
    || 0x2000 <= v <= 0x200A || v == 0x2028 || v == 0x2029 || v == 0x202F
    || v == 0x205F || v == 0x3000
  }

  predicate IsDigit(c: char) { '0' <= c <= '9' }

  // ----- trimming -----

  function TrimStart(s: string): (r: string)
    ensures r == [] || !IsWhitespace(r[0])
    ensures |r| <= |s| && r == s[|s| - |r|..]
  {
    if s != [] && IsWhitespace(s[0]) then TrimStart(s[1..]) else s
  }

  function TrimEnd(s: string): (r: string)
    ensures r == [] || !IsWhitespace(r[|r| - 1])
    ensures r <= s
  {
    if s != [] && IsWhitespace(s[|s| - 1]) then TrimEnd(s[..|s| - 1]) else s
  }

  /** `str::trim`. */
  function Trim(s: string): (r: string) {
    TrimEnd(TrimStart(s))
  }

  predicate Blanks(s: string) { forall i :: 0 <= i < |s| ==> IsWhitespace(s[i]) }

  /** No whitespace at either end. */
  predicate Trimmed(s: string) { s != [] ==> !IsWhitespace(s[0]) && !IsWhitespace(s[|s| - 1]) }

  lemma {:induction false} TrimStartIs(s: string)
    ensures forall i :: 0 <= i < |s| - |TrimStart(s)| ==> IsWhitespace(s[i])
  {
    if s != [] && IsWhitespace(s[0]) {
      TrimStartIs(s[1..]);
      assert forall i :: 1 <= i < |s| ==> s[i] == s[1..][i - 1];
    }
  }

  lemma {:induction false} TrimEndIs(s: string)
    ensures forall i :: |TrimEnd(s)| <= i < |s| ==> IsWhitespace(s[i])
  {
    if s != [] && IsWhitespace(s[|s| - 1]) {
      TrimEndIs(s[..|s| - 1]);
    }
  }

  /** Trimming takes away whitespace at the ends and nothing else. */
  lemma TrimIs(s: string) returns (front: string, back: string)
    ensures s == front + Trim(s) + back
    ensures Blanks(front) && Blanks(back)
    ensures Trim(s) != [] ==> !IsWhitespace(Trim(s)[0]) && !IsWhitespace(Trim(s)[|Trim(s)| - 1])
  {
    hide IsWhitespace, TrimStart, TrimEnd;
    var mid := TrimStart(s);
    TrimStartIs(s);
    TrimEndIs(mid);
    front, back := s[..|s| - |mid|], mid[|Trim(s)|..];
  }

  lemma {:induction false} TrimStartOf(front: string, s: string)
    requires Blanks(front) && (s == [] || !IsWhitespace(s[0]))
    ensures TrimStart(front + s) == s
  {
    hide IsWhitespace;
    if front == [] {
      assert front + s == s;
    } else {
      assert (front + s)[1..] == front[1..] + s;
      TrimStartOf(front[1..], s);
    }
  }

  lemma {:induction false} TrimEndOf(s: string, back: string)
    requires Blanks(back) && (s == [] || !IsWhitespace(s[|s| - 1]))
    ensures TrimEnd(s + back) == s
  {
    hide IsWhitespace;
    if back == [] {
      assert s + back == s;
    } else {
      assert (s + back)[..|s + back| - 1] == s + back[..|back| - 1];
      TrimEndOf(s, back[..|back| - 1]);
    }
  }

  /** So trimming gives back exactly the text between the whitespace. */
  lemma TrimOf(front: string, s: string, back: string)
    requires Blanks(front) && Blanks(back) && Trimmed(s)
    ensures Trim(front + s + back) == s
  {
    hide IsWhitespace, TrimStart, TrimEnd;
    if s == [] {
      assert front + s + back == (front + back) + [];
      TrimStartOf(front + back, []);
      TrimEndOf([], []);
      assert "" + "" == "";
    } else {
      assert front + s + back == front + (s + back);
      TrimStartOf(front, s + back);
      TrimEndOf(s, back);
    }
  }

  lemma TrimKeeps(s: string, c: char)
    requires c !in s
    ensures c !in Trim(s)
  {
  }

  lemma {:induction false} TrimStartBefore(s: string, rest: string)
    requires rest != [] && !IsWhitespace(rest[0])
    ensures TrimStart(s + rest) == TrimStart(s) + rest
  {
    hide IsWhitespace;
    if s == [] {
      assert s + rest == rest && TrimStart(s) + rest == rest;
    } else {
      assert (s + rest)[1..] == s[1..] + rest;
      TrimStartBefore(s[1..], rest);
    }
  }

  lemma {:induction false} TrimEndAfter(front: string, s: string)
    requires front != [] && !IsWhitespace(front[|front| - 1])
    ensures TrimEnd(front + s) == front + TrimEnd(s)
  {
    hide IsWhitespace;
    if s == [] {
      assert front + s == front && front + TrimEnd(s) == front;
    } else {
      assert (front + s)[..|front + s| - 1] == front + s[..|s| - 1];
      TrimEndAfter(front, s[..|s| - 1]);
    }
  }

  /** Around a character that is not whitespace, each side is trimmed at its own end. */
  lemma TrimAround(left: string, c: char, right: string)
    requires !IsWhitespace(c)
    ensures Trim(left + [c] + right) == TrimStart(left) + [c] + TrimEnd(right)
  {
    hide TrimStart, TrimEnd, IsWhitespace;
    assert left + [c] + right == left + ([c] + right);
    TrimStartBefore(left, [c] + right);
    var head := TrimStart(left) + [c];
    assert TrimStart(left) + ([c] + right) == head + right;
    TrimEndAfter(head, right);
  }

  lemma TrimTwice(s: string)
    ensures Trim(TrimStart(s)) == Trim(s) && Trim(TrimEnd(s)) == Trim(s)
  {
    assert TrimStart(TrimStart(s)) == TrimStart(s);
    var front, back := TrimIs(s);
    TrimOfEnd(s, front, Trim(s), back);
  }

  lemma TrimOfEnd(s: string, front: string, core: string, back: string)
    requires s == front + core + back && Blanks(front) && Blanks(back) && Trimmed(core)
    ensures Trim(TrimEnd(s)) == core
  {
    hide TrimStart, TrimEnd, Trim, IsWhitespace;
    if core == [] {
      assert s == "" + (front + back);
      TrimEndOf("", front + back);
      TrimOf("", "", "");
      assert "" + "" + "" == "";
    } else {
      TrimEndOf(front + core, back);
      TrimOf(front, core, "");
      assert front + core + "" == front + core;
    }
  }

  /** Given, and not blank. */
  predicate Present(s: Option<string>) { s.Some? && Trim(s.value) != "" }

  /** `str::trim_end_matches(c)`. */
  function TrimEndChar(s: string, c: char): (r: string)
    ensures r == [] || r[|r| - 1] != c
    ensures r <= s
  {
    if s != [] && s[|s| - 1] == c then TrimEndChar(s[..|s| - 1], c) else s
  }

  lemma {:induction false} TrimEndCharOf(s: string, c: char, n: nat)
    requires s == [] || s[|s| - 1] != c
    ensures TrimEndChar(s + seq(n, _ => c), c) == s
  {
    var all := s + seq(n, _ => c);
    if n == 0 {
      assert all == s;
    } else {
      assert all[..|all| - 1] == s + seq(n - 1, _ => c);
      TrimEndCharOf(s, c, n - 1);
    }
  }

  // ----- prefixes and suffixes -----

  predicate StartsWith(s: string, prefix: string) { prefix <= s }

  predicate EndsWith(s: string, suffix: string) {
    |suffix| <= |s| && s[|s| - |suffix|..] == suffix
  }

  /** Sequences that agree on a range agree on every smaller range. */
  lemma SliceWithin<T>(s: seq<T>, t: seq<T>, a: nat, b: nat, c: nat, d: nat)
    requires a <= c <= d <= b <= |s| && b <= |t|
    requires s[a..b] == t[a..b]
    ensures s[c..d] == t[c..d]
  {
    forall i | c <= i < d
      ensures s[i] == t[i]
    {
      assert s[i] == s[a..b][i - a] && t[i] == t[a..b][i - a];
    }
  }

  /** Where a concatenation stands in a sequence, its two halves stand side by side. */
  lemma SliceOfConcat<T>(s: seq<T>, off: nat, a: seq<T>, b: seq<T>)
    requires off + |a| + |b| <= |s|
    requires s[off..off + |a| + |b|] == a + b
    ensures s[off..off + |a|] == a
    ensures s[off + |a|..off + |a| + |b|] == b
  {
    var whole := s[off..off + |a| + |b|];
    assert forall i :: 0 <= i < |a| ==> s[off + i] == whole[i] == a[i];
    assert forall i :: 0 <= i < |b| ==> s[off + |a| + i] == whole[|a| + i] == b[i];
  }

  // ----- splitting and joining -----

  /** `str::split(c)`: always at least one piece. */
  function Split(s: string, c: char): (r: seq<string>)
    ensures |r| >= 1
  {
    if s == [] then [""]
    else
      var rest := Split(s[1..], c);
      if s[0] == c then [""] + rest else [[s[0]] + rest[0]] + rest[1..]
  }

  /** `[_]::join(c)` for a one-character separator. */
  function Join(parts: seq<string>, c: char): string {
    if parts == [] then ""
    else if |parts| == 1 then parts[0]
    else parts[0] + [c] + Join(parts[1..], c)
  }

  lemma {:induction false} SplitPieces(s: string, c: char)
    ensures forall p :: p in Split(s, c) ==> c !in p
  {
    if s != [] {
      SplitPieces(s[1..], c);
    }
  }

  lemma SplitStep(s: string, c: char)
    requires s != []
    ensures var rest := Split(s[1..], c);
            Split(s, c) == if s[0] == c then [""] + rest else [[s[0]] + rest[0]] + rest[1..]
  {
  }

  lemma FirstPiece(x: seq<string>, y: seq<string>, front: string)
    requires x != []
    ensures [front + (x + y)[0]] + (x + y)[1..] == [front + x[0]] + x[1..] + y
    ensures [""] + (x + y) == [""] + x + y
  {
  }

  lemma {:induction false} SplitConcat(a: string, b: string, c: char)
    ensures Split(a + [c] + b, c) == Split(a, c) + Split(b, c)
  {
    var whole := a + [c] + b;
    SplitStep(whole, c);
    if a == [] {
      assert whole[1..] == b;
      assert Split(a, c) == [""];
    } else {
      hide Split;
      SplitStep(a, c);
      assert whole[1..] == a[1..] + [c] + b;
      SplitConcat(a[1..], b, c);
      var x, y := Split(a[1..], c), Split(b, c);
      FirstPiece(x, y, [a[0]]);
    }
  }

  lemma {:induction false} SplitWithout(a: string, c: char)
    requires c !in a
    ensures Split(a, c) == [a]
  {
    if a != [] {
      SplitWithout(a[1..], c);
      assert [a[0]] + a[1..] == a;
    }
  }

  lemma {:induction false} JoinConcat(a: seq<string>, b: seq<string>, c: char)
    requires a != [] && b != []
    ensures Join(a + b, c) == Join(a, c) + [c] + Join(b, c)
  {
    var ab := a + b;
    assert ab[1..] == a[1..] + b;
    if |a| > 1 {
      JoinConcat(a[1..], b, c);
    }
  }

  lemma JoinStep(rest: seq<string>, d: char, c: char)
    requires rest != []
    ensures Join([""] + rest, c) == [c] + Join(rest, c)
    ensures Join([[d] + rest[0]] + rest[1..], c) == [d] + Join(rest, c)
  {
    var blank, longer := [""] + rest, [[d] + rest[0]] + rest[1..];
    assert blank[1..] == rest && longer[1..] == rest[1..];
  }

  lemma {:induction false} JoinSplit(s: string, c: char)
    ensures Join(Split(s, c), c) == s
  {
    if s != [] {
      hide Join, Split;
      JoinSplit(s[1..], c);
      SplitStep(s, c);
      JoinStep(Split(s[1..], c), s[0], c);
    }
  }

  lemma {:induction false} SplitJoin(parts: seq<string>, c: char)
    requires parts != []
    requires forall p :: p in parts ==> c !in p
    ensures Split(Join(parts, c), c) == parts
  {
    SplitWithout(parts[0], c);
    if |parts| > 1 {
      SplitJoin(parts[1..], c);
      SplitConcat(parts[0], Join(parts[1..], c), c);
    }
  }

  /** Whether `tail` is the end of the list `labels`. */
  predicate IsTail(tail: seq<string>, labels: seq<string>) {
    |tail| <= |labels| && labels[|labels| - |tail|..] == tail
  }

  /** The character-level suffix test of a dotted name is the label-level one. */
  lemma SuffixTestIsLabelTail(name: string, suffix: string, c: char)
    ensures name == suffix || EndsWith(name, [c] + suffix) <==> IsTail(Split(suffix, c), Split(name, c))
  {
    var tail, labels := Split(suffix, c), Split(name, c);
    if name != suffix && EndsWith(name, [c] + suffix) {
      var front := name[..|name| - |suffix| - 1];
      assert name == front + [c] + suffix;
      SplitConcat(front, suffix, c);
    }
    if IsTail(tail, labels) {
      JoinSplit(name, c);
      JoinSplit(suffix, c);
      var front := labels[..|labels| - |tail|];
      assert labels == front + tail;
      if front == [] {
        assert labels == tail;
      } else {
        JoinConcat(front, tail, c);
        assert name[|name| - |suffix| - 1..] == [c] + suffix;
      }
    }
  }

  /** `str::split_whitespace`. */
  function SplitWhitespace(s: string): (r: seq<string>)
    decreases |s|
  {
    var t := TrimStart(s);
    if t == [] then []
    else
      var n := TokenLength(t);
      [t[..n]] + SplitWhitespace(t[n..])
  }

  function TokenLength(s: string): (n: nat)
    ensures n <= |s|
    ensures s != [] && !IsWhitespace(s[0]) ==> n > 0
  {
    if s == [] || IsWhitespace(s[0]) then 0 else 1 + TokenLength(s[1..])
  }

  lemma {:induction false} TokenLengthIs(token: string, rest: string)
    requires forall c :: c in token ==> !IsWhitespace(c)
    requires rest == [] || IsWhitespace(rest[0])
    ensures TokenLength(token + rest) == |token|
  {
    if token != [] {
      assert (token + rest)[1..] == token[1..] + rest;
      TokenLengthIs(token[1..], rest);
    }
  }

  predicate IsToken(s: string) { s != [] && forall c :: c in s ==> !IsWhitespace(c) }

  lemma SplitFirst(s: string)
    requires s != [] && !IsWhitespace(s[0])
    ensures SplitWhitespace(s) == [s[..TokenLength(s)]] + SplitWhitespace(s[TokenLength(s)..])
  {
    hide IsWhitespace, TokenLength;
    assert TrimStart(s) == s;
  }

  lemma SkipSpace(rest: string)
    ensures SplitWhitespace(" " + rest) == SplitWhitespace(rest)
  {
    assert (" " + rest)[1..] == rest;
    assert TrimStart(" " + rest) == TrimStart(rest);
  }

  lemma TokenThenRest(token: string, rest: string)
    requires IsToken(token)
    ensures SplitWhitespace(token) == [token]
    ensures SplitWhitespace(token + " " + rest) == [token] + SplitWhitespace(rest)
  {
    assert IsWhitespace(' ') && token[0] in token;
    hide SplitWhitespace, TokenLength, IsWhitespace;
    var tail := " " + rest;
    assert token + " " + rest == token + tail;
    TokenLengthIs(token, tail);
    SplitFirst(token + tail);
    assert (token + tail)[..|token|] == token && (token + tail)[|token|..] == tail;
    SkipSpace(rest);
    TokenLengthIs(token, []);
    assert token + [] == token && token[..|token|] == token && token[|token|..] == "";
    SplitFirst(token);
    NothingToSplit();
  }

  /** Tokens joined by single spaces split back into the same tokens. */
  lemma {:induction false} TokensSplitBack(tokens: seq<string>)
    requires forall t :: t in tokens ==> IsToken(t)
    ensures SplitWhitespace(Join(tokens, ' ')) == tokens
  {
    hide SplitWhitespace, IsToken;
    if tokens == [] {
      NothingToSplit();
    } else {
      TokenThenRest(tokens[0], Join(tokens[1..], ' '));
      if |tokens| > 1 {
        TokensSplitBack(tokens[1..]);
        assert tokens == [tokens[0]] + tokens[1..];
      }
    }
  }

  lemma NothingToSplit()
    ensures SplitWhitespace("") == []
  {
  }

  /** `str::lines`: split at newlines, one carriage return dropped, no final empty line. */
  function Lines(s: string): (r: seq<string>) {
    var pieces := Split(s, '\n');
    var kept := if pieces[|pieces| - 1] == "" then pieces[..|pieces| - 1] else pieces;
    seq(|kept|, i requires 0 <= i < |kept| =>
      if EndsWith(kept[i], "\r") then kept[i][..|kept[i]| - 1] else kept[i])
  }

  /** Lines that are each ended by a newline are the lines of the text. */
  lemma LinesOf(lines: seq<string>)
    requires forall i :: 0 <= i < |lines| ==> '\n' !in lines[i] && !EndsWith(lines[i], "\r")
    ensures Lines(if lines == [] then "" else Join(lines, '\n') + "\n") == lines
  {
    if lines == [] {
      assert Split("", '\n') == [""];
    } else {
      hide Join, Split, EndsWith;
      EndedPieces(lines);
      var pieces := lines + [""];
      assert pieces[..|lines|] == lines;
    }
  }

  lemma EndedPieces(lines: seq<string>)
    requires lines != [] && forall i :: 0 <= i < |lines| ==> '\n' !in lines[i]
    ensures Split(Join(lines, '\n') + "\n", '\n') == lines + [""]
  {
    hide Join, Split;
    SplitJoin(lines, '\n');
    SplitConcat(Join(lines, '\n'), "", '\n');
    assert Join(lines, '\n') + ['\n'] + "" == Join(lines, '\n') + "\n";
    SplitWithout("", '\n');
  }

  // ----- numbers -----

  /** The value of a digit string, most significant digit first. */
  function DigitsValue(s: string): nat
    requires forall c :: c in s ==> IsDigit(c)
  {
    if s == [] then 0
    else
      assert IsDigit(s[|s| - 1]);
      DigitsValue(s[..|s| - 1]) * 10 + (s[|s| - 1] as int - '0' as int)
  }

  /** `str::parse` for an unsigned type with the given maximum. */
  function ParseUnsigned(s: string, max: nat): (r: Option<nat>)
    ensures r.Some? ==> r.value <= max
  {
    var digits := if s != [] && s[0] == '+' then s[1..] else s;
    if digits == [] || exists i :: 0 <= i < |digits| && !IsDigit(digits[i]) then None
    else
      var v := DigitsValue(digits);
      if v <= max then Some(v) else None
  }

  /** A number as it is usually written. */
  function Decimal(n: nat): (s: string)
    ensures s != [] && forall i :: 0 <= i < |s| ==> IsDigit(s[i])
  {
    var last := [('0' as int + n % 10) as char];
    if n < 10 then last else Decimal(n / 10) + last
  }

  lemma {:induction false} DecimalValue(n: nat)
    ensures (forall c :: c in Decimal(n) ==> IsDigit(c)) && DigitsValue(Decimal(n)) == n
  {
    var s := Decimal(n);
    assert forall c :: c in s ==> IsDigit(c);
    if n < 10 {
      assert s[..0] == [];
    } else {
      DecimalValue(n / 10);
      assert s[..|s| - 1] == Decimal(n / 10);
    }
  }

  /** A number that is written is read back, if it fits. */
  lemma DecimalParses(n: nat, max: nat)
    ensures ParseUnsigned(Decimal(n), max) == if n <= max then Some(n) else None
  {
    hide DigitsValue, Decimal;
    DecimalValue(n);
  }

  lemma DecimalTrimmed(n: nat)
    ensures Trimmed(Decimal(n)) && Trim(Decimal(n)) == Decimal(n) && ':' !in Decimal(n)
  {
    var s := Decimal(n);
    assert forall c :: IsDigit(c) ==> !IsWhitespace(c) && c != ':';
    assert Trimmed(s);
    hide Trim, Decimal;
    TrimOf("", s, "");
    assert "" + s + "" == s;
  }
}
