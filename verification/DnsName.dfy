/**
  Domain names on the wire, as `dns-sinkhole/src/dns.rs` reads and writes them (RFC 1035, sections
  3.1 and 4.1.4). Compression pointers make a name a walk through the buffer; `IsWalk` says what
  such a walk is without saying how to follow it.
 */
module DnsName {
  import opened Text
  import opened Utf8

  const MAX_HOPS: nat := 10

  datatype NameError = NameOutOfBounds | BadPointer | PointerLoop | LabelOutOfBounds | LabelNotUtf8

  function Word(hi: int, lo: int): int { hi * 256 + lo }

  // ----- names as walks -----

  /** Both top bits set. */
  predicate IsPointer(b: byte) { b >= 0xC0 }

  function Target(buf: seq<byte>, off: nat): nat
    requires off + 1 < |buf| && IsPointer(buf[off])
  {
    Word(buf[off], buf[off + 1]) - 0xC000
  }

  predicate LabelStep(buf: seq<byte>, off: nat, next: nat) {
    && off < |buf| && 0 < buf[off] && !IsPointer(buf[off])
    && next == off + 1 + buf[off] as int <= |buf|
    && Decode(buf[off + 1..next]).Some?
  }

  predicate PointerStep(buf: seq<byte>, off: nat, next: nat) {
    off + 1 < |buf| && IsPointer(buf[off]) && next == Target(buf, off)
  }

  /** `walk` lists the offsets a reader visits, ending at a zero byte. */
  predicate IsWalk(buf: seq<byte>, walk: seq<nat>) {
    && walk != []
    && if |walk| == 1 then walk[0] < |buf| && buf[walk[0]] == 0
       else (LabelStep(buf, walk[0], walk[1]) || PointerStep(buf, walk[0], walk[1])) && IsWalk(buf, walk[1..])
  }

  function Hops(buf: seq<byte>, walk: seq<nat>): nat
    requires IsWalk(buf, walk)
  {
    if |walk| == 1 then 0
    else (if PointerStep(buf, walk[0], walk[1]) then 1 else 0) + Hops(buf, walk[1..])
  }

  function WalkLabels(buf: seq<byte>, walk: seq<nat>): seq<string>
    requires IsWalk(buf, walk)
  {
    if |walk| == 1 then []
    else if PointerStep(buf, walk[0], walk[1]) then WalkLabels(buf, walk[1..])
    else [Lower(Decode(buf[walk[0] + 1..walk[1]]).value)] + WalkLabels(buf, walk[1..])
  }

  // ----- names as the reader computes them -----

  function Prepend(front: seq<string>, r: Result<seq<string>, NameError>): Result<seq<string>, NameError> {
    if r.Ok? then Ok(front + r.value) else r
  }

  lemma PrependTwice(a: seq<string>, b: seq<string>, r: Result<seq<string>, NameError>)
    ensures Prepend(a, Prepend(b, r)) == Prepend(a + b, r)
    ensures Prepend([], r) == r
  {
    if r.Ok? {
      assert a + (b + r.value) == (a + b) + r.value;
      assert [] + r.value == r.value;
    }
  }

  /** The labels at `off`, following at most `hops` pointers. */
  function Labels(buf: seq<byte>, off: nat, hops: nat): (r: Result<seq<string>, NameError>)
    decreases hops, |buf| - off
  {
    if off >= |buf| then Err(NameOutOfBounds)
    else if buf[off] == 0 then Ok([])
    else if IsPointer(buf[off]) then
      if off + 1 >= |buf| then Err(BadPointer)
      else if hops == 0 then Err(PointerLoop)
      else Labels(buf, Target(buf, off), hops - 1)
    else
      var end := off + 1 + buf[off] as int;
      if end > |buf| then Err(LabelOutOfBounds)
      else
        match Decode(buf[off + 1..end])
        case None => Err(LabelNotUtf8)
        case Some(text) => Prepend([Lower(text)], Labels(buf, end, hops))
  }

  /** The offset just after the name at `off`: after its first zero byte or first pointer. */
  function NameEnd(buf: seq<byte>, off: nat): (end: nat)
    ensures end >= off
    decreases |buf| - off
  {
    if off >= |buf| then off
    else if buf[off] == 0 then off + 1
    else if IsPointer(buf[off]) then off + 2
    else NameEnd(buf, off + 1 + buf[off] as int)
  }

  /** What `read_name` returns. */
  function NameAt(buf: seq<byte>, off: nat): (r: Result<(string, nat), NameError>)
    ensures r.Ok? ==> r.value.1 >= off
  {
    match Labels(buf, off, MAX_HOPS)
    case Err(e) => Err(e)
    case Ok(labels) => Ok((Join(labels, '.'), NameEnd(buf, off)))
  }

  /** Whether the walk `w` shows that `off` names something within the hop limit. */
  predicate Witnesses(buf: seq<byte>, off: nat, hops: nat, walk: seq<nat>) {
    IsWalk(buf, walk) && walk[0] == off && Hops(buf, walk) <= hops
  }

  lemma {:induction false} LabelsOfWalk(buf: seq<byte>, off: nat, hops: nat, walk: seq<nat>)
    requires Witnesses(buf, off, hops, walk)
    ensures Labels(buf, off, hops) == Ok(WalkLabels(buf, walk))
    decreases |walk|
  {
    hide Decode, Lower;
    if |walk| > 1 {
      if PointerStep(buf, off, walk[1]) {
        LabelsOfWalk(buf, walk[1], hops - 1, walk[1..]);
      } else {
        LabelsOfWalk(buf, walk[1], hops, walk[1..]);
      }
    }
  }

  lemma {:induction false} WalkOfLabels(buf: seq<byte>, off: nat, hops: nat) returns (walk: seq<nat>)
    requires Labels(buf, off, hops).Ok?
    ensures Witnesses(buf, off, hops, walk)
    decreases hops, |buf| - off
  {
    if buf[off] == 0 {
      walk := [off];
    } else {
      var next, rest;
      if IsPointer(buf[off]) {
        next := Target(buf, off);
        rest := WalkOfLabels(buf, next, hops - 1);
      } else {
        next := off + 1 + buf[off] as int;
        rest := WalkOfLabels(buf, next, hops);
      }
      walk := [off] + rest;
      assert walk[1..] == rest;
    }
  }

  /**
    A name is read exactly when a finite walk with at most `hops` pointers exists, and the labels
    read are the labels of every such walk. So no pointer cycle is ever accepted.
   */
  lemma LabelsExactlyWalks(buf: seq<byte>, off: nat, hops: nat)
    ensures Labels(buf, off, hops).Ok? <==> exists walk :: Witnesses(buf, off, hops, walk)
    ensures forall walk :: Witnesses(buf, off, hops, walk) ==> Labels(buf, off, hops) == Ok(WalkLabels(buf, walk))
  {
    forall walk | Witnesses(buf, off, hops, walk)
      ensures Labels(buf, off, hops) == Ok(WalkLabels(buf, walk))
    {
      LabelsOfWalk(buf, off, hops, walk);
    }
    if Labels(buf, off, hops).Ok? {
      var walk := WalkOfLabels(buf, off, hops);
    }
  }

  /** A pointer names whatever its target names, and takes two bytes. */
  lemma NameAtPointer(buf: seq<byte>, off: nat, target: nat, labels: seq<string>)
    requires PointerStep(buf, off, target)
    requires Labels(buf, target, MAX_HOPS - 1) == Ok(labels)
    ensures NameAt(buf, off) == Ok((Join(labels, '.'), off + 2))
  {
  }

  /** A name that is read ends strictly after its start and inside the buffer. */
  lemma {:induction false} NameEndInBounds(buf: seq<byte>, off: nat, hops: nat)
    requires Labels(buf, off, hops).Ok?
    ensures off < NameEnd(buf, off) <= |buf|
    decreases |buf| - off
  {
    if buf[off] != 0 && !IsPointer(buf[off]) {
      NameEndInBounds(buf, off + 1 + buf[off] as int, hops);
    }
  }

  /** The end of a name depends on no byte outside the name itself. */
  lemma {:induction false} NameEndIsLocal(buf: seq<byte>, other: seq<byte>, off: nat, hops: nat)
    requires Labels(buf, off, hops).Ok?
    requires off < NameEnd(buf, off) <= |buf| && NameEnd(buf, off) <= |other|
    requires buf[off..NameEnd(buf, off)] == other[off..NameEnd(buf, off)]
    ensures NameEnd(other, off) == NameEnd(buf, off)
    decreases |buf| - off
  {
    var end := NameEnd(buf, off);
    assert buf[off] == buf[off..end][0] == other[off];
    if buf[off] != 0 && !IsPointer(buf[off]) {
      var next := off + 1 + buf[off] as int;
      NameEndInBounds(buf, next, hops);
      SliceWithin(buf, other, off, end, next, end);
      NameEndIsLocal(buf, other, next, hops);
    }
  }

  /** `read_name`: the loop computes `NameAt`. */
  method ReadName(buf: seq<byte>, start: nat) returns (r: Result<(string, nat), NameError>)
    ensures r == NameAt(buf, start)
    ensures r.Ok? <==> exists walk :: Witnesses(buf, start, 10, walk)
    ensures forall walk :: Witnesses(buf, start, 10, walk) ==>
      r.Ok? && r.value.0 == Join(WalkLabels(buf, walk), '.')
    ensures r.Ok? ==> start < r.value.1 <= |buf|
  {
    hide Decode, Join, Lower, IsWalk, WalkLabels;
    LabelsExactlyWalks(buf, start, MAX_HOPS);
    if Labels(buf, start, MAX_HOPS).Ok? { NameEndInBounds(buf, start, MAX_HOPS); }
    var off: nat := start;
    var labels: seq<string> := [];
    var jumped := false;
    var end := start;
    var hops := 0;
    PrependTwice([], [], Labels(buf, start, MAX_HOPS));
    while true
      invariant 0 <= hops <= MAX_HOPS
      invariant Labels(buf, start, MAX_HOPS) == Prepend(labels, Labels(buf, off, MAX_HOPS - hops))
      invariant if jumped then end == NameEnd(buf, start) else NameEnd(buf, off) == NameEnd(buf, start)
      decreases MAX_HOPS - hops, |buf| - off
    {
      if off >= |buf| {
        return Err(NameOutOfBounds);
      }
      var len := buf[off];
      if len == 0 {
        if !jumped { end := off + 1; }
        assert labels + [] == labels;
        break;
      }
      if IsPointer(len) {
        if off + 1 >= |buf| {
          return Err(BadPointer);
        }
        if !jumped { end := off + 2; }
        off := Target(buf, off);
        jumped := true;
        if hops + 1 > MAX_HOPS {
          return Err(PointerLoop);
        }
        hops := hops + 1;
        continue;
      }
      var labelEnd := off + 1 + len as int;
      if labelEnd > |buf| {
        return Err(LabelOutOfBounds);
      }
      var text := Decode(buf[off + 1..labelEnd]);
      if text.None? {
        return Err(LabelNotUtf8);
      }
      PrependTwice(labels, [Lower(text.value)], Labels(buf, labelEnd, MAX_HOPS - hops));
      labels := labels + [Lower(text.value)];
      off := labelEnd;
      if !jumped { end := off; }
    }
    return Ok((Join(labels, '.'), end));
  }

  // ----- writing names -----

  /** The bytes of one label: its length cast to a byte, then the label. */
  function WireLabel(text: string): seq<byte> {
    [|Encode(text)| % 256] + Encode(text)
  }

  function WireLabels(labels: seq<string>): seq<byte> {
    if labels == [] then [] else WireLabel(labels[0]) + WireLabels(labels[1..])
  }

  /** What `encode_name` returns. */
  function EncodedName(name: string): seq<byte> {
    if name == "" || name == "." then [0]
    else WireLabels(Split(TrimEndChar(name, '.'), '.')) + [0]
  }

  lemma {:induction false} WireLabelsAppend(labels: seq<string>, more: string)
    ensures WireLabels(labels + [more]) == WireLabels(labels) + WireLabel(more)
  {
    if labels == [] {
      assert [more][1..] == [];
    } else {
      assert (labels + [more])[1..] == labels[1..] + [more];
      WireLabelsAppend(labels[1..], more);
    }
  }

  method EncodeName(name: string) returns (out: seq<byte>)
    ensures out == EncodedName(name)
  {
    out := [];
    if name == "" || name == "." {
      out := out + [0];
      return;
    }
    var pieces := Split(TrimEndChar(name, '.'), '.');
    for i := 0 to |pieces|
      invariant out == WireLabels(pieces[..i])
    {
      WireLabelsAppend(pieces[..i], pieces[i]);
      assert pieces[..i + 1] == pieces[..i] + [pieces[i]];
      var bytes := Encode(pieces[i]);
      out := out + [|bytes| % 256];
      out := out + bytes;
    }
    assert pieces[..|pieces|] == pieces;
    out := out + [0];
  }

  /** A label the reader can take back: 1 to 191 bytes (section 2.3.4 of RFC 1035 allows 63). */
  predicate Readable(text: string) { 0 < |Encode(text)| < 0xC0 }

  lemma ReadableNonEmpty(text: string)
    requires Readable(text)
    ensures text != []
  {
  }

  function LowerAll(labels: seq<string>): (r: seq<string>)
    ensures |r| == |labels|
  {
    seq(|labels|, i requires 0 <= i < |labels| => Lower(labels[i]))
  }

  lemma LowerAllCons(labels: seq<string>)
    requires labels != []
    ensures LowerAll(labels) == [Lower(labels[0])] + LowerAll(labels[1..])
  {
  }

  lemma {:induction false} LowerJoin(labels: seq<string>)
    ensures Join(LowerAll(labels), '.') == Lower(Join(labels, '.'))
  {
    if |labels| > 1 {
      LowerJoin(labels[1..]);
      assert LowerAll(labels)[1..] == LowerAll(labels[1..]);
      LowerConcat(labels[0] + ".", Join(labels[1..], '.'));
      LowerConcat(labels[0], ".");
    }
  }

  /** No pointer before the terminator. */
  predicate Uncompressed(buf: seq<byte>, off: nat)
    decreases |buf| - off
  {
    off < |buf| && (buf[off] == 0 || (!IsPointer(buf[off]) && Uncompressed(buf, off + 1 + buf[off] as int)))
  }

  /** The encoding of `labels`, terminator included, stands at `off`. */
  predicate LabelsAt(buf: seq<byte>, off: nat, labels: seq<string>)
    decreases |labels|
  {
    if labels == [] then off < |buf| && buf[off] == 0
    else
      var e := Encode(labels[0]);
      && off + 1 + |e| <= |buf| && buf[off] == |e| % 256 && buf[off + 1..off + 1 + |e|] == e
      && LabelsAt(buf, off + 1 + |e|, labels[1..])
  }

  lemma {:induction false} WireLabelsAt(buf: seq<byte>, off: nat, labels: seq<string>)
    requires var w := WireLabels(labels) + [0]; off + |w| <= |buf| && buf[off..off + |w|] == w
    ensures LabelsAt(buf, off, labels)
    decreases |labels|
  {
    hide Encode;
    if labels == [] {
      assert buf[off] == buf[off..off + 1][0];
    } else {
      var e, tail := WireLabel(labels[0]), WireLabels(labels[1..]) + [0];
      assert WireLabels(labels) + [0] == e + tail;
      SliceOfConcat(buf, off, e, tail);
      WireLabelAt(buf, off, labels[0]);
      WireLabelsAt(buf, off + |e|, labels[1..]);
    }
  }

  lemma WireLabelAt(buf: seq<byte>, off: nat, text: string)
    requires var w := WireLabel(text); off + |w| <= |buf| && buf[off..off + |w|] == w
    ensures buf[off] == |Encode(text)| % 256
    ensures buf[off + 1..off + 1 + |Encode(text)|] == Encode(text)
  {
    SliceOfConcat(buf, off, [|Encode(text)| % 256], Encode(text));
    assert buf[off] == buf[off..off + 1][0];
  }

  lemma ReadLabelAt(buf: seq<byte>, off: nat, text: string, hops: nat)
    requires Readable(text) && off + 1 + |Encode(text)| <= |buf|
    requires buf[off] == |Encode(text)| && buf[off + 1..off + 1 + |Encode(text)|] == Encode(text)
    ensures var next := off + 1 + |Encode(text)|;
            && Labels(buf, off, hops) == Prepend([Lower(text)], Labels(buf, next, hops))
            && NameEnd(buf, off) == NameEnd(buf, next) && Uncompressed(buf, off) == Uncompressed(buf, next)
  {
    hide Encode, Lower;
    DecodeEncode(text);
  }

  /** Wherever encoded labels stand in a buffer, reading there gives them back in lower case. */
  lemma {:induction false} ReadLabelsAt(buf: seq<byte>, off: nat, labels: seq<string>, hops: nat)
    requires forall i :: 0 <= i < |labels| ==> Readable(labels[i])
    requires LabelsAt(buf, off, labels)
    ensures Labels(buf, off, hops) == Ok(LowerAll(labels))
    decreases |labels|
  {
    hide Encode, Decode, Lower;
    if labels != [] {
      ReadLabelAt(buf, off, labels[0], hops);
      ReadLabelsAt(buf, off + 1 + |Encode(labels[0])|, labels[1..], hops);
      LowerAllCons(labels);
    }
  }

  lemma WireLength(labels: seq<string>)
    ensures |WireLabels(labels)| == if labels == [] then 0 else 1 + |Encode(labels[0])| + |WireLabels(labels[1..])|
  {
  }

  lemma {:induction false} EndOfLabelsAt(buf: seq<byte>, off: nat, labels: seq<string>)
    requires forall i :: 0 <= i < |labels| ==> Readable(labels[i])
    requires LabelsAt(buf, off, labels)
    ensures NameEnd(buf, off) == off + |WireLabels(labels)| + 1
    ensures Uncompressed(buf, off)
    decreases |labels|
  {
    hide Encode, Labels, Decode, WireLabels;
    WireLength(labels);
    if labels != [] {
      ReadLabelAt(buf, off, labels[0], 0);
      EndOfLabelsAt(buf, off + 1 + |Encode(labels[0])|, labels[1..]);
    }
  }

  lemma {:induction false} JoinEndsLikeLast(labels: seq<string>, c: char)
    requires labels != [] && (forall i :: 0 <= i < |labels| ==> labels[i] != [] && c !in labels[i])
    ensures Join(labels, c) != [] && Join(labels, c)[|Join(labels, c)| - 1] != c
  {
    if |labels| == 1 {
      var last := labels[0];
      assert last[|last| - 1] in last;
    } else {
      JoinEndsLikeLast(labels[1..], c);
    }
  }

  /** Encoding a name made of non-empty dot-free labels writes those labels. */
  lemma EncodedNameOfLabels(labels: seq<string>)
    requires forall i :: 0 <= i < |labels| ==> labels[i] != [] && '.' !in labels[i]
    ensures EncodedName(Join(labels, '.')) == WireLabels(labels) + [0]
  {
    if labels != [] {
      JoinEndsLikeLast(labels, '.');
      SplitJoin(labels, '.');
    }
  }

  /** Reading the name at `off`, with `hops` pointers allowed, touches no byte outside `[lo, hi)`. */
  predicate Within(buf: seq<byte>, off: nat, hops: nat, lo: nat, hi: nat)
    requires lo <= hi <= |buf|
    decreases hops, |buf| - off
  {
    && lo <= off < hi
    && if buf[off] == 0 then true
       else if IsPointer(buf[off]) then off + 1 < hi && hops > 0 && Within(buf, Target(buf, off), hops - 1, lo, hi)
       else off + 1 + buf[off] as int <= hi && Within(buf, off + 1 + buf[off] as int, hops, lo, hi)
  }

  /** Such a name is a function of the bytes in `[lo, hi)` alone, and a higher hop limit changes nothing. */
  lemma {:induction false} WithinIsLocal(buf: seq<byte>, other: seq<byte>, off: nat, hops: nat, hops': nat, lo: nat, hi: nat)
    requires lo <= hi <= |buf| && hi <= |other| && buf[lo..hi] == other[lo..hi]
    requires Within(buf, off, hops, lo, hi) && hops <= hops'
    ensures Within(other, off, hops', lo, hi)
    ensures Labels(other, off, hops') == Labels(buf, off, hops)
    ensures NameEnd(other, off) == NameEnd(buf, off)
    decreases hops, |buf| - off
  {
    hide Decode, Lower;
    assert forall i :: lo <= i < hi ==> buf[i] == buf[lo..hi][i - lo] && other[i] == other[lo..hi][i - lo];
    if buf[off] != 0 {
      if IsPointer(buf[off]) {
        WithinIsLocal(buf, other, Target(buf, off), hops - 1, hops' - 1, lo, hi);
      } else {
        var next := off + 1 + buf[off] as int;
        SliceWithin(buf, other, lo, hi, off + 1, next);
        WithinIsLocal(buf, other, next, hops, hops', lo, hi);
      }
    }
  }

  /** A name that is readable with fewer hops stays within the same bytes. */
  lemma {:induction false} WithinFewer(buf: seq<byte>, off: nat, hops: nat, fewer: nat, lo: nat, hi: nat)
    requires lo <= hi <= |buf| && fewer <= hops && Within(buf, off, hops, lo, hi) && Labels(buf, off, fewer).Ok?
    ensures Within(buf, off, fewer, lo, hi)
    decreases hops, |buf| - off
  {
    if buf[off] != 0 {
      if IsPointer(buf[off]) {
        WithinFewer(buf, Target(buf, off), hops - 1, fewer - 1, lo, hi);
      } else {
        WithinFewer(buf, off + 1 + buf[off] as int, hops, fewer, lo, hi);
      }
    }
  }

  /** An uncompressed name stays within its own bytes and needs no hops. */
  lemma {:induction false} UncompressedWithin(buf: seq<byte>, off: nat, hops: nat, lo: nat, hi: nat)
    requires Uncompressed(buf, off) && Labels(buf, off, hops).Ok?
    requires lo <= off && NameEnd(buf, off) <= hi <= |buf|
    ensures Within(buf, off, 0, lo, hi)
    decreases |buf| - off
  {
    NameEndInBounds(buf, off, hops);
    if buf[off] != 0 {
      var next := off + 1 + buf[off] as int;
      NameEndInBounds(buf, next, hops);
      UncompressedWithin(buf, next, hops, lo, hi);
    }
  }
}
