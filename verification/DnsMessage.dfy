/**
  Queries and responses of `dns-sinkhole/src/dns.rs` (RFC 1035, sections 4.1.1 to 4.1.3), with an
  independent decoder of whole messages to say what a built response means to its receiver.
 */
module DnsMessage {
  import opened Text
  import opened Utf8
  import opened DnsName

  type u16 = n: int | 0 <= n < 0x1_0000
  type u32 = n: int | 0 <= n < 0x1_0000_0000

  const HEADER_LENGTH: nat := 12
  const TYPE_A: u16 := 1
  const TYPE_AAAA: u16 := 28
  const CLASS_IN: u16 := 1
  const RCODE_FORMERR: byte := 1
  const RCODE_NXDOMAIN: byte := 3

  datatype QueryError = ShortHeader | QuestionCount(count: u16) | NotAQuery | BadName(error: NameError) | ShortQuestion

  datatype Question = Question(name: string, qtype: u16, qclass: u16)

  datatype Query = Query(id: u16, recursionDesired: bool, question: Question, questionBytes: seq<byte>)

  datatype Answer = Answer(rtype: u16, ttl: u32, rdata: seq<byte>)

  // ----- integers on the wire -----

  function Be16(n: u16): seq<byte> { [n / 256, n % 256] }

  function Be32(n: u32): seq<byte> { [n / 0x100_0000, n / 0x1_0000 % 256, n / 256 % 256, n % 256] }

  function U16(buf: seq<byte>, off: nat): u16
    requires off + 2 <= |buf|
  {
    Word(buf[off], buf[off + 1])
  }

  function U32(buf: seq<byte>, off: nat): u32
    requires off + 4 <= |buf|
  {
    Word(Word(Word(buf[off], buf[off + 1]), buf[off + 2]), buf[off + 3])
  }

  // ----- queries -----

  /** What `parse_query` returns. */
  function QueryIn(buf: seq<byte>): (r: Result<Query, QueryError>) {
    if |buf| < HEADER_LENGTH then Err(ShortHeader)
    else if U16(buf, 4) != 1 then Err(QuestionCount(U16(buf, 4)))
    else if U16(buf, 2) / 0x8000 != 0 then Err(NotAQuery)
    else
      match NameAt(buf, HEADER_LENGTH)
      case Err(e) => Err(BadName(e))
      case Ok((name, off)) =>
        if off + 4 > |buf| then Err(ShortQuestion)
        else Ok(Query(U16(buf, 0), U16(buf, 2) / 0x100 % 2 == 1,
                      Question(name, U16(buf, off), U16(buf, off + 2)), buf[HEADER_LENGTH..off + 4]))
  }

  /**
    What is refused and why, in terms of the packet: too short for a header, other than one question,
    the QR bit set, an unreadable name, or too short after the name; everything else is accepted.
   */
  lemma RefusedExactly(buf: seq<byte>)
    ensures QueryIn(buf) == Err(ShortHeader) <==> |buf| < HEADER_LENGTH
    ensures |buf| >= HEADER_LENGTH ==>
              && (QueryIn(buf).Err? && QueryIn(buf).error.QuestionCount? <==> !(buf[4] == 0 && buf[5] == 1))
              && (QueryIn(buf) == Err(NotAQuery) <==> buf[4] == 0 && buf[5] == 1 && buf[2] >= 0x80)
              && (buf[4] == 0 && buf[5] == 1 && buf[2] < 0x80 ==>
                  && (QueryIn(buf).Err? && QueryIn(buf).error.BadName? <==> NameAt(buf, HEADER_LENGTH).Err?)
                  && (QueryIn(buf) == Err(ShortQuestion) <==> NameAt(buf, HEADER_LENGTH).Ok? && NameAt(buf, HEADER_LENGTH).value.1 + 4 > |buf|)
                  && (QueryIn(buf).Ok? <==> NameAt(buf, HEADER_LENGTH).Ok? && NameAt(buf, HEADER_LENGTH).value.1 + 4 <= |buf|))
  {
    hide NameAt;
    if |buf| >= HEADER_LENGTH {
      assert U16(buf, 4) == 1 <==> buf[4] == 0 && buf[5] == 1;
      assert U16(buf, 2) / 0x8000 != 0 <==> buf[2] >= 0x80;
    }
  }

  method ParseQuery(buf: seq<byte>) returns (r: Result<Query, QueryError>)
    ensures r == QueryIn(buf)
  {
    if |buf| < HEADER_LENGTH {
      return Err(ShortHeader);
    }
    var id := U16(buf, 0);
    var flags := U16(buf, 2);
    var qdcount := U16(buf, 4);
    if qdcount != 1 {
      return Err(QuestionCount(qdcount));
    }
    if flags / 0x8000 != 0 {
      return Err(NotAQuery);
    }
    var rd := flags / 0x100 % 2 == 1;
    var read := ReadName(buf, HEADER_LENGTH);
    if read.Err? {
      return Err(BadName(read.error));
    }
    var (name, off) := read.value;
    if off + 4 > |buf| {
      return Err(ShortQuestion);
    }
    var qtype := U16(buf, off);
    var qclass := U16(buf, off + 2);
    off := off + 4;
    return Ok(Query(id, rd, Question(name, qtype, qclass), buf[HEADER_LENGTH..off]));
  }

  /** The bytes of a query for `labels`, with arbitrary record counts and trailing bytes. */
  function QueryBytes(id: u16, flags: u16, counts: seq<byte>, labels: seq<string>, qtype: u16, qclass: u16,
                      trailing: seq<byte>): seq<byte>
  {
    Be16(id) + Be16(flags) + Be16(1) + counts + QuestionBytes(labels, qtype, qclass) + trailing
  }

  function QuestionBytes(labels: seq<string>, qtype: u16, qclass: u16): seq<byte> {
    EncodedName(Join(labels, '.')) + (Be16(qtype) + Be16(qclass))
  }

  lemma QueryLayout(id: u16, flags: u16, counts: seq<byte>, question: seq<byte>, trailing: seq<byte>)
    requires |counts| == 6
    ensures var buf, end := Be16(id) + Be16(flags) + Be16(1) + counts + question + trailing, HEADER_LENGTH + |question|;
            && end <= |buf| && buf[HEADER_LENGTH..end] == question
            && U16(buf, 0) == id && U16(buf, 2) == flags && U16(buf, 4) == 1
  {
    var buf := Be16(id) + Be16(flags) + Be16(1) + counts + question + trailing;
    assert buf[0] == id / 256 && buf[1] == id % 256;
    assert buf[2] == flags / 256 && buf[3] == flags % 256;
    assert buf[4] == 0 && buf[5] == 1;
  }

  /** Two words standing at `off` are read back. */
  lemma WordsRead(buf: seq<byte>, off: nat, a: u16, b: u16)
    requires off + 4 <= |buf| && buf[off..off + 4] == Be16(a) + Be16(b)
    ensures U16(buf, off) == a && U16(buf, off + 2) == b
  {
    var w := buf[off..off + 4];
    assert buf[off] == w[0] && buf[off + 1] == w[1] && buf[off + 2] == w[2] && buf[off + 3] == w[3];
  }

  lemma EncodedNameRead(buf: seq<byte>, off: nat, labels: seq<string>)
    requires forall i :: 0 <= i < |labels| ==> Readable(labels[i]) && '.' !in labels[i]
    requires var name := EncodedName(Join(labels, '.')); off + |name| <= |buf| && buf[off..off + |name|] == name
    ensures NameAt(buf, off) == Ok((Lower(Join(labels, '.')), off + |EncodedName(Join(labels, '.'))|))
    ensures Uncompressed(buf, off)
  {
    hide Encode, Lower, Join, Split;
    forall i | 0 <= i < |labels|
      ensures labels[i] != []
    {
      ReadableNonEmpty(labels[i]);
    }
    EncodedNameOfLabels(labels);
    WireLabelsAt(buf, off, labels);
    ReadLabelsAt(buf, off, labels, MAX_HOPS);
    EndOfLabelsAt(buf, off, labels);
    LowerJoin(labels);
  }

  lemma QuestionRead(buf: seq<byte>, labels: seq<string>, qtype: u16, qclass: u16)
    requires forall i :: 0 <= i < |labels| ==> Readable(labels[i]) && '.' !in labels[i]
    requires var question := QuestionBytes(labels, qtype, qclass);
             HEADER_LENGTH + |question| <= |buf| && buf[HEADER_LENGTH..HEADER_LENGTH + |question|] == question
    ensures var end := HEADER_LENGTH + |QuestionBytes(labels, qtype, qclass)| - 4;
            && HEADER_LENGTH <= end && Uncompressed(buf, HEADER_LENGTH) && NameAt(buf, HEADER_LENGTH) == Ok((Lower(Join(labels, '.')), end))
            && U16(buf, end) == qtype && U16(buf, end + 2) == qclass
  {
    var name, words := EncodedName(Join(labels, '.')), Be16(qtype) + Be16(qclass);
    assert QuestionBytes(labels, qtype, qclass) == name + words;
    SliceOfConcat(buf, HEADER_LENGTH, name, words);
    EncodedNameRead(buf, HEADER_LENGTH, labels);
    WordsRead(buf, HEADER_LENGTH + |name|, qtype, qclass);
  }

  /** A query is parsed from its parts. */
  lemma QueryOfParts(buf: seq<byte>, id: u16, flags: u16, name: string, qtype: u16, qclass: u16, question: seq<byte>)
    requires var end := HEADER_LENGTH + |question|;
             && |question| >= 4 && end <= |buf| && buf[HEADER_LENGTH..end] == question
             && U16(buf, 0) == id && U16(buf, 2) == flags < 0x8000 && U16(buf, 4) == 1
             && NameAt(buf, HEADER_LENGTH) == Ok((name, end - 4)) && U16(buf, end - 4) == qtype && U16(buf, end - 2) == qclass
    ensures QueryIn(buf) == Ok(Query(id, flags / 0x100 % 2 == 1, Question(name, qtype, qclass), question))
  {
    hide NameAt, U16;
  }

  /**
    Every query written for readable labels is parsed to the lower-cased name, and its question
    section is captured byte for byte, whatever follows it.
   */
  lemma QueryRoundTrip(id: u16, flags: u16, counts: seq<byte>, labels: seq<string>, qtype: u16, qclass: u16,
                       trailing: seq<byte>)
    requires flags < 0x8000 && |counts| == 6
    requires forall i :: 0 <= i < |labels| ==> Readable(labels[i]) && '.' !in labels[i]
    ensures QueryIn(QueryBytes(id, flags, counts, labels, qtype, qclass, trailing)) ==
            Ok(Query(id, flags / 0x100 % 2 == 1, Question(Lower(Join(labels, '.')), qtype, qclass),
                     QuestionBytes(labels, qtype, qclass)))
    ensures Uncompressed(QueryBytes(id, flags, counts, labels, qtype, qclass, trailing), HEADER_LENGTH)
  {
    hide QueryIn, NameAt, Uncompressed, QuestionBytes, Lower, Join, U16;
    var buf, question := QueryBytes(id, flags, counts, labels, qtype, qclass, trailing), QuestionBytes(labels, qtype, qclass);
    QueryLayout(id, flags, counts, question, trailing);
    QuestionRead(buf, labels, qtype, qclass);
    QueryOfParts(buf, id, flags, Lower(Join(labels, '.')), qtype, qclass, question);
  }

  // ----- responses -----

  /** One answer: a pointer to the question name, then type, class, ttl, length and data. */
  function WireAnswer(a: Answer): seq<byte> {
    AnswerHead(a.rtype, a.ttl, |a.rdata| % 0x1_0000) + a.rdata
  }

  function AnswerHead(rtype: u16, ttl: u32, length: u16): seq<byte> {
    [0xC0, 0x0C, rtype / 256, rtype % 256, 0, CLASS_IN,
     ttl / 0x100_0000, ttl / 0x1_0000 % 256, ttl / 256 % 256, ttl % 256, length / 256, length % 256]
  }

  lemma Word32(n: u32)
    ensures Word(Word(Word(n / 0x100_0000, n / 0x1_0000 % 256), n / 256 % 256), n % 256) == n
  {
    assert n / 256 / 256 == n / 0x1_0000;
    assert n / 0x1_0000 / 256 == n / 0x100_0000;
  }

  function WireAnswers(answers: seq<Answer>): seq<byte> {
    if answers == [] then [] else WireAnswer(answers[0]) + WireAnswers(answers[1..])
  }

  /** The two flag bytes: QR, AA and RD, then RA and the response code, which shares bit 7 with RA. */
  function FlagsHigh(rd: bool, answered: bool): byte { 0x80 + (if rd then 1 else 0) + (if answered then 4 else 0) }

  function FlagsLow(rcode: byte): byte { 0x80 + rcode % 128 }

  function ResponseHeader(id: u16, high: byte, low: byte, count: u16): seq<byte> {
    [id / 256, id % 256, high, low, 0, 1, count / 256, count % 256, 0, 0, 0, 0]
  }

  function HeaderFor(q: Query, rcode: byte, answers: seq<Answer>): (h: seq<byte>)
    ensures |h| == HEADER_LENGTH
  {
    ResponseHeader(q.id, FlagsHigh(q.recursionDesired, answers != []), FlagsLow(rcode), |answers| % 0x1_0000)
  }

  function ResponseBytes(q: Query, rcode: byte, answers: seq<Answer>): seq<byte> {
    HeaderFor(q, rcode, answers) + q.questionBytes + WireAnswers(answers)
  }

  lemma {:induction false} WireAnswersAppend(answers: seq<Answer>, a: Answer)
    ensures WireAnswers(answers + [a]) == WireAnswers(answers) + WireAnswer(a)
  {
    if answers == [] {
      assert [a][1..] == [];
    } else {
      assert (answers + [a])[1..] == answers[1..] + [a];
      WireAnswersAppend(answers[1..], a);
    }
  }

  lemma HeaderBytes(id: u16, flags: u16, count: u16)
    ensures Be16(id) + Be16(flags) + Be16(1) + Be16(count) + Be16(0) + Be16(0) ==
            ResponseHeader(id, flags / 256, flags % 256, count)
  {
  }

  lemma AnswerBytes(out: seq<byte>, a: Answer)
    ensures out + [0xC0, 0x0C] + Be16(a.rtype) + Be16(CLASS_IN) + Be32(a.ttl) + Be16(|a.rdata| % 0x1_0000) + a.rdata ==
            out + WireAnswer(a)
  {
  }

  /** `build_response`: appends to one growing buffer. */
  method BuildResponse(q: Query, rcode: byte, answers: seq<Answer>) returns (out: seq<byte>)
    ensures out == ResponseBytes(q, rcode, answers)
  {
    var flags := 0x8000;
    if q.recursionDesired {
      flags := flags + 0x0100;
    }
    flags := flags + 0x0080;
    if answers != [] {
      flags := flags + 0x0400;
    }
    flags := flags + rcode % 128;
    HeaderBytes(q.id, flags, |answers| % 0x1_0000);
    out := Be16(q.id) + Be16(flags) + Be16(1) + Be16(|answers| % 0x1_0000) + Be16(0) + Be16(0);
    out := out + q.questionBytes;
    out := AppendAnswers(out, answers);
  }

  method AppendAnswers(prefix: seq<byte>, answers: seq<Answer>) returns (out: seq<byte>)
    ensures out == prefix + WireAnswers(answers)
  {
    hide Be16, Be32, WireAnswer;
    out := prefix;
    for i := 0 to |answers|
      invariant out == prefix + WireAnswers(answers[..i])
    {
      var a := answers[i];
      WireAnswersAppend(answers[..i], a);
      assert answers[..i + 1] == answers[..i] + [a];
      AnswerBytes(out, a);
      out := out + [0xC0, 0x0C] + Be16(a.rtype) + Be16(CLASS_IN) + Be32(a.ttl) + Be16(|a.rdata| % 0x1_0000) + a.rdata;
    }
    assert answers[..|answers|] == answers;
  }

  /** `formerr`. */
  function FormErr(id: u16): seq<byte> {
    Be16(id) + [0x80, RCODE_FORMERR, 0, 0, 0, 0, 0, 0, 0, 0]
  }

  // ----- the receiver's view of a message -----

  datatype Record = Record(name: string, rtype: u16, rclass: u16, ttl: u32, rdata: seq<byte>)

  datatype Flags = Flags(qr: bool, opcode: nat, aa: bool, tc: bool, rd: bool, ra: bool, z: nat, rcode: nat)

  datatype Message = Message(id: u16, flags: Flags, questions: seq<Question>, answers: seq<Record>)

  function DecodeFlags(hi: byte, lo: byte): Flags {
    Flags(hi / 128 == 1, hi / 8 % 16, hi / 4 % 2 == 1, hi / 2 % 2 == 1, hi % 2 == 1,
          lo / 128 == 1, lo / 16 % 8, lo % 16)
  }

  function DecodeQuestion(buf: seq<byte>, off: nat): Option<(Question, nat)> {
    match NameAt(buf, off)
    case Err(_) => None
    case Ok((name, end)) =>
      if end + 4 > |buf| then None
      else Some((Question(name, U16(buf, end), U16(buf, end + 2)), end + 4))
  }

  function DecodeQuestions(buf: seq<byte>, off: nat, n: nat): Option<(seq<Question>, nat)>
    decreases n
  {
    if n == 0 then Some(([], off))
    else
      match DecodeQuestion(buf, off)
      case None => None
      case Some((q, next)) =>
        match DecodeQuestions(buf, next, n - 1)
        case None => None
        case Some((rest, end)) => Some(([q] + rest, end))
  }

  function DecodeRecord(buf: seq<byte>, off: nat): (r: Option<(Record, nat)>)
    ensures r.Some? ==> |r.value.0.rdata| < 0x1_0000
  {
    match NameAt(buf, off)
    case Err(_) => None
    case Ok((name, end)) => RecordBody(buf, name, end)
  }

  function RecordBody(buf: seq<byte>, name: string, end: nat): (r: Option<(Record, nat)>)
    ensures r.Some? ==> |r.value.0.rdata| < 0x1_0000
  {
    if end + 10 > |buf| then None
    else
      var next := end + 10 + U16(buf, end + 8) as int;
      if next > |buf| then None
      else Some((Record(name, U16(buf, end), U16(buf, end + 2), U32(buf, end + 4), buf[end + 10..next]), next))
  }

  /** `n` resource records that take up the rest of the buffer exactly. */
  function DecodeRecords(buf: seq<byte>, off: nat, n: nat): Option<seq<Record>>
    decreases n
  {
    if n == 0 then if off == |buf| then Some([]) else None
    else
      match DecodeRecord(buf, off)
      case None => None
      case Some((record, next)) =>
        match DecodeRecords(buf, next, n - 1)
        case None => None
        case Some(rest) => Some([record] + rest)
  }

  /** A message with no authority or additional records. */
  function DecodeMessage(buf: seq<byte>): (r: Option<Message>) {
    if |buf| < HEADER_LENGTH || U16(buf, 8) != 0 || U16(buf, 10) != 0 then None
    else
      match DecodeQuestions(buf, HEADER_LENGTH, U16(buf, 4))
      case None => None
      case Some((questions, off)) =>
        match DecodeRecords(buf, off, U16(buf, 6))
        case None => None
        case Some(records) => Some(Message(U16(buf, 0), DecodeFlags(buf[2], buf[3]), questions, records))
  }

  /** The records a receiver should see: every answer under the name that was asked. */
  function Records(name: string, answers: seq<Answer>): (r: seq<Record>)
    ensures |r| == |answers|
  {
    seq(|answers|, i requires 0 <= i < |answers| => RecordOf(name, answers[i]))
  }

  function RecordOf(name: string, a: Answer): Record { Record(name, a.rtype, CLASS_IN, a.ttl, a.rdata) }

  /** The message a response is meant to be. */
  function Meant(q: Query, rcode: byte, answers: seq<Answer>): Message {
    Message(q.id, Flags(true, 0, answers != [], false, q.recursionDesired, true, 0, rcode), [q.question],
            Records(q.question.name, answers))
  }

  /** What the fixed-width fields of a response can hold. */
  predicate Fits(rcode: byte, answers: seq<Answer>) {
    && rcode < 16
    && |answers| < 0x1_0000
    && forall i :: 0 <= i < |answers| ==> |answers[i].rdata| < 0x1_0000
  }

  lemma {:induction false} DecodedRecordsFit(buf: seq<byte>, off: nat, n: nat)
    requires DecodeRecords(buf, off, n).Some?
    ensures |DecodeRecords(buf, off, n).value| == n
    ensures forall i :: 0 <= i < n ==> |DecodeRecords(buf, off, n).value[i].rdata| < 0x1_0000
    decreases n
  {
    if n > 0 {
      DecodedRecordsFit(buf, DecodeRecord(buf, off).value.1, n - 1);
    }
  }

  lemma {:induction false} AnswerAt(buf: seq<byte>, off: nat, a: Answer)
    requires off + |WireAnswer(a)| <= |buf| && buf[off..off + |WireAnswer(a)|] == WireAnswer(a)
    requires |a.rdata| < 0x1_0000
    ensures |WireAnswer(a)| == 12 + |a.rdata|
    ensures PointerStep(buf, off, HEADER_LENGTH)
    ensures U16(buf, off + 2) == a.rtype && U16(buf, off + 4) == CLASS_IN
    ensures U32(buf, off + 6) == a.ttl && U16(buf, off + 10) == |a.rdata|
    ensures buf[off + 12..off + 12 + |a.rdata|] == a.rdata
  {
    var head := AnswerHead(a.rtype, a.ttl, |a.rdata|);
    SliceOfConcat(buf, off, head, a.rdata);
    HeadFields(buf, off, a.rtype, a.ttl, |a.rdata|);
  }

  lemma HeadFields(buf: seq<byte>, off: nat, rtype: u16, ttl: u32, length: u16)
    requires off + 12 <= |buf| && buf[off..off + 12] == AnswerHead(rtype, ttl, length)
    ensures PointerStep(buf, off, HEADER_LENGTH)
    ensures U16(buf, off + 2) == rtype && U16(buf, off + 4) == CLASS_IN
    ensures U32(buf, off + 6) == ttl && U16(buf, off + 10) == length
  {
    var h := buf[off..off + 12];
    assert buf[off] == h[0] && buf[off + 1] == h[1] && buf[off + 2] == h[2] && buf[off + 3] == h[3];
    assert buf[off + 4] == h[4] && buf[off + 5] == h[5] && buf[off + 6] == h[6] && buf[off + 7] == h[7];
    assert buf[off + 8] == h[8] && buf[off + 9] == h[9] && buf[off + 10] == h[10] && buf[off + 11] == h[11];
    Word32(ttl);
  }

  lemma AnswerDecodes(buf: seq<byte>, off: nat, a: Answer, labels: seq<string>)
    requires off + |WireAnswer(a)| <= |buf| && buf[off..off + |WireAnswer(a)|] == WireAnswer(a)
    requires |a.rdata| < 0x1_0000
    requires Labels(buf, HEADER_LENGTH, MAX_HOPS - 1) == Ok(labels)
    ensures DecodeRecord(buf, off) ==
            Some((RecordOf(Join(labels, '.'), a), off + |WireAnswer(a)|))
  {
    AnswerAt(buf, off, a);
    NameAtPointer(buf, off, HEADER_LENGTH, labels);
  }

  /** The encoding of `answers` stands at `off` and ends the buffer. */
  predicate AnswersAt(buf: seq<byte>, off: nat, answers: seq<Answer>)
    decreases |answers|
  {
    if answers == [] then off == |buf|
    else
      var next := off + |WireAnswer(answers[0])|;
      next <= |buf| && buf[off..next] == WireAnswer(answers[0]) && AnswersAt(buf, next, answers[1..])
  }

  lemma {:induction false} WireAnswersAt(buf: seq<byte>, off: nat, answers: seq<Answer>)
    requires off <= |buf| && buf[off..] == WireAnswers(answers)
    ensures AnswersAt(buf, off, answers)
    decreases |answers|
  {
    if answers != [] {
      var w, rest := WireAnswer(answers[0]), WireAnswers(answers[1..]);
      assert |buf| == off + |w| + |rest|;
      SliceOfConcat(buf, off, w, rest);
      WireAnswersAt(buf, off + |w|, answers[1..]);
    }
  }

  lemma RecordsCons(name: string, answers: seq<Answer>)
    requires answers != []
    ensures Records(name, answers) == [RecordOf(name, answers[0])] + Records(name, answers[1..])
  {
  }

  lemma {:induction false} AnswersDecode(buf: seq<byte>, off: nat, answers: seq<Answer>, labels: seq<string>)
    requires AnswersAt(buf, off, answers)
    requires forall i :: 0 <= i < |answers| ==> |answers[i].rdata| < 0x1_0000
    requires answers != [] ==> Labels(buf, HEADER_LENGTH, MAX_HOPS - 1) == Ok(labels)
    ensures DecodeRecords(buf, off, |answers|) == Some(Records(Join(labels, '.'), answers))
    decreases |answers|
  {
    var name := Join(labels, '.');
    if answers != [] {
      AnswerDecodes(buf, off, answers[0], labels);
      AnswersDecode(buf, off + |WireAnswer(answers[0])|, answers[1..], labels);
      RecordsCons(name, answers);
    }
  }

  lemma FlagsDecode(rd: bool, rcode: byte, answered: bool)
    requires rcode < 16
    ensures DecodeFlags(FlagsHigh(rd, answered), FlagsLow(rcode)) == Flags(true, 0, answered, false, rd, true, 0, rcode)
  {
  }

  lemma HeaderOfResponse(buf: seq<byte>, id: u16, high: byte, low: byte, count: u16)
    requires |buf| >= HEADER_LENGTH && buf[..HEADER_LENGTH] == ResponseHeader(id, high, low, count)
    ensures U16(buf, 0) == id && U16(buf, 4) == 1 && U16(buf, 6) == count && U16(buf, 8) == 0 && U16(buf, 10) == 0
    ensures buf[2] == high && buf[3] == low
  {
    var h := buf[..HEADER_LENGTH];
    assert buf[0] == h[0] && buf[1] == h[1] && buf[2] == h[2] && buf[3] == h[3];
    assert buf[4] == h[4] && buf[5] == h[5] && buf[6] == h[6] && buf[7] == h[7];
    assert buf[8] == h[8] && buf[9] == h[9] && buf[10] == h[10] && buf[11] == h[11];
  }

  lemma WordsAreLocal(buf: seq<byte>, other: seq<byte>, start: nat, end: nat)
    requires start <= end && end + 4 <= |buf| && end + 4 <= |other|
    requires buf[start..end + 4] == other[start..end + 4]
    ensures U16(other, end) == U16(buf, end) && U16(other, end + 2) == U16(buf, end + 2)
  {
    SliceWithin(buf, other, start, end + 4, end, end + 4);
    var x, y := buf[end..end + 4], other[end..end + 4];
    assert buf[end] == x[0] && buf[end + 1] == x[1] && buf[end + 2] == x[2] && buf[end + 3] == x[3];
    assert other[end] == y[0] && other[end + 1] == y[1] && other[end + 2] == y[2] && other[end + 3] == y[3];
  }

  /** What an accepted query says about its own bytes. */
  lemma QueryFacts(buf: seq<byte>, q: Query)
    requires QueryIn(buf) == Ok(q)
    ensures Labels(buf, HEADER_LENGTH, MAX_HOPS).Ok?
    ensures var end := NameEnd(buf, HEADER_LENGTH);
            && HEADER_LENGTH < end && end + 4 <= |buf| && q.questionBytes == buf[HEADER_LENGTH..end + 4]
            && q.question == Question(Join(Labels(buf, HEADER_LENGTH, MAX_HOPS).value, '.'), U16(buf, end), U16(buf, end + 2))
  {
    hide QueryIn;
    NamedQuery(buf, q);
    NameEndInBounds(buf, HEADER_LENGTH, MAX_HOPS);
  }

  lemma NamedQuery(buf: seq<byte>, q: Query)
    requires QueryIn(buf) == Ok(q)
    ensures NameAt(buf, HEADER_LENGTH).Ok?
    ensures var (name, end) := NameAt(buf, HEADER_LENGTH).value;
            && HEADER_LENGTH <= end && end + 4 <= |buf| && q.questionBytes == buf[HEADER_LENGTH..end + 4]
            && q.question == Question(name, U16(buf, end), U16(buf, end + 2))
  {
    hide NameAt;
  }

  /** Reading the name of an accepted query touches no byte outside its question, with `hops` pointers. */
  predicate SelfContained(buf: seq<byte>, q: Query, hops: nat) {
    var end := HEADER_LENGTH + |q.questionBytes|;
    end <= |buf| && Within(buf, HEADER_LENGTH, hops, HEADER_LENGTH, end)
  }

  lemma UncompressedContained(buf: seq<byte>, q: Query, hops: nat)
    requires QueryIn(buf) == Ok(q) && Uncompressed(buf, HEADER_LENGTH)
    ensures SelfContained(buf, q, hops)
  {
    hide QueryIn, Labels, Uncompressed, Within, NameEnd;
    QueryFacts(buf, q);
    var end := HEADER_LENGTH + |q.questionBytes|;
    UncompressedWithin(buf, HEADER_LENGTH, MAX_HOPS, HEADER_LENGTH, end);
    WithinIsLocal(buf, buf, HEADER_LENGTH, 0, hops, HEADER_LENGTH, end);
  }

  /** The echoed question is read from the response as it was from the query. */
  lemma QuestionEchoed(buf: seq<byte>, q: Query, header: seq<byte>, rest: seq<byte>)
    requires QueryIn(buf) == Ok(q) && SelfContained(buf, q, MAX_HOPS) && |header| == HEADER_LENGTH
    ensures var r, end := header + q.questionBytes + rest, HEADER_LENGTH + |q.questionBytes|;
            && Within(r, HEADER_LENGTH, MAX_HOPS, HEADER_LENGTH, end) && r[HEADER_LENGTH..end] == buf[HEADER_LENGTH..end]
            && DecodeQuestion(r, HEADER_LENGTH) == Some((q.question, end))
  {
    hide QueryIn, Labels, NameEnd, Within, Join;
    var r, end := header + q.questionBytes + rest, HEADER_LENGTH + |q.questionBytes|;
    QueryFacts(buf, q);
    assert r[HEADER_LENGTH..end] == q.questionBytes;
    WithinIsLocal(buf, r, HEADER_LENGTH, MAX_HOPS, MAX_HOPS, HEADER_LENGTH, end);
    WordsAreLocal(buf, r, HEADER_LENGTH, end - 4);
  }

  /** A message is decoded from its parts. */
  lemma MessageOfParts(buf: seq<byte>, id: u16, high: byte, low: byte, count: u16, q: Question, off: nat, records: seq<Record>)
    requires |buf| >= HEADER_LENGTH && buf[..HEADER_LENGTH] == ResponseHeader(id, high, low, count)
    requires DecodeQuestion(buf, HEADER_LENGTH) == Some((q, off))
    requires DecodeRecords(buf, off, count) == Some(records)
    ensures DecodeMessage(buf) == Some(Message(id, DecodeFlags(high, low), [q], records))
  {
    HeaderOfResponse(buf, id, high, low, count);
    assert DecodeQuestions(buf, HEADER_LENGTH, 1) == Some(([q], off)) by {
      assert DecodeQuestions(buf, off, 0) == Some(([], off));
      assert [q] + [] == [q];
    }
  }

  lemma ResponseParts(q: Query, rcode: byte, answers: seq<Answer>)
    requires |answers| < 0x1_0000
    ensures var r, off := ResponseBytes(q, rcode, answers), HEADER_LENGTH + |q.questionBytes|;
            && |r| >= off && r[off..] == WireAnswers(answers)
            && r[..HEADER_LENGTH] ==
               ResponseHeader(q.id, FlagsHigh(q.recursionDesired, answers != []), FlagsLow(rcode), |answers|)
  {
    assert |answers| % 0x1_0000 == |answers|;
  }

  /** A response whose code, count and data lengths fit, and whose question is readable, decodes. */
  lemma FittingResponse(r: seq<byte>, q: Query, rcode: byte, answers: seq<Answer>, labels: seq<string>)
    requires Fits(rcode, answers)
    requires var off := HEADER_LENGTH + |q.questionBytes|;
             && |r| >= off && r[off..] == WireAnswers(answers)
             && r[..HEADER_LENGTH] ==
                ResponseHeader(q.id, FlagsHigh(q.recursionDesired, answers != []), FlagsLow(rcode), |answers|)
    requires answers != [] ==> Labels(r, HEADER_LENGTH, MAX_HOPS - 1) == Ok(labels)
    requires q.question.name == Join(labels, '.')
    requires DecodeQuestion(r, HEADER_LENGTH) == Some((q.question, HEADER_LENGTH + |q.questionBytes|))
    ensures DecodeMessage(r) == Some(Meant(q, rcode, answers))
  {
    var off := HEADER_LENGTH + |q.questionBytes|;
    WireAnswersAt(r, off, answers);
    AnswersDecode(r, off, answers, labels);
    MessageOfParts(r, q.id, FlagsHigh(q.recursionDesired, answers != []), FlagsLow(rcode), |answers|, q.question, off,
                   Records(q.question.name, answers));
    FlagsDecode(q.recursionDesired, rcode, answers != []);
  }

  /** Anything a receiver decodes has a four-bit code, 16-bit counts and 16-bit data lengths. */
  lemma DecodedFits(buf: seq<byte>, q: Query, rcode: byte, answers: seq<Answer>)
    requires DecodeMessage(buf) == Some(Meant(q, rcode, answers))
    ensures Fits(rcode, answers)
  {
    var records := Records(q.question.name, answers);
    var off := DecodeQuestions(buf, HEADER_LENGTH, U16(buf, 4)).value.1;
    assert DecodeRecords(buf, off, U16(buf, 6)) == Some(records);
    DecodedRecordsFit(buf, off, U16(buf, 6));
    assert forall i :: 0 <= i < |answers| ==> records[i].rdata == answers[i].rdata;
  }

  /** The first answer of a response is decoded only if its pointer leaves hops enough for the name. */
  lemma FirstAnswerNamed(r: seq<byte>, off: nat, a: Answer, n: nat)
    requires off + |WireAnswer(a)| <= |r| && r[off..off + |WireAnswer(a)|] == WireAnswer(a)
    requires n > 0 && DecodeRecords(r, off, n).Some?
    ensures Labels(r, HEADER_LENGTH, MAX_HOPS - 1).Ok?
  {
    assert r[off] == r[off..off + |WireAnswer(a)|][0] && r[off + 1] == r[off..off + |WireAnswer(a)|][1];
    assert DecodeRecord(r, off).Some?;
  }

  /** A response with answers decodes only if the name can be read with one hop to spare. */
  lemma DecodedNamed(buf: seq<byte>, q: Query, rcode: byte, answers: seq<Answer>)
    requires QueryIn(buf) == Ok(q) && SelfContained(buf, q, MAX_HOPS) && Fits(rcode, answers) && answers != []
    requires DecodeMessage(ResponseBytes(q, rcode, answers)) == Some(Meant(q, rcode, answers))
    ensures SelfContained(buf, q, MAX_HOPS - 1)
  {
    hide QueryIn, Labels, Within, WireAnswers, WireAnswer, Records;
    var r, end := ResponseBytes(q, rcode, answers), HEADER_LENGTH + |q.questionBytes|;
    QuestionEchoed(buf, q, HeaderFor(q, rcode, answers), WireAnswers(answers));
    ResponseParts(q, rcode, answers);
    WireAnswersAt(r, end, answers);
    RecordsDecoded(r, q, rcode, answers);
    FirstAnswerNamed(r, end, answers[0], |answers|);
    WithinFewer(r, HEADER_LENGTH, MAX_HOPS, MAX_HOPS - 1, HEADER_LENGTH, end);
    WithinIsLocal(r, buf, HEADER_LENGTH, MAX_HOPS - 1, MAX_HOPS - 1, HEADER_LENGTH, end);
  }

  lemma RecordsDecoded(r: seq<byte>, q: Query, rcode: byte, answers: seq<Answer>)
    requires |answers| < 0x1_0000 && |r| >= HEADER_LENGTH && DecodeMessage(r).Some?
    requires r[..HEADER_LENGTH] == ResponseHeader(q.id, FlagsHigh(q.recursionDesired, answers != []), FlagsLow(rcode), |answers|)
    requires DecodeQuestion(r, HEADER_LENGTH) == Some((q.question, HEADER_LENGTH + |q.questionBytes|))
    ensures DecodeRecords(r, HEADER_LENGTH + |q.questionBytes|, |answers|).Some?
  {
    hide DecodeQuestion, DecodeRecords;
    HeaderOfResponse(r, q.id, FlagsHigh(q.recursionDesired, answers != []), FlagsLow(rcode), |answers|);
    var end := HEADER_LENGTH + |q.questionBytes|;
    assert DecodeQuestions(r, end, 0) == Some(([], end));
    assert DecodeQuestions(r, HEADER_LENGTH, 1).Some? && DecodeQuestions(r, HEADER_LENGTH, 1).value.1 == end;
  }

  lemma NamedResponse(buf: seq<byte>, q: Query, rcode: byte, answers: seq<Answer>)
    requires QueryIn(buf) == Ok(q) && SelfContained(buf, q, MAX_HOPS) && Fits(rcode, answers)
    requires answers == [] || SelfContained(buf, q, MAX_HOPS - 1)
    ensures DecodeMessage(ResponseBytes(q, rcode, answers)) == Some(Meant(q, rcode, answers))
  {
    hide QueryIn, Labels, Within, WireAnswers, DecodeMessage, Meant, Join;
    var r, end := ResponseBytes(q, rcode, answers), HEADER_LENGTH + |q.questionBytes|;
    QuestionEchoed(buf, q, HeaderFor(q, rcode, answers), WireAnswers(answers));
    ResponseParts(q, rcode, answers);
    QueryFacts(buf, q);
    if answers != [] {
      WithinIsLocal(buf, buf, HEADER_LENGTH, MAX_HOPS - 1, MAX_HOPS, HEADER_LENGTH, end);
      WithinIsLocal(buf, r, HEADER_LENGTH, MAX_HOPS - 1, MAX_HOPS - 1, HEADER_LENGTH, end);
    }
    FittingResponse(r, q, rcode, answers, Labels(buf, HEADER_LENGTH, MAX_HOPS).value);
  }

  /**
    For every accepted query whose name, compressed or not, stays inside its question: the response
    decodes to exactly the message it is meant to be if and only if its code, answer count and data
    lengths fit their fields and, when there are answers, the name follows at most 9 pointers.
   */
  lemma ResponseDecodes(buf: seq<byte>, q: Query, rcode: byte, answers: seq<Answer>)
    requires QueryIn(buf) == Ok(q) && SelfContained(buf, q, MAX_HOPS)
    ensures DecodeMessage(ResponseBytes(q, rcode, answers)) == Some(Meant(q, rcode, answers)) <==>
            Fits(rcode, answers) && (answers == [] || SelfContained(buf, q, MAX_HOPS - 1))
  {
    hide QueryIn, DecodeMessage, ResponseBytes, Meant, SelfContained, Fits;
    if DecodeMessage(ResponseBytes(q, rcode, answers)) == Some(Meant(q, rcode, answers)) {
      DecodedFits(ResponseBytes(q, rcode, answers), q, rcode, answers);
      if answers != [] {
        DecodedNamed(buf, q, rcode, answers);
      }
    }
    if Fits(rcode, answers) && (answers == [] || SelfContained(buf, q, MAX_HOPS - 1)) {
      NamedResponse(buf, q, rcode, answers);
    }
  }

  /**
    A name that leads out of its question need not survive the echo: when it is a bare pointer to
    bytes after the question, no response without answers can be decoded at all.
   */
  lemma DanglingEcho(buf: seq<byte>, q: Query, rcode: byte)
    requires QueryIn(buf) == Ok(q) && IsPointer(buf[HEADER_LENGTH])
    requires |q.questionBytes| >= 2 && Target(buf, HEADER_LENGTH) >= HEADER_LENGTH + |q.questionBytes|
    ensures DecodeMessage(ResponseBytes(q, rcode, [])) == None
  {
    QueryFacts(buf, q);
    var r := ResponseBytes(q, rcode, []);
    assert r[HEADER_LENGTH] == q.questionBytes[0] == buf[HEADER_LENGTH];
    assert r[HEADER_LENGTH + 1] == q.questionBytes[1] == buf[HEADER_LENGTH + 1];
    assert Labels(r, Target(r, HEADER_LENGTH), MAX_HOPS - 1).Err?;
    assert NameAt(r, HEADER_LENGTH).Err?;
    assert DecodeQuestions(r, HEADER_LENGTH, 1) == None;
    ResponseParts(q, rcode, []);
    HeaderOfResponse(r, q.id, FlagsHigh(q.recursionDesired, false), FlagsLow(rcode), 0);
  }
}
