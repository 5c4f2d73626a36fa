/** `process_dns_query` of `dns-sinkhole/src/server.rs`: from a packet to a reply or to the upstream. */
module DnsServer {
  import opened Text
  import opened Utf8
  import opened DnsName
  import opened DnsMessage
  import opened DnsZone

  const TYPE_ANY: u16 := 255

  datatype BlockAction = NxDomain | Sinkhole

  datatype Config = Config(action: BlockAction, sinkholeA: Ipv4, sinkholeAaaa: Ipv6, ttl: u32)

  /** Either bytes for the client or the packet sent on unchanged. */
  datatype Outcome = Reply(bytes: seq<byte>) | Forward(packet: seq<byte>)

  /** The response code and answers for a blocked question. */
  function Verdict(cfg: Config, qtype: u16, action: Action): (r: (byte, seq<Answer>))
    ensures Fits(r.0, r.1)
  {
    match action
    case A(ip) => if qtype == TYPE_A || qtype == TYPE_ANY then (0, [Answer(TYPE_A, cfg.ttl, ip)]) else (0, [])
    case Aaaa(ip) => if qtype == TYPE_AAAA || qtype == TYPE_ANY then (0, [Answer(TYPE_AAAA, cfg.ttl, ip)]) else (0, [])
    case Policy =>
      match cfg.action
      case NxDomain => (RCODE_NXDOMAIN, [])
      case Sinkhole =>
        if qtype == TYPE_A then (0, [Answer(TYPE_A, cfg.ttl, cfg.sinkholeA)])
        else if qtype == TYPE_AAAA then (0, [Answer(TYPE_AAAA, cfg.ttl, cfg.sinkholeAaaa)])
        else (RCODE_NXDOMAIN, [])
  }

  /** What the zone says about a question name, in its own terms. */
  function ZoneSays(entries: seq<Entry>, qname: string): Option<Action> {
    IndexLookup(ExactIndex(entries), SuffixIndex(entries), NormalizeName(qname))
  }

  /** What `process_dns_query` does with a packet. */
  function Handled(packet: seq<byte>, cfg: Config, entries: seq<Entry>): Outcome {
    match QueryIn(packet)
    case Err(_) => Reply(FormErr(if |packet| >= 2 then U16(packet, 0) else 0))
    case Ok(q) =>
      if q.question.qclass != CLASS_IN then Reply(ResponseBytes(q, 0, []))
      else
        match ZoneSays(entries, q.question.name)
        case None => Forward(packet)
        case Some(action) =>
          var (rcode, answers) := Verdict(cfg, q.question.qtype, action);
          Reply(ResponseBytes(q, rcode, answers))
  }

  /** What a blocked client should be told: a response code and at most one address. */
  ghost predicate Told(cfg: Config, qtype: u16, action: Action, rcode: nat, addresses: seq<(u16, seq<byte>)>) {
    var v4 := qtype == 1;
    var v6 := qtype == 28;
    var any := qtype == 255;
    match action
    case A(ip) => rcode == 0 && addresses == if v4 || any then [(1, ip)] else []
    case Aaaa(ip) => rcode == 0 && addresses == if v6 || any then [(28, ip)] else []
    case Policy =>
      if cfg.action.Sinkhole? && v4 then rcode == 0 && addresses == [(qtype, cfg.sinkholeA)]
      else if cfg.action.Sinkhole? && v6 then rcode == 0 && addresses == [(qtype, cfg.sinkholeAaaa)]
      else rcode == 3 && addresses == []
  }

  function Addresses(records: seq<Record>): seq<(u16, seq<byte>)> {
    seq(|records|, i requires 0 <= i < |records| => (records[i].rtype, records[i].rdata))
  }

  /** The reply a client decodes: its own id, question and RD bit, and the verdict under its own name. */
  ghost predicate Serves(bytes: seq<byte>, q: Query, cfg: Config, action: Action) {
    var decoded := DecodeMessage(bytes);
    && decoded.Some?
    && var m := decoded.value;
    && m.id == q.id && m.questions == [q.question] && m.flags.qr && m.flags.rd == q.recursionDesired
    && Told(cfg, q.question.qtype, action, m.flags.rcode, Addresses(m.answers))
    && forall r :: r in m.answers ==> r.name == q.question.name && r.ttl == cfg.ttl && r.rclass == 1
  }

  /** A name the reply can point back to: it stays inside its question and leaves a hop to spare. */
  ghost predicate Answerable(packet: seq<byte>, q: Query) {
    SelfContained(packet, q, MAX_HOPS) && SelfContained(packet, q, MAX_HOPS - 1)
  }

  lemma VerdictServes(packet: seq<byte>, q: Query, cfg: Config, action: Action)
    requires QueryIn(packet) == Ok(q) && Answerable(packet, q)
    ensures var (rcode, answers) := Verdict(cfg, q.question.qtype, action);
            Serves(ResponseBytes(q, rcode, answers), q, cfg, action)
  {
    hide QueryIn, SelfContained, ResponseBytes, DecodeMessage;
    var (rcode, answers) := Verdict(cfg, q.question.qtype, action);
    ResponseDecodes(packet, q, rcode, answers);
    var m := Meant(q, rcode, answers);
    assert Addresses(m.answers) == if answers == [] then [] else [(answers[0].rtype, answers[0].rdata)];
  }

  method BuildBlockResponse(cfg: Config, q: Query, action: Action) returns (out: seq<byte>)
    ensures var (rcode, answers) := Verdict(cfg, q.question.qtype, action); out == ResponseBytes(q, rcode, answers)
    ensures forall packet :: QueryIn(packet) == Ok(q) && Answerable(packet, q) ==> Serves(out, q, cfg, action)
  {
    hide QueryIn, ResponseBytes, DecodeMessage, SelfContained, Told;
    var qtype := q.question.qtype;
    var rcode: byte, answers: seq<Answer> := 0, [];
    match action {
      case A(ip) =>
        if qtype == TYPE_A || qtype == TYPE_ANY {
          answers := [Answer(TYPE_A, cfg.ttl, ip)];
        }
      case Aaaa(ip) =>
        if qtype == TYPE_AAAA || qtype == TYPE_ANY {
          answers := [Answer(TYPE_AAAA, cfg.ttl, ip)];
        }
      case Policy =>
        if cfg.action.Sinkhole? && qtype == TYPE_A {
          answers := [Answer(TYPE_A, cfg.ttl, cfg.sinkholeA)];
        } else if cfg.action.Sinkhole? && qtype == TYPE_AAAA {
          answers := [Answer(TYPE_AAAA, cfg.ttl, cfg.sinkholeAaaa)];
        } else {
          rcode := RCODE_NXDOMAIN;
        }
    }
    assert (rcode, answers) == Verdict(cfg, qtype, action);
    out := BuildResponse(q, rcode, answers);
    forall packet | QueryIn(packet) == Ok(q) && Answerable(packet, q)
      ensures Serves(out, q, cfg, action)
    {
      VerdictServes(packet, q, cfg, action);
    }
  }

  method ProcessQuery(packet: seq<byte>, cfg: Config, zone: Zone, ghost entries: seq<Entry>) returns (r: Outcome)
    requires zone.Indexes(entries)
    ensures r == Handled(packet, cfg, entries)
  {
    var parsed := ParseQuery(packet);
    if parsed.Err? {
      var id := if |packet| >= 2 then U16(packet, 0) else 0;
      return Reply(FormErr(id));
    }
    var q := parsed.value;
    if q.question.qclass != CLASS_IN {
      var empty := BuildResponse(q, 0, []);
      return Reply(empty);
    }
    var action := zone.Lookup(q.question.name, entries);
    if action.Some? {
      var blocked := BuildBlockResponse(cfg, q, action.value);
      return Reply(blocked);
    }
    return Forward(packet);
  }

  /** An empty reply a client decodes: its own id, question and RD bit, no error and no answers. */
  ghost predicate ServesNothing(bytes: seq<byte>, q: Query) {
    DecodeMessage(bytes) == Some(Meant(q, 0, []))
  }

  /** What the entries say about a name is what the index finds. */
  lemma ZoneAnswers(entries: seq<Entry>, qname: string)
    ensures forall r :: Answers(entries, NormalizeName(qname), TailOf(NormalizeName(qname)), r) <==> r == ZoneSays(entries, qname)
  {
    hide NormalizeName, Answers;
    var name, says := NormalizeName(qname), ZoneSays(entries, qname);
    IndexAnswers(entries, name);
    forall r | Answers(entries, name, TailOf(name), r)
      ensures r == says
    {
      AnswersUnique(entries, name, TailOf(name), r, says);
    }
  }

  /** What becomes of a packet that parses. */
  ghost predicate QueryServed(packet: seq<byte>, q: Query, cfg: Config, entries: seq<Entry>, r: Outcome) {
    var name := NormalizeName(q.question.name);
    && (r.Forward? <==> q.question.qclass == CLASS_IN && Answers(entries, name, TailOf(name), None))
    && (r.Forward? ==> r.packet == packet)
    && (q.question.qclass != CLASS_IN && SelfContained(packet, q, MAX_HOPS) ==> ServesNothing(r.bytes, q))
    && (q.question.qclass == CLASS_IN && Answerable(packet, q) ==>
        forall action :: Answers(entries, name, TailOf(name), Some(action)) ==> r.Reply? && Serves(r.bytes, q, cfg, action))
  }

  lemma QueryIsServed(packet: seq<byte>, q: Query, cfg: Config, entries: seq<Entry>)
    requires QueryIn(packet) == Ok(q)
    ensures QueryServed(packet, q, cfg, entries, Handled(packet, cfg, entries))
  {
    hide QueryIn, Serves, ResponseBytes, SelfContained, DecodeMessage, ZoneSays, Answers, NormalizeName;
    ZoneAnswers(entries, q.question.name);
    var says := ZoneSays(entries, q.question.name);
    if q.question.qclass != CLASS_IN {
      if SelfContained(packet, q, MAX_HOPS) { ResponseDecodes(packet, q, 0, []); }
    } else if says.Some? && Answerable(packet, q) {
      VerdictServes(packet, q, cfg, says.value);
    }
  }

  /**
    End to end, for every packet. An unparseable packet is answered with a format error under its own
    id. A question outside class IN gets an empty answer. Otherwise the packet goes upstream unchanged
    exactly when the zone's lines say nothing about its name, and a name they speak of is never
    forwarded. Every reply to a name that stays inside its question, compressed or not, decodes: to
    nothing outside class IN, and to what the deciding line says if the name leaves a hop to spare.
   */
  lemma PacketServed(packet: seq<byte>, cfg: Config, entries: seq<Entry>)
    ensures var r := Handled(packet, cfg, entries);
            match QueryIn(packet)
            case Ok(q) => QueryServed(packet, q, cfg, entries, r)
            case Err(_) =>
              && r.Reply? && |r.bytes| == 12 && r.bytes[..2] == (if |packet| >= 2 then packet[..2] else [0, 0])
              && r.bytes[2] == 0x80 && r.bytes[3] == 1 && forall i :: 4 <= i < 12 ==> r.bytes[i] == 0
  {
    hide QueryIn, QueryServed, ZoneSays, ResponseBytes;
    match QueryIn(packet)
    case Err(_) =>
    case Ok(q) => QueryIsServed(packet, q, cfg, entries);
  }

  /**
    From the text of the zone to the client: a question of class IN whose name ends in the labels of a
    suffix line, with no exact line for it and no earlier suffix line that ends it, is never forwarded,
    and decodes to what that line says.
   */
  lemma SuffixLineServes(packet: seq<byte>, q: Query, cfg: Config, text: string, ip: AddressParser, i: nat, suffix: string, action: Action)
    requires QueryIn(packet) == Ok(q) && q.question.qclass == CLASS_IN && ZoneEntries(text, ip).Ok?
    requires i < |FileSays(text, ip)| && FileSays(text, ip)[i] == Ok(Some(Suffix(suffix, action)))
    requires var name := NormalizeName(q.question.name);
             && IsTail(Split(suffix, '.'), Split(name, '.'))
             && NoLine(FileSays(text, ip), |FileSays(text, ip)|, ExactOf(name))
             && NoLine(FileSays(text, ip), i, SuffixIn(TailOf(name)))
    ensures var r := Handled(packet, cfg, ZoneEntries(text, ip).value);
            r.Reply? && (Answerable(packet, q) ==> Serves(r.bytes, q, cfg, action))
  {
    hide QueryIn, FileSays, NormalizeName, Answers, Serves, NoLine, SelfContained, Split, Handled;
    var name, entries := NormalizeName(q.question.name), ZoneEntries(text, ip).value;
    SuffixLineAnswers(text, ip, i, suffix, action, name);
    QueryIsServed(packet, q, cfg, entries);
    ZoneAnswers(entries, q.question.name);
  }
}
