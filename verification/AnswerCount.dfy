/** The 16-bit answer count: enough for every single question, but not for many of them. */
module AnswerCount {
  import opened Bytes
  import opened Names
  import opened Wire
  import opened Questions
  import opened Response
  import opened Config
  import opened Answers
  import opened Records
  import opened AnswerRoundTrip
  import opened Messages
  import opened Hosts
  import opened Resolver

  /** The most records a validated configuration has per host (pkg/config/validation.go). */
  const MAX_RECORDS: nat := 64

  /** For one question the count never wraps: all records of a host are read back. */
  lemma HostRoundTrip(id: uint16, flags: uint16, q: ParsedQuestion, rs: seq<DnsRecord>, ttl: uint32)
    requires WireLabels(Labels(q.name)) && AllValid(rs) && |rs| <= MAX_RECORDS
    ensures var first := HEADER + |NameBytes(Labels(q.name))| + 4;
            ReadsBackAs(ResponsePacket(id, flags, [q], Entries(rs, ttl)),
                        Received(rs, Lower(Normalise(q.name)), ttl, first), AddressesIn(rs))
  {
    hide ReadsBackAs, ResponsePacket, Received, Entries, AddressesIn, Labels, NameBytes, WireLabels;
    AnswerRoundTrip.AnswerRoundTrip(id, flags, q, rs, ttl);
  }

  lemma {:induction false} RecordsRepeated(cfg: ServerConfig, qs: seq<ParsedQuestion>, name: bytes, qtype: uint16,
                                           records: seq<DnsRecord>)
    requires forall i :: 0 <= i < |qs| ==> qs[i].name == name && qs[i].qtype == qtype
    requires DnsLookup(cfg.hosts, NormalHost(name)) == Some(records)
    ensures |RecordsFor(cfg, qs)| == |qs| * |Matching(records, qtype)|
  {
    hide DnsLookup, NormalHost, Matching;
    if qs != [] {
      RecordsRepeated(cfg, qs[1..], name, qtype, records);
    }
  }

  function Repeat(q: WireQuestion, n: nat): (r: seq<WireQuestion>)
    ensures |r| == n && forall i :: 0 <= i < n ==> r[i] == q
  {
    seq(n, i => q)
  }

  lemma RepeatSendable(q: WireQuestion, n: nat)
    requires Askable(q) && n < 0x1_0000
    ensures Sendable(Repeat(q, n), [], [], [])
  {
    hide Askable;
  }

  lemma AnnouncedCount(id: uint16, flags: uint16, qs: seq<ParsedQuestion>, rs: seq<DnsRecord>, ttl: uint32)
    ensures var p := ResponsePacket(id, flags, qs, Entries(rs, ttl)); |p| >= HEADER && GetU16(p, 6) == |rs| % 0x1_0000
  {
    hide At, Header, GetU16, Entries, SectionBytes, AnswerSection, Offsets, ResponsePacket, Usable;
    EntriesLong(rs, ttl);
    UsableAll(Entries(rs, ttl));
    PacketLayout(id, flags, qs, Entries(rs, ttl));
    HeaderFields(ResponsePacket(id, flags, qs, Entries(rs, ttl)), id, flags, |qs| % 0x1_0000, |rs| % 0x1_0000, 0, 0);
  }

  /** A query that wraps it: 1024 times the same question for a host with 64 such records announces no answer at all. */
  lemma CountWraps(cfg: ServerConfig, id: uint16, flags: uint16, q: WireQuestion, records: seq<DnsRecord>)
    requires Askable(q) && DnsLookup(cfg.hosts, NormalHost(Join(q.labels))) == Some(records)
    requires |Matching(records, q.qtype)| == MAX_RECORDS
    ensures var query := Message(id, flags, Repeat(q, 1024), [], [], []);
            var outcome := Uncached(cfg, query);
            && |RecordsFor(cfg, QuestionsOf(query))| == 0x1_0000
            && outcome.Reply? && |outcome.packet| >= HEADER && GetU16(outcome.packet, 6) == 0
  {
    hide DnsLookup, NormalHost, Matching, Message, QuestionsOf, RecordsFor, AsParsed, Join, Askable, Repeat,
         ResponsePacket, Entries, GetU16, CombinedFlags, Sendable, SectionBytes, RecordsBytes, AsRecords, RecordsOf;
    var qs := Repeat(q, 1024);
    RepeatSendable(q, 1024);
    MessageRead(id, flags, qs, [], [], []);
    AsParsedFields(qs, HEADER);
    var asked := AsParsed(qs, HEADER);
    RecordsRepeated(cfg, asked, Join(q.labels), q.qtype, records);
    assert HostFor(cfg, asked[0]).Some?;
    var query := Message(id, flags, qs, [], [], []);
    AnnouncedCount(GetU16(query, 0), CombinedFlags(GetU16(query, 2), RCODE_NO_ERROR), asked,
                   RecordsFor(cfg, asked), CONFIGURED_TTL);
  }
}
