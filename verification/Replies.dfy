/** What the resolver replies, in terms of the configuration and of what a client reads. */
module Replies {
  import opened Bytes
  import opened Names
  import opened Wire
  import opened Questions
  import opened Config
  import opened Answers
  import opened Response
  import opened Records
  import opened AnswerRoundTrip
  import opened Ttl
  import opened Cache
  import opened CacheKey
  import opened Hosts
  import opened Firewall
  import opened Resolver

  /** The assigned numbers of the record types that can be configured (section 3.2.2 of RFC 1035, RFC 2782, RFC
      3596). */
  const ASSIGNED: map<string, uint16> :=
    map["A" := 1, "NS" := 2, "CNAME" := 5, "PTR" := 12, "MX" := 15, "TXT" := 16, "AAAA" := 28, "SRV" := 33]

  lemma AssignedNumber(r: DnsRecord)
    requires ValidRecord(r)
    ensures r.rtype in ASSIGNED && TypeNumber(r.rtype) == ASSIGNED[r.rtype]
  {
    hide ToUpper, IsValidHostname;
    UpperFixed(r.rtype);
  }

  predicate OfType(r: DnsRecord, qtype: uint16) {
    r.rtype in ASSIGNED && ASSIGNED[r.rtype] == qtype
  }

  ghost predicate Ascending(at: seq<nat>) {
    forall j, k :: 0 <= j < k < |at| ==> at[j] < at[k]
  }

  ghost predicate AllOfType(at: seq<nat>, records: seq<DnsRecord>, qtype: uint16) {
    forall k :: 0 <= k < |at| ==> at[k] < |records| && OfType(records[at[k]], qtype)
  }

  /** `at` are the positions of all records of that type, in order. */
  ghost predicate Positions(at: seq<nat>, records: seq<DnsRecord>, qtype: uint16) {
    && AllOfType(at, records, qtype) && Ascending(at)
    && (forall i :: 0 <= i < |records| && OfType(records[i], qtype) ==> i in at)
  }

  function Shifted(at: seq<nat>): (r: seq<nat>)
    ensures |r| == |at| && forall k :: 0 <= k < |at| ==> r[k] == at[k] + 1
  {
    seq(|at|, k requires 0 <= k < |at| => at[k] + 1)
  }

  lemma InShifted(at: seq<nat>, i: nat)
    requires i in at
    ensures i + 1 in Shifted(at)
  {
    var k :| 0 <= k < |at| && at[k] == i;
    assert Shifted(at)[k] == i + 1;
  }

  lemma AllInShifted(at: seq<nat>, records: seq<DnsRecord>, qtype: uint16)
    requires records != [] && Positions(at, records[1..], qtype)
    ensures forall i :: 0 < i < |records| && OfType(records[i], qtype) ==> i in Shifted(at)
  {
    hide OfType, Shifted;
    forall i | 0 < i < |records| && OfType(records[i], qtype)
      ensures i in Shifted(at)
    {
      assert records[1..][i - 1] == records[i];
      InShifted(at, i - 1);
    }
  }

  lemma ShiftedAscending(at: seq<nat>)
    requires Ascending(at)
    ensures Ascending(Shifted(at)) && Ascending([0] + Shifted(at))
  {
  }

  lemma ShiftedOfType(at: seq<nat>, records: seq<DnsRecord>, qtype: uint16)
    requires records != [] && AllOfType(at, records[1..], qtype)
    ensures AllOfType(Shifted(at), records, qtype)
    ensures OfType(records[0], qtype) ==> AllOfType([0] + Shifted(at), records, qtype)
  {
    hide OfType;
    forall k | 0 <= k < |at|
      ensures at[k] + 1 < |records| && OfType(records[at[k] + 1], qtype)
    {
      assert records[1..][at[k]] == records[at[k] + 1];
    }
  }

  lemma PositionsSkip(at: seq<nat>, records: seq<DnsRecord>, qtype: uint16)
    requires records != [] && Positions(at, records[1..], qtype) && !OfType(records[0], qtype)
    ensures Positions(Shifted(at), records, qtype)
  {
    hide OfType, Shifted, Ascending, AllOfType;
    AllInShifted(at, records, qtype);
    ShiftedAscending(at);
    ShiftedOfType(at, records, qtype);
  }

  lemma PositionsTake(at: seq<nat>, records: seq<DnsRecord>, qtype: uint16)
    requires records != [] && Positions(at, records[1..], qtype) && OfType(records[0], qtype)
    ensures Positions([0] + Shifted(at), records, qtype)
  {
    hide OfType, Shifted, Ascending, AllOfType;
    AllInShifted(at, records, qtype);
    ShiftedAscending(at);
    ShiftedOfType(at, records, qtype);
    assert ([0] + Shifted(at))[0] == 0;
  }

  ghost predicate TakenAt(taken: seq<DnsRecord>, records: seq<DnsRecord>, at: seq<nat>) {
    |taken| == |at| && forall k :: 0 <= k < |at| ==> at[k] < |records| && taken[k] == records[at[k]]
  }

  lemma TakenSkip(taken: seq<DnsRecord>, records: seq<DnsRecord>, at: seq<nat>)
    requires records != [] && TakenAt(taken, records[1..], at)
    ensures TakenAt(taken, records, Shifted(at))
    ensures TakenAt([records[0]] + taken, records, [0] + Shifted(at))
  {
    forall k | 0 <= k < |at|
      ensures Shifted(at)[k] < |records| && taken[k] == records[Shifted(at)[k]]
    {
      assert records[1..][at[k]] == records[at[k] + 1];
    }
  }

  lemma MatchingStep(records: seq<DnsRecord>, qtype: uint16)
    requires records != [] && ValidRecord(records[0])
    ensures Matching(records, qtype)
            == (if OfType(records[0], qtype) then [records[0]] else []) + Matching(records[1..], qtype)
  {
    hide ValidRecord, TypeNumber;
    AssignedNumber(records[0]);
  }

  lemma {:induction false} MatchingPositions(records: seq<DnsRecord>, qtype: uint16) returns (at: seq<nat>)
    requires AllValid(records)
    ensures Positions(at, records, qtype) && TakenAt(Matching(records, qtype), records, at)
  {
    hide ValidRecord, Positions, TakenAt, OfType, Shifted, Matching;
    if records == [] {
      at := [];
      NothingMatches(qtype);
    } else {
      var rest := MatchingPositions(records[1..], qtype);
      MatchingStep(records, qtype);
      TakenSkip(Matching(records[1..], qtype), records, rest);
      if OfType(records[0], qtype) {
        PositionsTake(rest, records, qtype);
        at := [0] + Shifted(rest);
      } else {
        PositionsSkip(rest, records, qtype);
        at := Shifted(rest);
        assert [] + Matching(records[1..], qtype) == Matching(records[1..], qtype);
      }
    }
  }

  lemma NothingMatches(qtype: uint16)
    ensures Positions([], [], qtype) && TakenAt(Matching([], qtype), [], [])
  {
  }

  lemma {:induction false} MatchingValid(records: seq<DnsRecord>, qtype: uint16)
    requires AllValid(records)
    ensures AllValid(Matching(records, qtype)) && |Matching(records, qtype)| <= |records|
  {
    hide ValidRecord, TypeNumber;
    if records != [] {
      MatchingValid(records[1..], qtype);
    }
  }

  /** These answers are those records: owner, type, class IN, a TTL of 300 seconds, and the data, in order. */
  ghost predicate Lists(answers: seq<ParsedRecord>, owner: bytes, qtype: uint16,
                        records: seq<DnsRecord>, at: seq<nat>) {
    |answers| == |at| && forall k :: 0 <= k < |at| ==>
      && at[k] < |records|
      && answers[k].name == owner && answers[k].rtype == qtype && answers[k].rclass == 1 && answers[k].ttl == 300
      && answers[k].rdata == Rdata(records[at[k]])
  }

  lemma MatchingAnswers(records: seq<DnsRecord>, qtype: uint16, owner: bytes, off: nat, at: seq<nat>)
    requires AllValid(records) && Positions(at, records, qtype) && TakenAt(Matching(records, qtype), records, at)
    ensures Lists(Received(Matching(records, qtype), owner, CONFIGURED_TTL, off), owner, qtype, records, at)
  {
    hide Matching, Rdata, ValidRecord, TypeNumber;
    forall k | 0 <= k < |at|
      ensures TypeNumber(records[at[k]].rtype) == qtype
    {
      AssignedNumber(records[at[k]]);
    }
  }

  /** The records of a host answer one question. */
  lemma OneQuestion(cfg: ServerConfig, query: bytes, records: seq<DnsRecord>)
    requires |query| >= HEADER && |QuestionsOf(query)| == 1
    requires DnsLookup(cfg.hosts, NormalHost(QuestionsOf(query)[0].name)) == Some(records)
    ensures var q, flags := QuestionsOf(query)[0], CombinedFlags(GetU16(query, 2), RCODE_NO_ERROR);
            var answers := Entries(Matching(records, q.qtype), CONFIGURED_TTL);
            Uncached(cfg, query) == Reply(ResponsePacket(GetU16(query, 0), flags, [q], answers), true)
  {
    hide DnsLookup, NormalHost, Matching, Entries, ResponsePacket, CombinedFlags, GetU16;
    var qs := QuestionsOf(query);
    assert qs == [qs[0]] && qs[1..] == [];
    assert HostFor(cfg, qs[0]).Some?;
    Unit(Matching(records, qs[0].qtype));
    assert RecordsFor(cfg, qs) == Matching(records, qs[0].qtype);
  }

  /**
    The answer to every single question for a configured name, whatever else the query contains:
    the uncached reply is read as the configured records of the question's type and no others --
    each as often as it is configured, in the order of the configuration, with its data and the
    lower-cased normalised question name as owner.
   */
  lemma ReplyToQuestion(cfg: ServerConfig, query: bytes, records: seq<DnsRecord>) returns (at: seq<nat>)
    requires |query| >= HEADER && |QuestionsOf(query)| == 1
    requires DnsLookup(cfg.hosts, NormalHost(QuestionsOf(query)[0].name)) == Some(records)
    requires AllValid(records) && |records| < 0x1_0000
    ensures var q, outcome := QuestionsOf(query)[0], Uncached(cfg, query);
            && Positions(at, records, q.qtype)
            && outcome.Reply? && RecordsOf(outcome.packet).Some?
            && Lists(RecordsOf(outcome.packet).value.answers, Lower(Normalise(q.name)), q.qtype, records, at)
  {
    hide DnsLookup, NormalHost, Matching, Entries, ResponsePacket, CombinedFlags, GetU16, Received, QuestionsOf,
         RecordsOf,
         AddressesOf, Labels, Lists, AllValid, ExtractFrom, NameBytes, WireLabels;
    var q := QuestionsOf(query)[0];
    var rs := Matching(records, q.qtype);
    at := MatchingPositions(records, q.qtype);
    MatchingValid(records, q.qtype);
    OneQuestion(cfg, query, records);
    QuestionFits(query);
    var flags := CombinedFlags(GetU16(query, 2), RCODE_NO_ERROR);
    AnswerRoundTrip.AnswerRoundTrip(GetU16(query, 0), flags, q, rs, CONFIGURED_TTL);
    MatchingAnswers(records, q.qtype, Lower(Normalise(q.name)), HEADER + |NameBytes(Labels(q.name))| + 4, at);
  }

  lemma QuestionFits(query: bytes)
    requires |query| >= HEADER && |QuestionsOf(query)| == 1
    ensures WireLabels(Labels(QuestionsOf(query)[0].name))
  {
    hide ExtractFrom, Labels;
    ExtractedNamesFit(query, HEADER, GetU16(query, 4));
  }

  /** Some question is for a configured name. */
  ghost predicate Known(cfg: ServerConfig, qs: seq<ParsedQuestion>) {
    exists i :: 0 <= i < |qs| && DnsLookup(cfg.hosts, NormalHost(qs[i].name)).Some?
  }

  /** Some question is for a name that the firewall denies. */
  ghost predicate Denied(cfg: ServerConfig, qs: seq<ParsedQuestion>) {
    exists i :: 0 <= i < |qs| && EvaluateDomain(qs[i].name, cfg.firewall) == Deny
  }

  /** Nothing is configured, nothing forbids it, and there is a server to ask: the query is forwarded. */
  ghost predicate Forwarded(cfg: ServerConfig, qs: seq<ParsedQuestion>) {
    qs != [] && !Known(cfg, qs) && !Denied(cfg, qs) && cfg.fallbackDns != []
  }

  /** NOERROR for configured names, REFUSED for forbidden ones, else NXDOMAIN. */
  ghost function Code(cfg: ServerConfig, qs: seq<ParsedQuestion>): nat {
    if qs == [] then 3 else if Known(cfg, qs) then 0 else if Denied(cfg, qs) then 5 else 3
  }

  lemma KnownDenied(cfg: ServerConfig, qs: seq<ParsedQuestion>)
    ensures AnyKnown(cfg, qs) == Known(cfg, qs) && AnyDenied(cfg, qs) == Denied(cfg, qs)
  {
    hide DnsLookup, NormalHost, EvaluateDomain;
    assert forall i :: 0 <= i < |qs| ==> HostFor(cfg, qs[i]) == DnsLookup(cfg.hosts, NormalHost(qs[i].name));
  }

  lemma PacketHead(id: uint16, flags: uint16, qs: seq<ParsedQuestion>, answers: seq<bytes>)
    ensures var p := ResponsePacket(id, flags, qs, answers);
            |p| >= HEADER && GetU16(p, 0) == id && GetU16(p, 2) == flags
  {
    hide At, Header, GetU16, SectionBytes, AnswerSection, Offsets, ResponsePacket, Usable;
    PacketLayout(id, flags, qs, answers);
    var p := ResponsePacket(id, flags, qs, answers);
    HeaderFields(p, id, flags, |qs| % 0x1_0000, |Usable(answers)| % 0x1_0000, 0, 0);
  }

  /** A reply to that query: its ID, marked as an authoritative response, with that code if the query has none. */
  ghost predicate RepliesWith(packet: bytes, query: bytes, code: nat) {
    && |packet| >= HEADER && |query| >= HEADER && GetU16(packet, 0) == GetU16(query, 0)
    && GetU16(packet, 2) / 0x8000 == 1 && GetU16(packet, 2) / 0x400 % 2 == 1
    && (GetU16(query, 2) % 16 == 0 ==> GetU16(packet, 2) % 16 == code)
  }

  lemma RepliesWithCode(query: bytes, rcode: Rcode, qs: seq<ParsedQuestion>, answers: seq<bytes>)
    requires |query| >= HEADER
    ensures var flags := CombinedFlags(GetU16(query, 2), rcode);
            RepliesWith(ResponsePacket(GetU16(query, 0), flags, qs, answers), query, rcode)
  {
    hide ResponsePacket, GetU16, CombinedFlags;
    PacketHead(GetU16(query, 0), CombinedFlags(GetU16(query, 2), rcode), qs, answers);
    ResponseFlags(GetU16(query, 2), rcode);
  }

  lemma UncachedReply(cfg: ServerConfig, query: bytes)
    requires |query| >= HEADER
    ensures var qs, outcome := QuestionsOf(query), Uncached(cfg, query);
            && (outcome.Reply? <==> !Forwarded(cfg, qs))
            && (outcome.Reply? ==>
                  && RepliesWith(outcome.packet, query, Code(cfg, qs))
                  && (outcome.cacheable <==> qs != [] && (Known(cfg, qs) || !Denied(cfg, qs))))
  {
    hide QuestionsOf, ResponsePacket, GetU16, CombinedFlags, AnyKnown, AnyDenied, Known, Denied, RepliesWith, Entries,
         RecordsFor;
    var qs := QuestionsOf(query);
    KnownDenied(cfg, qs);
    RepliesWithCode(query, RCODE_NXDOMAIN, qs, []);
    RepliesWithCode(query, RCODE_REFUSED, qs, []);
    RepliesWithCode(query, RCODE_NO_ERROR, qs, Entries(RecordsFor(cfg, qs), CONFIGURED_TTL));
  }

  /** A request with recursion desired, with questions and without answers or authorities. */
  predicate IsRequest(query: bytes) {
    && |query| >= HEADER
    && query[2] < 128 && query[2] % 2 == 1
    && (query[4] != 0 || query[5] != 0) && query[6] == 0 && query[7] == 0 && query[8] == 0 && query[9] == 0
  }

  lemma RequestHeader(query: bytes)
    ensures Acceptable(query) <==> IsRequest(query)
  {
  }

  /**
    What `Resolve` does with a query that is not in the cache.  What is no request gets no reply and
    leaves no trace.  A request is forwarded if and only if its names are neither configured nor
    forbidden and there is a server to forward to; otherwise the reply has the code that fits.  The
    reply is stored if and only if it is for parsed questions that are configured or not forbidden.
   */
  lemma ResolveMiss(cfg: ServerConfig, c: CacheState, query: bytes, now: int, later: int)
    requires |query| >= HEADER ==> KeyOf(cfg, query) !in c.cacheMap
    ensures var qs, (c', reply) := QuestionsOf(query), Resolve(cfg, c, query, now, later);
            && (!IsRequest(query) ==> c' == c && reply == None)
            && (IsRequest(query) ==>
                  && (reply.None? <==> Forwarded(cfg, qs))
                  && (reply.Some? ==> RepliesWith(reply.value, query, Code(cfg, qs)))
                  && (KeyOf(cfg, query) in c'.cacheMap <==>
                        c.defaultTtl > 0 && !Forwarded(cfg, qs) && qs != [] && (Known(cfg, qs) || !Denied(cfg, qs)))
                  && (KeyOf(cfg, query) in c'.cacheMap ==> c' == Put(c, KeyOf(cfg, query), reply.value, later)))
  {
    hide QuestionsOf, Uncached, Known, Denied, RepliesWith, Code, KeyOf, Acceptable, IsRequest, RewriteTtl, Seconds,
         GetU16;
    RequestHeader(query);
    if IsRequest(query) {
      RequestSize(query);
      UncachedReply(cfg, query);
      ReplySize(cfg, query);
    }
  }

  lemma RequestSize(query: bytes)
    ensures IsRequest(query) ==> |query| >= HEADER
  {
  }

  lemma ReplySize(cfg: ServerConfig, query: bytes)
    requires |query| >= HEADER
    ensures Uncached(cfg, query).Reply? ==> |Uncached(cfg, query).packet| >= HEADER
  {
    hide Uncached, Known, Denied, Code, GetU16;
    UncachedReply(cfg, query);
  }

  /** What `Resolve` sends on a hit, after any history: the uncached reply to this query but for TTLs and flags. */
  lemma ResolveHit(cfg: ServerConfig, maxSize: int, defaultTtl: int, events: seq<Event>, query: bytes, now: int,
                   later: int)
    requires Injective(cfg.hash) && IsRequest(query)
    requires Get(History(cfg, maxSize, defaultTtl, events), KeyOf(cfg, query), now).1.Some?
    ensures var c := History(cfg, maxSize, defaultTtl, events);
            var (reply, plain) := (Resolve(cfg, c, query, now, later).1, Uncached(cfg, query));
            var remaining := Get(c, KeyOf(cfg, query), now).1.value.remainingMs;
            && plain.Reply? && plain.cacheable && reply.Some? && |reply.value| == |plain.packet| >= HEADER
            && reply.value[..2] == query[..2]
            && reply.value[4..] == RewriteTtl(plain.packet, Seconds(remaining))[4..]
  {
    hide History, Get, RewriteTtl, Seconds, Uncached, KeyOf, SameQuestions, QuestionsOf, IsRequest, GetU16;
    RequestHeader(query);
    RequestSize(query);
    CacheTransparency(cfg, maxSize, defaultTtl, events, query, now);
  }
}
