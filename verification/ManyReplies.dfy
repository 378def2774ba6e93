/** What the resolver replies to several questions at once. */
module ManyReplies {
  import opened Bytes
  import opened Names
  import opened Wire
  import opened Questions
  import opened Config
  import opened Answers
  import opened Response
  import opened Records
  import opened AnswerRoundTrip
  import opened ManyAnswers
  import opened AnswerCount
  import opened Hosts
  import opened Resolver
  import opened Replies

  /** A configuration as validation leaves it: valid records, at most 64 per host. */
  predicate ValidHosts(cfg: ServerConfig) {
    forall name :: name in cfg.hosts ==> AllValid(cfg.hosts[name]) && |cfg.hosts[name]| <= MAX_RECORDS
  }

  lemma {:induction false} WildcardValid(cfg: ServerConfig, name: bytes, i: nat, n: nat)
    requires ValidHosts(cfg) && n <= |Split(name)|
    ensures FirstWildcard(cfg.hosts, name, i, n).Some? ==>
              var records := FirstWildcard(cfg.hosts, name, i, n).value; AllValid(records) && |records| <= MAX_RECORDS
    decreases n - i
  {
    hide AllValid;
    if i < n {
      WildcardValid(cfg, name, i + 1, n);
    }
  }

  lemma LookupValid(cfg: ServerConfig, name: bytes)
    requires ValidHosts(cfg)
    ensures DnsLookup(cfg.hosts, name).Some? ==>
              AllValid(DnsLookup(cfg.hosts, name).value) && |DnsLookup(cfg.hosts, name).value| <= MAX_RECORDS
  {
    hide AllValid, FirstWildcard;
    WildcardValid(cfg, name, 0, |Split(name)|);
  }

  /** The answer is that record: its type, class IN, a TTL of 300 seconds and its data. */
  predicate Carries(a: ParsedRecord, r: DnsRecord) {
    a.rtype == TypeNumber(r.rtype) && a.rclass == 1 && a.ttl == CONFIGURED_TTL && a.rdata == Rdata(r)
  }

  ghost predicate CarryAll(answers: seq<ParsedRecord>, rs: seq<DnsRecord>) {
    |answers| == |rs| && forall i :: 0 <= i < |rs| ==> Carries(answers[i], rs[i])
  }

  lemma {:induction false} ReceivedCarries(rs: seq<DnsRecord>, qs: seq<WireQuestion>, off: nat, index: nat)
    requires qs != []
    ensures CarryAll(ReceivedFor(rs, qs, CONFIGURED_TTL, off, index), rs)
  {
    hide Rdata, TypeNumber, Lower, Join;
    if rs != [] {
      ReceivedCarries(rs[1..], qs, off + 12 + |Rdata(rs[0])|, index + 1);
    }
  }

  /** These answers are the configured records of the question's type, all of them, in order; none for an unknown
      name. */
  ghost predicate Block(cfg: ServerConfig, q: ParsedQuestion, answers: seq<ParsedRecord>, at: seq<nat>) {
    match DnsLookup(cfg.hosts, NormalHost(q.name))
    case None => answers == [] && at == []
    case Some(records) =>
      && Positions(at, records, q.qtype) && |answers| == |at|
      && forall k :: 0 <= k < |at| ==>
           at[k] < |records| && answers[k].rtype == q.qtype && answers[k].rclass == 1 && answers[k].ttl == 300
           && answers[k].rdata == Rdata(records[at[k]])
  }

  /** Block after block, question by question. */
  ghost predicate Blocks(cfg: ServerConfig, qs: seq<ParsedQuestion>, answers: seq<ParsedRecord>)
    decreases |qs|
  {
    if qs == [] then answers == []
    else exists at: seq<nat> :: |at| <= |answers| && Block(cfg, qs[0], answers[..|at|], at)
                                && Blocks(cfg, qs[1..], answers[|at|..])
  }

  lemma CarriesType(a: ParsedRecord, r: DnsRecord, qtype: uint16)
    requires ValidRecord(r) && OfType(r, qtype) && Carries(a, r)
    ensures a.rtype == qtype && a.rclass == 1 && a.ttl == 300 && a.rdata == Rdata(r)
  {
    hide Rdata, TypeNumber, ValidRecord;
    AssignedNumber(r);
  }

  lemma OneBlock(cfg: ServerConfig, q: ParsedQuestion, answers: seq<ParsedRecord>) returns (at: seq<nat>)
    requires ValidHosts(cfg)
    requires CarryAll(answers, match DnsLookup(cfg.hosts, NormalHost(q.name))
                               case None => [] case Some(records) => Matching(records, q.qtype))
    ensures Block(cfg, q, answers, at) && |at| == |answers|
  {
    hide DnsLookup, NormalHost, Matching, Rdata, Carries, ValidHosts, ValidRecord, OfType;
    LookupValid(cfg, NormalHost(q.name));
    match DnsLookup(cfg.hosts, NormalHost(q.name)) {
      case None => at := [];
      case Some(records) =>
        at := MatchingPositions(records, q.qtype);
        forall k | 0 <= k < |at|
          ensures at[k] < |records| && answers[k].rtype == q.qtype && answers[k].rclass == 1 && answers[k].ttl == 300
                  && answers[k].rdata == Rdata(records[at[k]])
        {
          CarriesType(answers[k], records[at[k]], q.qtype);
        }
    }
  }

  lemma CarrySplit(answers: seq<ParsedRecord>, a: seq<DnsRecord>, b: seq<DnsRecord>)
    requires CarryAll(answers, a + b)
    ensures |a| <= |answers| && CarryAll(answers[..|a|], a) && CarryAll(answers[|a|..], b)
  {
    hide Carries;
    assert forall i :: 0 <= i < |a| ==> (a + b)[i] == a[i];
    assert forall i :: 0 <= i < |b| ==> (a + b)[|a| + i] == b[i];
  }

  lemma {:induction false} AllBlocks(cfg: ServerConfig, qs: seq<ParsedQuestion>, answers: seq<ParsedRecord>)
    requires ValidHosts(cfg) && CarryAll(answers, RecordsFor(cfg, qs))
    ensures Blocks(cfg, qs, answers)
    decreases |qs|
  {
    hide DnsLookup, NormalHost, Matching, CarryAll, ValidHosts, Block;
    if qs == [] {
      NothingCarried(answers);
    } else {
      var first := match DnsLookup(cfg.hosts, NormalHost(qs[0].name))
        case None => [] case Some(records) => Matching(records, qs[0].qtype);
      CarrySplit(answers, first, RecordsFor(cfg, qs[1..]));
      CarryLength(answers[..|first|], first);
      var at := OneBlock(cfg, qs[0], answers[..|first|]);
      AllBlocks(cfg, qs[1..], answers[|first|..]);
    }
  }

  lemma CarryLength(answers: seq<ParsedRecord>, rs: seq<DnsRecord>)
    requires CarryAll(answers, rs)
    ensures |answers| == |rs|
  {
  }

  lemma NothingCarried(answers: seq<ParsedRecord>)
    requires CarryAll(answers, [])
    ensures answers == []
  {
  }

  lemma {:induction false} RecordsForBound(cfg: ServerConfig, qs: seq<ParsedQuestion>)
    requires ValidHosts(cfg)
    ensures |RecordsFor(cfg, qs)| <= MAX_RECORDS * |qs| && AllValid(RecordsFor(cfg, qs))
  {
    hide DnsLookup, NormalHost, Matching, ValidHosts, ValidRecord;
    if qs != [] {
      RecordsForBound(cfg, qs[1..]);
      LookupValid(cfg, NormalHost(qs[0].name));
      if HostFor(cfg, qs[0]).Some? {
        MatchingValid(HostFor(cfg, qs[0]).value, qs[0].qtype);
      }
    }
  }

  /**
    The reply to any number of questions of which one is for a configured name, as long as the
    answer count and the pointers reach: it is read as block after block, question by question, the
    configured records of the question's type, in the order of the configuration.
   */
  lemma ReplyToQuestions(cfg: ServerConfig, query: bytes)
    requires |query| >= HEADER && ValidHosts(cfg) && Known(cfg, QuestionsOf(query))
    requires |QuestionsOf(query)| < 1024 && HEADER + |SectionBytes(Echoes(QuestionsOf(query)))| <= 0x4000
    ensures var outcome := Uncached(cfg, query);
            && outcome.Reply? && RecordsOf(outcome.packet).Some?
            && Blocks(cfg, QuestionsOf(query), RecordsOf(outcome.packet).value.answers)
  {
    hide QuestionsOf, ResponsePacket, GetU16, CombinedFlags, AnyKnown, AnyDenied, Known, Denied, Entries, RecordsFor,
         RecordsOf,
         ReceivedFor, Blocks, CarryAll, Echoable, SectionBytes, ValidHosts, AllValid;
    var qs := QuestionsOf(query);
    var rs := RecordsFor(cfg, qs);
    KnownDenied(cfg, qs);
    KnownNonEmpty(cfg, qs);
    RecordsForBound(cfg, qs);
    ExtractedEchoable(query);
    ManyQuestionsRead(GetU16(query, 0), CombinedFlags(GetU16(query, 2), RCODE_NO_ERROR), qs, rs, CONFIGURED_TTL);
    var first := HEADER + |SectionBytes(Echoes(qs))|;
    ReceivedCarries(rs, Echoes(qs), first, 0);
    AllBlocks(cfg, qs, ReceivedFor(rs, Echoes(qs), CONFIGURED_TTL, first, 0));
  }

  lemma KnownNonEmpty(cfg: ServerConfig, qs: seq<ParsedQuestion>)
    requires Known(cfg, qs)
    ensures qs != []
  {
  }
}
