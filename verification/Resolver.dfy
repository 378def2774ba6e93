/** `DevDnsServer.Resolve` (pkg/dns/server.go), with and without its cache. */
module Resolver {
  import opened Bytes
  import opened Questions
  import opened Config
  import opened Answers
  import opened Response
  import opened Hosts
  import opened Firewall
  import opened Ttl
  import opened Cache
  import opened CacheKey

  /** The configuration that resolution depends on; `hash` stands for SHA-256 over the key text. */
  datatype ServerConfig = ServerConfig(
    hosts: map<bytes, seq<DnsRecord>>, firewall: Option<FirewallConfig>, fallbackDns: bytes, hash: bytes -> bytes)

  /** The header checks: a request, recursion desired, questions but no answers or authorities. */
  predicate Acceptable(query: bytes) {
    && |query| >= HEADER
    && GetU16(query, 2) / 0x8000 == 0 && GetU16(query, 2) / 0x100 % 2 == 1
    && GetU16(query, 4) != 0 && GetU16(query, 6) == 0 && GetU16(query, 8) == 0
  }

  function HostFor(cfg: ServerConfig, q: ParsedQuestion): Option<seq<DnsRecord>> {
    DnsLookup(cfg.hosts, NormalHost(q.name))
  }

  predicate AnyKnown(cfg: ServerConfig, qs: seq<ParsedQuestion>) {
    exists i :: 0 <= i < |qs| && HostFor(cfg, qs[i]).Some?
  }

  predicate AnyDenied(cfg: ServerConfig, qs: seq<ParsedQuestion>) {
    exists i :: 0 <= i < |qs| && EvaluateDomain(qs[i].name, cfg.firewall) == Deny
  }

  /** The records that answer the questions, question by question. */
  function RecordsFor(cfg: ServerConfig, qs: seq<ParsedQuestion>): seq<DnsRecord> {
    if qs == [] then []
    else
      (match HostFor(cfg, qs[0]) case None => [] case Some(records) => Matching(records, qs[0].qtype))
      + RecordsFor(cfg, qs[1..])
  }

  datatype Outcome = Forward | Reply(packet: bytes, cacheable: bool)

  /** The uncached resolver, on the parts of a query it looks at. */
  function Answer(cfg: ServerConfig, id: uint16, flags: uint16, qs: seq<ParsedQuestion>): Outcome {
    if qs == [] then Reply(ResponsePacket(id, CombinedFlags(flags, RCODE_NXDOMAIN), qs, []), false)
    else if !AnyKnown(cfg, qs) then
      if AnyDenied(cfg, qs) then Reply(ResponsePacket(id, CombinedFlags(flags, RCODE_REFUSED), qs, []), false)
      else if cfg.fallbackDns == [] then Reply(ResponsePacket(id, CombinedFlags(flags, RCODE_NXDOMAIN), qs, []), true)
      else Forward
    else
      var answers := Entries(RecordsFor(cfg, qs), CONFIGURED_TTL);
      Reply(ResponsePacket(id, CombinedFlags(flags, RCODE_NO_ERROR), qs, answers), true)
  }

  function Uncached(cfg: ServerConfig, query: bytes): Outcome {
    if |query| < HEADER then Forward else Answer(cfg, GetU16(query, 0), GetU16(query, 2), QuestionsOf(query))
  }

  function KeyOf(cfg: ServerConfig, query: bytes): bytes {
    cfg.hash(RawKey(QuestionsOf(query)))
  }

  /** A cached response as it is sent: under the ID of the query at hand. */
  function UnderId(response: bytes, query: bytes): bytes
    requires |query| >= 2 && |response| >= 2
  {
    Patch(response, 0, query[..2])
  }

  /**
    `Resolve` in one go: look the questions up (at `now`), else answer them and, where the program
    does so, store the answer (at `later`).  `None` means that the query goes to the upstream server.
   */
  function Resolve(cfg: ServerConfig, c: CacheState, query: bytes, now: int, later: int): (CacheState, Option<bytes>) {
    if !Acceptable(query) then (c, None)
    else
      var (looked, hit) := Get(c, KeyOf(cfg, query), now);
      if hit.Some? && |hit.value.response| >= 2 then (looked, Some(UnderId(hit.value.response, query)))
      else
        match Uncached(cfg, query)
        case Forward => (looked, None)
        case Reply(packet, cacheable) =>
          (if cacheable then Put(looked, KeyOf(cfg, query), packet, later) else looked, Some(packet))
  }

  /** The two locked sections of `Resolve` as separate steps, since other calls may run in between. */
  datatype Event = LookUp(query: bytes, now: int) | Fill(query: bytes, now: int)

  function After(cfg: ServerConfig, c: CacheState, e: Event): CacheState {
    if !Acceptable(e.query) then c
    else
      match e
      case LookUp(query, now) => Get(c, KeyOf(cfg, query), now).0
      case Fill(query, now) =>
        var outcome := Uncached(cfg, query);
        if outcome.Reply? && outcome.cacheable then Put(c, KeyOf(cfg, query), outcome.packet, now) else c
  }

  /** The cache after any interleaving of lookups and fills. */
  function History(cfg: ServerConfig, maxSize: int, defaultTtl: int, events: seq<Event>): CacheState {
    if events == [] then Empty(maxSize, defaultTtl)
    else After(cfg, History(cfg, maxSize, defaultTtl, events[..|events| - 1]), events[|events| - 1])
  }

  /** The entry was stored by this fill: the uncached reply to its query, up to TTLs, under its key. */
  ghost predicate FilledBy(cfg: ServerConfig, key: bytes, entry: CacheEntry, e: Event) {
    && e.Fill? && Acceptable(e.query) && key == KeyOf(cfg, e.query) && entry.insertedAt == e.now
    && Uncached(cfg, e.query).Reply? && Uncached(cfg, e.query).cacheable && |Uncached(cfg, e.query).packet| >= HEADER
    && forall t: uint32 :: RewriteTtl(entry.response, t) == RewriteTtl(Uncached(cfg, e.query).packet, t)
  }

  ghost predicate Coherent(cfg: ServerConfig, c: CacheState, events: seq<Event>) {
    forall key :: key in c.cacheMap ==>
      exists i :: 0 <= i < |events| && FilledBy(cfg, key, c.cacheMap[key], events[i])
  }

  lemma CoherentLater(cfg: ServerConfig, c: CacheState, events: seq<Event>, e: Event)
    requires Coherent(cfg, c, events)
    ensures Coherent(cfg, c, events + [e])
  {
    hide FilledBy;
    forall key | key in c.cacheMap
      ensures exists i :: 0 <= i < |events + [e]| && FilledBy(cfg, key, c.cacheMap[key], (events + [e])[i])
    {
      var i :| 0 <= i < |events| && FilledBy(cfg, key, c.cacheMap[key], events[i]);
      assert (events + [e])[i] == events[i];
    }
  }

  lemma PutCoherent(cfg: ServerConfig, c: CacheState, events: seq<Event>, query: bytes, now: int)
    requires Coherent(cfg, c, events) && Fill(query, now) in events && Acceptable(query)
    requires Uncached(cfg, query).Reply? && Uncached(cfg, query).cacheable
    ensures Coherent(cfg, Put(c, KeyOf(cfg, query), Uncached(cfg, query).packet, now), events)
  {
    hide Uncached, Acceptable, KeyOf, RewriteTtl, Seconds;
    var key, packet := KeyOf(cfg, query), Uncached(cfg, query).packet;
    var c' := Put(c, key, packet, now);
    forall t: uint32
      ensures RewriteTtl(RewriteTtl(packet, Seconds(c.defaultTtl)), t) == RewriteTtl(packet, t)
    {
      RewriteTwice(packet, Seconds(c.defaultTtl), t);
    }
    if c' != c {
      var i :| 0 <= i < |events| && events[i] == Fill(query, now);
      assert FilledBy(cfg, key, c'.cacheMap[key], events[i]);
      assert forall k :: k in c'.cacheMap && k != key ==> k in c.cacheMap && c'.cacheMap[k] == c.cacheMap[k];
    }
  }

  /** Whatever the interleaving, every cached entry stems from a fill with the uncached reply. */
  lemma {:induction false} HistoryCoherent(cfg: ServerConfig, maxSize: int, defaultTtl: int, events: seq<Event>)
    ensures Coherent(cfg, History(cfg, maxSize, defaultTtl, events), events)
  {
    hide Uncached, Acceptable, KeyOf, FilledBy, RewriteTtl, Put;
    if events != [] {
      var n := |events| - 1;
      var c, e := History(cfg, maxSize, defaultTtl, events[..n]), events[n];
      HistoryCoherent(cfg, maxSize, defaultTtl, events[..n]);
      CoherentLater(cfg, c, events[..n], e);
      assert events[..n] + [e] == events;
      if Acceptable(e.query) && e.Fill? && Uncached(cfg, e.query).Reply? && Uncached(cfg, e.query).cacheable {
        assert e in events;
        PutCoherent(cfg, c, events, e.query, e.now);
      }
    }
  }

  lemma {:induction false} SameRecords(cfg: ServerConfig, a: seq<ParsedQuestion>, b: seq<ParsedQuestion>)
    requires SameQuestions(a, b)
    ensures RecordsFor(cfg, a) == RecordsFor(cfg, b)
    ensures Echoes(a) == Echoes(b)
  {
    if a != [] {
      SameRecords(cfg, a[1..], b[1..]);
    }
  }

  /** The reply to the same questions differs in the ID and the flags only. */
  lemma SameAnswers(cfg: ServerConfig, id: uint16, flags: uint16, qs: seq<ParsedQuestion>, id': uint16, flags': uint16,
                    qs': seq<ParsedQuestion>)
    requires SameQuestions(qs, qs')
    ensures var a, b := Answer(cfg, id, flags, qs), Answer(cfg, id', flags', qs');
            && a.Reply? == b.Reply?
            && (a.Reply? ==>
                  a.cacheable == b.cacheable && |a.packet| == |b.packet| >= HEADER && a.packet[4..] == b.packet[4..])
  {
    hide ResponseBody, CombinedFlags, Entries, RecordsFor, HostFor, EvaluateDomain, Usable;
    SameRecords(cfg, qs, qs');
    SameHosts(cfg, qs, qs');
    var echoes := Echoes(qs);
    BodyLength(echoes, Usable([]));
    BodyLength(echoes, Usable(Entries(RecordsFor(cfg, qs), CONFIGURED_TTL)));
  }

  lemma SameHosts(cfg: ServerConfig, qs: seq<ParsedQuestion>, qs': seq<ParsedQuestion>)
    requires SameQuestions(qs, qs')
    ensures AnyKnown(cfg, qs) == AnyKnown(cfg, qs') && AnyDenied(cfg, qs) == AnyDenied(cfg, qs')
  {
    assert forall i :: 0 <= i < |qs| ==> HostFor(cfg, qs[i]) == HostFor(cfg, qs'[i]);
    assert forall i :: 0 <= i < |qs| ==> qs[i].name == qs'[i].name;
  }

  lemma BodyLength(qs: seq<WireQuestion>, answers: seq<bytes>)
    ensures |ResponseBody(qs, answers)| >= 8
  {
  }

  /** TTL rewriting does not look at the ID and the flags. */
  lemma RewriteBeyondFlags(p: bytes, p': bytes, ttl: uint32)
    requires |p| == |p'| >= HEADER && p[4..] == p'[4..]
    ensures RewriteTtl(p, ttl)[4..] == RewriteTtl(p', ttl)[4..]
  {
    hide PatchAll, U32, AnswerStart, TtlFields, SameBut;
    assert forall i :: 4 <= i < |p| ==> p[i] == p[4..][i - 4] == p'[4..][i - 4] == p'[i];
    var start := AnswerStart(p, HEADER, GetU16(p, 4));
    SameAnswerStart(p, p', HEADER, GetU16(p, 4));
    SameFields(p, p', start, GetU16(p, 6));
    var fields := TtlFieldsOf(p);
    forall i | 4 <= i < |p|
      ensures RewriteTtl(p, ttl)[i] == RewriteTtl(p', ttl)[i]
    {
      SamePatch(p, p', fields, U32(ttl), i);
    }
  }

  /** What a cache hit sends, compared with the uncached resolver and with the fill the entry came from. */
  ghost predicate Transparent(cfg: ServerConfig, query: bytes, hit: Hit, now: int, defaultTtl: int, fill: Event) {
    var plain := Uncached(cfg, query);
    && plain.Reply? && plain.cacheable
    && |hit.response| == |plain.packet| >= HEADER
    && var served := UnderId(hit.response, query);
    && served[..2] == query[..2]
    && served[4..] == RewriteTtl(plain.packet, Seconds(hit.remainingMs))[4..]
    && fill.Fill? && SameQuestions(QuestionsOf(fill.query), QuestionsOf(query))
    && Uncached(cfg, fill.query).Reply? && |Uncached(cfg, fill.query).packet| == |served|
    && served[2..4] == Uncached(cfg, fill.query).packet[2..4]
    && hit.remainingMs == defaultTtl - (now - fill.now) > 0
  }

  lemma HitTransparent(cfg: ServerConfig, c: CacheState, query: bytes, now: int, fill: Event)
    requires Injective(cfg.hash) && Acceptable(query) && KeyOf(cfg, query) in c.cacheMap
    requires FilledBy(cfg, KeyOf(cfg, query), c.cacheMap[KeyOf(cfg, query)], fill)
    requires Get(c, KeyOf(cfg, query), now).1.Some?
    ensures Transparent(cfg, query, Get(c, KeyOf(cfg, query), now).1.value, now, c.defaultTtl, fill)
  {
    hide Answer, RewriteTtl, Seconds, QuestionsOf, RawKey, SameQuestions;
    var hit := Get(c, KeyOf(cfg, query), now).1.value;
    var asked, filled := QuestionsOf(query), QuestionsOf(fill.query);
    RawKeyInjective(filled, asked);
    SameAnswers(cfg, GetU16(fill.query, 0), GetU16(fill.query, 2), filled, GetU16(query, 0), GetU16(query, 2), asked);
    var packet, plain, t := Uncached(cfg, fill.query).packet, Uncached(cfg, query).packet, Seconds(hit.remainingMs);
    assert hit.response == RewriteTtl(packet, t);
    RewriteBeyondFlags(packet, plain, t);
    RewriteKeepsShape(packet, t);
    var served := UnderId(hit.response, query);
    assert served[4..] == hit.response[4..];
    assert served[2..4] == hit.response[..HEADER][2..4] == packet[..HEADER][2..4] == packet[2..4];
  }

  /**
    Cache transparency, for a fixed configuration and every interleaving of lookups and fills: a
    hit is the reply the uncached resolver would build for this very query, with the TTLs set to
    the remaining lifetime and the flags of the query that filled the entry, under this query's
    ID; a question set that would be refused, forwarded or found empty is never served.
   */
  lemma CacheTransparency(cfg: ServerConfig, maxSize: int, defaultTtl: int, events: seq<Event>, query: bytes, now: int)
    requires Injective(cfg.hash) && Acceptable(query)
    requires Get(History(cfg, maxSize, defaultTtl, events), KeyOf(cfg, query), now).1.Some?
    ensures var c := History(cfg, maxSize, defaultTtl, events);
            exists i :: 0 <= i < |events|
              && Transparent(cfg, query, Get(c, KeyOf(cfg, query), now).1.value, now, c.defaultTtl, events[i])
  {
    hide Transparent, FilledBy, History, Acceptable, Injective, KeyOf, Answer;
    var c := History(cfg, maxSize, defaultTtl, events);
    HistoryCoherent(cfg, maxSize, defaultTtl, events);
    var key := KeyOf(cfg, query);
    assert key in c.cacheMap;
    var i :| 0 <= i < |events| && FilledBy(cfg, key, c.cacheMap[key], events[i]);
    HitTransparent(cfg, c, query, now, events[i]);
  }

  /** `Resolve` moves the cache as a lookup and at most one fill do. */
  lemma ResolveIsTwoSteps(cfg: ServerConfig, c: CacheState, query: bytes, now: int, later: int)
    ensures var looked := After(cfg, c, LookUp(query, now));
            var c' := Resolve(cfg, c, query, now, later).0;
            c' == looked || c' == After(cfg, looked, Fill(query, later))
  {
    hide Uncached, Get, Put, KeyOf;
  }

  method BuildAnswers(records: seq<DnsRecord>, recordType: uint16) returns (answers: seq<bytes>)
    ensures answers == AnswersFor(records, recordType, CONFIGURED_TTL)
  {
    hide SingleAnswer, TypeNumber;
    answers := [];
    ghost var matched: seq<DnsRecord> := [];
    assert records[0..] == records;
    for i := 0 to |records|
      invariant matched + Matching(records[i..], recordType) == Matching(records, recordType)
      invariant answers == Entries(matched, CONFIGURED_TTL)
    {
      Tail(records, i);
      var r := records[i];
      if TypeNumber(r.rtype) == recordType {
        var answer := BuildSingleAnswer(r);
        answers := answers + [answer];
        EntriesConcat(matched, [r], CONFIGURED_TTL);
        Assoc(matched, [r], Matching(records[i + 1..], recordType));
        matched := matched + [r];
      } else {
        Unit(Matching(records[i + 1..], recordType));
      }
    }
    Unit(matched);
  }

  method CollectAnswers(cfg: ServerConfig, questions: seq<ParsedQuestion>)
    returns (answers: seq<bytes>, allQuestionsUnknown: bool)
    ensures answers == Entries(RecordsFor(cfg, questions), CONFIGURED_TTL)
    ensures allQuestionsUnknown == !AnyKnown(cfg, questions)
  {
    hide Matching, Entries, DnsLookup, NormalHost;
    answers := [];
    allQuestionsUnknown := true;
    ghost var found: seq<DnsRecord> := [];
    assert questions[0..] == questions;
    NoEntries(CONFIGURED_TTL);
    for i := 0 to |questions|
      invariant found + RecordsFor(cfg, questions[i..]) == RecordsFor(cfg, questions)
      invariant answers == Entries(found, CONFIGURED_TTL)
      invariant allQuestionsUnknown <==> forall k :: 0 <= k < i ==> HostFor(cfg, questions[k]).None?
    {
      Tail(questions, i);
      var q := questions[i];
      var host := DnsFindHostConfig(cfg.hosts, NormalHost(q.name));
      if host.None? {
        Unit(RecordsFor(cfg, questions[i + 1..]));
        continue;
      }
      allQuestionsUnknown := false;
      var recordAnswers := BuildAnswers(host.value, q.qtype);
      ghost var more := Matching(host.value, q.qtype);
      answers := answers + recordAnswers;
      EntriesConcat(found, more, CONFIGURED_TTL);
      Assoc(found, more, RecordsFor(cfg, questions[i + 1..]));
      found := found + more;
    }
    Unit(found);
  }

  class DevDnsServer {
    const cfg: ServerConfig
    const cache: DnsCache

    constructor (c: ServerConfig, cacheMaxSize: int, cacheTtlMs: int)
      ensures cfg == c && fresh(cache)
      ensures cache.State() == Empty(cacheMaxSize, cacheTtlMs) && InStep(cache.State())
    {
      cfg := c;
      cache := new DnsCache(cacheMaxSize, cacheTtlMs);
    }

    /** The part after the cache lookup. */
    method AnswerQuestions(query: bytes, questions: seq<ParsedQuestion>) returns (outcome: Outcome)
      requires |query| >= HEADER && questions == QuestionsOf(query)
      ensures outcome == Uncached(cfg, query)
    {
      hide RecordsFor, HostFor, EvaluateDomain, QuestionsOf, ResponsePacket, CombinedFlags;
      var flags := GetU16(query, 2);
      if |questions| == 0 {
        var r := GenerateErrorResponse(query, RCODE_NXDOMAIN);
        return Reply(r.value, false);
      }
      var answers, allQuestionsUnknown := CollectAnswers(cfg, questions);
      if allQuestionsUnknown {
        UnknownHasNoRecords(cfg, questions);
        NoEntries(CONFIGURED_TTL);
      }
      if |answers| == 0 && allQuestionsUnknown {
        for i := 0 to |questions|
          invariant forall k :: 0 <= k < i ==> EvaluateDomain(questions[k].name, cfg.firewall) == Allow
        {
          if EvaluateDomain(questions[i].name, cfg.firewall) == Deny {
            var r := GenerateErrorResponse(query, RCODE_REFUSED);
            return Reply(r.value, false);
          }
        }
        if cfg.fallbackDns == [] {
          var r := GenerateErrorResponse(query, RCODE_NXDOMAIN);
          return Reply(r.value, true);
        }
        return Forward;
      }
      var id := GetU16(query, 0);
      if |answers| > 0 {
        var packet := BuildResponsePacket(id, flags, RCODE_NO_ERROR, questions, answers);
        return Reply(packet, true);
      }
      var packet := BuildResponsePacket(id, flags, RCODE_NO_ERROR, questions, []);
      return Reply(packet, true);
    }

    method ResolveQuery(query: bytes, now: int, later: int) returns (r: Option<bytes>)
      requires InStep(cache.State())
      modifies cache
      ensures (cache.State(), r) == Resolve(cfg, old(cache.State()), query, now, later)
      ensures InStep(cache.State())
    {
      hide Uncached, Get, Put, InStep, QuestionsOf;
      if !Acceptable(query) {
        return None;
      }
      var questions := ExtractQuestions(query);
      var cacheKey := cfg.hash(RawKey(questions));
      var hit := cache.Lookup(cacheKey, now);
      if hit.Some? && |hit.value.response| >= 2 {
        return Some(UnderId(hit.value.response, query));
      }
      var outcome := AnswerQuestions(query, questions);
      if outcome.Forward? {
        return None;
      }
      if outcome.cacheable {
        cache.Store(cacheKey, outcome.packet, later);
      }
      return Some(outcome.packet);
    }
  }

  lemma {:induction false} UnknownHasNoRecords(cfg: ServerConfig, qs: seq<ParsedQuestion>)
    requires !AnyKnown(cfg, qs)
    ensures RecordsFor(cfg, qs) == []
  {
    if qs != [] {
      assert HostFor(cfg, qs[0]).None?;
      assert !AnyKnown(cfg, qs[1..]) by {
        assert forall i :: 0 <= i < |qs[1..]| ==> qs[1..][i] == qs[i + 1];
      }
      UnknownHasNoRecords(cfg, qs[1..]);
    }
  }
}
