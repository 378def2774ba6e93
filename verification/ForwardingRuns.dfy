/**
  Safety of the forwarding table and of what is sent to clients, over every run of the state
  machine in Forwarding.dfy.
 */
module ForwardingRuns {
  import opened Bytes
  import opened Names
  import opened Wire
  import opened Questions
  import opened Response
  import opened CaseRewrite
  import opened ForwardedQuery
  import opened RestoreId
  import opened SteadyReading
  import opened Forwarding

  /** The table after a run. */
  function Run(events: seq<Event>): Table {
    if events == [] then EMPTY else Step(Run(events[..|events| - 1]), events[|events| - 1]).0
  }

  /** All datagrams of a run, in order. */
  function Sent(events: seq<Event>): seq<Reply> {
    if events == [] then []
    else
      var n := |events| - 1;
      Sent(events[..n]) + Step(Run(events[..n]), events[n]).1
  }

  /** The admitted forwards of a run, in order: the one with serial `s` stands at position `s`. */
  function Admitted(events: seq<Event>): seq<Event> {
    if events == [] then []
    else
      var n := |events| - 1;
      Admitted(events[..n]) + if Admits(Run(events[..n]), events[n]) then [events[n]] else []
  }

  /** The entry is the one made for that forward. */
  ghost predicate MadeFor(entry: Pending, f: Event) {
    && f.Forward? && 2 <= |f.query| <= |f.entropy|
    && entry.client == f.client && entry.originalId == GetU16(f.query, 0)
    && entry.expectedNames == ExpectedNames(f.query, f.entropy)
  }

  ghost predicate EntriesMade(pending: map<uint16, Pending>, admitted: seq<Event>) {
    forall id :: id in pending ==> pending[id].serial < |admitted| && MadeFor(pending[id], admitted[pending[id].serial])
  }

  ghost predicate EntriesDistinct(pending: map<uint16, Pending>) {
    forall id, id' :: id in pending && id' in pending && id != id' ==> pending[id].serial != pending[id'].serial
  }

  ghost predicate Addressed(r: Reply, admitted: seq<Event>) {
    r.serial < |admitted| && admitted[r.serial].Forward? && r.client == admitted[r.serial].client
  }

  ghost predicate RepliesAddressed(sent: seq<Reply>, admitted: seq<Event>) {
    forall i :: 0 <= i < |sent| ==> Addressed(sent[i], admitted)
  }

  ghost predicate RepliesDistinct(sent: seq<Reply>) {
    forall i, j :: 0 <= i < j < |sent| ==> sent[i].serial != sent[j].serial
  }

  ghost predicate Unanswered(serial: nat, sent: seq<Reply>) {
    forall i :: 0 <= i < |sent| ==> sent[i].serial != serial
  }

  ghost predicate PendingUnanswered(pending: map<uint16, Pending>, sent: seq<Reply>) {
    forall id :: id in pending ==> Unanswered(pending[id].serial, sent)
  }

  /** Entries stand for distinct admissions that have had no reply. */
  ghost predicate Consistent(t: Table, sent: seq<Reply>, admitted: seq<Event>) {
    && |t.pending| <= MAX_UDP_FORWARDS && t.admitted == |admitted|
    && EntriesMade(t.pending, admitted) && EntriesDistinct(t.pending)
    && RepliesAddressed(sent, admitted) && RepliesDistinct(sent) && PendingUnanswered(t.pending, sent)
  }

  lemma EntriesExtended(pending: map<uint16, Pending>, admitted: seq<Event>, id: uint16, entry: Pending, e: Event)
    requires EntriesMade(pending, admitted) && EntriesDistinct(pending)
    requires MadeFor(entry, e) && entry.serial == |admitted|
    ensures EntriesMade(pending[id := entry], admitted + [e]) && EntriesDistinct(pending[id := entry])
  {
    hide MadeFor;
    assert forall i :: 0 <= i < |admitted| ==> (admitted + [e])[i] == admitted[i];
  }

  lemma RepliesExtended(pending: map<uint16, Pending>, sent: seq<Reply>, admitted: seq<Event>, id: uint16,
                        entry: Pending, e: Event)
    requires RepliesAddressed(sent, admitted) && PendingUnanswered(pending, sent) && entry.serial == |admitted|
    ensures RepliesAddressed(sent, admitted + [e]) && PendingUnanswered(pending[id := entry], sent)
  {
    forall i | 0 <= i < |sent|
      ensures Addressed(sent[i], admitted + [e]) && sent[i].serial < |admitted|
    {
      assert Addressed(sent[i], admitted);
    }
  }

  lemma ForwardConsistent(t: Table, sent: seq<Reply>, admitted: seq<Event>, e: Event)
    requires Consistent(t, sent, admitted) && Admits(t, e)
    ensures Consistent(Step(t, e).0, sent, admitted + [e])
  {
    hide NamesOf, Mix, GetU16, EntriesMade, EntriesDistinct, RepliesAddressed, RepliesDistinct, PendingUnanswered;
    var t' := Step(t, e).0;
    var entry := t'.pending[e.ephemeralId];
    assert MadeFor(entry, e) && t'.pending == t.pending[e.ephemeralId := entry];
    EntriesExtended(t.pending, admitted, e.ephemeralId, entry, e);
    RepliesExtended(t.pending, sent, admitted, e.ephemeralId, entry, e);
  }

  lemma SilentRemoval(t: Table, t': Table, sent: seq<Reply>, admitted: seq<Event>, id: uint16)
    requires Consistent(t, sent, admitted) && id in t.pending
    requires t'.pending == t.pending - {id} && t'.admitted == t.admitted
    ensures Consistent(t', sent, admitted)
  {
    hide MadeFor, Addressed, Unanswered;
  }

  lemma AnsweringRemoval(t: Table, t': Table, sent: seq<Reply>, r: Reply, admitted: seq<Event>, id: uint16)
    requires Consistent(t, sent, admitted) && id in t.pending
    requires t'.pending == t.pending - {id} && t'.admitted == t.admitted
    requires r.serial == t.pending[id].serial && r.client == t.pending[id].client
    ensures Consistent(t', sent + [r], admitted)
  {
    hide MadeFor;
    SilentRemoval(t, t', sent, admitted, id);
    MadeForClient(t.pending[id], admitted[r.serial]);
    assert Addressed(r, admitted);
    assert Unanswered(r.serial, sent);
    forall k | k in t'.pending
      ensures Unanswered(t'.pending[k].serial, sent + [r])
    {
      assert Unanswered(t'.pending[k].serial, sent);
    }
  }

  lemma MadeForClient(entry: Pending, f: Event)
    requires MadeFor(entry, f)
    ensures f.Forward? && entry.client == f.client
  {
  }

  lemma {:induction false} RunConsistent(events: seq<Event>)
    ensures Consistent(Run(events), Sent(events), Admitted(events))
  {
    hide RelayTo, ErrorResponse, GetU16, EntriesMade, EntriesDistinct, RepliesAddressed, RepliesDistinct,
         PendingUnanswered;
    if events == [] {
      EmptyConsistent();
    } else {
      var n := |events| - 1;
      var t, sent, admitted, e := Run(events[..n]), Sent(events[..n]), Admitted(events[..n]), events[n];
      var (t', replies) := Step(t, e);
      RunConsistent(events[..n]);
      Unit(sent);
      Unit(admitted);
      if Admits(t, e) {
        ForwardConsistent(t, sent, admitted, e);
      } else if e.UpstreamResponse? && |e.msg| >= 2 && GetU16(e.msg, 0) in t.pending {
        RelayShape(t.pending[GetU16(e.msg, 0)], e.msg, e.verified, e.blocked);
        if replies == [] {
          SilentRemoval(t, t', sent, admitted, GetU16(e.msg, 0));
        } else {
          AnsweringRemoval(t, t', sent, replies[0], admitted, GetU16(e.msg, 0));
        }
      } else if e.Timeout? && e.timer in t.timers && e.timer.ephemeralId in t.pending {
        AnsweringRemoval(t, t', sent, replies[0], admitted, e.timer.ephemeralId);
      }
    }
  }

  lemma EmptyConsistent()
    ensures Consistent(EMPTY, [], [])
  {
  }

  lemma RelayShape(entry: Pending, msg: bytes, verified: bool, blocked: bool)
    ensures var r := RelayTo(entry, msg, verified, blocked);
            r == [] || (r == [r[0]] && r[0].serial == entry.serial && r[0].client == entry.client
                && !r[0].kind.TimedOut?)
  {
  }

  /**
    Table safety, in every interleaving and even with callbacks that run late: the table never
    holds more than the limit, every admitted query is answered at most once, and the answer goes
    to the address that query came from.
   */
  lemma TableSafety(events: seq<Event>)
    ensures |Run(events).pending| <= MAX_UDP_FORWARDS
    ensures RepliesDistinct(Sent(events))
    ensures RepliesAddressed(Sent(events), Admitted(events))
  {
    hide MadeFor, Run, Sent, Admitted;
    RunConsistent(events);
  }

  /** A refusal and a relayed message carry the ID of the query they answer; the latter also, while
      its own names do not hang on the ID, the names of that query up to case. */
  ghost predicate AnswersQuery(r: Reply, f: Event) {
    && f.Forward? && |f.query| >= 2
    && (r.kind.Refused? ==>
        r.message.Some? && |r.message.value| >= HEADER && GetU16(r.message.value, 0) == GetU16(f.query, 0))
    && (r.kind.Relayed? ==> r.message.Some? && |r.message.value| >= HEADER)
    && (r.kind.Relayed? ==> r.message.value[..2] == f.query[..2])
    && (r.kind.Relayed? && SteadyQuery(f.query) && IdUnread(r.message.value) ==>
        SameUpToCase(NamesOf(r.message.value), NamesOf(f.query)))
  }

  lemma RelayAnswers(entry: Pending, f: Event, msg: bytes, verified: bool, blocked: bool)
    requires MadeFor(entry, f) && RelayTo(entry, msg, verified, blocked) != []
    ensures AnswersQuery(RelayTo(entry, msg, verified, blocked)[0], f)
  {
    hide NamesOf, Mix, SteadyQuery, IdUnread, SameUpToCase, ErrorResponse, WithId, GetU16, CombinedFlags;
    var r := RelayTo(entry, msg, verified, blocked)[0];
    if r.kind.Relayed? {
      IdOctetsRestored(msg, entry.originalId, f.query);
      if SteadyQuery(f.query) && IdUnread(r.message.value) {
        MixKeepsNames(f.query, f.entropy);
        UnreadNames(r.message.value, GetU16(msg, 0));
        WithIdBack(msg, entry.originalId);
        NoNamesYet(f.query);
      }
    } else {
      CountKept(msg, entry.originalId);
      ErrorResponseRoundTrip(WithId(msg, entry.originalId), RCODE_REFUSED);
    }
  }

  lemma IdOctetsRestored(msg: bytes, id: uint16, query: bytes)
    requires |msg| >= HEADER && |query| >= 2 && id == GetU16(query, 0)
    ensures WithId(msg, id)[..2] == query[..2]
  {
  }

  lemma WithIdBack(msg: bytes, id: uint16)
    requires |msg| >= HEADER
    ensures WithId(WithId(msg, id), GetU16(msg, 0)) == msg
  {
  }

  lemma NoNamesYet(query: bytes)
    ensures |query| < HEADER ==> NamesOf(query) == []
  {
  }

  /**
    End-to-end forwarding, for all random octets and every interleaving: a relayed upstream
    message, like a refusal, carries the ID the client chose, and it repeats the client's question
    names up to ASCII case -- provided that no followed pointer of the client's query has a recased
    octet (as in every query without compression) and no pointer of the message targets its ID.
   */
  lemma {:induction false} RelayedMessages(events: seq<Event>)
    ensures forall i :: 0 <= i < |Sent(events)| ==>
              && Sent(events)[i].serial < |Admitted(events)|
              && AnswersQuery(Sent(events)[i], Admitted(events)[Sent(events)[i].serial])
  {
    hide AnswersQuery, RelayTo, ErrorResponse, GetU16, MadeFor, Admits, RepliesAddressed, RepliesDistinct,
         PendingUnanswered, EntriesDistinct;
    if events != [] {
      var n := |events| - 1;
      var t, sent, admitted, e := Run(events[..n]), Sent(events[..n]), Admitted(events[..n]), events[n];
      var replies := Step(t, e).1;
      RelayedMessages(events[..n]);
      RunConsistent(events[..n]);
      assert admitted <= Admitted(events);
      if replies != [] {
        if e.UpstreamResponse? {
          var entry := t.pending[GetU16(e.msg, 0)];
          RelayShape(entry, e.msg, e.verified, e.blocked);
          RelayAnswers(entry, admitted[entry.serial], e.msg, e.verified, e.blocked);
        } else {
          var entry := t.pending[e.timer.ephemeralId];
          TimeoutAnswers(replies[0], entry, admitted[entry.serial]);
        }
        assert Sent(events) == sent + [replies[0]];
      }
    }
  }

  lemma TimeoutAnswers(r: Reply, entry: Pending, f: Event)
    requires MadeFor(entry, f) && r.kind.TimedOut?
    ensures AnswersQuery(r, f)
  {
  }

  /**
    The proviso on the message is exact: an upstream message is relayed with its names intact to
    whichever client it answers if and only if no pointer in its questions targets the ID.
   */
  lemma RelayKeepsNames(msg: bytes)
    requires |msg| >= HEADER
    ensures (forall id: uint16 :: var replies := RelayTo(Pending(0, 0, id, NamesOf(msg)), msg, true, false);
               |replies| == 1 && replies[0].message.Some?
                   && SameUpToCase(NamesOf(replies[0].message.value), NamesOf(msg)))
            <==> IdUnread(msg)
  {
    hide NamesOf, SameUpToCase, IdUnread, WithId;
    IdChangeKeepsNames(msg);
    forall id: uint16
      ensures RelayTo(Pending(0, 0, id, NamesOf(msg)), msg, true, false)
              == [Reply(0, 0, Relayed, Some(WithId(msg, id)))]
    {
    }
  }

  /** A question for the root, and an upstream message that names it by a pointer to octet 0. */
  const ROOT_QUERY: bytes := [1, 97, 1, 0, 0, 1, 0, 0, 0, 0, 0, 0, 0, 0, 1, 0, 1]
  const ROOT_ANSWER: bytes := [0, 0, 129, 128, 0, 1, 0, 0, 0, 0, 0, 0, 0xC0, 0, 0, 1, 0, 1]

  lemma OnlyName(buf: bytes)
    requires |buf| >= HEADER && GetU16(buf, 4) == 1 && ParseQuestion(buf, HEADER).Some?
    ensures NamesOf(buf) == [NameAt(buf, HEADER)]
  {
    hide DecodeName, Join;
    assert ExtractFrom(buf, HEADER, 1) == [ParseQuestion(buf, HEADER).value];
  }

  lemma RootAnswerNames(buf: bytes, a: byte, b: byte)
    requires buf == [a, b] + ROOT_ANSWER[2..] && (a, b) in {(0, 0), (1, 97)}
    ensures NamesOf(buf) == [if a == 0 then [] else [97]]
  {
    hide DecodeName;
    DecodeStep(buf, HEADER, MAX_JUMPS);
    DecodeStep(buf, 0, MAX_JUMPS - 1);
    DecodeStep(buf, 2, MAX_JUMPS - 1);
    OnlyName(buf);
  }

  lemma RootQueryNames(entropy: bytes)
    requires |entropy| >= |ROOT_QUERY|
    ensures NamesOf(Mix(ROOT_QUERY, entropy)) == NamesOf(ROOT_QUERY) == [[]]
  {
    hide DecodeName, MixQuestions;
    MixVariant(ROOT_QUERY, entropy);
    assert Mix(ROOT_QUERY, entropy) == ROOT_QUERY;
    DecodeStep(ROOT_QUERY, HEADER, MAX_JUMPS);
    OnlyName(ROOT_QUERY);
  }

  /** One query, one upstream message that repeats its names. */
  lemma Exchange(f: Event, msg: bytes)
    requires Admits(EMPTY, f) && |msg| >= HEADER && GetU16(msg, 0) == f.ephemeralId
    requires NamesOf(msg) == ExpectedNames(f.query, f.entropy)
    ensures Sent([f, UpstreamResponse(msg, true, false, true)])
            == [Reply(0, f.client, Relayed, Some(WithId(msg, GetU16(f.query, 0))))]
  {
    hide ExpectedNames, NamesOf, WithId, GetU16;
    TwoSteps(f, UpstreamResponse(msg, true, false, true));
    assert Step(EMPTY, f).0.pending[f.ephemeralId].expectedNames == NamesOf(msg);
  }

  lemma RootIds()
    ensures GetU16(ROOT_QUERY, 0) == 0x0161 && GetU16(ROOT_ANSWER, 0) == 0
    ensures WithId(ROOT_ANSWER, 0x0161) == [1, 97] + ROOT_ANSWER[2..]
    ensures ROOT_ANSWER == [0, 0] + ROOT_ANSWER[2..]
  {
  }

  /** Without the proviso on the message the client can get another name: it asked for the root, and reads "a". */
  lemma RestoredIdReadAsName(client: Client, entropy: bytes)
    requires |entropy| >= |ROOT_QUERY|
    ensures var sent := Sent([Forward(ROOT_QUERY, client, 0, entropy),
            UpstreamResponse(ROOT_ANSWER, true, false, true)]);
            && |sent| == 1 && sent[0].kind.Relayed? && sent[0].message.Some?
            && NamesOf(ROOT_QUERY) == [[]] && NamesOf(sent[0].message.value) == [[97]]
  {
    hide NamesOf, Mix, Sent, WithId, GetU16;
    RootIds();
    RootQueryNames(entropy);
    RootAnswerNames(ROOT_ANSWER, 0, 0);
    RootAnswerNames(WithId(ROOT_ANSWER, 0x0161), 1, 97);
    Exchange(Forward(ROOT_QUERY, client, 0, entropy), ROOT_ANSWER);
  }

  lemma TwoSteps(f: Event, r: Event)
    ensures Run([f]) == Step(EMPTY, f).0
    ensures Sent([f, r]) == Step(EMPTY, f).1 + Step(Run([f]), r).1
  {
    hide Step;
    assert [f, r][..1] == [f];
    assert [f][..0] == [];
    assert Run([]) == EMPTY && Sent([]) == [];
  }

  /** The proviso on the query is needed too: the client asked for the root second, and reads "x". */
  lemma RecasedPointerRelayed(client: Client, entropy: bytes)
    requires |entropy| >= 70 && entropy[14] % 2 == 1
    ensures var query, answer := Misleading(0x61), Misleading(0x41);
            Sent([Forward(query, client, 0, entropy), UpstreamResponse(answer, true, false, true)])
            == [Reply(0, client, Relayed, Some(answer))]
    ensures NamesOf(Misleading(0x61)) == [[0xC0, 0x61], []] && NamesOf(Misleading(0x41)) == [[0xC0, 0x41], [0x78]]
  {
    hide NamesOf, Mix, Sent, WithId, GetU16, Misleading;
    MisleadingIds();
    MisleadingMixed(entropy);
    RecasedPointerShows(entropy);
    Exchange(Forward(Misleading(0x61), client, 0, entropy), Misleading(0x41));
  }

  lemma MisleadingIds()
    ensures GetU16(Misleading(0x61), 0) == GetU16(Misleading(0x41), 0) == 0
    ensures WithId(Misleading(0x41), 0) == Misleading(0x41)
  {
  }

  /** The query that the pending entry of that ID was admitted for. */
  ghost function Asked(events: seq<Event>, id: uint16): Event
    requires id in Run(events).pending
  {
    RunConsistent(events);
    Admitted(events)[Run(events).pending[id].serial]
  }

  /** An upstream message to be passed on: a whole header, the ID of a pending query, a successful DNSSEC check, and
      the names as they were sent. */
  ghost predicate Acceptable(events: seq<Event>, e: Event) {
    && e.UpstreamResponse? && |e.msg| >= HEADER && e.verified && GetU16(e.msg, 0) in Run(events).pending
    && var f := Asked(events, GetU16(e.msg, 0));
       f.Forward? && |f.query| <= |f.entropy| && NamesOf(e.msg) == NamesOf(Mix(f.query, f.entropy))
  }

  ghost predicate Expires(events: seq<Event>, e: Event) {
    e.Timeout? && e.timer in Run(events).timers && e.timer.ephemeralId in Run(events).pending
  }

  /** The client's ID in front of the octets of the message behind its own ID. */
  ghost predicate PassesOn(r: Reply, msg: bytes, query: bytes) {
    && r.message.Some? && |r.message.value| == |msg| >= HEADER && |query| >= 2
    && r.message.value[..2] == query[..2] && r.message.value[2..] == msg[2..]
  }

  /** An error response under the client's ID, with that code if the message it answers has none of its own. */
  ghost predicate Rejects(r: Reply, msg: bytes, query: bytes, code: nat) {
    && r.message.Some? && |r.message.value| >= HEADER && |msg| >= HEADER && |query| >= 2
    && GetU16(r.message.value, 0) == GetU16(query, 0)
    && (GetU16(msg, 2) % 16 == 0 ==> GetU16(r.message.value, 2) % 16 == code)
  }

  lemma ShortQueryNames(query: bytes, entropy: bytes)
    requires |query| <= |entropy|
    ensures NamesOf(Mix(query, entropy)) == ExpectedNames(query, entropy)
  {
  }

  lemma WithIdParts(msg: bytes, id: uint16)
    requires |msg| >= HEADER
    ensures WithId(msg, id)[2..] == msg[2..] && GetU16(WithId(msg, id), 2) == GetU16(msg, 2)
    ensures GetU16(WithId(msg, id), 0) == id
  {
  }

  lemma ErrorCode(msg: bytes, rcode: Rcode)
    requires |msg| >= HEADER
    ensures ErrorResponse(msg, rcode).Some? && |ErrorResponse(msg, rcode).value| >= HEADER
    ensures var r := ErrorResponse(msg, rcode).value;
            && GetU16(r, 0) == GetU16(msg, 0)
            && (GetU16(msg, 2) % 16 == 0 ==> GetU16(r, 2) % 16 == rcode)
  {
    hide ErrorResponse, QuestionsOf, GetU16, CombinedFlags;
    ErrorResponseRoundTrip(msg, rcode);
    ResponseFlags(GetU16(msg, 2), rcode);
  }

  lemma RelayChoice(entry: Pending, f: Event, msg: bytes, verified: bool, blocked: bool)
    requires MadeFor(entry, f)
    ensures var r := RelayTo(entry, msg, verified, blocked);
            && (r != [] <==> |msg| >= HEADER && verified && NamesOf(msg) == NamesOf(Mix(f.query, f.entropy)))
            && (r != [] ==>
                  && |r| == 1 && r[0].serial == entry.serial
                  && (if blocked then r[0].kind.Refused? && Rejects(r[0], msg, f.query, 5)
                      else r[0].kind.Relayed? && PassesOn(r[0], msg, f.query)))
  {
    hide NamesOf, Mix, ErrorResponse, WithId, GetU16;
    ShortQueryNames(f.query, f.entropy);
    if |msg| >= HEADER {
      WithIdParts(msg, entry.originalId);
      IdOctetsRestored(msg, entry.originalId, f.query);
      ErrorCode(WithId(msg, entry.originalId), RCODE_REFUSED);
    }
  }

  lemma SentSnoc(events: seq<Event>, e: Event)
    ensures Sent(events + [e]) == Sent(events) + Step(Run(events), e).1
  {
    hide Step;
    assert (events + [e])[..|events|] == events;
  }

  /**
    What is sent, exactly, at every event of every run.  At most one datagram: an upstream message
    is passed on or refused if and only if it is acceptable, and refused -- with code 5 -- if and
    only if the firewall blocks it; a SERVFAIL is sent if and only if a callback finds an entry
    under its ID.  Nothing else is sent, and nothing that was sent changes.
   */
  lemma SentExactly(events: seq<Event>, e: Event)
    ensures var before, after := Sent(events), Sent(events + [e]);
            && before <= after && |after| <= |before| + 1
            && (|after| > |before| <==> Acceptable(events, e) || Expires(events, e))
            && (Acceptable(events, e) ==>
                  var r, f := after[|before|], Asked(events, GetU16(e.msg, 0));
                  && r.serial == Run(events).pending[GetU16(e.msg, 0)].serial
                  && (if e.blocked then r.kind.Refused? && Rejects(r, e.msg, f.query, 5)
                      else r.kind.Relayed? && PassesOn(r, e.msg, f.query)))
            && (Expires(events, e) ==>
                  var r := after[|before|];
                  && r.serial == Run(events).pending[e.timer.ephemeralId].serial && r.kind.TimedOut?
                  && (|e.timer.query| >= HEADER ==> Rejects(r, e.timer.query, e.timer.query, 2)))
  {
    hide Run, Sent, Admitted, RelayTo, ErrorResponse, NamesOf, Mix, GetU16, PassesOn, RepliesAddressed, RepliesDistinct,
         PendingUnanswered, EntriesDistinct, Admits;
    SentSnoc(events, e);
    RunConsistent(events);
    if e.UpstreamResponse? && |e.msg| >= 2 && GetU16(e.msg, 0) in Run(events).pending {
      var entry := Run(events).pending[GetU16(e.msg, 0)];
      RelayChoice(entry, Admitted(events)[entry.serial], e.msg, e.verified, e.blocked);
    } else if Expires(events, e) && |e.timer.query| >= HEADER {
      ErrorCode(e.timer.query, RCODE_SERVFAIL);
    }
  }

  /** The message, or the callback, that takes the entry of that ID. */
  ghost predicate Takes(events: seq<Event>, e: Event, id: uint16) {
    || (e.UpstreamResponse? && |e.msg| >= 2 && GetU16(e.msg, 0) == id)
    || (Expires(events, e) && e.timer.ephemeralId == id)
  }

  /**
    What becomes of the table at every event of every run: an entry stays as it is until a message
    with its ID arrives, acceptable or not, or a callback for its ID runs, and then it is gone; a
    new entry is made for an admitted query only, under an ID that was free.
   */
  lemma PendingExactly(events: seq<Event>, e: Event, id: uint16)
    ensures var before, after := Run(events).pending, Run(events + [e]).pending;
            && (id in before ==> (id in after <==> !Takes(events, e, id)) && (id in after ==> after[id] == before[id]))
            && (id !in before ==>
                  (id in after <==>
                     e.Forward? && e.ephemeralId == id && 2 <= |e.query| <= |e.entropy| && |before| < MAX_UDP_FORWARDS))
  {
    hide Run, RelayTo, ErrorResponse, ExpectedNames, GetU16;
    RunSnoc(events, e);
  }

  lemma RunSnoc(events: seq<Event>, e: Event)
    ensures Run(events + [e]) == Step(Run(events), e).0
  {
    hide Step;
    assert (events + [e])[..|events|] == events;
  }
}
