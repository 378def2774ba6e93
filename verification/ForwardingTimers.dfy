/**
  The three-second timers of the forwarding table.  A callback looks its entry up by ID alone, so
  one that runs late -- after its entry was answered -- can take the entry of another query.  Here
  is exactly when every SERVFAIL answers its own query.
 */
module ForwardingTimers {
  import opened Bytes
  import opened Questions
  import opened Response
  import opened CaseRewrite
  import opened Forwarding
  import opened ForwardingRuns

  /** The entry the callback will find is the one it was set for. */
  predicate Owns(t: Table, m: Timer) {
    m.ephemeralId in t.pending && t.pending[m.ephemeralId].serial == m.serial
  }

  /** No callback has outlived its entry. */
  predicate NoLateTimer(t: Table) {
    forall m :: m in t.timers ==> Owns(t, m)
  }

  ghost predicate OwnTimeout(r: Reply, admitted: seq<Event>) {
    && r.serial < |admitted| && admitted[r.serial].Forward?
    && r.message == ErrorResponse(admitted[r.serial].query, RCODE_SERVFAIL)
  }

  /** Every SERVFAIL of the run is the error response to the query it answers. */
  ghost predicate OwnTimeouts(sent: seq<Reply>, admitted: seq<Event>) {
    forall i :: 0 <= i < |sent| && sent[i].kind.TimedOut? ==> OwnTimeout(sent[i], admitted)
  }

  ghost predicate StopsInTime(events: seq<Event>) {
    forall i :: 0 <= i < |events| && events[i].UpstreamResponse? ==> events[i].stopped
  }

  ghost predicate TimerMade(m: Timer, admitted: seq<Event>) {
    && m.serial < |admitted| && admitted[m.serial].Forward?
    && admitted[m.serial].query == m.query && admitted[m.serial].ephemeralId == m.ephemeralId
  }

  ghost predicate EntryKeyed(id: uint16, entry: Pending, admitted: seq<Event>) {
    entry.serial < |admitted| && admitted[entry.serial].Forward? && admitted[entry.serial].ephemeralId == id
  }

  /** Timers and entries remember the ID their query was sent under. */
  ghost predicate Keyed(t: Table, admitted: seq<Event>) {
    && t.admitted == |admitted|
    && (forall m :: m in t.timers ==> TimerMade(m, admitted))
    && (forall id :: id in t.pending ==> EntryKeyed(id, t.pending[id], admitted))
  }

  lemma StepKeyed(t: Table, e: Event, admitted: seq<Event>)
    requires Keyed(t, admitted)
    ensures Keyed(Step(t, e).0, admitted + if Admits(t, e) then [e] else [])
  {
    hide RelayTo, ErrorResponse, ExpectedNames, GetU16;
    if Admits(t, e) {
      var admitted', t' := admitted + [e], Step(t, e).0;
      assert forall i :: 0 <= i < |admitted| ==> admitted'[i] == admitted[i];
      assert forall m :: TimerMade(m, admitted) ==> TimerMade(m, admitted');
      assert forall id, entry :: EntryKeyed(id, entry, admitted) ==> EntryKeyed(id, entry, admitted');
    } else {
      Unit(admitted);
    }
  }

  lemma {:induction false} RunKeyed(events: seq<Event>)
    ensures Keyed(Run(events), Admitted(events))
  {
    hide Step, Admits, Keyed;
    if events == [] {
      NothingKeyed();
    } else {
      var n := |events| - 1;
      RunKeyed(events[..n]);
      StepKeyed(Run(events[..n]), events[n], Admitted(events[..n]));
    }
  }

  lemma NothingKeyed()
    ensures Keyed(EMPTY, [])
  {
  }

  lemma StepNoLateTimer(t: Table, e: Event, admitted: seq<Event>)
    requires Keyed(t, admitted) && NoLateTimer(t) && (e.UpstreamResponse? ==> e.stopped)
    ensures NoLateTimer(Step(t, e).0)
  {
    hide RelayTo, ErrorResponse, ExpectedNames, GetU16;
    var t' := Step(t, e).0;
    forall m | m in t'.timers
      ensures Owns(t', m)
    {
      if m in t.timers {
        assert Owns(t, m) && TimerMade(m, admitted);
        if e.Timeout? {
          assert e.timer in t.timers ==> Owns(t, e.timer) && TimerMade(e.timer, admitted);
        }
      }
    }
  }

  lemma StepOwn(t: Table, e: Event, admitted: seq<Event>)
    requires Keyed(t, admitted) && NoLateTimer(t)
    ensures OwnTimeouts(Step(t, e).1, admitted)
  {
    hide ErrorResponse, ExpectedNames, GetU16, RelayTo;
    if e.Timeout? && e.timer in t.timers {
      assert Owns(t, e.timer) && TimerMade(e.timer, admitted);
    } else if e.UpstreamResponse? && |e.msg| >= 2 && GetU16(e.msg, 0) in t.pending {
      RelayShape(t.pending[GetU16(e.msg, 0)], e.msg, e.verified, e.blocked);
    }
  }

  lemma OwnExtended(sent: seq<Reply>, replies: seq<Reply>, admitted: seq<Event>, more: seq<Event>)
    requires OwnTimeouts(sent, admitted) && OwnTimeouts(replies, admitted)
    ensures OwnTimeouts(sent + replies, admitted + more)
  {
    hide ErrorResponse;
    var all := sent + replies;
    forall i | 0 <= i < |all| && all[i].kind.TimedOut?
      ensures OwnTimeout(all[i], admitted + more)
    {
      assert OwnTimeout(if i < |sent| then sent[i] else replies[i - |sent|], admitted);
    }
  }

  lemma {:induction false} OwnFrom(events: seq<Event>, more: seq<Event>)
    requires OwnTimeouts(Sent(events), Admitted(events)) && NoLateTimer(Run(events)) && StopsInTime(more)
    ensures OwnTimeouts(Sent(events + more), Admitted(events + more)) && NoLateTimer(Run(events + more))
    decreases |more|
  {
    hide Step, Admits, Keyed, NoLateTimer, OwnTimeouts;
    if more == [] {
      Unit(events);
    } else {
      var n := |more| - 1;
      var all := events + more[..n];
      OwnFrom(events, more[..n]);
      RunKeyed(all);
      assert (events + more)[..|all|] == all;
      StepNoLateTimer(Run(all), more[n], Admitted(all));
      StepOwn(Run(all), more[n], Admitted(all));
      OwnExtended(Sent(all), Step(Run(all), more[n]).1, Admitted(all),
                  if Admits(Run(all), more[n]) then [more[n]] else []);
    }
  }

  /** A query whose SERVFAIL differs from that of the given one. */
  lemma UnlikeQuery(query: bytes) returns (other: bytes)
    ensures |other| >= HEADER && ErrorResponse(other, RCODE_SERVFAIL) != ErrorResponse(query, RCODE_SERVFAIL)
  {
    hide ErrorResponse, QuestionsOf;
    var id: byte := if |query| > 0 && query[0] == 0 then 1 else 0;
    other := [id, 0, 0, 0, 0, 0, 0, 0, 0, 0, 0, 0];
    ErrorResponseRoundTrip(other, RCODE_SERVFAIL);
    if |query| >= HEADER {
      ErrorResponseRoundTrip(query, RCODE_SERVFAIL);
    } else {
      NoErrorResponse(query);
    }
  }

  lemma NoErrorResponse(query: bytes)
    requires |query| < HEADER
    ensures ErrorResponse(query, RCODE_SERVFAIL).None?
  {
  }

  /** An event after which the ID is free and the table has room; the late callback stays. */
  lemma MakeRoom(t: Table, m: Timer, admitted: seq<Event>) returns (e: Event)
    requires Keyed(t, admitted) && |t.pending| <= MAX_UDP_FORWARDS && m in t.timers && !Owns(t, m)
    ensures e.UpstreamResponse? && e.stopped
    ensures var t' := Step(t, e).0;
            && Step(t, e).1 == [] && t'.admitted == t.admitted && m in t'.timers
            && m.ephemeralId !in t'.pending && |t'.pending| < MAX_UDP_FORWARDS
  {
    hide ErrorResponse, ExpectedNames, NamesOf, GetU16, U16;
    var id := m.ephemeralId;
    if id !in t.pending && |t.pending| > 0 {
      id :| id in t.pending;
      assert EntryKeyed(id, t.pending[id], admitted) && TimerMade(m, admitted);
    }
    e := UpstreamResponse(U16(id), false, false, true);
    ReadBack(id);
  }

  lemma ReadBack(id: uint16)
    ensures |U16(id)| == 2 && GetU16(U16(id), 0) == id
  {
  }

  /** Once a callback is late, some continuation -- with all later stops in time -- lets it answer another query. */
  lemma LateTimerAnswersAnother(events: seq<Event>, m: Timer) returns (more: seq<Event>)
    requires m in Run(events).timers && !Owns(Run(events), m)
    ensures StopsInTime(more) && !OwnTimeouts(Sent(events + more), Admitted(events + more))
  {
    hide ErrorResponse, ExpectedNames, GetU16, U16, Keyed, Owns, Run, Sent, Admitted, RepliesDistinct, RepliesAddressed;
    TableSafety(events);
    RunKeyed(events);
    KeyedCount(Run(events), Admitted(events));
    var e := MakeRoom(Run(events), m, Admitted(events));
    var other := UnlikeQuery(m.query);
    var f := Forward(other, 0, m.ephemeralId, other);
    more := [e, f, Timeout(m)];
    OneMore(events, e);
    OneMore(events + [e], f);
    OneMore(events + [e] + [f], Timeout(m));
    assert events + more == events + [e] + [f] + [Timeout(m)];
    ghost var sent, admitted := Sent(events + more), Admitted(events + more);
    assert sent[|sent| - 1].message == ErrorResponse(m.query, RCODE_SERVFAIL);
    assert admitted[sent[|sent| - 1].serial] == f;
  }

  lemma KeyedCount(t: Table, admitted: seq<Event>)
    requires Keyed(t, admitted)
    ensures t.admitted == |admitted|
  {
  }

  lemma OneMore(events: seq<Event>, e: Event)
    ensures Run(events + [e]) == Step(Run(events), e).0
    ensures Sent(events + [e]) == Sent(events) + Step(Run(events), e).1
    ensures Admitted(events + [e]) == Admitted(events) + if Admits(Run(events), e) then [e] else []
  {
    hide Step, Admits;
    assert (events + [e])[..|events|] == events;
  }

  /**
    From any point of any run, with all stops from there on in time: every SERVFAIL is the error
    response to the query it answers, in every continuation, if and only if no callback is late.
   */
  lemma TimeoutsAnswerOwnQuery(events: seq<Event>)
    requires OwnTimeouts(Sent(events), Admitted(events))
    ensures (forall more :: StopsInTime(more) ==> OwnTimeouts(Sent(events + more), Admitted(events + more)))
            <==> NoLateTimer(Run(events))
  {
    hide OwnTimeouts, Sent, Run, Admitted, Owns, StopsInTime;
    if NoLateTimer(Run(events)) {
      forall more | StopsInTime(more)
        ensures OwnTimeouts(Sent(events + more), Admitted(events + more))
      {
        OwnFrom(events, more);
      }
    } else {
      var m :| m in Run(events).timers && !Owns(Run(events), m);
      var more := LateTimerAnswersAnother(events, m);
    }
  }

  /** One query forwarded, its answer dropped, its ID given to a second query, then the first callback. */
  function LateRun(first: bytes, second: bytes, client: Client, other: Client): seq<Event> {
    [Forward(first, client, 0, first), UpstreamResponse(U16(0), false, false, false)]
    + [Forward(second, other, 0, second)] + [Timeout(Timer(0, 0, first))]
  }

  lemma LateStart(first: bytes, client: Client)
    requires |first| >= 2
    ensures var events := [Forward(first, client, 0, first)] + [UpstreamResponse(U16(0), false, false, false)];
            && Run(events) == Table(map[], {Timer(0, 0, first)}, 1) && Sent(events) == [] && |Admitted(events)| == 1
            && !NoLateTimer(Run(events))
  {
    hide ExpectedNames, GetU16, U16;
    var f, r := Forward(first, client, 0, first), UpstreamResponse(U16(0), false, false, false);
    ReadBack(0);
    assert Run([]) == EMPTY && Sent([]) == [] && Admitted([]) == [] && [] + [f] == [f];
    OneMore([], f);
    OneMore([f], r);
  }

  /** A run from the empty table that gives one client the SERVFAIL of another's query, under the other's ID. */
  lemma LateTimerRun(first: bytes, second: bytes, client: Client, other: Client)
    requires |first| >= HEADER && |second| >= HEADER && GetU16(first, 0) != GetU16(second, 0)
    ensures var events := LateRun(first, second, client, other);
            && Sent(events) == [Reply(1, other, TimedOut, ErrorResponse(first, RCODE_SERVFAIL))]
            && |Admitted(events)| == 2 && Admitted(events)[1] == Forward(second, other, 0, second)
            && ErrorResponse(first, RCODE_SERVFAIL) != ErrorResponse(second, RCODE_SERVFAIL)
            && !OwnTimeouts(Sent(events), Admitted(events))
  {
    hide ErrorResponse, ExpectedNames, GetU16, U16, Run, Sent, Admitted, QuestionsOf, CombinedFlags;
    var f, r := Forward(first, client, 0, first), UpstreamResponse(U16(0), false, false, false);
    var g, e := Forward(second, other, 0, second), Timeout(Timer(0, 0, first));
    LateStart(first, client);
    assert [f] + [r] == [f, r];
    OneMore([f, r], g);
    OneMore([f, r] + [g], e);
    ErrorResponseRoundTrip(first, RCODE_SERVFAIL);
    ErrorResponseRoundTrip(second, RCODE_SERVFAIL);
    assert OwnTimeouts(Sent(LateRun(first, second, client, other)), Admitted(LateRun(first, second, client, other)))
      ==> OwnTimeout(Sent(LateRun(first, second, client, other))[0], Admitted(LateRun(first, second, client, other)));
  }
}
