/**
  The table of pending UDP queries (pkg/dns/handler.go): forwarding, upstream responses and
  timeouts as steps of one state machine, under any interleaving.
 */
module Forwarding {
  import opened Bytes
  import opened Questions
  import opened Response
  import opened CaseRewrite
  import opened Edns
  import opened RestoreId

  const MAX_UDP_FORWARDS: nat := 2000

  /** A client address. */
  type Client = nat

  /** `serial` is the identity of the entry: how many queries were admitted before it. */
  datatype Pending = Pending(serial: nat, client: Client, originalId: uint16, expectedNames: seq<bytes>)

  /** The callback of one entry's timer, with the ID and the query it captured. */
  datatype Timer = Timer(serial: nat, ephemeralId: uint16, query: bytes)

  datatype Table = Table(pending: map<uint16, Pending>, timers: set<Timer>, admitted: nat)

  /** Why a datagram is sent: an upstream message passed on, one refused, none in time. */
  datatype Kind = Relayed | Refused | TimedOut

  /** A datagram to a client; the message is None where no error response can be built. */
  datatype Reply = Reply(serial: nat, client: Client, kind: Kind, message: Option<bytes>)

  /**
    `entropy` are the random octets, `verified` and `blocked` the outcomes of the DNSSEC and the
    firewall checks, and `stopped` says whether `Timeout.Stop()` came in time: a callback that has
    already been started and waits for the lock is not stopped.
   */
  datatype Event =
    | Forward(query: bytes, client: Client, ephemeralId: uint16, entropy: bytes)
    | UpstreamResponse(msg: bytes, verified: bool, blocked: bool, stopped: bool)
    | Timeout(timer: Timer)

  const EMPTY: Table := Table(map[], {}, 0)

  function ExpectedNames(query: bytes, entropy: bytes): seq<bytes>
    requires |query| <= |entropy|
  {
    if |query| < HEADER then [] else NamesOf(Mix(query, entropy))
  }

  predicate Admits(t: Table, e: Event) {
    && e.Forward? && |t.pending| < MAX_UDP_FORWARDS && e.ephemeralId !in t.pending
    && 2 <= |e.query| <= |e.entropy|
  }

  /** What becomes of an upstream message whose entry was found. */
  function RelayTo(entry: Pending, msg: bytes, verified: bool, blocked: bool): seq<Reply> {
    if !verified || |msg| < HEADER || NamesOf(msg) != entry.expectedNames then []
    else
      var restored := WithId(msg, entry.originalId);
      if blocked then [Reply(entry.serial, entry.client, Refused, ErrorResponse(restored, RCODE_REFUSED))]
      else [Reply(entry.serial, entry.client, Relayed, Some(restored))]
  }

  function Step(t: Table, e: Event): (Table, seq<Reply>) {
    match e
    case Forward(query, client, id, entropy) =>
      if !Admits(t, e) then (t, [])
      else
        var entry := Pending(t.admitted, client, GetU16(query, 0), ExpectedNames(query, entropy));
        (Table(t.pending[id := entry], t.timers + {Timer(t.admitted, id, query)}, t.admitted + 1), [])
    case UpstreamResponse(msg, verified, blocked, stopped) =>
      if |msg| < 2 || GetU16(msg, 0) !in t.pending then (t, [])
      else
        var entry := t.pending[GetU16(msg, 0)];
        var timers := if stopped then set m | m in t.timers && m.serial != entry.serial else t.timers;
        (t.(pending := t.pending - {GetU16(msg, 0)}, timers := timers), RelayTo(entry, msg, verified, blocked))
    case Timeout(timer) =>
      if timer !in t.timers then (t, [])
      else if timer.ephemeralId !in t.pending then (t.(timers := t.timers - {timer}), [])
      else
        var entry := t.pending[timer.ephemeralId];
        (t.(pending := t.pending - {timer.ephemeralId}, timers := t.timers - {timer}),
         [Reply(entry.serial, entry.client, TimedOut, ErrorResponse(timer.query, RCODE_SERVFAIL))])
  }

  /** As long as the table respects its limit, the search for an unused 16-bit ID can succeed. */
  lemma {:induction false} FreeId(taken: set<uint16>, n: nat) returns (id: uint16)
    requires |taken| < n <= 0x1_0000
    ensures id < n && id !in taken
  {
    if n - 1 in taken {
      id := FreeId(taken - {n - 1}, n - 1);
    } else {
      id := n - 1;
    }
  }

  /** The 0x20 check: the message repeats the names as they were sent, letter by letter. */
  method RepeatsNames(msg: bytes, expectedNames: seq<bytes>) returns (valid: bool)
    ensures valid == (NamesOf(msg) == expectedNames)
  {
    hide QuestionsOf;
    var questions := ExtractQuestions(msg);
    valid := |expectedNames| == |questions|;
    if valid {
      for i := 0 to |expectedNames|
        invariant forall k :: 0 <= k < i ==> questions[k].name == expectedNames[k]
      {
        if questions[i].name != expectedNames[i] {
          assert NamesOf(msg)[i] != expectedNames[i];
          return false;
        }
      }
    }
  }

  class DnsHandler {
    var pendingUdpQueries: map<uint16, Pending>
    var timers: set<Timer>
    var admitted: nat

    ghost function Abs(): Table
      reads this
    {
      Table(pendingUdpQueries, timers, admitted)
    }

    constructor ()
      ensures Abs() == EMPTY
    {
      pendingUdpQueries, timers, admitted := map[], {}, 0;
    }

    /** Returns what is sent upstream, if anything, and the ID it is sent under; a query is also
        dropped, without a trace, when the upstream address does not resolve. */
    method ForwardUdpQuery(data: bytes, raddr: Client, entropy: bytes, resolves: bool)
      returns (sent: Option<bytes>, id: uint16)
      requires |data| <= |entropy|
      modifies this
      ensures Abs() == if resolves then Step(old(Abs()), Forward(data, raddr, id, entropy)).0 else old(Abs())
      ensures sent.Some? == (resolves && Admits(old(Abs()), Forward(data, raddr, id, entropy)))
      ensures sent.Some? <==> resolves && |data| >= 2 && |old(pendingUdpQueries)| < MAX_UDP_FORWARDS
      ensures sent.Some? ==> sent.value == Upstream(data, entropy, id)
    {
      hide Mix, NamesOf, AppendEdns0;
      id := 0;
      if |pendingUdpQueries| >= MAX_UDP_FORWARDS || |data| < 2 {
        return None, id;
      }
      var originalId := GetU16(data, 0);
      ghost var free := FreeId(pendingUdpQueries.Keys, 0x1_0000);
      id :| id !in pendingUdpQueries;
      var encoded, expectedNames := Apply0x20Encoding(data, entropy);
      var dnssecQuery := AppendEdns0DoBit(Patch(encoded, 0, U16(id)));
      if !resolves {
        return None, id;
      }
      timers := timers + {Timer(admitted, id, data)};
      pendingUdpQueries := pendingUdpQueries[id := Pending(admitted, raddr, originalId, expectedNames)];
      admitted := admitted + 1;
      sent := Some(dnssecQuery);
    }

    /** The callback of a timer. */
    method Expire(timer: Timer) returns (replies: seq<Reply>)
      modifies this
      ensures (Abs(), replies) == Step(old(Abs()), Timeout(timer))
    {
      hide ErrorResponse;
      if timer !in timers {
        return [];
      }
      timers := timers - {timer};
      if timer.ephemeralId !in pendingUdpQueries {
        return [];
      }
      var pending := pendingUdpQueries[timer.ephemeralId];
      pendingUdpQueries := pendingUdpQueries - {timer.ephemeralId};
      var ref := GenerateErrorResponse(timer.query, RCODE_SERVFAIL);
      replies := [Reply(pending.serial, pending.client, TimedOut, ref)];
    }

    method HandleUdpUpstreamResponse(msg: bytes, verified: bool, blocked: bool, stopped: bool)
      returns (replies: seq<Reply>)
      modifies this
      ensures (Abs(), replies) == Step(old(Abs()), UpstreamResponse(msg, verified, blocked, stopped))
    {
      hide ErrorResponse, NamesOf;
      if |msg| < 2 {
        return [];
      }
      var ephemeralId := GetU16(msg, 0);
      if ephemeralId !in pendingUdpQueries {
        return [];
      }
      var pending := pendingUdpQueries[ephemeralId];
      pendingUdpQueries := pendingUdpQueries - {ephemeralId};
      if stopped {
        timers := set m | m in timers && m.serial != pending.serial;
      }
      replies := Relay(pending, msg, verified, blocked);
    }
  }

  /** The part of the response handler that runs after the entry was taken out of the table.  The
      DNSSEC check rejects every message without a whole header. */
  method Relay(pending: Pending, msg: bytes, verified: bool, blocked: bool) returns (replies: seq<Reply>)
    ensures replies == RelayTo(pending, msg, verified, blocked)
  {
    hide ErrorResponse, NamesOf, Patch;
    if !verified || |msg| < HEADER {
      return [];
    }
    var valid0x20 := RepeatsNames(msg, pending.expectedNames);
    if !valid0x20 {
      return [];
    }
    var restoredMsg := Patch(msg, 0, U16(pending.originalId));
    if blocked {
      var ref := GenerateErrorResponse(restoredMsg, RCODE_REFUSED);
      replies := [Reply(pending.serial, pending.client, Refused, ref)];
    } else {
      replies := [Reply(pending.serial, pending.client, Relayed, Some(restoredMsg))];
    }
  }
}
