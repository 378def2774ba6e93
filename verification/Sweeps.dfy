/** Garbage collection of the rate limiter is invisible: which verdicts are possible does not depend on it. */
module Sweeps {
  import opened Bytes
  import opened RateLimit
  import opened RateBound

  datatype Call = Call(ip: bytes, now: int)

  /** The requests of a run, without the sweeps between them. */
  function Calls(events: seq<Event>): seq<Call> {
    if events == [] then []
    else
      var n := |events| - 1;
      Calls(events[..n]) + if events[n].Ask? then [Call(events[n].ip, events[n].now)] else []
  }

  function Verdicts(c: Limits, events: seq<Event>): seq<bool> {
    if events == [] then []
    else
      var n := |events| - 1;
      Verdicts(c, events[..n]) + if events[n].Ask? then [Step(c, After(c, events[..n]), events[n]).1] else []
  }

  /** The same requests and sweeps at the same times; only what evictions delete may differ. */
  ghost predicate SamePlan(a: seq<Event>, b: seq<Event>) {
    |a| == |b| && forall i :: 0 <= i < |a| ==> Alike(a[i], b[i])
  }

  predicate Alike(e: Event, f: Event) {
    e.now == f.now && e.Ask? == f.Ask? && (e.Ask? ==> e.ip == f.ip)
  }

  ghost predicate InOrder(events: seq<Event>) {
    forall i, j :: 0 <= i < j < |events| ==> events[i].now <= events[j].now
  }

  ghost predicate Until(events: seq<Event>, t: int) {
    forall i :: 0 <= i < |events| ==> events[i].now <= t
  }

  /** The same buckets are live. */
  ghost predicate SameLive(a: Buckets, b: Buckets, now: int) {
    forall ip :: (ip in a && !Expired(a, ip, now)) == (ip in b && !Expired(b, ip, now))
                 && (ip in a && !Expired(a, ip, now) ==> a[ip] == b[ip])
  }

  lemma LaterSameLive(a: Buckets, b: Buckets, now: int, later: int)
    requires SameLive(a, b, now) && now <= later
    ensures SameLive(a, b, later)
  {
    assert forall ip :: ip in a && !Expired(a, ip, later) ==> !Expired(a, ip, now);
    assert forall ip :: ip in b && !Expired(b, ip, later) ==> !Expired(b, ip, now);
  }

  lemma SweptSameLive(a: Buckets, b: Buckets, now: int, later: int)
    requires SameLive(a, b, later) && now <= later
    ensures SameLive(Collect(a, now), b, later) && SameLive(b, Collect(a, now), later)
  {
    forall ip
      ensures (ip in Collect(a, now) && !Expired(Collect(a, now), ip, later)) == (ip in a && !Expired(a, ip, later))
      ensures ip in Collect(a, now) ==> Collect(a, now)[ip] == a[ip]
    {
    }
  }

  lemma SameSizeSets(a: set<bytes>, b: set<bytes>)
    requires a <= b && |b| <= |a|
    ensures a == b
  {
    if b - a != {} {
      var x :| x in b - a;
      SubsetSize(a, b - {x});
    }
    assert b == a + (b - a);
  }

  /** A full table without expired buckets is the only one with its live buckets. */
  lemma FullyLive(c: Limits, a: Buckets, b: Buckets, now: int)
    requires SameLive(a, b, now) && !SomeExpired(a, now) && |b| <= c.maxTrackedIps <= |a|
    ensures a == b
  {
    assert forall ip :: ip in a ==> ip in b && a[ip] == b[ip];
    SameSizeSets(a.Keys, b.Keys);
  }

  /** What an eviction may take without touching a live bucket. */
  predicate Harmless(b: Buckets, now: int, victim: Option<bytes>) {
    victim.None? || Expired(b, victim.value, now)
  }

  lemma CreatedSameLive(a: Buckets, b: Buckets, ip: bytes, made: Bucket, now: int, v: Option<bytes>, w: Option<bytes>)
    requires SameLive(a, b, now) && Harmless(a, now, v) && Harmless(b, now, w)
    ensures SameLive(Without(a, v)[ip := made], Without(b, w)[ip := made], now)
  {
    var a', b' := Without(a, v)[ip := made], Without(b, w)[ip := made];
    forall k | k != ip
      ensures (k in a' && !Expired(a', k, now)) == (k in a && !Expired(a, k, now)) && (k in a' ==> a'[k] == a[k])
      ensures (k in b' && !Expired(b', k, now)) == (k in b && !Expired(b, k, now)) && (k in b' ==> b'[k] == b[k])
    {
    }
  }

  lemma CountedSameLive(c: Limits, a: Buckets, b: Buckets, e: Event, f: Event)
    requires SameLive(a, b, e.now) && e.Ask? && f.Ask? && f.ip == e.ip && f.now == e.now && !Creates(a, e.ip, e.now)
    ensures !Creates(b, e.ip, e.now) && Step(c, a, e).1 == Step(c, b, f).1
    ensures SameLive(Step(c, a, e).0, Step(c, b, f).0, e.now)
  {
    var a', b' := Step(c, a, e).0, Step(c, b, f).0;
    assert e.ip in a && !Expired(a, e.ip, e.now);
    assert a[e.ip] == b[e.ip];
    forall k | k != e.ip
      ensures (k in a' && !Expired(a', k, e.now)) == (k in a && !Expired(a, k, e.now)) && (k in a' ==> a'[k] == a[k])
      ensures (k in b' && !Expired(b', k, e.now)) == (k in b && !Expired(b, k, e.now)) && (k in b' ==> b'[k] == b[k])
    {
    }
  }

  /** What is evicted by a request that creates a bucket, if anything. */
  function Taken(c: Limits, b: Buckets, e: Event): Option<bytes>
    requires e.Ask?
  {
    if |b| >= c.maxTrackedIps then e.victim else None
  }

  lemma Creating(c: Limits, b: Buckets, e: Event)
    requires e.Ask? && Creates(b, e.ip, e.now)
    ensures Step(c, b, e) == (Without(b, Taken(c, b, e))[e.ip := Bucket(1, e.now + c.window)], true)
  {
  }

  /** An eviction that takes a live bucket has found a table full of live buckets. */
  lemma HarmlessOrFull(c: Limits, b: Buckets, e: Event)
    requires e.Ask? && Creates(b, e.ip, e.now) && Possible(c, b, e)
    ensures Harmless(b, e.now, Taken(c, b, e)) || (!SomeExpired(b, e.now) && |b| >= c.maxTrackedIps)
  {
  }

  /** Whatever a request does to one table, it can do to the other: the verdict and the live buckets stay the same. */
  lemma Mirrored(c: Limits, a: Buckets, b: Buckets, e: Event) returns (f: Event)
    requires e.Ask? && Possible(c, a, e) && SameLive(a, b, e.now)
    requires |a| <= c.maxTrackedIps && |b| <= c.maxTrackedIps
    ensures f.Ask? && f.ip == e.ip && f.now == e.now && Possible(c, b, f)
    ensures Step(c, b, f).1 == Step(c, a, e).1 && SameLive(Step(c, a, e).0, Step(c, b, f).0, e.now)
  {
    hide Step, SameLive, Evictable, SomeExpired, Without;
    f := Ask(e.ip, e.now, None);
    if !Creates(a, e.ip, e.now) {
      CountedSameLive(c, a, b, e, f);
    } else {
      StillCreates(a, b, e.ip, e.now);
      HarmlessOrFull(c, a, e);
      if !Harmless(a, e.now, Taken(c, a, e)) {
        FullyLive(c, a, b, e.now);
        f := e;
        Reflexive(Step(c, a, e).0, e.now);
      } else {
        f := MirroredVictim(c, a, b, e);
        Creating(c, a, e);
        Creating(c, b, f);
        CreatedSameLive(a, b, e.ip, Bucket(1, e.now + c.window), e.now, Taken(c, a, e), Taken(c, b, f));
      }
    }
  }

  /** If one eviction can spare the live buckets, so can the other. */
  lemma MirroredVictim(c: Limits, a: Buckets, b: Buckets, e: Event) returns (f: Event)
    requires e.Ask? && Possible(c, a, e) && SameLive(a, b, e.now) && Creates(a, e.ip, e.now)
    requires |a| <= c.maxTrackedIps && |b| <= c.maxTrackedIps && Harmless(a, e.now, Taken(c, a, e))
    ensures f.Ask? && f.ip == e.ip && f.now == e.now && Possible(c, b, f) && Harmless(b, e.now, Taken(c, b, f))
  {
    hide SameLive;
    if |b| < c.maxTrackedIps {
      f := Ask(e.ip, e.now, None);
    } else if SomeExpired(b, e.now) {
      var k :| k in b && Expired(b, k, e.now);
      f := Ask(e.ip, e.now, Some(k));
    } else {
      Symmetric(a, b, e.now);
      FullyLive(c, b, a, e.now);
      f := e;
    }
  }

  lemma Symmetric(a: Buckets, b: Buckets, now: int)
    requires SameLive(a, b, now)
    ensures SameLive(b, a, now)
  {
  }

  lemma Reflexive(b: Buckets, now: int)
    ensures SameLive(b, b, now)
  {
  }

  lemma StillCreates(a: Buckets, b: Buckets, ip: bytes, now: int)
    requires SameLive(a, b, now)
    ensures Creates(a, ip, now) == Creates(b, ip, now)
  {
    assert (ip in a && !Expired(a, ip, now)) == (ip in b && !Expired(b, ip, now));
  }

  lemma Prefixes(events: seq<Event>, n: nat, t: int)
    requires n <= |events|
    ensures InOrder(events) ==> InOrder(events[..n]) && (n < |events| ==> Until(events[..n], events[n].now))
    ensures Until(events, t) ==> Until(events[..n], t)
    ensures NoEmptyAddress(events) ==> NoEmptyAddress(events[..n])
  {
    assert forall i :: 0 <= i < n ==> events[..n][i] == events[i];
  }

  lemma Snoc(c: Limits, events: seq<Event>, e: Event)
    requires ValidRun(c, events) && Until(events, e.now) && Possible(c, After(c, events), e)
    ensures ValidRun(c, events + [e]) && After(c, events + [e]) == Step(c, After(c, events), e).0
    ensures Verdicts(c, events + [e]) == Verdicts(c, events) + if e.Ask? then [Step(c, After(c, events), e).1] else []
  {
    hide Step, Possible, After;
    NextAfter(c, events, e);
    var all := events + [e];
    assert all[..|events|] == events;
    forall i | 0 <= i < |all|
      ensures Possible(c, After(c, all[..i]), all[i])
    {
      assert all[..i] == events[..i];
      assert events[..|events|] == events;
    }
  }

  lemma PlanSnoc(plan: seq<Event>, other: seq<Event>, f: Event)
    requires plan != [] && SamePlan(other, plan[..|plan| - 1])
    requires Alike(f, plan[|plan| - 1])
    ensures SamePlan(other + [f], plan)
  {
  }

  lemma PlanAddresses(plan: seq<Event>, other: seq<Event>, t: int)
    requires SamePlan(other, plan)
    ensures NoEmptyAddress(plan) ==> NoEmptyAddress(other)
    ensures Until(plan, t) ==> Until(other, t)
  {
  }

  /** The run `other` answers as `events` does, and leaves the same buckets live. */
  ghost predicate Mirrors(c: Limits, events: seq<Event>, other: seq<Event>, t: int) {
    && ValidRun(c, other) && Verdicts(c, other) == Verdicts(c, events)
    && SameLive(After(c, events), After(c, other), t)
  }

  lemma SweepLeft(c: Limits, events: seq<Event>, other: seq<Event>, t: int)
    requires events != [] && events[|events| - 1].Sweep? && events[|events| - 1].now <= t
    requires Mirrors(c, events[..|events| - 1], other, t)
    ensures Mirrors(c, events, other, t)
  {
    hide SameLive, Collect, ValidRun;
    var n := |events| - 1;
    SweptSameLive(After(c, events[..n]), After(c, other), events[n].now, t);
    Unit(Verdicts(c, events[..n]));
  }

  lemma SweepRight(c: Limits, events: seq<Event>, other: seq<Event>, e: Event, t: int)
    requires e.Sweep? && e.now <= t && Until(other, e.now) && Mirrors(c, events, other, t)
    ensures Mirrors(c, events, other + [e], t)
  {
    hide SameLive, Collect, ValidRun, After, Verdicts;
    Snoc(c, other, e);
    Unit(Verdicts(c, other));
    Symmetric(After(c, events), After(c, other), t);
    SweptSameLive(After(c, other), After(c, events), e.now, t);
  }

  lemma AskBoth(c: Limits, events: seq<Event>, other: seq<Event>, t: int) returns (f: Event)
    requires events != [] && events[|events| - 1].Ask? && events[|events| - 1].now <= t
    requires Possible(c, After(c, events[..|events| - 1]), events[|events| - 1])
    requires Mirrors(c, events[..|events| - 1], other, events[|events| - 1].now)
    requires Until(other, events[|events| - 1].now)
    requires |After(c, events[..|events| - 1])| <= c.maxTrackedIps && |After(c, other)| <= c.maxTrackedIps
    ensures Alike(f, events[|events| - 1]) && Mirrors(c, events, other + [f], t)
  {
    hide SameLive, ValidRun, Possible, Request;
    var n := |events| - 1;
    f := Mirrored(c, After(c, events[..n]), After(c, other), events[n]);
    Snoc(c, other, f);
    LaterSameLive(After(c, events), After(c, other + [f]), events[n].now, t);
  }

  lemma NoEmptySnoc(events: seq<Event>)
    requires events != []
    ensures var n := |events| - 1;
            NoEmptyAddress(events) <==> NoEmptyAddress(events[..n]) && (events[n].Ask? ==> events[n].ip != [])
  {
    var n := |events| - 1;
    assert forall i :: 0 <= i < n ==> events[..n][i] == events[i];
  }

  ghost predicate Named(calls: seq<Call>) {
    forall i :: 0 <= i < |calls| ==> calls[i].ip != []
  }

  lemma NamedSnoc(calls: seq<Call>, call: Call)
    ensures Named(calls + [call]) <==> Named(calls) && call.ip != []
  {
    assert (calls + [call])[|calls|] == call && forall i :: 0 <= i < |calls| ==> (calls + [call])[i] == calls[i];
  }

  lemma {:induction false} CallAddresses(events: seq<Event>)
    ensures NoEmptyAddress(events) <==> Named(Calls(events))
  {
    hide NoEmptyAddress, Named;
    if events == [] {
      NoCalls();
    } else {
      var n := |events| - 1;
      CallAddresses(events[..n]);
      NoEmptySnoc(events);
      Unit(Calls(events[..n]));
      if events[n].Ask? {
        NamedSnoc(Calls(events[..n]), Call(events[n].ip, events[n].now));
      }
    }
  }

  lemma NoCalls()
    ensures NoEmptyAddress([]) && Named([])
  {
  }

  lemma LastEqual(a: seq<Call>, x: Call, b: seq<Call>, y: Call)
    requires a + [x] == b + [y]
    ensures a == b && x == y
  {
    assert a == (a + [x])[..|a|] && b == (b + [y])[..|b|];
    assert (a + [x])[|a|] == x && (b + [y])[|b|] == y;
  }

  lemma LastCalls(events: seq<Event>, plan: seq<Event>)
    requires Calls(events) == Calls(plan)
    requires events != [] ==> events[|events| - 1].Ask?
    requires plan != [] ==> plan[|plan| - 1].Ask?
    ensures events == [] <==> plan == []
    ensures events != [] ==>
              var x, y := events[|events| - 1], plan[|plan| - 1];
              Calls(events[..|events| - 1]) == Calls(plan[..|plan| - 1]) && x.ip == y.ip && x.now == y.now
  {
    if events != [] && plan != [] {
      var x, y := events[|events| - 1], plan[|plan| - 1];
      LastEqual(Calls(events[..|events| - 1]), Call(x.ip, x.now), Calls(plan[..|plan| - 1]), Call(y.ip, y.now));
    }
  }

  lemma {:induction false} MirrorPlan(c: Limits, events: seq<Event>, plan: seq<Event>, t: int)
    returns (other: seq<Event>)
    requires c.maxTrackedIps > 0 && ValidRun(c, events) && InOrder(plan) && Calls(plan) == Calls(events)
    requires NoEmptyAddress(events) && NoEmptyAddress(plan) && Until(events, t) && Until(plan, t)
    ensures SamePlan(other, plan) && Mirrors(c, events, other, t)
    decreases |events| + |plan|
  {
    hide Mirrors, Possible, After, Step, Verdicts;
    var n, m := |events| - 1, |plan| - 1;
    if n >= 0 && events[n].Sweep? {
      PrefixValid(c, events, n);
      Prefixes(events, n, t);
      Unit(Calls(events[..n]));
      other := MirrorPlan(c, events[..n], plan, t);
      SweepLeft(c, events, other, t);
    } else if m >= 0 && plan[m].Sweep? {
      Prefixes(plan, m, t);
      Unit(Calls(plan[..m]));
      other := MirrorPlan(c, events, plan[..m], t);
      PlanAddresses(plan[..m], other, plan[m].now);
      SweepRight(c, events, other, plan[m], t);
      PlanSnoc(plan, other, plan[m]);
      other := other + [plan[m]];
    } else {
      LastCalls(events, plan);
      if n < 0 {
        other := [];
        NothingMirrored(c, t);
      } else {
        PrefixValid(c, events, n);
        Prefixes(events, n, events[n].now);
        Prefixes(plan, m, plan[m].now);
        other := MirrorPlan(c, events[..n], plan[..m], events[n].now);
        PlanAddresses(plan[..m], other, plan[m].now);
        BothFit(c, events[..n], other, events[n].now);
        var f := AskBoth(c, events, other, t);
        PlanSnoc(plan, other, f);
        other := other + [f];
      }
    }
  }

  lemma NothingMirrored(c: Limits, t: int)
    ensures Mirrors(c, [], [], t)
  {
  }

  lemma BothFit(c: Limits, events: seq<Event>, other: seq<Event>, t: int)
    requires c.maxTrackedIps > 0 && ValidRun(c, events) && Mirrors(c, events, other, t)
    requires NoEmptyAddress(events) && NoEmptyAddress(other)
    ensures |After(c, events)| <= c.maxTrackedIps && |After(c, other)| <= c.maxTrackedIps
  {
    hide ValidRun;
    TableFits(c, events);
    TableFits(c, other);
  }

  /**
    Garbage collection is invisible over whole runs.  Take any run and move, add or delete sweeps at
    will: with suitable evictions the new run gives every request the verdict it had.
   */
  lemma SweepsInvisible(c: Limits, events: seq<Event>, plan: seq<Event>) returns (other: seq<Event>)
    requires c.maxTrackedIps > 0 && ValidRun(c, events) && NoEmptyAddress(events)
    requires InOrder(plan) && Calls(plan) == Calls(events)
    ensures SamePlan(other, plan) && ValidRun(c, other) && Verdicts(c, other) == Verdicts(c, events)
  {
    hide SameLive, Verdicts, After, Possible, Calls;
    CallAddresses(events);
    CallAddresses(plan);
    var t := Max(Last(events), Last(plan));
    UntilLast(events);
    UntilLast(plan);
    other := MirrorPlan(c, events, plan, t);
  }

  function Last(events: seq<Event>): int {
    if events == [] then 0 else events[|events| - 1].now
  }

  function Max(a: int, b: int): int {
    if a < b then b else a
  }

  lemma UntilLast(events: seq<Event>)
    requires InOrder(events)
    ensures Until(events, Last(events))
  {
  }
}
