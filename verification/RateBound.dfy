/** The limiter's bound over every run: at most twice the limit in any interval of one window. */
module RateBound {
  import opened Bytes
  import opened RateLimit

  /** `victim` is what an eviction, if the request causes one, deletes. */
  datatype Event =
    | Ask(ip: bytes, now: int, victim: Option<bytes>)
    | Sweep(now: int)

  function Step(c: Limits, b: Buckets, e: Event): (Buckets, bool) {
    match e
    case Ask(ip, now, victim) => Request(c, b, ip, now, victim)
    case Sweep(now) => (Collect(b, now), false)
  }

  function After(c: Limits, events: seq<Event>): Buckets {
    if events == [] then map[] else Step(c, After(c, events[..|events| - 1]), events[|events| - 1]).0
  }

  predicate Evicts(c: Limits, b: Buckets, e: Event) {
    e.Ask? && Creates(b, e.ip, e.now) && |b| >= c.maxTrackedIps
  }

  /** The victim is one the eviction may choose. */
  ghost predicate Possible(c: Limits, b: Buckets, e: Event) {
    Evicts(c, b, e) ==> Evictable(b, e.now, e.victim)
  }

  /** A run: time does not go back, and evictions are possible ones. */
  ghost predicate ValidRun(c: Limits, events: seq<Event>) {
    && (forall i, j :: 0 <= i < j < |events| ==> events[i].now <= events[j].now)
    && (forall i :: 0 <= i < |events| ==> Possible(c, After(c, events[..i]), events[i]))
  }

  function Live(b: Buckets, now: int): set<bytes> {
    set ip | ip in b && !Expired(b, ip, now)
  }

  /** Fewer than `maxTrackedIps` buckets are live. */
  predicate HasRoom(c: Limits, b: Buckets, e: Event) {
    e.Ask? && Creates(b, e.ip, e.now) ==> |Live(b, e.now)| < c.maxTrackedIps
  }

  /** Whenever a bucket is created, there is room. */
  ghost predicate Roomy(c: Limits, events: seq<Event>) {
    forall i :: 0 <= i < |events| ==> HasRoom(c, After(c, events[..i]), events[i])
  }

  /** One allowed request: when, which of its window, and when the window began. */
  datatype Entry = Entry(time: int, ordinal: int, start: int)

  /** The allowed requests of one address, in order. */
  function Log(c: Limits, events: seq<Event>, ip: bytes): seq<Entry> {
    if events == [] then []
    else
      var n := |events| - 1;
      var (b', allowed) := Step(c, After(c, events[..n]), events[n]);
      Log(c, events[..n], ip) +
      if allowed && events[n].ip == ip && ip in b'
      then [Entry(events[n].now, b'[ip].count, b'[ip].resetTime - c.window)] else []
  }

  /** A bucket lets its first request through even if the limit is below 1. */
  function Limit(c: Limits): nat {
    if c.maxRequests < 1 then 1 else c.maxRequests
  }

  predicate WellEntered(c: Limits, x: Entry) {
    x.start <= x.time <= x.start + c.window && 1 <= x.ordinal <= Limit(c)
  }

  /** The next allowed request is in the same window, or opens one after the end of it. */
  predicate Follows(c: Limits, x: Entry, y: Entry) {
    || (y.start == x.start && y.ordinal == x.ordinal + 1)
    || (Opens(y) && y.time > x.start + c.window)
  }

  /** The first request of a window. */
  predicate Opens(x: Entry) {
    x.start == x.time && x.ordinal == 1
  }

  ghost predicate WellLogged(c: Limits, log: seq<Entry>) {
    && (log != [] ==> Opens(log[0]))
    && (forall i :: 0 <= i < |log| ==> WellEntered(c, log[i]))
    && (forall i :: 0 <= i < |log| - 1 ==> Follows(c, log[i], log[i + 1]))
    && (forall i, j :: 0 <= i < j < |log| ==> log[i].time <= log[j].time)
  }

  /** The bucket of an address continues its log; without one, the last window is over. */
  predicate Continues(c: Limits, b: Buckets, ip: bytes, log: seq<Entry>, clock: int) {
    if ip in b then log != [] && b[ip] == Bucket(log[|log| - 1].ordinal, log[|log| - 1].start + c.window)
    else log == [] || clock > log[|log| - 1].start + c.window
  }

  /** With room, only expired buckets are evicted. */
  lemma RoomSparesLive(c: Limits, b: Buckets, e: Event, ip: bytes)
    requires Possible(c, b, e) && HasRoom(c, b, e) && Evicts(c, b, e)
    ensures e.victim == Some(ip) ==> Expired(b, ip, e.now)
  {
    AllLive(b, e.now);
  }

  lemma AllLive(b: Buckets, now: int)
    ensures !SomeExpired(b, now) ==> Live(b, now) == b.Keys
  {
  }

  lemma StepContinues(c: Limits, b: Buckets, e: Event, ip: bytes, log: seq<Entry>, clock: int)
    requires Possible(c, b, e) && HasRoom(c, b, e) && clock <= e.now
    requires WellLogged(c, log) && Continues(c, b, ip, log, clock)
    requires log != [] ==> log[|log| - 1].time <= clock
    ensures var (b', allowed) := Step(c, b, e);
            && (allowed && e.ip == ip ==>
                  ip in b' &&
                  var x := Entry(e.now, b'[ip].count, b'[ip].resetTime - c.window);
                  WellEntered(c, x) && (if log == [] then Opens(x) else Follows(c, log[|log| - 1], x))
                      && Continues(c, b', ip, log + [x], e.now))
            && (!(allowed && e.ip == ip) ==> Continues(c, b', ip, log, e.now))
  {
    hide Evictable, Live;
    if Evicts(c, b, e) {
      RoomSparesLive(c, b, e, ip);
    }
    if log != [] {
      assert WellEntered(c, log[|log| - 1]);
    }
  }

  ghost predicate Tracked(c: Limits, events: seq<Event>, ip: bytes, clock: int) {
    && WellLogged(c, Log(c, events, ip)) && Continues(c, After(c, events), ip, Log(c, events, ip), clock)
    && (Log(c, events, ip) != [] ==> Log(c, events, ip)[|Log(c, events, ip)| - 1].time <= clock)
  }

  lemma WellLoggedSnoc(c: Limits, log: seq<Entry>, x: Entry)
    requires WellLogged(c, log) && WellEntered(c, x)
    requires if log == [] then Opens(x) else Follows(c, log[|log| - 1], x) && log[|log| - 1].time <= x.time
    ensures WellLogged(c, log + [x])
  {
    hide WellEntered, Follows;
    var more := log + [x];
    assert forall i :: 0 <= i < |log| ==> more[i] == log[i];
  }

  lemma NextAfter(c: Limits, events: seq<Event>, e: Event)
    ensures After(c, events + [e]) == Step(c, After(c, events), e).0
    ensures forall ip :: Log(c, events + [e], ip) == Log(c, events, ip) +
              var (b', allowed) := Step(c, After(c, events), e);
              if allowed && e.ip == ip && ip in b'
              then [Entry(e.now, b'[ip].count, b'[ip].resetTime - c.window)] else []
  {
    hide Step;
    assert (events + [e])[..|events|] == events;
  }

  lemma StepTracked(c: Limits, events: seq<Event>, e: Event, ip: bytes, clock: int)
    requires Tracked(c, events, ip, clock) && clock <= e.now
    requires Possible(c, After(c, events), e) && HasRoom(c, After(c, events), e)
    ensures Tracked(c, events + [e], ip, e.now)
  {
    hide Request, Collect, Possible, HasRoom, Continues, WellLogged, Follows, WellEntered, After, Log;
    var b, log := After(c, events), Log(c, events, ip);
    StepContinues(c, b, e, ip, log, clock);
    NextAfter(c, events, e);
    Unit(log);
    var (b', allowed) := Step(c, b, e);
    if allowed && e.ip == ip {
      WellLoggedSnoc(c, log, Entry(e.now, b'[ip].count, b'[ip].resetTime - c.window));
    }
  }

  lemma {:induction false} RunTracked(c: Limits, events: seq<Event>, ip: bytes, clock: int)
    requires ValidRun(c, events) && Roomy(c, events)
    requires events != [] ==> clock == events[|events| - 1].now
    ensures Tracked(c, events, ip, clock)
  {
    hide Possible, HasRoom, Tracked, After;
    if events == [] {
      NothingTracked(c, ip, clock);
    } else {
      var n := |events| - 1;
      var before := if n == 0 then clock else events[n - 1].now;
      PrefixValid(c, events, n);
      RunTracked(c, events[..n], ip, before);
      StepTracked(c, events[..n], events[n], ip, before);
      assert events[..n] + [events[n]] == events;
    }
  }

  lemma NothingTracked(c: Limits, ip: bytes, clock: int)
    ensures Tracked(c, [], ip, clock)
  {
  }

  lemma PrefixValid(c: Limits, events: seq<Event>, n: nat)
    requires ValidRun(c, events) && n <= |events|
    ensures ValidRun(c, events[..n])
    ensures Roomy(c, events) ==> Roomy(c, events[..n])
  {
    hide Possible, HasRoom, After;
    assert forall i :: 0 <= i < n ==> events[..n][..i] == events[..i];
  }

  /** A window opens at most `Limit` requests after any request. */
  lemma {:induction false} NextWindow(c: Limits, log: seq<Entry>, i: nat) returns (p: nat)
    requires WellLogged(c, log) && i + Limit(c) < |log|
    ensures i < p <= i + Limit(c) && log[p].start == log[p].time > log[i].start + c.window
    decreases |log| - i
  {
    p := SameWindow(c, log, i, i + Limit(c) + 1 - log[i].ordinal);
  }

  lemma {:induction false} SameWindow(c: Limits, log: seq<Entry>, i: nat, last: nat) returns (p: nat)
    requires WellLogged(c, log) && i < last < |log| && last == i + Limit(c) + 1 - log[i].ordinal
    ensures i < p <= last && log[p].start == log[p].time > log[i].start + c.window
    decreases |log| - i
  {
    assert WellEntered(c, log[i]) && WellEntered(c, log[i + 1]) && Follows(c, log[i], log[i + 1]);
    if log[i + 1].start == log[i].start && log[i + 1].ordinal == log[i].ordinal + 1 {
      p := SameWindow(c, log, i + 1, last);
    } else {
      p := i + 1;
    }
  }

  lemma Spacing(c: Limits, log: seq<Entry>, i: nat)
    requires WellLogged(c, log) && i + 2 * Limit(c) < |log|
    ensures log[i + 2 * Limit(c)].time > log[i].time + c.window
  {
    hide Follows;
    var p := NextWindow(c, log, i);
    var q := NextWindow(c, log, p);
    assert log[i].time <= log[p].time && (q < i + 2 * Limit(c) ==> log[q].time <= log[i + 2 * Limit(c)].time);
  }

  lemma InOrder(c: Limits, log: seq<Entry>, i: nat, j: nat)
    requires WellLogged(c, log) && i <= j < |log|
    ensures log[i].time <= log[j].time
  {
  }

  /** How many of the logged requests lie in a closed interval of time. */
  function CountIn(log: seq<Entry>, lo: int, hi: int): nat {
    if log == [] then 0
    else
      var n := |log| - 1;
      CountIn(log[..n], lo, hi) + if lo <= log[n].time <= hi then 1 else 0
  }

  lemma {:induction false} Span(log: seq<Entry>, lo: int, hi: int) returns (i: nat, j: nat)
    requires CountIn(log, lo, hi) > 0
    ensures i <= j < |log| && CountIn(log, lo, hi) <= j - i + 1
    ensures lo <= log[i].time && log[j].time <= hi
  {
    var n := |log| - 1;
    if CountIn(log[..n], lo, hi) == 0 {
      i, j := n, n;
    } else {
      i, j := Span(log[..n], lo, hi);
      if lo <= log[n].time <= hi {
        j := n;
      }
    }
  }

  /**
    In every run in which fewer than `maxTrackedIps` buckets are live whenever one is created,
    each address is allowed at most twice the limit in any closed interval no longer than the window.
   */
  lemma SlidingBound(c: Limits, events: seq<Event>, ip: bytes, lo: int, hi: int)
    requires ValidRun(c, events) && Roomy(c, events) && hi - lo <= c.window
    ensures CountIn(Log(c, events, ip), lo, hi) <= 2 * Limit(c)
  {
    hide Log, After, Possible, HasRoom, Continues, Limit, Follows, WellEntered;
    RunTracked(c, events, ip, if events == [] then 0 else events[|events| - 1].now);
    var log := Log(c, events, ip);
    if CountIn(log, lo, hi) > 2 * Limit(c) {
      var i, j := Span(log, lo, hi);
      InOrder(c, log, i + 2 * Limit(c), j);
      Spacing(c, log, i);
    }
  }

  ghost predicate NoEmptyAddress(events: seq<Event>) {
    forall i :: 0 <= i < |events| && events[i].Ask? ==> events[i].ip != []
  }

  lemma StepFits(c: Limits, b: Buckets, e: Event)
    requires c.maxTrackedIps > 0 && |b| <= c.maxTrackedIps && [] !in b && Possible(c, b, e) && (e.Ask? ==> e.ip != [])
    ensures |Step(c, b, e).0| <= c.maxTrackedIps && [] !in Step(c, b, e).0
  {
    if Evicts(c, b, e) {
      assert e.victim.Some? && e.victim.value in b;
      var kept := b - {e.victim.value};
      assert kept.Keys == b.Keys - {e.victim.value};
      assert kept[e.ip := Bucket(1, e.now + c.window)].Keys == kept.Keys + {e.ip};
    } else if e.Ask? {
      assert Step(c, b, e).0.Keys == b.Keys + if Creates(b, e.ip, e.now) then {e.ip} else {};
    } else {
      SubsetSize(Collect(b, e.now).Keys, b.Keys);
    }
  }

  lemma {:induction false} SubsetSize(a: set<bytes>, b: set<bytes>)
    requires a <= b
    ensures |a| <= |b|
    decreases a
  {
    if a != {} {
      var x :| x in a;
      SubsetSize(a - {x}, b - {x});
    }
  }

  /** The map never outgrows its limit, as long as no address is the empty string. */
  lemma {:induction false} TableFits(c: Limits, events: seq<Event>)
    requires c.maxTrackedIps > 0 && ValidRun(c, events) && NoEmptyAddress(events)
    ensures |After(c, events)| <= c.maxTrackedIps && [] !in After(c, events)
  {
    hide Step, Possible;
    if events != [] {
      var n := |events| - 1;
      PrefixValid(c, events, n);
      TableFits(c, events[..n]);
      StepFits(c, After(c, events[..n]), events[n]);
    }
  }

  /** All requests come from these addresses. */
  ghost predicate Over(events: seq<Event>, addresses: set<bytes>) {
    forall e :: e in events && e.Ask? ==> e.ip in addresses
  }

  ghost predicate Bounded(c: Limits, events: seq<Event>) {
    forall ip, lo, hi :: hi - lo <= c.window ==> CountIn(Log(c, events, ip), lo, hi) <= 2 * Limit(c)
  }

  lemma {:induction false} OnlyThese(c: Limits, events: seq<Event>, addresses: set<bytes>)
    requires Over(events, addresses)
    ensures After(c, events).Keys <= addresses
  {
    if events != [] {
      OnlyThese(c, events[..|events| - 1], addresses);
    }
  }

  lemma FewHaveRoom(c: Limits, b: Buckets, e: Event, addresses: set<bytes>)
    requires b.Keys <= addresses && |addresses| <= c.maxTrackedIps && (e.Ask? ==> e.ip in addresses)
    ensures HasRoom(c, b, e)
  {
    if e.Ask? && Creates(b, e.ip, e.now) {
      SubsetSize(Live(b, e.now), addresses - {e.ip});
    }
  }

  /** No more addresses than buckets: then there always is room. */
  lemma FewAreRoomy(c: Limits, events: seq<Event>, addresses: set<bytes>)
    requires Over(events, addresses) && |addresses| <= c.maxTrackedIps
    ensures Roomy(c, events)
  {
    hide After, HasRoom;
    forall i | 0 <= i < |events|
      ensures HasRoom(c, After(c, events[..i]), events[i])
    {
      OnlyThese(c, events[..i], addresses);
      FewHaveRoom(c, After(c, events[..i]), events[i], addresses);
    }
  }

  /** One request of each address, all at time 0. */
  function Full(c: Limits, s: set<bytes>): Buckets {
    map ip | ip in s :: Bucket(1, c.window)
  }

  /** A run at time 0 of requests from `s` alone. */
  ghost predicate AtOnce(c: Limits, events: seq<Event>, s: set<bytes>) {
    ValidRun(c, events) && Over(events, s) && forall e :: e in events ==> e.now == 0
  }

  lemma OneMore(c: Limits, events: seq<Event>, e: Event, s: set<bytes>)
    requires AtOnce(c, events, s) && Possible(c, After(c, events), e) && e.Ask? && e.ip in s && e.now == 0
    ensures AtOnce(c, events + [e], s) && After(c, events + [e]) == Step(c, After(c, events), e).0
  {
    hide Step, Possible, After;
    NextAfter(c, events, e);
    var all := events + [e];
    forall i | 0 <= i < |all|
      ensures Possible(c, After(c, all[..i]), all[i])
    {
      assert all[..i] == events[..i];
      assert events[..|events|] == events;
    }
  }

  lemma {:induction false} Fill(c: Limits, s: set<bytes>) returns (events: seq<Event>)
    requires |s| < c.maxTrackedIps
    ensures AtOnce(c, events, s) && After(c, events) == Full(c, s)
    decreases |s|
  {
    hide Possible, AtOnce, After, Full, Step;
    if s == {} {
      events := [];
      NoneAsked(c);
    } else {
      var x :| x in s;
      var fewer := Fill(c, s - {x});
      Asked(c, s - {x}, x);
      assert s - {x} + {x} == s;
      Wider(c, fewer, s - {x}, s);
      var e := Ask(x, 0, None);
      OneMore(c, fewer, e, s);
      events := fewer + [e];
    }
  }

  lemma NoneAsked(c: Limits)
    ensures AtOnce(c, [], {}) && After(c, []) == Full(c, {})
  {
  }

  lemma Asked(c: Limits, s: set<bytes>, ip: bytes)
    requires |s| < c.maxTrackedIps && ip !in s
    ensures Possible(c, Full(c, s), Ask(ip, 0, None))
            && Step(c, Full(c, s), Ask(ip, 0, None)) == (Full(c, s + {ip}), true)
  {
    assert Full(c, s).Keys == s;
    assert Full(c, s)[ip := Bucket(1, c.window)] == Full(c, s + {ip});
  }

  lemma PushedOut(c: Limits, s: set<bytes>, ip: bytes, other: bytes)
    requires |s| + 1 == c.maxTrackedIps && ip !in s && other !in s && ip != other && other != []
    ensures var e := Ask(ip, 0, Some(other));
            Possible(c, Full(c, s + {other}), e) && Step(c, Full(c, s + {other}), e) == (Full(c, s + {ip}), true)
  {
    var b := Full(c, s + {other});
    assert b.Keys == s + {other} && Oldest(b, other);
    assert (b - {other})[ip := Bucket(1, c.window)] == Full(c, s + {ip});
  }

  /** In a full table two addresses can push each other out, with every request allowed. */
  lemma {:induction false} Turns(c: Limits, s: set<bytes>, a: bytes, b: bytes, n: nat) returns (events: seq<Event>)
    requires |s| + 1 == c.maxTrackedIps && a !in s && b !in s && a != b && a != [] && b != []
    ensures AtOnce(c, events, s + {a, b}) && After(c, events) == Full(c, s + {a})
    ensures CountIn(Log(c, events, a), 0, 0) > n
    decreases n
  {
    hide AtOnce, Step, Possible, Log, CountIn, Full;
    if n == 0 {
      events := Fill(c, s);
      Wider(c, events, s, s + {a, b});
      Asked(c, s, a);
      OneMore(c, events, Ask(a, 0, None), s + {a, b});
      Counted(c, events, Ask(a, 0, None), s, a);
      events := events + [Ask(a, 0, None)];
    } else {
      events := Turns(c, s, a, b, n - 1);
      var e, f := Ask(b, 0, Some(a)), Ask(a, 0, Some(b));
      PushedOut(c, s, b, a);
      OneMore(c, events, e, s + {a, b});
      Counted(c, events, e, s, a);
      PushedOut(c, s, a, b);
      OneMore(c, events + [e], f, s + {a, b});
      Counted(c, events + [e], f, s, a);
      events := events + [e] + [f];
    }
  }

  lemma Wider(c: Limits, events: seq<Event>, s: set<bytes>, t: set<bytes>)
    requires AtOnce(c, events, s) && s <= t
    ensures AtOnce(c, events, t)
  {
    hide ValidRun;
  }

  lemma Counted(c: Limits, events: seq<Event>, e: Event, s: set<bytes>, ip: bytes)
    requires e.Ask? && e.now == 0 && Step(c, After(c, events), e) == (Full(c, s + {e.ip}), true)
    ensures CountIn(Log(c, events + [e], ip), 0, 0) == CountIn(Log(c, events, ip), 0, 0) + if e.ip == ip then 1 else 0
  {
    hide Step, After, Log;
    NextAfter(c, events, e);
    var log := Log(c, events, ip);
    Unit(log);
    if e.ip == ip {
      var x := Entry(0, 1, 0);
      assert Log(c, events + [e], ip) == log + [x];
      assert (log + [x])[..|log|] == log;
    }
  }

  lemma {:induction false} Subset(s: set<bytes>, n: nat) returns (t: set<bytes>)
    requires n <= |s|
    ensures t <= s && |t| == n
  {
    if n == |s| {
      t := s;
    } else {
      var x :| x in s;
      t := Subset(s - {x}, n);
    }
  }

  lemma ManyOverrun(c: Limits, addresses: set<bytes>) returns (events: seq<Event>)
    requires c.maxTrackedIps > 0 && [] !in addresses && |addresses| > c.maxTrackedIps
    ensures ValidRun(c, events) && Over(events, addresses) && !Bounded(c, events)
  {
    hide ValidRun, Log, After, CountIn, Limit;
    var a :| a in addresses;
    assert |addresses - {a}| == |addresses| - 1 >= 1;
    var b :| b in addresses - {a};
    var s := Subset(addresses - {a} - {b}, c.maxTrackedIps - 1);
    events := Turns(c, s, a, b, 2 * Limit(c));
    assert s + {a, b} <= addresses;
  }

  /**
    Exactly how many clients the limiter can bound: in all runs with requests from these addresses,
    each is allowed at most twice the limit per window, if and only if there are no more addresses
    than buckets.
   */
  lemma BoundExact(c: Limits, addresses: set<bytes>)
    requires c.maxTrackedIps > 0 && [] !in addresses
    ensures (forall events :: ValidRun(c, events) && Over(events, addresses) ==> Bounded(c, events))
            <==> |addresses| <= c.maxTrackedIps
  {
    hide ValidRun, Log, After, CountIn, Limit, Over, Bounded;
    if |addresses| <= c.maxTrackedIps {
      forall events | ValidRun(c, events) && Over(events, addresses)
        ensures Bounded(c, events)
      {
        FewAreRoomy(c, events, addresses);
        RoomyBounded(c, events);
      }
    } else {
      var events := ManyOverrun(c, addresses);
    }
  }

  lemma RoomyBounded(c: Limits, events: seq<Event>)
    requires ValidRun(c, events) && Roomy(c, events)
    ensures Bounded(c, events)
  {
    hide ValidRun, Roomy, Log, CountIn, Limit;
    forall ip, lo, hi | hi - lo <= c.window
      ensures CountIn(Log(c, events, ip), lo, hi) <= 2 * Limit(c)
    {
      SlidingBound(c, events, ip, lo, hi);
    }
  }

  lemma NoneEmpty(events: seq<Event>, addresses: set<bytes>)
    requires Over(events, addresses) && [] !in addresses
    ensures NoEmptyAddress(events)
  {
    forall i | 0 <= i < |events| && events[i].Ask?
      ensures events[i].ip != []
    {
      assert events[i] in events;
    }
  }

  /** The empty address is never evicted as the oldest, and another request makes one bucket too many. */
  lemma Overflow(c: Limits, addresses: set<bytes>) returns (events: seq<Event>)
    requires c.maxTrackedIps > 0 && [] in addresses && |addresses| > c.maxTrackedIps
    ensures ValidRun(c, events) && Over(events, addresses) && |After(c, events)| > c.maxTrackedIps
  {
    hide Step, Possible, After, Full;
    var s := Subset(addresses - {[]}, c.maxTrackedIps - 1);
    var t := s + {[]};
    var last := Spare(addresses, t);
    events := Fill(c, s);
    Wider(c, events, s, addresses);
    Asked(c, s, []);
    OneMore(c, events, Ask([], 0, None), addresses);
    events := events + [Ask([], 0, None)];
    OneTooMany(c, t, last);
    OneMore(c, events, Ask(last, 0, None), addresses);
    events := events + [Ask(last, 0, None)];
  }

  lemma Spare(all: set<bytes>, some: set<bytes>) returns (x: bytes)
    requires |some| < |all|
    ensures x in all && x !in some
  {
    if all <= some {
      SubsetSize(all, some);
    }
    x :| x in all && x !in some;
  }

  lemma OneTooMany(c: Limits, t: set<bytes>, last: bytes)
    requires |t| == c.maxTrackedIps && [] in t && last !in t
    ensures var e := Ask(last, 0, None);
            Possible(c, Full(c, t), e) && |Step(c, Full(c, t), e).0| == c.maxTrackedIps + 1
  {
    var b := Full(c, t);
    assert b.Keys == t && Oldest(b, []);
    assert Step(c, b, Ask(last, 0, None)).0.Keys == t + {last};
  }

  /**
    Exactly when the map keeps to its limit, in all runs with requests from these addresses: if and
    only if none of them is the empty string, or there are no more of them than buckets.
   */
  lemma TableFitsExact(c: Limits, addresses: set<bytes>)
    requires c.maxTrackedIps > 0
    ensures (forall events :: ValidRun(c, events) && Over(events, addresses) ==> |After(c, events)| <= c.maxTrackedIps)
            <==> [] !in addresses || |addresses| <= c.maxTrackedIps
  {
    hide ValidRun, After, Over;
    if [] !in addresses || |addresses| <= c.maxTrackedIps {
      forall events | ValidRun(c, events) && Over(events, addresses)
        ensures |After(c, events)| <= c.maxTrackedIps
      {
        if [] !in addresses {
          NoneEmpty(events, addresses);
          TableFits(c, events);
        } else {
          OnlyThese(c, events, addresses);
          SubsetSize(After(c, events).Keys, addresses);
        }
      }
    } else {
      var events := Overflow(c, addresses);
    }
  }

  /** The first window of a log is counted from its start; so is every other. */
  lemma {:induction false} WindowCount(c: Limits, log: seq<Entry>, now: int)
    requires WellLogged(c, log) && log != [] && log[|log| - 1].time <= now
    ensures CountIn(log, log[|log| - 1].start, now) == log[|log| - 1].ordinal
    decreases |log|
  {
    var n := |log| - 1;
    var prev, x := log[..n], log[n];
    assert WellEntered(c, x);
    if n == 0 {
      assert CountIn(prev, x.start, now) == 0;
    } else {
      LogPrefix(c, log, n);
      assert Follows(c, log[n - 1], x) && WellEntered(c, log[n - 1]) && log[n - 1].time <= x.time;
      if x.start == log[n - 1].start && x.ordinal == log[n - 1].ordinal + 1 {
        WindowCount(c, prev, now);
      } else {
        NoneSince(c, prev, x.start, now);
      }
    }
  }

  lemma LogPrefix(c: Limits, log: seq<Entry>, n: nat)
    requires WellLogged(c, log) && n <= |log|
    ensures WellLogged(c, log[..n])
  {
    hide WellEntered, Follows, Opens;
    assert forall i :: 0 <= i < n ==> log[..n][i] == log[i];
  }

  lemma {:induction false} NoneSince(c: Limits, log: seq<Entry>, lo: int, hi: int)
    requires WellLogged(c, log) && (log != [] ==> log[|log| - 1].time < lo)
    ensures CountIn(log, lo, hi) == 0
  {
    hide WellEntered, Follows, Opens;
    if log != [] {
      var n := |log| - 1;
      LogPrefix(c, log, n);
      assert n > 0 ==> log[..n][n - 1] == log[n - 1] && log[n - 1].time <= log[n].time;
      NoneSince(c, log[..n], lo, hi);
    }
  }

  lemma {:induction false} CountWider(log: seq<Entry>, lo: int, lower: int, hi: int)
    requires lower <= lo
    ensures CountIn(log, lo, hi) <= CountIn(log, lower, hi)
  {
    if log != [] {
      CountWider(log[..|log| - 1], lo, lower, hi);
    }
  }

  /** The last window of the log has not ended, and the limit of requests was allowed since it began. */
  predicate Exhausted(c: Limits, log: seq<Entry>, now: int) {
    && log != [] && now <= log[|log| - 1].start + c.window
    && CountIn(log, log[|log| - 1].start, now) >= c.maxRequests
  }

  lemma VerdictByBucket(c: Limits, b: Buckets, ip: bytes, log: seq<Entry>, clock: int, e: Event)
    requires Continues(c, b, ip, log, clock) && clock <= e.now && e.Ask? && e.ip == ip
    ensures Step(c, b, e).1 == false <==>
              log != [] && e.now <= log[|log| - 1].start + c.window && log[|log| - 1].ordinal >= c.maxRequests
    ensures Step(c, b, e).1 ==> ip in Step(c, b, e).0
  {
  }

  /**
    Refusals, exactly.  In every roomy run the next request of an address is refused -- it does not
    enter the log -- if and only if the window of its last allowed request has not ended and has had
    its limit of requests.
   */
  lemma RefusedExactly(c: Limits, events: seq<Event>, e: Event)
    requires e.Ask? && ValidRun(c, events + [e]) && Roomy(c, events + [e])
    ensures Log(c, events + [e], e.ip) == Log(c, events, e.ip) <==> Exhausted(c, Log(c, events, e.ip), e.now)
  {
    hide Possible, HasRoom, Continues, WellLogged, Follows, WellEntered, After, Log, Step, CountIn;
    var log := Log(c, events, e.ip);
    var clock := if events == [] then e.now else events[|events| - 1].now;
    assert (events + [e])[..|events|] == events;
    PrefixValid(c, events + [e], |events|);
    RunTracked(c, events, e.ip, clock);
    assert events != [] ==> (events + [e])[|events| - 1].now <= (events + [e])[|events|].now;
    VerdictByBucket(c, After(c, events), e.ip, log, clock, e);
    NextAfter(c, events, e);
    if log != [] {
      WindowCount(c, log, e.now);
    }
  }

  /** Hence a refused address has had the limit of requests in the window before. */
  lemma RefusedAfterLimit(c: Limits, events: seq<Event>, e: Event)
    requires e.Ask? && ValidRun(c, events + [e]) && Roomy(c, events + [e])
    requires Log(c, events + [e], e.ip) == Log(c, events, e.ip)
    ensures CountIn(Log(c, events, e.ip), e.now - c.window, e.now) >= c.maxRequests
  {
    hide ValidRun, Roomy, Log, CountIn;
    RefusedExactly(c, events, e);
    var log := Log(c, events, e.ip);
    CountWider(log, log[|log| - 1].start, e.now - c.window, e.now);
  }

  /** An eviction deletes at most one other bucket: an expired one if there is any, else one of those with the
      least reset time. */
  lemma EvictionChoice(c: Limits, b: Buckets, e: Event, gone: bytes)
    requires e.Ask? && Possible(c, b, e) && gone in b && gone != e.ip && gone !in Step(c, b, e).0
    ensures |b| >= c.maxTrackedIps
    ensures (forall k :: k in b && k != gone ==> k in Step(c, b, e).0 && (k != e.ip ==> Step(c, b, e).0[k] == b[k]))
    ensures || e.now > b[gone].resetTime
            || forall k :: k in b ==> e.now <= b[k].resetTime && b[gone].resetTime <= b[k].resetTime
  {
    if !SomeExpired(b, e.now) {
      assert forall k :: k in b ==> !Expired(b, k, e.now);
    }
  }
}
