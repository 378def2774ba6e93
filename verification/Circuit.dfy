/**
  The circuit breaker (pkg/proxy/circuit.go).  `Execute` releases its lock while the action runs,
  so a call is two steps, `Begin` and `End`, and the steps of any number of calls interleave.
 */
module Circuit {
  import opened Bytes

  datatype CircuitState = Closed | Open | HalfOpen

  const THRESHOLD: nat := 5
  const RESET_TIMEOUT: nat := 10_000_000_000 // nanoseconds

  datatype Breaker = Breaker(state: CircuitState, failures: nat, lastFailureTime: int, trialInFlight: bool)

  /** The lock-protected part before the action; the flag says whether the action is started. */
  function BeginStep(b: Breaker, now: int): (Breaker, bool) {
    match b.state
    case Open =>
      if now - b.lastFailureTime > RESET_TIMEOUT then (b.(state := HalfOpen, trialInFlight := true), true)
      else (b, false)
    case HalfOpen =>
      if b.trialInFlight then (b, false) else (b.(trialInFlight := true), true)
    case Closed => (b, true)
  }

  /** The lock-protected part after it. */
  function EndStep(b: Breaker, failed: bool, now: int): Breaker {
    if failed then
      Breaker(if b.state == HalfOpen || b.failures + 1 >= THRESHOLD then Open else b.state, b.failures + 1, now, false)
    else if b.state == HalfOpen then b.(state := Closed, failures := 0, trialInFlight := false)
    else b
  }

  /** Closed means fewer failures than the threshold, half open means a trial is under way. */
  predicate Sound(b: Breaker) {
    && (b.state == Closed <==> b.failures < THRESHOLD)
    && (b.state == HalfOpen <==> b.trialInFlight)
  }

  class ProxyCircuitBreaker {
    var state: CircuitState
    var failures: nat
    var lastFailureTime: int
    var trialInFlight: bool

    ghost function Abs(): Breaker
      reads this
    {
      Breaker(state, failures, lastFailureTime, trialInFlight)
    }

    constructor ()
      ensures Abs() == Breaker(Closed, 0, 0, false) && Sound(Abs())
    {
      state, failures, lastFailureTime, trialInFlight := Closed, 0, 0, false;
    }

    method Begin(now: int) returns (started: bool)
      modifies this
      ensures (Abs(), started) == BeginStep(old(Abs()), now)
      ensures old(Sound(Abs())) ==> Sound(Abs())
    {
      if state == Open {
        if now - lastFailureTime > RESET_TIMEOUT {
          state := HalfOpen;
          trialInFlight := true;
        } else {
          return false;
        }
      } else if state == HalfOpen {
        if trialInFlight {
          return false;
        }
        trialInFlight := true;
      }
      started := true;
    }

    method End(failed: bool, now: int)
      modifies this
      ensures Abs() == EndStep(old(Abs()), failed, now)
      ensures old(Sound(Abs())) ==> Sound(Abs())
    {
      if failed {
        failures := failures + 1;
        lastFailureTime := now;
        trialInFlight := false;
        if state == HalfOpen || failures >= THRESHOLD {
          state := Open;
        }
        return;
      }
      if state == HalfOpen {
        state := Closed;
        failures := 0;
        trialInFlight := false;
      }
    }
  }

  /** The breaker and the calls whose action is running; a call is named by how many started before it. */
  datatype World = World(breaker: Breaker, running: set<nat>, started: nat)

  datatype Event =
    | Begin(now: int)
    | End(call: nat, failed: bool, now: int)

  const INITIAL: World := World(Breaker(Closed, 0, 0, false), {}, 0)

  predicate Starts(w: World, e: Event) {
    e.Begin? && BeginStep(w.breaker, e.now).1
  }

  function Step(w: World, e: Event): World {
    match e
    case Begin(now) =>
      var b := BeginStep(w.breaker, now).0;
      if Starts(w, e) then World(b, w.running + {w.started}, w.started + 1) else w.(breaker := b)
    case End(call, failed, now) =>
      if call in w.running then World(EndStep(w.breaker, failed, now), w.running - {call}, w.started) else w
  }

  function Run(w: World, events: seq<Event>): World {
    if events == [] then w else Step(Run(w, events[..|events| - 1]), events[|events| - 1])
  }

  lemma StepSound(w: World, e: Event)
    requires Sound(w.breaker)
    ensures Sound(Step(w, e).breaker)
  {
  }

  /** In every interleaving: closed iff below the threshold, half open iff the trial flag is set. */
  lemma {:induction false} AlwaysSound(events: seq<Event>)
    ensures Sound(Run(INITIAL, events).breaker)
  {
    hide Step, Sound;
    if events == [] {
      InitiallySound();
    } else {
      var n := |events| - 1;
      AlwaysSound(events[..n]);
      StepSound(Run(INITIAL, events[..n]), events[n]);
    }
  }

  lemma InitiallySound()
    ensures Sound(INITIAL.breaker)
  {
  }

  /** The state before event `i` of the run. */
  function At(events: seq<Event>, i: nat): World
    requires i <= |events|
  {
    Run(INITIAL, events[..i])
  }

  lemma AtNext(events: seq<Event>, i: nat)
    requires i < |events|
    ensures At(events, i + 1) == Step(At(events, i), events[i])
    ensures Sound(At(events, i).breaker)
  {
    hide Step, Sound;
    assert events[..i + 1][..i] == events[..i];
    AlwaysSound(events[..i]);
  }

  /** From event `opener` up to position `j` the breaker is half open, and only `opener` started a call. */
  ghost predicate Episode(events: seq<Event>, opener: nat, j: nat)
    requires opener < j <= |events|
  {
    && At(events, opener).breaker.state == Open && Starts(At(events, opener), events[opener])
    && (forall k :: opener < k <= j ==> At(events, k).breaker.state == HalfOpen)
    && (forall k :: opener < k < j ==> !Starts(At(events, k), events[k]))
  }

  lemma HalfOpenStep(w: World, e: Event)
    requires Sound(w.breaker) && Step(w, e).breaker.state == HalfOpen
    ensures if w.breaker.state == HalfOpen then !Starts(w, e) else w.breaker.state == Open && Starts(w, e)
  {
  }

  /** Whenever the breaker is half open, exactly one call was started since it became so: the opener. */
  lemma {:induction false} OneTrial(events: seq<Event>, j: nat) returns (opener: nat)
    requires j <= |events| && At(events, j).breaker.state == HalfOpen
    ensures opener < j && Episode(events, opener, j)
    decreases j
  {
    hide Step, Sound, Starts, Run;
    NotInitially(events, j);
    AtNext(events, j - 1);
    HalfOpenStep(At(events, j - 1), events[j - 1]);
    if At(events, j - 1).breaker.state == HalfOpen {
      opener := OneTrial(events, j - 1);
    } else {
      opener := j - 1;
    }
  }

  lemma NotInitially(events: seq<Event>, j: nat)
    requires j <= |events| && At(events, j).breaker.state != Closed
    ensures j > 0
  {
  }

  ghost predicate Monotone(events: seq<Event>) {
    forall i, j :: 0 <= i < j < |events| ==> events[i].now <= events[j].now
  }

  /** A completion reported a failure and the breaker is open after it. */
  predicate FailsOpen(w: World, e: Event) {
    e.End? && e.call in w.running && e.failed && Step(w, e).breaker.state == Open
  }

  lemma OpenStep(w: World, e: Event, since: int)
    requires w.breaker.state == Open && w.breaker.lastFailureTime >= since && e.now >= since && !Starts(w, e)
    ensures Step(w, e).breaker.state == Open && Step(w, e).breaker.lastFailureTime >= since
  {
  }

  /** As long as nothing starts, the breaker stays open and remembers a failure at least that late. */
  lemma {:induction false} StaysOpen(events: seq<Event>, i: nat, j: nat)
    requires Monotone(events) && i < j <= |events| && FailsOpen(At(events, i), events[i])
    requires forall k :: i < k < j ==> !Starts(At(events, k), events[k])
    ensures At(events, j).breaker.state == Open && At(events, j).breaker.lastFailureTime >= events[i].now
    decreases j
  {
    hide Step, Sound, Starts, Run;
    AtNext(events, j - 1);
    if i == j - 1 {
      FailureNoted(At(events, i), events[i]);
    } else {
      StaysOpen(events, i, j - 1);
      OpenStep(At(events, j - 1), events[j - 1], events[i].now);
    }
  }

  lemma FailureNoted(w: World, e: Event)
    requires FailsOpen(w, e)
    ensures Step(w, e).breaker.state == Open && Step(w, e).breaker.lastFailureTime == e.now
  {
  }

  lemma OpenStarts(w: World, e: Event, since: int)
    requires w.breaker.state == Open && w.breaker.lastFailureTime >= since && Starts(w, e)
    ensures e.now > since + RESET_TIMEOUT
  {
  }

  /** After a failure that leaves the breaker open, no call starts until more than the reset time has passed. */
  lemma {:induction false} CoolsDown(events: seq<Event>, i: nat, j: nat)
    requires Monotone(events) && i < j < |events|
    requires FailsOpen(At(events, i), events[i]) && Starts(At(events, j), events[j])
    ensures events[j].now > events[i].now + RESET_TIMEOUT
    decreases j
  {
    hide Step, Sound, Starts, Run, FailsOpen;
    if k :| i < k < j && Starts(At(events, k), events[k]) {
      CoolsDown(events, i, k);
    } else {
      StaysOpen(events, i, j);
      OpenStarts(At(events, j), events[j], events[i].now);
    }
  }

  /** The first event that leaves half open is the completion of that call. */
  ghost predicate DecidedBy(w: World, events: seq<Event>, call: nat) {
    forall i :: 0 <= i < |events|
      && (forall k :: 0 <= k <= i ==> Run(w, events[..k]).breaker.state == HalfOpen)
      && Run(w, events[..i + 1]).breaker.state != HalfOpen
      ==> events[i].End? && events[i].call == call
  }

  lemma {:induction false} OnlyCompletions(w: World, events: seq<Event>, i: nat)
    requires Sound(w.breaker) && i <= |events|
    requires forall k :: 0 <= k <= i ==> Run(w, events[..k]).breaker.state == HalfOpen
    ensures Run(w, events[..i]).running <= w.running && Sound(Run(w, events[..i]).breaker)
    decreases i
  {
    hide Step, Sound;
    if i > 0 {
      OnlyCompletions(w, events, i - 1);
      assert events[..i][..i - 1] == events[..i - 1];
      StepSound(Run(w, events[..i - 1]), events[i - 1]);
      HalfOpenRunning(Run(w, events[..i - 1]), events[i - 1]);
    }
  }

  lemma HalfOpenRunning(w: World, e: Event)
    requires Sound(w.breaker) && w.breaker.state == HalfOpen
    ensures Step(w, e).running <= w.running
    ensures Step(w, e).breaker.state != HalfOpen ==> e.End? && e.call in w.running
  {
  }

  lemma OnlyTrialLeaves(w: World, events: seq<Event>, trial: nat)
    requires Sound(w.breaker) && w.running == {trial}
    ensures DecidedBy(w, events, trial)
  {
    hide Step, Sound;
    forall i | 0 <= i < |events|
        && (forall k :: 0 <= k <= i ==> Run(w, events[..k]).breaker.state == HalfOpen)
        && Run(w, events[..i + 1]).breaker.state != HalfOpen
      ensures events[i].End? && events[i].call == trial
    {
      OnlyCompletions(w, events, i);
      assert events[..i + 1][..i] == events[..i];
      HalfOpenRunning(Run(w, events[..i]), events[i]);
    }
  }

  lemma LateCompletionDecides(w: World, late: nat, trial: nat, now: int)
    requires w.breaker.state == HalfOpen && late in w.running && late != trial
    ensures !DecidedBy(w, [End(late, false, now)], trial)
  {
    hide Step;
    var more := [End(late, false, now)];
    assert more[..0] == [] && more[..1] == more && Run(w, []) == w;
    CompletionCloses(w, more[0]);
  }

  lemma CompletionCloses(w: World, e: Event)
    requires w.breaker.state == HalfOpen && e.End? && e.call in w.running && !e.failed
    ensures Step(w, e).breaker.state == Closed
  {
  }

  ghost predicate Named(w: World) {
    forall call :: call in w.running ==> call < w.started
  }

  lemma {:induction false} AlwaysNamed(events: seq<Event>)
    ensures Named(Run(INITIAL, events))
  {
    if events != [] {
      AlwaysNamed(events[..|events| - 1]);
    }
  }

  lemma HalfOpenKeeps(w: World, e: Event)
    requires Sound(w.breaker) && w.breaker.state == HalfOpen && Step(w, e).breaker.state == HalfOpen
    ensures Step(w, e).running == w.running
  {
  }

  lemma TrialStarts(w: World, e: Event)
    requires Starts(w, e)
    ensures Step(w, e).running == w.running + {w.started}
  {
  }

  /** As long as the breaker is half open, the trial runs, and so do the calls it found running. */
  lemma {:induction false} TrialRuns(events: seq<Event>, opener: nat, j: nat)
    requires opener < j <= |events| && Episode(events, opener, j)
    ensures At(events, j).running == At(events, opener).running + {At(events, opener).started}
    decreases j
  {
    hide Step, Sound, Starts, Run, At;
    AtNext(events, j - 1);
    if opener == j - 1 {
      TrialStarts(At(events, opener), events[opener]);
    } else {
      TrialRuns(events, opener, j - 1);
      HalfOpenKeeps(At(events, j - 1), events[j - 1]);
    }
  }

  /**
    The breaker does not ask which call a completion belongs to.  Take any moment of any run at
    which it is half open, and the call that opened it, the trial.  The trial decides how the half
    open state ends, in every continuation, if and only if no call was running when it started.
   */
  lemma TrialDecides(events: seq<Event>, opener: nat, j: nat)
    requires Monotone(events) && opener < j <= |events| && Episode(events, opener, j)
    ensures var trial := At(events, opener).started;
            && trial in At(events, j).running
            && ((forall more :: Monotone(events[..j] + more) ==> DecidedBy(At(events, j), more, trial))
                <==> At(events, opener).running == {})
  {
    hide Step, Sound, Starts, Run, DecidedBy;
    var trial, w := At(events, opener).started, At(events, j);
    TrialRuns(events, opener, j);
    AlwaysNamed(events[..opener]);
    AlwaysSound(events[..j]);
    if At(events, opener).running == {} {
      forall more | Monotone(events[..j] + more)
        ensures DecidedBy(w, more, trial)
      {
        OnlyTrialLeaves(w, more, trial);
      }
    } else {
      var late :| late in At(events, opener).running;
      var now := events[j - 1].now;
      LateCompletionDecides(w, late, trial, now);
      assert Monotone(events[..j] + [End(late, false, now)]);
    }
  }

  function Below(n: nat): set<nat> {
    if n == 0 then {} else Below(n - 1) + {n - 1}
  }

  function Begins(n: nat): seq<Event> {
    if n == 0 then [] else Begins(n - 1) + [Begin(0)]
  }

  function Failures(n: nat): seq<Event> {
    if n == 0 then [] else Failures(n - 1) + [End(n - 1, true, 0)]
  }

  lemma RunSnoc(w: World, events: seq<Event>, e: Event)
    ensures Run(w, events + [e]) == Step(Run(w, events), e)
  {
    hide Step;
    assert (events + [e])[..|events|] == events;
  }

  lemma {:induction false} BeginsRun(n: nat)
    ensures Run(INITIAL, Begins(n)) == World(Breaker(Closed, 0, 0, false), Below(n), n)
  {
    if n > 0 {
      BeginsRun(n - 1);
      RunSnoc(INITIAL, Begins(n - 1), Begin(0));
    }
  }

  lemma {:induction false} FailuresRun(n: nat)
    requires n <= THRESHOLD
    ensures Run(INITIAL, Begins(6) + Failures(n))
            == World(Breaker(if n < THRESHOLD then Closed else Open, n, 0, false), {0, 1, 2, 3, 4, 5} - Below(n), 6)
    ensures forall call :: call in Below(n) ==> call < n
  {
    hide Run;
    if n == 0 {
      BeginsRun(6);
      assert Below(6) == {0, 1, 2, 3, 4, 5};
      Unit(Begins(6));
    } else {
      FailuresRun(n - 1);
      RunSnoc(INITIAL, Begins(6) + Failures(n - 1), End(n - 1, true, 0));
      Assoc(Begins(6), Failures(n - 1), [End(n - 1, true, 0)]);
    }
  }

  /**
    A run that shows it: six calls start, five of them fail, and after the reset time a trial
    starts.  When the sixth call succeeds, the breaker closes although the trial is still running.
   */
  lemma OlderCallDecides()
    ensures var events := Begins(6) + Failures(5) + [Begin(RESET_TIMEOUT + 1)];
            var w, w' := Run(INITIAL, events), Run(INITIAL, events + [End(5, false, RESET_TIMEOUT + 1)]);
            && w.breaker.state == HalfOpen && w.running == {5, 6}
            && w'.breaker.state == Closed && w'.running == {6}
  {
    hide Run;
    var before := Begins(6) + Failures(5);
    FailuresRun(5);
    assert Below(5) == {0, 1, 2, 3, 4};
    RunSnoc(INITIAL, before, Begin(RESET_TIMEOUT + 1));
    RunSnoc(INITIAL, before + [Begin(RESET_TIMEOUT + 1)], End(5, false, RESET_TIMEOUT + 1));
  }

  /** The failures reported from position `i` up to position `j`. */
  function Failed(events: seq<Event>, i: nat, j: nat): nat
    requires i <= j <= |events|
    decreases j
  {
    if i == j then 0
    else Failed(events, i, j - 1) + if FailedAt(events, j - 1) then 1 else 0
  }

  /** A running call completes with a failure. */
  predicate FailedAt(events: seq<Event>, k: nat)
    requires k < |events|
  {
    events[k].End? && events[k].call in At(events, k).running && events[k].failed
  }

  /** Since position `i` the breaker is closed, and then it was just made or just closed. */
  ghost predicate ClosedSince(events: seq<Event>, i: nat, j: nat)
    requires i <= j <= |events|
  {
    && (forall k :: i <= k <= j ==> At(events, k).breaker.state == Closed)
    && (i > 0 ==> At(events, i - 1).breaker.state != Closed)
  }

  lemma ClosedStep(w: World, e: Event)
    requires Sound(w.breaker)
    ensures var w' := Step(w, e);
            var failed := e.End? && e.call in w.running && e.failed;
            && (w.breaker.state == Closed ==> w'.breaker.failures == w.breaker.failures + if failed then 1 else 0)
            && (w.breaker.state == Closed ==> w'.breaker.state == if w'.breaker.failures < 5 then Closed else Open)
            && (w.breaker.state != Closed && w'.breaker.state == Closed ==> w'.breaker.failures == 0)
  {
  }

  lemma {:induction false} FailuresSince(events: seq<Event>, i: nat, j: nat)
    requires i <= j <= |events| && ClosedSince(events, i, j)
    ensures At(events, j).breaker.failures == Failed(events, i, j)
    decreases j
  {
    hide Step, Sound, Run, Starts;
    if j == 0 {
      AtStart(events);
    } else {
      AtNext(events, j - 1);
      ClosedStep(At(events, j - 1), events[j - 1]);
      if i < j {
        FailuresSince(events, i, j - 1);
      }
    }
  }

  lemma AtStart(events: seq<Event>)
    ensures At(events, 0) == INITIAL
  {
  }

  /**
    When the breaker opens: while it is closed, the next event opens it if and only if that event
    is the fifth failure since it closed, however many successes came between.
   */
  lemma OpensAtFifthFailure(events: seq<Event>, i: nat, j: nat)
    requires i <= j < |events| && ClosedSince(events, i, j)
    ensures At(events, j + 1).breaker.state == Open <==> FailedAt(events, j) && Failed(events, i, j) == 4
    ensures At(events, j + 1).breaker.state != HalfOpen
  {
    hide Step, Sound, Run, Starts;
    FailuresSince(events, i, j);
    AtNext(events, j);
    ClosedStep(At(events, j), events[j]);
    BelowThreshold(At(events, j).breaker);
  }

  lemma BelowThreshold(b: Breaker)
    requires Sound(b) && b.state == Closed
    ensures b.failures < 5
  {
  }
}
