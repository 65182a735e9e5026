/** `ResilientActiveKeyValueStore.createEphemeralNode`: write a node, creating it when it
    is absent and overwriting it when it is present, retrying a ZooKeeper failure at most
    `MAX_RETRIES` times with a reconnect and a linearly growing sleep after each failure.
    The ZooKeeper client is replaced by a script of what each attempt meets; the calls the
    method makes, the reconnects and the sleeps are recorded as a trace of events. */
module ResilientStore {
  import opened Wrappers

  const MaxRetries: nat := 3
  const RetryPeriodSeconds: nat := 2

  /** The exceptions an attempt can end in. Only `KeeperException` is caught. */
  datatype Exception =
    | KeeperException(code: string)
    | InterruptedException
    | NullPointerException
    | RuntimeException(name: string)

  datatype CreateMode = Persistent | PersistentSequential | Ephemeral | EphemeralSequential

  /** What one attempt meets: the answer of `exists` (the node's version, `None` when the
      node is absent, or an exception), the exception the write throws if any, and
      whether the sleep after a failure is interrupted. */
  datatype Attempt = Attempt(stat: Result<Option<int>, Exception>, write: Option<Exception>,
                             sleepInterrupted: bool)

  /** The observable effects of the method, in order. */
  datatype Event =
    | Exists(path: string)
    | Create(path: string, data: string, mode: CreateMode)
    | SetData(path: string, data: string, version: int)
    | Reconnect
    | Sleep(seconds: nat)

  datatype Outcome = Returned | Threw(exception: Exception)

  // ---------------------------------------------------------------------------
  // Reference definition, one attempt at a time
  // ---------------------------------------------------------------------------

  /** The `try` block of one attempt: the calls it makes and the exception it ends in, if
      any. A null value on an absent node fails in `getBytes` before `create` is called. */
  function TryBlock(path: string, value: Option<string>, mode: CreateMode, a: Attempt)
    : (seq<Event>, Option<Exception>)
  {
    match a.stat
    case Failure(e) => ([Exists(path)], Some(e))
    case Success(None) =>
      if value.None? then ([Exists(path)], Some(NullPointerException))
      else ([Exists(path), Create(path, value.value, mode)], a.write)
    case Success(Some(version)) =>
      if value.None? then ([Exists(path)], None)
      else ([Exists(path), SetData(path, value.value, version)], a.write)
  }

  /** What an attempt writes: an absent node is created with the value, a present node
      with a non-null value is overwritten at the version `exists` reported, a present
      node with a null value is left alone and counts as success, and nothing is written
      for a null value on an absent node. Every attempt starts with `exists`. */
  lemma TryBlockWrites(path: string, value: Option<string>, mode: CreateMode, a: Attempt)
    ensures var calls := TryBlock(path, value, mode, a).0;
            && |calls| > 0 && calls[0] == Exists(path)
            && (Create(path, value.GetOr(""), mode) in calls <==>
                  a.stat == Success(None) && value.Some?)
            && (forall v :: SetData(path, value.GetOr(""), v) in calls <==>
                  a.stat == Success(Some(v)) && value.Some?)
            && (forall e :: e in calls ==> !e.Reconnect? && !e.Sleep?)
    ensures a.stat.Success? && a.stat.value.Some? && value.None? ==>
              TryBlock(path, value, mode, a) == ([Exists(path)], None)
    ensures a.stat == Success(None) && value.None? ==>
              TryBlock(path, value, mode, a) == ([Exists(path)], Some(NullPointerException))
  {
  }

  /** The sleep after failure `number`: `RETRY_PERIOD_SECONDS * number` seconds. */
  function Backoff(number: nat): nat {
    RetryPeriodSeconds * number
  }

  /** How an attempt ends: it succeeded, its exception leaves the method, or it failed
      with a `KeeperException` and the loop goes on. */
  datatype StepEnd = Succeeded | Propagates(exception: Exception) | Retries(exception: Exception)

  datatype Step = Step(events: seq<Event>, end: StepEnd)

  /** Attempt number `number` (counting from 1): the `try` block, and after a
      `KeeperException` the reconnect and a sleep of `RETRY_PERIOD_SECONDS * number`. */
  function AttemptStep(path: string, value: Option<string>, mode: CreateMode, a: Attempt,
                       number: nat): Step
  {
    var (calls, thrown) := TryBlock(path, value, mode, a);
    match thrown
    case None => Step(calls, Succeeded)
    case Some(e) =>
      if !e.KeeperException? then Step(calls, Propagates(e))
      else
        var backoff := calls + [Reconnect, Sleep(Backoff(number))];
        if a.sleepInterrupted then Step(backoff, Propagates(InterruptedException))
        else Step(backoff, Retries(e))
  }

  /** A run of the method: the events it caused and how it ended. */
  datatype Execution = Execution(trace: seq<Event>, outcome: Outcome)

  /** The method from attempt `k + 1` on, `last` being the exception kept so far. The
      final `throw exception` of a null exception would throw a `NullPointerException`;
      with `MAX_RETRIES > 0` that never happens. */
  function RunFrom(path: string, value: Option<string>, mode: CreateMode,
                   script: seq<Attempt>, k: nat, last: Option<Exception>): Execution
    requires k <= MaxRetries <= |script|
    decreases MaxRetries - k
  {
    if k == MaxRetries then Execution([], Threw(last.GetOr(NullPointerException)))
    else
      var s := AttemptStep(path, value, mode, script[k], k + 1);
      match s.end
      case Succeeded => Execution(s.events, Returned)
      case Propagates(e) => Execution(s.events, Threw(e))
      case Retries(e) =>
        var rest := RunFrom(path, value, mode, script, k + 1, Some(e));
        Execution(s.events + rest.trace, rest.outcome)
  }

  /** `rest` run after the events `done`. */
  function Continued(done: seq<Event>, rest: Execution): Execution {
    Execution(done + rest.trace, rest.outcome)
  }

  /** The whole method. */
  function Run(path: string, value: Option<string>, mode: CreateMode, script: seq<Attempt>)
    : Execution
    requires |script| >= MaxRetries
  {
    RunFrom(path, value, mode, script, 0, None)
  }

  // ---------------------------------------------------------------------------
  // The loop
  // ---------------------------------------------------------------------------

  /** `createEphemeralNode(path, value, createMode)` against the client behaviour
      `script`: returns the events it caused and how it ended. */
  method CreateEphemeralNode(path: string, value: Option<string>, mode: CreateMode,
                             script: seq<Attempt>) returns (trace: seq<Event>, outcome: Outcome)
    requires |script| >= MaxRetries
    ensures Attempts(trace) <= MaxRetries
    ensures Sleeps(trace) == Schedule(0, Reconnects(trace))
    ensures outcome == Returned ==> Reconnects(trace) + 1 == Attempts(trace)
    ensures outcome.Threw? && outcome.exception.KeeperException? ==>
              Reconnects(trace) == MaxRetries && Sleeps(trace) == [2, 4, 6]
    ensures Execution(trace, outcome) == Run(path, value, mode, script)
    ensures TryBlock(path, value, mode, script[0]).1 == None ==>
              trace == TryBlock(path, value, mode, script[0]).0 && outcome == Returned
    ensures forall e :: TryBlock(path, value, mode, script[0]).1 == Some(e) && !e.KeeperException? ==>
              trace == TryBlock(path, value, mode, script[0]).0 && outcome == Threw(e)
    ensures Retried(path, value, mode, script[0]) && Retried(path, value, mode, script[1])
            && Retried(path, value, mode, script[2]) ==>
              outcome == Threw(TryBlock(path, value, mode, script[2]).1.value)
              && Attempts(trace) == 3 && Sleeps(trace) == [2, 4, 6]
  {
    trace, outcome := RetryLoop(path, value, mode, script);
    RunFacts(path, value, mode, script);
    var first := TryBlock(path, value, mode, script[0]).1;
    if first == None {
      FirstSuccessReturns(path, value, mode, script);
    } else if !first.value.KeeperException? {
      OtherExceptionPropagates(path, value, mode, script, first.value);
    }
    if Retried(path, value, mode, script[0]) && Retried(path, value, mode, script[1])
       && Retried(path, value, mode, script[2]) {
      ExhaustedThrowsLast(path, value, mode, script);
    }
  }

  /** The `while (retries++ < MAX_RETRIES)` loop: it does what the reference run does. */
  method RetryLoop(path: string, value: Option<string>, mode: CreateMode,
                   script: seq<Attempt>) returns (trace: seq<Event>, outcome: Outcome)
    requires |script| >= MaxRetries
    ensures Execution(trace, outcome) == Run(path, value, mode, script)
  {
    var retries := 0;
    var exception: Option<Exception> := None;
    var done := false;
    trace := [];
    outcome := Returned;
    while retries < MaxRetries && !done
      invariant retries <= MaxRetries
      invariant !done && retries > 0 ==> exception.Some?
      invariant done ==> Execution(trace, outcome) == Run(path, value, mode, script)
      invariant !done ==> Run(path, value, mode, script) == Continued(trace,
                            RunFrom(path, value, mode, script, retries, exception))
      decreases MaxRetries - retries
    {
      RunStep(path, value, mode, script, retries, exception);
      ghost var before := trace;
      retries := retries + 1;
      var events, end := AttemptOnce(path, value, mode, script[retries - 1], retries);
      trace := trace + events;
      match end {
        case Succeeded =>
          outcome := Returned;
          done := true;
        case Propagates(e) =>
          outcome := Threw(e);
          done := true;
        case Retries(e) =>
          exception := Some(e);
          Regroup(before, events, RunFrom(path, value, mode, script, retries, exception).trace);
      }
    }
    if !done {
      outcome := Threw(exception.GetOr(NullPointerException));
    }
  }

  /** One pass of the loop body, attempt number `number`: the `try` block, and for a
      `KeeperException` the `catch` block's reconnect and sleep. */
  method AttemptOnce(path: string, value: Option<string>, mode: CreateMode, a: Attempt,
                     number: nat) returns (events: seq<Event>, end: StepEnd)
    ensures Step(events, end) == AttemptStep(path, value, mode, a, number)
  {
    var calls, thrown := TryOnce(path, value, mode, a);
    events := calls;
    if thrown.None? {
      end := Succeeded;
    } else if !thrown.value.KeeperException? {
      end := Propagates(thrown.value);
    } else {
      events := events + [Reconnect, Sleep(Backoff(number))];
      if a.sleepInterrupted {
        end := Propagates(InterruptedException);
      } else {
        end := Retries(thrown.value);
      }
    }
  }

  /** The `try` block: `exists`, then `create` or `setData` as its answer demands. */
  method TryOnce(path: string, value: Option<string>, mode: CreateMode, a: Attempt)
    returns (calls: seq<Event>, thrown: Option<Exception>)
    ensures (calls, thrown) == TryBlock(path, value, mode, a)
  {
    calls := [Exists(path)];
    thrown := None;
    match a.stat {
      case Failure(e) =>
        thrown := Some(e);
      case Success(None) =>
        if value.None? {
          thrown := Some(NullPointerException);
        } else {
          calls := [Exists(path), Create(path, value.value, mode)];
          thrown := a.write;
        }
      case Success(Some(version)) =>
        if value.Some? {
          calls := [Exists(path), SetData(path, value.value, version)];
          thrown := a.write;
        }
    }
  }

  /** What every run of the method satisfies: at most `MAX_RETRIES` attempts; the sleeps
      are 2, 4, ... seconds, one per reconnect; a success follows a reconnect after every
      earlier attempt and none after itself; a `KeeperException` leaves the method only
      after three reconnects and sleeps of 2, 4 and 6 seconds. */
  lemma RunFacts(path: string, value: Option<string>, mode: CreateMode, script: seq<Attempt>)
    requires |script| >= MaxRetries
    ensures var r := Run(path, value, mode, script);
            && Attempts(r.trace) <= MaxRetries
            && Sleeps(r.trace) == Schedule(0, Reconnects(r.trace))
            && (r.outcome == Returned ==> Reconnects(r.trace) + 1 == Attempts(r.trace))
            && (r.outcome.Threw? && r.outcome.exception.KeeperException? ==>
                  Reconnects(r.trace) == MaxRetries && Sleeps(r.trace) == [2, 4, 6])
  {
    var r := Run(path, value, mode, script);
    RunAttempts(path, value, mode, script, 0, None);
    RunSleeps(path, value, mode, script, 0, None);
    if r.outcome == Returned {
      RunReturned(path, value, mode, script, 0, None);
    }
    if r.outcome.Threw? && r.outcome.exception.KeeperException? {
      RunExhausted(path, value, mode, script, 0, None);
      assert Schedule(0, 3) == [2] + Schedule(1, 2);
      assert Schedule(1, 2) == [4] + Schedule(2, 1);
      assert Schedule(2, 1) == [6];
    }
  }

  lemma Regroup(a: seq<Event>, b: seq<Event>, c: seq<Event>)
    ensures a + (b + c) == (a + b) + c
  {
  }

  // ---------------------------------------------------------------------------
  // Reading a trace
  // ---------------------------------------------------------------------------

  /** The number of events of `t` satisfying `kind`. */
  function Attempts(t: seq<Event>): nat
    decreases |t|
  {
    if |t| == 0 then 0 else (if t[0].Exists? then 1 else 0) + Attempts(t[1..])
  }

  function Reconnects(t: seq<Event>): nat
    decreases |t|
  {
    if |t| == 0 then 0 else (if t[0].Reconnect? then 1 else 0) + Reconnects(t[1..])
  }

  /** The sleep durations, in order. */
  function Sleeps(t: seq<Event>): seq<nat>
    decreases |t|
  {
    if |t| == 0 then [] else (if t[0].Sleep? then [t[0].seconds] else []) + Sleeps(t[1..])
  }

  /** The backoff after failures `k + 1` to `k + n`: `2 * (k + 1)`, ..., `2 * (k + n)`
      seconds. */
  function Schedule(k: nat, n: nat): seq<nat>
    decreases n
  {
    if n == 0 then [] else [Backoff(k + 1)] + Schedule(k + 1, n - 1)
  }

  /** The `i`-th sleep of a schedule that starts after failure `k` lasts
      `2 * (k + i + 1)` seconds. */
  lemma {:induction false} ScheduleMeaning(k: nat, n: nat)
    ensures |Schedule(k, n)| == n
    ensures forall i :: 0 <= i < n ==> Schedule(k, n)[i] == Backoff(k + i + 1)
    decreases n
  {
    if n > 0 {
      ScheduleMeaning(k + 1, n - 1);
    }
  }

  lemma CountsAdd(a: seq<Event>, b: seq<Event>)
    ensures Attempts(a + b) == Attempts(a) + Attempts(b)
    ensures Reconnects(a + b) == Reconnects(a) + Reconnects(b)
    ensures Sleeps(a + b) == Sleeps(a) + Sleeps(b)
  {
    AttemptsAdd(a, b);
    ReconnectsAdd(a, b);
    SleepsAdd(a, b);
  }

  lemma {:induction false} AttemptsAdd(a: seq<Event>, b: seq<Event>)
    ensures Attempts(a + b) == Attempts(a) + Attempts(b)
    decreases |a|
  {
    if |a| == 0 {
      assert a + b == b;
    } else {
      assert (a + b)[0] == a[0];
      assert (a + b)[1..] == a[1..] + b;
      AttemptsAdd(a[1..], b);
    }
  }

  lemma {:induction false} ReconnectsAdd(a: seq<Event>, b: seq<Event>)
    ensures Reconnects(a + b) == Reconnects(a) + Reconnects(b)
    decreases |a|
  {
    if |a| == 0 {
      assert a + b == b;
    } else {
      assert (a + b)[0] == a[0];
      assert (a + b)[1..] == a[1..] + b;
      ReconnectsAdd(a[1..], b);
    }
  }

  lemma {:induction false} SleepsAdd(a: seq<Event>, b: seq<Event>)
    ensures Sleeps(a + b) == Sleeps(a) + Sleeps(b)
    decreases |a|
  {
    if |a| == 0 {
      assert a + b == b;
    } else {
      assert (a + b)[0] == a[0];
      assert (a + b)[1..] == a[1..] + b;
      SleepsAdd(a[1..], b);
    }
  }

  /** The counts of a single event. */
  lemma CountsOfOne(e: Event)
    ensures Attempts([e]) == (if e.Exists? then 1 else 0)
    ensures Reconnects([e]) == (if e.Reconnect? then 1 else 0)
    ensures Sleeps([e]) == (if e.Sleep? then [e.seconds] else [])
  {
    assert [e][1..] == [];
  }

  /** What one attempt's `try` block contributes to the counts. */
  lemma TryBlockCounts(path: string, value: Option<string>, mode: CreateMode, a: Attempt)
    ensures Attempts(TryBlock(path, value, mode, a).0) == 1
    ensures Reconnects(TryBlock(path, value, mode, a).0) == 0
    ensures Sleeps(TryBlock(path, value, mode, a).0) == []
  {
    var calls := TryBlock(path, value, mode, a).0;
    CountsOfOne(calls[0]);
    if |calls| == 2 {
      CountsOfOne(calls[1]);
      assert calls == [calls[0]] + [calls[1]];
      CountsAdd([calls[0]], [calls[1]]);
    } else {
      assert calls == [calls[0]];
    }
  }

  /** What the reconnect and sleep after failure `number` contribute to the counts. */
  lemma BackoffCounts(number: nat)
    ensures Attempts([Reconnect, Sleep(Backoff(number))]) == 0
    ensures Reconnects([Reconnect, Sleep(Backoff(number))]) == 1
    ensures Sleeps([Reconnect, Sleep(Backoff(number))]) == [Backoff(number)]
  {
    var tail: seq<Event> := [Reconnect, Sleep(Backoff(number))];
    assert tail == [tail[0]] + [tail[1]];
    CountsOfOne(tail[0]);
    CountsOfOne(tail[1]);
    CountsAdd([tail[0]], [tail[1]]);
  }

  /** What one attempt contributes to the counts: one `exists`, and a reconnect with
      its sleep exactly when it failed with a `KeeperException`. */
  lemma StepCounts(path: string, value: Option<string>, mode: CreateMode, a: Attempt, number: nat)
    requires number > 0
    ensures Attempts(AttemptStep(path, value, mode, a, number).events) == 1
    ensures Reconnects(AttemptStep(path, value, mode, a, number).events) <= 1
    ensures Sleeps(AttemptStep(path, value, mode, a, number).events)
            == Schedule(number - 1, Reconnects(AttemptStep(path, value, mode, a, number).events))
    ensures AttemptStep(path, value, mode, a, number).end.Retries? ==>
              Reconnects(AttemptStep(path, value, mode, a, number).events) == 1
    ensures AttemptStep(path, value, mode, a, number).end.Succeeded? ==>
              Reconnects(AttemptStep(path, value, mode, a, number).events) == 0
  {
    var calls := TryBlock(path, value, mode, a).0;
    TryBlockCounts(path, value, mode, a);
    BackoffCounts(number);
    CountsAdd(calls, [Reconnect, Sleep(Backoff(number))]);
  }

  /** One step of the reference run: attempt `k + 1` and, when it asks for a retry, the
      rest of the run after it. */
  lemma RunStep(path: string, value: Option<string>, mode: CreateMode,
                script: seq<Attempt>, k: nat, last: Option<Exception>)
    requires k < MaxRetries <= |script|
    ensures var s := AttemptStep(path, value, mode, script[k], k + 1);
            RunFrom(path, value, mode, script, k, last) ==
              if s.end.Retries? then
                Continued(s.events, RunFrom(path, value, mode, script, k + 1, Some(s.end.exception)))
              else
                Execution(s.events, if s.end.Succeeded? then Returned else Threw(s.end.exception))
  {
  }

  /** At most `MAX_RETRIES` attempts are made. */
  lemma {:induction false} RunAttempts(path: string, value: Option<string>, mode: CreateMode,
                                       script: seq<Attempt>, k: nat, last: Option<Exception>)
    requires k <= MaxRetries <= |script|
    ensures Attempts(RunFrom(path, value, mode, script, k, last).trace) <= MaxRetries - k
    decreases MaxRetries - k
  {
    if k < MaxRetries {
      var s := AttemptStep(path, value, mode, script[k], k + 1);
      RunStep(path, value, mode, script, k, last);
      StepCounts(path, value, mode, script[k], k + 1);
      if s.end.Retries? {
        var rest := RunFrom(path, value, mode, script, k + 1, Some(s.end.exception));
        RunAttempts(path, value, mode, script, k + 1, Some(s.end.exception));
        AttemptsAdd(s.events, rest.trace);
      }
    }
  }

  /** The `i`-th failure is followed by a sleep of `2 * i` seconds, and the sleeps are
      the only ones. */
  lemma {:induction false} RunSleeps(path: string, value: Option<string>, mode: CreateMode,
                                     script: seq<Attempt>, k: nat, last: Option<Exception>)
    requires k <= MaxRetries <= |script|
    ensures var t := RunFrom(path, value, mode, script, k, last).trace;
            Sleeps(t) == Schedule(k, Reconnects(t))
    decreases MaxRetries - k
  {
    if k < MaxRetries {
      var s := AttemptStep(path, value, mode, script[k], k + 1);
      RunStep(path, value, mode, script, k, last);
      StepCounts(path, value, mode, script[k], k + 1);
      if s.end.Retries? {
        var rest := RunFrom(path, value, mode, script, k + 1, Some(s.end.exception));
        RunSleeps(path, value, mode, script, k + 1, Some(s.end.exception));
        SleepsContinue(s.events, rest, k);
      }
    }
  }

  /** A failed attempt's one sleep followed by a schedule from the next failure on is the
      schedule from this failure on. */
  lemma SleepsContinue(events: seq<Event>, rest: Execution, k: nat)
    requires Reconnects(events) == 1 && Sleeps(events) == Schedule(k, 1)
    requires Sleeps(rest.trace) == Schedule(k + 1, Reconnects(rest.trace))
    ensures Sleeps(Continued(events, rest).trace)
            == Schedule(k, Reconnects(Continued(events, rest).trace))
  {
    ReconnectsAdd(events, rest.trace);
    SleepsAdd(events, rest.trace);
    assert Schedule(k, 1) == [Backoff(k + 1)] + Schedule(k + 1, 0);
  }

  /** A successful attempt ends the run: every attempt before it, and none after it,
      was followed by a reconnect. */
  lemma {:induction false} RunReturned(path: string, value: Option<string>, mode: CreateMode,
                                       script: seq<Attempt>, k: nat, last: Option<Exception>)
    requires k <= MaxRetries <= |script|
    requires RunFrom(path, value, mode, script, k, last).outcome == Returned
    ensures var t := RunFrom(path, value, mode, script, k, last).trace;
            Reconnects(t) + 1 == Attempts(t)
    decreases MaxRetries - k
  {
    var s := AttemptStep(path, value, mode, script[k], k + 1);
    RunStep(path, value, mode, script, k, last);
    StepCounts(path, value, mode, script[k], k + 1);
    if s.end.Retries? {
      var rest := RunFrom(path, value, mode, script, k + 1, Some(s.end.exception));
      RunReturned(path, value, mode, script, k + 1, Some(s.end.exception));
      CountsAdd(s.events, rest.trace);
    }
  }

  /** A `KeeperException` leaves the method only after every remaining attempt failed,
      each followed by a reconnect. */
  lemma {:induction false} RunExhausted(path: string, value: Option<string>, mode: CreateMode,
                                        script: seq<Attempt>, k: nat, last: Option<Exception>)
    requires k <= MaxRetries <= |script|
    requires RunFrom(path, value, mode, script, k, last).outcome.Threw?
    requires RunFrom(path, value, mode, script, k, last).outcome.exception.KeeperException?
    ensures Reconnects(RunFrom(path, value, mode, script, k, last).trace) == MaxRetries - k
    decreases MaxRetries - k
  {
    if k < MaxRetries {
      var s := AttemptStep(path, value, mode, script[k], k + 1);
      RunStep(path, value, mode, script, k, last);
      StepCounts(path, value, mode, script[k], k + 1);
      if s.end.Retries? {
        var rest := RunFrom(path, value, mode, script, k + 1, Some(s.end.exception));
        RunExhausted(path, value, mode, script, k + 1, Some(s.end.exception));
        ReconnectsAdd(s.events, rest.trace);
      }
    }
  }

  // ---------------------------------------------------------------------------
  // How a run ends
  // ---------------------------------------------------------------------------

  /** Attempt `a` fails with a `KeeperException` and its sleep is not interrupted. */
  predicate Retried(path: string, value: Option<string>, mode: CreateMode, a: Attempt) {
    var thrown := TryBlock(path, value, mode, a).1;
    thrown.Some? && thrown.value.KeeperException? && !a.sleepInterrupted
  }

  /** The first attempt that succeeds ends the method: nothing after its write. */
  lemma FirstSuccessReturns(path: string, value: Option<string>, mode: CreateMode,
                            script: seq<Attempt>)
    requires |script| >= MaxRetries
    requires TryBlock(path, value, mode, script[0]).1 == None
    ensures Run(path, value, mode, script)
            == Execution(TryBlock(path, value, mode, script[0]).0, Returned)
  {
    RunStep(path, value, mode, script, 0, None);
  }

  /** An exception other than `KeeperException` leaves the method at once, without a
      reconnect or a sleep. */
  lemma OtherExceptionPropagates(path: string, value: Option<string>, mode: CreateMode,
                                 script: seq<Attempt>, e: Exception)
    requires |script| >= MaxRetries
    requires TryBlock(path, value, mode, script[0]).1 == Some(e) && !e.KeeperException?
    ensures Run(path, value, mode, script)
            == Execution(TryBlock(path, value, mode, script[0]).0, Threw(e))
  {
    RunStep(path, value, mode, script, 0, None);
  }

  /** An interrupted sleep ends the method with the `InterruptedException`, right after
      the reconnect and the sleep. */
  lemma InterruptedSleepPropagates(path: string, value: Option<string>, mode: CreateMode,
                                   script: seq<Attempt>)
    requires |script| >= MaxRetries
    requires TryBlock(path, value, mode, script[0]).1.Some?
    requires TryBlock(path, value, mode, script[0]).1.value.KeeperException?
    requires script[0].sleepInterrupted
    ensures Run(path, value, mode, script)
            == Execution(TryBlock(path, value, mode, script[0]).0 + [Reconnect, Sleep(2)],
                         Threw(InterruptedException))
  {
    RunStep(path, value, mode, script, 0, None);
  }

  /** When all three attempts fail with a `KeeperException`, the method makes three
      attempts, reconnects three times, sleeps 2, 4 and 6 seconds and throws the last
      attempt's exception. */
  lemma ExhaustedThrowsLast(path: string, value: Option<string>, mode: CreateMode,
                            script: seq<Attempt>)
    requires |script| >= MaxRetries
    requires Retried(path, value, mode, script[0]) && Retried(path, value, mode, script[1])
    requires Retried(path, value, mode, script[2])
    ensures Run(path, value, mode, script).outcome
            == Threw(TryBlock(path, value, mode, script[2]).1.value)
    ensures Attempts(Run(path, value, mode, script).trace) == 3
    ensures Reconnects(Run(path, value, mode, script).trace) == 3
    ensures Sleeps(Run(path, value, mode, script).trace) == [2, 4, 6]
  {
    var e0 := TryBlock(path, value, mode, script[0]).1;
    var e1 := TryBlock(path, value, mode, script[1]).1;
    var e2 := TryBlock(path, value, mode, script[2]).1;
    RunStep(path, value, mode, script, 0, None);
    RunStep(path, value, mode, script, 1, e0);
    RunStep(path, value, mode, script, 2, e1);
    var r0 := RunFrom(path, value, mode, script, 0, None);
    var r1 := RunFrom(path, value, mode, script, 1, e0);
    var r2 := RunFrom(path, value, mode, script, 2, e1);
    var r3 := RunFrom(path, value, mode, script, 3, e2);
    assert r3 == Execution([], Threw(e2.value));
    assert r2.outcome == r3.outcome && r1.outcome == r2.outcome && r0.outcome == r1.outcome;
    RunFacts(path, value, mode, script);
    RunAttemptsExactly(path, value, mode, script);
  }

  /** With three `KeeperException` failures there are exactly three attempts. */
  lemma RunAttemptsExactly(path: string, value: Option<string>, mode: CreateMode,
                           script: seq<Attempt>)
    requires |script| >= MaxRetries
    requires Retried(path, value, mode, script[0]) && Retried(path, value, mode, script[1])
    requires Retried(path, value, mode, script[2])
    ensures Attempts(Run(path, value, mode, script).trace) == 3
  {
    var e0 := TryBlock(path, value, mode, script[0]).1;
    var e1 := TryBlock(path, value, mode, script[1]).1;
    var e2 := TryBlock(path, value, mode, script[2]).1;
    RunStep(path, value, mode, script, 0, None);
    RunStep(path, value, mode, script, 1, e0);
    RunStep(path, value, mode, script, 2, e1);
    var s0 := AttemptStep(path, value, mode, script[0], 1);
    var s1 := AttemptStep(path, value, mode, script[1], 2);
    var s2 := AttemptStep(path, value, mode, script[2], 3);
    StepCounts(path, value, mode, script[0], 1);
    StepCounts(path, value, mode, script[1], 2);
    StepCounts(path, value, mode, script[2], 3);
    assert s0.end.Retries? && s1.end.Retries? && s2.end.Retries?;
    var r2 := RunFrom(path, value, mode, script, 2, e1);
    var r1 := RunFrom(path, value, mode, script, 1, e0);
    assert r2.trace == s2.events + [];
    assert r1.trace == s1.events + r2.trace;
    assert Run(path, value, mode, script).trace == s0.events + r1.trace;
    AttemptsAdd(s2.events, []);
    AttemptsAdd(s1.events, r2.trace);
    AttemptsAdd(s0.events, r1.trace);
  }
}
