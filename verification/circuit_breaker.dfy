/** The circuit breaker that guards every call to the statistics store.

    The breaker is an immutable value; each call is a pure transition that takes
    the clock `now` explicitly. What the protected operation, the fallback and
    the health probe answer depends on the outside world, so a call receives
    those answers as parameters. A call made while the circuit is open never
    looks at the operation's answer: that is how "the operation is not invoked"
    reads in this model (see `OpenIgnoresOperation`). A timed-out operation is
    one more `Err` answer. */
module CircuitBreaker {
  import opened Wrappers

  /** The clock and all durations count nanoseconds, as Go's `time.Duration`. */
  const Second: int := 1_000_000_000

  /** Go stores the state as a plain integer; `Unknown` stands for every value
      other than the three named ones. No transition ever produces it. */
  datatype State = Closed | Open | HalfOpen | Unknown

  /** The name under which a state is logged and reported. */
  function StateName(s: State): (name: string)
    ensures name == "unknown" <==> s.Unknown?
    ensures s.Closed? <==> name == "closed"
    ensures s.Open? <==> name == "open"
    ensures s.HalfOpen? <==> name == "half-open"
  {
    match s
    case Closed => "closed"
    case Open => "open"
    case HalfOpen => "half-open"
    case Unknown => "unknown"
  }

  datatype Config = Config(
    failureThreshold: int,  // consecutive failures that open the circuit
    recoveryTimeout: int,   // minimum time spent Open before a recovery attempt
    successThreshold: int,  // successes in HalfOpen that close the circuit
    timeout: int)           // deadline of one protected operation

  /** Five failures open the circuit, recovery is tried after 30 seconds,
      three successes close it, and each operation gets five seconds. */
  function DefaultConfig(): (c: Config)
    ensures c.failureThreshold > 0 && c.successThreshold > 0
    ensures c.recoveryTimeout > c.timeout > 0
  {
    Config(5, 30 * Second, 3, 5 * Second)
  }

  datatype Breaker = Breaker(
    config: Config,
    state: State,
    failures: int,
    successes: int,
    lastFailTime: int)

  /** What the optional hooks answer at the moment of one call: the outcome of
      the fallback and whether the health probe passes, or `None` for a hook
      that was never set. */
  datatype Hooks<+F, +E> = Hooks(fallback: Option<Outcome<F, E>>, probe: Option<bool>)

  /** The breaker's error values. `OpenWithFallback` is the sentinel returned
      next to a fallback result; the breaker itself delivers it only inside a
      `Degraded` response, and callers turn it into an error of their own.
      `OperationFailed` carries the protected operation's own error unchanged. */
  datatype BreakerError<+E> =
    | CircuitOpen
    | OpenWithFallback
    | Transitioning
    | FallbackFailed(cause: E)
    | OperationFailed(cause: E)
    | UnknownState

  /** The Go pair `(result, err)` returned by a call: the operation's result with
      no error, the fallback's result with the fallback sentinel, or an error. */
  datatype Response<+T, +F, +E> =
    | Success(value: T)
    | Degraded(fallback: F)
    | Failure(error: BreakerError<E>)

  datatype Step<+T, +F, +E> = Step(breaker: Breaker, response: Response<T, F, E>)

  datatype Stats = Stats(state: State, failures: int, successes: int, lastFailTime: int)

  /** The invariant of every breaker a program can reach: a named state,
      counters that never go negative, and an open circuit only once the
      failure count has reached the threshold. */
  predicate Inv(b: Breaker) {
    && b.state != Unknown
    && b.failures >= 0
    && b.successes >= 0
    && (b.state == Open ==> b.failures >= b.config.failureThreshold)
  }

  /** The only state changes a call can make. There is no edge from Closed to
      HalfOpen and none from Open to Closed. */
  predicate Edge(from: State, to: State) {
    || from == to
    || (from == Closed && to == Open)
    || (from == Open && to == HalfOpen)
    || (from == HalfOpen && (to == Open || to == Closed))
  }

  function NewBreaker(config: Config): (b: Breaker)
    ensures b.state == Closed && b.failures == 0 && b.successes == 0
    ensures b.config == config
    ensures Inv(b)
  {
    Breaker(config, Closed, 0, 0, 0)
  }

  /** A failed operation: one more failure, no success streak, the failure time
      is now, and the circuit opens once the failures reach the threshold. */
  function RecordFailure(b: Breaker, now: int): (b': Breaker)
    ensures b'.config == b.config
    ensures b'.failures == b.failures + 1 && b'.successes == 0 && b'.lastFailTime == now
    ensures b'.state == Open <==> b.state == Open || b'.failures >= b.config.failureThreshold
    ensures b'.state != Open ==> b'.state == b.state
  {
    var failures := b.failures + 1;
    b.(failures := failures,
       successes := 0,
       lastFailTime := now,
       state := if failures >= b.config.failureThreshold then Open else b.state)
  }

  /** A successful operation: the failure streak ends and the success count
      grows; the state is left to the caller. */
  function RecordSuccess(b: Breaker): (b': Breaker)
    ensures b'.failures == 0 && b'.successes == b.successes + 1
    ensures b'.state == b.state && b'.lastFailTime == b.lastFailTime && b'.config == b.config
  {
    b.(successes := b.successes + 1, failures := 0)
  }

  function TransitionToHalfOpen(b: Breaker): (b': Breaker)
    ensures b'.state == HalfOpen && b'.successes == 0
    ensures b'.failures == b.failures && b'.lastFailTime == b.lastFailTime && b'.config == b.config
  {
    b.(state := HalfOpen, successes := 0)
  }

  function TransitionToClosed(b: Breaker): (b': Breaker)
    ensures b'.state == Closed && b'.failures == 0 && b'.successes == 0
    ensures b'.lastFailTime == b.lastFailTime && b'.config == b.config
  {
    b.(state := Closed, failures := 0, successes := 0)
  }

  /** What an open circuit answers without trying recovery: the fallback's
      result with the sentinel, the wrapped fallback error, or "circuit open"
      when no fallback is set. It never answers with a success. */
  function FallbackResponse<T, F, E>(fallback: Option<Outcome<F, E>>): (r: Response<T, F, E>)
    ensures !r.Success?
    ensures r.Degraded? <==> fallback.Some? && fallback.value.Ok?
    ensures r.Degraded? ==> r.fallback == fallback.value.value
    ensures r == Failure(CircuitOpen) <==> fallback.None?
    ensures r.Failure? && r.error.FallbackFailed? <==> fallback.Some? && fallback.value.Err?
    ensures r.Failure? && r.error.FallbackFailed? ==> r.error.cause == fallback.value.error
  {
    match fallback
    case None => Failure(CircuitOpen)
    case Some(Ok(v)) => Degraded(v)
    case Some(Err(e)) => Failure(FallbackFailed(e))
  }

  /** A closed circuit runs the operation. A success ends the failure streak
      and answers the operation's result; a failure is counted, stamped with
      the current time and returned unchanged, and opens the circuit once the
      streak reaches the threshold. */
  function CallClosed<T, F, E>(b: Breaker, now: int, op: Outcome<T, E>): (s: Step<T, F, E>)
    requires b.state == Closed
    ensures s.breaker.config == b.config
    ensures op.Ok? ==> && s.response == Success(op.value)
                       && s.breaker.state == Closed
                       && s.breaker.failures == 0 && s.breaker.successes == b.successes + 1
                       && s.breaker.lastFailTime == b.lastFailTime
    ensures op.Err? ==> && s.response == Failure(OperationFailed(op.error))
                        && s.breaker.failures == b.failures + 1 && s.breaker.successes == 0
                        && s.breaker.lastFailTime == now
                        && (s.breaker.state == Open <==> b.failures + 1 >= b.config.failureThreshold)
                        && (s.breaker.state != Open ==> s.breaker.state == Closed)
  {
    match op
    case Err(e) => Step(RecordFailure(b, now), Failure(OperationFailed(e)))
    case Ok(v) => Step(RecordSuccess(b), Success(v))
  }

  /** An open circuit never runs the operation. Once the recovery timeout has
      elapsed it moves to HalfOpen whatever the probe says; a passing probe
      makes this call answer "transitioning", otherwise the call is served as if
      the circuit were still open. */
  function CallOpen<T, F, E>(b: Breaker, now: int, hooks: Hooks<F, E>): (s: Step<T, F, E>)
    requires b.state == Open
    ensures !s.response.Success?
    ensures s.breaker.config == b.config
    ensures s.breaker.failures == b.failures && s.breaker.lastFailTime == b.lastFailTime
    ensures now - b.lastFailTime < b.config.recoveryTimeout ==>
              s.breaker == b && s.response == FallbackResponse(hooks.fallback)
    ensures now - b.lastFailTime >= b.config.recoveryTimeout ==>
              && s.breaker.state == HalfOpen && s.breaker.successes == 0
              && (hooks.probe == Some(true) ==> s.response == Failure(Transitioning))
              && (hooks.probe != Some(true) ==> s.response == FallbackResponse(hooks.fallback))
  {
    if now - b.lastFailTime >= b.config.recoveryTimeout then
      var halfOpen := TransitionToHalfOpen(b);
      if hooks.probe == Some(true) then Step(halfOpen, Failure(Transitioning))
      else Step(halfOpen, FallbackResponse(hooks.fallback))
    else
      Step(b, FallbackResponse(hooks.fallback))
  }

  /** A half-open circuit runs the operation. A failure is counted as in the
      closed state, so it reopens the circuit only at the failure threshold; a
      success is counted and, once the successes reach their threshold, closes
      the circuit with both counters cleared. */
  function CallHalfOpen<T, F, E>(b: Breaker, now: int, op: Outcome<T, E>): (s: Step<T, F, E>)
    requires b.state == HalfOpen
    ensures s.breaker.config == b.config
    ensures op.Ok? ==> && s.response == Success(op.value)
                       && s.breaker.failures == 0
                       && s.breaker.lastFailTime == b.lastFailTime
                       && (s.breaker.state == Closed <==> b.successes + 1 >= b.config.successThreshold)
                       && (s.breaker.state == Closed ==> s.breaker.successes == 0)
                       && (s.breaker.state != Closed ==>
                             s.breaker.state == HalfOpen && s.breaker.successes == b.successes + 1)
    ensures op.Err? ==> && s.response == Failure(OperationFailed(op.error))
                        && s.breaker.failures == b.failures + 1 && s.breaker.successes == 0
                        && s.breaker.lastFailTime == now
                        && (s.breaker.state == Open <==> b.failures + 1 >= b.config.failureThreshold)
                        && (s.breaker.state != Open ==> s.breaker.state == HalfOpen)
  {
    match op
    case Err(e) => Step(RecordFailure(b, now), Failure(OperationFailed(e)))
    case Ok(v) =>
      var counted := RecordSuccess(b);
      if counted.successes >= counted.config.successThreshold then
        Step(TransitionToClosed(counted), Success(v))
      else
        Step(counted, Success(v))
  }

  /** One protected call at time `now`, where `op` is what the operation would
      answer and `hooks` what the fallback and probe would answer. */
  function Call<T, F, E>(b: Breaker, now: int, hooks: Hooks<F, E>, op: Outcome<T, E>): (s: Step<T, F, E>)
    ensures Inv(b) ==> Inv(s.breaker)
    ensures Edge(b.state, s.breaker.state)
    ensures s.breaker.config == b.config
    ensures s.response.Success? ==> op == Ok(s.response.value)
    ensures s.response.Failure? ==> !s.response.error.OpenWithFallback?
    ensures op.Err? && (b.state == Closed || b.state == HalfOpen) ==>
              s.response == Failure(OperationFailed(op.error)) && s.breaker == RecordFailure(b, now)
    ensures op.Ok? && b.state == Closed ==> s.response == Success(op.value) && s.breaker == RecordSuccess(b)
    ensures op.Ok? && b.state == HalfOpen ==>
              && s.response == Success(op.value)
              && (b.successes + 1 >= b.config.successThreshold ==> s.breaker == TransitionToClosed(RecordSuccess(b)))
              && (b.successes + 1 < b.config.successThreshold ==> s.breaker == RecordSuccess(b))
    ensures b.state == Unknown ==> s == Step(b, Failure(UnknownState))
  {
    match b.state
    case Closed => CallClosed(b, now, op)
    case Open => CallOpen(b, now, hooks)
    case HalfOpen => CallHalfOpen(b, now, op)
    case Unknown => Step(b, Failure(UnknownState))
  }

  /** A snapshot of the state and counters; taking it changes nothing. */
  function GetStats(b: Breaker): (st: Stats)
    ensures st.state == b.state && st.failures == b.failures
    ensures st.successes == b.successes && st.lastFailTime == b.lastFailTime
  {
    Stats(b.state, b.failures, b.successes, b.lastFailTime)
  }

  /** The breaker after a sequence of calls made at the same instant, in order. */
  function Run<T, F, E>(b: Breaker, now: int, hooks: Hooks<F, E>, ops: seq<Outcome<T, E>>): Breaker
    decreases |ops|
  {
    if |ops| == 0 then b
    else Call(Run(b, now, hooks, ops[..|ops| - 1]), now, hooks, ops[|ops| - 1]).breaker
  }

  // ----- Properties -----------------------------------------------------------

  /** Every state name is distinct. */
  lemma StateNamesDistinct(s: State, t: State)
    ensures StateName(s) == StateName(t) ==> s == t
  {
  }

  /** While Open, the answer does not depend on the operation at all. */
  lemma OpenIgnoresOperation<T, F, E>(b: Breaker, now: int, hooks: Hooks<F, E>, op1: Outcome<T, E>, op2: Outcome<T, E>)
    requires b.state == Open
    ensures Call(b, now, hooks, op1) == Call(b, now, hooks, op2)
  {
  }

  /** Before the recovery timeout the circuit stays Open, nothing changes, and
      the answer is the fallback's result, the wrapped fallback error, or
      "circuit open" when there is no fallback. */
  lemma OpenBeforeRecovery<T, F, E>(b: Breaker, now: int, hooks: Hooks<F, E>, op: Outcome<T, E>)
    requires b.state == Open && now - b.lastFailTime < b.config.recoveryTimeout
    ensures var s := Call(b, now, hooks, op);
      && s.breaker == b
      && (hooks.fallback.None? ==> s.response == Failure(CircuitOpen))
      && (hooks.fallback.Some? && hooks.fallback.value.Ok? ==>
            s.response == Degraded(hooks.fallback.value.value))
      && (hooks.fallback.Some? && hooks.fallback.value.Err? ==>
            s.response == Failure(FallbackFailed(hooks.fallback.value.error)))
  {
  }

  /** Once the recovery timeout has elapsed, an Open circuit becomes HalfOpen
      with no successes and its failure count untouched, whatever the probe
      says; the call answers "transitioning" exactly when a probe is set and
      passes. */
  lemma OpenRecovery<T, F, E>(b: Breaker, now: int, hooks: Hooks<F, E>, op: Outcome<T, E>)
    requires b.state == Open && now - b.lastFailTime >= b.config.recoveryTimeout
    ensures var s := Call(b, now, hooks, op);
      && s.breaker.state == HalfOpen
      && s.breaker.successes == 0
      && s.breaker.failures == b.failures
      && s.breaker.lastFailTime == b.lastFailTime
      && (s.response == Failure(Transitioning) <==> hooks.probe == Some(true))
      && (hooks.probe != Some(true) ==> s.response == FallbackResponse(hooks.fallback))
  {
  }

  /** Since an Open circuit holds at least the threshold of failures and
      entering HalfOpen keeps them, the first failure after entering HalfOpen
      reopens the circuit. */
  lemma FirstHalfOpenFailureReopens<T, F, E>(b: Breaker, now: int, hooks: Hooks<F, E>, op: Outcome<T, E>,
                                             later: int, hooks': Hooks<F, E>, e: E)
    requires Inv(b) && b.state == Open
    requires now - b.lastFailTime >= b.config.recoveryTimeout
    ensures var h := Call(b, now, hooks, op).breaker;
      && h.state == HalfOpen
      && Call<T, F, E>(h, later, hooks', Err(e)).breaker.state == Open
  {
    var h := Call(b, now, hooks, op).breaker;
    assert h.failures >= b.config.failureThreshold;
  }

  /** A HalfOpen failure does not reopen unconditionally: after one success
      the failure count is back to zero, so with the default threshold a
      following failure leaves the circuit HalfOpen. */
  lemma HalfOpenFailureAfterSuccessStaysHalfOpen<E>(e: E)
    ensures var b := Breaker(DefaultConfig(), HalfOpen, 0, 1, 0);
      Call<int, int, E>(b, 7, Hooks(None, None), Err(e)).breaker.state == HalfOpen
  {
  }

  /** From a Closed breaker with no recorded failures, consecutive failing calls
      open the circuit after exactly `failureThreshold` of them and never
      earlier. */
  lemma {:induction false} OpensAtThreshold<T, F, E>(b: Breaker, now: int, hooks: Hooks<F, E>, ops: seq<Outcome<T, E>>)
    requires b.state == Closed && b.failures == 0
    requires forall i :: 0 <= i < |ops| ==> ops[i].Err?
    requires |ops| <= b.config.failureThreshold
    ensures var r := Run(b, now, hooks, ops);
      && r.failures == |ops|
      && r.config == b.config
      && (r.state == Open <==> |ops| > 0 && |ops| == b.config.failureThreshold)
      && (r.state != Open ==> r.state == Closed)
      && (|ops| > 0 ==> r.successes == 0 && r.lastFailTime == now)
  {
    if |ops| > 0 {
      var prefix := ops[..|ops| - 1];
      assert forall i :: 0 <= i < |prefix| ==> prefix[i].Err? by {
        forall i | 0 <= i < |prefix| ensures prefix[i].Err? {
          assert prefix[i] == ops[i];
        }
      }
      OpensAtThreshold(b, now, hooks, prefix);
      var p := Run(b, now, hooks, prefix);
      assert p.state == Closed;
    }
  }

  /** From HalfOpen with no successes yet, consecutive successful calls close
      the circuit after exactly `successThreshold` of them, resetting both
      counters; before that the circuit stays HalfOpen with the success count
      equal to the number of calls. */
  lemma {:induction false} ClosesAtSuccessThreshold<T, F, E>(b: Breaker, now: int, hooks: Hooks<F, E>, ops: seq<Outcome<T, E>>)
    requires b.state == HalfOpen && b.successes == 0
    requires forall i :: 0 <= i < |ops| ==> ops[i].Ok?
    requires |ops| <= b.config.successThreshold
    ensures var r := Run(b, now, hooks, ops);
      && r.config == b.config
      && (r.state == Closed <==> |ops| > 0 && |ops| == b.config.successThreshold)
      && (r.state == Closed ==> r.failures == 0 && r.successes == 0)
      && (r.state != Closed ==> r.state == HalfOpen && r.successes == |ops|)
      && (|ops| > 0 ==> r.failures == 0)
  {
    if |ops| > 0 {
      var prefix := ops[..|ops| - 1];
      assert forall i :: 0 <= i < |prefix| ==> prefix[i].Ok? by {
        forall i | 0 <= i < |prefix| ensures prefix[i].Ok? {
          assert prefix[i] == ops[i];
        }
      }
      ClosesAtSuccessThreshold(b, now, hooks, prefix);
      var p := Run(b, now, hooks, prefix);
      assert p.state == HalfOpen && p.successes == |prefix|;
    }
  }

  /** With the default configuration, five failing calls open a new breaker and
      four do not; a sixth call with no fallback answers "circuit open". */
  lemma DefaultOpensAfterFiveFailures<T, E>(now: int, e: E, op: Outcome<T, E>)
    ensures var fail: Outcome<T, E> := Err(e);
      && Run<T, int, E>(NewBreaker(DefaultConfig()), now, Hooks(None, None), [fail, fail, fail, fail]).state == Closed
      && var b5 := Run<T, int, E>(NewBreaker(DefaultConfig()), now, Hooks(None, None), [fail, fail, fail, fail, fail]);
      && b5.state == Open
      && Call<T, int, E>(b5, now, Hooks(None, None), op).response == Failure(CircuitOpen)
  {
    var fail: Outcome<T, E> := Err(e);
    var b := NewBreaker(DefaultConfig());
    var hooks: Hooks<int, E> := Hooks(None, None);
    OpensAtThreshold(b, now, hooks, [fail, fail, fail, fail]);
    OpensAtThreshold(b, now, hooks, [fail, fail, fail, fail, fail]);
  }
}
