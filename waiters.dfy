/** The retry policies of elementium/waiters.py.

    A waiter is configured with a retry count `n` or a time budget `ttl`
    (never both) and a first pause. Its `wait` loops call an operation, sleep
    and double the pause between attempts, and give up once both the count and
    the deadline are spent.

    The operation, the clock and the bound collection are outside the library,
    so they are oracles here: `fn(k)` is what the k-th call of the operation
    does, `clock(k)` is the k-th reading of `time.time()`, and the bound
    collection is seen only through its truthiness and what its `update()`
    raises. Every sleep, call and update is recorded in a trace. */
module Waiters {
  import opened Errors
  import opened Traces
  import C = Classes

  const DefaultTtl: real := 20.0
  const DefaultPause: real := 0.25

  /** The budget fields every waiter has. */
  datatype Waiter = Waiter(n: int, ttl: real, pause: real)

  /** The budget the constructor admits: nothing negative, not both n and ttl. */
  predicate WellFormed(w: Waiter) {
    w.n >= 0 && w.ttl >= 0.0 && w.pause >= 0.0 && (w.n == 0 || w.ttl == 0.0)
  }

  /** A resolved budget `(n, ttl)`: nothing negative and exactly one set. */
  predicate ValidBudget(b: (int, real)) {
    b.0 >= 0 && b.1 >= 0.0 && ((b.0 != 0) != (b.1 != 0.0))
  }

  /** Python truthiness of an optional number. */
  predicate Truthy(x: Option<real>) {
    x.Some? && x.value != 0.0
  }

  /** Waiter.__init__: the budget checks, in the order the source makes them. */
  function NewWaiter(n: int, ttl: Option<real>, pause: real): (r: Outcome<Waiter>)
    ensures r.Ok? <==> (n == 0 || !Truthy(ttl)) && n >= 0 && ttl.GetOr(0.0) >= 0.0 && pause >= 0.0
    ensures r.Ok? ==> WellFormed(r.value) && r.value.n == n && r.value.pause == pause
    ensures r.Ok? ==> r.value.ttl == if Truthy(ttl) then ttl.value else 0.0
    ensures r.Raised? ==> r.exc.ValueError?
  {
    if n != 0 && Truthy(ttl) then Raised(ValueError("Cannot set both n and ttl"))
    else if n < 0 then Raised(ValueError("n cannot be negative"))
    else if Truthy(ttl) && ttl.value < 0.0 then Raised(ValueError("ttl cannot be negative"))
    else if pause != 0.0 && pause < 0.0 then Raised(ValueError("pause cannot be negative"))
    else Ok(Waiter(n, if Truthy(ttl) then ttl.value else 0.0, pause))
  }

  /** Waiter._check_args: resolve the `(n, ttl)` a call to `wait` runs with.
      `None` counts as 0; when neither is given the waiter's own fields are
      returned without being checked again. */
  function CheckArgs(w: Waiter, n: Option<int>, ttl: Option<real>): (r: Outcome<(int, real)>)
    ensures (n.GetOr(0) < 0 || ttl.GetOr(0.0) < 0.0 || (n.GetOr(0) != 0 && ttl.GetOr(0.0) != 0.0))
            ==> r.Raised? && r.exc.ValueError?
    ensures ValidBudget((n.GetOr(0), ttl.GetOr(0.0))) ==> r == Ok((n.GetOr(0), ttl.GetOr(0.0)))
    ensures n.GetOr(0) == 0 && ttl.GetOr(0.0) == 0.0 && (w.n != 0 || w.ttl != 0.0) ==> r == Ok((w.n, w.ttl))
    ensures n.GetOr(0) == 0 && ttl.GetOr(0.0) == 0.0 && w.n == 0 && w.ttl == 0.0 ==> r.Raised? && r.exc.ValueError?
    ensures WellFormed(w) && r.Ok? ==> ValidBudget(r.value)
  {
    if n.Some? && n.value < 0 then Raised(ValueError("n cannot be negative"))
    else
      var n' := n.GetOr(0);
      if ttl.Some? && ttl.value < 0.0 then Raised(ValueError("ttl cannot be negative"))
      else
        var ttl' := ttl.GetOr(0.0);
        if n' != 0 && ttl' != 0.0 then Raised(ValueError("Cannot set both n and ttl"))
        else if n' == 0 && ttl' == 0.0 then
          if w.n != 0 || w.ttl != 0.0 then Ok((w.n, w.ttl))
          else Raised(ValueError("Must set either n or ttl with value >= 0"))
        else Ok((n', ttl'))
  }

  /** The `exceptions` argument: `None`, a single class, or an iterable of classes. */
  datatype ExceptionSpec = NoneGiven | OneClass(c: ClassName) | ClassList(cs: seq<ClassName>)

  /** The exception checks of both exception waiters' constructors: a falsy
      argument is refused, a single class becomes a one-element tuple. */
  function NormaliseExceptions(x: ExceptionSpec): (r: Outcome<seq<ClassName>>)
    ensures r.Ok? <==> !x.NoneGiven? && x != ClassList([])
    ensures r.Raised? ==> r.exc.ValueError?
    ensures r.Ok? ==> |r.value| > 0
    ensures x.OneClass? ==> r == Ok([x.c])
    ensures x.ClassList? && x.cs != [] ==> r == Ok(x.cs)
  {
    match x
    case NoneGiven => Raised(ValueError("Must provide exceptions to retry on"))
    case OneClass(c) => Ok([c])
    case ClassList(cs) => if cs == [] then Raised(ValueError("Must provide exceptions to retry on")) else Ok(cs)
  }

  datatype ExceptionRetryWaiter = ExceptionRetryWaiter(budget: Waiter, exceptions: seq<ClassName>)

  datatype ExceptionRetryElementsWaiter<E> =
    ExceptionRetryElementsWaiter(budget: Waiter, elements: E, exceptions: seq<ClassName>)

  datatype ConditionElementsWaiter<E> = ConditionElementsWaiter(budget: Waiter, elements: E)

  /** ExceptionRetryWaiter.__init__: the base checks first, then the exceptions. */
  function NewExceptionRetryWaiter(exceptions: ExceptionSpec, n: int, ttl: Option<real>, pause: real)
    : (r: Outcome<ExceptionRetryWaiter>)
    ensures r.Ok? <==> NewWaiter(n, ttl, pause).Ok? && NormaliseExceptions(exceptions).Ok?
    ensures r.Ok? ==> r.value.budget == NewWaiter(n, ttl, pause).value
    ensures r.Ok? ==> r.value.exceptions == NormaliseExceptions(exceptions).value && |r.value.exceptions| > 0
    ensures r.Raised? ==> r.exc.ValueError?
  {
    match NewWaiter(n, ttl, pause)
    case Raised(e) => Raised(e)
    case Ok(w) =>
      match NormaliseExceptions(exceptions)
      case Raised(e) => Raised(e)
      case Ok(cs) => Ok(ExceptionRetryWaiter(w, cs))
  }

  /** ExceptionRetryElementsWaiter.__init__ (through ElementsWaiter.__init__). */
  function NewExceptionRetryElementsWaiter<E>(elements: E, exceptions: ExceptionSpec, n: int, ttl: Option<real>, pause: real)
    : (r: Outcome<ExceptionRetryElementsWaiter<E>>)
    ensures r.Ok? <==> NewWaiter(n, ttl, pause).Ok? && NormaliseExceptions(exceptions).Ok?
    ensures r.Ok? ==> r.value.budget == NewWaiter(n, ttl, pause).value && r.value.elements == elements
    ensures r.Ok? ==> r.value.exceptions == NormaliseExceptions(exceptions).value && |r.value.exceptions| > 0
  {
    match NewWaiter(n, ttl, pause)
    case Raised(e) => Raised(e)
    case Ok(w) =>
      match NormaliseExceptions(exceptions)
      case Raised(e) => Raised(e)
      case Ok(cs) => Ok(ExceptionRetryElementsWaiter(w, elements, cs))
  }

  /** ConditionElementsWaiter(elements, ...) runs ElementsWaiter.__init__ only. */
  function NewConditionElementsWaiter<E>(elements: E, n: int, ttl: Option<real>, pause: real)
    : (r: Outcome<ConditionElementsWaiter<E>>)
    ensures r.Ok? <==> NewWaiter(n, ttl, pause).Ok?
    ensures r.Ok? ==> r.value.budget == NewWaiter(n, ttl, pause).value && r.value.elements == elements
  {
    match NewWaiter(n, ttl, pause)
    case Raised(e) => Raised(e)
    case Ok(w) => Ok(ConditionElementsWaiter(w, elements))
  }

  /** With the default ttl of 20 seconds, asking an exception waiter for a
      retry count fails: the two budgets are both set. */
  lemma CountNeedsExplicitTtl(exceptions: ExceptionSpec, k: int)
    requires k > 0
    ensures NewExceptionRetryWaiter(exceptions, k, Some(DefaultTtl), DefaultPause).Raised?
    ensures NewExceptionRetryWaiter(exceptions, k, Some(DefaultTtl), DefaultPause).exc.ValueError?
  {
  }

  // ---------------------------------------------------------------------
  // The backoff rule and the clock

  /** The pause rule of all three loops: `min(pause + pause, pause * 4)`. */
  function Backoff(p: real): real {
    Min(p + p, p * 4.0)
  }

  /** The cap never applies to a pause the constructor admits: it doubles. */
  lemma BackoffDoubles(p: real)
    requires p >= 0.0
    ensures Backoff(p) == 2.0 * p
  {
  }

  /** `pause` doubled `j` times. */
  function Doubled(pause: real, j: nat): real {
    if j == 0 then pause else 2.0 * Doubled(pause, j - 1)
  }

  function Pow2(j: nat): real {
    if j == 0 then 1.0 else 2.0 * Pow2(j - 1)
  }

  lemma {:induction false} DoubledIsPow2(pause: real, j: nat)
    ensures Doubled(pause, j) == pause * Pow2(j)
  {
    if j > 0 {
      DoubledIsPow2(pause, j - 1);
      assert 2.0 * (pause * Pow2(j - 1)) == pause * (2.0 * Pow2(j - 1));
    }
  }

  /** From its `horizon`-th reading on, the clock has reached `etime`: this
      is what makes a time budget run out. */
  ghost predicate Passes(clock: nat -> real, horizon: nat, etime: real) {
    forall i :: horizon <= i ==> etime <= clock(i)
  }

  /** One round of a loop: the call, the sleep, and the update when there is one. */
  function Round(pause: real, updated: bool): seq<Event> {
    if updated then [Call, Slept(pause), Updated] else [Call, Slept(pause)]
  }

  lemma RoundCounts(pause: real, updated: bool)
    ensures Calls(Round(pause, updated)) == 1
    ensures Sleeps(Round(pause, updated)) == [pause]
    ensures Updates(Round(pause, updated)) == if updated then 1 else 0
  {
    var tail: seq<Event> := if updated then [Updated] else [];
    assert Calls(tail) == 0 && Sleeps(tail) == [] && Updates(tail) == (if updated then 1 else 0) by {
      if updated {
        assert tail[1..] == [];
      }
    }
    CountsAppend([Slept(pause)], tail);
    CountsAppend([Call], [Slept(pause)] + tail);
    assert [Slept(pause)][1..] == [] && [Call][1..] == [];
    assert Round(pause, updated) == [Call] + ([Slept(pause)] + tail);
  }

  /** Decreases on every round that keeps looping: either the clock has not
      yet reached the deadline, so there are readings left before the
      horizon, or the count is still positive. */
  function Measure(horizon: nat, k: nat, n: int): nat {
    (if k < horizon then horizon - k else 0) + (if n > 0 then n else 0)
  }

  /** The test of an `except exceptions:` clause. */
  function Catches(exceptions: seq<ClassName>): Exc -> bool {
    e => IsInstanceOfAny(e, exceptions)
  }

  /** A recognised failure: an exception the waiter's `except` clause catches. */
  predicate Recognised<T>(out: Outcome<T>, caught: Exc -> bool) {
    out.Raised? && caught(out.exc)
  }

  // ---------------------------------------------------------------------
  // ExceptionRetryWaiter.wait

  /** The loop of ExceptionRetryWaiter.wait from the call with index `k` on,
      with `n` the count before that round's decrement. Reading 0 of the
      clock fixed `etime`; the check after call k reads clock(k + 1). */
  ghost function RetryLoop<T>(fn: nat -> Outcome<T>, caught: Exc -> bool, clock: nat -> real,
                              horizon: nat, etime: real, n: int, pause: real, k: nat): Run<T>
    requires Passes(clock, horizon, etime)
    decreases Measure(horizon, k, n)
  {
    var out := fn(k);
    if !Recognised(out, caught) then Run(out, [Call])
    else if clock(k + 1) < etime || n - 1 > 0 then
      Then(Round(pause, false), RetryLoop(fn, caught, clock, horizon, etime, n - 1, Backoff(pause), k + 1))
    else Run(out, [Call])
  }

  /** What `ExceptionRetryWaiter.wait(fn, n, ttl)` does. */
  ghost function ExceptionRetryRun<T>(w: ExceptionRetryWaiter, fn: nat -> Outcome<T>, n: Option<int>,
                                      ttl: Option<real>, clock: nat -> real, horizon: nat): Run<T>
    requires ClockFits(w.budget, n, ttl, clock, horizon)
  {
    match CheckArgs(w.budget, n, ttl)
    case Raised(e) => Run(Raised(e), [])
    case Ok(b) => RetryLoop(fn, Catches(w.exceptions), clock, horizon, clock(0) + b.1, b.0, w.budget.pause, 0)
  }

  /** The clock passes the deadline the resolved ttl sets. */
  ghost predicate ClockFits(w: Waiter, n: Option<int>, ttl: Option<real>, clock: nat -> real, horizon: nat) {
    CheckArgs(w, n, ttl).Ok? ==> Passes(clock, horizon, clock(0) + CheckArgs(w, n, ttl).value.1)
  }

  method ExceptionRetryWait<T>(w: ExceptionRetryWaiter, fn: nat -> Outcome<T>, n: Option<int>, ttl: Option<real>,
                               clock: nat -> real, ghost horizon: nat)
    returns (r: Outcome<T>, trace: seq<Event>)
    requires ClockFits(w.budget, n, ttl, clock, horizon)
    ensures Run(r, trace) == ExceptionRetryRun(w, fn, n, ttl, clock, horizon)
  {
    var budget := CheckArgs(w.budget, n, ttl);
    if budget.Raised? {
      r, trace := Raised(budget.exc), [];
      return;
    }
    var left := budget.value.0;
    var etime := clock(0) + budget.value.1;
    var pause := w.budget.pause;
    var k: nat := 0;
    ghost var spec := RetryLoop(fn, Catches(w.exceptions), clock, horizon, etime, left, pause, k);
    assert spec == ExceptionRetryRun(w, fn, n, ttl, clock, horizon);
    trace := [];
    while true
      invariant Passes(clock, horizon, etime)
      invariant Then(trace, RetryLoop(fn, Catches(w.exceptions), clock, horizon, etime, left, pause, k)) == spec
      decreases Measure(horizon, k, left)
    {
      ghost var before := RetryLoop(fn, Catches(w.exceptions), clock, horizon, etime, left, pause, k);
      left := left - 1;
      var out := fn(k);
      if !Recognised(out, Catches(w.exceptions)) {
        assert before == Run(out, [Call]);
        r, trace := out, trace + [Call];
        return;
      }
      if clock(k + 1) < etime || left > 0 {
        assert k + 1 < horizon || left > 0;
        ghost var next := RetryLoop(fn, Catches(w.exceptions), clock, horizon, etime, left, Backoff(pause), k + 1);
        assert before == Then(Round(pause, false), next);
        ThenThen(trace, Round(pause, false), next);
        trace := trace + Round(pause, false);
        pause := Backoff(pause);
        k := k + 1;
      } else {
        assert before == Run(out, [Call]);
        r, trace := out, trace + [Call];
        return;
      }
    }
  }

  /** Every run of the loop ends on a call, never on a sleep, and there is
      one sleep between consecutive calls. */
  lemma {:induction false} RetryLoopShape<T>(fn: nat -> Outcome<T>, caught: Exc -> bool, clock: nat -> real,
                                             horizon: nat, etime: real, n: int, pause: real, k: nat)
    requires Passes(clock, horizon, etime)
    ensures var run := RetryLoop(fn, caught, clock, horizon, etime, n, pause, k);
      && Calls(run.trace) >= 1
      && |run.trace| > 0 && run.trace[|run.trace| - 1] == Call
      && |Sleeps(run.trace)| == Calls(run.trace) - 1
    decreases Measure(horizon, k, n)
  {
    var run := RetryLoop(fn, caught, clock, horizon, etime, n, pause, k);
    var out := fn(k);
    if !Recognised(out, caught) || !(clock(k + 1) < etime || n - 1 > 0) {
      assert run == Run(out, [Call]);
      LastCallCounts();
    } else {
      assert k + 1 < horizon || n - 1 > 0;
      var rest := RetryLoop(fn, caught, clock, horizon, etime, n - 1, Backoff(pause), k + 1);
      assert run == Then(Round(pause, false), rest);
      RetryLoopShape(fn, caught, clock, horizon, etime, n - 1, Backoff(pause), k + 1);
      CountsAppend(Round(pause, false), rest.trace);
      RoundCounts(pause, false);
      assert run.trace[|run.trace| - 1] == rest.trace[|rest.trace| - 1];
    }
  }

  /** The loop returns or raises exactly what its last call did. */
  lemma {:induction false} RetryLoopResult<T>(fn: nat -> Outcome<T>, caught: Exc -> bool, clock: nat -> real,
                                              horizon: nat, etime: real, n: int, pause: real, k: nat)
    requires Passes(clock, horizon, etime)
    ensures var run := RetryLoop(fn, caught, clock, horizon, etime, n, pause, k);
      run.result == fn(k + Calls(run.trace) - 1)
    decreases Measure(horizon, k, n)
  {
    var run := RetryLoop(fn, caught, clock, horizon, etime, n, pause, k);
    var out := fn(k);
    if !Recognised(out, caught) || !(clock(k + 1) < etime || n - 1 > 0) {
      assert run == Run(out, [Call]);
      LastCallCounts();
    } else {
      assert k + 1 < horizon || n - 1 > 0;
      var rest := RetryLoop(fn, caught, clock, horizon, etime, n - 1, Backoff(pause), k + 1);
      assert run == Then(Round(pause, false), rest);
      RetryLoopResult(fn, caught, clock, horizon, etime, n - 1, Backoff(pause), k + 1);
      CountsAppend(Round(pause, false), rest.trace);
      RoundCounts(pause, false);
    }
  }

  /** Every call before the last failed with an exception the waiter retries on. */
  lemma {:induction false} RetryLoopEarlierCallsFailed<T>(fn: nat -> Outcome<T>, caught: Exc -> bool, clock: nat -> real,
                                                          horizon: nat, etime: real, n: int, pause: real, k: nat)
    requires Passes(clock, horizon, etime)
    ensures var run := RetryLoop(fn, caught, clock, horizon, etime, n, pause, k);
      forall j :: k <= j < k + Calls(run.trace) - 1 ==> Recognised(fn(j), caught)
    decreases Measure(horizon, k, n)
  {
    var run := RetryLoop(fn, caught, clock, horizon, etime, n, pause, k);
    var out := fn(k);
    if !Recognised(out, caught) || !(clock(k + 1) < etime || n - 1 > 0) {
      assert run == Run(out, [Call]);
      LastCallCounts();
    } else {
      assert k + 1 < horizon || n - 1 > 0;
      var rest := RetryLoop(fn, caught, clock, horizon, etime, n - 1, Backoff(pause), k + 1);
      assert run == Then(Round(pause, false), rest);
      RetryLoopEarlierCallsFailed(fn, caught, clock, horizon, etime, n - 1, Backoff(pause), k + 1);
      CountsAppend(Round(pause, false), rest.trace);
      RoundCounts(pause, false);
      var c := Calls(rest.trace);
      forall j | k <= j < k + c
        ensures Recognised(fn(j), caught)
      {
        if j > k {
          assert k + 1 <= j < k + 1 + c - 1;
        }
      }
    }
  }

  /** The j-th sleep of a run lasts the first pause doubled j times (that
      is `pause * 2^j`, by DoubledIsPow2): plain doubling, no cap. */
  lemma {:induction false} RetryBackoff<T>(fn: nat -> Outcome<T>, caught: Exc -> bool, clock: nat -> real,
                                           horizon: nat, etime: real, n: int, pause: real, k: nat)
    requires Passes(clock, horizon, etime)
    requires pause >= 0.0
    ensures var s := Sleeps(RetryLoop(fn, caught, clock, horizon, etime, n, pause, k).trace);
      forall j :: 0 <= j < |s| ==> s[j] == Doubled(pause, j)
    decreases Measure(horizon, k, n)
  {
    var run := RetryLoop(fn, caught, clock, horizon, etime, n, pause, k);
    var s := Sleeps(run.trace);
    var out := fn(k);
    if Recognised(out, caught) && (clock(k + 1) < etime || n - 1 > 0) {
      assert k + 1 < horizon || n - 1 > 0;
      var rest := RetryLoop(fn, caught, clock, horizon, etime, n - 1, Backoff(pause), k + 1);
      assert run == Then(Round(pause, false), rest);
      BackoffDoubles(pause);
      RetryBackoff(fn, caught, clock, horizon, etime, n - 1, Backoff(pause), k + 1);
      CountsAppend(Round(pause, false), rest.trace);
      RoundCounts(pause, false);
      var s' := Sleeps(rest.trace);
      assert s == [pause] + s';
      forall j | 0 <= j < |s|
        ensures s[j] == Doubled(pause, j)
      {
        if j > 0 {
          assert s[j] == s'[j - 1] == Doubled(2.0 * pause, j - 1);
          DoubledShift(pause, j - 1);
        }
      }
    } else {
      assert run == Run(out, [Call]);
      LastCallCounts();
    }
  }

  lemma {:induction false} DoubledShift(pause: real, j: nat)
    ensures Doubled(2.0 * pause, j) == Doubled(pause, j + 1)
  {
    if j > 0 {
      DoubledShift(pause, j - 1);
    }
  }

  /** Count mode (a ttl of 0, so the deadline is already past): an operation
      that keeps failing with a recognised exception is called exactly `m`
      times and the last failure is re-raised. */
  lemma {:induction false} RetryCountMode<T>(fn: nat -> Outcome<T>, caught: Exc -> bool, clock: nat -> real,
                                             horizon: nat, etime: real, m: int, pause: real, k: nat)
    requires Passes(clock, horizon, etime) && Passes(clock, 0, etime)
    requires m >= 1
    requires forall j :: k <= j < k + m ==> Recognised(fn(j), caught)
    ensures RetryLoop(fn, caught, clock, horizon, etime, m, pause, k).result == fn(k + m - 1)
    ensures Calls(RetryLoop(fn, caught, clock, horizon, etime, m, pause, k).trace) == m
    decreases m
  {
    assert etime <= clock(k + 1);
    assert Recognised(fn(k), caught);
    if m == 1 {
      LastCallCounts();
    } else {
      var rest := RetryLoop(fn, caught, clock, horizon, etime, m - 1, Backoff(pause), k + 1);
      RetryCountMode(fn, caught, clock, horizon, etime, m - 1, Backoff(pause), k + 1);
      CountsAppend(Round(pause, false), rest.trace);
      RoundCounts(pause, false);
    }
  }

  /** `wait(fn, n=m)` on any exception waiter, with an operation that fails
      with a recognised exception every time: `m` calls, then the last
      exception. */
  lemma ExceptionRetryCountMode<T>(w: ExceptionRetryWaiter, fn: nat -> Outcome<T>, m: int,
                                   clock: nat -> real, horizon: nat)
    requires m >= 1 && Passes(clock, 0, clock(0))
    requires forall j :: 0 <= j < m ==> Recognised(fn(j), Catches(w.exceptions))
    ensures ClockFits(w.budget, Some(m), None, clock, horizon)
    ensures ExceptionRetryRun(w, fn, Some(m), None, clock, horizon).result == fn(m - 1)
    ensures Calls(ExceptionRetryRun(w, fn, Some(m), None, clock, horizon).trace) == m
  {
    assert CheckArgs(w.budget, Some(m), None) == Ok((m, 0.0));
    RetryCountMode(fn, Catches(w.exceptions), clock, horizon, clock(0), m, w.budget.pause, 0);
  }

  /** An operation that succeeds, or fails with an exception the waiter does
      not retry on, is called once, whatever the budget. */
  lemma ExceptionRetryFirstCallDecides<T>(w: ExceptionRetryWaiter, fn: nat -> Outcome<T>, n: Option<int>,
                                          ttl: Option<real>, clock: nat -> real, horizon: nat)
    requires ClockFits(w.budget, n, ttl, clock, horizon)
    requires CheckArgs(w.budget, n, ttl).Ok?
    requires !Recognised(fn(0), Catches(w.exceptions))
    ensures ExceptionRetryRun(w, fn, n, ttl, clock, horizon) == Run(fn(0), [Call])
  {
  }

  // ---------------------------------------------------------------------
  // ExceptionRetryElementsWaiter.wait

  /** What the waiter sees of its bound collection: whether it is truthy
      (not None and not empty) after the failure of call k, and what its
      `update()` in that round raises, if anything. */
  datatype BoundCollection = BoundCollection(truthy: nat -> bool, update: nat -> Option<Exc>)

  /** The loop of ExceptionRetryElementsWaiter.wait from the check before
      call k on; `last` is `exc_from_run`, `ttl` the resolved ttl the
      never-ran error reports. */
  ghost function ElementsRetryLoop<T>(fn: nat -> Outcome<T>, caught: Exc -> bool, bound: BoundCollection,
                                      clock: nat -> real, horizon: nat, etime: real, ttl: real,
                                      n: int, pause: real, k: nat, last: Option<Exc>): Run<T>
    requires Passes(clock, horizon, etime)
    decreases Measure(horizon, k, n)
  {
    if clock(k + 1) < etime || n > 0 then
      var out := fn(k);
      if !Recognised(out, caught) then Run(out, [Call])
      else if bound.truthy(k) && bound.update(k).Some? then Run(Raised(bound.update(k).value), Round(pause, true))
      else
        Then(Round(pause, bound.truthy(k)),
             ElementsRetryLoop(fn, caught, bound, clock, horizon, etime, ttl, n - 1, Backoff(pause), k + 1, Some(out.exc)))
    else
      match last
      case Some(e) => Run(Raised(e), [])
      case None => Run(Raised(NeverRan(n, ttl)), [])
  }

  ghost function ExceptionRetryElementsRun<E, T>(w: ExceptionRetryElementsWaiter<E>, bound: BoundCollection,
                                                 fn: nat -> Outcome<T>, n: Option<int>, ttl: Option<real>,
                                                 clock: nat -> real, horizon: nat): Run<T>
    requires ClockFits(w.budget, n, ttl, clock, horizon)
  {
    match CheckArgs(w.budget, n, ttl)
    case Raised(e) => Run(Raised(e), [])
    case Ok(b) =>
      ElementsRetryLoop(fn, Catches(w.exceptions), bound, clock, horizon, clock(0) + b.1, b.1, b.0, w.budget.pause, 0, None)
  }

  method ExceptionRetryElementsWait<E, T>(w: ExceptionRetryElementsWaiter<E>, bound: BoundCollection,
                                          fn: nat -> Outcome<T>, n: Option<int>, ttl: Option<real>,
                                          clock: nat -> real, ghost horizon: nat)
    returns (r: Outcome<T>, trace: seq<Event>)
    requires ClockFits(w.budget, n, ttl, clock, horizon)
    ensures Run(r, trace) == ExceptionRetryElementsRun(w, bound, fn, n, ttl, clock, horizon)
  {
    var budget := CheckArgs(w.budget, n, ttl);
    if budget.Raised? {
      r, trace := Raised(budget.exc), [];
      return;
    }
    var left := budget.value.0;
    var resolvedTtl := budget.value.1;
    var etime := clock(0) + resolvedTtl;
    var pause := w.budget.pause;
    var last: Option<Exc> := None;
    var k: nat := 0;
    ghost var spec := ElementsRetryLoop(fn, Catches(w.exceptions), bound, clock, horizon, etime, resolvedTtl, left, pause, k, last);
    assert spec == ExceptionRetryElementsRun(w, bound, fn, n, ttl, clock, horizon);
    trace := [];
    while clock(k + 1) < etime || left > 0
      invariant Passes(clock, horizon, etime)
      invariant Then(trace, ElementsRetryLoop(fn, Catches(w.exceptions), bound, clock, horizon, etime, resolvedTtl, left, pause, k, last))
                == spec
      decreases Measure(horizon, k, left)
    {
      assert k + 1 < horizon || left > 0;
      ghost var before := ElementsRetryLoop(fn, Catches(w.exceptions), bound, clock, horizon, etime, resolvedTtl, left, pause, k, last);
      left := left - 1;
      var out := fn(k);
      if !Recognised(out, Catches(w.exceptions)) {
        assert before == Run(out, [Call]);
        r, trace := out, trace + [Call];
        return;
      }
      var updated := bound.truthy(k);
      if updated && bound.update(k).Some? {
        assert before == Run(Raised(bound.update(k).value), Round(pause, true));
        r, trace := Raised(bound.update(k).value), trace + Round(pause, true);
        return;
      }
      ghost var next := ElementsRetryLoop(fn, Catches(w.exceptions), bound, clock, horizon, etime,
                                          resolvedTtl, left, Backoff(pause), k + 1, Some(out.exc));
      assert before == Then(Round(pause, updated), next);
      ThenThen(trace, Round(pause, updated), next);
      trace := trace + Round(pause, updated);
      pause := Backoff(pause);
      last := Some(out.exc);
      k := k + 1;
    }
    match last
    case Some(e) => r := Raised(e);
    case None => r := Raised(NeverRan(left, resolvedTtl));
    assert ElementsRetryLoop(fn, Catches(w.exceptions), bound, clock, horizon, etime, resolvedTtl, left, pause, k, last)
           == Run(r, []);
  }

  function CountTruthy(truthy: nat -> bool, k: nat, m: nat): nat
    decreases m
  {
    if m == 0 then 0 else (if truthy(k) then 1 else 0) + CountTruthy(truthy, k + 1, m - 1)
  }

  /** Count mode with an operation that always fails with a recognised
      exception and updates that succeed: `m` calls, one update after each
      failure that found the collection truthy, then the last exception. */
  lemma {:induction false} ElementsRetryCountMode<T>(fn: nat -> Outcome<T>, caught: Exc -> bool,
                                                     bound: BoundCollection, clock: nat -> real, horizon: nat,
                                                     etime: real, ttl: real, m: int, pause: real, k: nat,
                                                     last: Option<Exc>)
    requires Passes(clock, horizon, etime) && Passes(clock, 0, etime)
    requires m >= 1
    requires forall j :: k <= j < k + m ==> Recognised(fn(j), caught) && bound.update(j).None?
    ensures var run := ElementsRetryLoop(fn, caught, bound, clock, horizon, etime, ttl, m, pause, k, last);
      && run.result == fn(k + m - 1)
      && Calls(run.trace) == m
      && Updates(run.trace) == CountTruthy(bound.truthy, k, m)
      && |Sleeps(run.trace)| == m
    decreases m
  {
    assert etime <= clock(k + 1);
    var out := fn(k);
    assert Recognised(out, caught) && bound.update(k).None?;
    var head := Round(pause, bound.truthy(k));
    var rest := ElementsRetryLoop(fn, caught, bound, clock, horizon, etime, ttl, m - 1, Backoff(pause), k + 1, Some(out.exc));
    assert ElementsRetryLoop(fn, caught, bound, clock, horizon, etime, ttl, m, pause, k, last) == Then(head, rest);
    CountsAppend(head, rest.trace);
    RoundCounts(pause, bound.truthy(k));
    if m == 1 {
      assert etime <= clock(k + 2);
      assert rest == Run(Raised(out.exc), []);
    } else {
      ElementsRetryCountMode(fn, caught, bound, clock, horizon, etime, ttl, m - 1, Backoff(pause), k + 1, Some(out.exc));
    }
  }

  /** When the loop body never runs the operation is not called and the
      waiter raises the remembered exception, or, when there is none, the
      distinct "Waiter was never run" RuntimeError with the resolved n and ttl. */
  lemma ElementsRetryNeverRuns<T>(fn: nat -> Outcome<T>, caught: Exc -> bool, bound: BoundCollection,
                                  clock: nat -> real, horizon: nat, etime: real, ttl: real,
                                  n: int, pause: real, k: nat)
    requires Passes(clock, horizon, etime)
    requires clock(k + 1) >= etime && n <= 0
    ensures ElementsRetryLoop(fn, caught, bound, clock, horizon, etime, ttl, n, pause, k, None)
            == Run(Raised(NeverRan(n, ttl)), [])
  {
  }

  /** The scenario of the source's own test: the fields forced to -1 after
      construction, then `wait(fn, ttl=0, n=0)`. The fallback returns the
      forced fields unchecked, the deadline is already past, and the waiter
      reports that it never ran without calling the operation. */
  lemma ElementsRetryForcedNegativeBudget<E, T>(w: ExceptionRetryElementsWaiter<E>, bound: BoundCollection,
                                                fn: nat -> Outcome<T>, clock: nat -> real, horizon: nat)
    requires w.budget.n == -1 && w.budget.ttl == -1.0
    requires Passes(clock, 0, clock(0))
    ensures ClockFits(w.budget, Some(0), Some(0.0), clock, horizon)
    ensures ExceptionRetryElementsRun(w, bound, fn, Some(0), Some(0.0), clock, horizon)
            == Run(Raised(NeverRan(-1, -1.0)), [])
  {
    assert CheckArgs(w.budget, Some(0), Some(0.0)) == Ok((-1, -1.0));
    assert clock(0) - 1.0 <= clock(1);
  }

  // ---------------------------------------------------------------------
  // ConditionElementsWaiter.wait

  /** The loop of ConditionElementsWaiter.wait from the check before call k
      on. `pred(k)` is what the k-th evaluation of the predicate returns or
      raises (nothing is caught), `updates(k)` what the update after a false
      result in that round raises. */
  ghost function ConditionLoop<E>(pred: nat -> Outcome<bool>, elements: E, updates: nat -> Option<Exc>, reason: string,
                                  clock: nat -> real, horizon: nat, etime: real, n: int, pause: real, k: nat): Run<E>
    requires Passes(clock, horizon, etime)
    decreases Measure(horizon, k, n)
  {
    if clock(k + 1) < etime || n > 0 then
      match pred(k)
      case Raised(e) => Run(Raised(e), [Call])
      case Ok(holds) =>
        if holds then Run(Ok(elements), [Call])
        else if updates(k).Some? then Run(Raised(updates(k).value), Round(pause, true))
        else Then(Round(pause, true),
                  ConditionLoop(pred, elements, updates, reason, clock, horizon, etime, n - 1, Backoff(pause), k + 1))
    else Run(Raised(WaiterTimeOut(reason)), [])
  }

  /** The timeout reason: the predicate's source text when it can be had, else "Unknown". */
  function Reason(source: Option<string>): string {
    source.GetOr("Unknown")
  }

  ghost function ConditionRun<E>(w: ConditionElementsWaiter<E>, updates: nat -> Option<Exc>, source: Option<string>,
                                 pred: nat -> Outcome<bool>, n: Option<int>, ttl: Option<real>,
                                 clock: nat -> real, horizon: nat): Run<E>
    requires ClockFits(w.budget, n, ttl, clock, horizon)
  {
    match CheckArgs(w.budget, n, ttl)
    case Raised(e) => Run(Raised(e), [])
    case Ok(b) =>
      ConditionLoop(pred, w.elements, updates, Reason(source), clock, horizon, clock(0) + b.1, b.0, w.budget.pause, 0)
  }

  method ConditionWait<E>(w: ConditionElementsWaiter<E>, updates: nat -> Option<Exc>, source: Option<string>,
                          pred: nat -> Outcome<bool>, n: Option<int>, ttl: Option<real>,
                          clock: nat -> real, ghost horizon: nat)
    returns (r: Outcome<E>, trace: seq<Event>)
    requires ClockFits(w.budget, n, ttl, clock, horizon)
    ensures Run(r, trace) == ConditionRun(w, updates, source, pred, n, ttl, clock, horizon)
  {
    var budget := CheckArgs(w.budget, n, ttl);
    if budget.Raised? {
      r, trace := Raised(budget.exc), [];
      return;
    }
    var left := budget.value.0;
    var etime := clock(0) + budget.value.1;
    var pause := w.budget.pause;
    var k: nat := 0;
    ghost var spec := ConditionLoop(pred, w.elements, updates, Reason(source), clock, horizon, etime, left, pause, k);
    assert spec == ConditionRun(w, updates, source, pred, n, ttl, clock, horizon);
    trace := [];
    while clock(k + 1) < etime || left > 0
      invariant Passes(clock, horizon, etime)
      invariant Then(trace, ConditionLoop(pred, w.elements, updates, Reason(source), clock, horizon, etime, left, pause, k))
                == spec
      decreases Measure(horizon, k, left)
    {
      assert k + 1 < horizon || left > 0;
      ghost var before := ConditionLoop(pred, w.elements, updates, Reason(source), clock, horizon, etime, left, pause, k);
      left := left - 1;
      var out := pred(k);
      if out.Raised? {
        r, trace := Raised(out.exc), trace + [Call];
        return;
      }
      if out.value {
        r, trace := Ok(w.elements), trace + [Call];
        return;
      }
      if updates(k).Some? {
        r, trace := Raised(updates(k).value), trace + Round(pause, true);
        return;
      }
      ghost var next := ConditionLoop(pred, w.elements, updates, Reason(source), clock, horizon, etime, left, Backoff(pause), k + 1);
      assert before == Then(Round(pause, true), next);
      ThenThen(trace, Round(pause, true), next);
      trace := trace + Round(pause, true);
      pause := Backoff(pause);
      k := k + 1;
    }
    r := Raised(WaiterTimeOut(Reason(source)));
  }

  /** Count mode with a predicate that stays false and updates that succeed:
      `m` evaluations, an update after each of them, then a TimeOutError. */
  lemma {:induction false} ConditionCountMode<E>(pred: nat -> Outcome<bool>, elements: E, updates: nat -> Option<Exc>,
                                                 reason: string, clock: nat -> real, horizon: nat, etime: real,
                                                 m: int, pause: real, k: nat)
    requires Passes(clock, horizon, etime) && Passes(clock, 0, etime)
    requires m >= 0
    requires forall j :: k <= j < k + m ==> pred(j) == Ok(false) && updates(j).None?
    ensures var run := ConditionLoop(pred, elements, updates, reason, clock, horizon, etime, m, pause, k);
      && run.result == Raised(WaiterTimeOut(reason))
      && Calls(run.trace) == m
      && Updates(run.trace) == m
    decreases m
  {
    assert etime <= clock(k + 1);
    if m > 0 {
      var rest := ConditionLoop(pred, elements, updates, reason, clock, horizon, etime, m - 1, Backoff(pause), k + 1);
      ConditionCountMode(pred, elements, updates, reason, clock, horizon, etime, m - 1, Backoff(pause), k + 1);
      CountsAppend(Round(pause, true), rest.trace);
      RoundCounts(pause, true);
    }
  }

  /** A loop that does not return the collection and whose predicate and
      updates never raise ends on a TimeOutError, and only once a reading of
      the clock taken after the last evaluation has reached the deadline
      (`etime` is the starting reading plus the ttl). It returns the bound
      collection on the first true result, with no update in that round. */
  lemma {:induction false} ConditionOutcome<E>(pred: nat -> Outcome<bool>, elements: E, updates: nat -> Option<Exc>,
                                               reason: string, clock: nat -> real, horizon: nat, etime: real,
                                               n: int, pause: real, k: nat)
    requires Passes(clock, horizon, etime)
    requires forall j :: pred(j).Ok? && updates(j).None?
    ensures var run := ConditionLoop(pred, elements, updates, reason, clock, horizon, etime, n, pause, k);
      && (run.result == Ok(elements) || run.result == Raised(WaiterTimeOut(reason)))
      && (run.result.Raised? ==> clock(k + Calls(run.trace) + 1) >= etime)
      && (run.result.Ok? ==>
            && Calls(run.trace) >= 1
            && pred(k + Calls(run.trace) - 1) == Ok(true)
            && Updates(run.trace) == Calls(run.trace) - 1)
    decreases Measure(horizon, k, n)
  {
    if clock(k + 1) < etime || n > 0 {
      assert k + 1 < horizon || n > 0;
      if pred(k) == Ok(true) {
        LastCallCounts();
      } else {
        var rest := ConditionLoop(pred, elements, updates, reason, clock, horizon, etime, n - 1, Backoff(pause), k + 1);
        ConditionOutcome(pred, elements, updates, reason, clock, horizon, etime, n - 1, Backoff(pause), k + 1);
        CountsAppend(Round(pause, true), rest.trace);
        RoundCounts(pause, true);
      }
    } else {
      assert Calls([]) == 0;
    }
  }

  /** `ConditionElementsWaiter(elements, pause=p).wait(f, n=2)` with a
      predicate that is always false: two evaluations, two updates, then a
      TimeOutError. */
  lemma ConditionTwoRetries<E>(w: ConditionElementsWaiter<E>, updates: nat -> Option<Exc>, source: Option<string>,
                               pred: nat -> Outcome<bool>, clock: nat -> real, horizon: nat)
    requires Passes(clock, 0, clock(0))
    requires forall j :: pred(j) == Ok(false) && updates(j).None?
    ensures ClockFits(w.budget, Some(2), None, clock, horizon)
    ensures var run := ConditionRun(w, updates, source, pred, Some(2), None, clock, horizon);
      run.result == Raised(WaiterTimeOut(Reason(source))) && Calls(run.trace) == 2 && Updates(run.trace) == 2
  {
    assert CheckArgs(w.budget, Some(2), None) == Ok((2, 0.0));
    ConditionCountMode(pred, w.elements, updates, Reason(source), clock, horizon, clock(0), 2, w.budget.pause, 0);
  }
}
