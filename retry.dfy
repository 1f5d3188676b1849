/** The retry helpers of elementium/elements.py, `with_retry` and
    `with_update`.

    Both loop `while ttl > 0`: they call the operation, and when it raises an
    instance of the given class they sleep, take the sleep off `ttl` and grow
    the sleep by `min(2 * sleep, 1)`. Once `ttl` is spent the operation is
    called one last time, unguarded. `with_update` also refreshes its
    collection after every recognised failure, before the sleep.

    The sleep schedule does not depend on what the calls return, so the loop
    state after `j` failed rounds is a function of `j`: the sleep is
    `SleepAt(j)` and the ttl left is `ttl - SleptBefore(j)`. The operation is
    an oracle: `fn(k)` is what its k-th call returns or raises, and
    `update(k)` is what the refresh after the k-th call raises, if anything. */
module Retry {
  import opened Errors
  import opened Traces
  import C = Classes

  const DefaultSleepTime: real := 0.25
  const DefaultTtl: real := 20.0

  /** `sleep_time += min(sleep_time + sleep_time, 1)` */
  function NextSleep(s: real): real {
    s + Min(s + s, 1.0)
  }

  /** The sleep that follows the j-th failed call. */
  function SleepAt(j: nat): (s: real)
    ensures s >= DefaultSleepTime
  {
    if j == 0 then DefaultSleepTime else NextSleep(SleepAt(j - 1))
  }

  /** What the loop has slept, and so taken off its ttl, before its j-th call. */
  function SleptBefore(j: nat): (t: real)
    ensures t >= DefaultSleepTime * j as real
  {
    if j == 0 then 0.0 else SleptBefore(j - 1) + SleepAt(j - 1)
  }

  /** The schedule is 0.25, 0.75, 1.75, 2.75, ...: after the first round
      every sleep is one second longer than the one before. */
  lemma {:induction false} SleepClosedForm(j: nat)
    ensures SleepAt(j) == if j == 0 then 0.25 else j as real - 0.25
  {
    if j > 0 {
      SleepClosedForm(j - 1);
    }
  }

  /** The j-th call runs inside the `while ttl > 0` loop, where a recognised
      exception is caught; otherwise it is the final, unguarded call. */
  predicate Guarded(ttl: real, j: nat) {
    ttl - SleptBefore(j) > 0.0
  }

  /** More calls than this are never guarded: every sleep is at least a
      quarter second. */
  function MaxRounds(ttl: real): nat {
    if ttl <= 0.0 then 0 else 4 * (ttl.Floor + 1)
  }

  /** The first call from the j-th on that is not guarded. */
  function UnguardedFrom(ttl: real, j: nat): (g: nat)
    ensures g >= j
    decreases MaxRounds(ttl) - j
  {
    if Guarded(ttl, j) then UnguardedFrom(ttl, j + 1) else j
  }

  /** How many calls run inside the loop. */
  function GuardedCalls(ttl: real): nat {
    UnguardedFrom(ttl, 0)
  }

  lemma {:induction false} UnguardedFromFacts(ttl: real, j: nat)
    ensures !Guarded(ttl, UnguardedFrom(ttl, j))
    ensures forall i :: j <= i < UnguardedFrom(ttl, j) ==> Guarded(ttl, i)
    decreases MaxRounds(ttl) - j
  {
    if Guarded(ttl, j) {
      UnguardedFromFacts(ttl, j + 1);
    }
  }

  /** The calls inside the loop are exactly the first `GuardedCalls(ttl)`:
      what was slept only grows, so once the budget is spent it stays spent. */
  lemma GuardedCallsCount(ttl: real, j: nat)
    ensures Guarded(ttl, j) <==> j < GuardedCalls(ttl)
  {
    UnguardedFromFacts(ttl, 0);
    if j >= GuardedCalls(ttl) {
      SleptBeforeGrows(GuardedCalls(ttl), j);
    }
  }

  /** `except Exception as exc: if isinstance(exc, exception_class)`: only
      instances of Exception are caught, and only those of the given class
      are retried; anything else is raised again. */
  predicate Retryable(e: Exc, cls: ClassName) {
    IsInstance(e, C.Exception) && IsInstance(e, cls)
  }

  /** The test above as the loops take it: which exceptions they retry. */
  function Catching(cls: ClassName): Exc -> bool {
    e => Retryable(e, cls)
  }

  /** A call that the loop catches and retries: a guarded one (see
      `GuardedCallsCount`) that raised a recognised exception. */
  predicate Retried<T>(out: Outcome<T>, caught: Exc -> bool, ttl: real, j: nat) {
    j < GuardedCalls(ttl) && out.Raised? && caught(out.exc)
  }

  // ---------------------------------------------------------------------
  // with_retry

  /** The trace of a failed round of `with_retry`: the call, then the sleep. */
  function RetryRound(j: nat): seq<Event> {
    [Call, Slept(SleepAt(j))]
  }

  /** `with_retry(fn, cls, ttl)` from its k-th call on, where `caught` is
      `Catching(cls)`. */
  function WithRetryLoop<T>(fn: nat -> Outcome<T>, caught: Exc -> bool, ttl: real, k: nat): Run<T>
    decreases GuardedCalls(ttl) - k
  {
    var out := fn(k);
    if Retried(out, caught, ttl, k) then
      Then(RetryRound(k), WithRetryLoop(fn, caught, ttl, k + 1))
    else Run(out, [Call])
  }

  /** The first m rounds, all failed and retried. */
  function RetryRounds(m: nat): seq<Event> {
    if m == 0 then [] else RetryRounds(m - 1) + RetryRound(m - 1)
  }

  /** When the first m calls were all retried, the run is their m rounds
      followed by the loop from call m on. */
  lemma {:induction false} WithRetryPrefix<T>(fn: nat -> Outcome<T>, caught: Exc -> bool, ttl: real, m: nat)
    requires forall i :: 0 <= i < m ==> Retried(fn(i), caught, ttl, i)
    ensures WithRetryLoop(fn, caught, ttl, 0) == Then(RetryRounds(m), WithRetryLoop(fn, caught, ttl, m))
  {
    if m == 0 {
      assert RetryRounds(0) + WithRetryLoop(fn, caught, ttl, 0).trace == WithRetryLoop(fn, caught, ttl, 0).trace;
    } else {
      WithRetryPrefix(fn, caught, ttl, m - 1);
      assert Retried(fn(m - 1), caught, ttl, m - 1);
      ThenThen(RetryRounds(m - 1), RetryRound(m - 1), WithRetryLoop(fn, caught, ttl, m));
    }
  }

  /** A call that succeeds, or raises something the loop does not retry, or
      comes after the budget is spent, is the only one: exactly when the
      first call is not retried, the run is that call alone. */
  lemma WithRetryFirstCall<T>(fn: nat -> Outcome<T>, caught: Exc -> bool, ttl: real)
    ensures !Retried(fn(0), caught, ttl, 0) <==> WithRetryLoop(fn, caught, ttl, 0) == Run(fn(0), [Call])
    ensures ttl <= 0.0 ==> WithRetryLoop(fn, caught, ttl, 0) == Run(fn(0), [Call])
  {
    GuardedCallsCount(ttl, 0);
    if Retried(fn(0), caught, ttl, 0) {
      var rest := WithRetryLoop(fn, caught, ttl, 1);
      assert WithRetryLoop(fn, caught, ttl, 0).trace == RetryRound(0) + rest.trace;
      assert |WithRetryLoop(fn, caught, ttl, 0).trace| >= 2;
    }
  }

  /** Every run ends on a call, the one whose outcome it returns, with one
      sleep between consecutive calls. */
  lemma {:induction false} WithRetryShape<T>(fn: nat -> Outcome<T>, caught: Exc -> bool, ttl: real, k: nat)
    ensures var run := WithRetryLoop(fn, caught, ttl, k);
      && Calls(run.trace) >= 1
      && run.trace[|run.trace| - 1] == Call
      && |Sleeps(run.trace)| == Calls(run.trace) - 1
      && run.result == fn(k + Calls(run.trace) - 1)
    decreases GuardedCalls(ttl) - k
  {
    var run := WithRetryLoop(fn, caught, ttl, k);
    if Retried(fn(k), caught, ttl, k) {
      var rest := WithRetryLoop(fn, caught, ttl, k + 1);
      assert run == Then(RetryRound(k), rest);
      WithRetryShape(fn, caught, ttl, k + 1);
      CountsAppend(RetryRound(k), rest.trace);
      CountsAppend([Call], [Slept(SleepAt(k))]);
      assert Calls([Slept(SleepAt(k))]) == 0 && Sleeps([Slept(SleepAt(k))]) == [SleepAt(k)] by {
        assert [Slept(SleepAt(k))][1..] == [];
      }
      LastCallCounts();
      assert run.trace[|run.trace| - 1] == rest.trace[|rest.trace| - 1];
    } else {
      LastCallCounts();
    }
  }

  /** Every call before the last was retried: it raised an exception the
      loop catches while budget was left (`Retried` includes `Guarded`). */
  lemma {:induction false} WithRetryRetriedOnlyWithinBudget<T>(fn: nat -> Outcome<T>, caught: Exc -> bool, ttl: real, k: nat)
    ensures var run := WithRetryLoop(fn, caught, ttl, k);
      forall j :: k <= j < k + |Sleeps(run.trace)| ==> Retried(fn(j), caught, ttl, j)
    decreases GuardedCalls(ttl) - k
  {
    var run := WithRetryLoop(fn, caught, ttl, k);
    if Retried(fn(k), caught, ttl, k) {
      var rest := WithRetryLoop(fn, caught, ttl, k + 1);
      assert run == Then(RetryRound(k), rest);
      WithRetryRetriedOnlyWithinBudget(fn, caught, ttl, k + 1);
      RetryRoundCounts(k);
      CountsAppend(RetryRound(k), rest.trace);
      assert |Sleeps(run.trace)| == 1 + |Sleeps(rest.trace)|;
    } else {
      LastCallCounts();
    }
  }

  /** The sleeps follow the schedule: after the first k entries of the
      schedule, a run from call k sleeps the next ones, in order. */
  lemma {:induction false} WithRetrySleepSchedule<T>(fn: nat -> Outcome<T>, caught: Exc -> bool, ttl: real, k: nat)
    ensures var s := Sleeps(WithRetryLoop(fn, caught, ttl, k).trace);
      Schedule(k) + s == Schedule(k + |s|)
    decreases GuardedCalls(ttl) - k
  {
    var run := WithRetryLoop(fn, caught, ttl, k);
    if Retried(fn(k), caught, ttl, k) {
      var rest := WithRetryLoop(fn, caught, ttl, k + 1);
      assert run == Then(RetryRound(k), rest);
      WithRetrySleepSchedule(fn, caught, ttl, k + 1);
      RetryRoundCounts(k);
      CountsAppend(RetryRound(k), rest.trace);
      ScheduleStep(k, Sleeps(rest.trace));
    } else {
      LastCallCounts();
      assert Schedule(k) + [] == Schedule(k);
    }
  }

  lemma ScheduleStep(k: nat, later: seq<real>)
    requires Schedule(k + 1) + later == Schedule(k + 1 + |later|)
    ensures Schedule(k) + ([SleepAt(k)] + later) == Schedule(k + |[SleepAt(k)] + later|)
  {
    assert Schedule(k) + ([SleepAt(k)] + later) == (Schedule(k) + [SleepAt(k)]) + later;
  }

  /** m failed rounds hold m calls and their m sleeps, in schedule order. */
  lemma {:induction false} RetryRoundsCounts(m: nat)
    ensures Calls(RetryRounds(m)) == m
    ensures |Sleeps(RetryRounds(m))| == m
    ensures forall i :: 0 <= i < m ==> Sleeps(RetryRounds(m))[i] == SleepAt(i)
  {
    if m > 0 {
      RetryRoundsCounts(m - 1);
      CountsAppend(RetryRounds(m - 1), RetryRound(m - 1));
      RetryRoundCounts(m - 1);
    }
  }

  /** The first m sleeps of the schedule. */
  function Schedule(m: nat): (s: seq<real>)
    ensures |s| == m
  {
    if m == 0 then [] else Schedule(m - 1) + [SleepAt(m - 1)]
  }

  /** The i-th entry of the schedule is the i-th sleep. */
  lemma {:induction false} ScheduleEntries(m: nat)
    ensures forall i :: 0 <= i < m ==> Schedule(m)[i] == SleepAt(i)
  {
    if m > 0 {
      ScheduleEntries(m - 1);
    }
  }

  lemma {:induction false} RetryRoundsSleep(m: nat)
    ensures Sleeps(RetryRounds(m)) == Schedule(m)
  {
    if m > 0 {
      RetryRoundsSleep(m - 1);
      CountsAppend(RetryRounds(m - 1), RetryRound(m - 1));
      RetryRoundCounts(m - 1);
    }
  }

  /** A failed round is one call and its sleep. */
  lemma RetryRoundCounts(j: nat)
    ensures Calls(RetryRound(j)) == 1 && Updates(RetryRound(j)) == 0 && Sleeps(RetryRound(j)) == [SleepAt(j)]
  {
    CountsAppend([Call], [Slept(SleepAt(j))]);
    assert [Slept(SleepAt(j))][1..] == [];
    LastCallCounts();
    assert [Call] + [Slept(SleepAt(j))] == RetryRound(j);
  }

  /** `with_retry(fn, cls, ttl=20)` with an operation that always raises an
      instance of the class: eight calls inside the loop, sleeping 0.25,
      0.75, 1.75, ..., 6.75 seconds (26.5 in all, the ttl falling to -6.5),
      then a ninth, unguarded call whose exception escapes. */
  lemma WithRetryAlwaysFailingTwenty<T>(fn: nat -> Outcome<T>, caught: Exc -> bool)
    requires forall j :: fn(j).Raised? && caught(fn(j).exc)
    ensures var run := WithRetryLoop(fn, caught, DefaultTtl, 0);
      && run == Then(RetryRounds(8), Run(fn(8), [Call]))
      && Calls(run.trace) == 9
      && Sleeps(run.trace) == [0.25, 0.75, 1.75, 2.75, 3.75, 4.75, 5.75, 6.75]
  {
    ScheduleOfTwenty();
    assert forall i :: 0 <= i < 8 ==> Retried(fn(i), caught, DefaultTtl, i);
    WithRetryPrefix(fn, caught, DefaultTtl, 8);
    assert WithRetryLoop(fn, caught, DefaultTtl, 8) == Run(fn(8), [Call]);
    TwentyRounds();
  }

  lemma TwentyRounds()
    ensures Calls(RetryRounds(8) + [Call]) == 9
    ensures Sleeps(RetryRounds(8) + [Call]) == [0.25, 0.75, 1.75, 2.75, 3.75, 4.75, 5.75, 6.75]
  {
    var rounds := RetryRounds(8);
    RetryRoundsCounts(8);
    CountsAppend(rounds, [Call]);
    LastCallCounts();
    var s := Sleeps(rounds);
    assert s + [] == s;
    ScheduleEight(s);
  }

  lemma ScheduleEight(s: seq<real>)
    requires |s| == 8 && forall i :: 0 <= i < 8 ==> s[i] == SleepAt(i)
    ensures s == [0.25, 0.75, 1.75, 2.75, 3.75, 4.75, 5.75, 6.75]
  {
    SleepClosedForm(0); SleepClosedForm(1); SleepClosedForm(2); SleepClosedForm(3);
    SleepClosedForm(4); SleepClosedForm(5); SleepClosedForm(6); SleepClosedForm(7);
  }

  /** With a budget of 20 the first eight calls are guarded and the ninth is
      not: 19.75 seconds have been slept before the eighth, 26.5 before the ninth. */
  lemma ScheduleOfTwenty()
    ensures forall i :: 0 <= i < 8 ==> Guarded(DefaultTtl, i)
    ensures !Guarded(DefaultTtl, 8)
    ensures SleptBefore(8) == 26.5
    ensures GuardedCalls(DefaultTtl) == 8
  {
    SleepClosedForm(0); SleepClosedForm(1); SleepClosedForm(2); SleepClosedForm(3);
    SleepClosedForm(4); SleepClosedForm(5); SleepClosedForm(6); SleepClosedForm(7);
    assert SleptBefore(7) == 19.75;
    forall i | 0 <= i < 8
      ensures Guarded(DefaultTtl, i)
    {
      SleptBeforeGrows(i, 7);
    }
    GuardedCallsCount(DefaultTtl, 7);
    GuardedCallsCount(DefaultTtl, 8);
  }

  lemma {:induction false} SleptBeforeGrows(i: nat, j: nat)
    requires i <= j
    ensures SleptBefore(i) <= SleptBefore(j)
    decreases j - i
  {
    if i < j {
      SleptBeforeGrows(i, j - 1);
    }
  }

  // ---------------------------------------------------------------------
  // with_update

  /** The trace of a failed round of `with_update`: the call, the refresh of
      the collection, then the sleep. */
  function UpdateRound(j: nat): seq<Event> {
    [Call, Updated, Slept(SleepAt(j))]
  }

  /** `with_update(fn, elements, caught, ttl)` from its k-th call on. A refresh
      that raises ends the loop with its exception. */
  function WithUpdateLoop<T>(fn: nat -> Outcome<T>, update: nat -> Option<Exc>, caught: Exc -> bool, ttl: real, k: nat)
    : Run<T>
    decreases GuardedCalls(ttl) - k
  {
    var out := fn(k);
    if Retried(out, caught, ttl, k) then
      match update(k)
      case Some(e) => Run(Raised(e), [Call, Updated])
      case None =>
          Then(UpdateRound(k), WithUpdateLoop(fn, update, caught, ttl, k + 1))
    else Run(out, [Call])
  }

  function UpdateRounds(m: nat): seq<Event> {
    if m == 0 then [] else UpdateRounds(m - 1) + UpdateRound(m - 1)
  }

  /** When the first m calls were all retried and their refreshes returned,
      the run is their m rounds followed by the loop from call m on. */
  lemma {:induction false} WithUpdatePrefix<T>(fn: nat -> Outcome<T>, update: nat -> Option<Exc>, caught: Exc -> bool,
                                               ttl: real, m: nat)
    requires forall i :: 0 <= i < m ==> Retried(fn(i), caught, ttl, i) && update(i).None?
    ensures WithUpdateLoop(fn, update, caught, ttl, 0) == Then(UpdateRounds(m), WithUpdateLoop(fn, update, caught, ttl, m))
  {
    if m == 0 {
      assert UpdateRounds(0) + WithUpdateLoop(fn, update, caught, ttl, 0).trace == WithUpdateLoop(fn, update, caught, ttl, 0).trace;
    } else {
      WithUpdatePrefix(fn, update, caught, ttl, m - 1);
      assert Retried(fn(m - 1), caught, ttl, m - 1) && update(m - 1).None?;
      ThenThen(UpdateRounds(m - 1), UpdateRound(m - 1), WithUpdateLoop(fn, update, caught, ttl, m));
    }
  }

  /** A refresh happens once per retried failure and never otherwise: a run
      that returns or re-raises what its last call did has one refresh fewer
      than calls, a run ended by a refresh that raised has as many. Each
      refresh comes right after a call and, unless it raised, right before a
      sleep. */
  lemma {:induction false} WithUpdateRefreshes<T>(fn: nat -> Outcome<T>, update: nat -> Option<Exc>, caught: Exc -> bool,
                                                  ttl: real, k: nat)
    ensures var run := WithUpdateLoop(fn, update, caught, ttl, k);
      var last := k + Calls(run.trace) - 1;
      && Calls(run.trace) >= 1
      && |Sleeps(run.trace)| == Calls(run.trace) - 1
      && ((run.result == fn(last) && Updates(run.trace) == Calls(run.trace) - 1)
          || (&& Retried(fn(last), caught, ttl, last) && update(last).Some?
              && run.result == Raised(update(last).value)
              && Updates(run.trace) == Calls(run.trace)))
    decreases GuardedCalls(ttl) - k
  {
    var run := WithUpdateLoop(fn, update, caught, ttl, k);
    var out := fn(k);
    if !Retried(out, caught, ttl, k) {
      LastCallCounts();
    } else if update(k).None? {
      var rest := WithUpdateLoop(fn, update, caught, ttl, k + 1);
      assert run == Then(UpdateRound(k), rest);
      WithUpdateRefreshes(fn, update, caught, ttl, k + 1);
      UpdateRoundCounts(k);
      CountsAppend(UpdateRound(k), rest.trace);
    } else {
      assert run == Run(Raised(update(k).value), [Call, Updated]);
      UpdateRoundCounts(k);
    }
  }

  lemma UpdateRoundCounts(j: nat)
    ensures Calls([Call, Updated]) == 1 && Updates([Call, Updated]) == 1 && Sleeps([Call, Updated]) == []
    ensures Calls(UpdateRound(j)) == 1 && Updates(UpdateRound(j)) == 1 && Sleeps(UpdateRound(j)) == [SleepAt(j)]
  {
    CountsAppend([Call], [Updated]);
    CountsAppend([Call, Updated], [Slept(SleepAt(j))]);
    assert [Updated][1..] == [] && [Slept(SleepAt(j))][1..] == [];
    LastCallCounts();
    assert [Call] + [Updated] == [Call, Updated];
    assert [Call, Updated] + [Slept(SleepAt(j))] == UpdateRound(j);
  }

  /** Refreshes sit between the call that failed and the sleep that follows it. */
  lemma {:induction false} WithUpdateRefreshPositions<T>(fn: nat -> Outcome<T>, update: nat -> Option<Exc>,
                                                         caught: Exc -> bool, ttl: real, k: nat)
    ensures var t := WithUpdateLoop(fn, update, caught, ttl, k).trace;
      forall j :: 0 <= j < |t| && t[j].Updated? ==> 0 < j && t[j - 1] == Call && (j + 1 == |t| || t[j + 1].Slept?)
    decreases GuardedCalls(ttl) - k
  {
    var out := fn(k);
    if Retried(out, caught, ttl, k) && update(k).None? {
      var rest := WithUpdateLoop(fn, update, caught, ttl, k + 1);
      WithUpdateRefreshPositions(fn, update, caught, ttl, k + 1);
      var t := UpdateRound(k) + rest.trace;
      assert WithUpdateLoop(fn, update, caught, ttl, k).trace == t;
      WithUpdateStartsWithCall(fn, update, caught, ttl, k + 1);
      forall j | 0 <= j < |t| && t[j].Updated?
        ensures 0 < j && t[j - 1] == Call && (j + 1 == |t| || t[j + 1].Slept?)
      {
        if j >= 3 {
          assert t[j] == rest.trace[j - 3];
          assert j > 3;
          assert t[j - 1] == rest.trace[j - 4];
          if j + 1 < |t| {
            assert t[j + 1] == rest.trace[j - 2];
          }
        } else {
          assert j == 1;
        }
      }
    }
  }

  lemma WithUpdateStartsWithCall<T>(fn: nat -> Outcome<T>, update: nat -> Option<Exc>, caught: Exc -> bool, ttl: real, k: nat)
    ensures var t := WithUpdateLoop(fn, update, caught, ttl, k).trace;
      |t| > 0 && t[0] == Call
  {
  }

  lemma {:induction false} UpdateRoundsCounts(m: nat)
    ensures Calls(UpdateRounds(m)) == m && Updates(UpdateRounds(m)) == m
  {
    if m > 0 {
      UpdateRoundsCounts(m - 1);
      CountsAppend(UpdateRounds(m - 1), UpdateRound(m - 1));
      UpdateRoundCounts(m - 1);
    }
  }

  /** `elements.with_update(fn, ttl=20)` with an operation that always
      raises an instance of the class and refreshes that return: eight
      rounds of call, refresh and sleep, then the ninth, unguarded call. */
  lemma WithUpdateAlwaysFailingTwenty<T>(fn: nat -> Outcome<T>, update: nat -> Option<Exc>, caught: Exc -> bool)
    requires forall j :: fn(j).Raised? && caught(fn(j).exc) && update(j).None?
    ensures var run := WithUpdateLoop(fn, update, caught, DefaultTtl, 0);
      && run == Then(UpdateRounds(8), Run(fn(8), [Call]))
      && Calls(run.trace) == 9
      && Updates(run.trace) == 8
  {
    ScheduleOfTwenty();
    assert forall i :: 0 <= i < 8 ==> Retried(fn(i), caught, DefaultTtl, i) && update(i).None?;
    WithUpdatePrefix(fn, update, caught, DefaultTtl, 8);
    assert WithUpdateLoop(fn, update, caught, DefaultTtl, 8) == Run(fn(8), [Call]);
    UpdateRoundsCounts(8);
    CountsAppend(UpdateRounds(8), [Call]);
    LastCallCounts();
  }

  /** The outcomes recorded so far, read as an oracle: the k-th one, or `d`
      past the end. */
  function Observed<T>(s: seq<T>, d: T): nat -> T {
    (k: nat) => if k < |s| then s[k] else d
  }

  /** The first k calls of `with_update` were retried and their refreshes
      returned. */
  ghost predicate RoundsRetried<T>(outs: seq<Outcome<T>>, ups: seq<Option<Exc>>, caught: Exc -> bool, ttl: real, k: nat) {
    |outs| >= k && |ups| >= k && forall i :: 0 <= i < k ==> Retried(outs[i], caught, ttl, i) && ups[i] == None
  }

  /** A `with_update` run that records its outcomes as it goes ends on its
      k-th call: on a call it does not retry, or on a refresh that raised. */
  lemma WithUpdateSettles<T>(outs: seq<Outcome<T>>, ups: seq<Option<Exc>>, d: Outcome<T>, caught: Exc -> bool,
                             ttl: real, k: nat)
    requires |outs| == k + 1 && RoundsRetried(outs, ups, caught, ttl, k)
    ensures !Retried(outs[k], caught, ttl, k) ==>
      WithUpdateLoop(Observed(outs, d), Observed(ups, None), caught, ttl, 0) == Then(UpdateRounds(k), Run(outs[k], [Call]))
    ensures Retried(outs[k], caught, ttl, k) && |ups| == k + 1 && ups[k].Some? ==>
      WithUpdateLoop(Observed(outs, d), Observed(ups, None), caught, ttl, 0)
        == Then(UpdateRounds(k), Run(Raised(ups[k].value), [Call, Updated]))
  {
    var fn, update := Observed(outs, d), Observed(ups, None);
    assert forall i :: 0 <= i < k ==> fn(i) == outs[i] && update(i) == ups[i];
    WithUpdatePrefix(fn, update, caught, ttl, k);
    assert fn(k) == outs[k];
    if |ups| == k + 1 {
      assert update(k) == ups[k];
    }
  }

  /** The counts of a settled run: one refresh per retried round, plus the
      one that raised, if any. */
  lemma SettledCounts(k: nat, last: seq<Event>)
    requires last == [Call] || last == [Call, Updated]
    ensures Calls(UpdateRounds(k) + last) == k + 1
    ensures Updates(UpdateRounds(k) + last) == k + (if last == [Call] then 0 else 1)
  {
    UpdateRoundsCounts(k);
    CountsAppend(UpdateRounds(k), last);
    LastCallCounts();
    UpdateRoundCounts(0);
  }

  /** One more retried round whose refresh returned. */
  lemma RoundsRetriedStep<T>(outs: seq<Outcome<T>>, ups: seq<Option<Exc>>, caught: Exc -> bool, ttl: real, k: nat,
                             out: Outcome<T>)
    requires |outs| == k && |ups| == k && RoundsRetried(outs, ups, caught, ttl, k)
    requires Retried(out, caught, ttl, k)
    ensures RoundsRetried(outs + [out], ups + [None], caught, ttl, k + 1)
  {
    assert forall i :: 0 <= i < k ==> (outs + [out])[i] == outs[i] && (ups + [None])[i] == ups[i];
  }

  /** The run a `with_update` loop that recorded its outcomes made, once it
      stops on its k-th call: on an outcome it does not retry, or on a
      refresh that raised. */
  ghost predicate Settles<T>(outs: seq<Outcome<T>>, ups: seq<Option<Exc>>, caught: Exc -> bool, ttl: real, k: nat,
                             r: Outcome<T>) {
    && |outs| == k + 1 && RoundsRetried(outs, ups, caught, ttl, k)
    && (|| (|ups| == k && !Retried(outs[k], caught, ttl, k) && r == outs[k])
        || (|ups| == k + 1 && Retried(outs[k], caught, ttl, k) && ups[k].Some? && r == Raised(ups[k].value)))
  }

  lemma WithUpdateConclude<T>(outs: seq<Outcome<T>>, ups: seq<Option<Exc>>, d: Outcome<T>, caught: Exc -> bool,
                              ttl: real, k: nat, r: Outcome<T>)
    returns (trace: seq<Event>)
    requires Settles(outs, ups, caught, ttl, k, r)
    ensures Run(r, trace) == WithUpdateLoop(Observed(outs, d), Observed(ups, None), caught, ttl, 0)
    ensures Updates(trace) == |ups|
    ensures Calls(trace) == k + 1
    ensures |outs| >= 1 && (!Retried(outs[0], caught, ttl, 0) ==> r == outs[0] && |outs| == 1 && ups == [])
    ensures Retried(outs[0], caught, ttl, 0) ==> |ups| >= 1
  {
    WithUpdateSettles(outs, ups, d, caught, ttl, k);
    var last := if |ups| == k then [Call] else [Call, Updated];
    trace := UpdateRounds(k) + last;
    SettledCounts(k, last);
  }

  /** One failed round of either loop: the loop state moves from the k-th
      to the (k+1)-th entry of the schedule. */
  lemma RetryStep(ttl: real, k: nat)
    requires Guarded(ttl, k)
    ensures ttl - SleptBefore(k + 1) == ttl - SleptBefore(k) - SleepAt(k)
    ensures SleepAt(k + 1) == SleepAt(k) + Min(SleepAt(k) + SleepAt(k), 1.0)
    ensures k < GuardedCalls(ttl)
  {
    GuardedCallsCount(ttl, k);
  }

  /** The state of a `with_update` loop that records its outcomes, before
      its k-th call (`done` false) or once it has settled on it. */
  ghost predicate UpdateLoopAt<T>(caught: Exc -> bool, ttl: real, k: nat, outs: seq<Outcome<T>>, ups: seq<Option<Exc>>,
                                  r: Outcome<T>, done: bool, left: real, sleepTime: real) {
    && RoundsRetried(outs, ups, caught, ttl, k)
    && (!done ==> |outs| == k && |ups| == k && left == ttl - SleptBefore(k) && sleepTime == SleepAt(k))
    && (done ==> Settles(outs, ups, caught, ttl, k, r))
  }

  /** One guarded round: the call's outcome `out` and, when it was retried,
      what the refresh raised. */
  lemma UpdateLoopStep<T>(caught: Exc -> bool, ttl: real, k: nat, outs: seq<Outcome<T>>, ups: seq<Option<Exc>>,
                          out: Outcome<T>, e: Option<Exc>, left: real, sleepTime: real)
    returns (k': nat, outs': seq<Outcome<T>>, ups': seq<Option<Exc>>)
    requires UpdateLoopAt(caught, ttl, k, outs, ups, out, false, left, sleepTime) && left > 0.0
    ensures var retry := out.Raised? && caught(out.exc);
      var done := !retry || e.Some?;
      && UpdateLoopAt(caught, ttl, k', outs', ups', if retry && e.Some? then Raised(e.value) else out, done,
                      if done then left else left - sleepTime,
                      if done then sleepTime else sleepTime + Min(sleepTime + sleepTime, 1.0))
      && outs' == outs + [out]
      && ups' == (if retry then ups + [e] else ups)
      && k' == (if done then k else k + 1)
      && k < GuardedCalls(ttl)
  {
    RetryStep(ttl, k);
    outs' := outs + [out];
    var retry := out.Raised? && caught(out.exc);
    ups' := if retry then ups + [e] else ups;
    k' := k;
    if retry && e.None? {
      RoundsRetriedStep(outs, ups, caught, ttl, k, out);
      k' := k + 1;
    }
  }

  /** The unguarded call that ends the loop once the ttl is spent. */
  lemma UpdateLoopLast<T>(caught: Exc -> bool, ttl: real, k: nat, outs: seq<Outcome<T>>, ups: seq<Option<Exc>>,
                          out: Outcome<T>, left: real, sleepTime: real)
    requires UpdateLoopAt(caught, ttl, k, outs, ups, out, false, left, sleepTime) && !(left > 0.0)
    ensures Settles(outs + [out], ups, caught, ttl, k, out)
  {
    GuardedCallsCount(ttl, k);
    assert forall i :: 0 <= i < k ==> (outs + [out])[i] == outs[i];
  }
}
