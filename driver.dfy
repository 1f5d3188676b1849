/** The Selenium WebDriver session the elements talk to, together with the
    process clock that `time.time()` reads and `time.sleep()` advances.

    Selenium is a foreign library, so the driver is an oracle: `respond(t, q)`
    is what the t-th request sent to it returns or raises, whatever the page
    does in between. Every request is logged; the clock moves forward by the
    request's latency and by every sleep. */
module Driver {
  import opened Errors
  import opened Traces
  import opened Retry
  import opened PyList
  import C = Classes

  /** What a collection holds: the WebDriver object itself (the default
      item of a top-level collection) or a web element. */
  datatype Node = Window | Element(id: nat)

  /** The four `find_elements_by_*` lookups. */
  datatype QueryKind = Css | XPath | LinkText | PartialLinkText

  /** How Selenium's Select helper picks options. */
  datatype Choice = ByIndex(index: int) | ByValue(value: string) | ByVisibleText(text: string) | AllOptions

  /** Everything the library asks of Selenium. */
  datatype Request =
    | FindAll(kind: QueryKind, node: Node, selector: string)
    | IsDisplayed(node: Node) | IsEnabled(node: Node) | IsSelected(node: Node)
    | GetText(node: Node) | GetTagName(node: Node) | GetAttribute(node: Node, name: string)
    | Clear(node: Node) | Click(node: Node) | SendKeys(node: Node, keys: string)
    | WrapSelect(node: Node)                     // Select(node), which checks the tag
    | SelectOption(node: Node, choice: Choice)
    | DeselectOption(node: Node, choice: Choice)
    | Navigate(url: string) | Title | PageSource | ExecuteScript(script: string)
    | Invoke(name: string)                       // a function of the caller's, run by `run`

  /** A Python value the driver or a callback returns. */
  datatype Value = NoneValue | BoolValue(b: bool) | IntValue(i: int) | StrValue(s: string) | NodesValue(nodes: seq<Node>)

  /** Python truthiness. */
  predicate Truthy(v: Value) {
    match v
    case NoneValue => false
    case BoolValue(b) => b
    case IntValue(i) => i != 0
    case StrValue(s) => s != ""
    case NodesValue(ns) => ns != []
  }

  /** Selenium raises only its own exceptions, never one of this library's
      timeouts. */
  predicate DriverError(e: Exc) {
    e.Foreign? && e.cls != C.ElementsTimeOutError && e.cls != C.ExcTimeOutError
  }

  /** A lookup returns a list of at most `bound` nodes when it returns. */
  predicate FindReplyFits(reply: Outcome<Value>, bound: nat) {
    reply.Ok? ==> reply.value.NodesValue? && |reply.value.nodes| <= bound
  }

  /** One `is_displayed()` request per node, in order. */
  function DisplayQueries(ms: seq<Node>): (qs: seq<Request>)
    ensures |qs| == |ms|
  {
    if ms == [] then [] else DisplayQueries(ms[..|ms| - 1]) + [IsDisplayed(ms[|ms| - 1])]
  }

  /** What `filter(lambda obj: obj.is_displayed(), ms)` makes of the replies
      to its questions, asked from the t-th request on: the truth of every
      answer, or the first error, which ends the filter. */
  function DisplayFilter(respond: (nat, Request) -> Outcome<Value>, t: nat, ms: seq<Node>): (r: Outcome<seq<bool>>)
    ensures r.Ok? ==> |r.value| == |ms|
    ensures r.Ok? ==> forall j :: 0 <= j < |ms| ==>
      respond(t + j, IsDisplayed(ms[j])).Ok? && r.value[j] == Truthy(respond(t + j, IsDisplayed(ms[j])).value)
  {
    if ms == [] then Ok([])
    else
      var n := |ms| - 1;
      var reply := respond(t + n, IsDisplayed(ms[n]));
      match DisplayFilter(respond, t, ms[..n])
      case Raised(e) => Raised(e)
      case Ok(flags) =>
        assert forall j :: 0 <= j < n ==> ms[..n][j] == ms[j];
        if reply.Raised? then Raised(reply.exc) else Ok(flags + [Truthy(reply.value)])
  }

  /** How many of the questions the filter asks: all of them, unless one
      raises, which is the last asked. */
  function DisplayAsked(respond: (nat, Request) -> Outcome<Value>, t: nat, ms: seq<Node>): (n: nat)
    ensures n <= |ms|
    ensures DisplayFilter(respond, t, ms).Ok? ==> n == |ms|
  {
    if ms == [] then 0
    else if DisplayFilter(respond, t, ms[..|ms| - 1]).Raised? then DisplayAsked(respond, t, ms[..|ms| - 1])
    else |ms|
  }

  /** The filter stops at the first error: when the j-th answer is the
      first that raises, that is the filter's outcome and j + 1 questions
      were asked. */
  lemma {:induction false} DisplayFilterFirstError(respond: (nat, Request) -> Outcome<Value>, t: nat, ms: seq<Node>, j: nat)
    requires j < |ms| && respond(t + j, IsDisplayed(ms[j])).Raised?
    requires forall i :: 0 <= i < j ==> respond(t + i, IsDisplayed(ms[i])).Ok?
    ensures DisplayFilter(respond, t, ms) == Raised(respond(t + j, IsDisplayed(ms[j])).exc)
    ensures DisplayAsked(respond, t, ms) == j + 1
  {
    var n := |ms| - 1;
    if j == n {
      DisplayFilterAllOk(respond, t, ms[..n]);
    } else {
      DisplayFilterFirstError(respond, t, ms[..n], j);
    }
  }

  /** When the filter raises, the last question it asked raised that
      error and every earlier one was answered. */
  lemma {:induction false} DisplayFilterRaised(respond: (nat, Request) -> Outcome<Value>, t: nat, ms: seq<Node>)
    requires DisplayFilter(respond, t, ms).Raised?
    ensures var sent := DisplayAsked(respond, t, ms);
      && 0 < sent
      && respond(t + sent - 1, IsDisplayed(ms[sent - 1])) == Raised(DisplayFilter(respond, t, ms).exc)
      && forall j :: 0 <= j < sent - 1 ==> respond(t + j, IsDisplayed(ms[j])).Ok?
  {
    var n := |ms| - 1;
    if DisplayFilter(respond, t, ms[..n]).Raised? {
      DisplayFilterRaised(respond, t, ms[..n]);
      assert forall j :: 0 <= j < n ==> ms[..n][j] == ms[j];
    }
  }

  /** The filter raises only when one of its answers does. */
  lemma {:induction false} DisplayFilterAllOk(respond: (nat, Request) -> Outcome<Value>, t: nat, ms: seq<Node>)
    requires forall i :: 0 <= i < |ms| ==> respond(t + i, IsDisplayed(ms[i])).Ok?
    ensures DisplayFilter(respond, t, ms).Ok?
  {
    if ms != [] {
      var n := |ms| - 1;
      DisplayFilterAllOk(respond, t, ms[..n]);
    }
  }

  /** The replies to the same request sent again and again from the t-th request on. */
  function Replies(respond: (nat, Request) -> Outcome<Value>, t: nat, req: Request): nat -> Outcome<Value> {
    (k: nat) => respond(t + k, req)
  }

  /** `time.sleep` refuses a negative length; Python 2 raises IOError. */
  const SleepRefused: Exc := Foreign(C.Other("IOError"))

  class WebDriver {
    /** `respond(t, q)`: what the t-th request returns or raises. */
    const respond: (nat, Request) -> Outcome<Value>
    /** `latency(t)`: how long the t-th request takes. */
    const latency: nat -> real
    /** The most nodes one lookup returns: a page is finite. */
    const maxMatches: nat

    /** The requests sent so far, in order. */
    var log: seq<Request>
    /** What `time.time()` returns now. */
    var now: real
    /** The lengths of the sleeps so far, in order. */
    ghost var slept: seq<real>
    /** The collections refreshed so far, in the order their items were reassigned. */
    ghost var refreshed: seq<object>

    /** Between two states the records only grew: nothing sent, slept or
        refreshed is ever forgotten. */
    twostate predicate Grew()
      reads this
    {
      old(log) <= log && old(slept) <= slept && old(refreshed) <= refreshed
    }

    /** Requests take no negative time. */
    ghost predicate Clocked() {
      forall t: nat :: latency(t) >= 0.0
    }

    ghost predicate Valid() {
      && Clocked()
      && (forall t: nat, q: Request :: respond(t, q).Raised? ==> DriverError(respond(t, q).exc))
      && (forall t: nat, kind: QueryKind, node: Node, selector: string ::
            FindReplyFits(respond(t, FindAll(kind, node, selector)), maxMatches))
    }

    constructor (respond: (nat, Request) -> Outcome<Value>, latency: nat -> real, maxMatches: nat, start: real)
      requires forall t: nat :: latency(t) >= 0.0
      requires forall t: nat, q: Request :: respond(t, q).Raised? ==> DriverError(respond(t, q).exc)
      requires forall t: nat, kind: QueryKind, node: Node, selector: string ::
                 FindReplyFits(respond(t, FindAll(kind, node, selector)), maxMatches)
      ensures Valid()
      ensures this.respond == respond && this.latency == latency
      ensures this.maxMatches == maxMatches
      ensures log == [] && now == start && slept == [] && refreshed == []
    {
      this.respond := respond;
      this.latency := latency;
      this.maxMatches := maxMatches;
      log := [];
      now := start;
      slept := [];
      refreshed := [];
    }

    /** Send one request and wait for its reply. */
    method Send(req: Request) returns (r: Outcome<Value>)
      modifies this
      ensures r == respond(old(|log|), req)
      ensures log == old(log) + [req]
      ensures now == old(now) + latency(old(|log|))
      ensures Clocked() ==> now >= old(now)
      ensures slept == old(slept) && refreshed == old(refreshed)
    {
      r := respond(|log|, req);
      now := now + latency(|log|);
      log := log + [req];
    }

    /** `time.sleep(seconds)` */
    method Sleep(seconds: real) returns (r: Option<Exc>)
      modifies this
      ensures seconds < 0.0 ==> r == Some(SleepRefused) && now == old(now) && slept == old(slept)
      ensures seconds >= 0.0 ==> r == None && now == old(now) + seconds && slept == old(slept) + [seconds]
      ensures log == old(log) && now >= old(now) && refreshed == old(refreshed)
    {
      if seconds < 0.0 {
        r := Some(SleepRefused);
      } else {
        r := None;
        now := now + seconds;
        slept := slept + [seconds];
      }
    }

    /** One `is_displayed()` question of the filter below, the i-th. */
    method AskDisplayed(ghost log0: seq<Request>, ms: seq<Node>, i: nat, ghost flags: seq<bool>)
      returns (reply: Outcome<Value>)
      requires i < |ms| && FlagsAt(respond, log0, ms, i, flags, log)
      modifies this
      ensures reply == respond(|log0| + i, IsDisplayed(ms[i]))
      ensures log == log0 + DisplayQueries(ms[..i + 1])
      ensures reply.Ok? ==> FlagsAt(respond, log0, ms, i + 1, flags + [Truthy(reply.value)], log)
      ensures reply.Raised? ==> FlagsStopped(respond, log0, ms, i, Raised(reply.exc), log)
      ensures slept == old(slept) && refreshed == old(refreshed)
      ensures Clocked() ==> now >= old(now)
    {
      reply := Send(IsDisplayed(ms[i]));
      assert ms[..i + 1] == ms[..i] + [ms[i]];
      assert ms[..i + 1][..i] == ms[..i];
    }

    /** `filter(lambda obj: obj.is_displayed(), matches)`: ask each match in
        turn whether it is displayed; the first error ends the filter. The
        outcome and the questions asked are those `DisplayFilter` and
        `DisplayAsked` give. */
    method DisplayedFlags(ms: seq<Node>) returns (r: Outcome<seq<bool>>)
      modifies this
      ensures r == DisplayFilter(respond, old(|log|), ms)
      ensures log == old(log) + DisplayQueries(ms[..DisplayAsked(respond, old(|log|), ms)])
      ensures slept == old(slept) && refreshed == old(refreshed)
      ensures Clocked() ==> now >= old(now)
    {
      var flags: seq<bool> := [];
      var i := 0;
      r := Ok([]);
      var done := false;
      while !done && i < |ms|
        invariant !done ==> FlagsAt(respond, old(log), ms, i, flags, log)
        invariant done ==> FlagsStopped(respond, old(log), ms, i, r, log)
        invariant slept == old(slept) && refreshed == old(refreshed)
        invariant Clocked() ==> now >= old(now)
        decreases |ms| - i, if done then 0 else 1
      {
        var reply := AskDisplayed(old(log), ms, i, flags);
        if reply.Raised? {
          r := Raised(reply.exc);
          done := true;
        } else {
          flags := flags + [Truthy(reply.value)];
          i := i + 1;
        }
      }
      if !done {
        r := Ok(flags);
      }
      FlagsFinish(respond, old(log), ms, i, flags, r, done, log);
    }

    /** One pass of the `while ttl > 0` loop of `with_retry`, before its
        k-th call: call, and when the call raises an instance of the class,
        sleep, take the sleep off `ttl` and grow the next sleep. */
    method RetryPass(req: Request, cls: ClassName, ttl: real, ghost log0: seq<Request>, ghost slept0: seq<real>,
                     ghost k: nat, left: real, sleepTime: real)
      returns (r: Outcome<Value>, retry: bool, left': real, sleepTime': real)
      requires Clocked() && left > 0.0
      requires RetryLoopAt(respond, req, cls, ttl, log0, slept0, log, slept, k, Ok(NoneValue), false, left, sleepTime)
      modifies this
      ensures RetryLoopAt(respond, req, cls, ttl, log0, slept0, log, slept, if retry then k + 1 else k, r, !retry,
                          left', sleepTime')
      ensures k < GuardedCalls(ttl) && now >= old(now)
    {
      r := Send(req);
      retry := r.Raised? && Retryable(r.exc, cls);
      left', sleepTime' := left, sleepTime;
      if retry {
        var _ := Sleep(sleepTime);
        left' := left - sleepTime;
        sleepTime' := sleepTime + Min(sleepTime + sleepTime, 1.0);
      }
      RetryAdvance(respond, req, cls, ttl, log0, slept0, old(log), old(slept), k, r, retry, left, sleepTime);
    }

    /** After the loop of `with_retry`: the unguarded call once `ttl` is
        spent, then the run it has made. */
    method Settle(req: Request, cls: ClassName, ttl: real, ghost log0: seq<Request>, ghost slept0: seq<real>,
                  ghost k: nat, r0: Outcome<Value>, done: bool, left: real, sleepTime: real)
      returns (r: Outcome<Value>, ghost trace: seq<Event>)
      requires Clocked() && (done || !(left > 0.0))
      requires RetryLoopAt(respond, req, cls, ttl, log0, slept0, log, slept, k, r0, done, left, sleepTime)
      modifies this
      ensures Run(r, trace) == WithRetryLoop(Replies(respond, |log0|, req), Catching(cls), ttl, 0)
      ensures log == log0 + Repeat(req, Calls(trace))
      ensures slept == slept0 + Sleeps(trace)
      ensures now >= old(now)
    {
      r := r0;
      if !done {
        r := Send(req);
        RetryLast(respond, req, cls, ttl, log0, slept0, old(log), slept, k, r, left, sleepTime);
      }
      trace := Conclude(respond, req, cls, ttl, log0, slept0, log, slept, k, r);
    }

    /** `with_retry(lambda: <req>, cls, ttl)` (elementium/elements.py): the
        retried operation is one request to the driver. */
    method WithRetry(req: Request, cls: ClassName, ttl: real) returns (r: Outcome<Value>, ghost trace: seq<Event>)
      requires Valid()
      modifies this
      ensures Run(r, trace) == WithRetryLoop(Replies(respond, old(|log|), req), Catching(cls), ttl, 0)
      ensures log == old(log) + Repeat(req, Calls(trace))
      ensures slept == old(slept) + Sleeps(trace)
      ensures now >= old(now)
    {
      var left := ttl;
      var sleepTime := DefaultSleepTime;
      ghost var k: nat := 0;
      var done := false;
      r := Ok(NoneValue);
      while !done && left > 0.0
        invariant RetryLoopAt(respond, req, cls, ttl, old(log), old(slept), log, slept, k, r, done, left, sleepTime)
        invariant now >= old(now)
        decreases GuardedCalls(ttl) - k, if done then 0 else 1
      {
        var retry;
        r, retry, left, sleepTime := RetryPass(req, cls, ttl, old(log), old(slept), k, left, sleepTime);
        if retry {
          k := k + 1;
        } else {
          done := true;
        }
      }
      r, trace := Settle(req, cls, ttl, old(log), old(slept), k, r, done, left, sleepTime);
    }
  }

  /** The filter's loop state once the i-th question has raised. */
  ghost predicate FlagsStopped(respond: (nat, Request) -> Outcome<Value>, log0: seq<Request>, ms: seq<Node>, i: nat,
                               r: Outcome<seq<bool>>, log: seq<Request>)
  {
    && i < |ms| && log == log0 + DisplayQueries(ms[..i + 1])
    && r.Raised? && respond(|log0| + i, IsDisplayed(ms[i])) == Raised(r.exc)
    && forall j :: 0 <= j < i ==> respond(|log0| + j, IsDisplayed(ms[j])).Ok?
  }

  /** Where the filter's loop ends, its outcome and requests are those the
      filter's definition gives. */
  lemma FlagsFinish(respond: (nat, Request) -> Outcome<Value>, log0: seq<Request>, ms: seq<Node>, i: nat,
                    flags: seq<bool>, r: Outcome<seq<bool>>, done: bool, log: seq<Request>)
    requires done ==> FlagsStopped(respond, log0, ms, i, r, log)
    requires !done ==> i == |ms| && r == Ok(flags) && FlagsAt(respond, log0, ms, i, flags, log)
    ensures r == DisplayFilter(respond, |log0|, ms)
    ensures log == log0 + DisplayQueries(ms[..DisplayAsked(respond, |log0|, ms)])
  {
    if done {
      FlagsFinishRaised(respond, log0, ms, i, r, log);
    } else {
      assert ms[..i] == ms;
    }
  }

  lemma FlagsFinishRaised(respond: (nat, Request) -> Outcome<Value>, log0: seq<Request>, ms: seq<Node>, i: nat,
                          r: Outcome<seq<bool>>, log: seq<Request>)
    requires FlagsStopped(respond, log0, ms, i, r, log)
    ensures r == DisplayFilter(respond, |log0|, ms) && DisplayAsked(respond, |log0|, ms) == i + 1
    ensures log == log0 + DisplayQueries(ms[..i + 1])
  {
    DisplayFilterFirstError(respond, |log0|, ms, i);
  }

  /** The filter has asked about the first i matches, in order, from the
      request log `log0` on, and collected their answers. */
  ghost predicate FlagsAt(respond: (nat, Request) -> Outcome<Value>, log0: seq<Request>, ms: seq<Node>, i: nat,
                          flags: seq<bool>, log: seq<Request>)
  {
    && i <= |ms| && Ok(flags) == DisplayFilter(respond, |log0|, ms[..i]) && log == log0 + DisplayQueries(ms[..i])
    && forall j :: 0 <= j < i ==> respond(|log0| + j, IsDisplayed(ms[j])).Ok?
  }

  /** After k retried calls of `with_retry`, counted from the request log
      `log0` and the sleep record `slept0`. */
  ghost predicate RetryAt(respond: (nat, Request) -> Outcome<Value>, req: Request, cls: ClassName, ttl: real,
                          log0: seq<Request>, slept0: seq<real>, log: seq<Request>, slept: seq<real>, k: nat)
  {
    && log == log0 + Repeat(req, k)
    && RepliesRetried(respond, |log0|, req, Catching(cls), ttl, k)
    && slept == slept0 + Schedule(k)
  }

  /** `with_retry` has made its last call, the k-th, whose reply is r. */
  ghost predicate RetrySettled(respond: (nat, Request) -> Outcome<Value>, req: Request, cls: ClassName, ttl: real,
                               log0: seq<Request>, slept0: seq<real>, log: seq<Request>, slept: seq<real>, k: nat,
                               r: Outcome<Value>)
  {
    && log == log0 + Repeat(req, k + 1)
    && r == respond(|log0| + k, req)
    && RepliesRetried(respond, |log0|, req, Catching(cls), ttl, k)
    && !Retried(r, Catching(cls), ttl, k)
    && slept == slept0 + Schedule(k)
  }

  /** The loop of `with_retry` before its k-th call, with `left` of the
      budget and the next sleep `sleepTime` (`done` false), or once it has
      settled on that call's reply r. */
  ghost predicate RetryLoopAt(respond: (nat, Request) -> Outcome<Value>, req: Request, cls: ClassName, ttl: real,
                              log0: seq<Request>, slept0: seq<real>, log: seq<Request>, slept: seq<real>, k: nat,
                              r: Outcome<Value>, done: bool, left: real, sleepTime: real)
  {
    if done then RetrySettled(respond, req, cls, ttl, log0, slept0, log, slept, k, r)
    else RetryAt(respond, req, cls, ttl, log0, slept0, log, slept, k) && left == ttl - SleptBefore(k) && sleepTime == SleepAt(k)
  }

  /** A call inside the budget: a retried reply moves to the next round
      (one more request, one more sleep of the scheduled length, the budget
      less that sleep), any other reply settles the run. */
  lemma RetryAdvance(respond: (nat, Request) -> Outcome<Value>, req: Request, cls: ClassName, ttl: real,
                     log0: seq<Request>, slept0: seq<real>, log: seq<Request>, slept: seq<real>, k: nat,
                     r: Outcome<Value>, retry: bool, left: real, sleepTime: real)
    requires RetryLoopAt(respond, req, cls, ttl, log0, slept0, log, slept, k, r, false, left, sleepTime) && left > 0.0
    requires r == respond(|log|, req) && retry == (r.Raised? && Retryable(r.exc, cls))
    ensures RetryLoopAt(respond, req, cls, ttl, log0, slept0, log + [req],
                        if retry then slept + [sleepTime] else slept, if retry then k + 1 else k, r, !retry,
                        if retry then left - sleepTime else left,
                        if retry then sleepTime + Min(sleepTime + sleepTime, 1.0) else sleepTime)
    ensures k < GuardedCalls(ttl)
  {
    RetryStep(ttl, k);
    assert retry == Retried(r, Catching(cls), ttl, k);
    if retry {
      RetriedRound(respond, req, cls, ttl, log0, slept0, log, slept, k, r);
    } else {
      SettledRound(respond, req, cls, ttl, log0, slept0, log, slept, k, r);
    }
  }

  /** A retried call adds one request and one sleep of the scheduled length. */
  lemma RetriedRound(respond: (nat, Request) -> Outcome<Value>, req: Request, cls: ClassName, ttl: real,
                     log0: seq<Request>, slept0: seq<real>, log: seq<Request>, slept: seq<real>, k: nat,
                     r: Outcome<Value>)
    requires RetryAt(respond, req, cls, ttl, log0, slept0, log, slept, k)
    requires r == respond(|log|, req) && Retried(r, Catching(cls), ttl, k)
    ensures RetryAt(respond, req, cls, ttl, log0, slept0, log + [req], slept + [SleepAt(k)], k + 1)
  {
    assert log + [req] == log0 + Repeat(req, k + 1);
    assert Schedule(k + 1) == Schedule(k) + [SleepAt(k)];
  }

  /** Any other reply settles the run on this call. */
  lemma SettledRound(respond: (nat, Request) -> Outcome<Value>, req: Request, cls: ClassName, ttl: real,
                     log0: seq<Request>, slept0: seq<real>, log: seq<Request>, slept: seq<real>, k: nat,
                     r: Outcome<Value>)
    requires RetryAt(respond, req, cls, ttl, log0, slept0, log, slept, k)
    requires r == respond(|log|, req) && !Retried(r, Catching(cls), ttl, k)
    ensures RetrySettled(respond, req, cls, ttl, log0, slept0, log + [req], slept, k, r)
  {
    assert log + [req] == log0 + Repeat(req, k + 1);
  }

  /** The call after the budget is spent settles the run. */
  lemma RetryLast(respond: (nat, Request) -> Outcome<Value>, req: Request, cls: ClassName, ttl: real,
                  log0: seq<Request>, slept0: seq<real>, log: seq<Request>, slept: seq<real>, k: nat,
                  r: Outcome<Value>, left: real, sleepTime: real)
    requires RetryLoopAt(respond, req, cls, ttl, log0, slept0, log, slept, k, r, false, left, sleepTime)
    requires !(left > 0.0) && r == respond(|log|, req)
    ensures RetrySettled(respond, req, cls, ttl, log0, slept0, log + [req], slept, k, r)
  {
    GuardedCallsCount(ttl, k);
    assert log + [req] == log0 + Repeat(req, k + 1);
  }

  /** The run `with_retry` made, once it has settled on its k-th call. */
  lemma Conclude(respond: (nat, Request) -> Outcome<Value>, req: Request, cls: ClassName, ttl: real,
                 log0: seq<Request>, slept0: seq<real>, log: seq<Request>, slept: seq<real>, k: nat, r: Outcome<Value>)
    returns (trace: seq<Event>)
    requires RetrySettled(respond, req, cls, ttl, log0, slept0, log, slept, k, r)
    ensures Run(r, trace) == WithRetryLoop(Replies(respond, |log0|, req), Catching(cls), ttl, 0)
    ensures log == log0 + Repeat(req, Calls(trace))
    ensures slept == slept0 + Sleeps(trace)
  {
    trace := Finish(respond, |log0|, req, Catching(cls), ttl, k, r);
  }

  /** The replies to the first m of the repeated requests were all retried. */
  ghost predicate RepliesRetried(respond: (nat, Request) -> Outcome<Value>, t: nat, req: Request,
                                 caught: Exc -> bool, ttl: real, m: nat)
  {
    m == 0 || (RepliesRetried(respond, t, req, caught, ttl, m - 1) && Retried(respond(t + m - 1, req), caught, ttl, m - 1))
  }

  lemma {:induction false} RepliesRetriedEach(respond: (nat, Request) -> Outcome<Value>, t: nat, req: Request,
                                              caught: Exc -> bool, ttl: real, m: nat)
    requires RepliesRetried(respond, t, req, caught, ttl, m)
    ensures forall i :: 0 <= i < m ==> Retried(Replies(respond, t, req)(i), caught, ttl, i)
  {
    if m > 0 {
      RepliesRetriedEach(respond, t, req, caught, ttl, m - 1);
    }
  }

  /** The last call of `with_retry` after k retried ones: the run is the k
      rounds, then that call. */
  lemma Finish(respond: (nat, Request) -> Outcome<Value>, t: nat, req: Request, caught: Exc -> bool, ttl: real, k: nat,
                r: Outcome<Value>)
    returns (trace: seq<Event>)
    requires RepliesRetried(respond, t, req, caught, ttl, k)
    requires r == respond(t + k, req) && !Retried(r, caught, ttl, k)
    ensures Run(r, trace) == WithRetryLoop(Replies(respond, t, req), caught, ttl, 0)
    ensures Calls(trace) == k + 1 && Sleeps(trace) == Schedule(k)
  {
    var fn := Replies(respond, t, req);
    RepliesRetriedEach(respond, t, req, caught, ttl, k);
    WithRetryPrefix(fn, caught, ttl, k);
    assert fn(k) == respond(t + k, req);
    trace := RetryRounds(k) + [Call];
    RetryRoundsCounts(k);
    RetryRoundsSleep(k);
    CountsAppend(RetryRounds(k), [Call]);
    LastCallCounts();
  }
}
