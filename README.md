# elementium in Dafny

A model of the core of elementium, a Python library that wraps Selenium's
web elements in jQuery-like collections and retries browser operations until
the page settles. The model covers three parts of the library.

- **The retry policies of `elementium/waiters.py`**
  - The budget checks of `Waiter.__init__` and `_check_args`.
  - The three `wait` loops:
    - `ExceptionRetryWaiter` retries on a recognised exception.
    - `ExceptionRetryElementsWaiter` also refreshes its bound collection.
    - `ConditionElementsWaiter` polls a predicate and refreshes.
- **The collection of `elementium/elements.py`**
  - The retry helpers `with_retry` and `with_update`.
  - `Elements`: its `items`, the sequence operations, `item`, `ttl`, the iterator, `update`, `foreach`, `until` and `insist`.
  - `ConditionWaiter.until`.
- **The Selenium subclass of `elementium/drivers/se.py`**
  - `get` and the queries `find`, `xpath` and `find_link`, each with its resolver.
  - `filter` and `parent`.
  - The first-item readers and the commands, including the `select`/`deselect` dispatch.
  - `title`, `source`, `navigate`, `run`, `execute_script` and scrolling.
  - The `ttl` fallback.

The modules follow the source.

| file | module | models |
|---|---|---|
| `errors.dfy` | `Classes`, `Errors` | The Python exception classes and their single-inheritance chain. `isinstance`. A call's outcome: a value, or a raised exception. |
| `traces.dfy` | `Traces` | The trace of calls, sleeps and refreshes a retry loop makes. |
| `waiters.dfy` | `Waiters` | `elementium/waiters.py`. |
| `retry.dfy` | `Retry` | The schedule and the runs of `with_retry` and `with_update`, as specification functions. |
| `pylist.dfy` | `PyList` | Python list indexing, assignment, deletion and `insert`, plus the flattening comprehension. |
| `driver.dfy` | `Driver` | The Selenium session, as a class. It holds the request log, the clock that `time.time()` reads and `time.sleep()` advances, and the imperative `with_retry` loop. |
| `callbacks.dfy` | `Callbacks` | The pure parts of `se.py`: the callbacks, the resolvers, the dispatch rules and the scroll script. |
| `collection.dfy` | `Collection` | `Elements` as a class whose methods update `items` in place. Also the config dict and `ElementsIterator`. |
| `se.dfy` | `Se` | The `SeElements` methods that build on the collection. |

Selenium, the wall clock and the caller's callbacks are outside the library, so they are oracles:

- `respond(t, q)` is what the t-th request to the driver returns or raises.
- `fn(k)` is what the k-th call of a retried operation does.
- `clock(k)` is the k-th reading of `time.time()`.

A callback of `se.py` is specified by two functions of the oracle: `Callbacks.Answer`, what it returns or raises, and `Callbacks.Asked`, the requests it sends. A driver is *steady* for a callback (`Callbacks.Steady`) when it answers that callback's questions the same way whenever they are asked and never raises. Over a steady driver every round of `foreach` repeats the first.

Each loop is a method proved equal to a specification function of these oracles. Lemmas then prove what the source promises about that function: call counts, the sleep schedule, where refreshes happen, and which exception escapes.

Where the code departs from its docstrings or its tests, the model follows the code:

- `foreach` applies `fn` to the whole collection in every round, not to the item the loop has reached. Its `ttl` shrinks by the total time elapsed since the start, every round, so the shrinkage compounds.
- A query's resolver therefore repeats the first item's matches once per item of its context.
- `filter` drops the result of its predicate.
- `insist` evaluates its condition on `None` after a timeout.
- `min(pause + pause, pause * 4)` in the waiters is plain doubling.
- The constructor refreshes eagerly. The `lazy=` keyword and the `retried` method that `tests/test_elements.py` exercises do not exist in the code.

## Model

| member | source | states |
|---|---|---|
| Classes.Base | elementium/exc.py:7-14 | Every modelled class except BaseException has one direct base, one step nearer the root. elementium's TimeOutError derives from ElementiumError, which derives from Exception. |
| Classes.TimeOutsAreLeaves | elementium/elements.py:563-566 | A class is a subclass of either TimeOutError only when it is that class. So `except TimeOutError` in `insist` catches exactly that class. |
| Errors.TimeOutErrorsAreDistinct | elementium/elements.py:65-67 | The TimeOutError of elements.py and that of exc.py do not catch each other. Both are Exceptions. A stale-element error is a WebDriverException. |
| Waiters.NewWaiter | elementium/waiters.py:27-44 | Construction succeeds iff n and ttl are not both truthy, n >= 0, ttl >= 0 and pause >= 0. Every failure is a ValueError. The stored budget is well formed, keeps n and pause, and stores a falsy ttl as 0. |
| Waiters.CheckArgs | elementium/waiters.py:63-93 | A negative n or ttl raises ValueError, and so does setting both. With exactly one set and both non-negative, `(n, ttl)` is returned unchanged, None counting as 0. With neither set it returns the waiter's own fields when either is nonzero, without re-checking them, and raises ValueError otherwise. |
| Waiters.NormaliseExceptions | elementium/waiters.py:108-114 | Accepted iff the exceptions argument is neither None nor empty. A single class becomes a one-element tuple and a list is kept. The failure is a ValueError. |
| Waiters.NewExceptionRetryWaiter | elementium/waiters.py:98-114 | Succeeds iff the base checks and the exception checks both pass. Stores the checked budget and a non-empty tuple of classes. |
| Waiters.NewExceptionRetryElementsWaiter | elementium/waiters.py:159-178 | The same checks through ElementsWaiter.__init__. Also stores the bound collection. |
| Waiters.NewConditionElementsWaiter | elementium/waiters.py:144-154 | Succeeds iff the base checks pass. Stores the budget and the bound collection. |
| Waiters.CountNeedsExplicitTtl | elementium/waiters.py:98-107 | `ExceptionRetryWaiter(exc, n=k)` with k > 0 raises ValueError, because ttl defaults to 20 and both budgets are then set. |
| Waiters.BackoffDoubles | elementium/waiters.py:136 | For any pause >= 0, `min(pause + pause, pause * 4)` is exactly `2 * pause`. |
| Waiters.DoubledIsPow2 | elementium/waiters.py:134-136 | A pause doubled j times is `pause * 2^j`. |
| Waiters.ExceptionRetryWait | elementium/waiters.py:116-138 | The imperative loop returns exactly the outcome and trace of the specification run `ExceptionRetryRun`. A budget `_check_args` rejects raises before any call. |
| Waiters.RetryLoopShape | elementium/waiters.py:129-138 | A run makes at least one call and ends on a call, never on a sleep. There is one sleep between consecutive calls. |
| Waiters.RetryLoopResult | elementium/waiters.py:129-138 | The loop returns, or raises, exactly what its last call did. |
| Waiters.RetryLoopEarlierCallsFailed | elementium/waiters.py:131-138 | Every call before the last raised an exception the waiter retries on. |
| Waiters.RetryBackoff | elementium/waiters.py:134-136 | The j-th sleep lasts the first pause doubled j times: uncapped doubling. |
| Waiters.RetryCountMode | elementium/waiters.py:129-138 | In count mode, with every call failing recognisably, the operation is called exactly m times and the m-th failure is the result. |
| Waiters.ExceptionRetryCountMode | elementium/waiters.py:126-138 | `wait(fn, n=m)` with a recognised failure every time makes m calls and raises the last exception. |
| Waiters.ExceptionRetryFirstCallDecides | elementium/waiters.py:131-133 | A first call that succeeds, or raises an exception the waiter does not retry on, is the only call: the run is that call alone. |
| Waiters.ExceptionRetryElementsWait | elementium/waiters.py:180-212 | The imperative loop returns exactly the outcome and trace of the specification run `ExceptionRetryElementsRun`. |
| Waiters.ElementsRetryCountMode | elementium/waiters.py:194-206 | Count mode, with recognised failures and refreshes that return: m calls and m sleeps. There is one refresh per failure that found the collection truthy. The last exception escapes. |
| Waiters.ElementsRetryNeverRuns | elementium/waiters.py:204-212 | When the loop body never runs, the operation is not called and the waiter raises the "Waiter was never run" RuntimeError with the resolved n and ttl. |
| Waiters.ElementsRetryForcedNegativeBudget | tests/test_waiters.py:146-155 | With the fields forced to -1 after construction, `wait(fn, ttl=0, n=0)` makes no call and raises "never run" with n = -1 and ttl = -1. |
| Waiters.ConditionWait | elementium/waiters.py:218-249 | The imperative loop returns exactly the outcome and trace of the specification run `ConditionRun`. |
| Waiters.ConditionCountMode | elementium/waiters.py:235-248 | Count mode with a predicate that stays false: m evaluations and m refreshes, then TimeOutError with the reason. |
| Waiters.ConditionOutcome | elementium/waiters.py:235-249 | A run whose predicate and refreshes never raise ends one of two ways. It may return the bound collection on a true evaluation, with one refresh fewer than evaluations. Otherwise it raises TimeOutError, and only after a clock reading taken after the last evaluation has reached the deadline. |
| Waiters.ConditionTwoRetries | tests/test_waiters.py:158-164 | `wait(f, n=2)` with an always-false predicate makes 2 evaluations and 2 refreshes, then raises TimeOutError. |
| Retry.SleepAt | elementium/elements.py:25-33 | Every sleep of the schedule is at least the default quarter second. |
| Retry.SleptBefore | elementium/elements.py:31-32 | Before the j-th call, at least `0.25 * j` has been taken off the ttl. |
| Retry.SleepClosedForm | elementium/elements.py:25-33 | The sleeps are 0.25, 0.75, 1.75, 2.75, ... After the first, each is one second longer than the one before. |
| Retry.GuardedCallsCount | elementium/elements.py:26-36 | Call j runs inside the `while ttl > 0` loop iff j < GuardedCalls(ttl). Once the budget is spent it stays spent. |
| Retry.WithRetryPrefix | elementium/elements.py:26-35 | When the first m calls were all retried, the run is their m rounds followed by the loop from call m. |
| Retry.WithRetryFirstCall | elementium/elements.py:26-36 | The run is the first call alone exactly when that call is not retried. This covers a success, an exception that is not an instance of the class, and any call once `ttl <= 0`. |
| Retry.WithRetryShape | elementium/elements.py:16-36 | A run ends on the call whose outcome it returns, with one sleep between consecutive calls. |
| Retry.WithRetryRetriedOnlyWithinBudget | elementium/elements.py:26-35 | Every call before the last raised an instance of the class while budget was left. |
| Retry.WithRetrySleepSchedule | elementium/elements.py:31-33 | The sleeps of a run are the next entries of the schedule, in order. |
| Retry.WithRetryAlwaysFailingTwenty | elementium/elements.py:13-36 | With ttl 20 and an always-failing operation there are 8 guarded calls, sleeping 0.25, 0.75, ..., 6.75 seconds, and then a 9th, unguarded call. |
| Retry.ScheduleOfTwenty | elementium/elements.py:25-33 | With a budget of 20, calls 0 to 7 are guarded and call 8 is not. 26.5 seconds have been slept before it. |
| Retry.SleptBeforeGrows | elementium/elements.py:32 | What has been taken off the ttl only grows. |
| Retry.WithUpdatePrefix | elementium/elements.py:51-61 | When the first m calls were retried and their refreshes returned, the run is m rounds of call, refresh and sleep, followed by the loop from call m. |
| Retry.WithUpdateRefreshes | elementium/elements.py:50-62 | There is one refresh per retried failure and none otherwise. A run that returns or re-raises its last call's outcome has one refresh fewer than calls. A run ended by a refresh that raised has as many refreshes as calls. |
| Retry.WithUpdateRefreshPositions | elementium/elements.py:54-59 | Every refresh follows the failed call directly and comes before its sleep. |
| Retry.WithUpdateStartsWithCall | elementium/elements.py:51-53 | A run starts with a call. |
| Retry.WithUpdateAlwaysFailingTwenty | elementium/elements.py:39-62 | With ttl 20, failures every time and refreshes that return: 8 rounds of call, refresh and sleep, then the 9th call. |
| Retry.WithUpdateSettles | elementium/elements.py:50-62 | A run that recorded its outcomes is its retried rounds followed by the call that settled it, or by the refresh that raised. |
| Retry.WithUpdateConclude | elementium/elements.py:50-62 | A settled record is exactly the run `WithUpdateLoop` of the recorded outcomes, with one refresh per recorded refresh. |
| Retry.RetryStep | elementium/elements.py:57-59 | A failed round moves the loop state from one entry of the schedule to the next: `ttl -= sleep_time`, then `sleep_time += min(2 * sleep_time, 1)`. |
| Retry.UpdateLoopStep | elementium/elements.py:51-61 | One guarded round of `with_update` keeps the loop state. It records the outcome, and records the refresh when the call was retried. |
| Retry.UpdateLoopLast | elementium/elements.py:62 | The unguarded call after the budget is spent settles the run. |
| PyList.Position | elementium/elements.py:250-252 | `s[i]` denotes a position iff `-len <= i < len`. A negative index counts from the end. |
| PyList.GetItem | elementium/drivers/se.py:56 | `s[i]` succeeds iff i is in range, reading from the end for negative i. Otherwise it raises IndexError. |
| PyList.SetItem | elementium/elements.py:250 | `s[i] = v` succeeds iff i is in range. It changes only the position i denotes. |
| PyList.DelItem | elementium/elements.py:251 | `del s[i]` succeeds iff i is in range. It removes exactly that position and shifts the rest down. |
| PyList.InsertPosition | elementium/elements.py:256 | `insert` counts a negative index from the end and clamps the position to `0..len`. |
| PyList.Insert | elementium/elements.py:256 | `insert` never raises. It puts v at the clamped position and shifts the rest up. |
| PyList.InsertThenDelete | elementium/elements.py:251-256 | Deleting at the position just inserted at gives the list back. |
| PyList.SetThenGet | elementium/elements.py:250-252 | After `s[i] = v`, `s[i]` reads v and every other position reads as before. |
| PyList.FlattenMembers | elementium/drivers/se.py:314 | The flattening comprehension keeps every item of every sublist and nothing else. |
| PyList.FlattenBound | elementium/drivers/se.py:310-314 | n sublists of at most m items flatten to at most `n * m` items. |
| PyList.FlattenRepeat | elementium/drivers/se.py:310-314 | n copies of a list flatten to that list repeated, `n * len` items. |
| PyList.FlattenSingletons | elementium/drivers/se.py:314 | n one-item lists flatten to that item repeated n times. |
| Callbacks.Fallback | elementium/drivers/se.py:58-65 | `ttl if ttl else default`: a truthy ttl is kept, while None and 0 fall back. |
| Callbacks.FallbackSettles | elementium/drivers/se.py:303-318 | Resolving the ttl in `find` and again in `until` is resolving it once. The result is 0 only when the default is. |
| Callbacks.EmptyReading | elementium/drivers/se.py:79-171 | Without items, the yes/no readers return False and the others return None. Both are falsy. |
| Callbacks.ReadRequestsDistinct | elementium/drivers/se.py:144-171 | Distinct readers send distinct requests. The one exception is that `value` is `attribute('value')`. |
| Callbacks.SelectChoice | elementium/drivers/se.py:211-220 | Select by index when i is truthy, else by value, else by visible text. With none truthy it raises ValueError. |
| Callbacks.DispatchAgrees | elementium/drivers/se.py:211-246 | `deselect` picks what `select` picks wherever `select` does not raise. Exactly where `select` raises, `deselect` deselects all. |
| Callbacks.IndexZeroIsAbsent | elementium/drivers/se.py:213-218 | Index 0 is falsy. `select(i=0)` alone raises, `select(i=0, value=v)` selects by value, and `deselect(i=0)` deselects all. |
| Callbacks.ParentOf | elementium/drivers/se.py:279-281 | `[item.parent]` is the driver window for a web element. For the driver itself the attribute is missing. |
| Callbacks.Direct | elementium/elements.py:240-242 | The resolvers that make no request. The default gives `[browser]`, `get(i)` gives `[context.items[i]]` or IndexError, `filter` gives the context's items, and `parent` gives the first item's parent. Without a context only the default works. Only `filter` can give more than one node. |
| Callbacks.IndexFollowsList | elementium/drivers/se.py:55-56 | The `get(i)` resolver follows Python indexing, negative indices included. After `items[i] = v` it reads v. |
| Callbacks.KeptMembers | elementium/drivers/se.py:308 | The visibility filter keeps a node iff some match equal to it was reported displayed. |
| Callbacks.KeptAll | elementium/drivers/se.py:306-309 | When every match is displayed, the filter keeps them all, in order. |
| Callbacks.FilterDisplayedMembers | elementium/drivers/se.py:308 | The filter returns iff every `is_displayed()` reply returns. It then gives at most the matches, and keeps a node iff some match equal to it was reported truthy. |
| Callbacks.MatchesAnswer | elementium/drivers/se.py:305-309 | The lookup's error, or its matches, filtered with only_displayed, is the query callback's `Answer`. |
| Callbacks.MatchesAsked | elementium/drivers/se.py:305-309 | The lookup, then with only_displayed the filter's questions about the matches in turn, is the query callback's `Asked`. |
| Callbacks.SelectAnswer | elementium/drivers/se.py:211-220 | The wrap's error, the dispatch's ValueError after the wrap, or the selection with its value dropped is the `select` callback's `Answer`; the wrap and then the selection is its `Asked`. |
| Callbacks.DeselectAnswer | elementium/drivers/se.py:237-246 | The wrap's error, or the deselection with its value dropped, is the `deselect` callback's `Answer`; the wrap and then the deselection is its `Asked`. |
| Callbacks.DropValue | elementium/drivers/se.py:211-246 | `select_by_*` and `deselect_*` return None when the call returns, and raise what it raised otherwise. |
| Callbacks.EmptyAsksNothing | elementium/drivers/se.py:79-262 | On an empty collection a callback sends nothing. The readers answer False or None and the others raise AttributeError. |
| Callbacks.SteadySelect | elementium/drivers/se.py:211-246 | When a steady driver lets `select` through, it wraps the first item and selects the chosen option, and the dispatch does not raise. `deselect` wraps and deselects by its rule. |
| Callbacks.RoundsAnswers | elementium/elements.py:500-509 | `foreach` collects one answer per round. |
| Callbacks.SteadyRounds | elementium/elements.py:500-509 | Under a steady driver, n rounds send the first round's requests n times over, and every round answers what the first does. |
| Callbacks.QueryResultShape | elementium/drivers/se.py:310-314 | The query resolver's result has at most rounds × bound nodes. When every round finds the same matches m, it is m repeated once per round, duplicates kept. |
| Callbacks.DecimalRoundTrip | elementium/drivers/se.py:559 | `"{}".format(n)` of an integer reads back as n. |
| Callbacks.ScrollScriptInjective | elementium/drivers/se.py:559 | Distinct pixel positions give distinct `window.scrollTo(x, y);` scripts. |
| Callbacks.ScrollTopAndBottomDiffer | elementium/drivers/se.py:564-586 | For the same column, `scroll_top` and `scroll_bottom` send different scripts. |
| Driver.WebDriver.DisplayedFlags | elementium/drivers/se.py:306-309 | Asks `is_displayed()` of each match in order, one request each. The outcome is `DisplayFilter` of the replies, and the log grows by the `DisplayAsked` questions the filter put: all of them, or those up to the first error. |
| Driver.DisplayFilter | elementium/drivers/se.py:308 | A successful filter has one flag per match, each the truthiness of that match's `is_displayed()` reply. |
| Driver.DisplayAsked | elementium/drivers/se.py:308 | The filter asks at most one question per match, and all of them when it returns. |
| Driver.DisplayFilterFirstError | elementium/drivers/se.py:308 | When the j-th question is the first that raises, the filter raises that error after j + 1 questions. |
| Driver.DisplayFilterRaised | elementium/drivers/se.py:308 | When the filter raises, its last question raised that error and every earlier one returned. |
| Driver.DisplayFilterAllOk | elementium/drivers/se.py:308 | When every question returns, so does the filter. |
| Driver.WebDriver.Sleep | elementium/drivers/se.py:560-561 | `time.sleep(s)` advances the clock by s and records the sleep. A negative s raises instead and changes nothing. |
| Driver.WebDriver.RetryPass | elementium/elements.py:26-33 | One pass of the `while ttl > 0` loop keeps the loop state. A retried call adds one request and one scheduled sleep, and takes that sleep off `ttl`. Any other reply settles the run. |
| Driver.WebDriver.Settle | elementium/elements.py:36 | After the loop comes the unguarded call once ttl is spent. The result is the specification run, with the matching request log and sleeps. |
| Driver.WebDriver.WithRetry | elementium/elements.py:16-36 | `with_retry` of one driver request. The outcome and trace are the run `WithRetryLoop` of the replies. The request log grows by one request per call, and the sleeps are the run's. |
| Driver.RetryAdvance | elementium/elements.py:27-35 | A call inside the budget either moves the loop to the next schedule entry or settles it. |
| Driver.RetryLast | elementium/elements.py:36 | The call after the budget is spent settles the run. |
| Driver.Finish | elementium/elements.py:16-36 | k retried requests and a settling one make the run `WithRetryLoop`: k + 1 calls, with the first k sleeps of the schedule. |
| Collection.Config.Normalise | elementium/elements.py:244-245 | A missing or falsy `config['ttl']` becomes 20. The other keys are kept. |
| Collection.Config.Truthy | elementium/elements.py:243 | `config if config else {}`: the dict is truthy iff it has an entry. |
| Collection.Elements.Get | elementium/drivers/se.py:45-56 | `get(i)` succeeds iff i indexes items, and raises IndexError otherwise. It gives a fresh child with this collection as context, the `Index(i)` resolver, the same browser and the same config dict. Its items are `[items[i]]`. |
| Collection.Elements.SetItem | elementium/elements.py:250 | `__setitem__` assigns in place as a Python list does, or raises IndexError and leaves the items unchanged. |
| Collection.Elements.Contains | elementium/elements.py:255 | `item in elements` iff some position of the items holds it. |
| Collection.Elements.DelItem | elementium/elements.py:251 | `__delitem__` deletes in place as a Python list does, or raises IndexError and leaves the items unchanged. |
| Collection.Elements.Insert | elementium/elements.py:256 | `insert` edits the items in place as `list.insert` does. Afterwards the collection contains v and everything it contained before. |
| Collection.Elements.Item | elementium/elements.py:258-261 | `item` is the first node, or None iff there are no items. It never raises. |
| Collection.Elements.SetTtl | elementium/elements.py:268-271 | Setting `ttl` writes the shared `config['ttl']`, which every collection sharing the dict sees, and `ttl` then reads the value set. |
| Collection.Elements.Ttl | elementium/elements.py:263-266 | The `ttl` property reads `config['ttl']`. |
| Collection.Elements.ReadFirst | elementium/drivers/se.py:79-171 | A reader's callback. It reads the first item with exactly one request, or answers False or None without a request when there are no items. This is `Answer` and `Asked` of the `Read` callback. |
| Collection.Elements.DoFirst | elementium/drivers/se.py:173-262 | The callback of clear, click and write. It sends one command to the first item, or raises AttributeError without a request when there are no items. This is `Answer` and `Asked` of the `Do` callback. |
| Collection.Elements.SelectFirst | elementium/drivers/se.py:211-220 | Wraps the first item in a Select, then selects by the dispatch rule. A ValueError comes after the wrap and before any selection. The result is None when the selection succeeds. Outcome and requests are `Answer` and `Asked` of the callback. |
| Collection.Elements.DeselectFirst | elementium/drivers/se.py:237-246 | Wraps the first item in a Select, then deselects by the dispatch rule, falling back to deselect_all. Outcome and requests are `Answer` and `Asked` of the callback. |
| Collection.Elements.Apply | elementium/elements.py:52-53 | `fn(self.elements)` for each callback of se.py: its outcome is `Answer` and its requests `Asked` of the callback on the items, given as any pair of functions that agree with them everywhere. It never sleeps or refreshes. |
| Collection.Elements.Match | elementium/drivers/se.py:305-309 | `inner(e)` sends one lookup under the first item. An error of the lookup is raised, and without only_displayed its matches are the result. With only_displayed the result is `FilterDisplayed` of the matches, asked from the next request on. An empty collection raises AttributeError. |
| Collection.Elements.KeepDisplayed | elementium/drivers/se.py:308 | `filter(lambda obj: obj.is_displayed(), matches)` is `FilterDisplayed` of the matches: exactly the matches reported displayed, or the first error. The log grows by the questions asked. |
| Collection.Elements.Update | elementium/elements.py:570-580 | Refreshes a non-empty context first when propagating, then reassigns items from the resolver. A refresh that raises leaves the items. Without propagation and with a resolver that makes no request, it succeeds iff the resolver does and changes nothing else. Without propagation, a query over a steady driver sets the items to the first item's matches repeated once per context item. The refresh order is root-most first, stopping at an empty ancestor. In a chain without a query, a propagating refresh ends as `Refreshed` says: the first resolver that raises, from the root down, decides the error, and otherwise the items are what the resolvers compute. After it returns, a further refresh would give the same items. |
| Collection.RefreshesStep | elementium/elements.py:52-59 | One pass of the `with_update` loop keeps `RefreshesAs`: a call that is not retried leaves the chain alone, and a retried one refreshes it, so in a chain without a query every refresh of a run ends as the first did. |
| Collection.Elements.Recompute | elementium/elements.py:579 | `self.items = self.fn(self.context)` against the context as it is now. For a resolver that makes no request, it succeeds iff the resolver does, with the resolver's result or error, and changes nothing else. A query over a steady driver gets the first item's matches once per context item. A result stays within the chain's size bound when the context's items did. |
| Collection.Elements.Recover | elementium/elements.py:56-59 | The `except` branch for a WebDriverException: `elements.update()` with propagation, then the sleep. When the refresh returns, this collection was refreshed last, the sleep of `sleep_time` was recorded last, and the items are within the chain's bound. A refresh that raises leaves the items. In a chain without a query, the refresh's error and items are those `Refreshed` gives for the chain as it was. |
| Collection.Elements.Handle | elementium/elements.py:54-61 | The `except` clause around a call that answered r. A retryable WebDriverException is recovered from. Anything else changes nothing: no refresh, no sleep, no request, the same items. In a chain without a query, a refresh's error is the one `Refreshed` gives. The call joins the run's record of calls. |
| Collection.Elements.Resolve | elementium/drivers/se.py:304-314 | `self.fn(self.context)`. A resolver that makes no request is `Direct`. A query without a context raises AttributeError. A query's result is bounded by the context's size times the page's match bound. Over a steady driver it is `SteadyQueryResult`: the first item's matches once per context item. |
| Collection.Elements.Gather | elementium/drivers/se.py:303-313 | A query's `callback(elements)` on this collection: `foreach` of the matcher, flattened. The result has at most the collection's size bound times the page's match bound nodes. Over a steady driver it is `SteadyQueryResult`: the first item's matches once per item. |
| Collection.Elements.UpdatePass | elementium/elements.py:52-59 | The loop body of `with_update`. Its outcome is `Answer` of the callback on the items it started with. Only on a WebDriverException does it refresh, and it sleeps when the refresh returned. Any other outcome leaves the items, and the log grows by `Asked`. In a chain without a query, the refresh's error and items are those `Refreshed` gives for the chain as the pass found it. |
| Collection.Elements.UpdateTurn | elementium/elements.py:51-59 | One turn of the `while ttl > 0` loop. It steps the loop state exactly as `UpdateLoopAt` says: done at a call that was not caught or whose refresh raised, and otherwise the ttl shortened by the pause and the next pause of the schedule. It keeps the loop's record of the first call and its requests. In a chain without a query, every refresh so far ended as the first one did (`RefreshesAs`). |
| Collection.Elements.UpdateLoop | elementium/elements.py:50-60 | The `while ttl > 0` loop ends in the state `UpdateLoopAt` gives for the outcomes and refreshes it met. Without a retried first call, the log grows by exactly that call's `Asked`. Without a refresh, the items, sleeps and refreshes are unchanged. A result of a finished loop is `Answer` on the final items. In a chain without a query, every refresh raised what `Refreshed` gave at the start, or none did, and then the items are what it gave. |
| Collection.Elements.LastCall | elementium/elements.py:61 | The call after the ttl has run out, with nothing caught: its outcome is `Answer` and its requests `Asked` on the items at that point, with no sleep and no refresh. |
| Collection.Elements.WithUpdate | elementium/elements.py:39-62 | `with_update` on this collection, with the ttl falling back to the config's. The outcome and trace are the run `WithUpdateLoop` of the outcomes it met, with one refresh per recorded refresh. The first outcome is `Answer` on the original items; when it is not retried it is returned at once, with the items untouched and the log grown by `Asked`. A success is `Answer` on the final items. In a chain without a query, each refresh's error is the one `Refreshed` gives for the chain at the start. Only the first refresh can raise, and after a refresh the items are what `Refreshed` gave. |
| Collection.Elements.Round | elementium/elements.py:505-507 | One round of `foreach`: `with_update(fn)`, then the pause when it is nonzero. No refresh happens iff the first outcome is not retried, and then the round is that outcome, or the refusal of a negative pause. A successful positive pause advances the clock by at least the pause. In a chain without a query, each refresh's error is the one `Refreshed` gives, as for `WithUpdate`. |
| Collection.Elements.Pause | elementium/elements.py:508-509 | The pause after a round: a positive pause is recorded and advances the clock, a negative one is refused with SleepRefused, a zero pause or a raised round does nothing. |
| Collection.Elements.ForeachRound | elementium/elements.py:504-509 | One pass of the loop appends the round's value to the results. It adds a refresh iff the round's first answer is retried. Without any refresh so far, the rounds asked and collected as `CleanRounds` says. A steady driver and a non-negative pause give a refresh-free success. |
| Collection.Elements.ForeachStep | elementium/elements.py:502-509 | One turn of `for element in self`: a round and, when it returned, the next child from the iterator. It appends exactly one result on success and none otherwise. It keeps the loop's refresh-free record. |
| Collection.Elements.ForeachLoop | elementium/elements.py:500-509 | The loop yields as many results as rounds, between the current and the maximal length. Without a refresh, the rounds ran over the original items as `CleanRounds` says, one per item when it succeeds. No retryable first answer means no refresh. An empty collection gives `[]` with no request. |
| Collection.Elements.Foreach | elementium/elements.py:473-511 | Without a refresh, one result per item, and round j sends `Asked` and answers `Answer` of the callback on the original items, starting where round j - 1 ended. In general the number of results is bounded by the items before and after. A steady driver and a non-negative pause give a refresh-free success. An empty collection gives `[]` with no request. |
| Collection.Elements.Holds | elementium/drivers/se.py:318-336 | The conditions `len(e) > n` and `len(e) == n` are exactly the comparison on the items, with no request. `e.is_displayed()` goes through `with_update`. A first reply that is not retried decides it: the result is the reply's truthiness or its error, the items stay, and the log grows by that one question. Without items it is False with no request. True means the driver reported the first item displayed. |
| Collection.Elements.Until | elementium/elements.py:100-125 | Returns this collection, and for the length conditions only once the condition holds. A length condition that already holds returns at once, with no request. For `is_displayed`, a first reply that is not retried and raises is the result. A truthy one returns this collection at once, with one question and the items unchanged. Any success means the driver reported the first item displayed. A TimeOutError comes only after the ttl has elapsed on the clock. A ttl <= 0 raises TimeOutError at once, with no request. |
| Collection.Elements.Insist | elementium/elements.py:536-568 | Times out exactly as `until` does: at once, with no request, for a ttl <= 0. On a timeout the condition is applied to None and raises TypeError or AttributeError. An AssertionError means no timeout. A length condition that already holds under a positive ttl returns this collection with no request. For `is_displayed` under a positive ttl: a first reply that is not retried and raises is the result; a truthy one rules out a timeout; a driver that always reports the first item displayed gives this collection, unchanged. Any success satisfies the condition. |
| Collection.Elements.AssertHolds | elementium/elements.py:567-568 | `assert fn(retval)` on this collection. For the length conditions it returns this collection iff the condition holds and AssertionError otherwise, with no request. For `is_displayed`, a first reply that is not retried decides it: its error, this collection when it is truthy, or AssertionError; the log grows by that one question. |
| Collection.ElementsIterator.Next | elementium/elements.py:213-218 | Advances the index and hands out the child `get(idx)` iff the index is below the current length, re-read at each step. |
| Collection.PollBound | elementium/elements.py:115-117 | While less than ttl has elapsed, fewer than `4 * (floor(ttl) + 1)` quarter-second polls have run, so `until` terminates. |
| Collection.NewRoot | elementium/elements.py:226-246 | A root collection holds `[browser]` after one refresh without propagation. A truthy config dict is shared; a falsy one is replaced by a fresh dict whose ttl is 20. |
| Collection.NewChild | elementium/drivers/se.py:24-43 | A child shares the browser and the config and is refreshed once. For a resolver that makes no request, it exists iff the resolver succeeds on the context's items and holds its result. A query over a steady driver gives a child holding `SteadyQueryResult`. For a resolver that makes no request, a failed construction raises the resolver's exception. |
| Collection.RoundsAtStep | elementium/elements.py:500-509 | A refresh-free round that answered v extends the record of rounds by v and its requests. |
| Collection.SteadyQueryValues | elementium/drivers/se.py:310-314 | Under a steady driver, the flattened values of refresh-free query rounds are the first round's matches once per round. |
| Se.Lookup | elementium/drivers/se.py:303-320 | The ttl is resolved once. The child with the query resolver is returned, or with wait, `until(len > 0)` is applied to it: the same child, holding at least one node. Over a steady driver, without wait or with matches and a positive ttl, it succeeds holding the first item's matches once per item. |
| Se.Find | elementium/drivers/se.py:283-320 | `find` is a CSS lookup as above, with the same steady-driver result. |
| Se.XPathLookup | elementium/drivers/se.py:338-375 | `xpath` is an XPath lookup as above, with the same steady-driver result. |
| Se.FindLink | elementium/drivers/se.py:377-435 | `find_link` is a link-text lookup when exact and a partial-link-text lookup otherwise, with the same steady-driver result. |
| Se.FindWithWait | elementium/drivers/se.py:322-336 | `find` with wait, then `insist` that the first match is displayed, with the config's ttl. A success is the found child, whose first item the driver reported displayed. Suppose the driver is steady for the query, finds matches, always reports the first match displayed, and the ttl is positive. Then it returns the child holding the first item's matches once per item, or AttributeError, which happens when the config's ttl is negative and `insist` times out at once. |
| Se.Filter | elementium/drivers/se.py:437-446 | The child holds exactly the parent's items, and the parent chain is unchanged. |
| Se.Parent | elementium/drivers/se.py:273-281 | The child holds `[window]` for an element's parent and nothing for an empty context. It raises AttributeError when the first item is the driver. |
| Se.Fetch | elementium/drivers/se.py:67-77 | A read through `with_update`. Its first attempt is the callback's `Answer`, and when that is not a WebDriverException, it is the result. |
| Se.Read | elementium/drivers/se.py:79-171 | An empty collection reads False or None. Otherwise the first reply about the first item is the result unless it is a WebDriverException. |
| Se.Title | elementium/drivers/se.py:448-456 | The first title reply is the result unless it is a WebDriverException. |
| Se.Source | elementium/drivers/se.py:458-466 | The first page-source reply is the result unless it is a WebDriverException. |
| Se.Each | elementium/drivers/se.py:173-181 | `foreach(callback, pause, ttl)` returning self, or the error of a round. An empty collection returns self with no request. Over a steady driver with a non-negative pause it returns self, keeps the items, and sends the first round's requests once per item. |
| Se.Clear | elementium/drivers/se.py:173-181 | `clear` returns self or an error. An empty collection makes no request. Over a steady driver it sends one clear of the first item per item. |
| Se.Click | elementium/drivers/se.py:183-196 | `click` returns self or an error. An empty collection makes no request. Over a steady driver with a non-negative pause it sends one click of the first item per item. |
| Se.Write | elementium/drivers/se.py:250-262 | `write` returns self or an error. An empty collection makes no request. Over a steady driver it sends the keys to the first item once per item. |
| Se.Select | elementium/drivers/se.py:198-222 | `select` returns self or an error. An empty collection makes no request. Over a steady driver the dispatch succeeds, and each item's round wraps the first item and selects the chosen option. |
| Se.Deselect | elementium/drivers/se.py:224-248 | `deselect` returns self or an error. An empty collection makes no request. Over a steady driver each item's round wraps the first item and deselects by the dispatch rule. |
| Se.Navigate | elementium/drivers/se.py:468-476 | `navigate` runs `with_retry` of the page load and returns self when the run succeeds. Otherwise it raises the run's exception. The log holds one load request per call. |
| Se.Run | elementium/drivers/se.py:588-594 | `run` returns exactly the `with_retry` run of fn under the fallback ttl. |
| Se.ExecuteScript | elementium/drivers/se.py:493-515 | An async script raises NotImplementedError without a request. Otherwise the script runs under `with_retry`, and its result goes through the callback when one is given. |
| Se.Scroll | elementium/drivers/se.py:546-562 | Sends exactly one `window.scrollTo(x, y);` script, not retried, then sleeps when sleep is nonzero. The result is the script's error, the refusal of a negative sleep, or self (`ScrollOutcome`), and a positive sleep is recorded once the script returned. |
| Se.ScrollTop | elementium/drivers/se.py:564-574 | `scroll_top` sends the script for row 0. As for `scroll`, the result is the script's error, the refusal of a negative sleep, or self, and a positive sleep is recorded once the script returned. |
| Se.ScrollBottom | elementium/drivers/se.py:576-586 | `scroll_bottom` sends the script for `document.body.scrollHeight`. As for `scroll`, the result is the script's error, the refusal of a negative sleep, or self, and a positive sleep is recorded once the script returned. |

## Left out

- Selenium is not modelled. Its answers come from the oracle `respond(t, q)` and its request latencies from `latency(t)`. Two things are assumed of it:
  - A lookup returns at most `maxMatches` nodes, because a page is finite.
  - Its exceptions are its own and never one of elementium's TimeOutErrors.
- The Selenium element's `parent` attribute is taken to be the driver window. The driver has no `parent` of its own.
- `time.time()` and `time.sleep()`:
  - In the waiters, the clock is an oracle of readings that eventually pass the deadline.
  - In the collection, the clock advances only by request latency and sleeps.
  - Real time is not modelled.
- Pauses and budgets are reals. Floating-point rounding is not modelled.
- elementium/util.py defines neither DEFAULT_SLEEP_TIME nor DEFAULT_TTL, although waiters.py imports both from it. The model uses the values elements.py defines, 0.25 and 20.
- Waiters.ConditionWait: the timeout reason, `inspect.getsource(fn)`, is an optional string parameter that falls back to "Unknown". Reflection is not modelled.
- Waiters.ExceptionRetryWait: a negative pause, which only an assignment after construction can produce, would make `time.sleep` raise. The trace records the sleep instead. The same holds for the other two waits.
- Collection.Elements.Until: the condition is one of `len(e) > n`, `len(e) == n` and `e.is_displayed()`, not an arbitrary function. These are the forms the library itself passes.
- Collection.Elements.Insist: the same limited conditions as `until`.
- Collection.Elements.Until: the number of polls is not stated. The contract states the result and the time bound.
- Se.Filter: Python 2's `filter` is eager, so it runs the caller's predicate on each item's child and lets its exceptions escape. The predicate is caller code, so it is not run; the items are what the source makes them.
- Se.Filter: the child's items are the parent's own list object in the source, shared until either collection's `update` rebinds it. So `c = e.filter(f); c[0] = x` also changes `e`. The model copies the list, so an in-place edit of one collection (`SetItem`, `DelItem`, `Insert`) does not show in the other.
- Collection.Elements.Insist: for `is_displayed()`, success is stated only for a driver that always reports the first item displayed. After a truthy first reply, a later reply that differs is stated only as ruling out a timeout.
- Collection.Elements.Holds: the config's ttl after an `is_displayed()` read is not stated. Only the refresh of a retried read can change it, and only when it is falsy.
- Se.Parent: for an empty context the source stores `None` as the items. The model stores an empty list, so a later use that would fail on `None` sees an empty collection.
- Se.Run: the caller's function is modelled as one named request to the driver oracle.
- Se.ExecuteScript: the callback is a total function of the script's result, which returns or raises.
- Collection.Elements.Foreach: always collects the results, as `return_results=True` does. `Se.Each` returns the collection, as the commands do. Each round's requests and answer are stated when no round refreshed. After a refresh, Foreach states only the number of results, their shape, and that a refresh needs a retried first answer. Each retried round is stated by `Collection.Elements.Round`, but that is not carried up into Foreach's contract.
- Collection.Elements.Update: the order of refreshes, and the error a propagating refresh raises, are stated only for chains without a query resolver. When a query sits in the chain, the error is stated only as not a timeout, because a query's own error is not stated in general (see `Collection.Elements.Resolve`).
- Collection.Elements.Recover: the same as `Collection.Elements.Update`. The refresh's error is stated only for chains without a query.
- Collection.Elements.Handle: the same as `Collection.Elements.Recover`.
- Collection.Elements.UpdatePass: the same as `Collection.Elements.Recover`.
- Collection.Elements.UpdateLoop: each refresh's error is stated only for chains without a query.
- Collection.Elements.WithUpdate: each refresh's error is stated only for chains without a query. With a query in the chain, a refresh's error is stated only as not a timeout.
- Collection.Elements.Round: the same as `Collection.Elements.WithUpdate`.
- Collection.Elements.Resolve: for a query, the exact result is stated only over a steady driver, one that answers the same questions the same way every time and never raises. Otherwise only the bound on the result is stated.
- Collection.Elements.Gather: the same as `Collection.Elements.Resolve`. Over a driver that is not steady, only the bound is stated, and a raised result is not tied to a driver reply.
- Collection.NewChild: for a query over a driver that is not steady, only the bound on the items is stated. A raised construction is not tied to the query's error.
- Se.FindWithWait: when the config's ttl is negative, the contract does not rule out a success. `insist` times out at once on such a ttl. Ruling out success would need the config's ttl to be stated across the `is_displayed()` read, and `Collection.Elements.Holds` does not state it.
- Se.Fetch: when the first attempt raises a WebDriverException, the contract says only that the result is not a timeout. `Collection.Elements.WithUpdate` states such a retried run, but Fetch does not carry it up. The same holds for `Se.Read`, `Se.Title` and `Se.Source`.
- Se.Each: the requests sent are stated only over a steady driver. Otherwise a round's requests are stated by `Collection.Elements.Foreach`, and after a refresh by `Collection.Elements.WithUpdate`. The same holds for `Se.Clear`, `Se.Click`, `Se.Write`, `Se.Select` and `Se.Deselect`.
- Se.Lookup: the found items are stated only over a steady driver, as for `Collection.Elements.Resolve`. The same holds for `Se.Find`, `Se.XPathLookup` and `Se.FindLink`.
- Collection.Elements.Holds: for `is_displayed()`, the result after a retried first answer is stated only as far as a true result goes: the driver reported the first item displayed.
- Se.Scroll: a coordinate is an integer number of pixels or a JavaScript expression. A float such as `scroll(x=1.5)`, which Python formats as `1.5`, is not modelled, because floating point is not modelled.
- The following are not modelled:
  - `closest` only raises NotImplementedError.
  - `get_window_size` and `set_window_size` swallow every exception around a driver call.
  - `refresh`, `current_url` and `switch_to_active_element` pass a driver call through.
  - `__repr__` formats text.
- The abstract `Browser` and the abstract methods of `Elements` are realised by the Selenium subclass and are not modelled apart from it.
- The iterator protocol of Python 2 (`next` raising StopIteration) is modelled as an optional result.
- The `lazy=` keyword and the `retried` method the tests use do not exist in the code, so they are not modelled.
- Collections are never freed, and there is no concurrency.
