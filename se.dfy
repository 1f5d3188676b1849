/** The operations of `SeElements` (elementium/drivers/se.py) that the
    collection does not define itself: the lookups, the readers, the
    commands, page-level calls and scrolling. Each takes the collection it
    is called on as `e`. */
module Se {
  import opened Errors
  import opened Traces
  import opened Retry
  import opened PyList
  import opened Driver
  import opened Callbacks
  import opened Collection
  import C = Classes

  // ---------------------------------------------------------------------
  // Lookups

  /** The shared body of `find`, `xpath` and `find_link`: resolve the ttl
      now, build the child whose resolver runs the lookup over every item of
      `e`, and with `wait` wait until it holds at least one node. */
  method Lookup(e: Elements, kind: QueryKind, selector: string, onlyDisplayed: bool, wait: bool, ttl: Option<real>)
    returns (r: Outcome<Elements>)
    requires e.Valid()
    modifies e.chain, e.browser, e.config
    ensures e.Valid()
    ensures r.Ok? ==> && fresh(r.value) && r.value.Valid()
                      && r.value.context == e && r.value.browser == e.browser && r.value.config == e.config
                      && r.value.resolver == Query(kind, selector, onlyDisplayed, Fallback(ttl, old(e.Ttl())))
    ensures r.Ok? && wait ==> |r.value.items| > 0
    ensures r.Ok? && !wait ==> |r.value.items| <= MaxNat(old(|e.items|), e.Bound()) * e.browser.maxMatches
    ensures var found := SteadyQueryResult(Query(kind, selector, onlyDisplayed, Fallback(ttl, old(e.Ttl()))),
                                           old(e.items), e.browser.respond);
      Steady(Matches(kind, selector, onlyDisplayed), old(e.items), e.browser.respond)
      && (!wait || (found != [] && Fallback(ttl, old(e.Ttl())) > 0.0)) ==>
        r.Ok? && r.value.items == found
    ensures !wait ==> Untimed(r)
  {
    var t := Fallback(ttl, e.Ttl());
    r := NewChild(e, Query(kind, selector, onlyDisplayed, t));
    if r.Ok? && wait {
      var child := r.value;
      r := child.Until(LenAbove(0), Some(t));
    }
  }

  /** `find(selector, only_displayed, wait, ttl)`: a CSS lookup. */
  method Find(e: Elements, selector: string, onlyDisplayed: bool, wait: bool, ttl: Option<real>)
    returns (r: Outcome<Elements>)
    requires e.Valid()
    modifies e.chain, e.browser, e.config
    ensures e.Valid()
    ensures r.Ok? ==> && fresh(r.value) && r.value.Valid() && r.value.context == e
                      && r.value.resolver == Query(Css, selector, onlyDisplayed, Fallback(ttl, old(e.Ttl())))
    ensures r.Ok? && wait ==> |r.value.items| > 0
    ensures var found := SteadyQueryResult(Query(Css, selector, onlyDisplayed, Fallback(ttl, old(e.Ttl()))),
                                           old(e.items), e.browser.respond);
      Steady(Matches(Css, selector, onlyDisplayed), old(e.items), e.browser.respond)
      && (!wait || (found != [] && Fallback(ttl, old(e.Ttl())) > 0.0)) ==>
        r.Ok? && r.value.items == found
    ensures !wait ==> Untimed(r)
  {
    r := Lookup(e, Css, selector, onlyDisplayed, wait, ttl);
  }

  /** `xpath(selector, only_displayed, wait, ttl)`: an XPath lookup. */
  method XPathLookup(e: Elements, selector: string, onlyDisplayed: bool, wait: bool, ttl: Option<real>)
    returns (r: Outcome<Elements>)
    requires e.Valid()
    modifies e.chain, e.browser, e.config
    ensures e.Valid()
    ensures r.Ok? ==> && fresh(r.value) && r.value.Valid() && r.value.context == e
                      && r.value.resolver == Query(XPath, selector, onlyDisplayed, Fallback(ttl, old(e.Ttl())))
    ensures r.Ok? && wait ==> |r.value.items| > 0
    ensures var found := SteadyQueryResult(Query(XPath, selector, onlyDisplayed, Fallback(ttl, old(e.Ttl()))),
                                           old(e.items), e.browser.respond);
      Steady(Matches(XPath, selector, onlyDisplayed), old(e.items), e.browser.respond)
      && (!wait || (found != [] && Fallback(ttl, old(e.Ttl())) > 0.0)) ==>
        r.Ok? && r.value.items == found
    ensures !wait ==> Untimed(r)
  {
    r := Lookup(e, XPath, selector, onlyDisplayed, wait, ttl);
  }

  /** `find_link(selector, exact, only_displayed, wait, ttl)`: by the whole
      link text when `exact`, by part of it otherwise. */
  method FindLink(e: Elements, selector: string, exact: bool, onlyDisplayed: bool, wait: bool, ttl: Option<real>)
    returns (r: Outcome<Elements>)
    requires e.Valid()
    modifies e.chain, e.browser, e.config
    ensures e.Valid()
    ensures r.Ok? ==> && fresh(r.value) && r.value.Valid() && r.value.context == e
                      && r.value.resolver == Query(if exact then LinkText else PartialLinkText, selector, onlyDisplayed,
                                                   Fallback(ttl, old(e.Ttl())))
    ensures r.Ok? && wait ==> |r.value.items| > 0
    ensures var found := SteadyQueryResult(Query(if exact then LinkText else PartialLinkText, selector, onlyDisplayed, Fallback(ttl, old(e.Ttl()))),
                                           old(e.items), e.browser.respond);
      Steady(Matches(if exact then LinkText else PartialLinkText, selector, onlyDisplayed), old(e.items), e.browser.respond)
      && (!wait || (found != [] && Fallback(ttl, old(e.Ttl())) > 0.0)) ==>
        r.Ok? && r.value.items == found
    ensures !wait ==> Untimed(r)
  {
    r := Lookup(e, if exact then LinkText else PartialLinkText, selector, onlyDisplayed, wait, ttl);
  }

  /** `find_with_wait(selector, only_displayed, ttl)`: `find` with `wait`,
      then `insist` that the first match is displayed. */
  method FindWithWait(e: Elements, selector: string, onlyDisplayed: bool, ttl: Option<real>)
    returns (r: Outcome<Elements>)
    requires e.Valid()
    modifies e.chain, e.browser, e.config
    ensures e.Valid()
    ensures r.Ok? ==> && fresh(r.value) && r.value.Valid() && r.value.context == e
                      && r.value.resolver == Query(Css, selector, onlyDisplayed, Fallback(ttl, old(e.Ttl())))
    ensures r.Ok? ==> ReportedDisplayed(e.browser.respond, r.value.items)
    ensures var found := SteadyQueryResult(Query(Css, selector, onlyDisplayed, Fallback(ttl, old(e.Ttl()))),
                                           old(e.items), e.browser.respond);
      Steady(Matches(Css, selector, onlyDisplayed), old(e.items), e.browser.respond)
      && found != [] && Fallback(ttl, old(e.Ttl())) > 0.0 && AlwaysShown(e.browser.respond, found) ==>
        || (r.Ok? && r.value.items == found)
        || (r == Raised(AttributeError) && e.Ttl() < 0.0)
  {
    r := Lookup(e, Css, selector, onlyDisplayed, true, ttl);
    if r.Ok? {
      var found := r.value;
      ghost var timedOut;
      r, timedOut := found.Insist(FirstDisplayed, None);
    }
  }

  /** `filter(fn)`: a child that holds the same nodes as `e`. The predicate
      is handed to Python's `filter`, whose result is dropped, so it has no
      say in the items. */
  method Filter(e: Elements) returns (r: Outcome<Elements>)
    requires e.Valid()
    modifies e.chain, e.browser, e.config
    ensures e.Valid() && unchanged(e.chain)
    ensures r.Ok? && fresh(r.value) && r.value.Valid() && r.value.context == e && r.value.resolver == Same
    ensures r.value.items == e.items
  {
    r := NewChild(e, Same);
  }

  /** `parent()`: a child holding `e.item.parent` while `e` has items. In
      Selenium an element's `parent` is the driver, whose own `parent`
      attribute does not exist. */
  method Parent(e: Elements) returns (r: Outcome<Elements>)
    requires e.Valid()
    modifies e.chain, e.browser, e.config
    ensures e.Valid() && unchanged(e.chain)
    ensures r.Ok? ==> fresh(r.value) && r.value.Valid() && r.value.context == e && r.value.resolver == ParentItem
    ensures e.items == [] ==> r.Ok? && r.value.items == []
    ensures e.items != [] && e.items[0].Element? ==> r.Ok? && r.value.items == [Window]
    ensures e.items != [] && e.items[0] == Window ==> r == Raised(AttributeError)
  {
    r := NewChild(e, ParentItem);
  }

  // ---------------------------------------------------------------------
  // Readers and page-level reads

  /** A read through `with_update`: the first attempt is the callback's
      single request, or its answer for an empty collection; unless that
      attempt raised a WebDriverException it is the result. */
  method Fetch(e: Elements, cb: Callback, ttl: Option<real>) returns (r: Outcome<Value>)
    requires e.Valid() && (cb.Read? || cb.PageTitle? || cb.Source?)
    modifies e.chain, e.browser, e.config
    ensures e.Valid() && Untimed(r)
    ensures var first := Answer(cb, old(e.items), e.browser.respond, old(|e.browser.log|));
      !(first.Raised? && Retryable(first.exc, C.WebDriverException)) ==> r == first
  {
    ghost var trace, outs, ups, at, marks;
    r, trace, outs, ups, at, marks := e.WithUpdate(cb, ttl);
  }

  /** `is_displayed`, `is_enabled`, `is_selected`, `text`, `tag_name`,
      `value` and `attribute(name)`: read the first item, retrying with
      refreshes; an empty collection reads as False or None. */
  method Read(e: Elements, k: Reading, ttl: Option<real>) returns (r: Outcome<Value>)
    requires e.Valid()
    modifies e.chain, e.browser, e.config
    ensures e.Valid() && Untimed(r)
    ensures old(e.items) == [] ==> r == Ok(EmptyReading(k))
    ensures old(e.items) != [] ==>
      var first := e.browser.respond(old(|e.browser.log|), ReadRequest(k, old(e.items)[0]));
      !(first.Raised? && Retryable(first.exc, C.WebDriverException)) ==> r == first
  {
    r := Fetch(e, Callback.Read(k), ttl);
  }

  /** `title(ttl)`: the page title, retrying with refreshes. */
  method Title(e: Elements, ttl: Option<real>) returns (r: Outcome<Value>)
    requires e.Valid()
    modifies e.chain, e.browser, e.config
    ensures e.Valid() && Untimed(r)
    ensures var first := e.browser.respond(old(|e.browser.log|), Request.Title);
      !(first.Raised? && Retryable(first.exc, C.WebDriverException)) ==> r == first
  {
    r := Fetch(e, PageTitle, ttl);
  }

  /** `source(ttl)`: the page source, retrying with refreshes. */
  method Source(e: Elements, ttl: Option<real>) returns (r: Outcome<Value>)
    requires e.Valid()
    modifies e.chain, e.browser, e.config
    ensures e.Valid() && Untimed(r)
    ensures var first := e.browser.respond(old(|e.browser.log|), Request.PageSource);
      !(first.Raised? && Retryable(first.exc, C.WebDriverException)) ==> r == first
  {
    r := Fetch(e, Callback.Source, ttl);
  }

  // ---------------------------------------------------------------------
  // Commands

  /** `self.foreach(callback, pause, ttl=ttl if ttl else self.ttl)`, which
      returns `self`. An empty collection makes no request. */
  method Each(e: Elements, cb: Callback, pause: real, ttl: Option<real>) returns (r: Outcome<Elements>)
    requires e.Valid()
    modifies e.chain, e.browser, e.config
    ensures e.Valid() && Untimed(r)
    ensures r.Ok? ==> r.value == e
    ensures old(e.items) == [] ==> r == Ok(e) && e.browser.log == old(e.browser.log)
    ensures Steady(cb, old(e.items), e.browser.respond) && pause >= 0.0 ==>
      && r == Ok(e) && e.items == old(e.items)
      && e.browser.log == old(e.browser.log) + Flatten(Repeat(Asked(cb, old(e.items), e.browser.respond, 0), |old(e.items)|))
  {
    var vs;
    ghost var refreshes;
    vs, refreshes := e.Foreach(cb, pause, Some(Fallback(ttl, e.Ttl())));
    if Steady(cb, old(e.items), e.browser.respond) && pause >= 0.0 {
      SteadyRounds(cb, old(e.items), e.browser.respond, old(|e.browser.log|), |vs.value|);
    }
    if vs.Raised? {
      return Raised(vs.exc);
    }
    r := Ok(e);
  }

  /** `clear(ttl)` */
  method Clear(e: Elements, ttl: Option<real>) returns (r: Outcome<Elements>)
    requires e.Valid()
    modifies e.chain, e.browser, e.config
    ensures e.Valid() && Untimed(r)
    ensures r.Ok? ==> r.value == e
    ensures old(e.items) == [] ==> r == Ok(e) && e.browser.log == old(e.browser.log)
    ensures Steady(Do(ClearText), old(e.items), e.browser.respond) ==>
      && old(e.items) != [] && r == Ok(e)
      && e.browser.log == old(e.browser.log) + PyList.Repeat(Request.Clear(old(e.items)[0]), |old(e.items)|)
  {
    r := Each(e, Do(ClearText), 0.0, ttl);
    if Steady(Do(ClearText), old(e.items), e.browser.respond) {
      FlattenSingletons(Request.Clear(old(e.items)[0]), |old(e.items)|);
    }
  }

  /** `click(pause, ttl)` */
  method Click(e: Elements, pause: real, ttl: Option<real>) returns (r: Outcome<Elements>)
    requires e.Valid()
    modifies e.chain, e.browser, e.config
    ensures e.Valid() && Untimed(r)
    ensures r.Ok? ==> r.value == e
    ensures old(e.items) == [] ==> r == Ok(e) && e.browser.log == old(e.browser.log)
    ensures Steady(Do(ClickOn), old(e.items), e.browser.respond) && pause >= 0.0 ==>
      && old(e.items) != [] && r == Ok(e)
      && e.browser.log == old(e.browser.log) + PyList.Repeat(Request.Click(old(e.items)[0]), |old(e.items)|)
  {
    r := Each(e, Do(ClickOn), pause, ttl);
    if Steady(Do(ClickOn), old(e.items), e.browser.respond) && pause >= 0.0 {
      FlattenSingletons(Request.Click(old(e.items)[0]), |old(e.items)|);
    }
  }

  /** `write(text, ttl)` */
  method Write(e: Elements, text: string, ttl: Option<real>) returns (r: Outcome<Elements>)
    requires e.Valid()
    modifies e.chain, e.browser, e.config
    ensures e.Valid() && Untimed(r)
    ensures r.Ok? ==> r.value == e
    ensures old(e.items) == [] ==> r == Ok(e) && e.browser.log == old(e.browser.log)
    ensures Steady(Do(Callbacks.Write(text)), old(e.items), e.browser.respond) ==>
      && old(e.items) != [] && r == Ok(e)
      && e.browser.log == old(e.browser.log) + PyList.Repeat(SendKeys(old(e.items)[0], text), |old(e.items)|)
  {
    r := Each(e, Do(Callbacks.Write(text)), 0.0, ttl);
    if Steady(Do(Callbacks.Write(text)), old(e.items), e.browser.respond) {
      FlattenSingletons(SendKeys(old(e.items)[0], text), |old(e.items)|);
    }
  }

  /** `select(i, value, text, ttl)` */
  method Select(e: Elements, i: Option<int>, value: Option<string>, text: Option<string>, ttl: Option<real>)
    returns (r: Outcome<Elements>)
    requires e.Valid()
    modifies e.chain, e.browser, e.config
    ensures e.Valid() && Untimed(r)
    ensures r.Ok? ==> r.value == e
    ensures old(e.items) == [] ==> r == Ok(e) && e.browser.log == old(e.browser.log)
    ensures Steady(SelectBy(i, value, text), old(e.items), e.browser.respond) ==>
      && old(e.items) != [] && SelectChoice(i, value, text).Ok? && r == Ok(e)
      && e.browser.log == old(e.browser.log)
           + Flatten(Repeat([WrapSelect(old(e.items)[0]), SelectOption(old(e.items)[0], SelectChoice(i, value, text).value)],
                            |old(e.items)|))
  {
    r := Each(e, SelectBy(i, value, text), 0.0, ttl);
    if Steady(SelectBy(i, value, text), old(e.items), e.browser.respond) {
      SteadySelect(SelectBy(i, value, text), old(e.items), e.browser.respond);
    }
  }

  /** `deselect(i, value, text, ttl)` */
  method Deselect(e: Elements, i: Option<int>, value: Option<string>, text: Option<string>, ttl: Option<real>)
    returns (r: Outcome<Elements>)
    requires e.Valid()
    modifies e.chain, e.browser, e.config
    ensures e.Valid() && Untimed(r)
    ensures r.Ok? ==> r.value == e
    ensures old(e.items) == [] ==> r == Ok(e) && e.browser.log == old(e.browser.log)
    ensures Steady(DeselectBy(i, value, text), old(e.items), e.browser.respond) ==>
      && old(e.items) != [] && r == Ok(e)
      && e.browser.log == old(e.browser.log)
           + Flatten(Repeat([WrapSelect(old(e.items)[0]), DeselectOption(old(e.items)[0], DeselectChoice(i, value, text))],
                            |old(e.items)|))
  {
    r := Each(e, DeselectBy(i, value, text), 0.0, ttl);
    if Steady(DeselectBy(i, value, text), old(e.items), e.browser.respond) {
      SteadySelect(DeselectBy(i, value, text), old(e.items), e.browser.respond);
    }
  }

  // ---------------------------------------------------------------------
  // Browser-level calls, retried without refreshing

  /** `navigate(url, ttl)`: `with_retry` of the page load; returns `e`. */
  method Navigate(e: Elements, url: string, ttl: Option<real>) returns (r: Outcome<Elements>, ghost trace: seq<Event>)
    requires e.Valid()
    modifies e.browser
    ensures var run := WithRetryLoop(Replies(e.browser.respond, old(|e.browser.log|), Request.Navigate(url)),
                                     Catching(C.WebDriverException), Fallback(ttl, e.Ttl()), 0);
      && run.trace == trace
      && (run.result.Ok? <==> r.Ok?)
      && (r.Ok? ==> r.value == e)
      && (r.Raised? ==> run.result == Raised(r.exc))
    ensures e.browser.log == old(e.browser.log) + PyList.Repeat(Request.Navigate(url), Calls(trace))
  {
    var res;
    res, trace := e.browser.WithRetry(Request.Navigate(url), C.WebDriverException, Fallback(ttl, e.Ttl()));
    r := if res.Ok? then Ok(e) else Raised(res.exc);
  }

  /** `run(fn, ttl)`: `with_retry(fn)`, returning what `fn` returns. */
  method Run(e: Elements, name: string, ttl: Option<real>) returns (r: Outcome<Value>, ghost trace: seq<Event>)
    requires e.Valid()
    modifies e.browser
    ensures Traces.Run(r, trace) == WithRetryLoop(Replies(e.browser.respond, old(|e.browser.log|), Invoke(name)),
                                                  Catching(C.WebDriverException), Fallback(ttl, e.Ttl()), 0)
    ensures e.browser.log == old(e.browser.log) + PyList.Repeat(Invoke(name), Calls(trace))
  {
    r, trace := e.browser.WithRetry(Invoke(name), C.WebDriverException, Fallback(ttl, e.Ttl()));
  }

  /** `execute_script(script, callback, async, ttl)`: asynchronous scripts
      are refused; otherwise the script runs under `with_retry` and its
      result goes through the callback when there is one. */
  method ExecuteScript(e: Elements, script: string, callback: Option<Value -> Outcome<Value>>, async: bool,
                       ttl: Option<real>)
    returns (r: Outcome<Value>, ghost trace: seq<Event>)
    requires e.Valid()
    modifies e.browser
    ensures async ==> r == Raised(NotImplemented("Can't perform async scripts yet. Sorry."))
                      && e.browser.log == old(e.browser.log)
    ensures !async ==>
      var run := WithRetryLoop(Replies(e.browser.respond, old(|e.browser.log|), Request.ExecuteScript(script)),
                               Catching(C.WebDriverException), Fallback(ttl, e.Ttl()), 0);
      && run.trace == trace
      && e.browser.log == old(e.browser.log) + PyList.Repeat(Request.ExecuteScript(script), Calls(trace))
      && r == (if run.result.Raised? || callback.None? then run.result else callback.value(run.result.value))
  {
    if async {
      return Raised(NotImplemented("Can't perform async scripts yet. Sorry.")), [];
    }
    var res;
    res, trace := e.browser.WithRetry(Request.ExecuteScript(script), C.WebDriverException, Fallback(ttl, e.Ttl()));
    if res.Raised? || callback.None? {
      r := res;
    } else {
      r := callback.value(res.value);
    }
  }

  // ---------------------------------------------------------------------
  // Scrolling

  /** What a scroll returns once its script got `reply`: the script's error,
      the refusal of a negative sleep, or the collection itself. */
  function ScrollOutcome(e: Elements, reply: Outcome<Value>, sleep: real): (r: Outcome<Elements>)
    ensures r.Ok? <==> reply.Ok? && sleep >= 0.0
    ensures r.Ok? ==> r.value == e
  {
    if reply.Raised? then Raised(reply.exc)
    else if sleep < 0.0 then Raised(SleepRefused)
    else Ok(e)
  }

  /** `scroll(x, y, sleep)`: one `window.scrollTo` script, not retried,
      then the sleep when it is not zero; returns `e`. */
  method Scroll(e: Elements, x: Coordinate, y: Coordinate, sleep: real) returns (r: Outcome<Elements>)
    requires e.Valid()
    modifies e.browser
    ensures e.browser.log == old(e.browser.log) + [Request.ExecuteScript(ScrollScript(x, y))]
    ensures var reply := e.browser.respond(old(|e.browser.log|), Request.ExecuteScript(ScrollScript(x, y)));
      && r == ScrollOutcome(e, reply, sleep)
      && e.browser.slept == old(e.browser.slept) + (if reply.Ok? && sleep > 0.0 then [sleep] else [])
  {
    var reply := e.browser.Send(Request.ExecuteScript(ScrollScript(x, y)));
    if reply.Raised? {
      return Raised(reply.exc);
    }
    if sleep != 0.0 {
      var refused := e.browser.Sleep(sleep);
      if refused.Some? {
        return Raised(refused.value);
      }
    }
    r := Ok(e);
  }

  /** `scroll_top(x, sleep)`: scroll to `y = 0`. */
  method ScrollTop(e: Elements, x: Coordinate, sleep: real) returns (r: Outcome<Elements>)
    requires e.Valid()
    modifies e.browser
    ensures e.browser.log == old(e.browser.log) + [Request.ExecuteScript(ScrollScript(x, Pixels(0)))]
    ensures var reply := e.browser.respond(old(|e.browser.log|), Request.ExecuteScript(ScrollScript(x, Pixels(0))));
      && r == ScrollOutcome(e, reply, sleep)
      && e.browser.slept == old(e.browser.slept) + (if reply.Ok? && sleep > 0.0 then [sleep] else [])
  {
    r := Scroll(e, x, Pixels(0), sleep);
  }

  /** `scroll_bottom(x, sleep)`: scroll to `y = document.body.scrollHeight`. */
  method ScrollBottom(e: Elements, x: Coordinate, sleep: real) returns (r: Outcome<Elements>)
    requires e.Valid()
    modifies e.browser
    ensures e.browser.log == old(e.browser.log) + [Request.ExecuteScript(ScrollScript(x, Expression("document.body.scrollHeight")))]
    ensures var reply := e.browser.respond(old(|e.browser.log|),
                                           Request.ExecuteScript(ScrollScript(x, Expression("document.body.scrollHeight"))));
      && r == ScrollOutcome(e, reply, sleep)
      && e.browser.slept == old(e.browser.slept) + (if reply.Ok? && sleep > 0.0 then [sleep] else [])
  {
    r := Scroll(e, x, Expression("document.body.scrollHeight"), sleep);
  }
}
