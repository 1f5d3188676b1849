/** The collection of elementium/elements.py as the Selenium subclass of
    elementium/drivers/se.py specialises it: a list of nodes (`items`) that
    a collection recomputes from its context (the collection it was derived
    from) with its resolver, whenever it is refreshed.

    Every collection of a chain shares the browser and the `config` dict of
    the collection it was derived from. The ghost `depth` and `chain` (the
    collection and all its ancestors) make the upward refresh terminate and
    frame what a method may change. */
module Collection {
  import opened Errors
  import opened Traces
  import opened Retry
  import opened PyList
  import opened Driver
  import opened Callbacks
  import C = Classes

  function MaxNat(a: nat, b: nat): nat {
    if a < b then b else a
  }

  /** The outcome is not this module's TimeOutError: only `until` raises
      that (see `C.TimeOutsAreLeaves` for its instances). */
  predicate Untimed<T>(o: Outcome<T>) {
    o.Raised? ==> ClassOf(o.exc) != C.ElementsTimeOutError
  }

  /** The error an outcome raised, if any. */
  function ErrorOf<T>(o: Outcome<T>): Option<Exc> {
    if o.Raised? then Some(o.exc) else None
  }

  predicate UntimedRefresh(e: Option<Exc>) {
    e.Some? ==> ClassOf(e.value) != C.ElementsTimeOutError
  }

  /** The `config` dict a collection shares with those derived from it. */
  class Config {
    /** `config['ttl']`; None when the key is absent. */
    var ttl: Option<real>
    /** How many other keys the dict holds. */
    var others: nat

    constructor (ttl: Option<real>, others: nat)
      ensures this.ttl == ttl && this.others == others
    {
      this.ttl := ttl;
      this.others := others;
    }

    /** `len(config)` */
    function Size(): nat
      reads this
    {
      (if ttl.Some? then 1 else 0) + others
    }

    /** Python truthiness of the dict: it is not empty. */
    function Truthy(): (b: bool)
      reads this
      ensures b <==> Size() > 0
    {
      ttl.Some? || others > 0
    }

    /** `if not config.get('ttl'): config['ttl'] = DEFAULT_TTL` */
    method Normalise()
      modifies this
      ensures ttl == Some(Fallback(old(ttl), DefaultTtl)) && others == old(others)
    {
      if !(ttl.Some? && ttl.value != 0.0) {
        ttl := Some(DefaultTtl);
      }
    }
  }

  /** In a chain without queries every refresh of a `with_update` run
      ends as the first one does, with what the chain refreshed to when the
      run started (`r0`): until a refresh has returned, the chain still
      refreshes to `r0` (`now`), and once one has, the items are what it
      gave and a further refresh gives them again. */
  ghost predicate RefreshesAs(r0: Outcome<seq<Node>>, ups: seq<Option<Exc>>, now: Outcome<seq<Node>>, items: seq<Node>) {
    && (forall j :: 0 <= j < |ups| ==> ups[j] == ErrorOf(r0))
    && (|ups| == 0 || r0.Ok? ==> now == r0)
    && (|ups| > 0 && r0.Ok? ==> items == r0.value)
  }

  /** One pass of the `with_update` loop keeps `RefreshesAs`: a call that
      is not retried leaves the chain alone, and a retried one refreshes it
      from `now`, to `now'` and the items `items'`. */
  lemma RefreshesStep(r0: Outcome<seq<Node>>, ups: seq<Option<Exc>>, now: Outcome<seq<Node>>, items: seq<Node>,
                      retry: bool, e: Option<Exc>, now': Outcome<seq<Node>>, items': seq<Node>)
    requires RefreshesAs(r0, ups, now, items) && forall j :: 0 <= j < |ups| ==> ups[j] == None
    requires retry ==> now == (if e.None? then Ok(items') else Raised(e.value)) && (e.None? ==> now' == Ok(items'))
    requires !retry ==> now' == now && items' == items
    ensures RefreshesAs(r0, if retry then ups + [e] else ups, now', items')
  {
    if |ups| > 0 {
      assert ups[0] == None;
    }
  }

  /** What `until` and `insist` wait for: `len(e) > n`, `len(e) == n`, or
      `e.is_displayed()`. */
  datatype Condition = LenAbove(n: int) | LenIs(n: int) | FirstDisplayed

  class Elements {
    const browser: WebDriver
    const context: Elements?
    const resolver: Resolver
    const config: Config
    ghost const depth: nat
    ghost const chain: set<Elements>
    var items: seq<Node>

    /** The chain of contexts is finite and acyclic, and shares one browser
        and one config. */
    ghost predicate Chained()
      decreases depth
    {
      && this in chain
      && (context == null ==> depth == 0 && chain == {this})
      && (context != null ==>
            && depth == context.depth + 1
            && chain == {this} + context.chain
            && context in context.chain
            && this !in context.chain
            && context.browser == browser
            && context.config == config
            && context.Chained())
    }

    ghost predicate Valid()
      reads config
    {
      Chained() && config.ttl.Some? && browser.Valid()
    }

    /** The most items a refresh that propagated can leave: one for the
        single-node resolvers, the context's bound for `filter`, and for a
        query as many match lists as the context has items. */
    ghost function Bound(): nat
      requires Chained()
      decreases depth
    {
      match resolver
      case Root => 1
      case Index(_) => 1
      case ParentItem => 1
      case Same => if context == null then 0 else context.Bound()
      case Query(_, _, _, _) => if context == null then 0 else context.Bound() * browser.maxMatches
    }

    /** No collection of the chain is a query. */
    ghost predicate QueryFree()
      requires Chained()
      decreases depth
    {
      !resolver.Query? && (context != null ==> context.QueryFree())
    }

    /** What a propagating `update` of a chain without queries makes of the
        items: the context is refreshed first when it is not empty, and then
        this resolver runs over what the context now holds. The first
        resolver that raises, from the root down, decides the error. */
    ghost function Refreshed(): Outcome<seq<Node>>
      requires Chained() && QueryFree()
      reads chain
      decreases depth
    {
      if context != null && |context.items| > 0 then
        match context.Refreshed()
        case Raised(e) => Raised(e)
        case Ok(cs) => Direct(resolver, Some(cs))
      else
        Direct(resolver, ContextItems())
    }

    /** The items the resolver is given: the context's, or None. */
    function ContextItems(): Option<seq<Node>>
      reads context
    {
      if context == null then None else Some(context.items)
    }

    /** The collections `update(propagate)` reassigns, in order: the context
        first, when propagating to a non-empty context, then this one. */
    ghost function RefreshOrder(propagate: bool): seq<object>
      requires Chained()
      reads chain
      decreases depth
    {
      (if propagate && context != null && |context.items| > 0 then context.RefreshOrder(true) else []) + [this]
    }

    /** Allocate a collection; `NewRoot`, `NewChild` and `Get` run the
        constructor's checks and its first update. */
    constructor (browser: WebDriver, context: Elements?, resolver: Resolver, config: Config, items: seq<Node>)
      requires context != null ==> context.Chained() && context.browser == browser && context.config == config
      ensures Chained()
      ensures this.browser == browser && this.context == context && this.resolver == resolver
      ensures this.config == config && this.items == items
    {
      this.browser := browser;
      this.context := context;
      this.resolver := resolver;
      this.config := config;
      this.items := items;
      depth := if context == null then 0 else context.depth + 1;
      chain := if context == null then {this} else {this} + context.chain;
    }

    /** `get(i)`: the child `SeElements(browser, self, lambda context:
        [context.items[i]], config)`, built eagerly. */
    method Get(i: int) returns (r: Outcome<Elements>)
      requires Valid()
      modifies config
      ensures Valid() && config.ttl == Some(Fallback(old(config.ttl), DefaultTtl))
      ensures r.Ok? <==> -|items| <= i < |items|
      ensures r.Raised? ==> r.exc == IndexError
      ensures r.Ok? ==> && fresh(r.value) && r.value.Valid()
                        && r.value.context == this && r.value.resolver == Index(i)
                        && r.value.browser == browser && r.value.config == config
                        && r.value.items == [GetItem(items, i).value]
    {
      config.Normalise();
      match Direct(Index(i), Some(items))
      case Ok(v) =>
        var child := new Elements(browser, this, Index(i), config, v);
        r := Ok(child);
      case Raised(e) =>
        r := Raised(e);
    }

    /** `self.items[i] = value` */
    method SetItem(i: int, v: Node) returns (r: Option<Exc>)
      modifies this
      ensures var s := PyList.SetItem(old(items), i, v);
        && (s.Ok? ==> r == None && items == s.value)
        && (s.Raised? ==> r == Some(s.exc) && items == old(items))
    {
      match PyList.SetItem(items, i, v)
      case Ok(s) =>
        items := s;
        r := None;
      case Raised(e) =>
        r := Some(e);
    }

    /** `del self.items[i]` */
    method DelItem(i: int) returns (r: Option<Exc>)
      modifies this
      ensures var s := PyList.DelItem(old(items), i);
        && (s.Ok? ==> r == None && items == s.value)
        && (s.Raised? ==> r == Some(s.exc) && items == old(items))
    {
      match PyList.DelItem(items, i)
      case Ok(s) =>
        items := s;
        r := None;
      case Raised(e) =>
        r := Some(e);
    }

    /** `self.items.insert(index, value)`, which never raises. */
    method Insert(i: int, v: Node)
      modifies this
      ensures items == PyList.Insert(old(items), i, v)
      ensures Contains(v) && forall x :: old(Contains(x)) ==> Contains(x)
    {
      items := PyList.Insert(items, i, v);
    }

    /** `item in self.items` */
    function Contains(x: Node): (b: bool)
      reads this
      ensures b <==> exists i :: 0 <= i < |items| && items[i] == x
    {
      x in items
    }

    /** `item`: the first node, or None for an empty collection; it never raises. */
    function Item(): (r: Option<Node>)
      reads this
      ensures r.Some? <==> |items| > 0
      ensures r.Some? ==> r.value == items[0] && Contains(r.value)
    {
      if items == [] then None else Some(items[0])
    }

    /** `ttl`: `config['ttl']`. */
    function Ttl(): (t: real)
      requires config.ttl.Some?
      reads config
      ensures config.ttl == Some(t)
    {
      config.ttl.value
    }

    /** `ttl = value`, which every collection sharing the config sees. */
    method SetTtl(v: real)
      modifies config
      ensures config.ttl == Some(v) && config.others == old(config.others)
      ensures Ttl() == v
    {
      config.ttl := Some(v);
    }

    /** Run a callback of se.py against this collection, as `with_update`
        does with `fn(elements)`: what `answer` and `ask` say of the items
        from the next request on, which `Describes` makes `Answer` and
        `Asked`. */
    method Apply(cb: Callback, ghost answer: (seq<Node>, nat) -> Outcome<Value>,
                 ghost ask: (seq<Node>, nat) -> seq<Request>) returns (r: Outcome<Value>)
      requires Valid() && Describes(answer, ask, cb, browser.respond)
      modifies browser
      ensures r.Ok? ==> Produces(cb, r.value, browser.maxMatches)
      ensures Untimed(r)
      ensures browser.slept == old(browser.slept) && browser.refreshed == old(browser.refreshed)
      ensures browser.now >= old(browser.now)
      ensures r == answer(items, old(|browser.log|))
      ensures browser.log == old(browser.log) + ask(items, old(|browser.log|))
    {
      assert browser.Valid();
      match cb {
      case Read(k) =>
        r := ReadFirst(k);
      case Do(c) =>
        r := DoFirst(c);
      case SelectBy(i, value, text) =>
        r := SelectFirst(i, value, text);
      case DeselectBy(i, value, text) =>
        r := DeselectFirst(i, value, text);
      case Matches(kind, selector, onlyDisplayed) =>
        r := Match(kind, selector, onlyDisplayed);
        MatchesAnswer(kind, selector, onlyDisplayed, items, browser.respond, old(|browser.log|), r);
        MatchesAsked(kind, selector, onlyDisplayed, items, browser.respond, old(|browser.log|), old(browser.log), browser.log);
      case PageTitle =>
        r := browser.Send(Title);
      case Source =>
        r := browser.Send(Request.PageSource);
      }
      assert r == Answer(cb, items, browser.respond, old(|browser.log|));
      assert browser.log == old(browser.log) + Asked(cb, items, browser.respond, old(|browser.log|));
    }

    /** The readers' callback: `elements.item.<reading>` when there is a
        first item, else False for the flags and None for the rest. */
    method ReadFirst(k: Reading) returns (r: Outcome<Value>)
      requires Valid()
      modifies browser
      ensures Untimed(r)
      ensures browser.slept == old(browser.slept) && browser.refreshed == old(browser.refreshed)
      ensures browser.now >= old(browser.now)
      ensures items == [] ==> r == Ok(EmptyReading(k)) && browser.log == old(browser.log)
      ensures items != [] ==>
        && r == browser.respond(old(|browser.log|), ReadRequest(k, items[0]))
        && browser.log == old(browser.log) + [ReadRequest(k, items[0])]
    {
      assert browser.Valid();
      if items == [] {
        r := Ok(EmptyReading(k));
      } else {
        r := browser.Send(ReadRequest(k, items[0]));
      }
    }

    /** The callbacks of `clear`, `click` and `write`: `elements.item.<command>()`,
        which raises AttributeError when there is no first item. */
    method DoFirst(c: Command) returns (r: Outcome<Value>)
      requires Valid()
      modifies browser
      ensures Untimed(r)
      ensures browser.slept == old(browser.slept) && browser.refreshed == old(browser.refreshed)
      ensures browser.now >= old(browser.now)
      ensures items == [] ==> r == Raised(AttributeError) && browser.log == old(browser.log)
      ensures items != [] ==>
        && r == browser.respond(old(|browser.log|), CommandRequest(c, items[0]))
        && browser.log == old(browser.log) + [CommandRequest(c, items[0])]
    {
      assert browser.Valid();
      if items == [] {
        r := Raised(AttributeError);
      } else {
        r := browser.Send(CommandRequest(c, items[0]));
      }
    }

    /** The callback of `select`: wrap the first item in a Select, then
        pick by the first truthy of index, value and text; with none of
        them, raise ValueError. */
    method SelectFirst(i: Option<int>, value: Option<string>, text: Option<string>) returns (r: Outcome<Value>)
      requires Valid()
      modifies browser
      ensures Untimed(r)
      ensures browser.slept == old(browser.slept) && browser.refreshed == old(browser.refreshed)
      ensures browser.now >= old(browser.now)
      ensures items == [] ==> r == Raised(AttributeError) && browser.log == old(browser.log)
      ensures items != [] ==> |browser.log| > old(|browser.log|) && browser.log[old(|browser.log|)] == WrapSelect(items[0])
      ensures items != [] && browser.respond(old(|browser.log|), WrapSelect(items[0])).Ok? ==>
        match SelectChoice(i, value, text)
        case Raised(e) => r == Raised(e) && browser.log == old(browser.log) + [WrapSelect(items[0])]
        case Ok(ch) =>
          && browser.log == old(browser.log) + [WrapSelect(items[0]), SelectOption(items[0], ch)]
          && (r.Ok? <==> browser.respond(old(|browser.log|) + 1, SelectOption(items[0], ch)).Ok?)
      ensures r.Ok? ==> r.value == NoneValue
      ensures r == Answer(SelectBy(i, value, text), items, browser.respond, old(|browser.log|))
      ensures browser.log == old(browser.log) + Asked(SelectBy(i, value, text), items, browser.respond, old(|browser.log|))
    {
      assert browser.Valid();
      if items == [] {
        return Raised(AttributeError);
      }
      r := browser.Send(WrapSelect(items[0]));
      if r.Ok? {
        match SelectChoice(i, value, text)
        case Ok(ch) =>
          r := browser.Send(SelectOption(items[0], ch));
          if r.Ok? {
            r := Ok(NoneValue);
          }
        case Raised(e) =>
          r := Raised(e);
      } else {
        r := Raised(r.exc);
      }
      SelectAnswer(i, value, text, items, browser.respond, old(|browser.log|), r, old(browser.log), browser.log);
    }

    /** The callback of `deselect`: wrap the first item in a Select, then
        drop by the first truthy of index, value and text, or drop all. */
    method DeselectFirst(i: Option<int>, value: Option<string>, text: Option<string>) returns (r: Outcome<Value>)
      requires Valid()
      modifies browser
      ensures Untimed(r)
      ensures browser.slept == old(browser.slept) && browser.refreshed == old(browser.refreshed)
      ensures browser.now >= old(browser.now)
      ensures items == [] ==> r == Raised(AttributeError) && browser.log == old(browser.log)
      ensures items != [] ==> |browser.log| > old(|browser.log|) && browser.log[old(|browser.log|)] == WrapSelect(items[0])
      ensures items != [] && browser.respond(old(|browser.log|), WrapSelect(items[0])).Ok? ==>
        && browser.log == old(browser.log) + [WrapSelect(items[0]), DeselectOption(items[0], DeselectChoice(i, value, text))]
        && (r.Ok? <==> browser.respond(old(|browser.log|) + 1, DeselectOption(items[0], DeselectChoice(i, value, text))).Ok?)
      ensures r.Ok? ==> r.value == NoneValue
      ensures r == Answer(DeselectBy(i, value, text), items, browser.respond, old(|browser.log|))
      ensures browser.log == old(browser.log) + Asked(DeselectBy(i, value, text), items, browser.respond, old(|browser.log|))
    {
      assert browser.Valid();
      if items == [] {
        return Raised(AttributeError);
      }
      r := browser.Send(WrapSelect(items[0]));
      if r.Ok? {
        r := browser.Send(DeselectOption(items[0], DeselectChoice(i, value, text)));
        if r.Ok? {
          r := Ok(NoneValue);
        }
      } else {
        r := Raised(r.exc);
      }
      DeselectAnswer(i, value, text, items, browser.respond, old(|browser.log|), r, old(browser.log), browser.log);
    }

    /** `inner(e)` of `find`, `xpath` and `find_link`: the matches under the
        first item, kept only when displayed if `onlyDisplayed`. */
    method Match(kind: QueryKind, selector: string, onlyDisplayed: bool) returns (r: Outcome<Value>)
      requires Valid()
      modifies browser
      ensures r.Ok? ==> r.value.NodesValue? && |r.value.nodes| <= browser.maxMatches
      ensures Untimed(r)
      ensures browser.slept == old(browser.slept) && browser.refreshed == old(browser.refreshed)
      ensures browser.now >= old(browser.now)
      ensures items == [] ==> r == Raised(AttributeError) && browser.log == old(browser.log)
      ensures items != [] ==> |browser.log| > old(|browser.log|)
                              && browser.log[old(|browser.log|)] == FindAll(kind, items[0], selector)
      ensures items != [] ==>
        var found := browser.respond(old(|browser.log|), FindAll(kind, items[0], selector));
        && (found.Raised? || !onlyDisplayed ==> r == found)
        && (found.Ok? && onlyDisplayed ==> r == FilterDisplayed(browser.respond, old(|browser.log|) + 1, found.value.nodes))
        && browser.log == old(browser.log) + [FindAll(kind, items[0], selector)]
             + if found.Raised? || !onlyDisplayed then []
               else DisplayQueries(found.value.nodes[..DisplayAsked(browser.respond, old(|browser.log|) + 1, found.value.nodes)])
    {
      assert browser.Valid();
      if items == [] {
        return Raised(AttributeError);
      }
      var found := browser.Send(FindAll(kind, items[0], selector));
      assert FindReplyFits(found, browser.maxMatches);
      if found.Raised? || !onlyDisplayed {
        return found;
      }
      ghost var sent := browser.log;
      r := KeepDisplayed(found.value.nodes);
      assert browser.log[old(|browser.log|)] == sent[old(|browser.log|)];
    }

    /** `filter(lambda obj: obj.is_displayed(), matches)`: ask the driver
        about each match in turn and keep those it calls displayed. */
    method KeepDisplayed(ms: seq<Node>) returns (r: Outcome<Value>)
      requires Valid() && |ms| <= browser.maxMatches
      modifies browser
      ensures r == FilterDisplayed(browser.respond, old(|browser.log|), ms)
      ensures browser.log == old(browser.log) + DisplayQueries(ms[..DisplayAsked(browser.respond, old(|browser.log|), ms)])
      ensures r.Ok? ==> |r.value.nodes| <= browser.maxMatches
      ensures Untimed(r)
      ensures browser.slept == old(browser.slept) && browser.refreshed == old(browser.refreshed)
      ensures browser.now >= old(browser.now)
    {
      assert browser.Valid();
      var flags := browser.DisplayedFlags(ms);
      match flags
      case Raised(e) =>
        DisplayFilterRaised(browser.respond, old(|browser.log|), ms);
        r := Raised(e);
      case Ok(shown) =>
        r := Ok(NodesValue(Kept(ms, shown)));
    }

    // -------------------------------------------------------------------
    // Refreshing: update, the resolver, with_update and foreach call one
    // another down the chain of contexts; `depth` bounds the recursion.

    /** `update(propagate)`: refresh the context first when propagating to a
        non-empty one, then recompute the items from the context's. A
        refresh that raises leaves the items as they were. */
    method Update(propagate: bool) returns (r: Option<Exc>)
      requires Valid()
      modifies chain, browser, config
      ensures Valid()
      ensures UntimedRefresh(r)
      ensures r.Some? ==> items == old(items)
      ensures r.None? && !resolver.Query? ==> Direct(resolver, ContextItems()) == Ok(items)
      ensures !propagate && !resolver.Query? ==>
        && (r.None? <==> Direct(resolver, old(ContextItems())).Ok?)
        && (r.Some? ==> Direct(resolver, old(ContextItems())) == Raised(r.value))
        && unchanged(chain - {this}) && browser.log == old(browser.log)
      ensures (!propagate && !resolver.Query?) || QueryFree() ==> unchanged(config)
      ensures propagate && r.None? ==> |items| <= Bound()
      ensures !propagate && r.None? && resolver.Query? && context != null ==>
        |items| <= MaxNat(|old(context.items)|, context.Bound()) * browser.maxMatches
      ensures !propagate && resolver.Query? && context != null
              && Steady(QueryCallback(resolver), old(context.items), browser.respond) ==>
        r.None? && items == SteadyQueryResult(resolver, old(context.items), browser.respond)
      ensures r.None? && QueryFree() ==> browser.refreshed == old(browser.refreshed) + old(RefreshOrder(propagate))
      ensures r.None? ==> |old(browser.refreshed)| < |browser.refreshed| && browser.refreshed[|browser.refreshed| - 1] == this
      ensures propagate && QueryFree() ==> old(Refreshed()) == (if r.None? then Ok(items) else Raised(r.value))
      ensures propagate && QueryFree() && r.None? ==> Refreshed() == Ok(items)
      ensures browser.Grew()
      ensures browser.now >= old(browser.now)
      decreases depth, 2
    {
      if propagate && context != null && |context.items| > 0 {
        r := context.Update(true);
        if r.Some? {
          return;
        }
      }
      if propagate && context != null {
        assert |context.items| <= context.Bound();
      }
      r := Recompute();
    }

    /** `self.items = self.fn(self.context)`: the resolver run against what
        the context holds now. A resolver that raises leaves the items. */
    method Recompute() returns (r: Option<Exc>)
      requires Valid()
      modifies chain, browser, config
      ensures Valid()
      ensures UntimedRefresh(r)
      ensures r.Some? ==> items == old(items)
      ensures !resolver.Query? ==>
        && (r.None? <==> Direct(resolver, old(ContextItems())).Ok?)
        && (r.None? ==> Direct(resolver, old(ContextItems())) == Ok(items))
        && (r.Some? ==> Direct(resolver, old(ContextItems())) == Raised(r.value))
        && unchanged(chain - {this}) && unchanged(config) && browser.log == old(browser.log)
        && (r.None? ==> browser.refreshed == old(browser.refreshed) + [this])
      ensures r.None? && resolver.Query? && context != null ==>
        |items| <= MaxNat(|old(context.items)|, context.Bound()) * browser.maxMatches
      ensures r.None? && (context == null || |old(context.items)| <= context.Bound()) ==> |items| <= Bound()
      ensures resolver.Query? && context != null
              && Steady(QueryCallback(resolver), old(context.items), browser.respond) ==>
        r.None? && items == SteadyQueryResult(resolver, old(context.items), browser.respond)
      ensures r.None? ==> |old(browser.refreshed)| < |browser.refreshed| && browser.refreshed[|browser.refreshed| - 1] == this
      ensures browser.Grew()
      ensures browser.now >= old(browser.now)
      decreases depth, 1
    {
      var v := Resolve();
      if v.Raised? {
        return Some(v.exc);
      }
      items := v.value;
      browser.refreshed := browser.refreshed + [this];
      r := None;
    }

    /** `self.fn(self.context)`: the resolver run against the context. A
        query runs its matcher over every item of the context with
        `foreach` and concatenates what each round found. */
    method Resolve() returns (r: Outcome<seq<Node>>)
      requires Valid()
      modifies chain - {this}, browser, config
      ensures Valid()
      ensures Untimed(r)
      ensures !resolver.Query? ==>
        r == Direct(resolver, ContextItems()) && unchanged(chain - {this}) && unchanged(browser) && unchanged(config)
      ensures resolver.Query? && context == null ==> r == Raised(AttributeError)
      ensures r.Ok? && resolver.Query? && context != null ==>
        |r.value| <= MaxNat(|old(context.items)|, context.Bound()) * browser.maxMatches
      ensures resolver.Query? && context != null && Steady(QueryCallback(resolver), old(context.items), browser.respond) ==>
        r == Ok(SteadyQueryResult(resolver, old(context.items), browser.respond))
      ensures browser.Grew()
      ensures browser.now >= old(browser.now)
      decreases depth, 0
    {
      match resolver
      case Query(kind, selector, onlyDisplayed, ttl) =>
        if context == null {
          r := Raised(AttributeError);
        } else {
          r := context.Gather(kind, selector, onlyDisplayed, ttl);
        }
      case _ =>
        r := Direct(resolver, ContextItems());
    }

    /** The resolver a query builds, `callback(elements)`, applied to this
        collection as the context: `foreach` of the matcher with the
        results kept and the query's ttl, flattened. */
    method Gather(kind: QueryKind, selector: string, onlyDisplayed: bool, ttl: real) returns (r: Outcome<seq<Node>>)
      requires Valid()
      modifies chain, browser, config
      ensures Valid() && browser.Grew()
      ensures Untimed(r)
      ensures r.Ok? ==> |r.value| <= MaxNat(old(|items|), Bound()) * browser.maxMatches
      ensures Steady(Matches(kind, selector, onlyDisplayed), old(items), browser.respond) ==>
        r == Ok(SteadyQueryResult(Query(kind, selector, onlyDisplayed, ttl), old(items), browser.respond))
      ensures browser.now >= old(browser.now)
      decreases depth, 14
    {
      ghost var log0 := browser.log;
      var vs, refreshes := Foreach(Matches(kind, selector, onlyDisplayed), 0.0, Some(ttl));
      match vs
      case Raised(e) =>
        r := Raised(e);
      case Ok(values) =>
        r := Ok(Flatten(NodesOf(values)));
        QueryResultShape(values, browser.maxMatches, []);
        ScaleBound(|values|, MaxNat(old(|items|), Bound()), browser.maxMatches, |r.value|);
        if Steady(Matches(kind, selector, onlyDisplayed), old(items), browser.respond) {
          SteadyQueryValues(Query(kind, selector, onlyDisplayed, ttl), old(items), browser.respond, log0, values,
                            browser.log, browser.maxMatches);
        }
    }

    /** The `except` branch of `with_update` for a WebDriverException:
        `elements.update()` (with propagation) and, when it returned, the
        sleep. A refresh that raises leaves the items and skips the sleep. */
    method Recover(sleepTime: real) returns (e: Option<Exc>)
      requires Valid() && sleepTime >= 0.0
      modifies chain, browser, config
      ensures Valid() && browser.Grew()
      ensures UntimedRefresh(e)
      ensures e.Some? ==> items == old(items)
      ensures e.None? ==> |items| <= Bound()
      ensures e.None? ==>
        && |old(browser.refreshed)| < |browser.refreshed| && browser.refreshed[|browser.refreshed| - 1] == this
        && |old(browser.slept)| < |browser.slept| && browser.slept[|browser.slept| - 1] == sleepTime
      ensures QueryFree() ==> old(Refreshed()) == (if e.None? then Ok(items) else Raised(e.value))
      ensures QueryFree() && e.None? ==> Refreshed() == Ok(items)
      ensures browser.now >= old(browser.now)
      decreases depth, 3
    {
      e := Update(true);
      if e.None? {
        ghost var slept1, refreshed1 := browser.slept, browser.refreshed;
        var _ := browser.Sleep(sleepTime);
        assert browser.slept == slept1 + [sleepTime];
        assert browser.refreshed == refreshed1;
      }
    }

    /** The body of the `with_update` loop: call `fn`; on a
        WebDriverException refresh and, when the refresh returned, sleep.
        The ghost `marks` records where the calls so far started; the call
        made here is added to them. */
    method UpdatePass(cb: Callback, sleepTime: real, ghost answer: (seq<Node>, nat) -> Outcome<Value>,
                      ghost ask: (seq<Node>, nat) -> seq<Request>, ghost marks: seq<Mark>, ghost outs: seq<Outcome<Value>>,
                      ghost now: Outcome<seq<Node>>)
      returns (r: Outcome<Value>, e: Option<Exc>, ghost marks': seq<Mark>)
      requires Valid() && sleepTime >= 0.0 && sleepTime == SleepAt(|marks|)
      requires Describes(answer, ask, cb, browser.respond)
      requires QueryFree() ==> Refreshed() == now
      requires Pending(answer, ask, marks, outs, items,
                       browser.log, browser.slept, browser.refreshed, this)
      modifies chain, browser, config
      ensures Valid() && browser.Grew()
      ensures r.Ok? ==> Produces(cb, r.value, browser.maxMatches)
      ensures Untimed(r) && UntimedRefresh(e)
      ensures r == answer(old(items), old(|browser.log|))
      ensures PassRecorded(answer, ask, marks, outs, old(items),
                           old(browser.log), old(browser.slept), old(browser.refreshed), r,
                           r.Raised? && Retryable(r.exc, C.WebDriverException) && e.None?,
                           marks', items, browser.log, browser.slept, browser.refreshed, this)
      ensures !(r.Raised? && Retryable(r.exc, C.WebDriverException)) ==>
        && e.None? && items == old(items)
        && browser.log == old(browser.log) + ask(old(items), old(|browser.log|))
        && browser.slept == old(browser.slept) && browser.refreshed == old(browser.refreshed)
      ensures e.Some? ==> items == old(items)
      ensures items == old(items) || |items| <= Bound()
      ensures QueryFree() && r.Raised? && Retryable(r.exc, C.WebDriverException) ==>
        && now == (if e.None? then Ok(items) else Raised(e.value))
        && (e.None? ==> Refreshed() == Ok(items))
      ensures QueryFree() && !(r.Raised? && Retryable(r.exc, C.WebDriverException)) ==> Refreshed() == now
      ensures browser.now >= old(browser.now)
      decreases depth, 5
    {
      ghost var items0, log0, slept0, refreshed0 := items, browser.log, browser.slept, browser.refreshed;
      var out := Apply(cb, answer, ask);
      var err;
      err, marks' := Handle(out, sleepTime, answer, ask, marks, outs, items0, log0, slept0, refreshed0);
      r, e := out, err;
    }

    /** The `except WebDriverException` clause around the call of the
        pass, which answered `r`: a retryable exception `Recover`s with the
        pause `sleepTime`; anything else leaves the collection and the
        records as they were. */
    method Handle(r: Outcome<Value>, sleepTime: real, ghost answer: (seq<Node>, nat) -> Outcome<Value>,
                  ghost ask: (seq<Node>, nat) -> seq<Request>, ghost marks: seq<Mark>, ghost outs: seq<Outcome<Value>>,
                  ghost items0: seq<Node>, ghost log0: seq<Request>, ghost slept0: seq<real>, ghost refreshed0: seq<object>)
      returns (e: Option<Exc>, ghost marks': seq<Mark>)
      requires Valid() && sleepTime >= 0.0 && sleepTime == SleepAt(|marks|)
      requires Pending(answer, ask, marks, outs, items0, log0, slept0, refreshed0, this)
      requires r == answer(items0, |log0|) && browser.log == log0 + ask(items0, |log0|)
      requires items == items0 && browser.slept == slept0 && browser.refreshed == refreshed0
      modifies chain, browser, config
      ensures Valid() && browser.Grew()
      ensures UntimedRefresh(e)
      ensures r.Raised? && Retryable(r.exc, C.WebDriverException) && e.None? ==>
        && |old(browser.refreshed)| < |browser.refreshed| && browser.refreshed[|browser.refreshed| - 1] == this
        && |old(browser.slept)| < |browser.slept| && browser.slept[|browser.slept| - 1] == sleepTime
        && |items| <= Bound()
      ensures !(r.Raised? && Retryable(r.exc, C.WebDriverException)) ==>
        && e.None? && items == old(items) && browser.log == old(browser.log)
        && browser.slept == old(browser.slept) && browser.refreshed == old(browser.refreshed)
      ensures e.Some? ==> items == old(items)
      ensures QueryFree() && r.Raised? && Retryable(r.exc, C.WebDriverException) ==>
        && old(Refreshed()) == (if e.None? then Ok(items) else Raised(e.value))
        && (e.None? ==> Refreshed() == Ok(items))
      ensures QueryFree() && !(r.Raised? && Retryable(r.exc, C.WebDriverException)) ==> Refreshed() == old(Refreshed())
      ensures PassRecorded(answer, ask, marks, outs, items0, log0, slept0, refreshed0, r,
                           r.Raised? && Retryable(r.exc, C.WebDriverException) && e.None?,
                           marks', items, browser.log, browser.slept, browser.refreshed, this)
      ensures browser.now >= old(browser.now)
      decreases depth, 4
    {
      ghost var log1 := browser.log;
      var retry := r.Raised? && Retryable(r.exc, C.WebDriverException);
      e := None;
      if retry {
        var err := Recover(sleepTime);
        e := err;
      }
      marks' := PassStep(answer, ask, marks, outs, items0, log0, slept0, refreshed0, r, retry && e.None?,
                         log1, items, browser.log, browser.slept, browser.refreshed, this);
    }

    /** The call `with_update` makes once the ttl has run out: `fn` once
        more, with nothing caught. The call joins the marks and ends them. */
    method LastCall(cb: Callback, ghost answer: (seq<Node>, nat) -> Outcome<Value>, ghost ask: (seq<Node>, nat) -> seq<Request>,
                    ghost marks: seq<Mark>, ghost outs: seq<Outcome<Value>>)
      returns (r: Outcome<Value>, ghost marks': seq<Mark>)
      requires Valid() && Describes(answer, ask, cb, browser.respond)
      requires Pending(answer, ask, marks, outs, items,
                       browser.log, browser.slept, browser.refreshed, this)
      modifies browser
      ensures Valid() && browser.Grew()
      ensures r.Ok? ==> Produces(cb, r.value, browser.maxMatches)
      ensures Untimed(r)
      ensures r == answer(items, old(|browser.log|))
      ensures browser.log == old(browser.log) + ask(items, old(|browser.log|))
      ensures browser.slept == old(browser.slept) && browser.refreshed == old(browser.refreshed)
      ensures browser.now >= old(browser.now)
      ensures |marks'| == |marks| + 1
      ensures marks'[0] == if marks == [] then Mark(items, old(|browser.log|), old(|browser.slept|), old(|browser.refreshed|))
                           else marks[0]
      ensures Settled(answer, ask, marks', outs + [r], items,
                      browser.log, browser.slept, browser.refreshed, this)
      ensures items == marks'[|marks'| - 1].items
    {
      ghost var log0, slept0, refreshed0 := browser.log, browser.slept, browser.refreshed;
      r := Apply(cb, answer, ask);
      marks' := PassStep(answer, ask, marks, outs, items, log0, slept0, refreshed0, r, false,
                         browser.log, items, browser.log, browser.slept, browser.refreshed, this);
    }

    /** One turn of the `while ttl > 0` loop of `with_update`, with `left`
        of the ttl `t` and the pause `sleepTime` next: an `UpdatePass`,
        after which the loop is `done` when the call was not caught or its
        refresh raised, and otherwise goes on with the ttl shortened by the
        pause and the next pause of the schedule. It keeps what
        `UpdateLoop` keeps, of a loop that started on the items `items0`
        with the records `log0`, `slept0` and `refreshed0` and the clock
        at `now0`. */
    method UpdateTurn(cb: Callback, t: real, ghost answer: (seq<Node>, nat) -> Outcome<Value>,
                      ghost ask: (seq<Node>, nat) -> seq<Request>, left: real, sleepTime: real, ghost k: nat,
                      ghost outs: seq<Outcome<Value>>, ghost ups: seq<Option<Exc>>, ghost marks: seq<Mark>,
                      ghost items0: seq<Node>, ghost log0: seq<Request>, ghost slept0: seq<real>,
                      ghost refreshed0: seq<object>, ghost now0: real, ghost r0: Outcome<seq<Node>>)
      returns (r: Outcome<Value>, done: bool, left': real, sleepTime': real, ghost k': nat,
               ghost outs': seq<Outcome<Value>>, ghost ups': seq<Option<Exc>>, ghost at: nat, ghost marks': seq<Mark>)
      requires Valid() && Describes(answer, ask, cb, browser.respond) && left > 0.0
      requires browser.now >= now0 && log0 <= browser.log && slept0 <= browser.slept && refreshed0 <= browser.refreshed
      requires UpdateLoopAt(Catching(C.WebDriverException), t, k, outs, ups, Ok(NoneValue), false, left, sleepTime)
      requires Pending(answer, ask, marks, outs, items, browser.log, browser.slept, browser.refreshed, this)
      requires marks != [] ==> marks[0] == Mark(items0, |log0|, |slept0|, |refreshed0|)
      requires items == items0 || |items| <= Bound()
      requires |ups| == 0 ==> items == items0 && browser.slept == slept0 && browser.refreshed == refreshed0
      requires |outs| == 0 ==> browser.log == log0 && items == items0
      requires |outs| > 0 ==> outs[0] == answer(items0, |log0|)
      requires |outs| > 0 && !Retried(outs[0], Catching(C.WebDriverException), t, 0) ==>
        browser.log == log0 + ask(items0, |log0|)
      requires QueryFree() ==> RefreshesAs(r0, ups, Refreshed(), items)
      modifies chain, browser, config
      ensures Valid()
      ensures browser.now >= now0 && log0 <= browser.log && slept0 <= browser.slept && refreshed0 <= browser.refreshed
      ensures UpdateLoopAt(Catching(C.WebDriverException), t, k', outs', ups', if done then r else Ok(NoneValue), done,
                           left', sleepTime')
      ensures k' == (if done then k else k + 1) && k < GuardedCalls(t)
      ensures !done ==> Pending(answer, ask, marks', outs', items, browser.log, browser.slept, browser.refreshed, this)
      ensures done ==> Settled(answer, ask, marks', outs', items, browser.log, browser.slept, browser.refreshed, this)
      ensures marks' != [] ==> marks'[0] == Mark(items0, |log0|, |slept0|, |refreshed0|)
      ensures done ==> Untimed(r) && (r.Ok? ==> Produces(cb, r.value, browser.maxMatches) && r == answer(items, at))
      ensures items == items0 || |items| <= Bound()
      ensures |ups'| == 0 ==> items == items0 && browser.slept == slept0 && browser.refreshed == refreshed0
      ensures |outs'| == 0 ==> browser.log == log0 && items == items0
      ensures |outs'| > 0 ==> outs'[0] == answer(items0, |log0|)
      ensures |outs'| > 0 && !Retried(outs'[0], Catching(C.WebDriverException), t, 0) ==>
        browser.log == log0 + ask(items0, |log0|)
      ensures QueryFree() ==> RefreshesAs(r0, ups', Refreshed(), items)
      decreases depth, 6
    {
      at := |browser.log|;
      ghost var now, items1 := if QueryFree() then Refreshed() else r0, items;
      var out, e;
      out, e, marks' := UpdatePass(cb, sleepTime, answer, ask, marks, outs, now);
      if QueryFree() {
        RefreshesStep(r0, ups, now, items1, out.Raised? && Retryable(out.exc, C.WebDriverException), e,
                      Refreshed(), items);
      }
      k', outs', ups' := UpdateLoopStep(Catching(C.WebDriverException), t, k, outs, ups, out, e, left, sleepTime);
      r := out;
      left', sleepTime' := left, sleepTime;
      if !(out.Raised? && Retryable(out.exc, C.WebDriverException)) {
        done := true;
      } else if e.Some? {
        r := Raised(e.value);
        done := true;
      } else {
        done := false;
        left' := left - sleepTime;
        sleepTime' := sleepTime + Min(sleepTime + sleepTime, 1.0);
      }
    }

    /** The `while ttl > 0` loop of `with_update`, from the ttl `t`. It
        stops at a call that was not caught or whose refresh raised (`done`,
        with `r` the run's result), or once the ttl has run out. `outs` and
        `ups` are the outcomes and refreshes met so far, `k` the rounds
        retried, and the calls made sit at `marks`. */
    method UpdateLoop(cb: Callback, t: real, ghost answer: (seq<Node>, nat) -> Outcome<Value>,
                      ghost ask: (seq<Node>, nat) -> seq<Request>)
      returns (r: Outcome<Value>, done: bool, left: real, sleepTime: real, ghost k: nat,
               ghost outs: seq<Outcome<Value>>, ghost ups: seq<Option<Exc>>, ghost at: nat, ghost marks: seq<Mark>)
      requires Valid() && Describes(answer, ask, cb, browser.respond)
      modifies chain, browser, config
      ensures Valid() && browser.now >= old(browser.now) && browser.Grew()
      ensures !done ==> left <= 0.0
      ensures UpdateLoopAt(Catching(C.WebDriverException), t, k, outs, ups, r, done, left, sleepTime)
      ensures !done ==> Pending(answer, ask, marks, outs, items,
                                browser.log, browser.slept, browser.refreshed, this)
      ensures done ==> Settled(answer, ask, marks, outs, items,
                               browser.log, browser.slept, browser.refreshed, this)
      ensures done ==> marks != [] && items == marks[|marks| - 1].items
      ensures marks != [] ==>
        marks[0] == Mark(old(items), old(|browser.log|), old(|browser.slept|), old(|browser.refreshed|))
      ensures done ==> Untimed(r) && (r.Ok? ==> Produces(cb, r.value, browser.maxMatches) && r == answer(items, at))
      ensures items == old(items) || |items| <= Bound()
      ensures |ups| == 0 ==>
        items == old(items) && browser.slept == old(browser.slept) && browser.refreshed == old(browser.refreshed)
      ensures |outs| == 0 ==> browser.log == old(browser.log)
      ensures |outs| > 0 ==> outs[0] == answer(old(items), old(|browser.log|))
      ensures |outs| > 0 && !Retried(outs[0], Catching(C.WebDriverException), t, 0) ==>
        browser.log == old(browser.log) + ask(old(items), old(|browser.log|))
      ensures QueryFree() ==> forall j :: 0 <= j < |ups| ==> ups[j] == ErrorOf(old(Refreshed()))
      ensures QueryFree() && ups != [] && old(Refreshed()).Ok? ==> items == old(Refreshed()).value
      decreases depth, 7
    {
      ghost var items0, log0, slept0, refreshed0, now0 := items, browser.log, browser.slept, browser.refreshed, browser.now;
      ghost var r0 := if QueryFree() then Refreshed() else Ok([]);
      left := t;
      sleepTime := DefaultSleepTime;
      k := 0;
      outs, ups, at, marks := [], [], 0, [];
      r := Ok(NoneValue);
      done := false;
      while !done && left > 0.0
        invariant Valid()
        invariant browser.now >= now0 && log0 <= browser.log && slept0 <= browser.slept && refreshed0 <= browser.refreshed
        invariant UpdateLoopAt(Catching(C.WebDriverException), t, k, outs, ups, if done then r else Ok(NoneValue), done,
                               left, sleepTime)
        invariant !done ==> Pending(answer, ask, marks, outs, items, browser.log, browser.slept, browser.refreshed, this)
        invariant done ==> Settled(answer, ask, marks, outs, items, browser.log, browser.slept, browser.refreshed, this)
        invariant marks != [] ==> marks[0] == Mark(items0, |log0|, |slept0|, |refreshed0|)
        invariant done ==> Untimed(r) && (r.Ok? ==> Produces(cb, r.value, browser.maxMatches) && r == answer(items, at))
        invariant items == items0 || |items| <= Bound()
        invariant |ups| == 0 ==> items == items0 && browser.slept == slept0 && browser.refreshed == refreshed0
        invariant |outs| == 0 ==> browser.log == log0 && items == items0
        invariant |outs| > 0 ==> outs[0] == answer(items0, |log0|)
        invariant |outs| > 0 && !Retried(outs[0], Catching(C.WebDriverException), t, 0) ==>
          browser.log == log0 + ask(items0, |log0|)
        invariant QueryFree() ==> RefreshesAs(r0, ups, Refreshed(), items)
        decreases GuardedCalls(t) - k, if done then 0 else 1
      {
        r, done, left, sleepTime, k, outs, ups, at, marks :=
          UpdateTurn(cb, t, answer, ask, left, sleepTime, k, outs, ups, marks, items0, log0, slept0, refreshed0, now0, r0);
      }
    }

    /** `with_update(fn, ttl)`: call `fn` on this collection; while the
        ttl lasts, a WebDriverException refreshes the collection (with
        propagation), sleeps and calls again. The outcomes and refreshes it
        met are returned as ghosts: the run is `WithUpdateLoop` over them.
        `marks` records where each call started: each outcome is what the
        callback makes of the items the collection then held, from the
        request it started at, and between two calls the collection
        refreshed and slept the schedule's pause. A value returned is the
        last call's, from the request `at` on. */
    method WithUpdate(cb: Callback, ttl: Option<real>)
      returns (r: Outcome<Value>, ghost trace: seq<Event>, ghost outs: seq<Outcome<Value>>, ghost ups: seq<Option<Exc>>,
               ghost at: nat, ghost marks: seq<Mark>)
      requires Valid()
      modifies chain, browser, config
      ensures Valid() && browser.Grew()
      ensures Run(r, trace) == WithUpdateLoop(Observed(outs, Ok(NoneValue)), Observed(ups, None),
                                             Catching(C.WebDriverException), Fallback(ttl, old(Ttl())), 0)
      ensures Updates(trace) == |ups|
      ensures |outs| >= 1 && outs[0] == Answer(cb, old(items), browser.respond, old(|browser.log|))
      ensures Settled(AnswerOn(cb, browser.respond), AskedOn(cb, browser.respond), marks, outs, items,
                      browser.log, browser.slept, browser.refreshed, this)
      ensures marks[0] == Mark(old(items), old(|browser.log|), old(|browser.slept|), old(|browser.refreshed|))
      ensures !Retried(outs[0], Catching(C.WebDriverException), Fallback(ttl, old(Ttl())), 0) ==>
        && r == outs[0] && |outs| == 1 && ups == [] && items == old(items)
        && browser.log == old(browser.log) + Asked(cb, old(items), browser.respond, old(|browser.log|))
      ensures Retried(outs[0], Catching(C.WebDriverException), Fallback(ttl, old(Ttl())), 0) ==> |ups| >= 1
      ensures Updates(trace) == 0 ==> browser.slept == old(browser.slept) && browser.refreshed == old(browser.refreshed)
      ensures Untimed(r) && (r.Ok? ==> r == Answer(cb, items, browser.respond, at) && Produces(cb, r.value, browser.maxMatches))
      ensures items == old(items) || |items| <= Bound()
      ensures Updates(trace) == 0 ==> items == old(items)
      ensures QueryFree() ==> forall j :: 0 <= j < |ups| ==> ups[j] == ErrorOf(old(Refreshed()))
      ensures QueryFree() && ups != [] && old(Refreshed()).Ok? ==> items == old(Refreshed()).value
      ensures browser.now >= old(browser.now)
      decreases depth, 8
    {
      var t := Fallback(ttl, Ttl());
      var done, left, sleepTime;
      ghost var k;
      DescribedOn(cb, browser.respond);
      r, done, left, sleepTime, k, outs, ups, at, marks := UpdateLoop(cb, t, AnswerOn(cb, browser.respond),
                                                                      AskedOn(cb, browser.respond));
      if !done {
        at := |browser.log|;
        r, marks := LastCall(cb, AnswerOn(cb, browser.respond), AskedOn(cb, browser.respond), marks, outs);
        UpdateLoopLast(Catching(C.WebDriverException), t, k, outs, ups, r, left, sleepTime);
        outs := outs + [r];
      }
      trace := WithUpdateConclude(outs, ups, Ok(NoneValue), Catching(C.WebDriverException), t, k, r);
    }

    /** One round of `foreach`: `with_update(fn, ttl)`, then the pause,
        which `time.sleep` refuses when negative. The ghosts are those of
        `WithUpdate`; a round that did not refresh is the callback's first
        attempt. */
    method Round(cb: Callback, t: real, pause: real)
      returns (r: Outcome<Value>, ghost trace: seq<Event>, ghost outs: seq<Outcome<Value>>, ghost ups: seq<Option<Exc>>,
               ghost at: nat, ghost marks: seq<Mark>)
      requires Valid()
      modifies chain, browser, config
      ensures Valid() && browser.Grew()
      ensures var run := WithUpdateLoop(Observed(outs, Ok(NoneValue)), Observed(ups, None),
                                        Catching(C.WebDriverException), Fallback(Some(t), old(Ttl())), 0);
        && run.trace == trace
        && r == (if run.result.Ok? && pause < 0.0 then Raised(SleepRefused) else run.result)
      ensures var first := Answer(cb, old(items), browser.respond, old(|browser.log|));
        && (!Retried(first, Catching(C.WebDriverException), Fallback(Some(t), old(Ttl())), 0) <==> Updates(trace) == 0)
        && (Updates(trace) == 0 ==>
              && items == old(items) && browser.refreshed == old(browser.refreshed)
              && browser.log == old(browser.log) + Asked(cb, old(items), browser.respond, old(|browser.log|))
              && r == (if first.Ok? && pause < 0.0 then Raised(SleepRefused) else first))
      ensures Settled(AnswerOn(cb, browser.respond), AskedOn(cb, browser.respond), marks, outs, items,
                      browser.log, browser.slept, browser.refreshed, this)
      ensures marks[0] == Mark(old(items), old(|browser.log|), old(|browser.slept|), old(|browser.refreshed|))
      ensures r.Ok? && pause > 0.0 ==>
        |browser.slept| > 0 && browser.slept[|browser.slept| - 1] == pause && browser.now >= old(browser.now) + pause
      ensures Untimed(r) && (r.Ok? ==> r == Answer(cb, items, browser.respond, at) && Produces(cb, r.value, browser.maxMatches))
      ensures items == old(items) || |items| <= Bound()
      ensures QueryFree() ==> forall j :: 0 <= j < |ups| ==> ups[j] == ErrorOf(old(Refreshed()))
      ensures QueryFree() && ups != [] && old(Refreshed()).Ok? ==> items == old(Refreshed()).value
      ensures browser.now >= old(browser.now)
      decreases depth, 9
    {
      var v;
      v, trace, outs, ups, at, marks := WithUpdate(cb, Some(t));
      ghost var slept0 := browser.slept;
      r := Pause(v, pause);
      assert r.Ok? ==> r == v;
      SettledGrow(AnswerOn(cb, browser.respond), AskedOn(cb, browser.respond), marks, outs, items,
                  browser.log, slept0, browser.refreshed, this, browser.log, browser.slept, browser.refreshed);
    }

    /** The pause after a call of `foreach` that returned `v`:
        `time.sleep(pause)` when the pause is not zero, which refuses a
        negative pause. A call that raised does not pause. */
    method Pause(v: Outcome<Value>, pause: real) returns (r: Outcome<Value>)
      modifies browser
      ensures r == (if v.Ok? && pause < 0.0 then Raised(SleepRefused) else v)
      ensures Untimed(v) ==> Untimed(r)
      ensures r.Ok? && pause > 0.0 ==>
        |browser.slept| > 0 && browser.slept[|browser.slept| - 1] == pause && browser.now >= old(browser.now) + pause
      ensures browser.log == old(browser.log) && browser.refreshed == old(browser.refreshed)
      ensures old(browser.slept) <= browser.slept && browser.now >= old(browser.now)
    {
      r := v;
      if v.Ok? && pause != 0.0 {
        var e := browser.Sleep(pause);
        if e.Some? {
          r := Raised(e.value);
          assert ClassOf(e.value) == C.Other("IOError");
        }
      }
    }

    /** One pass of the `foreach` loop: a round, whose value is appended
        to the results so far. `refreshes` counts the refreshes the rounds
        before made; when they made none, those `ran` rounds asked and
        collected as `CleanRounds` says, over the items `items0` and from
        the log `log0` the run started with. The pass adds the refreshes of
        its round: none exactly when its first answer is not retried. */
    method ForeachRound(cb: Callback, t: real, pause: real, results: seq<Value>, ghost items0: seq<Node>,
                        ghost log0: seq<Request>, ghost refreshed0: seq<object>, ghost ran: nat, ghost refreshes: nat)
      returns (r: Outcome<seq<Value>>, ghost refreshes': nat)
      requires Valid()
      requires AllProduce(cb, results, browser.maxMatches)
      requires refreshes == 0 ==>
        && items == items0 && browser.refreshed == refreshed0 && ran < |items0|
        && CleanRounds(AskedBy(cb, items0, browser.respond), AnswerBy(cb, items0, browser.respond), log0, pause, ran,
                       Ok(results), browser.log)
      requires var answers := RoundsAnswers(AnswerBy(cb, items0, browser.respond), AskedBy(cb, items0, browser.respond),
                                            |log0|, |items0|);
        NoneRetryable(answers) ==> refreshes == 0
      requires Steady(cb, items0, browser.respond) && pause >= 0.0 ==> refreshes == 0
      modifies chain, browser, config
      ensures Valid() && browser.Grew()
      ensures refreshes' == refreshes <==>
        !Retried(Answer(cb, old(items), browser.respond, old(|browser.log|)), Catching(C.WebDriverException),
                 Fallback(Some(t), old(Ttl())), 0)
      ensures refreshes' >= refreshes
      ensures r.Ok? ==> |r.value| == |results| + 1 && r.value[..|results|] == results
      ensures r.Ok? ==> AllProduce(cb, r.value, browser.maxMatches)
      ensures Untimed(r)
      ensures refreshes' == 0 ==>
        && items == items0 && browser.refreshed == refreshed0
        && CleanRounds(AskedBy(cb, items0, browser.respond), AnswerBy(cb, items0, browser.respond), log0, pause, ran + 1,
                       r, browser.log)
      ensures var answers := RoundsAnswers(AnswerBy(cb, items0, browser.respond), AskedBy(cb, items0, browser.respond),
                                           |log0|, |items0|);
        NoneRetryable(answers) ==> refreshes' == 0
      ensures Steady(cb, items0, browser.respond) && pause >= 0.0 ==> refreshes' == 0 && r.Ok?
      ensures items == old(items) || |items| <= Bound()
      ensures browser.now >= old(browser.now)
      decreases depth, 10
    {
      ghost var before := browser.log;
      if refreshes == 0 {
        CleanRoundNext(AskedBy(cb, items0, browser.respond), AnswerBy(cb, items0, browser.respond), log0, pause, ran,
                       Ok(results), browser.log, |items0|);
      }
      var v;
      ghost var trace, outs, ups, at, marks;
      v, trace, outs, ups, at, marks := Round(cb, t, pause);
      refreshes' := refreshes + Updates(trace);
      if refreshes' == 0 {
        CleanRoundStep(AskedBy(cb, items0, browser.respond), AnswerBy(cb, items0, browser.respond), log0, pause, ran,
                       results, before, v, browser.log);
      }
      if v.Raised? {
        r := Raised(v.exc);
      } else {
        ProducesAppend(cb, results, v.value, browser.maxMatches);
        r := Ok(results + [v.value]);
      }
    }

    /** One turn of the `for element in self` loop of `foreach`, taken
        while the iterator `it` still hands out a child and the rounds so
        far returned: a `ForeachRound` and, when it returned, the next
        child. It keeps what the loop keeps. */
    method ForeachStep(it: ElementsIterator, cb: Callback, t: real, pause: real, results: seq<Value>,
                       ghost items0: seq<Node>, ghost log0: seq<Request>, ghost slept0: seq<real>,
                       ghost refreshed0: seq<object>, ghost now0: real, ghost m: nat, ghost ran: nat,
                       ghost refreshes: nat)
      returns (r: Outcome<seq<Value>>, results': seq<Value>, next: Option<Elements>, ghost ran': nat,
               ghost refreshes': nat)
      requires Valid() && it.elements == this
      requires log0 <= browser.log && slept0 <= browser.slept && refreshed0 <= browser.refreshed
      requires 0 <= it.idx < |items| && |results| == it.idx && ran == |results|
      requires m == MaxNat(|items0|, Bound()) && items0 != []
      requires items == items0 || |items| <= Bound()
      requires refreshes == 0 ==>
        && items == items0 && browser.refreshed == refreshed0
        && CleanRounds(AskedBy(cb, items0, browser.respond), AnswerBy(cb, items0, browser.respond),
                       log0, pause, ran, Ok(results), browser.log)
      requires refreshes == 0 ==> |results| <= |items| && ran <= |items0|
      requires var answers := RoundsAnswers(AnswerBy(cb, items0, browser.respond),
                                            AskedBy(cb, items0, browser.respond), |log0|, |items0|);
        NoneRetryable(answers) ==> refreshes == 0
      requires AllProduce(cb, results, browser.maxMatches)
      requires Steady(cb, items0, browser.respond) && pause >= 0.0 ==> refreshes == 0
      requires browser.now >= now0
      modifies it, chain, browser, config
      ensures Valid() && log0 <= browser.log && slept0 <= browser.slept && refreshed0 <= browser.refreshed
      ensures 0 <= it.idx <= m && |results'| == it.idx
      ensures r.Ok? ==> r.value == results' && ran' == |results'| && (next.Some? <==> it.idx < |items|)
      ensures if r.Ok? then |results'| == |results| + 1 else results' == results
      ensures Untimed(r)
      ensures items == items0 || |items| <= Bound()
      ensures refreshes' == 0 ==>
        && items == items0 && browser.refreshed == refreshed0
        && CleanRounds(AskedBy(cb, items0, browser.respond), AnswerBy(cb, items0, browser.respond),
                       log0, pause, ran', r, browser.log)
      ensures refreshes' == 0 ==> |results'| <= |items| && ran' <= |items0|
      ensures var answers := RoundsAnswers(AnswerBy(cb, items0, browser.respond),
                                           AskedBy(cb, items0, browser.respond), |log0|, |items0|);
        NoneRetryable(answers) ==> refreshes' == 0
      ensures AllProduce(cb, results', browser.maxMatches)
      ensures Steady(cb, items0, browser.respond) && pause >= 0.0 ==> refreshes' == 0 && r.Ok?
      ensures browser.now >= now0
      decreases depth, 11
    {
      var round;
      round, refreshes' := ForeachRound(cb, t, pause, results, items0, log0, refreshed0, ran, refreshes);
      ran' := ran + 1;
      r, results', next := round, results, Some(this);
      if round.Ok? {
        results' := round.value;
        next := it.Next();
      }
    }

    /** The `for element in self` loop of `foreach`, with the ttl `ttl`:
        while the iterator hands out children, a `ForeachRound` with what is
        left of the ttl, which shrinks by the time elapsed since the start.
        `ran` counts the rounds. */
    method ForeachLoop(cb: Callback, pause: real, ttl: real)
      returns (r: Outcome<seq<Value>>, ghost refreshes: nat, ghost ran: nat)
      requires Valid()
      modifies chain, browser, config
      ensures Valid() && browser.Grew()
      ensures Untimed(r)
      ensures r.Ok? ==> |items| <= |r.value| <= MaxNat(|old(items)|, Bound())
      ensures r.Ok? ==> ran == |r.value|
      ensures r.Ok? ==> AllProduce(cb, r.value, browser.maxMatches)
      ensures items == old(items) || |items| <= Bound()
      ensures refreshes == 0 ==>
        && items == old(items) && browser.refreshed == old(browser.refreshed)
        && CleanRounds(AskedBy(cb, old(items), browser.respond), AnswerBy(cb, old(items), browser.respond),
                       old(browser.log), pause, ran, r, browser.log)
      ensures refreshes == 0 ==> ran <= |old(items)| && (r.Ok? ==> ran == |old(items)|)
      ensures var answers := RoundsAnswers(AnswerBy(cb, old(items), browser.respond),
                                           AskedBy(cb, old(items), browser.respond), |old(browser.log)|, |old(items)|);
        NoneRetryable(answers) ==> refreshes == 0
      ensures Steady(cb, old(items), browser.respond) && pause >= 0.0 ==> refreshes == 0 && r.Ok?
      ensures old(items) == [] ==> refreshes == 0 && r == Ok([]) && browser.log == old(browser.log)
      ensures browser.now >= old(browser.now)
      decreases depth, 12
    {
      var t := ttl;
      var results: seq<Value> := [];
      var start := browser.now;
      refreshes := 0;
      ghost var m := MaxNat(|items|, Bound());
      ghost var items0, log0, slept0, refreshed0, now0 := items, browser.log, browser.slept, browser.refreshed, browser.now;
      ran := 0;
      var it := new ElementsIterator(this);
      var next := it.Next();
      r := Ok([]);
      while next.Some? && r.Ok?
        invariant Valid() && it.elements == this && fresh(it) && log0 <= browser.log && slept0 <= browser.slept && refreshed0 <= browser.refreshed
        invariant 0 <= it.idx <= m && |results| == it.idx && m == MaxNat(|items0|, Bound())
        invariant r.Ok? ==> r.value == results && ran == |results| && (next.Some? <==> it.idx < |items|)
        invariant Untimed(r)
        invariant items == items0 || |items| <= Bound()
        invariant refreshes == 0 ==>
          && items == items0 && browser.refreshed == refreshed0
          && CleanRounds(AskedBy(cb, items0, browser.respond), AnswerBy(cb, items0, browser.respond),
                         log0, pause, ran, r, browser.log)
        invariant refreshes == 0 ==> |results| <= |items| && ran <= |items0|
        invariant var answers := RoundsAnswers(AnswerBy(cb, items0, browser.respond),
                                               AskedBy(cb, items0, browser.respond), |log0|, |items0|);
          NoneRetryable(answers) ==> refreshes == 0
        invariant AllProduce(cb, results, browser.maxMatches)
        invariant items0 == [] ==> refreshes == 0 && r == Ok([]) && browser.log == log0
        invariant Steady(cb, items0, browser.respond) && pause >= 0.0 ==> refreshes == 0 && r.Ok?
        invariant browser.now >= now0
        decreases m - it.idx, if r.Ok? then 1 else 0
      {
        if t != 0.0 {
          t := t - (browser.now - start);
        }
        r, results, next, ran, refreshes := ForeachStep(it, cb, t, pause, results, items0, log0, slept0,
                                                        refreshed0, now0, m, ran, refreshes);
      }
    }

    /** `foreach(fn, return_results=True, pause, ttl)`: for every item, as
        the iterator hands out children, call `with_update(fn)` on the whole
        collection with what is left of the ttl, pausing after each round.
        The ttl shrinks by the time elapsed since the start, every round. A
        refresh inside a round can change how many rounds there are; when
        no round refreshes, which is so when no round's first answer is a
        WebDriverException, the result is collected from the answers of one
        round per item, each asking about the whole collection from where
        the last ended. */
    method Foreach(cb: Callback, pause: real, ttl: Option<real>) returns (r: Outcome<seq<Value>>, ghost refreshes: nat)
      requires Valid()
      modifies chain, browser, config
      ensures Valid() && browser.Grew()
      ensures Untimed(r)
      ensures r.Ok? ==> |items| <= |r.value| <= MaxNat(|old(items)|, Bound())
      ensures r.Ok? ==> forall j :: 0 <= j < |r.value| ==> Produces(cb, r.value[j], browser.maxMatches)
      ensures items == old(items) || |items| <= Bound()
      ensures var answers := RoundsAnswers(AnswerBy(cb, old(items), browser.respond), AskedBy(cb, old(items), browser.respond),
                                           old(|browser.log|), |old(items)|);
        && (NoneRetryable(answers) ==> refreshes == 0)
        && (refreshes == 0 ==> r == Collected(answers, pause))
      ensures refreshes == 0 ==> items == old(items) && browser.refreshed == old(browser.refreshed)
      ensures refreshes == 0 && r.Ok? ==> |r.value| == |items|
      ensures refreshes == 0 && r.Ok? ==>
        RoundsAt(AskedBy(cb, old(items), browser.respond), AnswerBy(cb, old(items), browser.respond),
                 old(browser.log), r.value, browser.log)
      ensures Steady(cb, old(items), browser.respond) && pause >= 0.0 ==> refreshes == 0 && r.Ok?
      ensures old(items) == [] ==> r == Ok([]) && browser.log == old(browser.log)
      ensures browser.now >= old(browser.now)
      decreases depth, 13
    {
      ghost var ran;
      r, refreshes, ran := ForeachLoop(cb, pause, Fallback(ttl, Ttl()));
      if refreshes == 0 {
        CleanRoundsEnd(AskedBy(cb, old(items), browser.respond), AnswerBy(cb, old(items), browser.respond),
                       old(browser.log), pause, ran, r, browser.log, |old(items)|);
        if r.Ok? {
          CleanRoundsAt(AskedBy(cb, old(items), browser.respond), AnswerBy(cb, old(items), browser.respond),
                        old(browser.log), pause, ran, r.value, browser.log);
        }
      }
    }

    // -------------------------------------------------------------------
    // Waiting

    /** The condition applied to this collection, as `fn(self.elements)`
        runs it in the loop of `ConditionWaiter.until`. */
    method Holds(cond: Condition) returns (r: Outcome<bool>)
      requires Valid()
      modifies chain, browser, config
      ensures Valid()
      ensures Untimed(r)
      ensures cond.LenAbove? ==> r == Ok(|items| > cond.n)
      ensures cond.LenIs? ==> r == Ok(|items| == cond.n)
      ensures !cond.FirstDisplayed? ==> items == old(items) && browser.log == old(browser.log) && Ttl() == old(Ttl())
      ensures cond.FirstDisplayed? ==>
        var first := DisplayedReply(browser.respond, old(items), old(|browser.log|));
        !Retried(first, Catching(C.WebDriverException), old(Ttl()), 0) ==>
          && items == old(items)
          && browser.log == old(browser.log) + DisplayedAsked(old(items))
          && r == (if first.Ok? then Ok(Truthy(first.value)) else Raised(first.exc))
      ensures cond.FirstDisplayed? && r == Ok(true) ==> ReportedDisplayed(browser.respond, items)
      ensures items == old(items) || |items| <= Bound()
      ensures browser.now >= old(browser.now)
    {
      match cond
      case LenAbove(n) =>
        r := Ok(|items| > n);
      case LenIs(n) =>
        r := Ok(|items| == n);
      case FirstDisplayed =>
        // `is_displayed()`: with_update with the default ttl, no pause
        DisplayedRead(browser.respond, items, |browser.log|);
        var v, trace, outs, ups, at, marks := Round(Read(Displayed), 0.0, 0.0);
        match v
        case Ok(x) =>
          r := Ok(Truthy(x));
          if Truthy(x) {
            assert items != [] && browser.respond(at, IsDisplayed(items[0])) == Ok(x);
          }
        case Raised(e) =>
          r := Raised(e);
    }

    /** `until(fn, ttl)`: `ConditionWaiter(self).until(fn, ttl)` with the
        ttl falling back to the config's, and then to the waiter's 20. While
        less than the ttl has elapsed, test the condition; when it fails,
        sleep a quarter second and refresh. Once the time is up, raise
        TimeOutError. */
    method Until(cond: Condition, ttl: Option<real>) returns (r: Outcome<Elements>)
      requires Valid()
      modifies chain, browser, config
      ensures Valid()
      ensures r.Ok? ==> r.value == this
      ensures r.Ok? && cond.LenAbove? ==> |items| > cond.n
      ensures r.Ok? && cond.LenIs? ==> |items| == cond.n
      ensures r.Raised? && ClassOf(r.exc) == C.ElementsTimeOutError ==>
        r.exc == ElementsTimeOut && browser.now >= old(browser.now) + WaitTtl(ttl, old(Ttl()))
      ensures WaitTtl(ttl, old(Ttl())) <= 0.0 ==>
        r == Raised(ElementsTimeOut) && browser.log == old(browser.log) && items == old(items) && Ttl() == old(Ttl())
      ensures ((cond.LenAbove? && |old(items)| > cond.n) || (cond.LenIs? && |old(items)| == cond.n))
              && WaitTtl(ttl, old(Ttl())) > 0.0 ==>
        r == Ok(this) && browser.log == old(browser.log) && items == old(items)
      ensures cond.FirstDisplayed? && WaitTtl(ttl, old(Ttl())) > 0.0 ==>
        var first := DisplayedReply(browser.respond, old(items), old(|browser.log|));
        !Retried(first, Catching(C.WebDriverException), old(Ttl()), 0) && (first.Raised? || Truthy(first.value)) ==>
          && r == (if first.Raised? then Raised(first.exc) else Ok(this))
          && items == old(items)
          && browser.log == old(browser.log) + DisplayedAsked(old(items))
      ensures r.Ok? && cond.FirstDisplayed? ==> ReportedDisplayed(browser.respond, items)
      ensures browser.now >= old(browser.now)
    {
      var t := Fallback(Some(Fallback(ttl, Ttl())), DefaultTtl);
      var start := browser.now;
      ghost var first := DisplayedReply(browser.respond, items, |browser.log|);
      ghost var ttl0 := Ttl();
      ghost var k: nat := 0;
      while browser.now - start < t
        invariant Valid() && start == old(browser.now) && browser.now >= start
        invariant browser.now - start >= DefaultSleepTime * k as real
        invariant k == 0 ==> browser.log == old(browser.log) && items == old(items) && browser.now == start && Ttl() == old(Ttl())
        invariant k > 0 ==> !((cond.LenAbove? && |old(items)| > cond.n) || (cond.LenIs? && |old(items)| == cond.n))
        invariant k > 0 && cond.FirstDisplayed? ==>
          Retried(first, Catching(C.WebDriverException), ttl0, 0) || (first.Ok? && !Truthy(first.value))
        invariant t <= 0.0 ==> k == 0
        decreases MaxRounds(t) - k
      {
        PollBound(t, k, browser.now - start);
        var h := Holds(cond);
        if h.Raised? {
          return Raised(h.exc);
        }
        if h.value {
          return Ok(this);
        }
        var _ := browser.Sleep(DefaultSleepTime);
        var e := Update(true);
        if e.Some? {
          return Raised(e.value);
        }
        k := k + 1;
      }
      r := Raised(ElementsTimeOut);
    }

    /** `insist(fn, ttl)`: wait as `until` does, but swallow its
        TimeOutError; then `assert fn(retval)`, where `retval` is this
        collection, or None after a time-out. Applying a condition to None
        raises: `len(None)` a TypeError, `None.is_displayed` an
        AttributeError. */
    method Insist(cond: Condition, ttl: Option<real>) returns (r: Outcome<Elements>, ghost timedOut: bool)
      requires Valid()
      modifies chain, browser, config
      ensures Valid()
      ensures Untimed(r)
      ensures r.Ok? ==> r.value == this
      ensures r.Ok? && cond.LenAbove? ==> |items| > cond.n
      ensures r.Ok? && cond.LenIs? ==> |items| == cond.n
      ensures timedOut ==>
        && r == Raised(if cond.FirstDisplayed? then AttributeError else TypeError)
        && browser.now >= old(browser.now) + WaitTtl(Some(Fallback(ttl, old(Ttl()))), old(Ttl()))
      ensures r == Raised(AssertionError) ==> !timedOut
      ensures WaitTtl(Some(Fallback(ttl, old(Ttl()))), old(Ttl())) <= 0.0 ==>
        timedOut && browser.log == old(browser.log) && Ttl() == old(Ttl())
      ensures cond.FirstDisplayed? && AlwaysShown(browser.respond, old(items))
              && WaitTtl(Some(Fallback(ttl, old(Ttl()))), old(Ttl())) > 0.0 ==>
        r == Ok(this) && !timedOut && items == old(items)
      ensures ((cond.LenAbove? && |old(items)| > cond.n) || (cond.LenIs? && |old(items)| == cond.n))
              && WaitTtl(Some(Fallback(ttl, old(Ttl()))), old(Ttl())) > 0.0 ==>
        r == Ok(this) && !timedOut && browser.log == old(browser.log) && items == old(items)
      ensures cond.FirstDisplayed? && WaitTtl(Some(Fallback(ttl, old(Ttl()))), old(Ttl())) > 0.0 ==>
        var first := DisplayedReply(browser.respond, old(items), old(|browser.log|));
        !Retried(first, Catching(C.WebDriverException), old(Ttl()), 0) ==>
          && (first.Raised? ==> r == Raised(first.exc) && !timedOut)
          && (first.Ok? && Truthy(first.value) ==> !timedOut)
      ensures r.Ok? && cond.FirstDisplayed? ==> ReportedDisplayed(browser.respond, items)
      ensures browser.now >= old(browser.now)
    {
      var t := Fallback(ttl, Ttl());
      var u := Until(cond, Some(t));
      C.TimeOutsAreLeaves(if u.Raised? then ClassOf(u.exc) else C.TypeError);
      var caught := u.Raised? && IsInstance(u.exc, C.ElementsTimeOutError);
      timedOut := caught;
      if caught {
        r := Raised(if cond.FirstDisplayed? then AttributeError else TypeError);
        return;
      }
      if u.Raised? {
        return Raised(u.exc), false;
      }
      r := AssertHolds(cond);
      timedOut := false;
    }

    /** `assert fn(retval)` with `retval` this collection: the condition's
        error, an AssertionError when it is false, or this collection. */
    method AssertHolds(cond: Condition) returns (r: Outcome<Elements>)
      requires Valid()
      modifies chain, browser, config
      ensures Valid()
      ensures Untimed(r)
      ensures r.Ok? ==> r.value == this
      ensures !cond.FirstDisplayed? ==>
        && items == old(items) && browser.log == old(browser.log) && Ttl() == old(Ttl())
        && r == (if (cond.LenAbove? && |items| > cond.n) || (cond.LenIs? && |items| == cond.n) then Ok(this)
                 else Raised(AssertionError))
      ensures cond.FirstDisplayed? ==>
        var first := DisplayedReply(browser.respond, old(items), old(|browser.log|));
        !Retried(first, Catching(C.WebDriverException), old(Ttl()), 0) ==>
          && items == old(items) && browser.log == old(browser.log) + DisplayedAsked(old(items))
          && r == (if first.Raised? then Raised(first.exc) else if Truthy(first.value) then Ok(this)
                   else Raised(AssertionError))
      ensures r.Ok? && cond.FirstDisplayed? ==> ReportedDisplayed(browser.respond, items)
      ensures browser.now >= old(browser.now)
    {
      var h := Holds(cond);
      if h.Raised? {
        return Raised(h.exc);
      }
      if !h.value {
        return Raised(AssertionError);
      }
      r := Ok(this);
    }
  }

  /** `ElementsIterator`: `next` hands out the child for the next index,
      built by `get`, until the index reaches the length. */
  class ElementsIterator {
    const elements: Elements
    var idx: int

    constructor (elements: Elements)
      ensures this.elements == elements && idx == -1
    {
      this.elements := elements;
      idx := -1;
    }

    method Next() returns (r: Option<Elements>)
      requires elements.Valid() && idx >= -1
      modifies this, elements.config
      ensures elements.Valid()
      ensures idx == old(idx) + 1
      ensures r.Some? <==> idx < |elements.items|
      ensures r.Some? ==> && fresh(r.value) && r.value.Valid()
                          && r.value.context == elements && r.value.resolver == Index(idx)
                          && r.value.items == [elements.items[idx]]
    {
      idx := idx + 1;
      if idx < |elements.items| {
        var child := elements.Get(idx);
        r := Some(child.value);
      } else {
        r := None;
      }
    }
  }

  /** The reply `is_displayed()` gets for the first of `items` when asked
      as the request `t`: an empty collection reads False without asking. */
  function DisplayedReply(respond: (nat, Request) -> Outcome<Value>, items: seq<Node>, t: nat): Outcome<Value> {
    if items == [] then Ok(BoolValue(false)) else respond(t, IsDisplayed(items[0]))
  }

  /** A driver that reports the first of `items` displayed whenever it is
      asked. */
  ghost predicate AlwaysShown(respond: (nat, Request) -> Outcome<Value>, items: seq<Node>) {
    items != [] && forall t: nat :: respond(t, IsDisplayed(items[0])).Ok? && Truthy(respond(t, IsDisplayed(items[0])).value)
  }

  /** What `is_displayed()` asks of `items`: one question about the first. */
  function DisplayedAsked(items: seq<Node>): seq<Request> {
    if items == [] then [] else [IsDisplayed(items[0])]
  }

  /** `is_displayed()` read through the callback machinery is exactly that
      one question and its reply. */
  lemma DisplayedRead(respond: (nat, Request) -> Outcome<Value>, items: seq<Node>, t: nat)
    ensures Answer(Read(Displayed), items, respond, t) == DisplayedReply(respond, items, t)
    ensures Asked(Read(Displayed), items, respond, t) == DisplayedAsked(items)
  {
  }

  /** The ttl `until` waits for: its own, else the config's, else the
      waiter's default. */
  function WaitTtl(ttl: Option<real>, configTtl: real): real {
    Fallback(Some(Fallback(ttl, configTtl)), DefaultTtl)
  }

  /** Every round of the waiting loop sleeps a quarter second, so while
      less than the ttl has elapsed fewer than `MaxRounds(t)` rounds ran. */
  lemma PollBound(t: real, k: nat, elapsed: real)
    requires elapsed < t && elapsed >= DefaultSleepTime * k as real
    ensures k < MaxRounds(t)
  {
    assert (k as real) < 4.0 * t;
    assert t < t.Floor as real + 1.0;
  }

  /** `SeElements(browser, config=config)`: a root collection holding the
      browser window. A falsy config is replaced by a fresh dict; a truthy
      one is shared. */
  method NewRoot(browser: WebDriver, config: Config?) returns (e: Elements)
    requires browser.Valid()
    modifies browser, config
    ensures fresh(e) && e.Valid() && e.browser == browser
    ensures e.context == null && e.resolver == Root && e.items == [Window]
    ensures config != null && old(config.Truthy()) ==> e.config == config
    ensures config == null || !old(config.Truthy()) ==> fresh(e.config) && e.Ttl() == DefaultTtl
    ensures config != null && old(config.Truthy()) ==> e.Ttl() == Fallback(old(config.ttl), DefaultTtl)
    ensures browser.refreshed == old(browser.refreshed) + [e] && browser.log == old(browser.log)
  {
    var c: Config;
    if config != null && config.Truthy() {
      c := config;
    } else {
      c := new Config(None, 0);
    }
    c.Normalise();
    e := new Elements(browser, null, Root, c, []);
    var u := e.Update(false);
  }

  /** `SeElements(context.browser, context, fn, context.config)`: a
      collection derived from `context`, refreshed once without
      propagating. A resolver that raises makes the construction raise. */
  method NewChild(context: Elements, resolver: Resolver) returns (r: Outcome<Elements>)
    requires context.Valid()
    modifies context.chain, context.browser, context.config
    ensures context.Valid()
    ensures Untimed(r)
    ensures r.Ok? ==> && fresh(r.value) && r.value.Valid()
                      && r.value.context == context && r.value.resolver == resolver
                      && r.value.browser == context.browser && r.value.config == context.config
    ensures r.Ok? && resolver.Query? ==>
      |r.value.items| <= MaxNat(old(|context.items|), context.Bound()) * context.browser.maxMatches
    ensures resolver.Query? && Steady(QueryCallback(resolver), old(context.items), context.browser.respond) ==>
      r.Ok? && r.value.items == SteadyQueryResult(resolver, old(context.items), context.browser.respond)
    ensures !resolver.Query? ==>
      && unchanged(context.chain)
      && context.config.ttl == Some(Fallback(old(context.config.ttl), DefaultTtl))
      && (r.Ok? <==> Direct(resolver, Some(context.items)).Ok?)
      && (r.Ok? ==> Direct(resolver, Some(context.items)) == Ok(r.value.items))
      && (r.Raised? ==> Direct(resolver, Some(context.items)) == Raised(r.exc))
  {
    context.config.Normalise();
    var child := new Elements(context.browser, context, resolver, context.config, []);
    var u := child.Update(false);
    if u.Some? {
      return Raised(u.value);
    }
    r := Ok(child);
  }

  // ---------------------------------------------------------------------
  // The calls of `with_update`, as the browser recorded them

  /** Where the browser stood just before one call of `fn` inside
      `with_update`: the items the call was given, and how many requests,
      sleeps and refreshes had been recorded. */
  datatype Mark = Mark(items: seq<Node>, sent: nat, naps: nat, refreshes: nat)

  /** What a callback answers, and asks, given some items from some request on. */
  function AnswerOn(cb: Callback, respond: (nat, Request) -> Outcome<Value>): (seq<Node>, nat) -> Outcome<Value> {
    (xs: seq<Node>, t: nat) => Answer(cb, xs, respond, t)
  }

  function AskedOn(cb: Callback, respond: (nat, Request) -> Outcome<Value>): (seq<Node>, nat) -> seq<Request> {
    (xs: seq<Node>, t: nat) => Asked(cb, xs, respond, t)
  }

  /** `answer` and `ask` are what the callback answers and asks, as
      `AnswerOn` and `AskedOn` are; the model's proofs about one run use
      them at the calls the run made. */
  ghost predicate Describes(answer: (seq<Node>, nat) -> Outcome<Value>, ask: (seq<Node>, nat) -> seq<Request>,
                            cb: Callback, respond: (nat, Request) -> Outcome<Value>)
  {
    && (forall xs: seq<Node>, t: nat {:trigger Answer(cb, xs, respond, t)} :: answer(xs, t) == Answer(cb, xs, respond, t))
    && (forall xs: seq<Node>, t: nat {:trigger Asked(cb, xs, respond, t)} :: ask(xs, t) == Asked(cb, xs, respond, t))
  }

  lemma DescribedOn(cb: Callback, respond: (nat, Request) -> Outcome<Value>)
    ensures Describes(AnswerOn(cb, respond), AskedOn(cb, respond), cb, respond)
  {
  }

  /** The call that started at `m` answered `out`, which is what `fn`
      answers on the items it was given from that request on, and its
      requests, `ask` of the same, are in the log from there. */
  ghost predicate CallAt(answer: (seq<Node>, nat) -> Outcome<Value>, ask: (seq<Node>, nat) -> seq<Request>, m: Mark,
                         out: Outcome<Value>, log: seq<Request>, slept: seq<real>, refreshed: seq<object>)
  {
    && out == answer(m.items, m.sent)
    && m.sent + |ask(m.items, m.sent)| <= |log| && log[m.sent..m.sent + |ask(m.items, m.sent)|] == ask(m.items, m.sent)
    && m.naps <= |slept| && m.refreshes <= |refreshed|
  }

  /** Between the j-th call, which started at `m`, and the next, which
      started at `m'`: the j-th call's requests went out, `self` refreshed
      itself (the last refresh recorded before `m'`) and the schedule's j-th
      sleep was taken (the last sleep recorded before `m'`). */
  ghost predicate Between(ask: (seq<Node>, nat) -> seq<Request>, m: Mark, m': Mark, j: nat,
                          slept: seq<real>, refreshed: seq<object>, self: object)
  {
    && m.sent + |ask(m.items, m.sent)| <= m'.sent
    && m.naps < m'.naps <= |slept| && slept[m'.naps - 1] == SleepAt(j)
    && m.refreshes < m'.refreshes <= |refreshed| && refreshed[m'.refreshes - 1] == self
  }

  /** The calls of a `with_update` run of `self`, the j-th started at
      `marks[j]` and answered `outs[j]`, each after the one before it
      (`CallsAtEach` states this for every j). */
  ghost predicate CallsAt(answer: (seq<Node>, nat) -> Outcome<Value>, ask: (seq<Node>, nat) -> seq<Request>,
                          marks: seq<Mark>, outs: seq<Outcome<Value>>, log: seq<Request>, slept: seq<real>,
                          refreshed: seq<object>, self: object)
    decreases |marks|
  {
    && |marks| == |outs|
    && (marks != [] ==>
          var n := |marks| - 1;
          && CallsAt(answer, ask, marks[..n], outs[..n], log, slept, refreshed, self)
          && CallAt(answer, ask, marks[n], outs[n], log, slept, refreshed)
          && (n > 0 ==> Between(ask, marks[n - 1], marks[n], n - 1, slept, refreshed, self)))
  }

  /** What the calls are, one by one. */
  lemma {:induction false} CallsAtEach(answer: (seq<Node>, nat) -> Outcome<Value>, ask: (seq<Node>, nat) -> seq<Request>,
                                       marks: seq<Mark>, outs: seq<Outcome<Value>>, log: seq<Request>,
                                       slept: seq<real>, refreshed: seq<object>, self: object)
    requires CallsAt(answer, ask, marks, outs, log, slept, refreshed, self)
    ensures |marks| == |outs|
    ensures forall j :: 0 <= j < |marks| ==> CallAt(answer, ask, marks[j], outs[j], log, slept, refreshed)
    ensures forall j :: 0 <= j < |marks| - 1 ==> Between(ask, marks[j], marks[j + 1], j, slept, refreshed, self)
    decreases |marks|
  {
    if marks != [] {
      var n := |marks| - 1;
      CallsAtEach(answer, ask, marks[..n], outs[..n], log, slept, refreshed, self);
      assert forall j :: 0 <= j < n ==> marks[..n][j] == marks[j] && outs[..n][j] == outs[j];
    }
  }

  /** The calls so far, before the next one, which gets `items`: when
      there were calls, the last was retried and followed by its refresh and
      sleep. */
  ghost predicate Pending(answer: (seq<Node>, nat) -> Outcome<Value>, ask: (seq<Node>, nat) -> seq<Request>,
                          marks: seq<Mark>, outs: seq<Outcome<Value>>, items: seq<Node>, log: seq<Request>,
                          slept: seq<real>, refreshed: seq<object>, self: object)
  {
    && CallsAt(answer, ask, marks, outs, log, slept, refreshed, self)
    && (marks != [] ==>
          Between(ask, marks[|marks| - 1], Mark(items, |log|, |slept|, |refreshed|), |marks| - 1, slept, refreshed, self))
  }

  /** The calls of a run that has ended, on the items the last call got. */
  ghost predicate Settled(answer: (seq<Node>, nat) -> Outcome<Value>, ask: (seq<Node>, nat) -> seq<Request>,
                          marks: seq<Mark>, outs: seq<Outcome<Value>>, items: seq<Node>, log: seq<Request>,
                          slept: seq<real>, refreshed: seq<object>, self: object)
  {
    && CallsAt(answer, ask, marks, outs, log, slept, refreshed, self)
    && marks != [] && items == marks[|marks| - 1].items
  }

  /** One pass of the `with_update` loop as the records show it: the call
      that started at the records `log0`, `slept0` and `refreshed0` with
      `items0` answered `r` and joined the marks; the records only grew.
      When the call was retried (`retry`) and its refresh returned, the
      next call, which gets `items`, is pending; otherwise the run is
      settled. */
  ghost predicate PassRecorded(answer: (seq<Node>, nat) -> Outcome<Value>, ask: (seq<Node>, nat) -> seq<Request>,
                               marks: seq<Mark>, outs: seq<Outcome<Value>>, items0: seq<Node>, log0: seq<Request>,
                               slept0: seq<real>, refreshed0: seq<object>, r: Outcome<Value>, again: bool,
                               marks': seq<Mark>, items: seq<Node>, log: seq<Request>, slept: seq<real>,
                               refreshed: seq<object>, self: object)
  {
    && marks' == marks + [Mark(items0, |log0|, |slept0|, |refreshed0|)]
    && log0 <= log && slept0 <= slept && refreshed0 <= refreshed
    && (again ==> Pending(answer, ask, marks', outs + [r], items, log, slept, refreshed, self))
    && (!again ==> Settled(answer, ask, marks', outs + [r], items, log, slept, refreshed, self))
  }

  /** The pass made one call of the callback, whose requests went out
      first; a pass that goes `again` then refreshed `self` and slept the
      schedule's next pause, and any other kept the items. */
  lemma PassStep(answer: (seq<Node>, nat) -> Outcome<Value>, ask: (seq<Node>, nat) -> seq<Request>,
                 marks: seq<Mark>, outs: seq<Outcome<Value>>, items0: seq<Node>, log0: seq<Request>,
                 slept0: seq<real>, refreshed0: seq<object>, r: Outcome<Value>, again: bool,
                 log1: seq<Request>, items: seq<Node>, log: seq<Request>, slept: seq<real>,
                 refreshed: seq<object>, self: object)
    returns (marks': seq<Mark>)
    requires Pending(answer, ask, marks, outs, items0, log0, slept0, refreshed0, self)
    requires r == answer(items0, |log0|) && log1 == log0 + ask(items0, |log0|)
    requires log1 <= log && slept0 <= slept && refreshed0 <= refreshed
    requires again ==>
      && |slept0| < |slept| && slept[|slept| - 1] == SleepAt(|marks|)
      && |refreshed0| < |refreshed| && refreshed[|refreshed| - 1] == self
    requires !again ==> items == items0
    ensures PassRecorded(answer, ask, marks, outs, items0, log0, slept0, refreshed0,
                         r, again, marks', items, log, slept, refreshed, self)
  {
    PrefixGrows(log0, log1, log);
    marks' := CallsStep(answer, ask, marks, outs, log0, slept0, refreshed0, self,
                        items0, r, log, slept, refreshed, items, again);
  }

  /** A value the callback can produce, appended to values it can produce. */
  lemma ProducesAppend(cb: Callback, vs: seq<Value>, v: Value, bound: nat)
    requires AllProduce(cb, vs, bound) && Produces(cb, v, bound)
    ensures AllProduce(cb, vs + [v], bound)
  {
  }

  /** A run that has ended stays ended as the records grow. */
  lemma SettledGrow(answer: (seq<Node>, nat) -> Outcome<Value>, ask: (seq<Node>, nat) -> seq<Request>,
                    marks: seq<Mark>, outs: seq<Outcome<Value>>, items: seq<Node>,
                    log: seq<Request>, slept: seq<real>, refreshed: seq<object>, self: object,
                    log': seq<Request>, slept': seq<real>, refreshed': seq<object>)
    requires Settled(answer, ask, marks, outs, items, log, slept, refreshed, self)
    requires log <= log' && slept <= slept' && refreshed <= refreshed'
    ensures Settled(answer, ask, marks, outs, items, log', slept', refreshed', self)
  {
    CallsGrow(answer, ask, marks, outs, log, slept, refreshed, self, log', slept', refreshed');
  }

  /** The records only grow, so the calls stay where they were recorded. */
  lemma {:induction false} CallsGrow(answer: (seq<Node>, nat) -> Outcome<Value>, ask: (seq<Node>, nat) -> seq<Request>,
                                     marks: seq<Mark>, outs: seq<Outcome<Value>>,
                                     log: seq<Request>, slept: seq<real>, refreshed: seq<object>, self: object,
                                     log': seq<Request>, slept': seq<real>, refreshed': seq<object>)
    requires CallsAt(answer, ask, marks, outs, log, slept, refreshed, self)
    requires log <= log' && slept <= slept' && refreshed <= refreshed'
    ensures CallsAt(answer, ask, marks, outs, log', slept', refreshed', self)
    decreases |marks|
  {
    if marks != [] {
      var n := |marks| - 1;
      CallsGrow(answer, ask, marks[..n], outs[..n], log, slept, refreshed, self, log', slept', refreshed');
      var m := marks[n];
      assert log'[m.sent..m.sent + |ask(m.items, m.sent)|] == log[m.sent..m.sent + |ask(m.items, m.sent)|];
    }
  }

  /** One more call, given `items` when the records were `log`, `slept` and
      `refreshed`, that answered `out` and left them `log'`, `slept'` and
      `refreshed'`. When it is retried (`again`), it is followed by the
      refresh of `self` and the schedule's sleep, in that order, before the
      next call, which gets `items'`. */
  lemma CallsStep(answer: (seq<Node>, nat) -> Outcome<Value>, ask: (seq<Node>, nat) -> seq<Request>,
                  marks: seq<Mark>, outs: seq<Outcome<Value>>,
                  log: seq<Request>, slept: seq<real>, refreshed: seq<object>, self: object,
                  items: seq<Node>, out: Outcome<Value>, log': seq<Request>, slept': seq<real>,
                  refreshed': seq<object>, items': seq<Node>, again: bool)
    returns (marks': seq<Mark>)
    requires CallsAt(answer, ask, marks, outs, log, slept, refreshed, self)
    requires marks != [] ==>
      Between(ask, marks[|marks| - 1], Mark(items, |log|, |slept|, |refreshed|), |marks| - 1, slept, refreshed, self)
    requires out == answer(items, |log|)
    requires log + ask(items, |log|) <= log' && slept <= slept' && refreshed <= refreshed'
    requires again ==>
      && |slept| < |slept'| && slept'[|slept'| - 1] == SleepAt(|marks|)
      && |refreshed| < |refreshed'| && refreshed'[|refreshed'| - 1] == self
    ensures marks' == marks + [Mark(items, |log|, |slept|, |refreshed|)]
    ensures CallsAt(answer, ask, marks', outs + [out], log', slept', refreshed', self)
    ensures again ==>
      Between(ask, marks'[|marks|], Mark(items', |log'|, |slept'|, |refreshed'|), |marks|, slept', refreshed', self)
  {
    var m := Mark(items, |log|, |slept|, |refreshed|);
    marks' := marks + [m];
    CallsGrow(answer, ask, marks, outs, log, slept, refreshed, self, log', slept', refreshed');
    var asked := ask(items, |log|);
    assert log'[|log|..|log| + |asked|] == asked by {
      assert (log + asked)[|log|..|log| + |asked|] == asked;
    }
    assert CallAt(answer, ask, m, out, log', slept', refreshed');
    if marks != [] {
      BetweenGrows(ask, marks[|marks| - 1], m, |marks| - 1, slept, refreshed, self, slept', refreshed');
    }
    assert marks'[..|marks|] == marks && (outs + [out])[..|marks|] == outs && marks'[|marks|] == m;
  }

  /** A call's place between its neighbours stays as the records grow. */
  lemma BetweenGrows(ask: (seq<Node>, nat) -> seq<Request>, m: Mark, m': Mark, j: nat,
                     slept: seq<real>, refreshed: seq<object>, self: object,
                     slept': seq<real>, refreshed': seq<object>)
    requires Between(ask, m, m', j, slept, refreshed, self)
    requires slept <= slept' && refreshed <= refreshed'
    ensures Between(ask, m, m', j, slept', refreshed', self)
  {
    assert slept'[m'.naps - 1] == slept[m'.naps - 1];
    assert refreshed'[m'.refreshes - 1] == refreshed[m'.refreshes - 1];
  }

  // ---------------------------------------------------------------------
  // The rounds of `foreach` that do not refresh

  /** What `foreach` collects from the answers of its rounds, pausing
      `pause` after each: their values in order, up to the first answer
      that raised; a negative pause is refused after the first round that
      returned. */
  function Collected(answers: seq<Outcome<Value>>, pause: real): (r: Outcome<seq<Value>>)
    ensures r.Ok? ==> |r.value| == |answers| && forall j :: 0 <= j < |answers| ==> answers[j] == Ok(r.value[j])
    ensures r.Ok? && answers != [] ==> pause >= 0.0
  {
    if answers == [] then Ok([])
    else
      var n := |answers| - 1;
      match Collected(answers[..n], pause)
      case Raised(e) => Raised(e)
      case Ok(vs) =>
        if answers[n].Raised? then Raised(answers[n].exc)
        else if pause < 0.0 then Raised(SleepRefused)
        else Ok(vs + [answers[n].value])
  }

  /** Rounds that all returned, with a pause `time.sleep` takes, collect
      every value. */
  lemma {:induction false} CollectedAllOk(answers: seq<Outcome<Value>>, pause: real)
    requires forall j :: 0 <= j < |answers| ==> answers[j].Ok?
    requires pause >= 0.0 || answers == []
    ensures Collected(answers, pause).Ok?
    decreases |answers|
  {
    if answers != [] {
      var n := |answers| - 1;
      assert forall j :: 0 <= j < n ==> answers[..n][j] == answers[j];
      CollectedAllOk(answers[..n], pause);
    }
  }

  /** The rounds stop at the first answer that raised: its error is what
      `foreach` raises. */
  lemma {:induction false} CollectedFirstError(answers: seq<Outcome<Value>>, pause: real, j: nat)
    requires j < |answers| && answers[j].Raised? && (pause >= 0.0 || j == 0)
    requires forall i :: 0 <= i < j ==> answers[i].Ok?
    ensures Collected(answers, pause) == Raised(answers[j].exc)
    decreases |answers|
  {
    var n := |answers| - 1;
    if j < n {
      assert answers[..n][j] == answers[j];
      assert forall i :: 0 <= i < j ==> answers[..n][i] == answers[i];
      CollectedFirstError(answers[..n], pause, j);
    } else {
      assert forall i :: 0 <= i < n ==> answers[..n][i] == answers[i];
      CollectedAllOk(answers[..n], pause);
    }
  }

  /** A negative pause is refused as soon as the first round returned. */
  lemma {:induction false} CollectedRefused(answers: seq<Outcome<Value>>, pause: real)
    requires answers != [] && answers[0].Ok? && pause < 0.0
    ensures Collected(answers, pause) == Raised(SleepRefused)
    decreases |answers|
  {
    var n := |answers| - 1;
    if n > 0 {
      assert answers[..n][0] == answers[0];
      CollectedRefused(answers[..n], pause);
    }
  }

  /** Once the rounds so far raised, the rounds after them change nothing. */
  lemma {:induction false} CollectedStops(answers: seq<Outcome<Value>>, pause: real, k: nat)
    requires k <= |answers| && Collected(answers[..k], pause).Raised?
    ensures Collected(answers, pause) == Collected(answers[..k], pause)
    decreases |answers|
  {
    if k < |answers| {
      var n := |answers| - 1;
      assert answers[..n][..k] == answers[..k];
      CollectedStops(answers[..n], pause, k);
    } else {
      assert answers[..k] == answers;
    }
  }

  /** The first k of n rounds answer what k rounds alone do. */
  lemma {:induction false} RoundsAnswersPrefix(answers: nat -> Outcome<Value>, asks: nat -> seq<Request>, t: nat,
                                                k: nat, n: nat)
    requires k <= n
    ensures RoundsAnswers(answers, asks, t, n)[..k] == RoundsAnswers(answers, asks, t, k)
    decreases n
  {
    if k < n {
      RoundsAnswersPrefix(answers, asks, t, k, n - 1);
      assert RoundsAnswers(answers, asks, t, n)[..n - 1] == RoundsAnswers(answers, asks, t, n - 1);
      assert RoundsAnswers(answers, asks, t, n)[..k] == RoundsAnswers(answers, asks, t, n - 1)[..k];
    }
  }

  /** `foreach` after `ran` rounds none of which refreshed, the first
      started with the log `log0`: the rounds' requests in order, a round
      that starts at the s-th request sending `asks(s)`, and the result
      collected from their answers. */
  ghost predicate CleanRounds(asks: nat -> seq<Request>, answers: nat -> Outcome<Value>, log0: seq<Request>,
                              pause: real, ran: nat, r: Outcome<seq<Value>>, log: seq<Request>)
  {
    && log == log0 + RoundsAsked(asks, |log0|, ran)
    && r == Collected(RoundsAnswers(answers, asks, |log0|, ran), pause)
  }

  /** No answer is a WebDriverException, so no round refreshes. */
  ghost predicate NoneRetryable(answers: seq<Outcome<Value>>) {
    forall j :: 0 <= j < |answers| ==> !(answers[j].Raised? && Retryable(answers[j].exc, C.WebDriverException))
  }

  /** The next round, the `ran`-th of n, answers the n rounds' `ran`-th answer. */
  lemma CleanRoundNext(asks: nat -> seq<Request>, answers: nat -> Outcome<Value>, log0: seq<Request>,
                       pause: real, ran: nat, r: Outcome<seq<Value>>, log: seq<Request>, n: nat)
    requires CleanRounds(asks, answers, log0, pause, ran, r, log) && ran < n
    ensures RoundsAnswers(answers, asks, |log0|, n)[ran] == answers(|log|)
  {
    RoundsAnswersPrefix(answers, asks, |log0|, ran + 1, n);
    assert RoundsAnswers(answers, asks, |log0|, n)[ran] == RoundsAnswers(answers, asks, |log0|, n)[..ran + 1][ran];
  }

  /** One more round that did not refresh: it sent its requests and ended
      on `v`, its first answer, refused when the pause is negative. */
  lemma CleanRoundStep(asks: nat -> seq<Request>, answers: nat -> Outcome<Value>, log0: seq<Request>,
                       pause: real, ran: nat, vs: seq<Value>, log: seq<Request>, v: Outcome<Value>, log': seq<Request>)
    requires CleanRounds(asks, answers, log0, pause, ran, Ok(vs), log)
    requires log' == log + asks(|log|)
    requires v == (if answers(|log|).Ok? && pause < 0.0 then Raised(SleepRefused) else answers(|log|))
    ensures CleanRounds(asks, answers, log0, pause, ran + 1, if v.Ok? then Ok(vs + [v.value]) else Raised(v.exc), log')
  {
    var before := RoundsAsked(asks, |log0|, ran);
    assert |log| == |log0| + |before|;
    var all := RoundsAnswers(answers, asks, |log0|, ran + 1);
    assert all[..ran] == RoundsAnswers(answers, asks, |log0|, ran);
  }

  /** A prefix of a prefix is a prefix. */
  lemma PrefixGrows<T>(a: seq<T>, b: seq<T>, c: seq<T>)
    requires a <= b && b <= c
    ensures a <= c
  {
    assert c[..|a|] == b[..|a|];
  }

  /** Once the rounds stop, on an error or after the n-th, they collected
      what n rounds do. */
  lemma CleanRoundsEnd(asks: nat -> seq<Request>, answers: nat -> Outcome<Value>, log0: seq<Request>,
                       pause: real, ran: nat, r: Outcome<seq<Value>>, log: seq<Request>, n: nat)
    requires CleanRounds(asks, answers, log0, pause, ran, r, log) && ran <= n && (r.Ok? ==> ran == n)
    ensures r == Collected(RoundsAnswers(answers, asks, |log0|, n), pause)
  {
    if r.Raised? {
      RoundsAnswersPrefix(answers, asks, |log0|, ran, n);
      CollectedStops(RoundsAnswers(answers, asks, |log0|, n), pause, ran);
    }
  }

  /** Rounds that collected values are the rounds `RoundsAt` describes. */
  lemma CleanRoundsAt(asks: nat -> seq<Request>, answers: nat -> Outcome<Value>, log0: seq<Request>,
                      pause: real, ran: nat, vs: seq<Value>, log: seq<Request>)
    requires CleanRounds(asks, answers, log0, pause, ran, Ok(vs), log)
    ensures ran == |vs|
    ensures RoundsAt(asks, answers, log0, vs, log)
  {
  }

  /** `foreach` after |results| rounds that made no refresh: the requests
      and values of that many rounds, a round that starts at the s-th
      request sending `asks(s)` and answering `answers(s)`. */
  ghost predicate RoundsAt(asks: nat -> seq<Request>, answers: nat -> Outcome<Value>,
                           log0: seq<Request>, results: seq<Value>, log: seq<Request>) {
    && log == log0 + RoundsAsked(asks, |log0|, |results|)
    && forall j :: 0 <= j < |results| ==> RoundsAnswers(answers, asks, |log0|, |results|)[j] == Ok(results[j])
  }

  /** One more such round, which answered `v`. */
  lemma RoundsAtStep(asks: nat -> seq<Request>, answers: nat -> Outcome<Value>,
                     log0: seq<Request>, results: seq<Value>, log: seq<Request>, v: Value, log': seq<Request>)
    requires RoundsAt(asks, answers, log0, results, log)
    requires log' == log + asks(|log|) && answers(|log|) == Ok(v)
    ensures RoundsAt(asks, answers, log0, results + [v], log')
  {
    var n := |results|;
    var before := RoundsAsked(asks, |log0|, n);
    assert |log| == |log0| + |before|;
    assert RoundsAsked(asks, |log0|, n + 1) == before + asks(|log|);
    var answers0 := RoundsAnswers(answers, asks, |log0|, n);
    var answers1 := RoundsAnswers(answers, asks, |log0|, n + 1);
    assert answers1 == answers0 + [Ok(v)];
    forall j | 0 <= j < n + 1
      ensures answers1[j] == Ok((results + [v])[j])
    {
      if j < n {
        assert answers1[j] == answers0[j];
      }
    }
  }

  /** The values of refresh-free query rounds under a steady driver are
      all the first round's matches. */
  lemma SteadyQueryValues(res: Resolver, items0: seq<Node>, respond: (nat, Request) -> Outcome<Value>,
                          log0: seq<Request>, values: seq<Value>, log: seq<Request>, bound: nat)
    requires res.Query? && Steady(QueryCallback(res), items0, respond)
    requires RoundsAt(AskedBy(QueryCallback(res), items0, respond), AnswerBy(QueryCallback(res), items0, respond),
                      log0, values, log)
    requires forall j :: 0 <= j < |values| ==> values[j].NodesValue? && |values[j].nodes| <= bound
    ensures Flatten(NodesOf(values)) == Flatten(Repeat(Matched(res.kind, res.selector, res.onlyDisplayed, items0, respond), |values|))
  {
    var cb := QueryCallback(res);
    SteadyRounds(cb, items0, respond, |log0|, |values|);
    var first := Answer(cb, items0, respond, 0);
    forall j | 0 <= j < |values|
      ensures values[j].nodes == Matched(res.kind, res.selector, res.onlyDisplayed, items0, respond)
    {
      assert RoundsAnswers(AnswerBy(cb, items0, respond), AskedBy(cb, items0, respond), |log0|, |values|)[j] == first;
    }
    QueryResultShape(values, bound, Matched(res.kind, res.selector, res.onlyDisplayed, items0, respond));
  }

  lemma ScaleBound(n: nat, b: nat, m: nat, x: nat)
    requires x <= n * m && n <= b
    ensures x <= b * m
  {
    assert b * m == n * m + (b - n) * m;
  }
}
