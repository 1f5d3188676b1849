/** The pure parts of elementium/drivers/se.py: the callbacks the collection
    methods hand to `with_update` and `foreach`, the resolvers that populate
    a collection from its context, the `select`/`deselect` dispatch, the
    `ttl` fallback and the script `scroll` sends. The methods that run them
    against the driver are in the Collection and Se modules. */
module Callbacks {
  import opened Errors
  import opened PyList
  import opened Driver

  // ---------------------------------------------------------------------
  // The `ttl` fallback

  /** `ttl if ttl else default`: None and 0 both fall back. */
  function Fallback(ttl: Option<real>, default: real): (t: real)
    ensures ttl.Some? && ttl.value != 0.0 ==> t == ttl.value
    ensures ttl.None? || ttl.value == 0.0 ==> t == default
  {
    match ttl
    case Some(v) => if v != 0.0 then v else default
    case None => default
  }

  /** Falling back twice to the same default is falling back once, and a
      fallback is never 0 unless the default is. */
  lemma FallbackSettles(ttl: Option<real>, default: real)
    ensures Fallback(Some(Fallback(ttl, default)), default) == Fallback(ttl, default)
    ensures Fallback(ttl, default) == 0.0 ==> default == 0.0
  {
  }

  // ---------------------------------------------------------------------
  // The first-item readers

  /** What `is_displayed`, `is_enabled`, `is_selected`, `text`, `tag_name`,
      `value` and `attribute(name)` read from the first item. */
  datatype Reading = Displayed | Enabled | Selected | Text | TagName | ValueAttribute | Attribute(name: string)

  /** The readings that answer a yes/no question. */
  predicate IsFlag(k: Reading) {
    k.Displayed? || k.Enabled? || k.Selected?
  }

  function ReadRequest(k: Reading, n: Node): Request {
    match k
    case Displayed => IsDisplayed(n)
    case Enabled => IsEnabled(n)
    case Selected => IsSelected(n)
    case Text => GetText(n)
    case TagName => GetTagName(n)
    case ValueAttribute => GetAttribute(n, "value")
    case Attribute(name) => GetAttribute(n, name)
  }

  /** What a reader returns for an empty collection, without asking the
      driver: False for the yes/no questions, None for the rest. Both are
      falsy. */
  function EmptyReading(k: Reading): (v: Value)
    ensures !Truthy(v)
    ensures v.BoolValue? <==> IsFlag(k)
    ensures v.NoneValue? <==> !IsFlag(k)
  {
    if IsFlag(k) then BoolValue(false) else NoneValue
  }

  /** Distinct readings of the same node are distinct requests, and the
      value reader is the attribute reader for "value". */
  lemma ReadRequestsDistinct(k1: Reading, k2: Reading, n: Node)
    ensures ReadRequest(k1, n) == ReadRequest(k2, n) ==>
      k1 == k2 || {k1, k2} == {ValueAttribute, Attribute("value")}
  {
  }

  // ---------------------------------------------------------------------
  // Commands and the select/deselect dispatch

  /** `clear`, `click` and `write(text)` on the first item. */
  datatype Command = ClearText | ClickOn | Write(text: string)

  function CommandRequest(c: Command, n: Node): (q: Request)
    ensures (q.Clear? || q.Click? || q.SendKeys?) && q.node == n
  {
    match c
    case ClearText => Clear(n)
    case ClickOn => Click(n)
    case Write(text) => SendKeys(n, text)
  }

  predicate TruthyInt(x: Option<int>) {
    x.Some? && x.value != 0
  }

  predicate TruthyString(x: Option<string>) {
    x.Some? && x.value != ""
  }

  /** The branch `select(i, value, text)` takes: by index, else by value, else
      by visible text, each tested for truthiness, else ValueError. */
  function SelectChoice(i: Option<int>, value: Option<string>, text: Option<string>): (r: Outcome<Choice>)
    ensures r.Raised? <==> !TruthyInt(i) && !TruthyString(value) && !TruthyString(text)
    ensures r.Raised? ==> r.exc == ValueError("i, value, or text must be provided")
    ensures r.Ok? ==> !r.value.AllOptions?
    ensures r.Ok? && r.value.ByIndex? ==> TruthyInt(i) && r.value.index == i.value
    ensures r.Ok? && r.value.ByValue? ==> !TruthyInt(i) && TruthyString(value) && r.value.value == value.value
    ensures r.Ok? && r.value.ByVisibleText? ==>
      !TruthyInt(i) && !TruthyString(value) && TruthyString(text) && r.value.text == text.value
  {
    if TruthyInt(i) then Ok(ByIndex(i.value))
    else if TruthyString(value) then Ok(ByValue(value.value))
    else if TruthyString(text) then Ok(ByVisibleText(text.value))
    else Raised(ValueError("i, value, or text must be provided"))
  }

  /** The branch `deselect(i, value, text)` takes: the same priority, with
      `deselect_all` in place of the error. */
  function DeselectChoice(i: Option<int>, value: Option<string>, text: Option<string>): Choice {
    if TruthyInt(i) then ByIndex(i.value)
    else if value.Some? && value.value != "" then ByValue(value.value)
    else if text.Some? && text.value != "" then ByVisibleText(text.value)
    else AllOptions
  }

  /** The two dispatches agree wherever `select` does not raise; where it
      raises, `deselect` deselects everything. */
  lemma DispatchAgrees(i: Option<int>, value: Option<string>, text: Option<string>)
    ensures SelectChoice(i, value, text).Ok? ==> DeselectChoice(i, value, text) == SelectChoice(i, value, text).value
    ensures SelectChoice(i, value, text).Raised? <==> DeselectChoice(i, value, text) == AllOptions
  {
  }

  /** Index 0 is falsy, so `select(i=0)` on its own raises, and
      `select(i=0, value=v)` selects by value. */
  lemma IndexZeroIsAbsent(v: string)
    requires v != ""
    ensures SelectChoice(Some(0), None, None).Raised?
    ensures SelectChoice(Some(0), Some(v), None) == Ok(ByValue(v))
    ensures DeselectChoice(Some(0), None, None) == AllOptions
  {
  }

  // ---------------------------------------------------------------------
  // Resolvers

  /** How a collection computes its items from its context (the `fn` of
      elementium/elements.py). */
  datatype Resolver =
    | Root                                   // the default: `[browser]`
    | Index(i: int)                          // get(i): `[context.items[i]]`
    | Query(kind: QueryKind, selector: string, onlyDisplayed: bool, ttl: real)
                                             // find, xpath, find_link
    | Same                                   // filter: `context.items`
    | ParentItem                             // parent: `[context.item.parent]`

  /** `[item.parent]`: Selenium's `parent` of a web element is the driver
      that found it, and the driver object itself has no such attribute. */
  function ParentOf(n: Node): (r: Outcome<seq<Node>>)
    ensures r.Ok? <==> n.Element?
    ensures r.Ok? ==> r.value == [Window]
  {
    if n.Element? then Ok([Window]) else Raised(AttributeError)
  }

  /** A resolver that does not talk to the driver, applied to the context's
      items (`None` when there is no context). Without a context only the
      default resolver works: the others read an attribute of None. */
  function Direct(res: Resolver, ctx: Option<seq<Node>>): (r: Outcome<seq<Node>>)
    requires !res.Query?
    ensures res.Root? ==> r == Ok([Window])
    ensures !res.Root? && ctx.None? ==> r == Raised(AttributeError)
    ensures res.Same? && ctx.Some? ==> r == Ok(ctx.value)
    ensures res.Index? && ctx.Some? ==>
      && (r.Ok? <==> -|ctx.value| <= res.i < |ctx.value|)
      && (r.Raised? ==> r.exc == IndexError)
      && (r.Ok? ==> r.value == [GetItem(ctx.value, res.i).value])
    ensures res.ParentItem? && ctx.Some? && ctx.value != [] ==>
      r == ParentOf(ctx.value[0])
    ensures r.Ok? && !res.Same? ==> |r.value| <= 1
  {
    match res
    case Root => Ok([Window])
    case Index(i) =>
      if ctx.None? then Raised(AttributeError)
      else
        (match GetItem(ctx.value, i)
         case Ok(n) => Ok([n])
         case Raised(e) => Raised(e))
    case Same => if ctx.None? then Raised(AttributeError) else Ok(ctx.value)
    case ParentItem =>
      if ctx.None? then Raised(AttributeError)
      else if ctx.value == [] then Ok([])
      else
        ParentOf(ctx.value[0])
  }

  /** `get(i)` agrees with Python indexing of the context's items: negative
      indices count from the end, and after `s[i] = v` the child reads `v`. */
  lemma IndexFollowsList(s: seq<Node>, i: int, v: Node)
    requires -|s| <= i < |s|
    ensures Direct(Index(i), Some(s)) == Ok([s[Position(|s|, i).value]])
    ensures Direct(Index(i), Some(SetItem(s, i, v).value)) == Ok([v])
  {
    SetThenGet(s, i, v, i);
  }

  // ---------------------------------------------------------------------
  // The query callback

  /** The matches `filter(lambda obj: obj.is_displayed(), matches)` keeps,
      given what each `is_displayed()` answered. */
  function Kept(matches: seq<Node>, shown: seq<bool>): (r: seq<Node>)
    requires |shown| == |matches|
    ensures |r| <= |matches|
  {
    if matches == [] then []
    else
      var n := |matches| - 1;
      Kept(matches[..n], shown[..n]) + (if shown[n] then [matches[n]] else [])
  }

  /** The filter keeps exactly the displayed matches. */
  lemma {:induction false} KeptMembers(matches: seq<Node>, shown: seq<bool>, x: Node)
    requires |shown| == |matches|
    ensures x in Kept(matches, shown) <==> exists i :: 0 <= i < |matches| && matches[i] == x && shown[i]
  {
    if matches != [] {
      var n := |matches| - 1;
      var init, flags := matches[..n], shown[..n];
      var last := if shown[n] then [matches[n]] else [];
      assert Kept(matches, shown) == Kept(init, flags) + last;
      assert x in Kept(matches, shown) <==> x in Kept(init, flags) || x in last;
      KeptMembers(init, flags, x);
      if x in Kept(init, flags) {
        var i :| 0 <= i < n && init[i] == x && flags[i];
        assert matches[i] == x && shown[i];
      }
      if exists i :: 0 <= i < |matches| && matches[i] == x && shown[i] {
        var i :| 0 <= i < |matches| && matches[i] == x && shown[i];
        if i < n {
          assert init[i] == x && flags[i];
        }
      }
    }
  }

  /** When every match is displayed the filter keeps them all, in order. */
  lemma {:induction false} KeptAll(matches: seq<Node>, shown: seq<bool>)
    requires |shown| == |matches| && forall i :: 0 <= i < |shown| ==> shown[i]
    ensures Kept(matches, shown) == matches
  {
    if matches != [] {
      var n := |matches| - 1;
      KeptAll(matches[..n], shown[..n]);
      assert matches[..n] + [matches[n]] == matches;
    }
  }

  /** What a collection method asks of its first item, or of the browser. */
  datatype Callback =
    | Read(reading: Reading)                                   // the first-item readers
    | Do(command: Command)                                     // clear, click, write
    | SelectBy(i: Option<int>, value: Option<string>, text: Option<string>)     // select
    | DeselectBy(i: Option<int>, value: Option<string>, text: Option<string>)   // deselect
    | Matches(kind: QueryKind, selector: string, onlyDisplayed: bool)   // `inner` of the queries
    | PageTitle                                                // title
    | Source                                                   // source

  /** The values a callback returns: the query callback returns a list of at
      most `bound` nodes. */
  predicate Produces(cb: Callback, v: Value, bound: nat) {
    cb.Matches? ==> v.NodesValue? && |v.nodes| <= bound
  }

  /** Every value of `vs` is one the callback can produce. */
  predicate AllProduce(cb: Callback, vs: seq<Value>, bound: nat) {
    forall j :: 0 <= j < |vs| ==> Produces(cb, vs[j], bound)
  }

  /** The sublists of per-round query results. */
  function NodesOf(vs: seq<Value>): (r: seq<seq<Node>>)
    requires forall j :: 0 <= j < |vs| ==> vs[j].NodesValue?
    ensures |r| == |vs|
    ensures forall j :: 0 <= j < |vs| ==> r[j] == vs[j].nodes
  {
    if vs == [] then [] else [vs[0].nodes] + NodesOf(vs[1..])
  }

  /** The query resolver's result: the rounds' matches in order, duplicates
      kept. A parent of length k whose rounds all find the same matches
      yields k copies of them. */
  lemma QueryResultShape(vs: seq<Value>, bound: nat, m: seq<Node>)
    requires forall j :: 0 <= j < |vs| ==> vs[j].NodesValue? && |vs[j].nodes| <= bound
    ensures |Flatten(NodesOf(vs))| <= |vs| * bound
    ensures (forall j :: 0 <= j < |vs| ==> vs[j].nodes == m) ==>
      Flatten(NodesOf(vs)) == Flatten(Repeat(m, |vs|)) && |Flatten(NodesOf(vs))| == |vs| * |m|
  {
    FlattenBound(NodesOf(vs), bound);
    if forall j :: 0 <= j < |vs| ==> vs[j].nodes == m {
      assert NodesOf(vs) == Repeat(m, |vs|);
      FlattenRepeat(m, |vs|);
    }
  }

  /** `filter(lambda obj: obj.is_displayed(), ms)` with the questions asked
      from the t-th request on: the displayed matches, or the first error. */
  function FilterDisplayed(respond: (nat, Request) -> Outcome<Value>, t: nat, ms: seq<Node>): Outcome<Value> {
    match DisplayFilter(respond, t, ms)
    case Raised(e) => Raised(e)
    case Ok(flags) => Ok(NodesValue(Kept(ms, flags)))
  }

  /** The filter keeps exactly the matches the driver called displayed,
      and raises only when one of its questions does. */
  lemma FilterDisplayedMembers(respond: (nat, Request) -> Outcome<Value>, t: nat, ms: seq<Node>, x: Node)
    ensures FilterDisplayed(respond, t, ms).Ok? <==>
      forall j :: 0 <= j < |ms| ==> respond(t + j, IsDisplayed(ms[j])).Ok?
    ensures FilterDisplayed(respond, t, ms).Ok? ==>
      var kept := FilterDisplayed(respond, t, ms).value;
      && kept.NodesValue? && |kept.nodes| <= |ms|
      && (x in kept.nodes <==>
            exists j :: 0 <= j < |ms| && ms[j] == x && Truthy(respond(t + j, IsDisplayed(ms[j])).value))
  {
    if forall j :: 0 <= j < |ms| ==> respond(t + j, IsDisplayed(ms[j])).Ok? {
      DisplayFilterAllOk(respond, t, ms);
      var flags := DisplayFilter(respond, t, ms).value;
      KeptMembers(ms, flags, x);
    }
  }

  // ---------------------------------------------------------------------
  // What a callback asks and answers

  /** What a callback makes of the driver's replies when it runs against
      `items` and its first question is the t-th request: the value it
      returns or the error it raises. `select_by_*` and `deselect_*` return
      None. */
  function Answer(cb: Callback, items: seq<Node>, respond: (nat, Request) -> Outcome<Value>, t: nat): Outcome<Value> {
    match cb
    case Read(k) => if items == [] then Ok(EmptyReading(k)) else respond(t, ReadRequest(k, items[0]))
    case Do(c) => if items == [] then Raised(AttributeError) else respond(t, CommandRequest(c, items[0]))
    case SelectBy(i, value, text) =>
      if items == [] then Raised(AttributeError)
      else if respond(t, WrapSelect(items[0])).Raised? then respond(t, WrapSelect(items[0]))
      else if SelectChoice(i, value, text).Raised? then Raised(SelectChoice(i, value, text).exc)
      else DropValue(respond(t + 1, SelectOption(items[0], SelectChoice(i, value, text).value)))
    case DeselectBy(i, value, text) =>
      if items == [] then Raised(AttributeError)
      else if respond(t, WrapSelect(items[0])).Raised? then respond(t, WrapSelect(items[0]))
      else DropValue(respond(t + 1, DeselectOption(items[0], DeselectChoice(i, value, text))))
    case Matches(kind, selector, onlyDisplayed) =>
      if items == [] then Raised(AttributeError)
      else
        var found := respond(t, FindAll(kind, items[0], selector));
        if found.Raised? || !onlyDisplayed || !found.value.NodesValue? then found
        else FilterDisplayed(respond, t + 1, found.value.nodes)
    case PageTitle => respond(t, Title)
    case Source => respond(t, Request.PageSource)
  }

  /** The query callback's answer, case by case: the lookup's error, or
      its matches, filtered when only displayed ones are wanted. */
  lemma MatchesAnswer(kind: QueryKind, selector: string, onlyDisplayed: bool, items: seq<Node>,
                      respond: (nat, Request) -> Outcome<Value>, t: nat, r: Outcome<Value>)
    requires items == [] ==> r == Raised(AttributeError)
    requires items != [] ==>
      var found := respond(t, FindAll(kind, items[0], selector));
      && (found.Raised? || !onlyDisplayed ==> r == found)
      && (found.Ok? && onlyDisplayed ==>
            found.value.NodesValue? && r == FilterDisplayed(respond, t + 1, found.value.nodes))
    ensures r == Answer(Matches(kind, selector, onlyDisplayed), items, respond, t)
  {
  }

  /** What the query callback asks: the lookup and then, when filtering,
      the questions the filter puts about the matches in turn. */
  lemma MatchesAsked(kind: QueryKind, selector: string, onlyDisplayed: bool, items: seq<Node>,
                     respond: (nat, Request) -> Outcome<Value>, t: nat, log0: seq<Request>, log: seq<Request>)
    requires items == [] ==> log == log0
    requires items != [] ==>
      var found := respond(t, FindAll(kind, items[0], selector));
      && (found.Ok? && onlyDisplayed ==> found.value.NodesValue?)
      && log == log0 + [FindAll(kind, items[0], selector)]
           + if found.Raised? || !onlyDisplayed then []
             else DisplayQueries(found.value.nodes[..DisplayAsked(respond, t + 1, found.value.nodes)])
    ensures log == log0 + Asked(Matches(kind, selector, onlyDisplayed), items, respond, t)
  {
  }

  /** The `select` callback, case by case: the wrap's error, the dispatch
      error after the wrap, or the selection's outcome with its value
      dropped; it asks the wrap and then the selection it makes. */
  lemma SelectAnswer(i: Option<int>, value: Option<string>, text: Option<string>, items: seq<Node>,
                     respond: (nat, Request) -> Outcome<Value>, t: nat, r: Outcome<Value>,
                     log0: seq<Request>, log: seq<Request>)
    requires items == [] ==> r == Raised(AttributeError) && log == log0
    requires items != [] && respond(t, WrapSelect(items[0])).Raised? ==>
      r == respond(t, WrapSelect(items[0])) && log == log0 + [WrapSelect(items[0])]
    requires items != [] && respond(t, WrapSelect(items[0])).Ok? ==>
      match SelectChoice(i, value, text)
      case Raised(e) => r == Raised(e) && log == log0 + [WrapSelect(items[0])]
      case Ok(ch) =>
        && r == DropValue(respond(t + 1, SelectOption(items[0], ch)))
        && log == log0 + [WrapSelect(items[0]), SelectOption(items[0], ch)]
    ensures r == Answer(SelectBy(i, value, text), items, respond, t)
    ensures log == log0 + Asked(SelectBy(i, value, text), items, respond, t)
  {
  }

  /** The `deselect` callback, case by case: the wrap's error, or the
      deselection's outcome with its value dropped. */
  lemma DeselectAnswer(i: Option<int>, value: Option<string>, text: Option<string>, items: seq<Node>,
                       respond: (nat, Request) -> Outcome<Value>, t: nat, r: Outcome<Value>,
                       log0: seq<Request>, log: seq<Request>)
    requires items == [] ==> r == Raised(AttributeError) && log == log0
    requires items != [] && respond(t, WrapSelect(items[0])).Raised? ==>
      r == respond(t, WrapSelect(items[0])) && log == log0 + [WrapSelect(items[0])]
    requires items != [] && respond(t, WrapSelect(items[0])).Ok? ==>
      && r == DropValue(respond(t + 1, DeselectOption(items[0], DeselectChoice(i, value, text))))
      && log == log0 + [WrapSelect(items[0]), DeselectOption(items[0], DeselectChoice(i, value, text))]
    ensures r == Answer(DeselectBy(i, value, text), items, respond, t)
    ensures log == log0 + Asked(DeselectBy(i, value, text), items, respond, t)
  {
  }

  /** A call whose value is dropped: None, or what it raised. */
  function DropValue(o: Outcome<Value>): (r: Outcome<Value>)
    ensures r.Ok? <==> o.Ok?
    ensures r.Ok? ==> r.value == NoneValue
    ensures r.Raised? ==> r == o
  {
    if o.Ok? then Ok(NoneValue) else o
  }

  /** The requests the callback sends, in order, under the same conditions. */
  function Asked(cb: Callback, items: seq<Node>, respond: (nat, Request) -> Outcome<Value>, t: nat): seq<Request> {
    match cb
    case Read(k) => if items == [] then [] else [ReadRequest(k, items[0])]
    case Do(c) => if items == [] then [] else [CommandRequest(c, items[0])]
    case SelectBy(i, value, text) =>
      if items == [] then []
      else if respond(t, WrapSelect(items[0])).Raised? || SelectChoice(i, value, text).Raised? then [WrapSelect(items[0])]
      else [WrapSelect(items[0]), SelectOption(items[0], SelectChoice(i, value, text).value)]
    case DeselectBy(i, value, text) =>
      if items == [] then []
      else if respond(t, WrapSelect(items[0])).Raised? then [WrapSelect(items[0])]
      else [WrapSelect(items[0]), DeselectOption(items[0], DeselectChoice(i, value, text))]
    case Matches(kind, selector, onlyDisplayed) =>
      if items == [] then []
      else
        var found := respond(t, FindAll(kind, items[0], selector));
        [FindAll(kind, items[0], selector)]
          + if found.Raised? || !onlyDisplayed || !found.value.NodesValue? then []
            else DisplayQueries(found.value.nodes[..DisplayAsked(respond, t + 1, found.value.nodes)])
    case PageTitle => [Title]
    case Source => [Request.PageSource]
  }

  /** A callback on an empty collection asks nothing of its items: the
      readers answer False or None, the others raise AttributeError. */
  lemma EmptyAsksNothing(cb: Callback, respond: (nat, Request) -> Outcome<Value>, t: nat)
    requires !cb.PageTitle? && !cb.Source?
    ensures Asked(cb, [], respond, t) == []
    ensures cb.Read? ==> Answer(cb, [], respond, t) == Ok(EmptyReading(cb.reading))
    ensures !cb.Read? ==> Answer(cb, [], respond, t) == Raised(AttributeError)
  {
  }

  /** A driver that answers the callback's questions about `items` the same
      way whenever they are asked, and never with an error. */
  ghost predicate Steady(cb: Callback, items: seq<Node>, respond: (nat, Request) -> Outcome<Value>) {
    && Answer(cb, items, respond, 0).Ok?
    && forall t: nat :: Answer(cb, items, respond, t) == Answer(cb, items, respond, 0)
                        && Asked(cb, items, respond, t) == Asked(cb, items, respond, 0)
  }

  /** The nodes the query callback finds under a steady driver. */
  ghost function Matched(kind: QueryKind, selector: string, onlyDisplayed: bool, items: seq<Node>,
                         respond: (nat, Request) -> Outcome<Value>): seq<Node>
  {
    var a := Answer(Matches(kind, selector, onlyDisplayed), items, respond, 0);
    if a.Ok? && a.value.NodesValue? then a.value.nodes else []
  }

  /** The callback a query resolver runs over its context. */
  function QueryCallback(res: Resolver): Callback
    requires res.Query?
  {
    Matches(res.kind, res.selector, res.onlyDisplayed)
  }

  /** What a query resolver makes of `items` under a steady driver: every
      round asks about the first item, so its matches come once per item. */
  ghost function SteadyQueryResult(res: Resolver, items: seq<Node>, respond: (nat, Request) -> Outcome<Value>): seq<Node>
    requires res.Query?
  {
    Flatten(Repeat(Matched(res.kind, res.selector, res.onlyDisplayed, items, respond), |items|))
  }

  /** When a steady driver lets `select` through, the callback wraps the
      first item and then picks the option; `deselect` likewise. */
  lemma SteadySelect(cb: Callback, items: seq<Node>, respond: (nat, Request) -> Outcome<Value>)
    requires (cb.SelectBy? || cb.DeselectBy?) && Steady(cb, items, respond)
    ensures items != []
    ensures cb.SelectBy? ==>
      && SelectChoice(cb.i, cb.value, cb.text).Ok?
      && Asked(cb, items, respond, 0)
         == [WrapSelect(items[0]), SelectOption(items[0], SelectChoice(cb.i, cb.value, cb.text).value)]
    ensures cb.DeselectBy? ==>
      Asked(cb, items, respond, 0) == [WrapSelect(items[0]), DeselectOption(items[0], DeselectChoice(cb.i, cb.value, cb.text))]
  {
  }

  /** The callback's requests and answers as functions of the request its
      round starts at. */
  function AskedBy(cb: Callback, items: seq<Node>, respond: (nat, Request) -> Outcome<Value>): nat -> seq<Request> {
    (t: nat) => Asked(cb, items, respond, t)
  }

  function AnswerBy(cb: Callback, items: seq<Node>, respond: (nat, Request) -> Outcome<Value>): nat -> Outcome<Value> {
    (t: nat) => Answer(cb, items, respond, t)
  }

  /** The requests of n rounds, the first starting at the t-th request and
      each where the last ended, when a round that starts at the s-th
      request sends `asks(s)`. */
  function RoundsAsked(asks: nat -> seq<Request>, t: nat, n: nat): seq<Request> {
    if n == 0 then [] else var before := RoundsAsked(asks, t, n - 1); before + asks(t + |before|)
  }

  /** What each of those rounds answers, when a round that starts at the
      s-th request answers `answers(s)`. */
  function RoundsAnswers(answers: nat -> Outcome<Value>, asks: nat -> seq<Request>, t: nat, n: nat)
    : (r: seq<Outcome<Value>>)
    ensures |r| == n
  {
    if n == 0 then [] else RoundsAnswers(answers, asks, t, n - 1) + [answers(t + |RoundsAsked(asks, t, n - 1)|)]
  }

  /** Under a steady driver the n rounds of a callback send the first
      round's requests n times over and all answer what the first does. */
  lemma {:induction false} SteadyRounds(cb: Callback, items: seq<Node>, respond: (nat, Request) -> Outcome<Value>, t: nat, n: nat)
    requires Steady(cb, items, respond)
    ensures RoundsAsked(AskedBy(cb, items, respond), t, n) == Flatten(Repeat(Asked(cb, items, respond, 0), n))
    ensures RoundsAnswers(AnswerBy(cb, items, respond), AskedBy(cb, items, respond), t, n)
            == Repeat(Answer(cb, items, respond, 0), n)
  {
    if n > 0 {
      SteadyRounds(cb, items, respond, t, n - 1);
      FlattenRepeat(Asked(cb, items, respond, 0), n);
      var before := RoundsAsked(AskedBy(cb, items, respond), t, n - 1);
      assert AskedBy(cb, items, respond)(t + |before|) == Asked(cb, items, respond, 0);
      assert AnswerBy(cb, items, respond)(t + |before|) == Answer(cb, items, respond, 0);
    }
  }

  /** The driver told `is_displayed()` of the first of `items` that it is
      displayed, at some request. */
  ghost predicate ReportedDisplayed(respond: (nat, Request) -> Outcome<Value>, items: seq<Node>) {
    && items != []
    && exists t: nat :: respond(t, IsDisplayed(items[0])).Ok? && Truthy(respond(t, IsDisplayed(items[0])).value)
  }

  // ---------------------------------------------------------------------
  // The scroll script

  /** A coordinate of `scroll`: a number of pixels or a JavaScript expression. */
  datatype Coordinate = Pixels(n: int) | Expression(js: string)

  function DigitChar(d: nat): (c: char)
    requires d < 10
    ensures '0' <= c <= '9' && (c as int) - ('0' as int) == d
  {
    (('0' as int) + d) as char
  }

  predicate AllDigits(s: string) {
    forall j :: 0 <= j < |s| ==> '0' <= s[j] <= '9'
  }

  /** `str(n)` for n >= 0. */
  function Digits(n: nat): (s: string)
    ensures |s| > 0 && AllDigits(s)
  {
    if n < 10 then [DigitChar(n)] else Digits(n / 10) + [DigitChar(n % 10)]
  }

  /** `int(s)` for a string of digits. */
  function DigitsValue(s: string): nat
    requires AllDigits(s)
  {
    if s == [] then 0 else 10 * DigitsValue(s[..|s| - 1]) + ((s[|s| - 1] as int) - ('0' as int))
  }

  lemma {:induction false} DigitsRoundTrip(n: nat)
    ensures DigitsValue(Digits(n)) == n
  {
    if n >= 10 {
      DigitsRoundTrip(n / 10);
      var s := Digits(n);
      assert s[..|s| - 1] == Digits(n / 10);
    }
  }

  /** `str(n)` for any integer. */
  function Decimal(n: int): (s: string)
    ensures |s| > 0 && forall j :: 0 <= j < |s| ==> s[j] == '-' || '0' <= s[j] <= '9'
  {
    if n < 0 then "-" + Digits(-n) else Digits(n)
  }

  /** `int(s)`, for the strings `str` produces from integers. */
  function ParseDecimal(s: string): Option<int> {
    if |s| > 1 && s[0] == '-' && AllDigits(s[1..]) then Some(0 - DigitsValue(s[1..]) as int)
    else if |s| > 0 && AllDigits(s) then Some(DigitsValue(s))
    else None
  }

  lemma DecimalRoundTrip(n: int)
    ensures ParseDecimal(Decimal(n)) == Some(n)
  {
    if n < 0 {
      DigitsRoundTrip(-n);
      assert Decimal(n)[1..] == Digits(-n);
    } else {
      DigitsRoundTrip(n);
    }
  }

  /** `"{}".format(c)` */
  function Format(c: Coordinate): string {
    match c
    case Pixels(n) => Decimal(n)
    case Expression(js) => js
  }

  /** `"window.scrollTo({}, {});".format(x, y)` */
  function ScrollScript(x: Coordinate, y: Coordinate): string {
    "window.scrollTo(" + Format(x) + ", " + Format(y) + ");"
  }

  /** Text that holds no comma. */
  predicate CommaFree(s: string) {
    forall j :: 0 <= j < |s| ==> s[j] != ','
  }

  lemma DecimalCommaFree(n: int)
    ensures CommaFree(Decimal(n))
  {
  }

  /** The position of the first comma in s, or |s| when there is none. */
  function FirstComma(s: string): (i: nat)
    ensures i <= |s|
  {
    if s == [] || s[0] == ',' then 0 else 1 + FirstComma(s[1..])
  }

  lemma {:induction false} FirstCommaAfter(a: string, rest: string)
    requires CommaFree(a) && |rest| > 0 && rest[0] == ','
    ensures FirstComma(a + rest) == |a|
  {
    if a != [] {
      assert (a + rest)[1..] == a[1..] + rest;
      FirstCommaAfter(a[1..], rest);
    }
  }

  /** Text before its first comma, followed by a comma, splits there only. */
  lemma SplitAtComma(a1: string, r1: string, a2: string, r2: string)
    requires CommaFree(a1) && CommaFree(a2)
    requires |r1| > 0 && r1[0] == ',' && |r2| > 0 && r2[0] == ','
    requires a1 + r1 == a2 + r2
    ensures a1 == a2 && r1 == r2
  {
    FirstCommaAfter(a1, r1);
    FirstCommaAfter(a2, r2);
    assert a1 == (a1 + r1)[..|a1|] && a2 == (a2 + r2)[..|a2|];
    assert r1 == (a1 + r1)[|a1|..] && r2 == (a2 + r2)[|a2|..];
  }

  lemma StripEnds(p: string, t1: string, t2: string, q: string)
    requires p + t1 + q == p + t2 + q
    ensures t1 == t2
  {
    assert t1 == (p + t1 + q)[|p|..|p| + |t1|];
    assert t2 == (p + t2 + q)[|p|..|p| + |t2|];
  }

  /** `p + a + sep + b + q`, with a comma opening `sep` and none in `a`,
      determines `a` and `b`. */
  lemma PartsInjective(p: string, sep: string, q: string, a1: string, b1: string, a2: string, b2: string)
    requires |sep| > 0 && sep[0] == ',' && CommaFree(a1) && CommaFree(a2)
    requires p + a1 + sep + b1 + q == p + a2 + sep + b2 + q
    ensures a1 == a2 && b1 == b2
  {
    assert p + a1 + sep + b1 + q == p + (a1 + (sep + b1)) + q;
    assert p + a2 + sep + b2 + q == p + (a2 + (sep + b2)) + q;
    StripEnds(p, a1 + (sep + b1), a2 + (sep + b2), q);
    SplitAtComma(a1, sep + b1, a2, sep + b2);
    StripEnds(sep, b1, b2, []);
  }

  /** Distinct pixel positions give distinct scripts: the first comma ends
      the x coordinate, and each number can be read back from its text. */
  lemma ScrollScriptInjective(x1: int, y1: int, x2: int, y2: int)
    requires ScrollScript(Pixels(x1), Pixels(y1)) == ScrollScript(Pixels(x2), Pixels(y2))
    ensures x1 == x2 && y1 == y2
  {
    DecimalCommaFree(x1);
    DecimalCommaFree(x2);
    PartsInjective("window.scrollTo(", ", ", ");", Decimal(x1), Decimal(y1), Decimal(x2), Decimal(y2));
    DecimalRoundTrip(x1);
    DecimalRoundTrip(x2);
    DecimalRoundTrip(y1);
    DecimalRoundTrip(y2);
  }

  /** `scroll_top` and `scroll_bottom` send different scripts for the same
      column: one scrolls to row 0, the other to the page's height. */
  lemma ScrollTopAndBottomDiffer(x: Coordinate)
    ensures ScrollScript(x, Pixels(0)) != ScrollScript(x, Expression("document.body.scrollHeight"))
  {
    assert |Decimal(0)| == 1;
    assert |ScrollScript(x, Pixels(0))| + 25 == |ScrollScript(x, Expression("document.body.scrollHeight"))|;
  }
}
