/** Traces of the retry loops: every call of the retried operation, every
    sleep and every refresh of a collection is recorded, in order. */
module Traces {
  import opened Errors

  datatype Event = Call | Slept(seconds: real) | Updated

  /** What a wait does: its outcome and the trace of its effects. */
  datatype Run<T> = Run(result: Outcome<T>, trace: seq<Event>)

  function Then<T>(done: seq<Event>, run: Run<T>): Run<T> {
    Run(run.result, done + run.trace)
  }

  lemma ThenThen<T>(a: seq<Event>, b: seq<Event>, run: Run<T>)
    ensures Then(a + b, run) == Then(a, Then(b, run))
  {
    assert (a + b) + run.trace == a + (b + run.trace);
  }

  function Calls(t: seq<Event>): nat {
    if t == [] then 0 else (if t[0].Call? then 1 else 0) + Calls(t[1..])
  }

  function Updates(t: seq<Event>): nat {
    if t == [] then 0 else (if t[0].Updated? then 1 else 0) + Updates(t[1..])
  }

  function Sleeps(t: seq<Event>): seq<real> {
    if t == [] then [] else (if t[0].Slept? then [t[0].seconds] else []) + Sleeps(t[1..])
  }

  lemma {:induction false} CountsAppend(a: seq<Event>, b: seq<Event>)
    ensures Calls(a + b) == Calls(a) + Calls(b)
    ensures Updates(a + b) == Updates(a) + Updates(b)
    ensures Sleeps(a + b) == Sleeps(a) + Sleeps(b)
  {
    CallsAppend(a, b);
    SleepsAppend(a, b);
  }

  lemma {:induction false} CallsAppend(a: seq<Event>, b: seq<Event>)
    ensures Calls(a + b) == Calls(a) + Calls(b)
    ensures Updates(a + b) == Updates(a) + Updates(b)
  {
    if a == [] {
      assert a + b == b;
    } else {
      assert (a + b)[1..] == a[1..] + b;
      CallsAppend(a[1..], b);
    }
  }

  lemma {:induction false} SleepsAppend(a: seq<Event>, b: seq<Event>)
    ensures Sleeps(a + b) == Sleeps(a) + Sleeps(b)
  {
    if a == [] {
      assert a + b == b;
    } else {
      assert (a + b)[1..] == a[1..] + b;
      SleepsAppend(a[1..], b);
      var h := if a[0].Slept? then [a[0].seconds] else [];
      assert Sleeps(a + b) == h + (Sleeps(a[1..]) + Sleeps(b));
      assert h + (Sleeps(a[1..]) + Sleeps(b)) == (h + Sleeps(a[1..])) + Sleeps(b);
    }
  }

  /** A round that ends the loop is one call and nothing else. */
  lemma LastCallCounts()
    ensures Calls([Call]) == 1 && Sleeps([Call]) == [] && Updates([Call]) == 0
  {
    assert [Call][1..] == [];
  }
}
