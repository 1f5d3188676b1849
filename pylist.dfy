/** The Python list operations a collection's `items` goes through:
    indexing with negative indices counted from the end, item assignment and
    deletion, `insert` with its clamped position, `[x] * n` and the nested
    comprehension that flattens a list of lists. */
module PyList {
  import opened Errors

  /** The position `s[i]` denotes in a list of length `len`, if any. */
  function Position(len: nat, i: int): (p: Option<nat>)
    ensures p.Some? <==> -(len as int) <= i < len
    ensures p.Some? ==> p.value < len && p.value as int == (if i < 0 then len + i else i)
  {
    if 0 <= i < len then Some(i)
    else if -(len as int) <= i < 0 then Some(len + i)
    else None
  }

  /** `s[i]` */
  function GetItem<T>(s: seq<T>, i: int): (r: Outcome<T>)
    ensures r.Ok? <==> -|s| <= i < |s|
    ensures r.Raised? ==> r.exc == IndexError
    ensures 0 <= i < |s| ==> r == Ok(s[i])
    ensures -|s| <= i < 0 ==> r == Ok(s[|s| + i])
  {
    match Position(|s|, i)
    case Some(p) => Ok(s[p])
    case None => Raised(IndexError)
  }

  /** `s[i] = v` */
  function SetItem<T>(s: seq<T>, i: int, v: T): (r: Outcome<seq<T>>)
    ensures r.Ok? <==> -|s| <= i < |s|
    ensures r.Raised? ==> r.exc == IndexError
    ensures r.Ok? ==> |r.value| == |s|
    ensures r.Ok? ==> forall j :: 0 <= j < |s| ==> r.value[j] == if Some(j) == Position(|s|, i) then v else s[j]
  {
    match Position(|s|, i)
    case Some(p) => Ok(s[p := v])
    case None => Raised(IndexError)
  }

  /** `del s[i]` */
  function DelItem<T>(s: seq<T>, i: int): (r: Outcome<seq<T>>)
    ensures r.Ok? <==> -|s| <= i < |s|
    ensures r.Raised? ==> r.exc == IndexError
    ensures r.Ok? ==> |r.value| == |s| - 1
    ensures r.Ok? ==> var p := Position(|s|, i).value;
      && (forall j :: 0 <= j < p ==> r.value[j] == s[j])
      && (forall j :: p <= j < |s| - 1 ==> r.value[j] == s[j + 1])
  {
    match Position(|s|, i)
    case Some(p) => Ok(s[..p] + s[p + 1..])
    case None => Raised(IndexError)
  }

  /** Where `s.insert(i, v)` puts `v`: a negative index counts from the end,
      and the result is clamped to `0..len`; insert never raises. */
  function InsertPosition(len: nat, i: int): (p: nat)
    ensures p <= len
    ensures 0 <= i <= len ==> p == i
    ensures -(len as int) <= i < 0 ==> p == len + i
    ensures i > len ==> p == len
    ensures i < -(len as int) ==> p == 0
  {
    if i < 0 then (if len + i < 0 then 0 else len + i)
    else if i > len then len
    else i
  }

  /** `s.insert(i, v)` */
  function Insert<T>(s: seq<T>, i: int, v: T): (r: seq<T>)
    ensures |r| == |s| + 1
    ensures r[InsertPosition(|s|, i)] == v
    ensures forall j :: 0 <= j < InsertPosition(|s|, i) ==> r[j] == s[j]
    ensures forall j :: InsertPosition(|s|, i) <= j < |s| ==> r[j + 1] == s[j]
  {
    var p := InsertPosition(|s|, i);
    s[..p] + [v] + s[p..]
  }

  /** Deleting what was just inserted gives the list back, wherever it went. */
  lemma InsertThenDelete<T>(s: seq<T>, i: int, v: T)
    ensures DelItem(Insert(s, i, v), InsertPosition(|s|, i)) == Ok(s)
  {
    var r := Insert(s, i, v);
    var d := DelItem(r, InsertPosition(|s|, i));
    assert d.Ok?;
    assert d.value == s;
  }

  /** What was assigned is what is read back; no other position changes. */
  lemma SetThenGet<T>(s: seq<T>, i: int, v: T, j: int)
    requires -|s| <= i < |s|
    ensures GetItem(SetItem(s, i, v).value, i) == Ok(v)
    ensures Position(|s|, j) != Position(|s|, i) ==> GetItem(SetItem(s, i, v).value, j) == GetItem(s, j)
  {
  }

  /** `[x] * n` */
  function Repeat<T>(x: T, n: nat): (r: seq<T>)
    ensures |r| == n
    ensures forall j :: 0 <= j < n ==> r[j] == x
  {
    if n == 0 then [] else Repeat(x, n - 1) + [x]
  }

  /** `[item for sublist in ss for item in sublist]` */
  function Flatten<T>(ss: seq<seq<T>>): seq<T> {
    if ss == [] then [] else ss[0] + Flatten(ss[1..])
  }

  lemma {:induction false} FlattenAppend<T>(a: seq<seq<T>>, b: seq<seq<T>>)
    ensures Flatten(a + b) == Flatten(a) + Flatten(b)
  {
    if a == [] {
      assert a + b == b;
    } else {
      assert (a + b)[1..] == a[1..] + b;
      FlattenAppend(a[1..], b);
    }
  }

  /** Flattening keeps every item of every list, and nothing else. */
  lemma {:induction false} FlattenMembers<T>(ss: seq<seq<T>>, x: T)
    ensures x in Flatten(ss) <==> exists i :: 0 <= i < |ss| && x in ss[i]
  {
    if ss != [] {
      FlattenMembers(ss[1..], x);
      if x in Flatten(ss[1..]) {
        var i :| 0 <= i < |ss[1..]| && x in ss[1..][i];
        assert x in ss[i + 1];
      }
      if exists i :: 0 <= i < |ss| && x in ss[i] {
        var i :| 0 <= i < |ss| && x in ss[i];
        if i > 0 {
          assert x in ss[1..][i - 1];
        }
      }
    }
  }

  /** n lists of at most m items flatten to at most n * m items. */
  lemma {:induction false} FlattenBound<T>(ss: seq<seq<T>>, m: nat)
    requires forall i :: 0 <= i < |ss| ==> |ss[i]| <= m
    ensures |Flatten(ss)| <= |ss| * m
  {
    if ss != [] {
      FlattenBound(ss[1..], m);
      assert |ss| * m == m + (|ss| - 1) * m;
    }
  }

  /** n one-item lists flatten to n copies of the item. */
  lemma {:induction false} FlattenSingletons<T>(x: T, n: nat)
    ensures Flatten(Repeat([x], n)) == Repeat(x, n)
  {
    if n > 0 {
      FlattenSingletons(x, n - 1);
      FlattenRepeat([x], n);
    }
  }

  /** n copies of a list flatten to that list repeated n times. */
  lemma {:induction false} FlattenRepeat<T>(xs: seq<T>, n: nat)
    ensures n > 0 ==> Flatten(Repeat(xs, n)) == Flatten(Repeat(xs, n - 1)) + xs
    ensures |Flatten(Repeat(xs, n))| == n * |xs|
  {
    if n > 0 {
      FlattenAppend(Repeat(xs, n - 1), [xs]);
      assert Flatten([xs]) == xs + Flatten([xs][1..]) && [xs][1..] == [];
      FlattenRepeat(xs, n - 1);
      assert n * |xs| == (n - 1) * |xs| + |xs|;
    }
  }
}
