/** Facts about filtering, permuting and sorting sequences. */
module Sequences {
  import opened Text

  function Filter<T>(keep: T -> bool, xs: seq<T>): seq<T> {
    if xs == [] then []
    else (if keep(xs[0]) then [xs[0]] else []) + Filter(keep, xs[1..])
  }

  lemma {:induction false} FilterAppend<T>(keep: T -> bool, a: seq<T>, b: seq<T>)
    ensures Filter(keep, a + b) == Filter(keep, a) + Filter(keep, b)
  {
    if a == [] {
      assert a + b == b;
    } else {
      assert (a + b)[1..] == a[1..] + b;
      FilterAppend(keep, a[1..], b);
    }
  }

  lemma {:induction false} FilterAll<T>(keep: T -> bool, xs: seq<T>)
    requires forall k :: 0 <= k < |xs| ==> keep(xs[k])
    ensures Filter(keep, xs) == xs
  {
    if xs != [] { FilterAll(keep, xs[1..]); }
  }

  lemma {:induction false} FilterNone<T>(keep: T -> bool, xs: seq<T>)
    requires forall k :: 0 <= k < |xs| ==> !keep(xs[k])
    ensures Filter(keep, xs) == []
  {
    if xs != [] { FilterNone(keep, xs[1..]); }
  }

  lemma {:induction false} FilterKept<T>(keep: T -> bool, xs: seq<T>)
    ensures forall k :: 0 <= k < |Filter(keep, xs)| ==> keep(Filter(keep, xs)[k]) && Filter(keep, xs)[k] in xs
  {
    if xs != [] { FilterKept(keep, xs[1..]); }
  }

  lemma {:induction false} FilterMember<T>(keep: T -> bool, xs: seq<T>, x: T)
    ensures x in Filter(keep, xs) <==> x in xs && keep(x)
  {
    if xs != [] { FilterMember(keep, xs[1..], x); }
  }

  lemma {:induction false} FilterAgree<T>(p: T -> bool, q: T -> bool, xs: seq<T>)
    requires forall k :: 0 <= k < |xs| ==> p(xs[k]) == q(xs[k])
    ensures Filter(p, xs) == Filter(q, xs)
  {
    if xs != [] { FilterAgree(p, q, xs[1..]); }
  }

  lemma FilterCons<T>(keep: T -> bool, x: T, rest: seq<T>)
    ensures Filter(keep, [x] + rest) == if keep(x) then [x] + Filter(keep, rest) else Filter(keep, rest)
  {
    assert ([x] + rest)[1..] == rest;
  }

  lemma FilterOne<T>(keep: T -> bool, x: T)
    ensures Filter(keep, [x]) == if keep(x) then [x] else []
  {
    assert [x][1..] == [];
  }

  lemma FilterSnoc<T>(keep: T -> bool, xs: seq<T>, x: T)
    ensures Filter(keep, xs + [x]) == Filter(keep, xs) + if keep(x) then [x] else []
  {
    FilterAppend(keep, xs, [x]);
    FilterOne(keep, x);
  }

  lemma ConsSlices<T>(x: T, xs: seq<T>, k: nat)
    requires k < |xs|
    ensures ([x] + xs)[k + 1] == xs[k]
    ensures ([x] + xs)[..k + 1] == [x] + xs[..k] && ([x] + xs)[k + 2..] == xs[k + 1..]
  {
  }

  /** The k-th kept element, with what lies before and behind it. */
  lemma {:induction false} Locate<T>(keep: T -> bool, xs: seq<T>, k: nat) returns (before: seq<T>, behind: seq<T>)
    requires k < |Filter(keep, xs)|
    ensures xs == before + [Filter(keep, xs)[k]] + behind
    ensures keep(Filter(keep, xs)[k])
    ensures Filter(keep, before) == Filter(keep, xs)[..k]
    ensures Filter(keep, behind) == Filter(keep, xs)[k + 1..]
  {
    hide Filter;
    if xs == [] { FilterNone(keep, xs); }
    var x, rest := xs[0], xs[1..];
    assert xs == [x] + rest;
    FilterCons(keep, x, rest);
    if keep(x) && k == 0 {
      before, behind := [], rest;
      FilterNone(keep, before);
    } else {
      var tail;
      var n := if keep(x) then k - 1 else k;
      tail, behind := Locate(keep, rest, n);
      before := [x] + tail;
      FilterCons(keep, x, tail);
      ConsSlices(x, Filter(keep, rest), n);
    }
  }

  /** The first element that satisfies `p`, as an iterator's find gives it. */
  function FindFirst<T>(p: T -> bool, xs: seq<T>): (r: Option<T>)
    ensures r.Some? ==> p(r.value) && r.value in xs
    ensures r.None? <==> forall k :: 0 <= k < |xs| ==> !p(xs[k])
  {
    if xs == [] then None else if p(xs[0]) then Some(xs[0]) else FindFirst(p, xs[1..])
  }

  lemma MultisetMember<T>(xs: seq<T>, ys: seq<T>, x: T)
    requires multiset(xs) == multiset(ys)
    ensures x in xs <==> x in ys
  {
    assert x in xs <==> x in multiset(xs);
    assert x in ys <==> x in multiset(ys);
  }

  /** With at most one candidate the order of the list does not matter. */
  lemma FindFirstPermuted<T>(p: T -> bool, xs: seq<T>, ys: seq<T>)
    requires multiset(xs) == multiset(ys)
    requires forall x, y :: x in xs && y in xs && p(x) && p(y) ==> x == y
    ensures FindFirst(p, xs) == FindFirst(p, ys)
  {
    var a, b := FindFirst(p, xs), FindFirst(p, ys);
    if a.Some? {
      MultisetMember(xs, ys, a.value);
      var k :| 0 <= k < |ys| && ys[k] == a.value;
      MultisetMember(xs, ys, b.value);
    } else if b.Some? {
      MultisetMember(xs, ys, b.value);
      assert false;
    }
  }

  lemma {:induction false} FilterMultiset<T>(p: T -> bool, xs: seq<T>, x: T)
    ensures multiset(Filter(p, xs))[x] == if p(x) then multiset(xs)[x] else 0
  {
    if xs != [] {
      assert xs == [xs[0]] + xs[1..];
      FilterMultiset(p, xs[1..], x);
    }
  }

  lemma FilterPermuted<T(!new)>(p: T -> bool, xs: seq<T>, ys: seq<T>)
    requires multiset(xs) == multiset(ys)
    ensures multiset(Filter(p, xs)) == multiset(Filter(p, ys)) && |Filter(p, xs)| == |Filter(p, ys)|
  {
    forall x ensures multiset(Filter(p, xs))[x] == multiset(Filter(p, ys))[x] {
      FilterMultiset(p, xs, x);
      FilterMultiset(p, ys, x);
    }
    assert multiset(Filter(p, xs)) == multiset(Filter(p, ys));
    assert |multiset(Filter(p, xs))| == |Filter(p, xs)|;
    assert |multiset(Filter(p, ys))| == |Filter(p, ys)|;
  }
}
