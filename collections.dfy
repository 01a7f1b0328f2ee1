/** Generic sequence helpers. */
module Collections {

  /** `s.filter(keep)`: the elements that satisfy `keep`, each as often as in `s`, in their order. */
  function Filter<T(!new)>(s: seq<T>, keep: T -> bool): (r: seq<T>)
    ensures |r| <= |s|
  {
    if s == [] then []
    else (if keep(s[0]) then [s[0]] else []) + Filter(s[1..], keep)
  }

  /** Every element that passes the test is kept as often as it occurs in `s`; the others go. */
  lemma {:induction false} FilterCounts<T(!new)>(s: seq<T>, keep: T -> bool)
    ensures forall x :: multiset(Filter(s, keep))[x] == if keep(x) then multiset(s)[x] else 0
  {
    if s != [] {
      FilterCounts(s[1..], keep);
      assert s == [s[0]] + s[1..];
    }
  }

  /** Filtering with a test every element passes changes nothing. */
  lemma {:induction false} FilterAll<T(!new)>(s: seq<T>, keep: T -> bool)
    requires forall k :: 0 <= k < |s| ==> keep(s[k])
    ensures Filter(s, keep) == s
  {
    if s != [] {
      FilterAll(s[1..], keep);
      assert s == [s[0]] + s[1..];
    }
  }

  /** An element survives the filter exactly when it occurs in `s` and passes the test. */
  lemma FilterMember<T(!new)>(s: seq<T>, keep: T -> bool, x: T)
    ensures x in Filter(s, keep) <==> x in s && keep(x)
  {
    var r := Filter(s, keep);
    FilterCounts(s, keep);
    assert x in r <==> multiset(r)[x] > 0;
    assert x in s <==> multiset(s)[x] > 0;
  }

  /** What `Filter` keeps of the first element. */
  function Head<T>(s: seq<T>, keep: T -> bool): seq<T>
    requires s != []
  {
    if keep(s[0]) then [s[0]] else []
  }

  lemma FilterCons<T(!new)>(s: seq<T>, keep: T -> bool)
    requires s != []
    ensures Filter(s, keep) == Head(s, keep) + Filter(s[1..], keep)
  {
  }

  lemma FilterConsAppend<T(!new)>(a: seq<T>, b: seq<T>, keep: T -> bool)
    requires a != []
    ensures Filter(a + b, keep) == Head(a, keep) + Filter(a[1..] + b, keep)
  {
    var ab := a + b;
    assert ab[0] == a[0] && ab[1..] == a[1..] + b;
    FilterCons(ab, keep);
  }

  lemma Regroup<T>(h: seq<T>, x: seq<T>, y: seq<T>, hx: seq<T>, hxy: seq<T>)
    requires hxy == h + (x + y) && hx == h + x
    ensures hxy == hx + y
  {
  }

  /** Filtering works piece by piece; in particular it keeps the order of what it keeps. */
  lemma {:induction false} FilterAppend<T(!new)>(a: seq<T>, b: seq<T>, keep: T -> bool)
    ensures Filter(a + b, keep) == Filter(a, keep) + Filter(b, keep)
  {
    if a == [] {
      assert a + b == b;
    } else {
      FilterAppend(a[1..], b, keep);
      FilterConsAppend(a, b, keep);
      FilterCons(a, keep);
      Regroup(Head(a, keep), Filter(a[1..], keep), Filter(b, keep), Filter(a, keep), Filter(a + b, keep));
    }
  }

  /** `s.map(f)`. */
  function Map<A, B>(s: seq<A>, f: A -> B): seq<B> {
    seq(|s|, k requires 0 <= k < |s| => f(s[k]))
  }

  /** The first element of `a` occurs in any rearrangement `b` of `a`, and taking it out of both
      leaves two rearrangements of each other. */
  lemma PermSplit<T>(a: seq<T>, b: seq<T>) returns (i: nat)
    requires a != [] && multiset(a) == multiset(b)
    ensures i < |b| && b[i] == a[0] && b == b[..i] + [a[0]] + b[i + 1..]
    ensures multiset(a[1..]) == multiset(b[..i] + b[i + 1..])
  {
    assert a == [a[0]] + a[1..];
    assert a[0] in multiset(b);
    var j :| 0 <= j < |b| && b[j] == a[0];
    i := j;
    assert b == b[..i] + [a[0]] + b[i + 1..];
    assert multiset(b) == multiset(b[..i]) + multiset([a[0]]) + multiset(b[i + 1..]);
    assert multiset(a) == multiset([a[0]]) + multiset(a[1..]);
    assert multiset(b[..i] + b[i + 1..]) == multiset(b[..i]) + multiset(b[i + 1..]);
    assert multiset(a[1..]) == multiset(a) - multiset([a[0]]);
  }

  /** Mapping rearranged sequences gives rearranged sequences. */
  lemma {:induction false} MapPerm<A, B>(a: seq<A>, b: seq<A>, f: A -> B)
    requires multiset(a) == multiset(b)
    ensures multiset(Map(a, f)) == multiset(Map(b, f))
    decreases |a|
  {
    if a == [] {
      assert |b| == |multiset(b)| == 0;
      assert Map(b, f) == [];
    } else {
      var i := PermSplit(a, b);
      var l, r := b[..i], b[i + 1..];
      MapPerm(a[1..], l + r, f);
      assert Map(a, f) == [f(a[0])] + Map(a[1..], f);
      assert Map(b, f) == Map(l, f) + [f(a[0])] + Map(r, f);
      assert Map(l + r, f) == Map(l, f) + Map(r, f);
    }
  }
}
