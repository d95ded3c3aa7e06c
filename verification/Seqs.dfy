/** Sequence vocabulary shared by the whole model: bounded suffixes (what a
    capacity-limited deque keeps), filters, and arbitrary enumerations of a set
    (what iterating a hash map or hash set yields). */
module Seqs {
  import opened Results

  function Last<T>(s: seq<T>): T
    requires s != []
  {
    s[|s| - 1]
  }

  function Front<T>(s: seq<T>): seq<T>
    requires s != []
  {
    s[..|s| - 1]
  }

  /** The newest n entries: what a deque of capacity n still holds. */
  function LastN<T>(n: nat, s: seq<T>): seq<T> {
    if |s| <= n then s else s[|s| - n..]
  }

  /** The first n entries, or all of them. */
  function Take<T>(n: int, s: seq<T>): seq<T> {
    if n <= 0 then [] else if n <= |s| then s[..n] else s
  }

  /** Truncating early and truncating late leave the same entries. */
  lemma LastNAppend<T>(n: nat, a: seq<T>, b: seq<T>)
    ensures LastN(n, LastN(n, a) + b) == LastN(n, a + b)
  {
    if |a| > n {
      assert LastN(n, a) + b == (a + b)[|a| - n..];
    }
  }

  predicate NoDup<T(==)>(s: seq<T>) {
    forall i, j :: 0 <= i < j < |s| ==> s[i] != s[j]
  }

  function Elements<T>(s: seq<T>): set<T> {
    set x | x in s
  }

  /** s lists every member of xs exactly once, in no particular order. */
  predicate Enumerates<T(==)>(s: seq<T>, xs: set<T>) {
    NoDup(s) && Elements(s) == xs
  }

  lemma NoDupCardinality<T>(s: seq<T>)
    requires NoDup(s)
    ensures |Elements(s)| == |s|
  {
    if s != [] {
      var f := Front(s);
      NoDupCardinality(f);
      assert s == f + [Last(s)];
      assert Elements(s) == Elements(f) + {Last(s)};
      assert Last(s) !in f;
    }
  }

  lemma EnumeratesBound<T>(s: seq<T>, xs: set<T>)
    requires NoDup(s) && Elements(s) <= xs
    ensures |s| <= |xs|
  {
    NoDupCardinality(s);
    SubsetCardinality(Elements(s), xs);
  }

  lemma SubsetCardinality<T>(a: set<T>, b: set<T>)
    requires a <= b
    ensures |a| <= |b|
    ensures a < b ==> |a| < |b|
  {
    assert b == a + (b - a);
    assert |b| == |a| + |b - a|;
  }

  /** Two enumerations of one set are permutations of each other. */
  lemma {:induction false} EnumerationsPermute<T>(a: seq<T>, b: seq<T>)
    requires NoDup(a) && NoDup(b) && Elements(a) == Elements(b)
    ensures multiset(a) == multiset(b)
  {
    NoDupMultiset(a);
    NoDupMultiset(b);
    assert forall x :: x in multiset(a) <==> x in Elements(a);
    assert forall x :: x in multiset(b) <==> x in Elements(b);
  }

  lemma {:induction false} NoDupMultiset<T>(s: seq<T>)
    requires NoDup(s)
    ensures forall x :: x in multiset(s) ==> multiset(s)[x] == 1
    ensures forall x :: x in multiset(s) <==> x in s
  {
    if s != [] {
      NoDupMultiset(Front(s));
      assert s == Front(s) + [Last(s)];
      assert Last(s) !in Front(s);
    }
  }

  /** Removing a's last entry from two permutations leaves permutations. */
  lemma TakeOut<T>(a: seq<T>, b: seq<T>) returns (i: nat)
    requires a != [] && multiset(a) == multiset(b)
    ensures i < |b| && b[i] == Last(a)
    ensures multiset(Front(a)) == multiset(b[..i] + b[i + 1..])
  {
    var x := Last(a);
    assert x in multiset(b);
    i :| 0 <= i < |b| && b[i] == x;
    Without(a, |a| - 1);
    Without(b, i);
    assert a[..|a| - 1] + a[|a|..] == Front(a);
    SameRest(multiset(Front(a)), multiset(b[..i] + b[i + 1..]), x);
  }

  lemma Without<T>(s: seq<T>, i: nat)
    requires i < |s|
    ensures multiset(s) == multiset(s[..i] + s[i + 1..]) + multiset{s[i]}
  {
    assert s == s[..i] + [s[i]] + s[i + 1..];
  }

  lemma SameRest<T>(a: multiset<T>, b: multiset<T>, x: T)
    requires a + multiset{x} == b + multiset{x}
    ensures a == b
  {
    assert a == a + multiset{x} - multiset{x};
    assert b == b + multiset{x} - multiset{x};
  }

  /** The entries satisfying p, in their original order. */
  function Filter<T(!new)>(p: T -> bool, s: seq<T>): (r: seq<T>)
    ensures |r| <= |s|
    ensures forall x :: x in r <==> x in s && p(x)
  {
    if s == [] then []
    else if p(Last(s)) then Filter(p, Front(s)) + [Last(s)]
    else Filter(p, Front(s))
  }

  lemma {:induction false} FilterAppend<T(!new)>(p: T -> bool, a: seq<T>, b: seq<T>)
    ensures Filter(p, a + b) == Filter(p, a) + Filter(p, b)
  {
    if b == [] {
      assert a + b == a;
    } else {
      FilterAppend(p, a, Front(b));
      assert Front(a + b) == a + Front(b);
      assert Last(a + b) == Last(b);
      if p(Last(b)) {
        assert Filter(p, a + b) == Filter(p, a) + (Filter(p, Front(b)) + [Last(b)]);
      }
    }
  }

  /** Filtering keeps the multiplicity of what it keeps. */
  lemma {:induction false} FilterCount<T(!new)>(p: T -> bool, s: seq<T>, x: T)
    ensures multiset(Filter(p, s))[x] == if p(x) then multiset(s)[x] else 0
  {
    if s != [] {
      FilterCount(p, Front(s), x);
      assert s == Front(s) + [Last(s)];
    }
  }

  /** Filtering keeps the relative order: any two kept entries come from positions
      in the same order. */
  lemma {:induction false} FilterPositions<T(!new)>(p: T -> bool, s: seq<T>, i: nat, j: nat) returns (k: nat, l: nat)
    requires i < j < |Filter(p, s)|
    ensures k < l < |s| && Filter(p, s)[i] == s[k] && Filter(p, s)[j] == s[l]
  {
    var f := Filter(p, Front(s));
    if j < |f| {
      k, l := FilterPositions(p, Front(s), i, j);
    } else {
      assert f[i] in f;
      k :| 0 <= k < |s| - 1 && s[k] == f[i];
      l := |s| - 1;
    }
  }

  /** A filter implied by the one wanted changes nothing. */
  lemma {:induction false} FilterTwice<T(!new)>(p: T -> bool, q: T -> bool, s: seq<T>)
    requires forall x :: x in s && p(x) ==> q(x)
    ensures Filter(p, Filter(q, s)) == Filter(p, s)
  {
    if s != [] {
      assert forall x :: x in Front(s) ==> x in s;
      assert Last(s) in s;
      FilterTwice(p, q, Front(s));
      var f := Filter(q, Front(s));
      if q(Last(s)) {
        assert Front(f + [Last(s)]) == f;
      }
    }
  }

  lemma {:induction false} FilterAll<T(!new)>(p: T -> bool, s: seq<T>)
    requires forall x :: x in s ==> p(x)
    ensures Filter(p, s) == s
  {
    if s != [] {
      assert forall i :: 0 <= i < |s| ==> p(s[i]);
      assert Last(s) in s;
      FilterAll(p, Front(s));
      assert s == Front(s) + [Last(s)];
    }
  }

  lemma {:induction false} FilterNone<T(!new)>(p: T -> bool, s: seq<T>)
    requires forall x :: x in s ==> !p(x)
    ensures Filter(p, s) == []
  {
    if Filter(p, s) != [] {
      assert Filter(p, s)[0] in Filter(p, s);
    }
  }

  /** The position of the first entry satisfying p, as `Iterator::find` meets it. */
  function FirstIndex<T>(p: T -> bool, s: seq<T>): (r: Option<nat>)
    ensures r.Some? ==> r.value < |s| && p(s[r.value]) && forall j :: 0 <= j < r.value ==> !p(s[j])
    ensures r.None? ==> forall j :: 0 <= j < |s| ==> !p(s[j])
  {
    if s == [] then None
    else match FirstIndex(p, Front(s))
      case Some(i) => Some(i)
      case None => if p(Last(s)) then Some(|s| - 1) else None
  }

  /** The position of the last entry satisfying p, as `Iterator::rfind` meets it. */
  function LastIndex<T>(p: T -> bool, s: seq<T>): (r: Option<nat>)
    ensures r.Some? ==> r.value < |s| && p(s[r.value]) && forall j :: r.value < j < |s| ==> !p(s[j])
    ensures r.None? ==> forall j :: 0 <= j < |s| ==> !p(s[j])
  {
    if s == [] then None
    else if p(Last(s)) then Some(|s| - 1)
    else LastIndex(p, Front(s))
  }

  function Find<T>(p: T -> bool, s: seq<T>): Option<T> {
    match FirstIndex(p, s) case Some(i) => Some(s[i]) case None => None
  }

  function RFind<T>(p: T -> bool, s: seq<T>): Option<T> {
    match LastIndex(p, s) case Some(i) => Some(s[i]) case None => None
  }

  /** The first match gains a candidate at the end only if there was none. */
  lemma FindNext<T(!new)>(p: T -> bool, s: seq<T>, x: T)
    ensures Find(p, s + [x]) == if Find(p, s).Some? then Find(p, s) else if p(x) then Some(x) else None
    ensures RFind(p, s + [x]) == if p(x) then Some(x) else RFind(p, s)
  {
    assert Front(s + [x]) == s;
  }

  /** Searching the filtered entries is searching all entries for both conditions. */
  lemma {:induction false} FindInFilter<T(!new)>(p: T -> bool, q: T -> bool, s: seq<T>)
    ensures Find(q, Filter(p, s)) == Find(x => p(x) && q(x), s)
    ensures RFind(q, Filter(p, s)) == RFind(x => p(x) && q(x), s)
  {
    if s != [] {
      var both := x => p(x) && q(x);
      hide Find, RFind, FirstIndex, LastIndex;
      FindInFilter(p, q, Front(s));
      assert s == Front(s) + [Last(s)];
      FindNext(both, Front(s), Last(s));
      FindNext(q, Filter(p, Front(s)), Last(s));
    }
  }

  predicate Contains<T(==)>(s: seq<T>, part: seq<T>) {
    part <= s || (s != [] && Contains(s[1..], part))
  }

  /** Iterates a hash set, or the keys of a hash map, in whatever order it yields. */
  method Iterate<T(==)>(xs: set<T>) returns (order: seq<T>)
    ensures Enumerates(order, xs)
  {
    order := [];
    var todo := xs;
    while todo != {}
      invariant NoDup(order) && Elements(order) == xs - todo && todo <= xs
      decreases todo
    {
      var x :| x in todo;
      todo := todo - {x};
      assert x !in Elements(order);
      assert Elements(order + [x]) == Elements(order) + {x};
      order := order + [x];
    }
  }
}
