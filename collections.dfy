/** Sequence helpers shared by the client and the backend models: the
    optional-value type, JavaScript's `Array.prototype.filter`, the
    first-occurrence de-duplication of `[...new Set(xs)]`, and counting. */
module Collections {

  datatype Option<T> = None | Some(value: T)

  /** A value or the error that replaced it (Go's `(value, err)` pair). */
  datatype Result<T, E> = Ok(value: T) | Err(error: E)

  /** No value occurs twice. */
  predicate NoDuplicates<T(==)>(s: seq<T>) {
    forall i, j :: 0 <= i < j < |s| ==> s[i] != s[j]
  }

  /** The elements of `s` that satisfy `p`, in their original order. */
  function Filter<T>(s: seq<T>, p: T -> bool): (r: seq<T>)
    ensures |r| <= |s|
  {
    if s == [] then []
    else Filter(s[..|s| - 1], p) + (if p(s[|s| - 1]) then [s[|s| - 1]] else [])
  }

  /** A prefix of a list is its head, then a prefix of its tail. */
  lemma PrefixCons<T>(xs: seq<T>, k: nat)
    requires k < |xs|
    ensures xs[..k + 1] == [xs[0]] + xs[1..][..k]
  {
  }

  lemma {:induction false} FilterMembership<T>(s: seq<T>, p: T -> bool, x: T)
    ensures x in Filter(s, p) <==> x in s && p(x)
  {
    if s != [] {
      FilterMembership(s[..|s| - 1], p, x);
      assert s == s[..|s| - 1] + [s[|s| - 1]];
    }
  }

  /** Filtering distributes over concatenation. */
  lemma {:induction false} FilterAppend<T>(a: seq<T>, b: seq<T>, p: T -> bool)
    ensures Filter(a + b, p) == Filter(a, p) + Filter(b, p)
  {
    if b == [] {
      assert a + b == a;
    } else {
      var b' := b[..|b| - 1];
      assert (a + b)[..|a + b| - 1] == a + b';
      FilterAppend(a, b', p);
    }
  }

  /** A filter that keeps every element is the identity. */
  lemma {:induction false} FilterKeepsAll<T>(s: seq<T>, p: T -> bool)
    requires forall x :: x in s ==> p(x)
    ensures Filter(s, p) == s
  {
    if s != [] {
      FilterKeepsAll(s[..|s| - 1], p);
    }
  }

  /** Filtering keeps the multiplicity of each kept value and drops the others. */
  lemma {:induction false} FilterMultiset<T>(s: seq<T>, p: T -> bool, x: T)
    ensures multiset(Filter(s, p))[x] == if p(x) then multiset(s)[x] else 0
  {
    if s != [] {
      var s' := s[..|s| - 1];
      FilterMultiset(s', p, x);
      assert s == s' + [s[|s| - 1]];
    }
  }

  /** Filtering preserves the absence of duplicates. */
  lemma {:induction false} FilterNoDuplicates<T>(s: seq<T>, p: T -> bool)
    requires NoDuplicates(s)
    ensures NoDuplicates(Filter(s, p))
  {
    if s != [] {
      var s' := s[..|s| - 1];
      var x := s[|s| - 1];
      FilterNoDuplicates(s', p);
      FilterMembership(s', p, x);
      assert x !in s' by {
        assert s == s' + [x];
      }
    }
  }

  /** The values `f` yields for the elements of `s`, in order, skipping the
      elements it yields nothing for. */
  function FilterMap<A, B>(s: seq<A>, f: A -> Option<B>): (r: seq<B>)
    ensures |r| <= |s|
  {
    if s == [] then []
    else
      var y := f(s[|s| - 1]);
      FilterMap(s[..|s| - 1], f) + (if y.Some? then [y.value] else [])
  }

  lemma {:induction false} FilterMapAppend<A, B>(a: seq<A>, b: seq<A>, f: A -> Option<B>)
    ensures FilterMap(a + b, f) == FilterMap(a, f) + FilterMap(b, f)
  {
    if b == [] {
      assert a + b == a;
    } else {
      assert (a + b)[..|a + b| - 1] == a + b[..|b| - 1];
      FilterMapAppend(a, b[..|b| - 1], f);
    }
  }

  lemma {:induction false} FilterMapMembership<A, B>(s: seq<A>, f: A -> Option<B>, y: B)
    ensures y in FilterMap(s, f) <==> exists i :: 0 <= i < |s| && f(s[i]) == Some(y)
  {
    if s != [] {
      var init := s[..|s| - 1];
      FilterMapMembership(init, f, y);
      assert forall i :: 0 <= i < |init| ==> init[i] == s[i];
      if f(s[|s| - 1]) == Some(y) {
        assert y in FilterMap(s, f);
      }
    }
  }

  /** `FilterMap` keeps, in order, exactly the elements `f` yields a value for. */
  lemma {:induction false} FilterMapKeeps<A, B>(s: seq<A>, f: A -> Option<B>)
    ensures |FilterMap(s, f)| == |Filter(s, (x: A) => f(x).Some?)|
    ensures forall i :: 0 <= i < |FilterMap(s, f)| ==>
      f(Filter(s, (x: A) => f(x).Some?)[i]) == Some(FilterMap(s, f)[i])
  {
    if s != [] {
      FilterMapKeeps(s[..|s| - 1], f);
    }
  }

  /** A function that yields a value wherever `f` does yields at least as many values. */
  lemma {:induction false} FilterMapCovers<A, B, C>(s: seq<A>, f: A -> Option<B>, g: A -> Option<C>)
    requires forall x :: f(x).Some? ==> g(x).Some?
    ensures |FilterMap(s, f)| <= |FilterMap(s, g)|
  {
    if s != [] {
      FilterMapCovers(s[..|s| - 1], f, g);
    }
  }

  /** The index of the first occurrence of `x` in `s`. */
  function FirstIndex<T(==)>(s: seq<T>, x: T): (k: nat)
    requires x in s
    ensures k < |s| && s[k] == x && x !in s[..k]
  {
    if s[0] == x then 0 else 1 + FirstIndex(s[1..], x)
  }

  /** The distinct values of `s`, each at the place of its first occurrence:
      what `[...new Set(s)]` yields in JavaScript. */
  function Distinct<T(==)>(s: seq<T>): (r: seq<T>)
  {
    if s == [] then []
    else
      var d := Distinct(s[..|s| - 1]);
      if s[|s| - 1] in d then d else d + [s[|s| - 1]]
  }

  lemma {:induction false} DistinctSpec<T>(s: seq<T>)
    ensures NoDuplicates(Distinct(s))
    ensures forall x :: x in Distinct(s) <==> x in s
    ensures forall i, j :: 0 <= i < j < |Distinct(s)| ==>
              FirstIndex(s, Distinct(s)[i]) < FirstIndex(s, Distinct(s)[j])
  {
    if s != [] {
      var s' := s[..|s| - 1];
      var x := s[|s| - 1];
      DistinctSpec(s');
      assert s == s' + [x];
      forall y | y in s'
        ensures FirstIndex(s, y) == FirstIndex(s', y)
      {
        FirstIndexPrefix(s', [x], y);
      }
      if x !in Distinct(s') {
        assert x !in s';
        assert FirstIndex(s, x) == |s'| by {
          assert s[..|s'|] == s';
        }
      }
    }
  }

  lemma {:induction false} FirstIndexPrefix<T>(a: seq<T>, b: seq<T>, x: T)
    requires x in a
    ensures FirstIndex(a + b, x) == FirstIndex(a, x)
  {
    if a[0] != x {
      assert (a + b)[1..] == a[1..] + b;
      FirstIndexPrefix(a[1..], b, x);
    }
  }

  /** How many elements of `s` satisfy `p`: `s.filter(p).length`. */
  function CountWhere<T>(s: seq<T>, p: T -> bool): (n: nat)
    ensures n <= |s|
  {
    |Filter(s, p)|
  }

  /** Counts of two predicates that never hold together add up to at most the length. */
  lemma {:induction false} CountDisjoint<T>(s: seq<T>, p: T -> bool, q: T -> bool)
    requires forall x :: !(p(x) && q(x))
    ensures CountWhere(s, p) + CountWhere(s, q) <= |s|
  {
    if s != [] {
      CountDisjoint(s[..|s| - 1], p, q);
    }
  }

  /** `CountWhere` is positive exactly when some element satisfies `p`. */
  lemma CountPositive<T>(s: seq<T>, p: T -> bool)
    ensures CountWhere(s, p) > 0 <==> exists x :: x in s && p(x)
  {
    if CountWhere(s, p) > 0 {
      var x := Filter(s, p)[0];
      FilterMembership(s, p, x);
    } else {
      forall x | x in s && p(x) ensures false {
        FilterMembership(s, p, x);
      }
    }
  }

  /** The images of the elements under `f`, concatenated in order. */
  function FlatMap<A, B>(xs: seq<A>, f: A -> seq<B>): seq<B>
    decreases |xs|
  {
    if xs == [] then [] else FlatMap(xs[..|xs| - 1], f) + f(xs[|xs| - 1])
  }

  /** A value is in the concatenation exactly when some element's image holds it. */
  lemma {:induction false} FlatMapMembership<A, B>(xs: seq<A>, f: A -> seq<B>, y: B)
    ensures y in FlatMap(xs, f) <==> exists x :: x in xs && y in f(x)
    decreases |xs|
  {
    if xs != [] {
      var init := xs[..|xs| - 1];
      var last := xs[|xs| - 1];
      FlatMapMembership(init, f, y);
      if y in FlatMap(init, f) {
        var x :| x in init && y in f(x);
        assert x in xs;
      }
      if exists x :: x in xs && y in f(x) {
        var x :| x in xs && y in f(x);
        if x != last {
          var k :| 0 <= k < |xs| && xs[k] == x;
          assert init[k] == x;
        }
      }
    }
  }

  lemma FlatMapSnoc<A, B>(xs: seq<A>, x: A, f: A -> seq<B>)
    ensures FlatMap(xs + [x], f) == FlatMap(xs, f) + f(x)
  {
    assert (xs + [x])[..|xs|] == xs;
  }

  /** The concatenation splits around any one element's image. */
  lemma {:induction false} FlatMapAt<A, B>(xs: seq<A>, p: nat, f: A -> seq<B>)
    requires p < |xs|
    ensures FlatMap(xs, f) == FlatMap(xs[..p], f) + f(xs[p]) + FlatMap(xs[p + 1..], f)
  {
    var pre, rest := xs[..p], xs[p + 1..];
    var upTo := xs[..p + 1];
    assert upTo == pre + [xs[p]];
    assert xs == upTo + rest;
    FlatMapAppend(upTo, rest, f);
    FlatMapSnoc(pre, xs[p], f);
  }

  /** The concatenation over two runs is the two concatenations joined. */
  lemma {:induction false} FlatMapAppend<A, B>(xs: seq<A>, ys: seq<A>, f: A -> seq<B>)
    ensures FlatMap(xs + ys, f) == FlatMap(xs, f) + FlatMap(ys, f)
    decreases |ys|
  {
    if ys == [] {
      assert xs + ys == xs;
    } else {
      var init := ys[..|ys| - 1];
      assert (xs + ys)[..|xs + ys| - 1] == xs + init;
      FlatMapAppend(xs, init, f);
    }
  }
}
