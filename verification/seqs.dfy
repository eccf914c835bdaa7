/** Sequence helpers shared by the model: duplicate-freedom, the set-union
    semantics of LINQ's `Union`, and weighted sums. */
module Seqs {

  /** No element occurs twice. */
  predicate NoDup<T(==)>(s: seq<T>) {
    forall i, j | 0 <= i < j < |s| :: s[i] != s[j]
  }

  function Elements<T>(s: seq<T>): set<T> {
    set x | x in s
  }

  /** The elements of `s` that are not in `seen`, each once, in the order of
      their first occurrence: what enumerating a hash-set-backed LINQ
      operator yields when `seen` was already produced. */
  function DistinctFrom<T(==)>(s: seq<T>, seen: set<T>): (r: seq<T>)
    ensures NoDup(r)
    ensures Elements(r) == Elements(s) - seen
  {
    if s == [] then []
    else if s[0] in seen then DistinctFrom(s[1..], seen)
    else
      var rest := DistinctFrom(s[1..], seen + {s[0]});
      assert Elements(s) == {s[0]} + Elements(s[1..]);
      assert Elements([s[0]] + rest) == {s[0]} + Elements(rest);
      [s[0]] + rest
  }

  function Distinct<T(==)>(s: seq<T>): seq<T> {
    DistinctFrom(s, {})
  }

  /** A single element is distinct. */
  lemma DistinctSingleton<T>(x: T)
    ensures Distinct([x]) == [x]
  {
    var empty: set<T> := {};
    assert [x][1..] == [] && empty + {x} == {x};
    assert DistinctFrom([x][1..], {x}) == [];
  }

  /** LINQ's `a.Union(b)`: every element of `a` or `b` exactly once, those of
      `a` first, each in order of first occurrence. */
  function Union<T(==)>(a: seq<T>, b: seq<T>): (r: seq<T>)
    ensures NoDup(r)
    ensures Elements(r) == Elements(a) + Elements(b)
  {
    assert Elements(a + b) == Elements(a) + Elements(b);
    Distinct(a + b)
  }

  lemma {:induction false} DistinctFromAppend<T>(a: seq<T>, b: seq<T>, seen: set<T>)
    ensures DistinctFrom(a + b, seen) == DistinctFrom(a, seen) + DistinctFrom(b, seen + Elements(a))
    decreases |a|
  {
    if a == [] {
      assert a + b == b;
      assert seen + Elements(a) == seen;
    } else {
      var ab := a + b;
      assert ab[0] == a[0];
      assert ab[1..] == a[1..] + b;
      assert Elements(a) == {a[0]} + Elements(a[1..]);
      if a[0] in seen {
        DistinctFromAppend(a[1..], b, seen);
        assert seen + Elements(a[1..]) == seen + Elements(a);
      } else {
        DistinctFromAppend(a[1..], b, seen + {a[0]});
        assert seen + {a[0]} + Elements(a[1..]) == seen + Elements(a);
        calc {
          DistinctFrom(ab, seen);
          [a[0]] + DistinctFrom(a[1..] + b, seen + {a[0]});
          [a[0]] + (DistinctFrom(a[1..], seen + {a[0]}) + DistinctFrom(b, seen + Elements(a)));
          ([a[0]] + DistinctFrom(a[1..], seen + {a[0]})) + DistinctFrom(b, seen + Elements(a));
        }
      }
    }
  }

  /** A duplicate-free sequence disjoint from `seen` passes through unchanged. */
  lemma {:induction false} DistinctFromNoDup<T>(s: seq<T>, seen: set<T>)
    requires NoDup(s)
    requires Elements(s) !! seen
    ensures DistinctFrom(s, seen) == s
    decreases |s|
  {
    if s != [] {
      assert s[0] !in Elements(s[1..]) by {
        assert forall k | 0 <= k < |s[1..]| :: s[1..][k] == s[k + 1] != s[0];
      }
      assert Elements(s) == {s[0]} + Elements(s[1..]);
      DistinctFromNoDup(s[1..], seen + {s[0]});
      assert [s[0]] + s[1..] == s;
    }
  }

  /** When `a` has no duplicates, `Union(a, b)` is `a` followed by the new
      elements of `b`: every element of `a` keeps its position. */
  lemma UnionKeepsFirst<T>(a: seq<T>, b: seq<T>)
    requires NoDup(a)
    ensures Union(a, b) == a + DistinctFrom(b, Elements(a))
  {
    DistinctFromAppend(a, b, {});
    DistinctFromNoDup(a, {});
    assert {} + Elements(a) == Elements(a);
  }

  /** The sum of `w` over `xs`. */
  function Sum<X>(xs: seq<X>, w: X -> int): int {
    if xs == [] then 0 else w(xs[0]) + Sum(xs[1..], w)
  }

  lemma {:induction false} SumAppend<X>(a: seq<X>, b: seq<X>, w: X -> int)
    ensures Sum(a + b, w) == Sum(a, w) + Sum(b, w)
    decreases |a|
  {
    if a == [] {
      assert a + b == b;
    } else {
      assert (a + b)[0] == a[0];
      assert (a + b)[1..] == a[1..] + b;
      SumAppend(a[1..], b, w);
    }
  }
}
