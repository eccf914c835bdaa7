/** LINQ's `GroupBy` on a finite sequence: one group per distinct key, in
    the order the keys first occur, each holding the elements with that key
    in their original order. */
module Grouping {
  import opened Seqs

  datatype Group<K, X> = Group(key: K, members: seq<X>)

  /** The elements of `xs` whose key is `k`, in order. */
  function WithKey<K(==), X>(xs: seq<X>, key: X -> K, k: K): (r: seq<X>)
    ensures forall x | x in r :: x in xs && key(x) == k
    ensures forall x | x in xs && key(x) == k :: x in r
    ensures |r| <= |xs|
  {
    if xs == [] then []
    else if key(xs[0]) == k then [xs[0]] + WithKey(xs[1..], key, k)
    else WithKey(xs[1..], key, k)
  }

  /** The key of every element, in order. */
  function KeysOf<K, X>(xs: seq<X>, key: X -> K): (r: seq<K>)
    ensures |r| == |xs| && forall i | 0 <= i < |xs| :: r[i] == key(xs[i])
  {
    seq(|xs|, i requires 0 <= i < |xs| => key(xs[i]))
  }

  /** The distinct keys, in order of first occurrence. */
  function Keys<K(==), X>(xs: seq<X>, key: X -> K): (r: seq<K>)
    ensures NoDup(r)
    ensures forall k | k in r :: exists x | x in xs :: key(x) == k
    ensures forall x | x in xs :: key(x) in r
  {
    var all := KeysOf(xs, key);
    var r := Distinct(all);
    assert Elements(r) == Elements(all);
    assert forall k | k in r :: k in Elements(r);
    assert forall k | k in all :: k in Elements(all);
    assert forall x | x in xs :: key(x) in all by {
      forall x | x in xs ensures key(x) in all {
        var i :| 0 <= i < |xs| && xs[i] == x;
        assert all[i] == key(x);
      }
    }
    assert forall k | k in all :: exists x | x in xs :: key(x) == k by {
      forall k | k in all ensures exists x | x in xs :: key(x) == k {
        var i :| 0 <= i < |all| && all[i] == k;
        assert xs[i] in xs;
      }
    }
    r
  }

  /** One group per key of `ks`, in that order. */
  function GroupsFor<K(==), X>(xs: seq<X>, key: X -> K, ks: seq<K>): (r: seq<Group<K, X>>)
    ensures |r| == |ks|
    ensures forall i | 0 <= i < |ks| :: r[i] == Group(ks[i], WithKey(xs, key, ks[i]))
  {
    if ks == [] then [] else [Group(ks[0], WithKey(xs, key, ks[0]))] + GroupsFor(xs, key, ks[1..])
  }

  /** `xs.GroupBy(key)`. */
  function GroupBy<K(==), X>(xs: seq<X>, key: X -> K): (r: seq<Group<K, X>>)
    ensures |r| == |Keys(xs, key)|
    ensures forall i | 0 <= i < |r| :: r[i].key == Keys(xs, key)[i]
    ensures forall i, j | 0 <= i < j < |r| :: r[i].key != r[j].key
    ensures forall i | 0 <= i < |r| :: r[i].members == WithKey(xs, key, r[i].key)
  {
    GroupsFor(xs, key, Keys(xs, key))
  }

  /** The sum of `w` over the members of every group. */
  function GroupsSum<K, X>(gs: seq<Group<K, X>>, w: X -> int): int {
    if gs == [] then 0 else Sum(gs[0].members, w) + GroupsSum(gs[1..], w)
  }

  /** The number of members over every group. */
  function GroupsCount<K, X>(gs: seq<Group<K, X>>): nat {
    if gs == [] then 0 else |gs[0].members| + GroupsCount(gs[1..])
  }

  /** The shape of the grouping: distinct keys, every element in exactly the
      group of its key, no empty group. */
  lemma GroupByShape<K, X>(xs: seq<X>, key: X -> K)
    ensures var gs := GroupBy(xs, key);
            && (forall i, j | 0 <= i < j < |gs| :: gs[i].key != gs[j].key)
            && (forall x | x in xs :: exists i | 0 <= i < |gs| :: gs[i].key == key(x))
            && (forall i | 0 <= i < |gs| :: |gs[i].members| > 0)
            && (forall i | 0 <= i < |gs| :: gs[i].members == WithKey(xs, key, gs[i].key))
  {
    var ks := Keys(xs, key);
    var gs := GroupBy(xs, key);
    forall x | x in xs ensures exists i | 0 <= i < |gs| :: gs[i].key == key(x) {
      assert key(x) in ks;
      var i :| 0 <= i < |ks| && ks[i] == key(x);
      assert gs[i].key == key(x);
    }
    forall i | 0 <= i < |gs| ensures |gs[i].members| > 0 {
      assert ks[i] in ks;
      var x :| x in xs && key(x) == ks[i];
      assert x in gs[i].members;
    }
  }

  /** Moving the first element out of every group of `ks`: it lands in the
      group of its own key, if that key is one of `ks`. */
  lemma {:induction false} GroupsSumFirst<K, X>(xs: seq<X>, key: X -> K, ks: seq<K>, w: X -> int)
    requires xs != []
    requires NoDup(ks)
    ensures GroupsSum(GroupsFor(xs, key, ks), w) ==
            GroupsSum(GroupsFor(xs[1..], key, ks), w) + (if key(xs[0]) in ks then w(xs[0]) else 0)
    decreases |ks|
  {
    if ks != [] {
      var x := xs[0];
      var head := WithKey(xs, key, ks[0]);
      var rest := WithKey(xs[1..], key, ks[0]);
      if key(x) == ks[0] {
        assert head == [x] + rest;
        assert ([x] + rest)[1..] == rest;
      }
      assert Sum(head, w) == Sum(rest, w) + (if key(x) == ks[0] then w(x) else 0);
      assert NoDup(ks[1..]) by {
        forall i, j | 0 <= i < j < |ks[1..]| ensures ks[1..][i] != ks[1..][j] {
          assert ks[1..][i] == ks[i + 1] && ks[1..][j] == ks[j + 1];
        }
      }
      GroupsSumFirst(xs, key, ks[1..], w);
      assert GroupsFor(xs, key, ks)[1..] == GroupsFor(xs, key, ks[1..]);
      assert GroupsFor(xs[1..], key, ks)[1..] == GroupsFor(xs[1..], key, ks[1..]);
      assert key(x) in ks <==> key(x) == ks[0] || key(x) in ks[1..];
      if key(x) == ks[0] {
        assert key(x) !in ks[1..] by {
          forall j | 0 <= j < |ks[1..]| ensures ks[1..][j] != key(x) {
            assert ks[1..][j] == ks[j + 1];
          }
        }
      }
    }
  }

  /** Summing over the groups of a key list that covers every element is
      summing over the elements: nothing is lost and nothing counted
      twice. */
  lemma {:induction false} GroupsSumCovers<K, X>(xs: seq<X>, key: X -> K, ks: seq<K>, w: X -> int)
    requires NoDup(ks)
    requires forall x | x in xs :: key(x) in ks
    ensures GroupsSum(GroupsFor(xs, key, ks), w) == Sum(xs, w)
    decreases |xs|
  {
    if xs == [] {
      EmptyGroupsSum(key, ks, w);
    } else {
      assert xs[0] in xs;
      assert forall x | x in xs[1..] :: x in xs;
      GroupsSumFirst(xs, key, ks, w);
      GroupsSumCovers(xs[1..], key, ks, w);
    }
  }

  lemma {:induction false} EmptyGroupsSum<K, X>(key: X -> K, ks: seq<K>, w: X -> int)
    ensures GroupsSum(GroupsFor([], key, ks), w) == 0
    decreases |ks|
  {
    if ks != [] {
      EmptyGroupsSum(key, ks[1..], w);
      assert GroupsFor([], key, ks)[1..] == GroupsFor([], key, ks[1..]);
    }
  }

  /** The group sums of `GroupBy` add up to the sum over all elements. */
  lemma GroupBySum<K, X>(xs: seq<X>, key: X -> K, w: X -> int)
    ensures GroupsSum(GroupBy(xs, key), w) == Sum(xs, w)
  {
    GroupsSumCovers(xs, key, Keys(xs, key), w);
  }

  function One<X>(x: X): int {
    1
  }

  lemma {:induction false} SumOne<X>(xs: seq<X>)
    ensures Sum(xs, One) == |xs|
    decreases |xs|
  {
    if xs != [] {
      SumOne(xs[1..]);
    }
  }

  lemma {:induction false} GroupsCountIsSumOne<K, X>(gs: seq<Group<K, X>>)
    ensures GroupsCount(gs) == GroupsSum(gs, One)
    decreases |gs|
  {
    if gs != [] {
      SumOne(gs[0].members);
      GroupsCountIsSumOne(gs[1..]);
    }
  }

  /** The group sizes add up to the number of elements. */
  lemma GroupByCount<K, X>(xs: seq<X>, key: X -> K)
    ensures GroupsCount(GroupBy(xs, key)) == |xs|
  {
    GroupBySum(xs, key, One);
    GroupsCountIsSumOne(GroupBy(xs, key));
    SumOne(xs);
  }

  /** A group's first member is the first element of `xs` with that key:
      the one at index `m`. */
  lemma {:induction false} FirstWithKey<K, X>(xs: seq<X>, key: X -> K, k: K, i: nat) returns (m: nat)
    requires i < |xs| && key(xs[i]) == k
    ensures m <= i && key(xs[m]) == k
    ensures forall j | 0 <= j < m :: key(xs[j]) != k
    ensures |WithKey(xs, key, k)| > 0 && WithKey(xs, key, k)[0] == xs[m]
    decreases i
  {
    if key(xs[0]) == k {
      m := 0;
    } else {
      var m' := FirstWithKey(xs[1..], key, k, i - 1);
      m := m' + 1;
      assert forall j | 1 <= j < m :: xs[j] == xs[1..][j - 1];
    }
  }
}
