/**
 * Sequence helpers shared by the whole model: filtering, mapping, flattening,
 * LINQ's `Except` (and `Distinct`, which is `Except` with nothing to exclude)
 * and LINQ's `GroupBy`. Every recursive definition peels the LAST element, so
 * that a loop which extends a result one element at a time matches it directly.
 */
module Seqs {
  function Last<T>(s: seq<T>): T
    requires |s| > 0
  {
    s[|s| - 1]
  }

  function DropLast<T>(s: seq<T>): seq<T>
    requires |s| > 0
  {
    s[..|s| - 1]
  }

  predicate NoDuplicates<T(==,!new)>(s: seq<T>) {
    forall i, j :: 0 <= i < j < |s| ==> s[i] != s[j]
  }

  lemma AppendNoDuplicates<T(!new)>(s: seq<T>, x: T)
    requires NoDuplicates(s) && x !in s
    ensures NoDuplicates(s + [x])
  {
  }

  /** LINQ `Where`: the elements satisfying `p`, in their original order. */
  function Filter<T(==,!new)>(s: seq<T>, p: T -> bool): (r: seq<T>)
    ensures |r| <= |s|
    ensures forall x {:trigger x in r} :: x in r <==> x in s && p(x)
  {
    if s == [] then []
    else
      assert s == DropLast(s) + [Last(s)];
      Filter(DropLast(s), p) + if p(Last(s)) then [Last(s)] else []
  }

  /** LINQ `Select`. */
  function Map<T, U>(s: seq<T>, f: T -> U): (r: seq<U>)
    ensures |r| == |s|
    ensures forall i :: 0 <= i < |s| ==> r[i] == f(s[i])
  {
    if s == [] then [] else Map(DropLast(s), f) + [f(Last(s))]
  }

  /** The members of a mapped sequence are the images of the members. */
  /** `Map` over a prefix one element longer. */
  lemma MapPrefixStep<T, U>(s: seq<T>, i: nat, f: T -> U)
    requires i < |s|
    ensures Map(s[..i + 1], f) == Map(s[..i], f) + [f(s[i])]
  {
    assert DropLast(s[..i + 1]) == s[..i] && Last(s[..i + 1]) == s[i];
  }

  lemma MapMembers<T, U>(s: seq<T>, f: T -> U)
    ensures forall m :: m in Map(s, f) <==> exists x :: x in s && f(x) == m
  {
    forall m | m in Map(s, f)
      ensures exists x :: x in s && f(x) == m
    {
      var k :| 0 <= k < |s| && Map(s, f)[k] == m;
      assert s[k] in s;
    }
  }

  /** Mapping a short sequence, spelled out. */
  lemma MapThree<T, U>(a: T, b: T, c: T, f: T -> U)
    ensures Map([a, b], f) == [f(a), f(b)]
    ensures Map([a, b, c], f) == [f(a), f(b), f(c)]
  {
    assert DropLast([a, b]) == [a] && DropLast([a]) == [];
    assert DropLast([a, b, c]) == [a, b];
  }

  /** LINQ `SelectMany` over the identity: the pieces one after the other. */
  function Flatten<T(==,!new)>(ss: seq<seq<T>>): (r: seq<T>)
    ensures forall x :: x in r <==> exists s :: s in ss && x in s
  {
    if ss == [] then []
    else
      assert ss == DropLast(ss) + [Last(ss)];
      Flatten(DropLast(ss)) + Last(ss)
  }

  function TotalLength<T>(ss: seq<seq<T>>): nat {
    if ss == [] then 0 else TotalLength(DropLast(ss)) + |Last(ss)|
  }

  /**
   * LINQ `Except`: the distinct elements of `a` that are not in `b`, each at the
   * position of its first occurrence in `a`.
   */
  function Except<T(==,!new)>(a: seq<T>, b: seq<T>): (r: seq<T>)
    ensures forall x :: x in r <==> x in a && x !in b
    ensures NoDuplicates(r)
  {
    if a == [] then []
    else
      var r0, x := Except(DropLast(a), b), Last(a);
      assert a == DropLast(a) + [x];
      if x in b || x in DropLast(a) then r0 else AppendNoDuplicates(r0, x); r0 + [x]
  }

  /** LINQ `Distinct`: `Except` with nothing to exclude. */
  function Distinct<T(==,!new)>(a: seq<T>): seq<T> {
    Except(a, [])
  }

  /** LINQ `GroupBy`: the elements of `xs` with key `k`, in their original order. */
  function KeyGroup<T(==,!new), K(==,!new)>(xs: seq<T>, key: T -> K, k: K): seq<T> {
    Filter(xs, HasKey(key, k))
  }

  /** The elements whose key is `k`. */
  function HasKey<T, K(==)>(key: T -> K, k: K): T -> bool {
    x => key(x) == k
  }

  /** LINQ `GroupBy`: one group per distinct key, in first-occurrence order of the keys. */
  function GroupBy<T(==,!new), K(==,!new)>(xs: seq<T>, key: T -> K): seq<seq<T>> {
    Map(Distinct(Map(xs, key)), k => KeyGroup(xs, key, k))
  }

  /** A group with more than one member. */
  predicate Several<T>(g: seq<T>) {
    |g| > 1
  }

  /** The elements of the groups with more than one member, group after group. */
  function RepeatedKeyMembers<T(==,!new), K(==,!new)>(xs: seq<T>, key: T -> K): seq<T> {
    Flatten(Filter(GroupBy(xs, key), Several))
  }

  // ---------------------------------------------------------------- Filter

  /** Filtering distributes over concatenation, so it keeps relative order. */
  lemma {:induction false} FilterConcat<T(!new)>(a: seq<T>, b: seq<T>, p: T -> bool)
    ensures Filter(a + b, p) == Filter(a, p) + Filter(b, p)
  {
    if b != [] {
      var ab := a + b;
      assert ab != [] && DropLast(ab) == a + DropLast(b) && Last(ab) == Last(b);
      var tail := if p(Last(b)) then [Last(b)] else [];
      calc {
        Filter(ab, p);
        Filter(a + DropLast(b), p) + tail;
        { FilterConcat(a, DropLast(b), p); }
        Filter(a, p) + Filter(DropLast(b), p) + tail;
        Filter(a, p) + (Filter(DropLast(b), p) + tail);
      }
    } else {
      assert a + b == a;
    }
  }

  /** Every element is kept by `p` or by its negation, never both. */
  lemma {:induction false} FilterComplementLength<T(!new)>(s: seq<T>, p: T -> bool)
    ensures |Filter(s, p)| + |Filter(s, x => !p(x))| == |s|
  {
    if s != [] {
      FilterComplementLength(DropLast(s), p);
    }
  }

  lemma {:induction false} FilterNoDuplicates<T(!new)>(s: seq<T>, p: T -> bool)
    requires NoDuplicates(s)
    ensures NoDuplicates(Filter(s, p))
  {
    if s != [] {
      assert s == DropLast(s) + [Last(s)];
      FilterNoDuplicates(DropLast(s), p);
      if p(Last(s)) {
        AppendNoDuplicates(Filter(DropLast(s), p), Last(s));
      }
    }
  }

  lemma {:induction false} FilterKeepsAll<T(!new)>(s: seq<T>, p: T -> bool)
    requires forall i :: 0 <= i < |s| ==> p(s[i])
    ensures Filter(s, p) == s
  {
    if s != [] {
      var d := DropLast(s);
      assert forall i :: 0 <= i < |d| ==> d[i] == s[i];
      FilterKeepsAll(d, p);
      assert p(s[|s| - 1]);
      assert s == d + [Last(s)];
    }
  }

  /** Filtering one more element at the end. */
  lemma FilterSnoc<T(!new)>(s: seq<T>, x: T, p: T -> bool)
    ensures Filter(s + [x], p) == Filter(s, p) + if p(x) then [x] else []
  {
    assert DropLast(s + [x]) == s && Last(s + [x]) == x;
  }

  /** Filtering five elements, spelled out. */
  lemma FilterFive<T(!new)>(a: T, b: T, c: T, d: T, e: T, p: T -> bool)
    ensures Filter([a, b, c, d, e], p) ==
      (if p(a) then [a] else []) + (if p(b) then [b] else []) + (if p(c) then [c] else []) +
      (if p(d) then [d] else []) + (if p(e) then [e] else [])
  {
    FilterSnoc([], a, p);
    assert [] + [a] == [a];
    FilterSnoc([a], b, p);
    assert [a] + [b] == [a, b];
    FilterSnoc([a, b], c, p);
    assert [a, b] + [c] == [a, b, c];
    FilterSnoc([a, b, c], d, p);
    assert [a, b, c] + [d] == [a, b, c, d];
    FilterSnoc([a, b, c, d], e, p);
    assert [a, b, c, d] + [e] == [a, b, c, d, e];
  }

  /** Filters that agree on the elements give the same result. */
  lemma {:induction false} FilterExtensional<T(!new)>(s: seq<T>, p: T -> bool, q: T -> bool)
    requires forall i :: 0 <= i < |s| ==> p(s[i]) == q(s[i])
    ensures Filter(s, p) == Filter(s, q)
  {
    if s != [] {
      var d := DropLast(s);
      assert forall i :: 0 <= i < |d| ==> d[i] == s[i];
      FilterExtensional(d, p, q);
      assert p(s[|s| - 1]) == q(s[|s| - 1]);
    }
  }

  /** The conjunction of two conditions. */
  function Both<T>(p: T -> bool, q: T -> bool): T -> bool {
    x => p(x) && q(x)
  }

  /** Filtering twice is filtering once by both conditions. */
  lemma {:induction false} FilterFilter<T(!new)>(s: seq<T>, p: T -> bool, q: T -> bool)
    ensures Filter(Filter(s, p), q) == Filter(s, Both(p, q))
  {
    if s != [] {
      var x, d := Last(s), DropLast(s);
      var tail := if p(x) then [x] else [];
      FilterConcat(Filter(d, p), tail, q);
      FilterFilter(d, p, q);
      if p(x) {
        assert tail != [] && DropLast(tail) == [] && Last(tail) == x;
        assert Filter(tail, q) == if q(x) then [x] else [];
      } else {
        assert Filter(Filter(s, p), q) == Filter(Filter(d, p), q);
      }
    }
  }

  /** The negation of a condition. */
  function Not<T>(p: T -> bool): T -> bool {
    x => !p(x)
  }

  /** Filtering one more element at the front. */
  lemma FilterCons<T(!new)>(x: T, s: seq<T>, p: T -> bool)
    ensures Filter([x] + s, p) == (if p(x) then [x] else []) + Filter(s, p)
  {
    FilterConcat([x], s, p);
    FilterSnoc([], x, p);
    assert [] + [x] == [x];
  }

  // ---------------------------------------------------------------- List.Remove

  /** `List.Remove`: drops the first element equal to `x`; without one, nothing changes. */
  function RemoveFirst<T(==)>(s: seq<T>, x: T): seq<T> {
    if s == [] then []
    else if s[0] == x then s[1..]
    else [s[0]] + RemoveFirst(s[1..], x)
  }

  /** `List.Remove` on each of `rs`, in order. */
  function RemoveEach<T(==)>(s: seq<T>, rs: seq<T>): seq<T>
    decreases |rs|
  {
    if rs == [] then s else RemoveEach(RemoveFirst(s, rs[0]), rs[1..])
  }

  /** Removals that never match the head leave it in front. */
  lemma {:induction false} RemoveEachSkipsHead<T(!new)>(x: T, t: seq<T>, rs: seq<T>)
    requires forall i :: 0 <= i < |rs| ==> rs[i] != x
    ensures RemoveEach([x] + t, rs) == [x] + RemoveEach(t, rs)
    decreases |rs|
  {
    if rs != [] {
      assert ([x] + t)[0] == x && ([x] + t)[1..] == t;
      assert RemoveFirst([x] + t, rs[0]) == [x] + RemoveFirst(t, rs[0]);
      RemoveEachSkipsHead(x, RemoveFirst(t, rs[0]), rs[1..]);
    }
  }

  /**
   * Removing, one `List.Remove` at a time, every element that satisfies `p`
   * leaves exactly the others, in order.
   */
  lemma {:induction false} RemoveEachOfFilter<T(!new)>(s: seq<T>, p: T -> bool)
    ensures RemoveEach(s, Filter(s, p)) == Filter(s, Not(p))
    decreases |s|
  {
    if s != [] {
      var x, t := s[0], s[1..];
      assert s == [x] + t;
      FilterCons(x, t, p);
      FilterCons(x, t, Not(p));
      RemoveEachOfFilter(t, p);
      var rs := Filter(t, p);
      if p(x) {
        assert Filter(s, p) == [x] + rs;
        assert RemoveFirst(s, x) == t;
        assert ([x] + rs)[1..] == rs;
      } else {
        assert Filter(s, p) == rs;
        forall i | 0 <= i < |rs|
          ensures rs[i] != x
        {
          assert rs[i] in rs;
        }
        RemoveEachSkipsHead(x, t, rs);
      }
    }
  }

  // ---------------------------------------------------------------- Flatten

  lemma {:induction false} FlattenLength<T(!new)>(ss: seq<seq<T>>)
    ensures |Flatten(ss)| == TotalLength(ss)
  {
    if ss != [] {
      FlattenLength(DropLast(ss));
    }
  }

  /** Flattening a mapped sequence, one element at a time from the end. */
  lemma FlattenMapLast<T, U(!new)>(s: seq<T>, f: T -> seq<U>)
    requires |s| > 0
    ensures Flatten(Map(s, f)) == Flatten(Map(DropLast(s), f)) + f(Last(s))
  {
    var m := Map(s, f);
    assert DropLast(m) == Map(DropLast(s), f) && Last(m) == f(Last(s));
  }

  lemma {:induction false} FlattenConcat<T(!new)>(a: seq<seq<T>>, b: seq<seq<T>>)
    ensures Flatten(a + b) == Flatten(a) + Flatten(b)
  {
    if b != [] {
      var ab := a + b;
      assert ab != [] && DropLast(ab) == a + DropLast(b) && Last(ab) == Last(b);
      calc {
        Flatten(ab);
        Flatten(a + DropLast(b)) + Last(b);
        { FlattenConcat(a, DropLast(b)); }
        Flatten(a) + Flatten(DropLast(b)) + Last(b);
        Flatten(a) + (Flatten(DropLast(b)) + Last(b));
      }
    } else {
      assert a + b == a;
    }
  }

  // ---------------------------------------------------------------- Except

  /**
   * The order of `Except` is that of first occurrence: the result for any prefix
   * of `a` is a prefix of the result for `a`.
   */
  lemma {:induction false} ExceptPrefix<T(!new)>(a: seq<T>, b: seq<T>, n: nat)
    requires n <= |a|
    ensures Except(a[..n], b) <= Except(a, b)
  {
    if n < |a| {
      assert a[..n] == DropLast(a)[..n];
      ExceptPrefix(DropLast(a), b, n);
    } else {
      assert a[..n] == a;
    }
  }

  /** `Except` is `Distinct` after `Where`. */
  lemma {:induction false} ExceptIsDistinctOfFilter<T(!new)>(a: seq<T>, b: seq<T>)
    ensures Except(a, b) == Distinct(Filter(a, x => x !in b))
  {
    if a != [] {
      var p := x => x !in b;
      ExceptIsDistinctOfFilter(DropLast(a), b);
      var x, f0 := Last(a), Filter(DropLast(a), p);
      if p(x) {
        var f := f0 + [x];
        assert Filter(a, p) == f;
        assert f != [] && DropLast(f) == f0 && Last(f) == x;
        assert x in f0 <==> x in DropLast(a);
        assert Distinct(f) == if x in DropLast(f) then Distinct(f0) else Distinct(f0) + [x];
      } else {
        assert Filter(a, p) == f0;
      }
    }
  }

  /** On a duplicate-free sequence `Except` only filters. */
  lemma {:induction false} ExceptOfDistinct<T(!new)>(a: seq<T>, b: seq<T>)
    requires NoDuplicates(a)
    ensures Except(a, b) == Filter(a, x => x !in b)
  {
    if a != [] {
      assert a == DropLast(a) + [Last(a)];
      assert Last(a) !in DropLast(a);
      ExceptOfDistinct(DropLast(a), b);
    }
  }

  /** Excluding everything that occurs leaves nothing; in particular `Except(a, a) == []`. */
  lemma {:induction false} ExceptOfCovered<T(!new)>(a: seq<T>, b: seq<T>)
    requires forall i :: 0 <= i < |a| ==> a[i] in b
    ensures Except(a, b) == []
  {
    if a != [] {
      ExceptOfCovered(DropLast(a), b);
      assert Last(a) in b;
    }
  }

  /** `Except` collapses repeats even when nothing is excluded. */
  lemma DistinctCollapsesRepeats<T(!new)>(x: T)
    ensures Except([x, x], []) == [x]
  {
    assert DropLast([x]) == [];
    assert Except([x], []) == [x];
    assert DropLast([x, x]) == [x];
  }

  // ---------------------------------------------------------------- GroupBy

  /** Group `i` of `GroupBy` on its own: the `KeyGroup` of the `i`-th distinct key, non-empty. */
  lemma GroupMembership<T(!new), K(!new)>(xs: seq<T>, key: T -> K, i: nat)
    requires i < |GroupBy(xs, key)|
    ensures var k := Distinct(Map(xs, key))[i];
      GroupBy(xs, key)[i] == KeyGroup(xs, key, k) && |GroupBy(xs, key)[i]| > 0 &&
      forall x :: x in GroupBy(xs, key)[i] <==> x in xs && key(x) == k
  {
    var ks, gs := Distinct(Map(xs, key)), GroupBy(xs, key);
    var k := ks[i];
    assert gs[i] == KeyGroup(xs, key, k);
    assert k in ks;
    var keys := Map(xs, key);
    var j :| 0 <= j < |keys| && keys[j] == k;
    assert xs[j] in gs[i];
  }

  /** The images of group `i` are the images of the elements with the group's key. */
  lemma MappedGroupMembers<T(!new), K(!new), U(!new)>(xs: seq<T>, key: T -> K, f: T -> U, i: nat)
    requires i < |GroupBy(xs, key)|
    ensures forall m :: m in Map(GroupBy(xs, key)[i], f) <==>
      exists x :: x in xs && key(x) == Distinct(Map(xs, key))[i] && f(x) == m
  {
    GroupMembership(xs, key, i);
    MapMembers(GroupBy(xs, key)[i], f);
  }

  /** `Distinct` of a non-empty run of one value is that value. */
  lemma {:induction false} DistinctOfConstant<T(!new)>(s: seq<T>, x: T)
    requires |s| > 0 && forall i :: 0 <= i < |s| ==> s[i] == x
    ensures Distinct(s) == [x]
  {
    if |s| == 1 {
      assert DropLast(s) == [] && Last(s) == x;
      assert Except(DropLast(s), []) == [];
    } else {
      DistinctOfConstant(DropLast(s), x);
      assert DropLast(s)[0] == Last(s);
    }
  }

  /** Elements that all share one key form a single group, in their order. */
  lemma GroupByOneKey<T(!new), K(!new)>(xs: seq<T>, key: T -> K)
    requires |xs| > 0 && forall i :: 0 <= i < |xs| ==> key(xs[i]) == key(xs[0])
    ensures GroupBy(xs, key) == [xs]
  {
    var k := key(xs[0]);
    DistinctOfConstant(Map(xs, key), k);
    FilterKeepsAll(xs, HasKey(key, k));
    assert |GroupBy(xs, key)| == 1;
  }

  /** Every element lies in the group of its key. */
  lemma GroupOfElement<T(!new), K(!new)>(xs: seq<T>, key: T -> K, x: T)
    requires x in xs
    ensures exists i :: 0 <= i < |GroupBy(xs, key)| && x in GroupBy(xs, key)[i]
  {
    var ks := Distinct(Map(xs, key));
    var j :| 0 <= j < |xs| && xs[j] == x;
    assert Map(xs, key)[j] == key(x);
    assert key(x) in ks;
    var i :| 0 <= i < |ks| && ks[i] == key(x);
    GroupMembership(xs, key, i);
  }

  /**
   * The groups of `GroupBy` are non-empty, hold exactly the elements of their
   * own key, have pairwise different keys, and together hold every element.
   */
  lemma GroupByGroups<T(!new), K(!new)>(xs: seq<T>, key: T -> K)
    ensures var ks, gs := Distinct(Map(xs, key)), GroupBy(xs, key);
      |gs| == |ks| &&
      (forall i :: 0 <= i < |gs| ==> |gs[i]| > 0 && forall x :: x in gs[i] <==> x in xs && key(x) == ks[i]) &&
      (forall i, j :: 0 <= i < j < |ks| ==> ks[i] != ks[j]) &&
      (forall x :: x in xs ==> exists i :: 0 <= i < |gs| && x in gs[i])
  {
    var ks, gs := Distinct(Map(xs, key)), GroupBy(xs, key);
    forall i | 0 <= i < |gs|
      ensures |gs[i]| > 0 && forall x :: x in gs[i] <==> x in xs && key(x) == ks[i]
    {
      GroupMembership(xs, key, i);
    }
    forall x | x in xs
      ensures exists i :: 0 <= i < |gs| && x in gs[i]
    {
      GroupOfElement(xs, key, x);
    }
  }

  /** A member of a group with more than one member has more than one element with its key. */
  lemma RepeatedKeyMemberIsRepeated<T(!new), K(!new)>(xs: seq<T>, key: T -> K, x: T)
    requires x in RepeatedKeyMembers(xs, key)
    ensures x in xs && |KeyGroup(xs, key, key(x))| > 1
  {
    var gs := GroupBy(xs, key);
    var big := Filter(gs, Several);
    var g :| g in big && x in g;
    assert g in gs && Several(g);
    var i :| 0 <= i < |gs| && gs[i] == g;
    GroupMembership(xs, key, i);
  }

  /** An element with more than one element of its key lies in a group with more than one member. */
  lemma RepeatedIsRepeatedKeyMember<T(!new), K(!new)>(xs: seq<T>, key: T -> K, x: T)
    requires x in xs && |KeyGroup(xs, key, key(x))| > 1
    ensures x in RepeatedKeyMembers(xs, key)
  {
    var gs := GroupBy(xs, key);
    GroupOfElement(xs, key, x);
    var i :| 0 <= i < |gs| && x in gs[i];
    GroupMembership(xs, key, i);
    assert gs[i] == KeyGroup(xs, key, key(x));
    assert gs[i] in Filter(gs, Several);
  }

  /**
   * An element belongs to a group with more than one member exactly when
   * another element shares its key.
   */
  lemma RepeatedKeyMembersExactly<T(!new), K(!new)>(xs: seq<T>, key: T -> K)
    ensures forall x :: x in RepeatedKeyMembers(xs, key) <==> x in xs && |KeyGroup(xs, key, key(x))| > 1
  {
    forall x
      ensures x in RepeatedKeyMembers(xs, key) <==> x in xs && |KeyGroup(xs, key, key(x))| > 1
    {
      if x in RepeatedKeyMembers(xs, key) {
        RepeatedKeyMemberIsRepeated(xs, key, x);
      }
      if x in xs && |KeyGroup(xs, key, key(x))| > 1 {
        RepeatedIsRepeatedKeyMember(xs, key, x);
      }
    }
  }

  /**
   * Regrouping the members of the repeated keys of a duplicate-free sequence
   * gives groups of at least two elements.
   */
  lemma RepeatedGroupPair<T(!new), K(!new)>(xs: seq<T>, key: T -> K, i: nat)
    requires NoDuplicates(xs)
    requires i < |GroupBy(RepeatedKeyMembers(xs, key), key)|
    ensures |GroupBy(RepeatedKeyMembers(xs, key), key)[i]| >= 2
  {
    RepeatedKeyMembersExactly(xs, key);
    PairFromRepeatedKey(xs, RepeatedKeyMembers(xs, key), key, i);
  }

  lemma PairFromRepeatedKey<T(!new), K(!new)>(xs: seq<T>, rs: seq<T>, key: T -> K, i: nat)
    requires NoDuplicates(xs)
    requires forall x :: x in rs <==> x in xs && |KeyGroup(xs, key, key(x))| > 1
    requires i < |GroupBy(rs, key)|
    ensures |GroupBy(rs, key)[i]| >= 2
  {
    var g := GroupBy(rs, key)[i];
    GroupMembership(rs, key, i);
    var x := g[0];
    assert x in g;
    var kg := KeyGroup(xs, key, key(x));
    FilterNoDuplicates(xs, HasKey(key, key(x)));
    var y, z := kg[0], kg[1];
    assert y in kg && z in kg && y != z;
    assert y in g && z in g;
    TwoMembers(g, y, z);
  }

  lemma TwoMembers<T>(s: seq<T>, y: T, z: T)
    requires y in s && z in s && y != z
    ensures |s| >= 2
  {
    var j :| 0 <= j < |s| && s[j] == y;
    var k :| 0 <= k < |s| && s[k] == z;
    assert j != k;
  }
}
