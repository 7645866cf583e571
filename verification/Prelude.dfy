/** Options, and sums and filters over sequences, the way SQL aggregates read a table. */
module Prelude {
  datatype Option<+T> = None | Some(value: T)

  /** A remote call works, fails before taking effect, or takes effect and loses its reply. */
  datatype CallFault = Works | Fails | LosesReply

  function Pow2(n: nat): (p: nat)
    ensures p >= 1
  {
    if n == 0 then 1 else 2 * Pow2(n - 1)
  }

  /** The sum of `weight` over `xs`. */
  function SumOf<T>(xs: seq<T>, weight: T -> int): int {
    if xs == [] then 0 else SumOf(xs[..|xs| - 1], weight) + weight(xs[|xs| - 1])
  }

  /** The elements of `xs` satisfying `keep`, in order. */
  function Filter<T>(xs: seq<T>, keep: T -> bool): seq<T> {
    if xs == [] then []
    else
      var rest := Filter(xs[..|xs| - 1], keep);
      if keep(xs[|xs| - 1]) then rest + [xs[|xs| - 1]] else rest
  }

  lemma SumSnoc<T>(xs: seq<T>, x: T, weight: T -> int)
    ensures SumOf(xs + [x], weight) == SumOf(xs, weight) + weight(x)
  {
    assert (xs + [x])[..|xs|] == xs;
  }

  lemma {:induction false} SumAppend<T>(xs: seq<T>, ys: seq<T>, weight: T -> int)
    ensures SumOf(xs + ys, weight) == SumOf(xs, weight) + SumOf(ys, weight)
  {
    if ys == [] {
      assert xs + ys == xs;
    } else {
      SumAppend(xs, ys[..|ys| - 1], weight);
      assert (xs + ys)[..|xs + ys| - 1] == xs + ys[..|ys| - 1];
    }
  }

  lemma {:induction false} SumUpdate<T>(xs: seq<T>, i: nat, y: T, weight: T -> int)
    requires i < |xs|
    ensures SumOf(xs[i := y], weight) == SumOf(xs, weight) - weight(xs[i]) + weight(y)
  {
    var n := |xs| - 1;
    if i == n {
      assert xs[i := y][..n] == xs[..n];
    } else {
      SumUpdate(xs[..n], i, y, weight);
      assert xs[i := y][..n] == xs[..n][i := y];
    }
  }

  /** Weights that agree on every element give the same sum. */
  lemma {:induction false} SumAgree<T>(xs: seq<T>, f: T -> int, g: T -> int)
    requires forall i :: 0 <= i < |xs| ==> f(xs[i]) == g(xs[i])
    ensures SumOf(xs, f) == SumOf(xs, g)
  {
    if xs != [] {
      SumAgree(xs[..|xs| - 1], f, g);
    }
  }

  /** A weight that is the sum of two weights gives the sum of the two sums. */
  lemma {:induction false} SumSplit<T>(xs: seq<T>, f: T -> int, g: T -> int, h: T -> int)
    requires forall i :: 0 <= i < |xs| ==> f(xs[i]) == g(xs[i]) + h(xs[i])
    ensures SumOf(xs, f) == SumOf(xs, g) + SumOf(xs, h)
  {
    if xs != [] {
      SumSplit(xs[..|xs| - 1], f, g, h);
    }
  }

  lemma {:induction false} FilterAppend<T>(xs: seq<T>, ys: seq<T>, keep: T -> bool)
    ensures Filter(xs + ys, keep) == Filter(xs, keep) + Filter(ys, keep)
  {
    if ys == [] {
      assert xs + ys == xs;
    } else {
      FilterAppend(xs, ys[..|ys| - 1], keep);
      assert (xs + ys)[..|xs + ys| - 1] == xs + ys[..|ys| - 1];
    }
  }

  lemma FilterSnoc<T>(xs: seq<T>, x: T, keep: T -> bool)
    ensures Filter(xs + [x], keep) == if keep(x) then Filter(xs, keep) + [x] else Filter(xs, keep)
  {
    assert (xs + [x])[..|xs|] == xs;
  }

  lemma {:induction false} FilterNone<T>(xs: seq<T>, keep: T -> bool)
    requires forall i :: 0 <= i < |xs| ==> !keep(xs[i])
    ensures Filter(xs, keep) == []
  {
    if xs != [] {
      FilterNone(xs[..|xs| - 1], keep);
    }
  }

  lemma {:induction false} FilterAll<T>(xs: seq<T>, keep: T -> bool)
    requires forall i :: 0 <= i < |xs| ==> keep(xs[i])
    ensures Filter(xs, keep) == xs
  {
    if xs != [] {
      FilterAll(xs[..|xs| - 1], keep);
      assert xs == xs[..|xs| - 1] + [xs[|xs| - 1]];
    }
  }

  lemma {:induction false} FilterKeeps<T>(xs: seq<T>, k: nat, keep: T -> bool)
    requires k < |xs| && keep(xs[k])
    ensures xs[k] in Filter(xs, keep)
  {
    if k < |xs| - 1 {
      FilterKeeps(xs[..|xs| - 1], k, keep);
    }
  }

  lemma {:induction false} FilterHolds<T>(xs: seq<T>, keep: T -> bool, x: T)
    ensures x in Filter(xs, keep) <==> x in xs && keep(x)
  {
    if xs != [] {
      FilterHolds(xs[..|xs| - 1], keep, x);
      assert xs == xs[..|xs| - 1] + [xs[|xs| - 1]];
    }
  }

  lemma {:induction false} FilterCount<T>(xs: seq<T>, keep: T -> bool, x: T)
    ensures multiset(Filter(xs, keep))[x] == if keep(x) then multiset(xs)[x] else 0
  {
    if xs != [] {
      FilterCount(xs[..|xs| - 1], keep, x);
      assert xs == xs[..|xs| - 1] + [xs[|xs| - 1]];
    }
  }

  function Map<T, U>(xs: seq<T>, f: T -> U): seq<U> {
    seq(|xs|, i requires 0 <= i < |xs| => f(xs[i]))
  }

  function Without<T>(ys: seq<T>, i: nat): seq<T>
    requires i < |ys|
  {
    ys[..i] + ys[i + 1..]
  }

  /** The last of `xs` is somewhere in `ys`, and the others are the others. */
  lemma TakeOut<T>(xs: seq<T>, ys: seq<T>) returns (i: nat)
    requires multiset(xs) == multiset(ys) && xs != []
    ensures i < |ys| && ys[i] == xs[|xs| - 1]
    ensures multiset(xs[..|xs| - 1]) == multiset(Without(ys, i))
  {
    var front, x := xs[..|xs| - 1], xs[|xs| - 1];
    assert xs == front + [x];
    assert x in multiset(ys);
    i :| 0 <= i < |ys| && ys[i] == x;
    assert ys == ys[..i] + ([x] + ys[i + 1..]);
    assert multiset(ys) == multiset(Without(ys, i)) + multiset{x};
    assert multiset(front) == multiset(xs) - multiset{x};
  }

  lemma NoneLeft<T>(ys: seq<T>)
    requires multiset(ys) == multiset{}
    ensures ys == []
  {
    assert |multiset(ys)| == |ys|;
  }

  /** Mapping equal multisets gives equal multisets. */
  lemma {:induction false} MapMultiset<T, U>(xs: seq<T>, ys: seq<T>, f: T -> U)
    requires multiset(xs) == multiset(ys)
    ensures multiset(Map(xs, f)) == multiset(Map(ys, f))
  {
    if xs == [] {
      NoneLeft(ys);
    } else {
      var i := TakeOut(xs, ys);
      MapMultiset(xs[..|xs| - 1], Without(ys, i), f);
      MapWithout(xs, |xs| - 1, f);
      MapWithout(ys, i, f);
      assert Without(xs, |xs| - 1) == xs[..|xs| - 1];
    }
  }

  lemma MapWithout<T, U>(ys: seq<T>, i: nat, f: T -> U)
    requires i < |ys|
    ensures multiset(Map(ys, f)) == multiset(Map(Without(ys, i), f)) + multiset{f(ys[i])}
  {
    var before, after := Map(ys[..i], f), Map(ys[i + 1..], f);
    assert Map(ys, f) == before + ([f(ys[i])] + after);
    assert Map(Without(ys, i), f) == before + after;
  }

  /** So does filtering them. */
  lemma {:induction false} FilterMultiset<T>(xs: seq<T>, ys: seq<T>, keep: T -> bool)
    requires multiset(xs) == multiset(ys)
    ensures multiset(Filter(xs, keep)) == multiset(Filter(ys, keep))
  {
    if xs == [] {
      NoneLeft(ys);
    } else {
      var i := TakeOut(xs, ys);
      FilterMultiset(xs[..|xs| - 1], Without(ys, i), keep);
      FilterWithout(xs, |xs| - 1, keep);
      FilterWithout(ys, i, keep);
      assert Without(xs, |xs| - 1) == xs[..|xs| - 1];
    }
  }

  lemma FilterWithout<T>(ys: seq<T>, i: nat, keep: T -> bool)
    requires i < |ys|
    ensures multiset(Filter(ys, keep)) == multiset(Filter(Without(ys, i), keep)) + if keep(ys[i]) then multiset{ys[i]} else multiset{}
  {
    hide Filter;
    var before, x, after := ys[..i], ys[i], ys[i + 1..];
    assert ys == (before + [x]) + after;
    FilterAppend(before + [x], after, keep);
    FilterSnoc(before, x, keep);
    FilterAppend(before, after, keep);
    if keep(x) {
      PutBack(Filter(before, keep), x, Filter(after, keep));
    }
  }

  lemma PutBack<T>(before: seq<T>, x: T, after: seq<T>)
    ensures multiset(before + [x] + after) == multiset(before + after) + multiset{x}
  {
  }

  /** Filtering after mapping is mapping after filtering. */
  lemma {:induction false} FilterOfMap<T, U>(xs: seq<T>, f: T -> U, keep: U -> bool, keepBefore: T -> bool)
    requires forall i :: 0 <= i < |xs| ==> (keepBefore(xs[i]) <==> keep(f(xs[i])))
    ensures Filter(Map(xs, f), keep) == Map(Filter(xs, keepBefore), f)
  {
    if xs != [] {
      var front := xs[..|xs| - 1];
      FilterOfMap(front, f, keep, keepBefore);
      assert Map(xs, f)[..|xs| - 1] == Map(front, f);
    }
  }

  /** The elements of `groups`, one group after the other. */
  function Flatten<T>(groups: seq<seq<T>>): seq<T> {
    if groups == [] then [] else Flatten(groups[..|groups| - 1]) + groups[|groups| - 1]
  }

  lemma FlattenNone<T>()
    ensures Flatten<T>([]) == []
  {
  }

  lemma FlattenSnoc<T>(groups: seq<seq<T>>, group: seq<T>)
    ensures Flatten(groups + [group]) == Flatten(groups) + group
  {
    assert (groups + [group])[..|groups|] == groups;
  }

  lemma FlattenOne<T>(group: seq<T>)
    ensures Flatten([group]) == group
  {
    assert [group][..0] == [];
  }

  lemma {:induction false} FlattenAppend<T>(xs: seq<seq<T>>, ys: seq<seq<T>>)
    ensures Flatten(xs + ys) == Flatten(xs) + Flatten(ys)
  {
    hide Flatten;
    FlattenNone<T>();
    if ys == [] {
      assert xs + ys == xs;
    } else {
      var front, last := ys[..|ys| - 1], ys[|ys| - 1];
      FlattenAppend(xs, front);
      FlattenSnoc(xs + front, last);
      FlattenSnoc(front, last);
      assert xs + ys == xs + front + [last] && ys == front + [last];
    }
  }

  // Sums over the rows of a keyed table

  /** The sum of `weight` over the values of `m`. */
  ghost function SumMap<K(!new), V>(m: map<K, V>, weight: V -> int): int
    decreases |m|
  {
    if m == map[] then 0
    else
      var k :| k in m;
      weight(m[k]) + SumMap(m - {k}, weight)
  }

  /** Any row may be taken out first. */
  lemma {:induction false} SumMapTake<K(!new), V>(m: map<K, V>, k: K, weight: V -> int)
    requires k in m
    ensures SumMap(m, weight) == weight(m[k]) + SumMap(m - {k}, weight)
    decreases |m|
  {
    var j :| j in m && SumMap(m, weight) == weight(m[j]) + SumMap(m - {j}, weight);
    if j != k {
      SumMapTake(m - {j}, k, weight);
      SumMapTake(m - {k}, j, weight);
      assert m - {j} - {k} == m - {k} - {j};
    }
  }

  /** A weight that is the sum of three gives the sum of their sums. */
  lemma {:induction false} SumMapSplit<K(!new), V>(m: map<K, V>, f: V -> int, g1: V -> int, g2: V -> int, g3: V -> int)
    requires forall k :: k in m ==> f(m[k]) == g1(m[k]) + g2(m[k]) + g3(m[k])
    ensures SumMap(m, f) == SumMap(m, g1) + SumMap(m, g2) + SumMap(m, g3)
    decreases |m|
  {
    if m != map[] {
      var k :| k in m;
      SumMapTake(m, k, f);
      SumMapTake(m, k, g1);
      SumMapTake(m, k, g2);
      SumMapTake(m, k, g3);
      SumMapSplit(m - {k}, f, g1, g2, g3);
    }
  }

  lemma SumMapPut<K(!new), V>(m: map<K, V>, k: K, v: V, weight: V -> int)
    ensures SumMap(m[k := v], weight) == SumMap(m, weight) - (if k in m then weight(m[k]) else 0) + weight(v)
  {
    SumMapTake(m[k := v], k, weight);
    if k in m {
      SumMapTake(m, k, weight);
      assert m[k := v] - {k} == m - {k};
    } else {
      assert m[k := v] - {k} == m;
    }
  }
}
