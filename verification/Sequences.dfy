/** Sequences: filters, images, sums and sorting, and what a permutation leaves alone. */
module Sequences {

  datatype Option<+T> = None | Some(value: T)

  /** `a` and `b` hold the same elements equally often. */
  ghost predicate Permutation<T>(a: seq<T>, b: seq<T>) {
    multiset(a) == multiset(b)
  }

  ghost predicate Distinct<T>(s: seq<T>) {
    forall i, j :: 0 <= i < j < |s| ==> s[i] != s[j]
  }

  function Filter<T>(keep: T -> bool, s: seq<T>): seq<T>
  {
    if s == [] then [] else
    var rest := Filter(keep, s[1..]);
    if keep(s[0]) then [s[0]] + rest else rest
  }

  function Map<T, U>(f: T -> U, s: seq<T>): (r: seq<U>)
    ensures |r| == |s|
    ensures forall i :: 0 <= i < |s| ==> r[i] == f(s[i])
  {
    seq(|s|, i requires 0 <= i < |s| => f(s[i]))
  }

  function Sum<T>(f: T -> int, s: seq<T>): int {
    if s == [] then 0 else f(s[0]) + Sum(f, s[1..])
  }

  /** The elements of `s` collected through `f`, one bag per element. */
  ghost function Gather<T, U>(f: T -> multiset<U>, s: seq<T>): multiset<U> {
    if s == [] then multiset{} else f(s[0]) + Gather(f, s[1..])
  }

  lemma {:induction false} FilterMembers<T(!new)>(keep: T -> bool, s: seq<T>)
    ensures |Filter(keep, s)| <= |s|
    ensures forall x :: x in Filter(keep, s) <==> x in s && keep(x)
  {
    if s != [] {
      FilterMembers(keep, s[1..]);
    }
  }

  lemma {:induction false} FilterConcat<T(!new)>(keep: T -> bool, a: seq<T>, b: seq<T>)
    ensures Filter(keep, a + b) == Filter(keep, a) + Filter(keep, b)
  {
    if a == [] {
      assert a + b == b;
    } else {
      assert (a + b)[1..] == a[1..] + b;
      FilterConcat(keep, a[1..], b);
    }
  }

  lemma {:induction false} FilterPermutation<T(!new)>(keep: T -> bool, s: seq<T>)
    ensures forall x :: multiset(Filter(keep, s))[x] == if keep(x) then multiset(s)[x] else 0
  {
    if s != [] {
      FilterPermutation(keep, s[1..]);
      assert s == [s[0]] + s[1..];
    }
  }

  lemma {:induction false} SumConcat<T>(f: T -> int, a: seq<T>, b: seq<T>)
    ensures Sum(f, a + b) == Sum(f, a) + Sum(f, b)
  {
    if a == [] {
      assert a + b == b;
    } else {
      assert (a + b)[1..] == a[1..] + b;
      SumConcat(f, a[1..], b);
    }
  }

  lemma {:induction false} GatherConcat<T, U>(f: T -> multiset<U>, a: seq<T>, b: seq<T>)
    ensures Gather(f, a + b) == Gather(f, a) + Gather(f, b)
  {
    if a == [] {
      assert a + b == b;
    } else {
      assert (a + b)[1..] == a[1..] + b;
      GatherConcat(f, a[1..], b);
    }
  }

  lemma {:induction false} SumSnoc<T>(f: T -> int, a: seq<T>, x: T)
    ensures Sum(f, a + [x]) == Sum(f, a) + f(x)
  {
    SumConcat(f, a, [x]);
    assert Sum(f, [x]) == f(x) + Sum(f, []);
  }

  lemma {:induction false} GatherSnoc<T, U>(f: T -> multiset<U>, a: seq<T>, x: T)
    ensures Gather(f, a + [x]) == Gather(f, a) + f(x)
  {
    GatherConcat(f, a, [x]);
    assert Gather(f, [x]) == f(x) + Gather(f, []);
  }

  lemma {:induction false} FilterAppend<T(!new)>(keep: T -> bool, xs: seq<T>, x: T)
    ensures Filter(keep, xs + [x]) == if keep(x) then Filter(keep, xs) + [x] else Filter(keep, xs)
  {
    FilterConcat(keep, xs, [x]);
  }

  lemma {:induction false} FilterSnoc<T(!new)>(keep: T -> bool, xs: seq<T>, i: nat)
    requires i < |xs|
    ensures Filter(keep, xs[..i + 1]) == if keep(xs[i]) then Filter(keep, xs[..i]) + [xs[i]] else Filter(keep, xs[..i])
  {
    assert xs[..i + 1] == xs[..i] + [xs[i]];
    FilterAppend(keep, xs[..i], xs[i]);
  }

  /** Where the kept elements stood: at increasing positions, none left out. */
  /** `at` lists, in order, the positions at which the kept elements `r` stand. */
  ghost predicate Positions<T(!new)>(keep: T -> bool, s: seq<T>, r: seq<T>, at: seq<nat>) {
    && |at| == |r|
    && (forall k :: 0 <= k < |at| ==> at[k] < |s| && s[at[k]] == r[k] && keep(s[at[k]]))
    && (forall k, l :: 0 <= k < l < |at| ==> at[k] < at[l])
    && (forall i :: 0 <= i < |s| && keep(s[i]) ==> i in at)
  }

  lemma {:induction false} PositionsSkip<T(!new)>(keep: T -> bool, s: seq<T>, r: seq<T>, at: seq<nat>, x: T)
    requires Positions(keep, s, r, at) && !keep(x)
    ensures Positions(keep, s + [x], r, at)
  {
    var more := s + [x];
    assert forall i :: 0 <= i < |s| ==> more[i] == s[i];
  }

  lemma {:induction false} PositionsTake<T(!new)>(keep: T -> bool, s: seq<T>, r: seq<T>, at: seq<nat>, x: T)
    requires Positions(keep, s, r, at) && keep(x)
    ensures Positions(keep, s + [x], r + [x], at + [|s|])
  {
    var more, wider := s + [x], at + [|s|];
    assert forall i :: 0 <= i < |s| ==> more[i] == s[i];
    assert forall k :: 0 <= k < |at| ==> wider[k] == at[k];
    assert wider[|at|] == |s|;
    assert forall i :: i in at ==> i in wider;
  }

  lemma {:induction false} FilterPositions<T(!new)>(keep: T -> bool, s: seq<T>) returns (at: seq<nat>)
    ensures Positions(keep, s, Filter(keep, s), at)
  {
    if s == [] {
      at := [];
    } else {
      hide Filter, Positions;
      var n := |s| - 1;
      var front := FilterPositions(keep, s[..n]);
      assert s == s[..n] + [s[n]];
      FilterAppend(keep, s[..n], s[n]);
      if keep(s[n]) {
        at := front + [n];
        PositionsTake(keep, s[..n], Filter(keep, s[..n]), front, s[n]);
      } else {
        at := front;
        PositionsSkip(keep, s[..n], Filter(keep, s[..n]), front, s[n]);
        assert Filter(keep, s[..n]) + [] == Filter(keep, s[..n]);
      }
    }
  }

  lemma {:induction false} OnlyPosition<T(!new)>(keep: T -> bool, s: seq<T>, i: int)
    requires 0 <= i < |s| && keep(s[i]) && forall l :: 0 <= l < |s| && keep(s[l]) ==> l == i
    ensures Filter(keep, s) == [s[i]]
  {
    var at := FilterPositions(keep, s);
    var k :| 0 <= k < |at| && at[k] == i;
    assert at[0] == i && at[|at| - 1] == i;
  }

  lemma {:induction false} PositionOfOnly<T(!new)>(keep: T -> bool, s: seq<T>) returns (i: int)
    requires |Filter(keep, s)| == 1
    ensures 0 <= i < |s| && s[i] == Filter(keep, s)[0]
    ensures forall l :: 0 <= l < |s| ==> (keep(s[l]) <==> l == i)
  {
    var at := FilterPositions(keep, s);
    i := at[0];
  }

  lemma {:induction false} FilterTwice<T(!new)>(p: T -> bool, q: T -> bool, both: T -> bool, s: seq<T>)
    requires forall x :: both(x) <==> p(x) && q(x)
    ensures Filter(p, Filter(q, s)) == Filter(both, s)
  {
    if s != [] {
      FilterTwice(p, q, both, s[1..]);
    }
  }

  /** Taking one occurrence of an element out of a sequence. */
  lemma {:induction false} RemoveOne<T>(s: seq<T>, x: T) returns (i: nat)
    requires x in s
    ensures i < |s| && s[i] == x
    ensures s == s[..i] + [x] + s[i + 1..]
    ensures multiset(s[..i] + s[i + 1..]) == multiset(s) - multiset{x}
  {
    i :| 0 <= i < |s| && s[i] == x;
    assert s == s[..i] + [x] + s[i + 1..];
  }

  lemma {:induction false} SumPermutation<T>(f: T -> int, a: seq<T>, b: seq<T>)
    requires Permutation(a, b)
    ensures Sum(f, a) == Sum(f, b)
  {
    if a == [] {
      assert |multiset(b)| == 0;
    } else {
      assert a[0] in multiset(a);
      var i := RemoveOne(b, a[0]);
      assert multiset(a[1..]) == multiset(a) - multiset{a[0]} by { assert a == [a[0]] + a[1..]; }
      SumPermutation(f, a[1..], b[..i] + b[i + 1..]);
      SumConcat(f, b[..i], b[i + 1..]);
      SumConcat(f, b[..i] + [b[i]], b[i + 1..]);
      SumConcat(f, b[..i], [b[i]]);
    }
  }

  lemma {:induction false} GatherPermutation<T, U>(f: T -> multiset<U>, a: seq<T>, b: seq<T>)
    requires Permutation(a, b)
    ensures Gather(f, a) == Gather(f, b)
  {
    if a == [] {
      assert |multiset(b)| == 0;
    } else {
      assert a[0] in multiset(a);
      var i := RemoveOne(b, a[0]);
      assert multiset(a[1..]) == multiset(a) - multiset{a[0]} by { assert a == [a[0]] + a[1..]; }
      GatherPermutation(f, a[1..], b[..i] + b[i + 1..]);
      GatherConcat(f, b[..i], b[i + 1..]);
      GatherConcat(f, b[..i] + [b[i]], b[i + 1..]);
      GatherConcat(f, b[..i], [b[i]]);
    }
  }

  lemma MapConcat<T, U>(f: T -> U, a: seq<T>, b: seq<T>)
    ensures Map(f, a + b) == Map(f, a) + Map(f, b)
  {}

  lemma {:induction false} MapPermutes<T, U>(f: T -> U, a: seq<T>, b: seq<T>)
    requires Permutation(a, b)
    ensures Permutation(Map(f, a), Map(f, b))
  {
    hide Map;
    if a == [] {
      assert |multiset(b)| == 0;
    } else {
      assert a[0] in multiset(a);
      var i := RemoveOne(b, a[0]);
      var front, back := b[..i], b[i + 1..];
      assert a == [a[0]] + a[1..];
      MapPermutes(f, a[1..], front + back);
      MapConcat(f, [a[0]], a[1..]);
      MapConcat(f, front, back);
      MapConcat(f, front + [b[i]], back);
      MapConcat(f, front, [b[i]]);
    }
  }

  /** Bags that agree through `f` agree through every `g` that `f` determines. */
  lemma {:induction false} BagThrough<T, U, V>(f: T -> U, g: T -> V, a: seq<T>, b: seq<T>)
    requires Permutation(Map(f, a), Map(f, b))
    requires forall x, y :: x in a && y in b && f(x) == f(y) ==> g(x) == g(y)
    ensures Permutation(Map(g, a), Map(g, b))
  {
    hide Map;
    if a == [] {
      assert |Map(f, b)| == |multiset(Map(f, b))| == |multiset(Map(f, a))| == 0;
      assert b == [];
    } else {
      var i := Partner(f, a, b);
      var rest := b[..i] + b[i + 1..];
      assert forall y :: y in rest ==> y in b;
      BagThrough(f, g, a[1..], rest);
      MapRemove(g, a, 0);
      assert a[..0] + a[1..] == a[1..];
      MapRemove(g, b, i);
    }
  }

  /** The first element's image is met on the other side; without the two the bags still agree. */
  lemma {:induction false} Partner<T, U>(f: T -> U, a: seq<T>, b: seq<T>) returns (i: nat)
    requires Permutation(Map(f, a), Map(f, b)) && a != []
    ensures i < |b| && f(b[i]) == f(a[0]) && Permutation(Map(f, a[1..]), Map(f, b[..i] + b[i + 1..]))
  {
    i := Match(f, a, b);
    hide Map;
    assert a[..0] + a[1..] == a[1..];
    MapRemove(f, a, 0);
    MapRemove(f, b, i);
    CancelOne(multiset(Map(f, a[1..])), multiset(Map(f, b[..i] + b[i + 1..])), f(a[0]));
  }

  lemma {:induction false} Match<T, U>(f: T -> U, a: seq<T>, b: seq<T>) returns (i: nat)
    requires Permutation(Map(f, a), Map(f, b)) && a != []
    ensures i < |b| && f(b[i]) == f(a[0])
  {
    assert Map(f, a)[0] in multiset(Map(f, a));
    assert Map(f, a)[0] in multiset(Map(f, b));
    i :| 0 <= i < |b| && Map(f, b)[i] == f(a[0]);
  }

  lemma {:induction false} CancelOne<U>(a: multiset<U>, b: multiset<U>, u: U)
    requires a + multiset{u} == b + multiset{u}
    ensures a == b
  {
    assert a == a + multiset{u} - multiset{u} == b;
  }

  lemma {:induction false} MapRemove<T, U>(f: T -> U, b: seq<T>, i: nat)
    requires i < |b|
    ensures multiset(Map(f, b)) == multiset(Map(f, b[..i] + b[i + 1..])) + multiset{f(b[i])}
  {
    hide Map;
    var front, back := b[..i], b[i + 1..];
    assert b == front + [b[i]] + back;
    MapConcat(f, front, back);
    MapConcat(f, front + [b[i]], back);
    MapConcat(f, front, [b[i]]);
    assert Map(f, [b[i]]) == [f(b[i])];
  }

  lemma {:induction false} SumAgree<T>(f: T -> int, g: T -> int, s: seq<T>)
    requires forall i :: 0 <= i < |s| ==> f(s[i]) == g(s[i])
    ensures Sum(f, s) == Sum(g, s)
  {
    if s != [] {
      SumAgree(f, g, s[1..]);
    }
  }

  lemma {:induction false} GatherAgree<T, U>(f: T -> multiset<U>, g: T -> multiset<U>, s: seq<T>)
    requires forall i :: 0 <= i < |s| ==> f(s[i]) == g(s[i])
    ensures Gather(f, s) == Gather(g, s)
  {
    if s != [] {
      GatherAgree(f, g, s[1..]);
    }
  }

  lemma {:induction false} GatherMembers<T(!new), U>(f: T -> multiset<U>, s: seq<T>, u: U)
    ensures u in Gather(f, s) <==> exists i :: 0 <= i < |s| && u in f(s[i])
  {
    if s != [] {
      GatherMembers(f, s[1..], u);
      if u in Gather(f, s[1..]) {
        var i :| 0 <= i < |s| - 1 && u in f(s[1..][i]);
        assert s[i + 1] == s[1..][i];
      }
      if exists i :: 0 < i < |s| && u in f(s[i]) {
        var i :| 0 < i < |s| && u in f(s[i]);
        assert s[1..][i - 1] == s[i];
      }
    }
  }

  /** Raising one summand of a duplicate-free sum raises the sum by as much. */
  /** When each element contributes `u` once or not at all, gathering counts those that do. */
  lemma {:induction false} GatherCount<T(!new), U>(f: T -> multiset<U>, has: T -> bool, s: seq<T>, u: U)
    requires forall i :: 0 <= i < |s| ==> f(s[i])[u] == if has(s[i]) then 1 else 0
    ensures Gather(f, s)[u] == |Filter(has, s)|
  {
    if s != [] {
      GatherCount(f, has, s[1..], u);
    }
  }

  lemma Inhabited<T>(s: seq<T>)
    ensures s == [] || s[0] in s
  {}

  lemma {:induction false} OnceInDistinct<T(!new)>(keep: T -> bool, s: seq<T>, x: T)
    requires Distinct(s) && forall y :: keep(y) ==> y == x
    ensures |Filter(keep, s)| == if x in s && keep(x) then 1 else 0
  {
    if x in s && keep(x) {
      var i :| 0 <= i < |s| && s[i] == x;
      OnlyPosition(keep, s, i);
    } else {
      FilterMembers(keep, s);
      Inhabited(Filter(keep, s));
    }
  }

  lemma {:induction false} SumBump<T>(f: T -> int, g: T -> int, s: seq<T>, t: T, k: int)
    requires Distinct(s)
    requires forall i :: 0 <= i < |s| ==> g(s[i]) == f(s[i]) + if s[i] == t then k else 0
    ensures Sum(g, s) == Sum(f, s) + if t in s then k else 0
  {
    if s != [] {
      SumBump(f, g, s[1..], t, k);
    }
  }

  /** Two duplicate-free listings of one set are permutations of each other. */
  lemma {:induction false} DistinctPermutation<T>(a: seq<T>, b: seq<T>)
    requires Distinct(a) && Distinct(b)
    requires forall x :: x in a <==> x in b
    ensures Permutation(a, b)
  {
    forall x
      ensures multiset(a)[x] == multiset(b)[x]
    {
      DistinctCount(a, x);
      DistinctCount(b, x);
    }
  }

  lemma {:induction false} DistinctCount<T>(s: seq<T>, x: T)
    requires Distinct(s)
    ensures multiset(s)[x] == if x in s then 1 else 0
  {
    if s != [] {
      DistinctCount(s[1..], x);
      assert s == [s[0]] + s[1..];
    }
  }

  lemma {:induction false} PermutationMembers<T>(a: seq<T>, b: seq<T>)
    requires Permutation(a, b)
    ensures |a| == |b|
    ensures forall x :: x in a <==> x in b
  {
    assert |multiset(a)| == |multiset(b)|;
    forall x
      ensures x in a <==> x in b
    {
      assert x in a <==> x in multiset(a);
      assert x in b <==> x in multiset(b);
    }
  }

  lemma {:induction false} PermutationDistinct<T>(a: seq<T>, b: seq<T>)
    requires Permutation(a, b) && Distinct(a)
    ensures Distinct(b)
  {
    forall i, j | 0 <= i < j < |b|
      ensures b[i] != b[j]
    {
      DistinctCount(a, b[i]);
      if b[i] == b[j] {
        TwiceCount(b, i, j);
      }
    }
  }

  lemma {:induction false} TwiceCount<T>(s: seq<T>, i: nat, j: nat)
    requires i < j < |s| && s[i] == s[j]
    ensures multiset(s)[s[i]] >= 2
  {
    assert s == s[..j] + [s[j]] + s[j + 1..];
    assert s[i] in multiset(s[..j]) by { assert s[i] in s[..j]; }
  }

  /** The first element of least measure. */
  function ArgMin<T>(measure: T -> int, s: seq<T>): T
    requires |s| > 0
  {
    var last := s[|s| - 1];
    if |s| == 1 then last else
    var best := ArgMin(measure, s[..|s| - 1]);
    if measure(last) < measure(best) then last else best
  }

  lemma {:induction false} ArgMinLeast<T>(measure: T -> int, s: seq<T>)
    requires |s| > 0
    ensures ArgMin(measure, s) in s
    ensures forall i :: 0 <= i < |s| ==> measure(ArgMin(measure, s)) <= measure(s[i])
  {
    if |s| > 1 {
      ArgMinLeast(measure, s[..|s| - 1]);
    }
  }

  /** Among elements of least measure it is the first. */
  lemma {:induction false} ArgMinFirst<T>(measure: T -> int, s: seq<T>) returns (k: nat)
    requires |s| > 0
    ensures k < |s| && s[k] == ArgMin(measure, s)
    ensures forall j :: 0 <= j < k ==> measure(s[j]) > measure(s[k])
    ensures forall j :: 0 <= j < |s| ==> measure(s[j]) >= measure(s[k])
  {
    var n := |s| - 1;
    if n == 0 {
      k := 0;
    } else {
      k := ArgMinFirst(measure, s[..n]);
      if measure(s[n]) < measure(s[k]) { k := n; }
    }
  }

  // ----- Sorting -----

  ghost predicate TotalPreorder<T(!new)>(le: (T, T) -> bool) {
    && (forall x, y :: le(x, y) || le(y, x))
    && (forall x, y, z :: le(x, y) && le(y, z) ==> le(x, z))
  }

  ghost predicate Sorted<T>(le: (T, T) -> bool, s: seq<T>) {
    forall i, j :: 0 <= i < j < |s| ==> le(s[i], s[j])
  }

  function Insert<T>(le: (T, T) -> bool, x: T, s: seq<T>): (r: seq<T>)
    ensures multiset(r) == multiset(s) + multiset{x}
  {
    if s == [] || le(x, s[0]) then [x] + s else
    assert s == [s[0]] + s[1..];
    [s[0]] + Insert(le, x, s[1..])
  }

  /** What the library's sort promises: the same elements, in order. */
  function SortBy<T>(le: (T, T) -> bool, s: seq<T>): (r: seq<T>)
    ensures multiset(r) == multiset(s)
  {
    if s == [] then [] else
    assert s == [s[0]] + s[1..];
    Insert(le, s[0], SortBy(le, s[1..]))
  }

  lemma {:induction false} InsertSorted<T(!new)>(le: (T, T) -> bool, x: T, s: seq<T>)
    requires TotalPreorder(le) && Sorted(le, s)
    ensures Sorted(le, Insert(le, x, s))
  {
    if s != [] && !le(x, s[0]) {
      InsertSorted(le, x, s[1..]);
      var rest := Insert(le, x, s[1..]);
      forall j | 0 <= j < |rest|
        ensures le(s[0], rest[j])
      {
        assert rest[j] in multiset(rest);
        assert rest[j] == x || rest[j] in s[1..];
      }
    }
  }

  lemma {:induction false} SortBySorted<T(!new)>(le: (T, T) -> bool, s: seq<T>)
    requires TotalPreorder(le)
    ensures Sorted(le, SortBy(le, s))
  {
    if s != [] {
      SortBySorted(le, s[1..]);
      InsertSorted(le, s[0], SortBy(le, s[1..]));
    }
  }

  /** Elements of `s` that `le` cannot separate are equal. */
  ghost predicate Separates<T>(le: (T, T) -> bool, s: seq<T>) {
    forall x, y :: x in s && y in s && le(x, y) && le(y, x) ==> x == y
  }

  /** Only one sequence is sorted and holds a given bag, when the order separates its elements. */
  lemma {:induction false} SortedUnique<T(!new)>(le: (T, T) -> bool, a: seq<T>, b: seq<T>)
    requires Sorted(le, a) && Sorted(le, b) && Permutation(a, b)
    requires Separates(le, a)
    ensures a == b
  {
    PermutationMembers(a, b);
    if a != [] {
      SortedHeads(le, a, b);
      assert multiset(a[1..]) == multiset(a) - multiset{a[0]} by { assert a == [a[0]] + a[1..]; }
      assert multiset(b[1..]) == multiset(b) - multiset{b[0]} by { assert b == [b[0]] + b[1..]; }
      SortedUnique(le, a[1..], b[1..]);
      assert a == [a[0]] + a[1..] && b == [b[0]] + b[1..];
    }
  }

  lemma {:induction false} SortedHeads<T(!new)>(le: (T, T) -> bool, a: seq<T>, b: seq<T>)
    requires Sorted(le, a) && Sorted(le, b) && |a| == |b| > 0
    requires forall x :: x in a <==> x in b
    requires Separates(le, a)
    ensures a[0] == b[0]
  {
    assert a[0] in b && b[0] in a;
    var i :| 0 <= i < |b| && b[i] == a[0];
    var j :| 0 <= j < |a| && a[j] == b[0];
    if i != 0 && j != 0 {
      assert le(b[0], b[i]) && le(a[0], a[j]);
    }
  }
}
