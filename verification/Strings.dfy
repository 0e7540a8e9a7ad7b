/** Strings: the byte order the program sorts by, decimal numerals, splitting and joining. */
module Strings {
  import opened Sequences

  predicate Less(a: string, b: string) {
    if b == [] then false
    else if a == [] then true
    else if a[0] != b[0] then a[0] < b[0]
    else Less(a[1..], b[1..])
  }

  predicate Leq(a: string, b: string) {
    !Less(b, a)
  }

  lemma {:induction false} LessTotal(a: string, b: string)
    ensures Less(a, b) || Less(b, a) || a == b
    ensures !(Less(a, b) && Less(b, a))
    ensures !Less(a, a)
  {
    if a != [] {
      LessTotal(a[1..], if b == [] then [] else b[1..]);
      if b != [] && a[0] == b[0] {
        assert a == [a[0]] + a[1..] && b == [b[0]] + b[1..];
      }
    }
  }

  lemma {:induction false} LessTransitive(a: string, b: string, c: string)
    requires Less(a, b) && Less(b, c)
    ensures Less(a, c)
  {
    if a != [] && b != [] && c != [] && a[0] == b[0] == c[0] {
      LessTransitive(a[1..], b[1..], c[1..]);
    }
  }

  lemma {:induction false} LeqTransitive(a: string, b: string, c: string)
    requires Leq(a, b) && Leq(b, c)
    ensures Leq(a, c)
  {
    LessTotal(a, b);
    LessTotal(b, c);
    LessTotal(a, c);
    if Less(c, a) {
      if Less(a, b) {
        LessTransitive(c, a, b);
      } else if Less(b, c) {
        LessTransitive(b, c, a);
      }
    }
  }

  lemma {:induction false} LeqCompare(a: string, b: string)
    ensures Leq(a, b) || Leq(b, a)
    ensures Leq(a, a)
    ensures Leq(a, b) && Leq(b, a) ==> a == b
  {
    LessTotal(a, b);
  }

  /** `Leq` is a total order on strings. */
  lemma {:induction false} LeqTotalOrder()
    ensures TotalPreorder(Leq)
    ensures forall a, b :: Leq(a, b) && Leq(b, a) ==> a == b
  {
    forall a, b
      ensures Leq(a, b) || Leq(b, a)
      ensures Leq(a, b) && Leq(b, a) ==> a == b
    {
      LessTotal(a, b);
    }
    forall a, b, c | Leq(a, b) && Leq(b, c)
      ensures Leq(a, c)
    {
      LeqTransitive(a, b, c);
    }
  }

  /** Field by field: the first field that differs decides. */
  predicate LexLeq(a: seq<string>, b: seq<string>) {
    if a == [] then true
    else if b == [] then false
    else if a[0] != b[0] then Less(a[0], b[0])
    else LexLeq(a[1..], b[1..])
  }

  lemma {:induction false} LexCompare(a: seq<string>, b: seq<string>)
    ensures LexLeq(a, b) || LexLeq(b, a)
    ensures LexLeq(a, b) && LexLeq(b, a) ==> a == b
  {
    hide Less;
    if a != [] && b != [] {
      LessTotal(a[0], b[0]);
      if a[0] == b[0] {
        LexCompare(a[1..], b[1..]);
        assert a == [a[0]] + a[1..] && b == [b[0]] + b[1..];
      }
    }
  }

  /** One field at a time. */
  lemma {:induction false} LexFirst(a: string, x: seq<string>, b: string, y: seq<string>)
    ensures LexLeq([a] + x, [b] + y) <==> Less(a, b) || (a == b && LexLeq(x, y))
  {
    hide Less;
    LessTotal(a, b);
    assert ([a] + x)[1..] == x && ([b] + y)[1..] == y;
  }

  lemma {:induction false} LexTransitive(a: seq<string>, b: seq<string>, c: seq<string>)
    requires LexLeq(a, b) && LexLeq(b, c)
    ensures LexLeq(a, c)
  {
    hide Less;
    if a != [] && b != [] && c != [] {
      if a[0] == b[0] == c[0] {
        LexTransitive(a[1..], b[1..], c[1..]);
      } else if a[0] != b[0] && b[0] != c[0] {
        LessTransitive(a[0], b[0], c[0]);
        LessTotal(a[0], c[0]);
      }
    }
  }

  // ----- Sets of strings in order -----

  ghost function Least(s: set<string>): (m: string)
    requires s != {}
    ensures m in s && forall x :: x in s ==> Leq(m, x)
  {
    LeastExists(s);
    var m :| m in s && forall x :: x in s ==> Leq(m, x);
    m
  }

  lemma {:induction false} LeastExists(s: set<string>)
    requires s != {}
    ensures exists m :: m in s && forall x :: x in s ==> Leq(m, x)
  {
    hide Less, Leq;
    var y :| y in s;
    var n := y;
    if s != {y} {
      LeastExists(s - {y});
      var m :| m in s - {y} && forall x :: x in s - {y} ==> Leq(m, x);
      LeqCompare(y, m);
      n := if Leq(y, m) then y else m;
      forall x | x in s - {y}
        ensures Leq(n, x)
      {
        if n == y { LeqTransitive(y, m, x); }
      }
    }
    LeqCompare(n, n);
    LeqCompare(n, y);
    assert forall x :: x in s ==> x == y || x in s - {y};
    assert forall x :: x in s ==> Leq(n, x);
  }

  lemma {:induction false} LeastIs(s: set<string>, m: string)
    requires m in s && forall x :: x in s ==> Leq(m, x)
    ensures Least(s) == m
  {
    hide Less, Leq;
    LeqCompare(m, Least(s));
  }

  /** The least string after one more joins. */
  lemma {:induction false} LeastAdd(s: set<string>, x: string)
    ensures Least(s + {x}) == if s == {} || Less(x, Least(s)) then x else Least(s)
  {
    hide Less;
    LessTotal(x, x);
    var m := if s == {} || Less(x, Least(s)) then x else Least(s);
    if s != {} {
      forall y | y in s
        ensures Leq(m, y)
      {
        LessTotal(x, Least(s));
        if m == x { LeqTransitive(x, Least(s), y); }
      }
    }
    LeastIs(s + {x}, m);
  }

  /** The elements of `s` in increasing order. */
  ghost function InOrder(s: set<string>): (r: seq<string>)
    ensures forall x :: x in r <==> x in s
    ensures |r| == |s|
  {
    if s == {} then [] else
    var m := Least(s);
    [m] + InOrder(s - {m})
  }

  lemma InOrderStep(s: set<string>)
    requires s != {}
    ensures InOrder(s) == [Least(s)] + InOrder(s - {Least(s)})
  {
    hide Leq;
  }

  lemma {:induction false} LeastInFront(m: string, rest: seq<string>)
    requires Sorted(Leq, rest) && Distinct(rest) && forall j :: 0 <= j < |rest| ==> Leq(m, rest[j]) && m != rest[j]
    ensures Sorted(Leq, [m] + rest) && Distinct([m] + rest)
  {
    hide Leq;
  }

  lemma {:induction false} InOrderSorted(s: set<string>)
    ensures Sorted(Leq, InOrder(s))
    ensures Distinct(InOrder(s))
  {
    if s != {} {
      hide Leq, InOrder;
      var m := Least(s);
      var rest := InOrder(s - {m});
      InOrderSorted(s - {m});
      forall j | 0 <= j < |rest|
        ensures Leq(m, rest[j]) && m != rest[j]
      {
        assert rest[j] in rest;
      }
      InOrderStep(s);
      LeastInFront(m, rest);
    }
  }

  /** Collecting a set's elements in any order and sorting them gives `InOrder`. */
  method SortedElements(s: set<string>) returns (r: seq<string>)
    ensures r == InOrder(s)
  {
    var rest, found := s, [];
    while rest != {}
      invariant rest <= s
      invariant forall x :: x in found <==> x in s - rest
      invariant Distinct(found)
      decreases rest
    {
      var x :| x in rest;
      found, rest := found + [x], rest - {x};
    }
    r := SortBy(Leq, found);
    LeqTotalOrder();
    SortBySorted(Leq, found);
    InOrderSorted(s);
    DistinctPermutation(found, InOrder(s));
    SortedUnique(Leq, r, InOrder(s));
  }

  // ----- Decimal numerals -----

  function Digit(d: nat): (c: char)
    requires d < 10
    ensures '0' <= c <= '9'
  {
    "0123456789"[d]
  }

  function DigitValue(c: char): (d: nat)
    ensures d < 10
  {
    if '0' <= c <= '9' then (c as int) - ('0' as int) else 0
  }

  predicate IsDigit(c: char) {
    '0' <= c <= '9'
  }

  function Numeral(n: nat): (s: string)
    ensures s != [] && forall i :: 0 <= i < |s| ==> IsDigit(s[i])
    decreases n
  {
    if n < 10 then [Digit(n)] else Numeral(n / 10) + [Digit(n % 10)]
  }

  function NumeralValue(s: string): nat {
    if s == [] then 0 else 10 * NumeralValue(s[..|s| - 1]) + DigitValue(s[|s| - 1])
  }

  function Itoa(n: int): (s: string)
    ensures s != []
    ensures forall i :: 0 <= i < |s| ==> IsDigit(s[i]) || s[i] == '-'
  {
    if n < 0 then "-" + Numeral(-n) else Numeral(n)
  }

  lemma {:induction false} DigitRoundTrip(d: nat)
    requires d < 10
    ensures DigitValue(Digit(d)) == d
  {
    assert d == 0 || d == 1 || d == 2 || d == 3 || d == 4 || d == 5 || d == 6 || d == 7 || d == 8 || d == 9;
  }

  lemma {:induction false} NumeralRoundTrip(n: nat)
    ensures NumeralValue(Numeral(n)) == n
    decreases n
  {
    if n < 10 {
      DigitRoundTrip(n);
      assert NumeralValue([Digit(n)]) == 10 * NumeralValue([]) + n;
    } else {
      NumeralRoundTrip(n / 10);
      DigitRoundTrip(n % 10);
      var s := Numeral(n / 10);
      assert Numeral(n)[..|s|] == s;
    }
  }

  lemma {:induction false} ItoaInjective(a: int, b: int)
    requires Itoa(a) == Itoa(b)
    ensures a == b
  {
    NumeralRoundTrip(if a < 0 then -a else a);
    NumeralRoundTrip(if b < 0 then -b else b);
    assert a < 0 <==> Itoa(a)[0] == '-';
    assert b < 0 <==> Itoa(b)[0] == '-';
    if a < 0 {
      assert Itoa(a)[1..] == Numeral(-a) && Itoa(b)[1..] == Numeral(-b);
    }
  }

  // ----- Splitting and joining -----

  /** The part of `s` before the first `sep`. */
  function Before(s: string, sep: char): string {
    if s == [] || s[0] == sep then [] else [s[0]] + Before(s[1..], sep)
  }

  lemma {:induction false} BeforeIs(head: string, sep: char, tail: string)
    requires sep !in head
    ensures Before(head + [sep] + tail, sep) == head
  {
    var whole := head + [sep] + tail;
    if head != [] {
      assert whole[1..] == head[1..] + [sep] + tail;
      BeforeIs(head[1..], sep, tail);
    }
  }

  /** A separator that the heads do not contain splits in one way. */
  lemma {:induction false} SeparatorSplits(a: string, b: string, c: string, d: string, sep: char)
    requires sep !in a && sep !in c && a + [sep] + b == c + [sep] + d
    ensures a == c && b == d
  {
    BeforeIs(a, sep, b);
    BeforeIs(c, sep, d);
    assert (a + [sep] + b)[|a| + 1..] == b && (c + [sep] + d)[|c| + 1..] == d;
  }

  lemma {:induction false} LaterSeparator(a: string, x: string, b: string, y: string, sep: char)
    requires a + [sep] + x == b + [sep] + y && |a| < |b|
    ensures sep in x
  {
    assert (b + [sep] + y)[|b|] == sep == (a + [sep] + x)[|b|] == x[|b| - |a| - 1];
  }

  /** So does a separator that the tails do not contain. */
  lemma {:induction false} LastSeparatorSplits(a: string, x: string, b: string, y: string, sep: char)
    requires sep !in x && sep !in y && a + [sep] + x == b + [sep] + y
    ensures a == b && x == y
  {
    var whole := a + [sep] + x;
    if |a| < |b| {
      LaterSeparator(a, x, b, y, sep);
    } else if |b| < |a| {
      LaterSeparator(b, y, a, x, sep);
    } else {
      assert whole[..|a|] == a && whole[..|b|] == b;
      assert whole[|a| + 1..] == x && whole[|b| + 1..] == y;
    }
  }

  /** `strings.Split` at a one-character separator. */
  function Split(s: string, sep: char): (r: seq<string>)
    ensures |r| >= 1
  {
    if s == [] then [[]] else
    var rest := Split(s[1..], sep);
    if s[0] == sep then [[]] + rest else [[s[0]] + rest[0]] + rest[1..]
  }

  function Join(parts: seq<string>, sep: char): string
    requires |parts| >= 1
  {
    if |parts| == 1 then parts[0] else parts[0] + [sep] + Join(parts[1..], sep)
  }

  lemma {:induction false} SplitParts(s: string, sep: char)
    ensures forall i :: 0 <= i < |Split(s, sep)| ==> sep !in Split(s, sep)[i]
  {
    if s != [] {
      SplitParts(s[1..], sep);
    }
  }

  lemma {:induction false} SplitLast(a: string, tail: string, sep: char)
    requires sep !in tail
    ensures Split(tail, sep) == [tail]
    ensures var parts := Split(a + [sep] + tail, sep); parts[|parts| - 1] == tail
  {
    SplitJoin([tail], sep);
    var s := a + [sep] + tail;
    if a == [] {
      assert s[1..] == tail;
    } else {
      assert s[1..] == a[1..] + [sep] + tail;
      SplitLast(a[1..], tail, sep);
      SplitMany(a[1..], tail, sep);
    }
  }

  lemma {:induction false} SplitMany(a: string, tail: string, sep: char)
    ensures |Split(a + [sep] + tail, sep)| >= 2
  {
    var s := a + [sep] + tail;
    if a == [] {
      assert s[1..] == tail;
    } else {
      assert s[1..] == a[1..] + [sep] + tail;
      SplitMany(a[1..], tail, sep);
    }
  }

  lemma {:induction false} SplitJoin(parts: seq<string>, sep: char)
    requires |parts| >= 1
    requires forall i :: 0 <= i < |parts| ==> sep !in parts[i]
    ensures Split(Join(parts, sep), sep) == parts
    decreases |parts|, |parts[0]|
  {
    var head := parts[0];
    if head == [] {
      if |parts| > 1 {
        SplitJoin(parts[1..], sep);
        assert Join(parts, sep)[1..] == Join(parts[1..], sep);
      }
    } else {
      assert head[0] in head;
      var shorter := [head[1..]] + parts[1..];
      SplitJoin(shorter, sep);
      assert Join(parts, sep)[1..] == Join(shorter, sep) by {
        if |parts| > 1 { assert shorter[1..] == parts[1..]; }
      }
      assert Join(parts, sep)[0] == head[0];
      assert [head[0]] + shorter[0] == head;
      assert [head] + shorter[1..] == parts;
    }
  }

  lemma {:induction false} JoinSplit(s: string, sep: char)
    ensures Join(Split(s, sep), sep) == s
  {
    if s != [] {
      JoinSplit(s[1..], sep);
      var rest := Split(s[1..], sep);
      if s[0] == sep {
        assert ([[]] + rest)[1..] == rest;
      } else {
        var whole := [[s[0]] + rest[0]] + rest[1..];
        assert whole[1..] == rest[1..];
      }
    }
  }
}
