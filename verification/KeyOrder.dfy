/**
 The order of object keys: the writer sorts by code point, which is the order of UTF-8 bytes;
 section 3.2.3 of RFC 8785 asks for the order of UTF-16 code units. When the two agree.
 */
module KeyOrder {
  import opened Sequences
  import opened Strings

  /** Unsigned lexicographic order of code units. */
  predicate UnitsLess(a: seq<nat>, b: seq<nat>) {
    if b == [] then false
    else if a == [] then true
    else if a[0] != b[0] then a[0] < b[0]
    else UnitsLess(a[1..], b[1..])
  }

  /** A lead byte and `k` continuation bytes of six bits each. */
  function Grouped(lead: nat, n: nat, k: nat): seq<nat> {
    if k == 0 then [lead + n] else Grouped(lead, n / 64, k - 1) + [0x80 + n % 64]
  }

  /** How many continuation bytes a code point needs. */
  function Continuations(n: nat): nat {
    if n < 0x80 then 0 else if n < 0x800 then 1 else if n < 0x10000 then 2 else 3
  }

  function Utf8(c: char): seq<nat> {
    var n := c as int;
    Grouped([0, 0xC0, 0xE0, 0xF0][Continuations(n)], n, Continuations(n))
  }

  function Utf16(c: char): seq<nat> {
    var n := c as int;
    if n < 0x10000 then [n] else [0xD800 + (n - 0x10000) / 1024, 0xDC00 + (n - 0x10000) % 1024]
  }

  function Units(encode: char -> seq<nat>, s: string): seq<nat> {
    if s == [] then [] else encode(s[0]) + Units(encode, s[1..])
  }

  /** Both encodings differ inside the shorter one: the rest of the text has no say. */
  ghost predicate DecidedBy(u: seq<nat>, v: seq<nat>, i: nat) {
    i < |u| && i < |v| && u[..i] == v[..i] && u[i] != v[i]
  }

  lemma {:induction false} DecidedLess(u: seq<nat>, v: seq<nat>, i: nat, s: seq<nat>, t: seq<nat>)
    requires DecidedBy(u, v, i)
    ensures UnitsLess(u + s, v + t) == (u[i] < v[i])
  {
    var a, b := u + s, v + t;
    if i > 0 {
      assert u[0] == u[..i][0] && v[0] == v[..i][0];
      assert u[1..][..i - 1] == u[..i][1..] && v[1..][..i - 1] == v[..i][1..];
      assert a[1..] == u[1..] + s && b[1..] == v[1..] + t;
      DecidedLess(u[1..], v[1..], i - 1, s, t);
    }
  }

  lemma {:induction false} UnitsLessPrefix(p: seq<nat>, s: seq<nat>, t: seq<nat>)
    ensures UnitsLess(p + s, p + t) == UnitsLess(s, t)
  {
    if p == [] {
      assert p + s == s && p + t == t;
    } else {
      assert (p + s)[1..] == p[1..] + s && (p + t)[1..] == p[1..] + t;
      UnitsLessPrefix(p[1..], s, t);
    }
  }

  /** `u` and `v` differ somewhere, and are ordered there as `m` and `n` are. */
  ghost predicate OrderedAs(u: seq<nat>, v: seq<nat>, m: nat, n: nat) {
    exists i: nat :: OrderedAt(u, v, m, n, i)
  }

  ghost predicate OrderedAt(u: seq<nat>, v: seq<nat>, m: nat, n: nat, i: nat) {
    DecidedBy(u, v, i) && (u[i] < v[i] <==> m < n)
  }

  /** One more six-bit group: the leading groups decide, and otherwise the new one does. */
  lemma {:induction false} GroupAppended(u: seq<nat>, v: seq<nat>, m: nat, n: nat)
    requires |u| == |v| && m != n
    requires if m / 64 == n / 64 then u == v else OrderedAs(u, v, m / 64, n / 64)
    ensures OrderedAs(u + [0x80 + m % 64], v + [0x80 + n % 64], m, n)
  {
    var a, b := u + [0x80 + m % 64], v + [0x80 + n % 64];
    if m / 64 == n / 64 {
      assert a[..|u|] == u && b[..|v|] == v;
      assert OrderedAt(a, b, m, n, |u|);
    } else {
      var i: nat :| OrderedAt(u, v, m / 64, n / 64, i);
      assert a[..i] == u[..i] && b[..i] == v[..i];
      assert OrderedAt(a, b, m, n, i);
    }
  }

  lemma {:induction false} LeadByte(lead: nat, m: nat, n: nat)
    requires m != n
    ensures OrderedAs([lead + m], [lead + n], m, n)
  {
    assert OrderedAt([lead + m], [lead + n], m, n, 0);
  }

  lemma {:induction false} GroupedOrder(lead: nat, m: nat, n: nat, k: nat)
    requires m != n
    ensures |Grouped(lead, m, k)| == |Grouped(lead, n, k)|
    ensures OrderedAs(Grouped(lead, m, k), Grouped(lead, n, k), m, n)
  {
    hide OrderedAs;
    GroupedLength(lead, m, k);
    GroupedLength(lead, n, k);
    if k == 0 {
      LeadByte(lead, m, n);
    } else {
      if m / 64 != n / 64 { GroupedOrder(lead, m / 64, n / 64, k - 1); }
      GroupedLength(lead, m / 64, k - 1);
      GroupedLength(lead, n / 64, k - 1);
      GroupAppended(Grouped(lead, m / 64, k - 1), Grouped(lead, n / 64, k - 1), m, n);
    }
  }

  lemma {:induction false} GroupedLength(lead: nat, n: nat, k: nat)
    ensures |Grouped(lead, n, k)| == k + 1
  {
    if k > 0 { GroupedLength(lead, n / 64, k - 1); }
  }

  /** The bits that go into the lead byte. */
  function Top(n: nat, k: nat): nat {
    if k == 0 then n else Top(n / 64, k - 1)
  }

  lemma {:induction false} GroupedFirst(lead: nat, n: nat, k: nat)
    ensures |Grouped(lead, n, k)| >= 1 && Grouped(lead, n, k)[0] == lead + Top(n, k)
  {
    if k > 0 { GroupedFirst(lead, n / 64, k - 1); }
  }

  lemma {:induction false} TopBounds(n: nat)
    requires n < 0x110000
    ensures n < 0x80 ==> Top(n, 0) < 0x80
    ensures n < 0x800 ==> Top(n, 1) < 0x20
    ensures n < 0x10000 ==> Top(n, 2) < 0x10
    ensures Top(n, 3) < 8
  {
    assert Top(n, 1) == Top(n / 64, 0) && Top(n, 2) == Top(n / 64, 1) == Top(n / 64 / 64, 0);
    assert Top(n, 3) == Top(n / 64, 2) == Top(n / 64 / 64, 1) == Top(n / 64 / 64 / 64, 0);
  }

  /** The first byte tells how many follow, and longer forms are larger. */
  lemma {:induction false} Utf8Lead(x: char, y: char)
    requires Continuations(x as int) < Continuations(y as int)
    ensures DecidedBy(Utf8(x), Utf8(y), 0) && Utf8(x)[0] < Utf8(y)[0] && x < y
  {
    hide Grouped, Top;
    var m, n := x as int, y as int;
    TopBounds(m);
    TopBounds(n);
    GroupedFirst([0, 0xC0, 0xE0, 0xF0][Continuations(m)], m, Continuations(m));
    GroupedFirst([0, 0xC0, 0xE0, 0xF0][Continuations(n)], n, Continuations(n));
  }

  /** Where the UTF-8 forms of two different characters first differ, and which is smaller there. */
  lemma {:induction false} Utf8Decided(x: char, y: char) returns (i: nat)
    requires x != y
    ensures DecidedBy(Utf8(x), Utf8(y), i)
    ensures Utf8(x)[i] < Utf8(y)[i] <==> x < y
  {
    hide Grouped, DecidedBy;
    var m, n := x as int, y as int;
    i := 0;
    if Continuations(m) < Continuations(n) {
      Utf8Lead(x, y);
    } else if Continuations(n) < Continuations(m) {
      Utf8Lead(y, x);
      DecidedSymmetric(Utf8(y), Utf8(x), 0);
    } else {
      GroupedOrder([0, 0xC0, 0xE0, 0xF0][Continuations(m)], m, n, Continuations(m));
      i :| OrderedAt(Utf8(x), Utf8(y), m, n, i);
    }
    DecidedInside(Utf8(x), Utf8(y), i);
  }

  lemma DecidedSymmetric(u: seq<nat>, v: seq<nat>, i: nat)
    requires DecidedBy(u, v, i)
    ensures DecidedBy(v, u, i)
  {}

  lemma DecidedInside(u: seq<nat>, v: seq<nat>, i: nat)
    requires DecidedBy(u, v, i)
    ensures i < |u| && i < |v|
  {}

  /** The writer's key order is the order of the keys' UTF-8 bytes. */
  lemma {:induction false} CodePointOrderIsByteOrder(a: string, b: string)
    ensures Less(a, b) == UnitsLess(Units(Utf8, a), Units(Utf8, b))
  {
    if a != [] && b != [] {
      if a[0] == b[0] {
        CodePointOrderIsByteOrder(a[1..], b[1..]);
        UnitsLessPrefix(Utf8(a[0]), Units(Utf8, a[1..]), Units(Utf8, b[1..]));
      } else {
        var i := Utf8Decided(a[0], b[0]);
        DecidedLess(Utf8(a[0]), Utf8(b[0]), i, Units(Utf8, a[1..]), Units(Utf8, b[1..]));
      }
    }
  }

  /** Where the two orders of one character pair disagree. */
  predicate Crossed(x: char, y: char) {
    || (0xE000 <= x as int < 0x10000 && 0x10000 <= y as int)
    || (0xE000 <= y as int < 0x10000 && 0x10000 <= x as int)
  }

  lemma {:induction false} Utf16Decided(x: char, y: char) returns (i: nat)
    requires x != y
    ensures DecidedBy(Utf16(x), Utf16(y), i)
    ensures (Utf16(x)[i] < Utf16(y)[i]) == if Crossed(x, y) then y < x else x < y
  {
    var u, v := Utf16(x), Utf16(y);
    if u[0] != v[0] {
      i := 0;
    } else {
      i := 1;
    }
  }

  /** The first place where the two keys differ holds a crossed pair. */
  predicate Clash(a: string, b: string) {
    a != [] && b != [] && if a[0] == b[0] then Clash(a[1..], b[1..]) else Crossed(a[0], b[0])
  }

  predicate Utf16Less(a: string, b: string) {
    UnitsLess(Units(Utf16, a), Units(Utf16, b))
  }

  /** On two different keys the code point order and the order of RFC 8785 agree exactly when the keys do not clash. */
  lemma {:induction false} OrdersAgreeExactlyWhen(a: string, b: string)
    requires a != b
    ensures Less(a, b) == Utf16Less(a, b) <==> !Clash(a, b)
  {
    if a != [] && b != [] {
      if a[0] == b[0] {
        assert a == [a[0]] + a[1..] && b == [b[0]] + b[1..];
        OrdersAgreeExactlyWhen(a[1..], b[1..]);
        UnitsLessPrefix(Utf16(a[0]), Units(Utf16, a[1..]), Units(Utf16, b[1..]));
      } else {
        var i := Utf16Decided(a[0], b[0]);
        DecidedLess(Utf16(a[0]), Utf16(b[0]), i, Units(Utf16, a[1..]), Units(Utf16, b[1..]));
      }
    }
  }

  predicate Rfc8785Leq(a: string, b: string) {
    !Utf16Less(b, a)
  }

  lemma {:induction false} ClashSymmetric(a: string, b: string)
    ensures Clash(a, b) == Clash(b, a)
  {
    if a != [] && b != [] { ClashSymmetric(a[1..], b[1..]); }
  }

  lemma {:induction false} InOrderPair(a: string, b: string)
    requires Leq(a, b) && a != b
    ensures Rfc8785Leq(a, b) <==> !Clash(a, b)
  {
    hide Less, Clash, Utf16Less;
    LessTotal(a, b);
    OrdersAgreeExactlyWhen(b, a);
    ClashSymmetric(a, b);
  }

  /** An object's keys are written in the order of RFC 8785 exactly when no two of them clash. */
  lemma {:induction false} KeysInRfc8785OrderExactlyWhen(keys: set<string>)
    ensures Sorted(Rfc8785Leq, InOrder(keys)) <==> forall a, b :: a in keys && b in keys ==> !Clash(a, b)
  {
    hide Leq, Clash, Rfc8785Leq, InOrder;
    var s := InOrder(keys);
    InOrderSorted(keys);
    forall i, j | 0 <= i < j < |s|
      ensures Rfc8785Leq(s[i], s[j]) <==> !Clash(s[i], s[j])
    {
      InOrderPair(s[i], s[j]);
    }
    forall i | 0 <= i < |s|
      ensures s[i] in keys
    {
      assert s[i] in s;
    }
    if Sorted(Rfc8785Leq, s) {
      forall a, b | a in keys && b in keys
        ensures !Clash(a, b)
      {
        NoClashIn(s, a, b);
      }
    }
  }

  lemma {:induction false} NoClashIn(s: seq<string>, a: string, b: string)
    requires a in s && b in s && forall i, j :: 0 <= i < j < |s| ==> !Clash(s[i], s[j])
    ensures !Clash(a, b)
  {
    hide Clash;
    var i :| 0 <= i < |s| && s[i] == a;
    var j :| 0 <= j < |s| && s[j] == b;
    ClashSymmetric(a, b);
    NoSelfClash(a);
  }

  lemma {:induction false} NoSelfClash(a: string)
    ensures !Clash(a, a)
  {
    if a != [] { NoSelfClash(a[1..]); }
  }

  /** The private-use U+E000 is written before U+10000; RFC 8785 wants them the other way round. */
  lemma {:induction false} AstralKeyWrittenLate()
    ensures Less(['\U{E000}'], ['\U{10000}']) && Utf16Less(['\U{10000}'], ['\U{E000}'])
  {
    OrdersAgreeExactlyWhen(['\U{10000}'], ['\U{E000}']);
  }
}
