/** Input ceilings: the bracket scan before parsing and the tree walk after it. */
module Limits {
  import opened Sequences
  import opened Strings
  import opened Pointers

  const MAX_PRE_PARSE_NESTING: int := 1000
  const MAX_DEPTH: nat := 64
  const MAX_NODE_COUNT: nat := 20000

  // ----- Before parsing -----

  function Bracket(c: char): int {
    if c == '{' || c == '[' || c == '(' then 1 else if c == '}' || c == ']' || c == ')' then -1 else 0
  }

  /** Opening minus closing brackets. */
  function Balance(s: string): int {
    if s == [] then 0 else Balance(s[..|s| - 1]) + Bracket(s[|s| - 1])
  }

  ghost function Opening(s: string): int { multiset(s)['{'] + multiset(s)['['] + multiset(s)['('] }
  ghost function Closing(s: string): int { multiset(s)['}'] + multiset(s)[']'] + multiset(s)[')'] }

  /** Some contiguous stretch opens at least 1001 more brackets than it closes. */
  ghost predicate NestsTooDeep(s: string) {
    exists i, j :: 0 <= i <= j <= |s| && Opening(s[i..j]) - Closing(s[i..j]) > 1000
  }

  lemma BracketCounts(c: char)
    ensures Bracket(c) == Opening([c]) - Closing([c])
  {}

  lemma {:induction false} BalanceCounts(s: string)
    ensures Balance(s) == Opening(s) - Closing(s)
  {
    if s != [] {
      hide Bracket;
      var n := |s| - 1;
      BalanceCounts(s[..n]);
      BracketCounts(s[n]);
      assert s == s[..n] + [s[n]];
    }
  }

  lemma {:induction false} BalanceConcat(a: string, b: string)
    ensures Balance(a + b) == Balance(a) + Balance(b)
  {
    if b == [] {
      assert a + b == a;
    } else {
      var n := |b| - 1;
      assert (a + b)[..|a| + n] == a + b[..n];
      BalanceConcat(a, b[..n]);
    }
  }

  lemma {:induction false} BalanceSlice(s: string, i: nat, j: nat)
    requires i <= j <= |s|
    ensures Opening(s[i..j]) - Closing(s[i..j]) == Level(s, j) - Level(s, i)
  {
    BalanceCounts(s[i..j]);
    assert s[..j] == s[..i] + s[i..j];
    BalanceConcat(s[..i], s[i..j]);
  }

  /**
   The depth counter, never below zero, is the largest balance of a stretch ending here; the
   scan refuses exactly the inputs in which some stretch opens more than the ceiling allows.
   */
  method PreParseNesting(s: string) returns (ok: bool)
    ensures ok <==> !NestsTooDeep(s)
  {
    hide Bracket, Level, Balance, Opening, Closing;
    var depth: int := 0;
    ghost var start := 0;
    for n := 0 to |s|
      invariant start <= n && depth == Level(s, n) - Level(s, start)
      invariant forall i :: 0 <= i <= n ==> Level(s, n) - Level(s, i) <= depth
      invariant forall i, j :: 0 <= i <= j <= n ==> Level(s, j) - Level(s, i) <= MAX_PRE_PARSE_NESTING
    {
      LevelStep(s, n);
      var b := Bracket(s[n]);
      if b == 1 {
        depth := depth + 1;
        if depth > MAX_PRE_PARSE_NESTING {
          BalanceSlice(s, start, n + 1);
          return false;
        }
      } else if b == -1 {
        if depth > 0 {
          depth := depth - 1;
        } else {
          start := n + 1;
        }
      }
    }
    forall i, j | 0 <= i <= j <= |s|
      ensures Opening(s[i..j]) - Closing(s[i..j]) <= MAX_PRE_PARSE_NESTING
    {
      BalanceSlice(s, i, j);
    }
    ok := true;
  }

  /** The balance of the first `n` characters. */
  ghost function Level(s: string, n: nat): int
    requires n <= |s|
  {
    Balance(s[..n])
  }

  lemma {:induction false} LevelStep(s: string, n: nat)
    requires n < |s|
    ensures Level(s, n + 1) == Level(s, n) + Bracket(s[n])
    ensures Bracket(s[n]) == 1 || Bracket(s[n]) == -1 || Bracket(s[n]) == 0
  {
    assert s[..n + 1][..n] == s[..n];
  }

  // ----- After parsing -----

  function Max(a: nat, b: nat): nat { if a < b then b else a }

  /** Levels of the tree, a leaf being one. */
  ghost function Height(t: VNode): nat
    decreases t, 1
  {
    match t
    case Scalar(_, _) => 1
    case Mapping(fields) => 1 + FieldsHeight(t, InOrder(fields.Keys))
    case Sequence(elems, _) => 1 + ElemsHeight(elems)
  }

  ghost function FieldsHeight(t: VNode, keys: seq<string>): nat
    requires t.Mapping? && forall i :: 0 <= i < |keys| ==> keys[i] in t.fields
    decreases t, 0, |keys|
  {
    if keys == [] then 0 else Max(FieldsHeight(t, keys[..|keys| - 1]), Height(t.fields[keys[|keys| - 1]]))
  }

  ghost function ElemsHeight(elems: seq<VNode>): nat
    decreases elems
  {
    if elems == [] then 0 else Max(ElemsHeight(elems[..|elems| - 1]), Height(elems[|elems| - 1]))
  }

  /** All nodes: mappings, sequences and scalars. */
  ghost function Size(t: VNode): nat
    decreases t, 1
  {
    match t
    case Scalar(_, _) => 1
    case Mapping(fields) => 1 + FieldsSize(t, InOrder(fields.Keys))
    case Sequence(elems, _) => 1 + ElemsSize(elems)
  }

  ghost function FieldsSize(t: VNode, keys: seq<string>): nat
    requires t.Mapping? && forall i :: 0 <= i < |keys| ==> keys[i] in t.fields
    decreases t, 0, |keys|
  {
    if keys == [] then 0 else FieldsSize(t, keys[..|keys| - 1]) + Size(t.fields[keys[|keys| - 1]])
  }

  ghost function ElemsSize(elems: seq<VNode>): nat
    decreases elems
  {
    if elems == [] then 0 else ElemsSize(elems[..|elems| - 1]) + Size(elems[|elems| - 1])
  }

  lemma {:induction false} FieldsGrow(t: VNode, keys: seq<string>, n: nat)
    requires t.Mapping? && (forall i :: 0 <= i < |keys| ==> keys[i] in t.fields) && n <= |keys|
    ensures FieldsHeight(t, keys[..n]) <= FieldsHeight(t, keys)
    ensures FieldsSize(t, keys[..n]) <= FieldsSize(t, keys)
    decreases |keys|
  {
    if n < |keys| {
      var m := |keys| - 1;
      FieldsGrow(t, keys[..m], n);
      assert keys[..m][..n] == keys[..n];
    } else {
      assert keys[..n] == keys;
    }
  }

  lemma {:induction false} ElemsGrow(elems: seq<VNode>, n: nat)
    requires n <= |elems|
    ensures ElemsHeight(elems[..n]) <= ElemsHeight(elems)
    ensures ElemsSize(elems[..n]) <= ElemsSize(elems)
    decreases |elems|
  {
    if n < |elems| {
      var m := |elems| - 1;
      ElemsGrow(elems[..m], n);
      assert elems[..m][..n] == elems[..n];
    } else {
      assert elems[..n] == elems;
    }
  }

  /** The subtree fits under both ceilings when entered at `depth` with `count` nodes seen. */
  ghost predicate Fits(t: VNode, depth: nat, count: nat) {
    depth + Height(t) <= MAX_DEPTH + 1 && count + Size(t) <= MAX_NODE_COUNT
  }

  /** Walks with a shared node count, leaving at the first breach. */
  method WalkCeilings(t: VNode, depth: nat, count: nat) returns (ok: bool, total: nat)
    ensures ok <==> Fits(t, depth, count)
    ensures ok ==> total == count + Size(t)
    decreases t, 1
  {
    total := count;
    if depth > MAX_DEPTH {
      HeightPositive(t);
      return false, total;
    }
    total := count + 1;
    if total > MAX_NODE_COUNT {
      HeightPositive(t);
      return false, total;
    }
    match t {
      case Scalar(_, _) => ok := true;
      case Mapping(_) => ok, total := WalkFields(t, depth, count);
      case Sequence(_, _) => ok, total := WalkElems(t, depth, count);
    }
  }

  lemma HeightPositive(t: VNode)
    ensures Height(t) >= 1 && Size(t) >= 1
  {}

  method WalkFields(t: VNode, depth: nat, count: nat) returns (ok: bool, total: nat)
    requires t.Mapping? && depth <= MAX_DEPTH && count + 1 <= MAX_NODE_COUNT
    ensures ok <==> Fits(t, depth, count)
    ensures ok ==> total == count + Size(t)
    decreases t, 0
  {
    hide InOrder, Height, Size, FieldsHeight, FieldsSize;
    var keys := SortedElements(t.fields.Keys);
    MappingMeasures(t, keys);
    total := count + 1;
    assert keys[..0] == [];
    for i := 0 to |keys|
      invariant total == count + 1 + FieldsSize(t, keys[..i]) <= MAX_NODE_COUNT
      invariant depth + 1 + FieldsHeight(t, keys[..i]) <= MAX_DEPTH + 1
    {
      FieldsSnoc(t, keys, i);
      FieldsGrow(t, keys, i + 1);
      var good: bool;
      good, total := WalkCeilings(t.fields[keys[i]], depth + 1, total);
      if !good { return false, total; }
    }
    assert keys[..|keys|] == keys;
    ok := true;
  }

  lemma {:induction false} MappingMeasures(t: VNode, keys: seq<string>)
    requires t.Mapping? && keys == InOrder(t.fields.Keys)
    ensures forall j :: 0 <= j < |keys| ==> keys[j] in t.fields
    ensures Height(t) == 1 + FieldsHeight(t, keys) && Size(t) == 1 + FieldsSize(t, keys)
    ensures FieldsHeight(t, []) == 0 && FieldsSize(t, []) == 0
  {
    hide InOrder;
    forall j | 0 <= j < |keys|
      ensures keys[j] in t.fields
    {
      assert keys[j] in keys;
    }
  }

  lemma {:induction false} FieldsSnoc(t: VNode, keys: seq<string>, i: nat)
    requires t.Mapping? && (forall j :: 0 <= j < |keys| ==> keys[j] in t.fields) && i < |keys|
    ensures FieldsHeight(t, keys[..i + 1]) == Max(FieldsHeight(t, keys[..i]), Height(t.fields[keys[i]]))
    ensures FieldsSize(t, keys[..i + 1]) == FieldsSize(t, keys[..i]) + Size(t.fields[keys[i]])
  {
    hide Height, Size;
    assert keys[..i + 1][..i] == keys[..i];
  }

  method WalkElems(t: VNode, depth: nat, count: nat) returns (ok: bool, total: nat)
    requires t.Sequence? && depth <= MAX_DEPTH && count + 1 <= MAX_NODE_COUNT
    ensures ok <==> Fits(t, depth, count)
    ensures ok ==> total == count + Size(t)
    decreases t, 0
  {
    var elems := t.elems;
    total := count + 1;
    assert elems[..0] == [];
    for i := 0 to |elems|
      invariant total == count + 1 + ElemsSize(elems[..i]) <= MAX_NODE_COUNT
      invariant depth + 1 + ElemsHeight(elems[..i]) <= MAX_DEPTH + 1
    {
      assert elems[..i + 1][..i] == elems[..i];
      ElemsGrow(elems, i + 1);
      var good: bool;
      good, total := WalkCeilings(elems[i], depth + 1, total);
      if !good { return false, total; }
    }
    assert elems[..|elems|] == elems;
    ok := true;
  }

  // ----- Heights and sizes as addresses -----

  datatype Step = Key(name: string) | Index(at: nat)

  /** The node an address leads to, if it leads to one. */
  ghost function Find(t: VNode, p: seq<Step>): Option<VNode> {
    if p == [] then Some(t) else
    match t
    case Scalar(_, _) => None
    case Mapping(fields) => if p[0].Key? && p[0].name in fields then Find(fields[p[0].name], p[1..]) else None
    case Sequence(elems, _) => if p[0].Index? && p[0].at < |elems| then Find(elems[p[0].at], p[1..]) else None
  }

  ghost predicate Leads(t: VNode, p: seq<Step>) { Find(t, p).Some? }

  /** Prefixing a step keeps the number of addresses. */
  lemma {:induction false} Prefixed(s: set<seq<Step>>, x: Step) returns (r: set<seq<Step>>)
    ensures |r| == |s| && forall p :: p in r <==> p != [] && p[0] == x && p[1..] in s
  {
    if s == {} {
      r := {};
    } else {
      var q :| q in s;
      var rest := Prefixed(s - {q}, x);
      assert ([x] + q)[1..] == q;
      r := rest + {[x] + q};
      forall p
        ensures p in r <==> p != [] && p[0] == x && p[1..] in s
      {
        if p != [] && p[0] == x && p[1..] == q { assert p == [x] + q; }
      }
    }
  }

  /** The addresses below the first fields. */
  ghost predicate UnderFields(t: VNode, keys: seq<string>, p: seq<Step>) {
    p != [] && p[0].Key? && p[0].name in keys && Leads(t, p)
  }

  ghost predicate UnderElems(t: VNode, n: nat, p: seq<Step>) {
    p != [] && p[0].Index? && p[0].at < n && Leads(t, p)
  }

  lemma IntoField(t: VNode, p: seq<Step>)
    requires t.Mapping? && p != [] && p[0].Key? && p[0].name in t.fields
    ensures Leads(t, p) <==> Leads(t.fields[p[0].name], p[1..])
  {}

  lemma {:induction false} FieldAddresses(t: VNode, keys: seq<string>) returns (s: set<seq<Step>>, h: nat)
    requires t.Mapping? && Distinct(keys) && forall i :: 0 <= i < |keys| ==> keys[i] in t.fields
    ensures |s| == FieldsSize(t, keys) && forall p :: p in s <==> UnderFields(t, keys, p)
    ensures h == FieldsHeight(t, keys)
    ensures (forall p :: p in s ==> |p| <= h) && (h > 0 ==> exists p :: p in s && |p| == h)
    decreases t, 0, |keys|
  {
    hide Leads, Height, Size, InOrder;
    if keys == [] {
      s, h := {}, 0;
    } else {
      var n := |keys| - 1;
      var k := keys[n];
      assert keys == keys[..n] + [k];
      var front, low := FieldAddresses(t, keys[..n]);
      var below, high := Addresses(t.fields[k]);
      var under := Prefixed(below, Key(k));
      s, h := front + under, Max(low, high);
      forall p
        ensures p in under <==> UnderFields(t, [k], p)
      {
        if p != [] && p[0] == Key(k) { IntoField(t, p); }
      }
      assert forall p :: p in front ==> UnderFields(t, keys[..n], p);
      assert front !! under;
      DeepestOf(front, low, under, below, high, Key(k));
    }
  }

  /** The deepest address of two groups. */
  lemma {:induction false} DeepestOf(
    front: set<seq<Step>>, low: nat, under: set<seq<Step>>, below: set<seq<Step>>, high: nat, x: Step)
    requires (forall p :: p in front ==> |p| <= low) && (low > 0 ==> exists p :: p in front && |p| == low)
    requires (forall p :: p in below ==> |p| < high) && exists p :: p in below && |p| + 1 == high
    requires forall p :: p in under <==> p != [] && p[0] == x && p[1..] in below
    ensures var h := Max(low, high);
            (forall p :: p in front + under ==> |p| <= h) && exists p :: p in front + under && |p| == h
  {
    forall p | p in under
      ensures |p| <= high
    {
      assert p[1..] in below;
    }
    var q :| q in below && |q| + 1 == high;
    assert ([x] + q)[1..] == q;
    assert [x] + q in front + under;
  }

  lemma IntoElem(t: VNode, p: seq<Step>)
    requires t.Sequence? && p != [] && p[0].Index? && p[0].at < |t.elems|
    ensures Leads(t, p) <==> Leads(t.elems[p[0].at], p[1..])
  {}

  lemma {:induction false} ElemAddresses(t: VNode, n: nat) returns (s: set<seq<Step>>, h: nat)
    requires t.Sequence? && n <= |t.elems|
    ensures |s| == ElemsSize(t.elems[..n]) && forall p :: p in s <==> UnderElems(t, n, p)
    ensures h == ElemsHeight(t.elems[..n])
    ensures (forall p :: p in s ==> |p| <= h) && (h > 0 ==> exists p :: p in s && |p| == h)
    decreases t, 0, n
  {
    hide Leads, Height, Size, InOrder;
    if n == 0 {
      s, h := {}, 0;
    } else {
      var m := n - 1;
      var front, low := ElemAddresses(t, m);
      var below, high := Addresses(t.elems[m]);
      var under := Prefixed(below, Index(m));
      s, h := front + under, Max(low, high);
      assert t.elems[..n][..m] == t.elems[..m];
      forall p
        ensures p in under <==> p != [] && p[0] == Index(m) && Leads(t, p)
      {
        if p != [] && p[0] == Index(m) { IntoElem(t, p); }
      }
      assert forall p :: p in front ==> UnderElems(t, m, p);
      assert front !! under;
      DeepestOf(front, low, under, below, high, Index(m));
    }
  }

  /** A tree has as many nodes as addresses, and as many levels as its longest address has steps, plus one. */
  lemma {:induction false} Addresses(t: VNode) returns (s: set<seq<Step>>, h: nat)
    ensures |s| == Size(t) && forall p :: p in s <==> Leads(t, p)
    ensures h == Height(t) && (forall p :: p in s ==> |p| < h) && exists p :: p in s && |p| + 1 == h
    decreases t, 1
  {
    hide Find, InOrder, FieldsSize, FieldsHeight, ElemsSize, ElemsHeight;
    var below: set<seq<Step>>, low: nat := {}, 0;
    match t {
      case Scalar(_, _) =>
      case Mapping(_) =>
        var keys := InOrder(t.fields.Keys);
        InOrderSorted(t.fields.Keys);
        MappingMeasures(t, keys);
        below, low := FieldAddresses(t, keys);
      case Sequence(elems, _) =>
        assert elems[..|elems|] == elems;
        below, low := ElemAddresses(t, |elems|);
    }
    forall p
      ensures p in below <==> p != [] && Leads(t, p)
    {
      FirstStep(t, p);
    }
    s, h := below + {[]}, low + 1;
    assert Leads(t, []) by { HereLeads(t); }
    assert [] in s;
  }

  lemma HereLeads(t: VNode)
    ensures Leads(t, [])
  {}

  /** Every longer address starts with a field or an element that is there. */
  lemma FirstStep(t: VNode, p: seq<Step>)
    ensures p != [] && Leads(t, p) ==>
            || (t.Mapping? && p[0].Key? && p[0].name in t.fields)
            || (t.Sequence? && p[0].Index? && p[0].at < |t.elems|)
  {}

  /** Accepts exactly the trees in which no address has 64 steps, and that have at most 20000 addresses. */
  method CheckNodeCeilings(root: VNode) returns (ok: bool)
    ensures ok <==> && (forall p :: Leads(root, p) ==> |p| < 64)
                    && forall s: set<seq<Step>> :: (forall p :: p in s ==> Leads(root, p)) ==> |s| <= 20000
  {
    var total: nat;
    ok, total := WalkCeilings(root, 1, 0);
    AddressCeilings(root);
  }

  lemma {:induction false} AddressCeilings(t: VNode)
    ensures Height(t) <= 64 <==> forall p :: Leads(t, p) ==> |p| < 64
    ensures Size(t) <= 20000 <==> forall s: set<seq<Step>> :: (forall p :: p in s ==> Leads(t, p)) ==> |s| <= 20000
  {
    hide Leads;
    var all, h := Addresses(t);
    forall s: set<seq<Step>> | forall p :: p in s ==> Leads(t, p)
      ensures |s| <= |all|
    {
      assert s <= all;
      Subset(s, all);
    }
  }

  lemma {:induction false} Subset(s: set<seq<Step>>, all: set<seq<Step>>)
    requires s <= all
    ensures |s| <= |all|
  {
    assert all == s + (all - s);
  }
}
