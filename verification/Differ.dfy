/**
 The structural differ: two value trees walked key by key into modify, add and delete changes,
 or an opaque outcome for anything it cannot decide.
 */
module Differ {
  import opened Sequences
  import opened Strings
  import opened Pointers

  datatype Kind = Modify | Add | Delete | Rename

  datatype Change = Change(
    file: string, path: string, kind: Kind, oldPath: string, oldValue: string, newValue: string, entryRef: string)

  datatype Outcome = Opaque | Changes(list: seq<Change>)

  function MakeChange(file: string, path: string, kind: Kind, oldValue: string, newValue: string): Change {
    Change(file, path, kind, "", oldValue, newValue, "")
  }

  function OneSided(file: string, path: string, node: VNode, kind: Kind): Outcome {
    if !node.Scalar? then Opaque
    else if kind == Add then Changes([MakeChange(file, path, Add, "", node.render)])
    else Changes([MakeChange(file, path, kind, node.render, "")])
  }

  function Then(a: Outcome, b: Outcome): Outcome {
    if a.Opaque? || b.Opaque? then Opaque else Changes(a.list + b.list)
  }

  /** Two nodes at one pointer. */
  ghost function WalkNode(file: string, ptr: string, base: VNode, head: VNode): Outcome
    decreases base, 1
  {
    if base.Mapping? && head.Mapping? then WalkKeys(file, ptr, base, head, InOrder(base.fields.Keys + head.fields.Keys))
    else if base.Scalar? && head.Scalar? then
      if base.cmpKey == head.cmpKey then Changes([])
      else Changes([MakeChange(file, ptr, Modify, base.render, head.render)])
    else Opaque
  }

  /** The keys of two mappings, in the given order. */
  ghost function WalkKeys(file: string, ptr: string, base: VNode, head: VNode, keys: seq<string>): Outcome
    requires base.Mapping? && head.Mapping?
    requires forall i :: 0 <= i < |keys| ==> keys[i] in base.fields || keys[i] in head.fields
    decreases base, 0, |keys|
  {
    if keys == [] then Changes([]) else
    Then(WalkKey(file, ptr, base, head, keys[0]), WalkKeys(file, ptr, base, head, keys[1..]))
  }

  ghost function WalkKey(file: string, ptr: string, base: VNode, head: VNode, k: string): Outcome
    requires base.Mapping? && head.Mapping? && (k in base.fields || k in head.fields)
    decreases base, 0, 0
  {
    var child := ptr + "/" + EscapePointer(k);
    if k !in head.fields then OneSided(file, child, base.fields[k], Delete)
    else if k !in base.fields then OneSided(file, child, head.fields[k], Add)
    else WalkNode(file, child, base.fields[k], head.fields[k])
  }

  // ----- The walk as the code does it -----

  /** Appends to `out`; a false result means opaque. */
  method WalkNodeInto(
    file: string, ptr: string, base: VNode, head: VNode, out: seq<Change>)
    returns (ok: bool, r: seq<Change>)
    ensures ok <==> WalkNode(file, ptr, base, head).Changes?
    ensures ok ==> r == out + WalkNode(file, ptr, base, head).list
    decreases base, 1
  {
    if base.Mapping? && head.Mapping? {
      ok, r := WalkMappingInto(file, ptr, base, head, out);
    } else if base.Mapping? != head.Mapping? {
      ok, r := false, out;
    } else if !base.Scalar? || !head.Scalar? {
      ok, r := false, out;
    } else if base.cmpKey != head.cmpKey {
      ok, r := true, out + [MakeChange(file, ptr, Modify, base.render, head.render)];
    } else {
      ok, r := true, out;
    }
  }

  method EmitOneSided(
    file: string, ptr: string, node: VNode, kind: Kind, out: seq<Change>)
    returns (ok: bool, r: seq<Change>)
    ensures ok <==> OneSided(file, ptr, node, kind).Changes?
    ensures ok ==> r == out + OneSided(file, ptr, node, kind).list
  {
    if !node.Scalar? { return false, out; }
    var ch := MakeChange(file, ptr, kind, "", "");
    if kind == Add { ch := ch.(newValue := node.render); } else { ch := ch.(oldValue := node.render); }
    return true, out + [ch];
  }

  lemma {:induction false} WalkKeysSnoc(
    file: string, ptr: string, base: VNode, head: VNode, keys: seq<string>, k: string)
    requires base.Mapping? && head.Mapping?
    requires forall i :: 0 <= i < |keys| ==> keys[i] in base.fields || keys[i] in head.fields
    requires k in base.fields || k in head.fields
    ensures WalkKeys(file, ptr, base, head, keys + [k])
         == Then(WalkKeys(file, ptr, base, head, keys), WalkKey(file, ptr, base, head, k))
    decreases |keys|
  {
    hide WalkKey;
    if keys == [] {
      assert [k][1..] == [] && [] + [k] == [k];
    } else {
      assert (keys + [k])[1..] == keys[1..] + [k];
      WalkKeysSnoc(file, ptr, base, head, keys[1..], k);
    }
  }

  /** One opaque key makes the mapping opaque. */
  lemma {:induction false} WalkKeysOpaque(
    file: string, ptr: string, base: VNode, head: VNode, keys: seq<string>, i: nat)
    requires base.Mapping? && head.Mapping?
    requires forall j :: 0 <= j < |keys| ==> keys[j] in base.fields || keys[j] in head.fields
    requires i < |keys| && WalkKey(file, ptr, base, head, keys[i]).Opaque?
    ensures WalkKeys(file, ptr, base, head, keys).Opaque?
    decreases |keys|
  {
    hide WalkKey;
    if i > 0 {
      WalkKeysOpaque(file, ptr, base, head, keys[1..], i - 1);
    }
  }

  method WalkMappingInto(
    file: string, ptr: string, base: VNode, head: VNode, out: seq<Change>)
    returns (ok: bool, r: seq<Change>)
    requires base.Mapping? && head.Mapping?
    ensures ok <==> WalkNode(file, ptr, base, head).Changes?
    ensures ok ==> r == out + WalkNode(file, ptr, base, head).list
    decreases base, 0, 1
  {
    hide EscapePointer, OneSided, WalkKeys, WalkKey, InOrder, WalkNode;
    var keys := SortedElements(base.fields.Keys + head.fields.Keys);
    r := out;
    EmptyKeys(file, ptr, base, head);
    WalkMappingIs(file, ptr, base, head, keys);
    for i := 0 to |keys|
      invariant WalkKeys(file, ptr, base, head, keys[..i]).Changes?
      invariant r == out + WalkKeys(file, ptr, base, head, keys[..i]).list
    {
      var k := keys[i];
      assert keys[..i + 1] == keys[..i] + [k];
      WalkKeysSnoc(file, ptr, base, head, keys[..i], k);
      var good: bool;
      good, r := WalkKeyInto(file, ptr, base, head, k, r);
      if !good {
        WalkKeysOpaque(file, ptr, base, head, keys, i);
        return false, r;
      }
    }
    assert keys[..|keys|] == keys;
    ok := true;
  }

  method WalkKeyInto(
    file: string, ptr: string, base: VNode, head: VNode, k: string, out: seq<Change>)
    returns (ok: bool, r: seq<Change>)
    requires base.Mapping? && head.Mapping? && (k in base.fields || k in head.fields)
    ensures ok <==> WalkKey(file, ptr, base, head, k).Changes?
    ensures ok ==> r == out + WalkKey(file, ptr, base, head, k).list
    decreases base, 0, 0
  {
    hide EscapePointer, OneSided;
    var child := ptr + "/" + EscapePointer(k);
    if k !in head.fields {
      ok, r := EmitOneSided(file, child, base.fields[k], Delete, out);
    } else if k !in base.fields {
      ok, r := EmitOneSided(file, child, head.fields[k], Add, out);
    } else {
      ok, r := WalkNodeInto(file, child, base.fields[k], head.fields[k], out);
    }
  }

  lemma {:induction false} WalkMappingIs(file: string, ptr: string, base: VNode, head: VNode, keys: seq<string>)
    requires base.Mapping? && head.Mapping? && keys == InOrder(base.fields.Keys + head.fields.Keys)
    ensures forall i :: 0 <= i < |keys| ==> keys[i] in base.fields || keys[i] in head.fields
    ensures WalkNode(file, ptr, base, head) == WalkKeys(file, ptr, base, head, keys)
  {
    hide WalkKeys, InOrder;
    forall i | 0 <= i < |keys|
      ensures keys[i] in base.fields || keys[i] in head.fields
    {
      assert keys[i] in keys;
    }
  }

  lemma EmptyKeys(file: string, ptr: string, base: VNode, head: VNode)
    requires base.Mapping? && head.Mapping?
    ensures WalkKeys(file, ptr, base, head, []) == Changes([])
  {}

  // ----- What is decidable, and what is the same -----

  /** Scalars against scalars, mappings against mappings, and one-sided scalars. */
  ghost predicate Decidable(base: VNode, head: VNode)
    decreases base
  {
    || (base.Scalar? && head.Scalar?)
    || (&& base.Mapping? && head.Mapping?
        && forall k :: k in base.fields.Keys + head.fields.Keys ==>
             if k !in head.fields then base.fields[k].Scalar?
             else if k !in base.fields then head.fields[k].Scalar?
             else Decidable(base.fields[k], head.fields[k]))
  }

  /** The same keys everywhere and the same comparison key at every scalar. */
  ghost predicate SameTree(base: VNode, head: VNode)
    decreases base
  {
    || (base.Scalar? && head.Scalar? && base.cmpKey == head.cmpKey)
    || (&& base.Mapping? && head.Mapping? && base.fields.Keys == head.fields.Keys
        && forall k :: k in base.fields.Keys ==> k in head.fields && SameTree(base.fields[k], head.fields[k]))
  }

  /** The walk gives up exactly on undecidable pairs, and is silent exactly on equal trees. */
  lemma {:induction false} WalkDecides(file: string, ptr: string, base: VNode, head: VNode)
    ensures WalkNode(file, ptr, base, head).Changes? <==> Decidable(base, head)
    ensures WalkNode(file, ptr, base, head) == Changes([]) <==> SameTree(base, head)
    decreases base, 1
  {
    hide EscapePointer;
    if base.Mapping? && head.Mapping? {
      var all := base.fields.Keys + head.fields.Keys;
      WalkKeysDecide(file, ptr, base, head, InOrder(all));
      assert forall k :: k in InOrder(all) <==> k in all;
      if forall k :: k in all ==> SameAt(base, head, k) {
        assert forall k :: k in all ==> k in base.fields && k in head.fields;
        assert base.fields.Keys == head.fields.Keys;
      }
    }
  }

  ghost predicate DecidableAt(base: VNode, head: VNode, k: string)
    requires base.Mapping? && head.Mapping? && (k in base.fields || k in head.fields)
  {
    if k !in head.fields then base.fields[k].Scalar?
    else if k !in base.fields then head.fields[k].Scalar?
    else Decidable(base.fields[k], head.fields[k])
  }

  ghost predicate SameAt(base: VNode, head: VNode, k: string)
    requires base.Mapping? && head.Mapping?
  {
    k in base.fields && k in head.fields && SameTree(base.fields[k], head.fields[k])
  }

  lemma {:induction false} WalkKeysDecide(file: string, ptr: string, base: VNode, head: VNode, keys: seq<string>)
    requires base.Mapping? && head.Mapping?
    requires forall i :: 0 <= i < |keys| ==> keys[i] in base.fields || keys[i] in head.fields
    ensures WalkKeys(file, ptr, base, head, keys).Changes? <==> forall k :: k in keys ==> DecidableAt(base, head, k)
    ensures WalkKeys(file, ptr, base, head, keys) == Changes([]) <==> forall k :: k in keys ==> SameAt(base, head, k)
    decreases base, 0, |keys|
  {
    hide EscapePointer, Decidable, SameTree;
    if keys != [] {
      var k := keys[0];
      WalkKeysDecide(file, ptr, base, head, keys[1..]);
      if k in base.fields && k in head.fields {
        WalkDecides(file, ptr + "/" + EscapePointer(k), base.fields[k], head.fields[k]);
      }
      assert forall x :: x in keys <==> x == k || x in keys[1..];
      assert WalkKey(file, ptr, base, head, k).Changes? <==> DecidableAt(base, head, k);
      assert WalkKey(file, ptr, base, head, k) == Changes([]) <==> SameAt(base, head, k);
    }
  }

  // ----- What the changes say -----

  ghost function Leaf(t: VNode, q: seq<string>): Option<VNode> {
    var n := Lookup(t, q);
    if n.Some? && n.value.Scalar? then n else None
  }

  /** The two sides disagree at key path `q`. */
  ghost predicate Differs(base: VNode, head: VNode, q: seq<string>) {
    var b, h := Leaf(base, q), Leaf(head, q);
    || (b.Some? && h.None?) || (b.None? && h.Some?)
    || (b.Some? && h.Some? && b.value.cmpKey != h.value.cmpKey)
  }

  ghost function ChangeFor(file: string, ptr: string, base: VNode, head: VNode, q: seq<string>): Change
    requires Differs(base, head, q)
  {
    var b, h := Leaf(base, q), Leaf(head, q);
    if h.None? then MakeChange(file, ptr, Delete, b.value.render, "")
    else if b.None? then MakeChange(file, ptr, Add, "", h.value.render)
    else MakeChange(file, ptr, Modify, b.value.render, h.value.render)
  }

  /** `c` is what the differ should say about key path `q` below `p`. */
  ghost predicate Reports(file: string, p: seq<string>, base: VNode, head: VNode, q: seq<string>, c: Change) {
    Differs(base, head, q) && c == ChangeFor(file, Ptr(p + q), base, head, q)
  }

  /** The changes are exactly the reports of the key paths that differ, each once. */
  ghost predicate Exactly(file: string, p: seq<string>, base: VNode, head: VNode, cs: seq<Change>) {
    && (forall c :: c in cs <==> exists q :: Reports(file, p, base, head, q, c))
    && (forall i, j :: 0 <= i < j < |cs| ==> cs[i].path != cs[j].path)
  }

  /** The same, for the key paths that start with one of `keys`. */
  ghost predicate ExactlyUnder(
    file: string, p: seq<string>, base: VNode, head: VNode, keys: seq<string>, cs: seq<Change>)
  {
    && (forall c :: c in cs <==> exists q :: q != [] && q[0] in keys && Reports(file, p, base, head, q, c))
    && (forall i, j :: 0 <= i < j < |cs| ==> cs[i].path != cs[j].path)
  }

  lemma LeafScalar(t: VNode, q: seq<string>)
    requires t.Scalar?
    ensures Leaf(t, q) == if q == [] then Some(t) else None
  {}

  lemma LeafMapping(t: VNode, q: seq<string>)
    requires t.Mapping?
    ensures q == [] ==> Leaf(t, q) == None
    ensures q != [] ==> Leaf(t, q) == if q[0] in t.fields then Leaf(t.fields[q[0]], q[1..]) else None
  {}

  /** What a report below one key looks like from inside that key. */
  lemma {:induction false} ReportsInside(
    file: string, p: seq<string>, base: VNode, head: VNode, q: seq<string>, c: Change)
    requires base.Mapping? && head.Mapping? && q != [] && q[0] in base.fields && q[0] in head.fields
    ensures Reports(file, p, base, head, q, c)
            <==> Reports(file, p + [q[0]], base.fields[q[0]], head.fields[q[0]], q[1..], c)
  {
    hide Leaf, Ptr;
    LeafMapping(base, q);
    LeafMapping(head, q);
    assert p + [q[0]] + q[1..] == p + q;
  }

  lemma {:induction false} ScalarExactly(file: string, p: seq<string>, base: VNode, head: VNode)
    requires base.Scalar? && head.Scalar?
    ensures Exactly(file, p, base, head, WalkNode(file, Ptr(p), base, head).list)
  {
    hide Ptr, Lookup;
    forall q
      ensures Differs(base, head, q) <==> q == [] && base.cmpKey != head.cmpKey
    {
      LeafScalar(base, q);
      LeafScalar(head, q);
    }
    assert p + [] == p;
    LeafScalar(base, []);
    LeafScalar(head, []);
    if base.cmpKey != head.cmpKey {
      assert Reports(file, p, base, head, [], MakeChange(file, Ptr(p), Modify, base.render, head.render));
    }
  }

  /** A key on one side only, with a scalar value. */
  lemma {:induction false} OneSidedExactly(file: string, p: seq<string>, base: VNode, head: VNode, k: string)
    requires base.Mapping? && head.Mapping? && (k in base.fields || k in head.fields)
    requires !(k in base.fields && k in head.fields)
    requires WalkKey(file, Ptr(p), base, head, k).Changes?
    ensures ExactlyUnder(file, p, base, head, [k], WalkKey(file, Ptr(p), base, head, k).list)
  {
    hide Ptr, Lookup, EscapePointer, Leaf;
    PtrSnoc(p, k);
    var side := if k in base.fields then base.fields[k] else head.fields[k];
    forall q | q != [] && q[0] in [k]
      ensures Differs(base, head, q) <==> q == [k]
    {
      assert q == [k] + q[1..];
      LeafMapping(base, q);
      LeafMapping(head, q);
      LeafScalar(side, q[1..]);
    }
    var c := WalkKey(file, Ptr(p), base, head, k).list[0];
    assert [k][1..] == [];
    LeafMapping(base, [k]);
    LeafMapping(head, [k]);
    LeafScalar(side, []);
    assert Reports(file, p, base, head, [k], c);
  }

  lemma {:induction false} InsideExactly(
    file: string, p: seq<string>, base: VNode, head: VNode, k: string, cs: seq<Change>)
    requires base.Mapping? && head.Mapping? && k in base.fields && k in head.fields
    requires Exactly(file, p + [k], base.fields[k], head.fields[k], cs)
    ensures ExactlyUnder(file, p, base, head, [k], cs)
  {
    hide Reports;
    forall c | c in cs
      ensures exists q :: q != [] && q[0] in [k] && Reports(file, p, base, head, q, c)
    {
      var r :| Reports(file, p + [k], base.fields[k], head.fields[k], r, c);
      var q := [k] + r;
      assert q[0] == k && q[1..] == r;
      ReportsInside(file, p, base, head, q, c);
    }
    forall c, q | q != [] && q[0] in [k] && Reports(file, p, base, head, q, c)
      ensures c in cs
    {
      ReportsInside(file, p, base, head, q, c);
      assert Reports(file, p + [k], base.fields[k], head.fields[k], q[1..], c);
    }
  }

  /** Reports under different keys have different paths. */
  lemma {:induction false} KeysApart(
    file: string, p: seq<string>, base: VNode, head: VNode, q: seq<string>, c: Change, r: seq<string>, d: Change)
    requires Reports(file, p, base, head, q, c) && Reports(file, p, base, head, r, d)
    requires q != [] && r != [] && q[0] != r[0]
    ensures c.path != d.path
  {
    hide Ptr, Leaf;
    assert (p + q)[|p|] == q[0] && (p + r)[|p|] == r[0];
    if c.path == d.path {
      PtrInjective(p + q, p + r);
    }
  }

  lemma {:induction false} AppendExactly(
    file: string, p: seq<string>, base: VNode, head: VNode, k: string, rest: seq<string>, a: seq<Change>,
    b: seq<Change>)
    requires k !in rest
    requires ExactlyUnder(file, p, base, head, [k], a) && ExactlyUnder(file, p, base, head, rest, b)
    ensures ExactlyUnder(file, p, base, head, [k] + rest, a + b)
  {
    hide Reports;
    var keys := [k] + rest;
    forall i, j | 0 <= i < |a| && 0 <= j < |b|
      ensures a[i].path != b[j].path
    {
      assert a[i] in a && b[j] in b;
      var q :| q != [] && q[0] in [k] && Reports(file, p, base, head, q, a[i]);
      var r :| r != [] && r[0] in rest && Reports(file, p, base, head, r, b[j]);
      KeysApart(file, p, base, head, q, a[i], r, b[j]);
    }
    forall c
      ensures c in a + b <==> exists q :: q != [] && q[0] in keys && Reports(file, p, base, head, q, c)
    {
      if c in a {
        var q :| q != [] && q[0] in [k] && Reports(file, p, base, head, q, c);
        assert q[0] in keys;
      }
      if c in b {
        var q :| q != [] && q[0] in rest && Reports(file, p, base, head, q, c);
        assert q[0] in keys;
      }
      if exists q :: q != [] && q[0] in keys && Reports(file, p, base, head, q, c) {
        var q :| q != [] && q[0] in keys && Reports(file, p, base, head, q, c);
        assert q[0] in [k] || q[0] in rest;
      }
    }
  }

  lemma {:induction false} KeysExactly(file: string, p: seq<string>, base: VNode, head: VNode, keys: seq<string>)
    requires base.Mapping? && head.Mapping? && Distinct(keys)
    requires forall i :: 0 <= i < |keys| ==> keys[i] in base.fields || keys[i] in head.fields
    requires WalkKeys(file, Ptr(p), base, head, keys).Changes?
    ensures ExactlyUnder(file, p, base, head, keys, WalkKeys(file, Ptr(p), base, head, keys).list)
    decreases base, 0, |keys|
  {
    hide WalkKey, Reports, Ptr, EscapePointer, ExactlyUnder;
    if keys == [] {
      NothingExactly(file, p, base, head);
    } else {
      var k, rest := keys[0], keys[1..];
      KeysExactly(file, p, base, head, rest);
      var a := WalkKey(file, Ptr(p), base, head, k).list;
      if k in base.fields && k in head.fields {
        InsideKey(file, p, base, head, k);
        NodeExactly(file, p + [k], base.fields[k], head.fields[k]);
        InsideExactly(file, p, base, head, k, a);
      } else {
        OneSidedExactly(file, p, base, head, k);
      }
      assert k !in rest;
      AppendExactly(file, p, base, head, k, rest, a, WalkKeys(file, Ptr(p), base, head, rest).list);
      assert keys == [k] + rest;
    }
  }

  lemma {:induction false} InsideKey(file: string, p: seq<string>, base: VNode, head: VNode, k: string)
    requires base.Mapping? && head.Mapping? && k in base.fields && k in head.fields
    ensures WalkKey(file, Ptr(p), base, head, k) == WalkNode(file, Ptr(p + [k]), base.fields[k], head.fields[k])
  {
    hide EscapePointer, Ptr, WalkNode;
    PtrSnoc(p, k);
  }

  lemma NothingExactly(file: string, p: seq<string>, base: VNode, head: VNode)
    ensures ExactlyUnder(file, p, base, head, [], [])
  {}

  /** A decided walk reports every key path that differs, correctly and once, and nothing else. */
  lemma {:induction false} NodeExactly(file: string, p: seq<string>, base: VNode, head: VNode)
    requires WalkNode(file, Ptr(p), base, head).Changes?
    ensures Exactly(file, p, base, head, WalkNode(file, Ptr(p), base, head).list)
    decreases base, 1
  {
    hide Reports, Ptr, WalkKeys, Exactly;
    if base.Mapping? {
      var keys := InOrder(base.fields.Keys + head.fields.Keys);
      InOrderSorted(base.fields.Keys + head.fields.Keys);
      KeysExactly(file, p, base, head, keys);
      UnderAll(file, p, base, head, keys, WalkNode(file, Ptr(p), base, head).list);
    } else {
      ScalarExactly(file, p, base, head);
    }
  }

  lemma {:induction false} UnderAll(
    file: string, p: seq<string>, base: VNode, head: VNode, keys: seq<string>, cs: seq<Change>)
    requires base.Mapping? && head.Mapping? && ExactlyUnder(file, p, base, head, keys, cs)
    requires forall k :: k in keys <==> k in base.fields || k in head.fields
    ensures Exactly(file, p, base, head, cs)
  {
    hide Ptr, Leaf;
    forall q, c | Reports(file, p, base, head, q, c)
      ensures q != [] && q[0] in keys
    {
      LeafMapping(base, q);
      LeafMapping(head, q);
    }
  }

  // ----- Diff -----

  function PathKey(c: Change): seq<string> { [c.file, c.path] }

  predicate ChangeLeq(a: Change, b: Change) {
    LexLeq(PathKey(a), PathKey(b))
  }

  lemma {:induction false} ChangeLeqPreorder()
    ensures TotalPreorder(ChangeLeq)
  {
    hide LexLeq;
    forall a, b
      ensures ChangeLeq(a, b) || ChangeLeq(b, a)
    {
      LexCompare(PathKey(a), PathKey(b));
    }
    forall a, b, c | ChangeLeq(a, b) && ChangeLeq(b, c)
      ensures ChangeLeq(a, c)
    {
      LexTransitive(PathKey(a), PathKey(b), PathKey(c));
    }
  }

  method SortChanges(cs: seq<Change>) returns (r: seq<Change>)
    ensures Permutation(r, cs) && Sorted(ChangeLeq, r)
  {
    ChangeLeqPreorder();
    r := SortBy(ChangeLeq, cs);
    SortBySorted(ChangeLeq, cs);
  }

  /** Diffs two parsed documents; the trees are what the producers built. */
  method Diff(file: string, base: VNode, head: VNode) returns (out: Outcome)
    ensures out.Changes? <==> Decidable(base, head)
    ensures out.Changes? ==> Exactly(file, [], base, head, out.list) && Sorted(ChangeLeq, out.list)
  {
    hide Exactly, Decidable, WalkNode, ChangeLeq;
    WalkDecides(file, "", base, head);
    var ok, cs := WalkNodeInto(file, "", base, head, []);
    if !ok { return Opaque; }
    var sorted := SortChanges(cs);
    assert [] + WalkNode(file, "", base, head).list == WalkNode(file, "", base, head).list;
    assert Ptr([]) == "";
    NodeExactly(file, [], base, head);
    ExactlyPermutes(file, [], base, head, cs, sorted);
    return Changes(sorted);
  }

  lemma {:induction false} ExactlyPermutes(
    file: string, p: seq<string>, base: VNode, head: VNode, cs: seq<Change>, ds: seq<Change>)
    requires Exactly(file, p, base, head, cs) && Permutation(cs, ds)
    ensures Exactly(file, p, base, head, ds)
  {
    hide Reports;
    PermutationMembers(cs, ds);
    PathsPermute(cs, ds);
  }

  lemma {:induction false} PathsPermute(cs: seq<Change>, ds: seq<Change>)
    requires Permutation(cs, ds)
    requires forall i, j :: 0 <= i < j < |cs| ==> cs[i].path != cs[j].path
    ensures forall i, j :: 0 <= i < j < |ds| ==> ds[i].path != ds[j].path
  {
    MapPermutes(PathOf(), cs, ds);
    PermutationDistinct(Map(PathOf(), cs), Map(PathOf(), ds));
    forall i, j | 0 <= i < j < |ds|
      ensures ds[i].path != ds[j].path
    {
      assert Map(PathOf(), ds)[i] != Map(PathOf(), ds)[j];
    }
  }

  function PathOf(): Change -> string { (c: Change) => c.path }

  // ----- Patch correctness -----

  /** Producers build a comparison key that determines the rendered value. */
  ghost predicate WellKeyed(t: VNode)
    decreases t
  {
    match t
    case Scalar(render, cmpKey) =>
      exists tag: string :: '\0' !in tag && cmpKey == tag + ['\0'] + render
    case Mapping(fields) => forall k :: k in fields ==> WellKeyed(fields[k])
    case Sequence(elems, _) => forall i :: 0 <= i < |elems| ==> WellKeyed(elems[i])
  }

  lemma {:induction false} LeafWellKeyed(t: VNode, q: seq<string>)
    requires WellKeyed(t)
    ensures Leaf(t, q).Some? ==> WellKeyed(Leaf(t, q).value)
    decreases q
  {
    if q != [] && t.Mapping? && q[0] in t.fields {
      LeafWellKeyed(t.fields[q[0]], q[1..]);
    }
  }

  /** Equal comparison keys mean equal renders: the separator cannot occur in a tag. */
  lemma {:induction false} KeyDeterminesRender(a: VNode, b: VNode)
    requires a.Scalar? && b.Scalar? && WellKeyed(a) && WellKeyed(b) && a.cmpKey == b.cmpKey
    ensures a.render == b.render
  {
    var s: string :| '\0' !in s && a.cmpKey == s + ['\0'] + a.render;
    var t: string :| '\0' !in t && b.cmpKey == t + ['\0'] + b.render;
    SeparatorSplits(s, a.render, t, b.render, '\0');
  }

  ghost function RenderAt(t: VNode, q: seq<string>): Option<string> {
    if Leaf(t, q).Some? then Some(Leaf(t, q).value.render) else None
  }

  /** What key path `q` renders to after applying the changes to `base`. */
  ghost function Patched(base: VNode, cs: seq<Change>, q: seq<string>): Option<string> {
    if i: nat :| i < |cs| && cs[i].path == Ptr(q)
    then if cs[i].kind == Delete then None else Some(cs[i].newValue)
    else RenderAt(base, q)
  }

  /** A patch that names a path speaks about that key path. */
  lemma {:induction false} PathMeans(file: string, base: VNode, head: VNode, cs: seq<Change>, i: nat, q: seq<string>)
    requires Exactly(file, [], base, head, cs) && i < |cs| && cs[i].path == Ptr(q)
    ensures Reports(file, [], base, head, q, cs[i])
  {
    hide Ptr, Leaf;
    assert cs[i] in cs;
    var r :| Reports(file, [], base, head, r, cs[i]);
    assert [] + r == r;
    PtrInjective(r, q);
  }

  /**
   Patch correctness: apply a decided diff to the base's scalar leaves and every key path renders
   exactly as in the head.  Paths are non-empty, and strictly increasing once sorted.
   */
  lemma {:induction false} PatchCorrect(file: string, base: VNode, head: VNode, cs: seq<Change>, q: seq<string>)
    requires WellKeyed(base) && WellKeyed(head)
    requires Exactly(file, [], base, head, cs)
    ensures Patched(base, cs, q) == RenderAt(head, q)
  {
    hide Ptr, Exactly, Lookup;
    if exists i: nat :: i < |cs| && cs[i].path == Ptr(q) {
      forall i: nat | i < |cs| && cs[i].path == Ptr(q)
        ensures (if cs[i].kind == Delete then None else Some(cs[i].newValue)) == RenderAt(head, q)
      {
        PathMeans(file, base, head, cs, i, q);
      }
    } else {
      DifferenceReported(file, base, head, cs, q);
      LeafWellKeyed(base, q);
      LeafWellKeyed(head, q);
      if Leaf(base, q).Some? && Leaf(head, q).Some? {
        KeyDeterminesRender(Leaf(base, q).value, Leaf(head, q).value);
      }
    }
  }

  /** What key path `q` renders to after taking the changes back from `head`. */
  ghost function Reverted(head: VNode, cs: seq<Change>, q: seq<string>): Option<string> {
    if i: nat :| i < |cs| && cs[i].path == Ptr(q)
    then if cs[i].kind == Add then None else Some(cs[i].oldValue)
    else RenderAt(head, q)
  }

  /** The way back: the same changes, taken back from the head, give every key path as the base renders it. */
  lemma {:induction false} RevertCorrect(file: string, base: VNode, head: VNode, cs: seq<Change>, q: seq<string>)
    requires WellKeyed(base) && WellKeyed(head)
    requires Exactly(file, [], base, head, cs)
    ensures Reverted(head, cs, q) == RenderAt(base, q)
  {
    hide Ptr, Exactly, Lookup;
    if exists i: nat :: i < |cs| && cs[i].path == Ptr(q) {
      forall i: nat | i < |cs| && cs[i].path == Ptr(q)
        ensures (if cs[i].kind == Add then None else Some(cs[i].oldValue)) == RenderAt(base, q)
      {
        PathMeans(file, base, head, cs, i, q);
      }
    } else {
      DifferenceReported(file, base, head, cs, q);
      LeafWellKeyed(base, q);
      LeafWellKeyed(head, q);
      if Leaf(base, q).Some? && Leaf(head, q).Some? {
        KeyDeterminesRender(Leaf(base, q).value, Leaf(head, q).value);
      }
    }
  }

  /** Every key path that differs is named by some change. */
  lemma {:induction false} DifferenceReported(file: string, base: VNode, head: VNode, cs: seq<Change>, q: seq<string>)
    requires Exactly(file, [], base, head, cs)
    ensures Differs(base, head, q) ==> exists i: nat :: i < |cs| && cs[i].path == Ptr(q)
  {
    hide Ptr, Leaf;
    if Differs(base, head, q) {
      assert [] + q == q;
      var c := ChangeFor(file, Ptr(q), base, head, q);
      assert Reports(file, [], base, head, q, c);
      assert c in cs;
      var i :| 0 <= i < |cs| && cs[i] == c;
    }
  }

  /** The diff of two mappings is empty exactly when they agree on every key and comparison key. */
  lemma {:induction false} EmptyExactlyWhenSame(file: string, base: VNode, head: VNode, cs: seq<Change>)
    requires Decidable(base, head) && Exactly(file, [], base, head, cs)
    ensures cs == [] <==> SameTree(base, head)
  {
    hide WalkNode, Exactly, Decidable, SameTree;
    WalkDecides(file, "", base, head);
    assert Ptr([]) == "";
    NodeExactly(file, [], base, head);
    SameMembers(file, base, head, cs, WalkNode(file, "", base, head).list);
  }

  lemma {:induction false} SameMembers(file: string, base: VNode, head: VNode, cs: seq<Change>, ds: seq<Change>)
    requires Exactly(file, [], base, head, cs) && Exactly(file, [], base, head, ds)
    ensures cs == [] <==> ds == []
    ensures forall c :: c in cs <==> c in ds
  {
    hide Reports;
    assert forall c :: c in cs <==> c in ds;
    assert cs != [] ==> cs[0] in cs;
    assert ds != [] ==> ds[0] in ds;
  }

  /** Between mappings every path is non-empty, and sorting makes them strictly increasing. */
  lemma {:induction false} PathsIncrease(file: string, base: VNode, head: VNode, cs: seq<Change>)
    requires base.Mapping? && head.Mapping?
    requires Exactly(file, [], base, head, cs) && Sorted(ChangeLeq, cs)
    ensures forall i :: 0 <= i < |cs| ==> cs[i].path != "" && cs[i].file == file
    ensures forall i, j :: 0 <= i < j < |cs| ==> Less(cs[i].path, cs[j].path)
  {
    hide Less, Leaf, Ptr;
    forall i | 0 <= i < |cs|
      ensures cs[i].path != "" && cs[i].file == file
    {
      assert cs[i] in cs;
      var q :| Reports(file, [], base, head, q, cs[i]);
      LeafMapping(base, q);
      LeafMapping(head, q);
      assert [] + q == q;
      PtrTokens(q);
    }
    forall i, j | 0 <= i < j < |cs|
      ensures Less(cs[i].path, cs[j].path)
    {
      assert ChangeLeq(cs[i], cs[j]) && cs[i].path != cs[j].path;
      TwoFields(cs[i], cs[j]);
    }
  }

  /** A modify's path, resolved again on either side, finds the scalar that was compared there. */
  lemma {:induction false} ModifyResolves(file: string, base: VNode, head: VNode, cs: seq<Change>, c: Change)
    requires Exactly(file, [], base, head, cs) && c in cs && c.kind == Modify && c.path != "/"
    ensures var b, h := ResolveSpec(base, c.path), ResolveSpec(head, c.path);
            && b.Some? && b.value.Scalar? && b.value.render == c.oldValue
            && h.Some? && h.value.Scalar? && h.value.render == c.newValue
            && b.value.cmpKey != h.value.cmpKey
  {
    hide Ptr, Lookup, ResolveSpec;
    var q :| Reports(file, [], base, head, q, c);
    assert [] + q == q;
    SlashIsEmptyKey(q);
    ResolveBuilt(base, q);
    ResolveBuilt(head, q);
  }

  // ----- Paths of a walk from any pointer -----

  /** `path` is `ptr` or lies below it. */
  predicate Extends(ptr: string, path: string) {
    ptr <= path && (|path| == |ptr| || path[|ptr|] == '/')
  }

  ghost predicate ApartPaths(cs: seq<Change>) {
    forall i, j :: 0 <= i < j < |cs| ==> cs[i].path != cs[j].path
  }

  /** Every change is in `file` and lies below the child pointer of one of `keys`. */
  ghost predicate UnderKeys(file: string, ptr: string, keys: seq<string>, cs: seq<Change>) {
    forall i :: 0 <= i < |cs| ==> cs[i].file == file && BelowOne(ptr, keys, cs[i].path)
  }

  ghost predicate BelowOne(ptr: string, keys: seq<string>, path: string) {
    exists k :: k in keys && Extends(Child(ptr, k), path)
  }

  function Child(ptr: string, k: string): string { ptr + "/" + EscapePointer(k) }

  lemma {:induction false} BeforeAll(head: string, sep: char)
    requires sep !in head
    ensures Before(head, sep) == head
  {
    if head != [] {
      BeforeAll(head[1..], sep);
    }
  }

  lemma {:induction false} ChildToken(ptr: string, k: string, path: string)
    requires Extends(Child(ptr, k), path)
    ensures |ptr| + 1 <= |path| && Before(path[|ptr| + 1..], '/') == EscapePointer(k)
  {
    hide EscapePointer, Before;
    var e, rest := EscapePointer(k), path[|Child(ptr, k)|..];
    EscapeHasNoSlash(k);
    assert path == Child(ptr, k) + rest;
    assert path[|ptr| + 1..] == e + rest;
    if rest == [] {
      assert e + rest == e;
      BeforeAll(e, '/');
    } else {
      assert e + rest == e + ['/'] + rest[1..];
      BeforeIs(e, '/', rest[1..]);
    }
  }

  /** No path lies below two children. */
  lemma {:induction false} OneChild(ptr: string, k: string, l: string, path: string)
    requires Extends(Child(ptr, k), path) && Extends(Child(ptr, l), path)
    ensures k == l
  {
    hide EscapePointer, UnescapePointer, Extends;
    ChildToken(ptr, k, path);
    ChildToken(ptr, l, path);
    EscapeRoundTrip(k);
    EscapeRoundTrip(l);
  }

  lemma {:induction false} ChildExtends(ptr: string, k: string, path: string)
    requires Extends(Child(ptr, k), path)
    ensures Extends(ptr, path)
  {
    hide EscapePointer;
    assert path[|ptr|] == Child(ptr, k)[|ptr|];
  }

  /** One more key in front: the paths stay apart. */
  lemma {:induction false} FirstKeyApart(file: string, ptr: string, keys: seq<string>, a: seq<Change>, b: seq<Change>)
    requires keys != [] && Distinct(keys) && UnderKeys(file, ptr, [keys[0]], a) && UnderKeys(file, ptr, keys[1..], b)
    requires ApartPaths(a) && ApartPaths(b)
    ensures UnderKeys(file, ptr, keys, a + b) && ApartPaths(a + b)
  {
    hide Extends, Child, BelowOne;
    forall i, j | 0 <= i < |a| && 0 <= j < |b|
      ensures a[i].path != b[j].path
    {
      if a[i].path == b[j].path { FirstNotLater(ptr, keys, a[i].path); }
    }
    var all := a + b;
    forall i | 0 <= i < |all|
      ensures all[i].file == file && BelowOne(ptr, keys, all[i].path)
    {
      if i < |a| {
        assert all[i] == a[i];
        BelowMore(ptr, [keys[0]], keys, a[i].path);
      } else {
        assert all[i] == b[i - |a|];
        BelowMore(ptr, keys[1..], keys, b[i - |a|].path);
      }
    }
  }

  lemma {:induction false} BelowMore(ptr: string, keys: seq<string>, more: seq<string>, path: string)
    requires BelowOne(ptr, keys, path) && forall k :: k in keys ==> k in more
    ensures BelowOne(ptr, more, path)
  {
    hide Extends, Child;
    var k :| k in keys && Extends(Child(ptr, k), path);
    assert k in more;
  }

  lemma {:induction false} FirstNotLater(ptr: string, keys: seq<string>, path: string)
    requires keys != [] && BelowOne(ptr, [keys[0]], path) && BelowOne(ptr, keys[1..], path)
    ensures !Distinct(keys)
  {
    hide Extends, Child;
    var k :| k in [keys[0]] && Extends(Child(ptr, k), path);
    var l :| l in keys[1..] && Extends(Child(ptr, l), path);
    var m :| 0 <= m < |keys[1..]| && keys[1..][m] == l;
    OneChild(ptr, k, l, path);
    assert keys[0] == keys[m + 1];
  }

  /** Every change is in `file`, at `ptr` or below it. */
  ghost predicate UnderPointer(file: string, ptr: string, cs: seq<Change>) {
    forall i :: 0 <= i < |cs| ==> cs[i].file == file && Extends(ptr, cs[i].path)
  }

  lemma {:induction false} KeysUnderPointer(file: string, ptr: string, keys: seq<string>, cs: seq<Change>)
    requires UnderKeys(file, ptr, keys, cs)
    ensures UnderPointer(file, ptr, cs)
  {
    hide Child, Extends;
    forall i | 0 <= i < |cs|
      ensures Extends(ptr, cs[i].path)
    {
      assert BelowOne(ptr, keys, cs[i].path);
      var k :| k in keys && Extends(Child(ptr, k), cs[i].path);
      ChildExtends(ptr, k, cs[i].path);
    }
  }

  /** A walk reports below its pointer, each path once. */
  lemma {:induction false} WalkPaths(file: string, ptr: string, base: VNode, head: VNode)
    requires WalkNode(file, ptr, base, head).Changes?
    ensures ApartPaths(WalkNode(file, ptr, base, head).list)
    ensures UnderPointer(file, ptr, WalkNode(file, ptr, base, head).list)
    decreases base, 1
  {
    hide UnderKeys, InOrder, WalkKeys;
    if base.Mapping? && head.Mapping? {
      hide ApartPaths, UnderPointer;
      var all := base.fields.Keys + head.fields.Keys;
      InOrderSorted(all);
      WalkMappingIs(file, ptr, base, head, InOrder(all));
      WalkKeysPaths(file, ptr, base, head, InOrder(all));
      KeysUnderPointer(file, ptr, InOrder(all), WalkNode(file, ptr, base, head).list);
    }
  }

  lemma ExtendsSelf(ptr: string)
    ensures Extends(ptr, ptr)
  {}

  lemma {:induction false} WalkKeysPaths(file: string, ptr: string, base: VNode, head: VNode, keys: seq<string>)
    requires base.Mapping? && head.Mapping? && Distinct(keys)
    requires forall i :: 0 <= i < |keys| ==> keys[i] in base.fields || keys[i] in head.fields
    requires WalkKeys(file, ptr, base, head, keys).Changes?
    ensures UnderKeys(file, ptr, keys, WalkKeys(file, ptr, base, head, keys).list)
    ensures ApartPaths(WalkKeys(file, ptr, base, head, keys).list)
    decreases base, 0, |keys|
  {
    hide EscapePointer, Extends, WalkNode;
    if keys != [] {
      var k := keys[0];
      var first := WalkKey(file, ptr, base, head, k);
      WalkKeysPaths(file, ptr, base, head, keys[1..]);
      ExtendsSelf(Child(ptr, k));
      if k in base.fields && k in head.fields {
        WalkPaths(file, Child(ptr, k), base.fields[k], head.fields[k]);
      }
      assert k in [k];
      assert UnderKeys(file, ptr, [k], first.list) && ApartPaths(first.list);
      FirstKeyApart(file, ptr, keys, first.list, WalkKeys(file, ptr, base, head, keys[1..]).list);
    }
  }

  lemma {:induction false} TwoFields(a: Change, b: Change)
    requires ChangeLeq(a, b) && a.file == b.file && a.path != b.path
    ensures Less(a.path, b.path)
  {
    hide Less;
    var x, y := PathKey(a), PathKey(b);
    assert x[1..] == [a.path] && y[1..] == [b.path];
    assert LexLeq([a.path], [b.path]);
  }
}
