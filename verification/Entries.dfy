/**
 Keyed collections: map entries under their keys, list elements under the identity they carry.
 */
module Entries {
  import opened Sequences
  import opened Strings
  import opened Pointers
  import opened Differ

  datatype Mode = DocumentMode | MapMode | ListMode

  /** `unquote` decodes a JSON string literal; it is a parameter. */
  datatype Config = Config(mode: Mode, root: string, identity: string, tag: string, unquote: string -> Option<string>)

  function Tagged(ref: string, cs: seq<Change>): (r: seq<Change>)
    ensures |r| == |cs|
    ensures forall i :: 0 <= i < |cs| ==> r[i] == cs[i].(entryRef := ref)
  {
    seq(|cs|, i requires 0 <= i < |cs| => cs[i].(entryRef := ref))
  }

  /** One entry: a whole-entry add or delete carries no value; a two-sided entry is walked. */
  ghost function EntryDiff(file: string, ptr: string, ref: string, base: Option<VNode>, head: Option<VNode>): Outcome {
    match (base, head)
    case (None, None) => Changes([])
    case (Some(_), None) => Changes(Tagged(ref, [MakeChange(file, ptr, Delete, "", "")]))
    case (None, Some(_)) => Changes(Tagged(ref, [MakeChange(file, ptr, Add, "", "")]))
    case (Some(b), Some(h)) =>
      var w := WalkNode(file, ptr, b, h);
      if w.Opaque? then Opaque else Changes(Tagged(ref, w.list))
  }

  function At(m: map<string, VNode>, k: string): Option<VNode> {
    if k in m then Some(m[k]) else None
  }

  /** The entries with the given keys, in the given order. */
  ghost function EntryKeys(
    file: string, root: string, tag: string, base: map<string, VNode>, head: map<string, VNode>,
    keys: seq<string>): Outcome
  {
    if keys == [] then Changes([]) else
    var k := keys[0];
    Then(EntryDiff(file, root + "/" + EscapePointer(k), tag + ":" + k, At(base, k), At(head, k)),
         EntryKeys(file, root, tag, base, head, keys[1..]))
  }

  ghost function EntriesDiff(
    file: string, root: string, tag: string, base: map<string, VNode>, head: map<string, VNode>): Outcome
  {
    EntryKeys(file, root, tag, base, head, InOrder(base.Keys + head.Keys))
  }

  lemma {:induction false} EntryKeysSnoc(
    file: string, root: string, tag: string, base: map<string, VNode>, head: map<string, VNode>, keys: seq<string>,
    k: string)
    ensures EntryKeys(file, root, tag, base, head, keys + [k])
         == Then(EntryKeys(file, root, tag, base, head, keys),
                 EntryDiff(file, root + "/" + EscapePointer(k), tag + ":" + k, At(base, k), At(head, k)))
  {
    hide EntryDiff, EscapePointer;
    if keys == [] {
      assert [k][1..] == [] && [] + [k] == [k];
    } else {
      assert (keys + [k])[1..] == keys[1..] + [k];
      EntryKeysSnoc(file, root, tag, base, head, keys[1..], k);
    }
  }

  lemma {:induction false} EntryKeysOpaque(
    file: string, root: string, tag: string, base: map<string, VNode>, head: map<string, VNode>, keys: seq<string>,
    i: nat)
    requires i < |keys|
    requires var k := keys[i];
             EntryDiff(file, root + "/" + EscapePointer(k), tag + ":" + k, At(base, k), At(head, k)).Opaque?
    ensures EntryKeys(file, root, tag, base, head, keys).Opaque?
  {
    hide EntryDiff, EscapePointer;
    if i > 0 {
      EntryKeysOpaque(file, root, tag, base, head, keys[1..], i - 1);
    }
  }

  method DiffOneEntry(
    file: string, ptr: string, ref: string, base: Option<VNode>, head: Option<VNode>)
    returns (r: Outcome)
    ensures r == EntryDiff(file, ptr, ref, base, head)
  {
    hide WalkNode;
    match (base, head) {
      case (None, None) => r := Changes([]);
      case (Some(_), None) => r := Changes(Tagged(ref, [MakeChange(file, ptr, Delete, "", "")]));
      case (None, Some(_)) => r := Changes(Tagged(ref, [MakeChange(file, ptr, Add, "", "")]));
      case (Some(b), Some(h)) =>
        var ok, cs := WalkNodeInto(file, ptr, b, h, []);
        if !ok { return Opaque; }
        assert [] + WalkNode(file, ptr, b, h).list == WalkNode(file, ptr, b, h).list;
        r := Changes(Tagged(ref, cs));
    }
  }

  method DiffKeyed(
    file: string, root: string, tag: string, base: map<string, VNode>, head: map<string, VNode>)
    returns (r: Outcome)
    ensures r == EntriesDiff(file, root, tag, base, head)
  {
    hide EntryDiff, EscapePointer, EntryKeys, InOrder, At;
    var keys := SortedElements(base.Keys + head.Keys);
    var out: seq<Change> := [];
    assert EntryKeys(file, root, tag, base, head, []) == Changes([]) by { NoEntries(file, root, tag, base, head); }
    for i := 0 to |keys|
      invariant EntryKeys(file, root, tag, base, head, keys[..i]) == Changes(out)
    {
      var k := keys[i];
      assert keys[..i + 1] == keys[..i] + [k];
      EntryKeysSnoc(file, root, tag, base, head, keys[..i], k);
      var one := DiffOneEntry(file, root + "/" + EscapePointer(k), tag + ":" + k, At(base, k), At(head, k));
      if one.Opaque? {
        EntryKeysOpaque(file, root, tag, base, head, keys, i);
        return Opaque;
      }
      out := out + one.list;
    }
    assert keys[..|keys|] == keys;
    r := Changes(out);
  }

  lemma NoEntries(file: string, root: string, tag: string, base: map<string, VNode>, head: map<string, VNode>)
    ensures EntryKeys(file, root, tag, base, head, []) == Changes([])
  {}

  /** What an entry of one side, or a difference inside an entry of both, is reported as. */
  ghost predicate EntryReport(
    file: string, root: string, tag: string, base: map<string, VNode>, head: map<string, VNode>, k: string, c: Change)
  {
    var ptr, ref := root + "/" + EscapePointer(k), tag + ":" + k;
    if k in base && k in head then
      exists w :: && WalkNode(file, ptr, base[k], head[k]).Changes? && w in WalkNode(file, ptr, base[k], head[k]).list
                  && c == Change(w.file, w.path, w.kind, w.oldPath, w.oldValue, w.newValue, ref)
    else if k in base then c == Change(file, ptr, Delete, "", "", "", ref)
    else k in head && c == Change(file, ptr, Add, "", "", "", ref)
  }

  lemma {:induction false} OneEntry(
    file: string, root: string, tag: string, base: map<string, VNode>, head: map<string, VNode>, k: string)
    requires k in base || k in head
    ensures var ptr := root + "/" + EscapePointer(k);
            var one := EntryDiff(file, ptr, tag + ":" + k, At(base, k), At(head, k));
            && (one.Opaque? <==> k in base && k in head && WalkNode(file, ptr, base[k], head[k]).Opaque?)
            && (one.Changes? ==> forall c :: c in one.list <==> EntryReport(file, root, tag, base, head, k, c))
  {
    hide WalkNode, EscapePointer;
    var ptr, ref := root + "/" + EscapePointer(k), tag + ":" + k;
    assert forall kind :: Tagged(ref, [MakeChange(file, ptr, kind, "", "")])
                       == [Change(file, ptr, kind, "", "", "", ref)];
    if k in base && k in head && WalkNode(file, ptr, base[k], head[k]).Changes? {
      var ws := WalkNode(file, ptr, base[k], head[k]).list;
      forall w | w in ws
        ensures w.(entryRef := ref) in Tagged(ref, ws)
      {
        var i :| 0 <= i < |ws| && ws[i] == w;
        assert Tagged(ref, ws)[i] == w.(entryRef := ref);
      }
    }
  }

  lemma {:induction false} EntryKeysExactly(
    file: string, root: string, tag: string, base: map<string, VNode>, head: map<string, VNode>, keys: seq<string>)
    requires forall k :: k in keys ==> k in base || k in head
    ensures EntryKeys(file, root, tag, base, head, keys).Opaque? <==>
            exists k :: && k in keys && k in base && k in head
                        && WalkNode(file, root + "/" + EscapePointer(k), base[k], head[k]).Opaque?
    ensures EntryKeys(file, root, tag, base, head, keys).Changes? ==>
            forall c :: c in EntryKeys(file, root, tag, base, head, keys).list <==>
                        exists k :: k in keys && EntryReport(file, root, tag, base, head, k, c)
  {
    hide EntryDiff, EscapePointer, WalkNode, EntryReport, At;
    if keys != [] {
      OneEntry(file, root, tag, base, head, keys[0]);
      EntryKeysExactly(file, root, tag, base, head, keys[1..]);
      assert forall k :: k in keys <==> k == keys[0] || k in keys[1..];
    }
  }

  /**
   A keyed collection is undecided exactly when some entry of both sides is; otherwise its changes are one
   whole-entry change without values for each entry of one side, and the tagged differences inside the others.
   */
  lemma {:induction false} EntriesExactly(
    file: string, root: string, tag: string, base: map<string, VNode>, head: map<string, VNode>)
    ensures EntriesDiff(file, root, tag, base, head).Opaque? <==>
            exists k :: && k in base && k in head
                        && WalkNode(file, root + "/" + EscapePointer(k), base[k], head[k]).Opaque?
    ensures EntriesDiff(file, root, tag, base, head).Changes? ==>
            forall c :: c in EntriesDiff(file, root, tag, base, head).list <==>
                        exists k :: EntryReport(file, root, tag, base, head, k, c)
  {
    hide EntryKeys, EscapePointer, WalkNode;
    var all := base.Keys + head.Keys;
    InOrderSorted(all);
    assert forall k :: k in InOrder(all) <==> k in base || k in head;
    EntryKeysExactly(file, root, tag, base, head, InOrder(all));
  }

  // ----- Identity -----

  function EntryKeyLabel(unquote: string -> Option<string>, render: string): string {
    if |render| >= 2 && render[0] == '"' && unquote(render).Some? then unquote(render).value else render
  }

  /** The element is an object with a scalar at the identity pointer. */
  predicate Keyed(cfg: Config, el: VNode) {
    el.Mapping? && ResolveSpec(el, cfg.identity).Some? && ResolveSpec(el, cfg.identity).value.Scalar?
  }

  function IdOf(cfg: Config, el: VNode): string
    requires Keyed(cfg, el)
  {
    EntryKeyLabel(cfg.unquote, ResolveSpec(el, cfg.identity).value.render)
  }

  /** Every element has an identity and no two share one. */
  ghost predicate Indexable(cfg: Config, elems: seq<VNode>) {
    && (forall i :: 0 <= i < |elems| ==> Keyed(cfg, elems[i]))
    && (forall i, j :: 0 <= i < j < |elems| ==> IdOf(cfg, elems[i]) != IdOf(cfg, elems[j]))
  }

  ghost predicate IndexOf(cfg: Config, elems: seq<VNode>, m: map<string, VNode>) {
    && (forall i :: 0 <= i < |elems| ==>
          Keyed(cfg, elems[i]) && IdOf(cfg, elems[i]) in m && m[IdOf(cfg, elems[i])] == elems[i])
    && (forall k :: k in m ==> exists i :: 0 <= i < |elems| && Keyed(cfg, elems[i]) && IdOf(cfg, elems[i]) == k)
  }

  method IndexByIdentity(cfg: Config, elems: seq<VNode>) returns (r: Option<map<string, VNode>>)
    ensures r.Some? <==> Indexable(cfg, elems)
    ensures r.Some? ==> IndexOf(cfg, elems, r.value)
  {
    hide IdOf, ResolveSpec;
    var m: map<string, VNode> := map[];
    for i := 0 to |elems|
      invariant Indexable(cfg, elems[..i]) && IndexOf(cfg, elems[..i], m)
    {
      var el := elems[i];
      if !el.Mapping? { return None; }
      var node := ResolvePointer(el, cfg.identity);
      if node.None? || !node.value.Scalar? { return None; }
      var id := IdOf(cfg, el);
      if id in m {
        DuplicateId(cfg, elems, i, m);
        return None;
      }
      IndexAdd(cfg, elems, i, m);
      m := m[id := el];
    }
    assert elems[..|elems|] == elems;
    r := Some(m);
  }

  lemma {:induction false} DuplicateId(cfg: Config, elems: seq<VNode>, i: nat, m: map<string, VNode>)
    requires i < |elems| && IndexOf(cfg, elems[..i], m) && Keyed(cfg, elems[i]) && IdOf(cfg, elems[i]) in m
    ensures !Indexable(cfg, elems)
  {
    hide IdOf, Keyed;
    var j :| 0 <= j < i && Keyed(cfg, elems[..i][j]) && IdOf(cfg, elems[..i][j]) == IdOf(cfg, elems[i]);
    assert elems[..i][j] == elems[j];
  }

  lemma {:induction false} IndexAdd(cfg: Config, elems: seq<VNode>, i: nat, m: map<string, VNode>)
    requires i < |elems| && Indexable(cfg, elems[..i]) && IndexOf(cfg, elems[..i], m)
    requires Keyed(cfg, elems[i]) && IdOf(cfg, elems[i]) !in m
    ensures Indexable(cfg, elems[..i + 1]) && IndexOf(cfg, elems[..i + 1], m[IdOf(cfg, elems[i]) := elems[i]])
  {
    hide IdOf, Keyed;
    var before, after, n := elems[..i], elems[..i + 1], m[IdOf(cfg, elems[i]) := elems[i]];
    assert forall j :: 0 <= j < i ==> after[j] == before[j];
    assert after[i] == elems[i];
    forall k | k in n
      ensures exists j :: 0 <= j < |after| && Keyed(cfg, after[j]) && IdOf(cfg, after[j]) == k
    {
      if k in m {
        var j :| 0 <= j < i && Keyed(cfg, before[j]) && IdOf(cfg, before[j]) == k;
        assert after[j] == before[j];
      } else {
        assert IdOf(cfg, after[i]) == k;
      }
    }
  }

  // ----- The collection diff -----

  function LabelOf(cfg: Config): string {
    if cfg.tag == "" then "entry" else cfg.tag
  }

  /** The roots are there and are projected sequences, and the identity is declared. */
  ghost predicate ListsAt(cfg: Config, base: VNode, head: VNode) {
    var b, h := ResolveSpec(base, cfg.root), ResolveSpec(head, cfg.root);
    && cfg.identity != ""
    && b.Some? && b.value.Sequence? && b.value.projected
    && h.Some? && h.value.Sequence? && h.value.projected
  }

  ghost predicate MapsAt(cfg: Config, base: VNode, head: VNode) {
    var b, h := ResolveSpec(base, cfg.root), ResolveSpec(head, cfg.root);
    b.Some? && h.Some? && b.value.Mapping? && h.value.Mapping?
  }

  /** `out` is the list-mode outcome, up to the final sort. */
  ghost predicate ListOutcome(file: string, cfg: Config, base: VNode, head: VNode, out: Outcome) {
    if !ListsAt(cfg, base, head) then out == Opaque else
    var bs, hs := ResolveSpec(base, cfg.root).value.elems, ResolveSpec(head, cfg.root).value.elems;
    if !Indexable(cfg, bs) || !Indexable(cfg, hs) then out == Opaque else
    exists bm, hm :: && IndexOf(cfg, bs, bm) && IndexOf(cfg, hs, hm)
                     && out == EntriesDiff(file, cfg.root, LabelOf(cfg), bm, hm)
  }

  ghost predicate MapOutcome(file: string, cfg: Config, base: VNode, head: VNode, out: Outcome) {
    if !MapsAt(cfg, base, head) then out == Opaque
    else
      out == EntriesDiff(file, cfg.root, LabelOf(cfg),
                         ResolveSpec(base, cfg.root).value.fields, ResolveSpec(head, cfg.root).value.fields)
  }

  method DiffMapEntries(file: string, cfg: Config, base: VNode, head: VNode) returns (out: Outcome)
    ensures MapOutcome(file, cfg, base, head, out)
  {
    hide ResolveSpec, EntriesDiff;
    var b := ResolvePointer(base, cfg.root);
    if b.None? { return Opaque; }
    var h := ResolvePointer(head, cfg.root);
    if h.None? { return Opaque; }
    if !b.value.Mapping? || !h.value.Mapping? { return Opaque; }
    out := DiffKeyed(file, cfg.root, LabelOf(cfg), b.value.fields, h.value.fields);
  }

  method DiffListEntries(file: string, cfg: Config, base: VNode, head: VNode) returns (out: Outcome)
    ensures ListOutcome(file, cfg, base, head, out)
  {
    hide ResolveSpec, EntriesDiff, Indexable, IndexOf;
    if cfg.identity == "" { return Opaque; }
    var b := ResolvePointer(base, cfg.root);
    if b.None? { return Opaque; }
    var h := ResolvePointer(head, cfg.root);
    if h.None? { return Opaque; }
    if !b.value.Sequence? || !h.value.Sequence? { return Opaque; }
    if !b.value.projected || !h.value.projected { return Opaque; }
    var bm := IndexByIdentity(cfg, b.value.elems);
    if bm.None? { return Opaque; }
    var hm := IndexByIdentity(cfg, h.value.elems);
    if hm.None? { return Opaque; }
    out := DiffKeyed(file, cfg.root, LabelOf(cfg), bm.value, hm.value);
  }

  method DiffEntries(file: string, cfg: Config, base: VNode, head: VNode) returns (out: Outcome)
    ensures cfg.mode == DocumentMode ==>
              && (out.Changes? <==> Decidable(base, head))
              && (out.Changes? ==> Exactly(file, [], base, head, out.list) && Sorted(ChangeLeq, out.list))
    ensures cfg.mode == MapMode ==> MapResult(file, cfg, base, head, out)
    ensures cfg.mode == ListMode ==> ListResult(file, cfg, base, head, out)
  {
    hide Decidable, Exactly, MapOutcome, ListOutcome, ChangeLeq;
    var raw: Outcome;
    match cfg.mode {
      case DocumentMode =>
        out := Diff(file, base, head);
        return;
      case MapMode => raw := DiffMapEntries(file, cfg, base, head);
      case ListMode => raw := DiffListEntries(file, cfg, base, head);
    }
    if raw.Opaque? {
      out := Opaque;
    } else {
      var sorted := SortChanges(raw.list);
      out := Changes(sorted);
    }
    assert SortedFrom(raw, out);
  }

  /** The outcome of map mode as it is returned: sorted. */
  ghost predicate MapResult(file: string, cfg: Config, base: VNode, head: VNode, out: Outcome) {
    exists raw :: MapOutcome(file, cfg, base, head, raw) && SortedFrom(raw, out)
  }

  ghost predicate ListResult(file: string, cfg: Config, base: VNode, head: VNode, out: Outcome) {
    exists raw :: ListOutcome(file, cfg, base, head, raw) && SortedFrom(raw, out)
  }

  ghost predicate SortedFrom(raw: Outcome, out: Outcome) {
    if raw.Opaque? then out == Opaque
    else out.Changes? && Permutation(out.list, raw.list) && Sorted(ChangeLeq, out.list)
  }

  // ----- Laws -----

  lemma {:induction false} IndexUnique(
    cfg: Config, a: seq<VNode>, b: seq<VNode>, m: map<string, VNode>, n: map<string, VNode>)
    requires Permutation(a, b) && IndexOf(cfg, a, m) && IndexOf(cfg, b, n)
    ensures m == n
  {
    hide IdOf, Keyed;
    PermutationMembers(a, b);
    IndexIncluded(cfg, a, b, m, n);
    IndexIncluded(cfg, b, a, n, m);
    assert m.Keys == n.Keys;
  }

  lemma {:induction false} IndexIncluded(
    cfg: Config, a: seq<VNode>, b: seq<VNode>, m: map<string, VNode>, n: map<string, VNode>)
    requires forall x :: x in a ==> x in b
    requires IndexOf(cfg, a, m) && IndexOf(cfg, b, n)
    ensures forall k :: k in m ==> k in n && n[k] == m[k]
  {
    hide IdOf, Keyed;
    forall k | k in m
      ensures k in n && n[k] == m[k]
    {
      var i :| 0 <= i < |a| && Keyed(cfg, a[i]) && IdOf(cfg, a[i]) == k;
      assert a[i] in b;
      var j :| 0 <= j < |b| && b[j] == a[i];
    }
  }

  lemma {:induction false} IndexablePermutes(cfg: Config, a: seq<VNode>, b: seq<VNode>)
    requires Permutation(a, b) && Indexable(cfg, a)
    ensures Indexable(cfg, b)
  {
    hide IdOf, Keyed;
    PermutationMembers(a, b);
    forall i | 0 <= i < |b|
      ensures Keyed(cfg, b[i])
    {
      assert b[i] in a;
    }
    assert Distinct(a) by {
      forall i, j | 0 <= i < j < |a|
        ensures a[i] != a[j]
      {
        assert IdOf(cfg, a[i]) != IdOf(cfg, a[j]);
      }
    }
    PermutationDistinct(a, b);
    forall i, j | 0 <= i < j < |b|
      ensures IdOf(cfg, b[i]) != IdOf(cfg, b[j])
    {
      assert b[i] in a && b[j] in a && b[i] != b[j];
      var k :| 0 <= k < |a| && a[k] == b[i];
      var l :| 0 <= l < |a| && a[l] == b[j];
    }
  }

  /** The lists at the root are reorderings of each other. */
  ghost predicate ReorderedAt(cfg: Config, a: VNode, b: VNode) {
    var x, y := ResolveSpec(a, cfg.root), ResolveSpec(b, cfg.root);
    if x.Some? && x.value.Sequence?
    then
      && y.Some? && y.value.Sequence? && y.value.projected == x.value.projected
      && Permutation(x.value.elems, y.value.elems)
    else x == y
  }

  /** List mode sees entries, not positions: reordering either list changes nothing. */
  lemma {:induction false} ReorderInvariant(
    file: string, cfg: Config, base: VNode, head: VNode, base': VNode, head': VNode, out: Outcome)
    requires ReorderedAt(cfg, base, base') && ReorderedAt(cfg, head, head')
    requires ListOutcome(file, cfg, base, head, out)
    ensures ListOutcome(file, cfg, base', head', out)
  {
    hide ResolveSpec, EntriesDiff, Indexable, IndexOf;
    if ListsAt(cfg, base, head) {
      var bs, hs := ResolveSpec(base, cfg.root).value.elems, ResolveSpec(head, cfg.root).value.elems;
      var bs', hs' := ResolveSpec(base', cfg.root).value.elems, ResolveSpec(head', cfg.root).value.elems;
      BothWays(cfg, bs, bs');
      BothWays(cfg, hs, hs');
      if Indexable(cfg, bs) && Indexable(cfg, hs) {
        var bm, hm :| && IndexOf(cfg, bs, bm) && IndexOf(cfg, hs, hm)
                      && out == EntriesDiff(file, cfg.root, LabelOf(cfg), bm, hm);
        IndexMoves(cfg, bs, bs', bm);
        IndexMoves(cfg, hs, hs', hm);
      }
    }
  }

  lemma {:induction false} BothWays(cfg: Config, a: seq<VNode>, b: seq<VNode>)
    requires Permutation(a, b)
    ensures Indexable(cfg, a) <==> Indexable(cfg, b)
  {
    hide Indexable;
    if Indexable(cfg, a) { IndexablePermutes(cfg, a, b); }
    if Indexable(cfg, b) { IndexablePermutes(cfg, b, a); }
  }

  lemma {:induction false} IndexMoves(cfg: Config, a: seq<VNode>, b: seq<VNode>, m: map<string, VNode>)
    requires Permutation(a, b) && IndexOf(cfg, a, m)
    ensures IndexOf(cfg, b, m)
  {
    hide IdOf, Keyed;
    PermutationMembers(a, b);
    forall i | 0 <= i < |b|
      ensures Keyed(cfg, b[i]) && IdOf(cfg, b[i]) in m && m[IdOf(cfg, b[i])] == b[i]
    {
      assert b[i] in a;
    }
    forall k | k in m
      ensures exists i :: 0 <= i < |b| && Keyed(cfg, b[i]) && IdOf(cfg, b[i]) == k
    {
      var i :| 0 <= i < |a| && Keyed(cfg, a[i]) && IdOf(cfg, a[i]) == k;
      assert a[i] in b;
    }
  }

  /** The outcome is a function of the two lists, and it is the one the index maps give. */
  lemma {:induction false} ListOutcomeUnique(
    file: string, cfg: Config, base: VNode, head: VNode, a: Outcome, b: Outcome)
    requires ListOutcome(file, cfg, base, head, a) && ListOutcome(file, cfg, base, head, b)
    ensures a == b
  {
    hide ResolveSpec, EntriesDiff, Indexable, IndexOf;
    if ListsAt(cfg, base, head) {
      var bs, hs := ResolveSpec(base, cfg.root).value.elems, ResolveSpec(head, cfg.root).value.elems;
      if Indexable(cfg, bs) && Indexable(cfg, hs) {
        var bm, hm :| && IndexOf(cfg, bs, bm) && IndexOf(cfg, hs, hm)
                      && a == EntriesDiff(file, cfg.root, LabelOf(cfg), bm, hm);
        var bn, hn :| && IndexOf(cfg, bs, bn) && IndexOf(cfg, hs, hn)
                      && b == EntriesDiff(file, cfg.root, LabelOf(cfg), bn, hn);
        IndexUnique(cfg, bs, bs, bm, bn);
        IndexUnique(cfg, hs, hs, hm, hn);
      }
    }
  }

  ghost predicate SameEntries(base: map<string, VNode>, head: map<string, VNode>) {
    base.Keys == head.Keys && forall k :: k in base && k in head ==> SameTree(base[k], head[k])
  }

  /** A keyed diff is silent exactly when both sides hold the same entries with the same trees. */
  lemma {:induction false} EntriesEmptyExactlyWhen(
    file: string, root: string, tag: string, base: map<string, VNode>, head: map<string, VNode>)
    ensures EntriesDiff(file, root, tag, base, head) == Changes([]) <==> SameEntries(base, head)
  {
    hide EntryKeys, SameTree;
    var all := base.Keys + head.Keys;
    EntryKeysEmpty(file, root, tag, base, head, InOrder(all));
    assert forall k :: k in InOrder(all) <==> k in all;
    if forall k :: k in all ==> SameEntry(base, head, k) {
      assert forall k :: k in all ==> k in base && k in head;
    }
  }

  ghost predicate SameEntry(base: map<string, VNode>, head: map<string, VNode>, k: string) {
    if k in base && k in head then SameTree(base[k], head[k]) else k !in base && k !in head
  }

  lemma {:induction false} EntryKeysEmpty(
    file: string, root: string, tag: string, base: map<string, VNode>, head: map<string, VNode>, keys: seq<string>)
    ensures EntryKeys(file, root, tag, base, head, keys) == Changes([]) <==>
            forall k :: k in keys ==> SameEntry(base, head, k)
  {
    hide EscapePointer, SameTree, WalkNode;
    if keys != [] {
      var k := keys[0];
      EntryKeysEmpty(file, root, tag, base, head, keys[1..]);
      var ptr := root + "/" + EscapePointer(k);
      if k in base && k in head {
        WalkDecides(file, ptr, base[k], head[k]);
      }
      assert EntryDiff(file, ptr, tag + ":" + k, At(base, k), At(head, k)) == Changes([]) <==> SameEntry(base, head, k);
      assert forall x :: x in keys <==> x == k || x in keys[1..];
    }
  }

  function PathAndKind(): Change -> (string, Kind) { (c: Change) => (c.path, c.kind) }

  /** Over one mapping, map mode decides whatever document mode decides, at the same paths with the same kinds. */
  lemma {:induction false} MapModeCoversDocument(
    file: string, ptr: string, tag: string, base: VNode, head: VNode, keys: seq<string>)
    requires base.Mapping? && head.Mapping?
    requires forall i :: 0 <= i < |keys| ==> keys[i] in base.fields || keys[i] in head.fields
    requires WalkKeys(file, ptr, base, head, keys).Changes?
    ensures var e := EntryKeys(file, ptr, tag, base.fields, head.fields, keys);
            e.Changes? && Map(PathAndKind(), e.list) == Map(PathAndKind(), WalkKeys(file, ptr, base, head, keys).list)
    decreases |keys|
  {
    hide EscapePointer, WalkNode, Map;
    if keys != [] {
      var k := keys[0];
      MapModeCoversDocument(file, ptr, tag, base, head, keys[1..]);
      OneKeyAgrees(file, ptr, tag, base, head, k);
      var w := WalkKey(file, ptr, base, head, k);
      var e := EntryDiff(file, ptr + "/" + EscapePointer(k), tag + ":" + k, At(base.fields, k), At(head.fields, k));
      MapConcat(PathAndKind(), w.list, WalkKeys(file, ptr, base, head, keys[1..]).list);
      MapConcat(PathAndKind(), e.list, EntryKeys(file, ptr, tag, base.fields, head.fields, keys[1..]).list);
    }
  }

  lemma {:induction false} OneKeyAgrees(file: string, ptr: string, tag: string, base: VNode, head: VNode, k: string)
    requires base.Mapping? && head.Mapping? && (k in base.fields || k in head.fields)
    requires WalkKey(file, ptr, base, head, k).Changes?
    ensures var b, h := At(base.fields, k), At(head.fields, k);
            var e := EntryDiff(file, ptr + "/" + EscapePointer(k), tag + ":" + k, b, h);
            e.Changes? && Map(PathAndKind(), e.list) == Map(PathAndKind(), WalkKey(file, ptr, base, head, k).list)
  {
    hide EscapePointer, WalkNode;
  }

  /** At the document root the two modes agree, key for key, wherever document mode decides. */
  lemma {:induction false} MapModeAtRoot(file: string, cfg: Config, base: VNode, head: VNode, out: Outcome)
    requires cfg.root == "" && base.Mapping? && head.Mapping? && Decidable(base, head)
    requires MapOutcome(file, cfg, base, head, out)
    ensures out.Changes? && WalkNode(file, "", base, head).Changes?
    ensures Map(PathAndKind(), out.list) == Map(PathAndKind(), WalkNode(file, "", base, head).list)
  {
    hide Decidable, EntryKeys, WalkKeys, InOrder;
    WalkDecides(file, "", base, head);
    WalkMappingIs(file, "", base, head, InOrder(base.fields.Keys + head.fields.Keys));
    MapModeCoversDocument(file, "", LabelOf(cfg), base, head, InOrder(base.fields.Keys + head.fields.Keys));
  }

  // ----- The returned list -----

  lemma {:induction false} EntryPaths(
    file: string, root: string, k: string, ref: string, base: Option<VNode>, head: Option<VNode>)
    requires EntryDiff(file, Child(root, k), ref, base, head).Changes?
    ensures UnderKeys(file, root, [k], EntryDiff(file, Child(root, k), ref, base, head).list)
    ensures ApartPaths(EntryDiff(file, Child(root, k), ref, base, head).list)
  {
    hide EscapePointer, Extends, WalkNode;
    ExtendsSelf(Child(root, k));
    assert k in [k];
    if base.Some? && head.Some? {
      WalkPaths(file, Child(root, k), base.value, head.value);
    }
  }

  /** A keyed diff names each path once. */
  lemma {:induction false} EntryKeysPaths(
    file: string, root: string, tag: string, base: map<string, VNode>, head: map<string, VNode>, keys: seq<string>)
    requires Distinct(keys) && EntryKeys(file, root, tag, base, head, keys).Changes?
    ensures UnderKeys(file, root, keys, EntryKeys(file, root, tag, base, head, keys).list)
    ensures ApartPaths(EntryKeys(file, root, tag, base, head, keys).list)
  {
    hide EscapePointer, Extends, EntryDiff, UnderKeys, ApartPaths;
    if keys == [] {
      NoPaths(file, root);
    } else {
      var k := keys[0];
      var first := EntryDiff(file, Child(root, k), tag + ":" + k, At(base, k), At(head, k));
      EntryKeysPaths(file, root, tag, base, head, keys[1..]);
      EntryPaths(file, root, k, tag + ":" + k, At(base, k), At(head, k));
      FirstKeyApart(file, root, keys, first.list, EntryKeys(file, root, tag, base, head, keys[1..]).list);
    }
  }

  lemma NoPaths(file: string, root: string)
    ensures UnderKeys(file, root, [], []) && ApartPaths([])
  {}

  /** With each path named once, only one sorted list holds the changes. */
  lemma {:induction false} SortedResultUnique(raw: Outcome, a: Outcome, b: Outcome)
    requires raw.Changes? ==> ApartPaths(raw.list)
    requires SortedFrom(raw, a) && SortedFrom(raw, b)
    ensures a == b
  {
    hide ChangeLeq;
    if raw.Changes? {
      PermutationMembers(a.list, raw.list);
      forall x, y | x in a.list && y in a.list && ChangeLeq(x, y) && ChangeLeq(y, x)
        ensures x == y
      {
        SamePath(x, y);
        var i :| 0 <= i < |raw.list| && raw.list[i] == x;
        var j :| 0 <= j < |raw.list| && raw.list[j] == y;
      }
      SortedUnique(ChangeLeq, a.list, b.list);
    }
  }

  lemma {:induction false} SamePath(x: Change, y: Change)
    requires ChangeLeq(x, y) && ChangeLeq(y, x)
    ensures x.path == y.path
  {
    hide LexLeq;
    LexCompare(PathKey(x), PathKey(y));
    assert PathKey(x)[1] == PathKey(y)[1];
  }

  lemma {:induction false} ListPathsApart(file: string, cfg: Config, base: VNode, head: VNode, out: Outcome)
    requires ListOutcome(file, cfg, base, head, out) && out.Changes?
    ensures ApartPaths(out.list)
  {
    hide ResolveSpec, EntryKeys, Indexable, IndexOf, InOrder, ApartPaths, UnderKeys;
    var bs, hs := ResolveSpec(base, cfg.root).value.elems, ResolveSpec(head, cfg.root).value.elems;
    var bm, hm :| && IndexOf(cfg, bs, bm) && IndexOf(cfg, hs, hm)
                  && out == EntriesDiff(file, cfg.root, LabelOf(cfg), bm, hm);
    InOrderSorted(bm.Keys + hm.Keys);
    EntryKeysPaths(file, cfg.root, LabelOf(cfg), bm, hm, InOrder(bm.Keys + hm.Keys));
  }

  /** Whatever order either list comes in, list mode returns the very same list of changes. */
  lemma {:induction false} ReorderedSameResult(
    file: string, cfg: Config, base: VNode, head: VNode, base': VNode, head': VNode, out: Outcome, out': Outcome)
    requires ReorderedAt(cfg, base, base') && ReorderedAt(cfg, head, head')
    requires ListResult(file, cfg, base, head, out) && ListResult(file, cfg, base', head', out')
    ensures out == out'
  {
    hide ListOutcome, ReorderedAt, ApartPaths, SortedFrom;
    var raw :| ListOutcome(file, cfg, base, head, raw) && SortedFrom(raw, out);
    var raw' :| ListOutcome(file, cfg, base', head', raw') && SortedFrom(raw', out');
    ReorderInvariant(file, cfg, base, head, base', head', raw);
    ListOutcomeUnique(file, cfg, base', head', raw, raw');
    if raw.Changes? { ListPathsApart(file, cfg, base, head, raw); }
    SortedResultUnique(raw, out, out');
  }

  /** Map mode, too, returns one list. */
  lemma {:induction false} MapResultUnique(
    file: string, cfg: Config, base: VNode, head: VNode, out: Outcome, out': Outcome)
    requires MapResult(file, cfg, base, head, out) && MapResult(file, cfg, base, head, out')
    ensures out == out'
  {
    hide ResolveSpec, EntryKeys, InOrder, ApartPaths, UnderKeys, SortedFrom;
    var raw :| MapOutcome(file, cfg, base, head, raw) && SortedFrom(raw, out);
    if raw.Changes? {
      var bm, hm := ResolveSpec(base, cfg.root).value.fields, ResolveSpec(head, cfg.root).value.fields;
      InOrderSorted(bm.Keys + hm.Keys);
      EntryKeysPaths(file, cfg.root, LabelOf(cfg), bm, hm, InOrder(bm.Keys + hm.Keys));
    }
    SortedResultUnique(raw, out, out');
  }

  // ----- Empty list-mode results -----

  /** Each element has a counterpart of the same identity and the same tree. */
  ghost predicate Matched(cfg: Config, a: seq<VNode>, b: seq<VNode>) {
    forall i :: 0 <= i < |a| ==> HasCounterpart(cfg, a[i], b)
  }

  ghost predicate HasCounterpart(cfg: Config, x: VNode, b: seq<VNode>) {
    exists j :: 0 <= j < |b| && Counterparts(cfg, x, b[j])
  }

  ghost predicate Counterparts(cfg: Config, x: VNode, y: VNode) {
    Keyed(cfg, x) && Keyed(cfg, y) && IdOf(cfg, x) == IdOf(cfg, y) && SameTree(x, y)
  }

  ghost predicate Within(m: map<string, VNode>, n: map<string, VNode>) {
    forall k :: k in m ==> k in n && SameTree(m[k], n[k])
  }

  lemma {:induction false} MatchedIndexes(
    cfg: Config, a: seq<VNode>, b: seq<VNode>, m: map<string, VNode>, n: map<string, VNode>)
    requires IndexOf(cfg, a, m) && IndexOf(cfg, b, n)
    ensures Matched(cfg, a, b) <==> Within(m, n)
  {
    hide IdOf, Keyed, SameTree;
    if Matched(cfg, a, b) {
      forall k | k in m
        ensures k in n && SameTree(m[k], n[k])
      {
        var i :| 0 <= i < |a| && Keyed(cfg, a[i]) && IdOf(cfg, a[i]) == k;
        var j :| 0 <= j < |b| && Counterparts(cfg, a[i], b[j]);
      }
    }
    if Within(m, n) {
      forall i | 0 <= i < |a|
        ensures HasCounterpart(cfg, a[i], b)
      {
        var k := IdOf(cfg, a[i]);
        var j :| 0 <= j < |b| && Keyed(cfg, b[j]) && IdOf(cfg, b[j]) == k;
        assert Counterparts(cfg, a[i], b[j]);
      }
    }
  }

  lemma {:induction false} SameTreeSymmetric(x: VNode, y: VNode)
    requires SameTree(x, y)
    ensures SameTree(y, x)
    decreases x
  {
    if x.Mapping? {
      forall k | k in y.fields.Keys
        ensures k in x.fields && SameTree(y.fields[k], x.fields[k])
      {
        SameTreeSymmetric(x.fields[k], y.fields[k]);
      }
    }
  }

  /** A decided list-mode outcome is empty exactly when each side's elements match the other's. */
  lemma {:induction false} ListEmptyExactlyWhen(file: string, cfg: Config, base: VNode, head: VNode, out: Outcome)
    requires ListResult(file, cfg, base, head, out) && out.Changes?
    ensures ListsAt(cfg, base, head)
    ensures var bs, hs := ResolveSpec(base, cfg.root).value.elems, ResolveSpec(head, cfg.root).value.elems;
            out.list == [] <==> Matched(cfg, bs, hs) && Matched(cfg, hs, bs)
  {
    hide ResolveSpec, EntriesDiff, Indexable, IndexOf, Matched, SameTree, ChangeLeq;
    var raw :| ListOutcome(file, cfg, base, head, raw) && SortedFrom(raw, out);
    PermutationMembers(out.list, raw.list);
    var bs, hs := ResolveSpec(base, cfg.root).value.elems, ResolveSpec(head, cfg.root).value.elems;
    var bm, hm :| && IndexOf(cfg, bs, bm) && IndexOf(cfg, hs, hm)
                  && raw == EntriesDiff(file, cfg.root, LabelOf(cfg), bm, hm);
    EntriesEmptyExactlyWhen(file, cfg.root, LabelOf(cfg), bm, hm);
    MatchedIndexes(cfg, bs, hs, bm, hm);
    MatchedIndexes(cfg, hs, bs, hm, bm);
    if SameEntries(bm, hm) {
      forall k | k in hm
        ensures k in bm && SameTree(hm[k], bm[k])
      {
        SameTreeSymmetric(bm[k], hm[k]);
      }
    }
  }

  // ----- What the modes report -----

  /** Map mode reports by the keys of the two mappings under the root, tagged "entry" unless the config says more. */
  lemma {:induction false} MapReports(file: string, cfg: Config, base: VNode, head: VNode, out: Outcome, c: Change)
    requires MapResult(file, cfg, base, head, out) && out.Changes?
    ensures var b, h := ResolveSpec(base, cfg.root), ResolveSpec(head, cfg.root);
            var tag := if cfg.tag == "" then "entry" else cfg.tag;
            && b.Some? && b.value.Mapping? && h.Some? && h.value.Mapping?
            && (c in out.list <==>
                exists k :: EntryReport(file, cfg.root, tag, b.value.fields, h.value.fields, k, c))
  {
    hide ResolveSpec, EntriesDiff, EntryReport, ChangeLeq;
    var raw :| MapOutcome(file, cfg, base, head, raw) && SortedFrom(raw, out);
    PermutationMembers(out.list, raw.list);
    EntriesExactly(file, cfg.root, LabelOf(cfg),
                   ResolveSpec(base, cfg.root).value.fields, ResolveSpec(head, cfg.root).value.fields);
  }

  /** The element's identity: the scalar its pointer finds, unquoted when it is a quoted string. */
  ghost predicate Identifies(cfg: Config, el: VNode, k: string) {
    var n := ResolveSpec(el, cfg.identity);
    && el.Mapping? && n.Some? && n.value.Scalar?
    && var render := n.value.render;
       if |render| >= 2 && render[0] == '"' && cfg.unquote(render).Some? then k == cfg.unquote(render).value
       else k == render
  }

  lemma IdentifiesIs(cfg: Config, el: VNode, k: string)
    ensures Identifies(cfg, el, k) <==> Keyed(cfg, el) && IdOf(cfg, el) == k
  {}

  /** The index of a list: each identity with the element that carries it. */
  ghost predicate ByIdentity(cfg: Config, elems: seq<VNode>, m: map<string, VNode>) {
    forall k, el :: (k in m && m[k] == el) <==> el in elems && Identifies(cfg, el, k)
  }

  lemma {:induction false} IndexIsByIdentity(cfg: Config, elems: seq<VNode>, m: map<string, VNode>)
    requires IndexOf(cfg, elems, m)
    ensures ByIdentity(cfg, elems, m)
  {
    hide IdOf, Keyed, Identifies;
    forall k, el
      ensures (k in m && m[k] == el) <==> el in elems && Identifies(cfg, el, k)
    {
      IdentifiesIs(cfg, el, k);
      if k in m {
        var i :| 0 <= i < |elems| && Keyed(cfg, elems[i]) && IdOf(cfg, elems[i]) == k;
        assert m[k] == elems[i];
      }
    }
  }

  /** List mode reports by identity, wherever the elements stand. */
  lemma {:induction false} ListReports(file: string, cfg: Config, base: VNode, head: VNode, out: Outcome)
    requires ListResult(file, cfg, base, head, out) && out.Changes?
    ensures var b, h := ResolveSpec(base, cfg.root), ResolveSpec(head, cfg.root);
            var tag := if cfg.tag == "" then "entry" else cfg.tag;
            && cfg.identity != ""
            && b.Some? && b.value.Sequence? && b.value.projected && h.Some? && h.value.Sequence? && h.value.projected
            && exists bm, hm ::
                 && ByIdentity(cfg, b.value.elems, bm) && ByIdentity(cfg, h.value.elems, hm)
                 && forall c :: c in out.list <==>
                      exists k :: EntryReport(file, cfg.root, tag, bm, hm, k, c)
  {
    hide ResolveSpec, EntriesDiff, EntryReport, Indexable, IndexOf, ByIdentity, ChangeLeq;
    var raw :| ListOutcome(file, cfg, base, head, raw) && SortedFrom(raw, out);
    PermutationMembers(out.list, raw.list);
    var bs, hs := ResolveSpec(base, cfg.root).value.elems, ResolveSpec(head, cfg.root).value.elems;
    var bm, hm :| && IndexOf(cfg, bs, bm) && IndexOf(cfg, hs, hm)
                  && raw == EntriesDiff(file, cfg.root, LabelOf(cfg), bm, hm);
    IndexIsByIdentity(cfg, bs, bm);
    IndexIsByIdentity(cfg, hs, hm);
    EntriesExactly(file, cfg.root, LabelOf(cfg), bm, hm);
  }
}
