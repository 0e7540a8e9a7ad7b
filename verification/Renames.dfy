/** The rename fold: one delete and one add of the same value in one file become a move. */
module Renames {
  import opened Sequences
  import opened Strings
  import opened Pointers
  import opened Differ

  /** File and value joined by a NUL, as the index keys them. */
  function ValueKey(file: string, val: string): string {
    file + ['\0'] + val
  }

  predicate DeletesAs(k: string, c: Change) { c.kind == Delete && ValueKey(c.file, c.oldValue) == k }
  predicate AddsAs(k: string, c: Change) { c.kind == Add && ValueKey(c.file, c.newValue) == k }

  function DeleteFilter(k: string): Change -> bool { (c: Change) => DeletesAs(k, c) }
  function AddFilter(k: string): Change -> bool { (c: Change) => AddsAs(k, c) }

  function DeletesOf(cs: seq<Change>, k: string): seq<Change> { Filter(DeleteFilter(k), cs) }
  function AddsOf(cs: seq<Change>, k: string): seq<Change> { Filter(AddFilter(k), cs) }

  /** Exactly one delete and exactly one add of this value, at different paths. */
  predicate Folds(cs: seq<Change>, k: string) {
    var ds, adds := DeletesOf(cs, k), AddsOf(cs, k);
    |ds| == 1 && |adds| == 1 && ds[0].path != adds[0].path
  }

  function Renamed(d: Change, a: Change): Change {
    Change(d.file, a.path, Rename, d.path, d.oldValue, a.newValue, "")
  }

  function RenameFor(cs: seq<Change>, k: string): Change
    requires Folds(cs, k)
  {
    Renamed(DeletesOf(cs, k)[0], AddsOf(cs, k)[0])
  }

  /** The change's value is one of `ks`. */
  predicate FoldedBy(ks: seq<string>, c: Change) {
    exists i :: 0 <= i < |ks| && (DeletesAs(ks[i], c) || AddsAs(ks[i], c))
  }

  ghost function KeptFilter(ks: seq<string>): Change -> bool { (c: Change) => !FoldedBy(ks, c) }

  ghost function Kept(cs: seq<Change>, ks: seq<string>): seq<Change> { Filter(KeptFilter(ks), cs) }

  function RenamesFor(cs: seq<Change>, ks: seq<string>): (r: seq<Change>)
    requires forall i :: 0 <= i < |ks| ==> Folds(cs, ks[i])
    ensures |r| == |ks|
    ensures forall i :: 0 <= i < |ks| ==> r[i] == RenameFor(cs, ks[i])
  {
    seq(|ks|, i requires 0 <= i < |ks| => RenameFor(cs, ks[i]))
  }

  /** `ks` lists every value that folds, once each. */
  ghost predicate FoldKeys(cs: seq<Change>, ks: seq<string>) {
    && Distinct(ks)
    && (forall i :: 0 <= i < |ks| ==> Folds(cs, ks[i]))
    && (forall k :: Folds(cs, k) ==> k in ks)
  }

  /** What the fold returns for the folding values `ks`. */
  ghost predicate FoldedAs(cs: seq<Change>, ks: seq<string>, out: seq<Change>) {
    && FoldKeys(cs, ks)
    && (if ks == [] then out == cs
        else Permutation(out, Kept(cs, ks) + RenamesFor(cs, ks)) && Sorted(ChangeLeq, out))
  }

  // ----- The fold as the code does it: index lists, a folded set, then the survivors -----

  function At(cs: seq<Change>, idx: seq<nat>): (r: seq<Change>)
    requires forall j :: 0 <= j < |idx| ==> idx[j] < |cs|
    ensures |r| == |idx|
    ensures forall j :: 0 <= j < |idx| ==> r[j] == cs[idx[j]]
  {
    seq(|idx|, j requires 0 <= j < |idx| => cs[idx[j]])
  }

  function Entry(m: map<string, seq<nat>>, k: string): seq<nat> {
    if k in m then m[k] else []
  }

  /** The index lists hold exactly the positions of the matching changes among the first `n`. */
  ghost predicate Indexes(cs: seq<Change>, n: nat, m: map<string, seq<nat>>, deletes: bool)
    requires n <= |cs|
  {
    && (forall k, j :: k in m && 0 <= j < |m[k]| ==> m[k][j] < n)
    && (forall k :: k in m ==> m[k] != [])
    && (forall k :: IndexedAs(cs, n, m, deletes, k))
    && (forall i, k :: 0 <= i < n && (if deletes then DeletesAs(k, cs[i]) else AddsAs(k, cs[i])) ==> i in Entry(m, k))
  }

  ghost predicate IndexedAs(cs: seq<Change>, n: nat, m: map<string, seq<nat>>, deletes: bool, k: string)
    requires n <= |cs|
  {
    && (forall j :: 0 <= j < |Entry(m, k)| ==> Entry(m, k)[j] < |cs|)
    && At(cs, Entry(m, k)) == Filter(if deletes then DeleteFilter(k) else AddFilter(k), cs[..n])
  }

  lemma {:induction false} IndexKeeps(cs: seq<Change>, n: nat, m: map<string, seq<nat>>, deletes: bool)
    requires n < |cs| && Indexes(cs, n, m, deletes)
    requires cs[n].kind != if deletes then Delete else Add
    ensures Indexes(cs, n + 1, m, deletes)
  {
    hide ValueKey;
    var next := n + 1;
    forall k
      ensures IndexedAs(cs, next, m, deletes, k)
    {
      assert IndexedAs(cs, n, m, deletes, k);
      FilterSnoc(if deletes then DeleteFilter(k) else AddFilter(k), cs, n);
    }
  }

  lemma {:induction false} IndexAddsAt(
    cs: seq<Change>, n: nat, m: map<string, seq<nat>>, deletes: bool, key: string, k: string)
    requires n < |cs| && IndexedAs(cs, n, m, deletes, k)
    requires if deletes then DeletesAs(key, cs[n]) else AddsAs(key, cs[n])
    ensures IndexedAs(cs, n + 1, m[key := Entry(m, key) + [n]], deletes, k)
  {
    hide ValueKey, Filter;
    FilterSnoc(if deletes then DeleteFilter(k) else AddFilter(k), cs, n);
    if k == key {
      assert At(cs, Entry(m, key) + [n]) == At(cs, Entry(m, key)) + [cs[n]];
    }
  }

  lemma {:induction false} IndexAdds(cs: seq<Change>, n: nat, m: map<string, seq<nat>>, deletes: bool, key: string)
    requires n < |cs| && Indexes(cs, n, m, deletes)
    requires if deletes then DeletesAs(key, cs[n]) else AddsAs(key, cs[n])
    ensures Indexes(cs, n + 1, m[key := Entry(m, key) + [n]], deletes)
  {
    hide IndexedAs, ValueKey;
    var m', next := m[key := Entry(m, key) + [n]], n + 1;
    forall k
      ensures IndexedAs(cs, next, m', deletes, k)
    {
      assert IndexedAs(cs, n, m, deletes, k);
      IndexAddsAt(cs, n, m, deletes, key, k);
    }
    forall i, k | 0 <= i < next && (if deletes then DeletesAs(k, cs[i]) else AddsAs(k, cs[i]))
      ensures i in Entry(m', k)
    {
      if i < n {
        assert i in Entry(m, k);
      } else {
        assert k == key;
        assert (Entry(m, key) + [n])[|Entry(m, key)|] == n;
      }
    }
  }

  method BuildIndexes(cs: seq<Change>) returns (dels: map<string, seq<nat>>, adds: map<string, seq<nat>>)
    ensures Indexes(cs, |cs|, dels, true) && Indexes(cs, |cs|, adds, false)
  {
    hide Indexes, Entry, ValueKey;
    dels, adds := map[], map[];
    NoIndexes(cs);
    for i := 0 to |cs|
      invariant Indexes(cs, i, dels, true) && Indexes(cs, i, adds, false)
    {
      var c := cs[i];
      match c.kind {
        case Delete =>
          var k := ValueKey(c.file, c.oldValue);
          IndexAdds(cs, i, dels, true, k);
          IndexKeeps(cs, i, adds, false);
          dels := dels[k := Entry(dels, k) + [i]];
        case Add =>
          var k := ValueKey(c.file, c.newValue);
          IndexAdds(cs, i, adds, false, k);
          IndexKeeps(cs, i, dels, true);
          adds := adds[k := Entry(adds, k) + [i]];
        case _ =>
          IndexKeeps(cs, i, dels, true);
          IndexKeeps(cs, i, adds, false);
      }
    }
  }

  lemma {:induction false} NoIndexes(cs: seq<Change>)
    ensures Indexes(cs, 0, map[], true) && Indexes(cs, 0, map[], false)
  {
    forall deletes, k
      ensures IndexedAs(cs, 0, map[], deletes, k)
    {
      assert cs[..0] == [];
    }
  }

  lemma {:induction false} IndexMeans(
    cs: seq<Change>, dels: map<string, seq<nat>>, adds: map<string, seq<nat>>, k: string)
    requires Indexes(cs, |cs|, dels, true) && Indexes(cs, |cs|, adds, false)
    ensures forall j :: 0 <= j < |Entry(dels, k)| ==> Entry(dels, k)[j] < |cs|
    ensures forall j :: 0 <= j < |Entry(adds, k)| ==> Entry(adds, k)[j] < |cs|
    ensures At(cs, Entry(dels, k)) == DeletesOf(cs, k) && At(cs, Entry(adds, k)) == AddsOf(cs, k)
  {
    assert cs[..|cs|] == cs;
    assert IndexedAs(cs, |cs|, dels, true, k) && IndexedAs(cs, |cs|, adds, false, k);
  }

  /** `ks` are the values that fold among `seen`, and `folded` their positions. */
  ghost predicate Collected(cs: seq<Change>, seen: set<string>, ks: seq<string>, folded: set<nat>) {
    && Distinct(ks) && (forall k :: k in ks <==> k in seen && Folds(cs, k))
    && (forall i: nat :: i in folded <==> i < |cs| && FoldedBy(ks, cs[i]))
  }

  method FoldRenames(cs: seq<Change>, opaqueSet: bool, detect: bool) returns (out: seq<Change>, ghost ks: seq<string>)
    ensures !detect || opaqueSet ==> out == cs
    ensures detect && !opaqueSet ==> FoldedAs(cs, ks, out)
  {
    hide Indexes, Folds, ChangeLeq, FoldedBy;
    ks := [];
    if !detect || opaqueSet { return cs, []; }
    var dels, adds := BuildIndexes(cs);
    var folded: set<nat> := {};
    var renames: seq<Change> := [];
    var rest := dels.Keys;
    assert Collected(cs, {}, [], {}) by { NothingCollected(cs); }
    while rest != {}
      invariant rest <= dels.Keys
      invariant Collected(cs, dels.Keys - rest, ks, folded)
      invariant (forall i :: 0 <= i < |ks| ==> Folds(cs, ks[i])) && renames == RenamesFor(cs, ks)
      decreases rest
    {
      var k :| k in rest;
      rest := rest - {k};
      IndexMeans(cs, dels, adds, k);
      var ds := dels[k];
      if k in adds && |ds| == 1 && |adds[k]| == 1 && cs[ds[0]].path != cs[adds[k][0]].path {
        var d, a := ds[0], adds[k][0];
        FoldsHere(cs, dels, adds, k);
        CollectOne(cs, dels, adds, dels.Keys - (rest + {k}), ks, folded, k);
        assert dels.Keys - (rest + {k}) + {k} == dels.Keys - rest;
        folded := folded + {d, a};
        renames := renames + [Renamed(cs[d], cs[a])];
        ks := ks + [k];
      } else {
        FoldsNowhere(cs, dels, adds, k);
        assert dels.Keys - rest == dels.Keys - (rest + {k}) + {k};
      }
    }
    AllCollected(cs, dels, ks, folded);
    if renames == [] { return cs, ks; }
    var survivors := Survivors(cs, folded, ks);
    out := SortChanges(survivors + renames);
  }

  method Survivors(cs: seq<Change>, folded: set<nat>, ghost ks: seq<string>) returns (out: seq<Change>)
    requires forall i: nat :: i in folded <==> i < |cs| && FoldedBy(ks, cs[i])
    ensures out == Kept(cs, ks)
  {
    hide FoldedBy;
    out := [];
    for i := 0 to |cs|
      invariant out == Filter(KeptFilter(ks), cs[..i])
    {
      FilterSnoc(KeptFilter(ks), cs, i);
      if i !in folded { out := out + [cs[i]]; }
    }
    assert cs[..|cs|] == cs;
  }

  lemma NothingCollected(cs: seq<Change>)
    ensures Collected(cs, {}, [], {})
  {}

  lemma {:induction false} FoldsHere(
    cs: seq<Change>, dels: map<string, seq<nat>>, adds: map<string, seq<nat>>, k: string)
    requires Indexes(cs, |cs|, dels, true) && Indexes(cs, |cs|, adds, false)
    requires k in dels && k in adds && |dels[k]| == 1 && |adds[k]| == 1
    requires dels[k][0] < |cs| && adds[k][0] < |cs| && cs[dels[k][0]].path != cs[adds[k][0]].path
    ensures Folds(cs, k) && RenameFor(cs, k) == Renamed(cs[dels[k][0]], cs[adds[k][0]])
  {
    hide Indexes, DeletesOf, AddsOf;
    IndexMeans(cs, dels, adds, k);
  }

  lemma {:induction false} FoldsNowhere(
    cs: seq<Change>, dels: map<string, seq<nat>>, adds: map<string, seq<nat>>, k: string)
    requires Indexes(cs, |cs|, dels, true) && Indexes(cs, |cs|, adds, false)
    requires k in dels && (k in dels && |dels[k]| == 1 ==> dels[k][0] < |cs|)
    requires (k in adds && |adds[k]| == 1 ==> adds[k][0] < |cs|)
    requires !(k in adds && |dels[k]| == 1 && |adds[k]| == 1 && cs[dels[k][0]].path != cs[adds[k][0]].path)
    ensures !Folds(cs, k)
  {
    hide Indexes, DeletesOf, AddsOf;
    IndexMeans(cs, dels, adds, k);
  }

  /** The folded positions of a value that folds are its one delete and its one add. */
  lemma {:induction false} CollectOne(
    cs: seq<Change>, dels: map<string, seq<nat>>, adds: map<string, seq<nat>>, seen: set<string>, ks: seq<string>,
    folded: set<nat>, k: string)
    requires Indexes(cs, |cs|, dels, true) && Indexes(cs, |cs|, adds, false)
    requires k in dels && k in adds && |dels[k]| == 1 && |adds[k]| == 1
    requires Folds(cs, k) && k !in seen && Collected(cs, seen, ks, folded)
    ensures Collected(cs, seen + {k}, ks + [k], folded + {dels[k][0], adds[k][0]})
  {
    hide Folds, ValueKey, FoldedBy;
    var d, a := dels[k][0], adds[k][0];
    OnlyHere(cs, dels, adds, k);
    forall i: nat
      ensures i in folded + {d, a} <==> i < |cs| && FoldedBy(ks + [k], cs[i])
    {
      if i < |cs| { FoldedBySnoc(ks, k, cs[i]); }
    }
  }

  lemma {:induction false} FoldedBySnoc(ks: seq<string>, k: string, c: Change)
    ensures FoldedBy(ks + [k], c) <==> FoldedBy(ks, c) || DeletesAs(k, c) || AddsAs(k, c)
  {
    hide DeletesAs, AddsAs;
    var js := ks + [k];
    assert js[|ks|] == k;
    if FoldedBy(ks, c) {
      var i :| 0 <= i < |ks| && (DeletesAs(ks[i], c) || AddsAs(ks[i], c));
      assert js[i] == ks[i];
    }
  }

  lemma {:induction false} OnlyHere(
    cs: seq<Change>, dels: map<string, seq<nat>>, adds: map<string, seq<nat>>, k: string)
    requires Indexes(cs, |cs|, dels, true) && Indexes(cs, |cs|, adds, false)
    requires k in dels && k in adds && |dels[k]| == 1 && |adds[k]| == 1
    ensures dels[k][0] < |cs| && adds[k][0] < |cs|
    ensures forall i :: 0 <= i < |cs| ==>
              (DeletesAs(k, cs[i]) || AddsAs(k, cs[i]) <==> i == dels[k][0] || i == adds[k][0])
  {
    hide DeletesAs, AddsAs;
    IndexMeans(cs, dels, adds, k);
    FilterMembers(DeleteFilter(k), cs);
    FilterMembers(AddFilter(k), cs);
    assert At(cs, dels[k])[0] in DeletesOf(cs, k) && At(cs, adds[k])[0] in AddsOf(cs, k);
    forall i | 0 <= i < |cs| && DeletesAs(k, cs[i])
      ensures i == dels[k][0]
    {
      assert i in Entry(dels, k);
    }
    forall i | 0 <= i < |cs| && AddsAs(k, cs[i])
      ensures i == adds[k][0]
    {
      assert i in Entry(adds, k);
    }
  }

  lemma {:induction false} AllCollected(cs: seq<Change>, dels: map<string, seq<nat>>, ks: seq<string>, folded: set<nat>)
    requires Indexes(cs, |cs|, dels, true) && Collected(cs, dels.Keys, ks, folded)
    ensures FoldKeys(cs, ks)
  {
    forall k | Folds(cs, k)
      ensures k in ks
    {
      assert IndexedAs(cs, |cs|, dels, true, k);
      assert cs[..|cs|] == cs;
      assert At(cs, Entry(dels, k)) == DeletesOf(cs, k);
      assert k in dels;
    }
    forall i | 0 <= i < |ks|
      ensures Folds(cs, ks[i])
    {
      assert ks[i] in ks;
    }
  }

  // ----- Conservation -----

  /** The shape document mode emits: one value on a one-sided change, no rename fields. */
  ghost predicate DocumentShape(c: Change) {
    && c.oldPath == "" && c.entryRef == "" && c.kind != Rename
    && (c.kind == Delete ==> c.newValue == "") && (c.kind == Add ==> c.oldValue == "")
  }

  /** One file name, followed by the separator, begins the other. */
  predicate FilesClash(f: string, g: string) {
    f != g && (f + ['\0'] <= g || g + ['\0'] <= f)
  }

  /** Changes of that shape, in files whose names do not clash. */
  ghost predicate DocumentMode(cs: seq<Change>) {
    && (forall i :: 0 <= i < |cs| ==> DocumentShape(cs[i]))
    && forall i, j :: 0 <= i < |cs| && 0 <= j < |cs| ==> !FilesClash(cs[i].file, cs[j].file)
  }

  /** Two different files can share an index key exactly when their names clash. */
  lemma {:induction false} KeysMeetExactlyWhen(f: string, g: string)
    requires f != g
    ensures (exists v, w :: ValueKey(f, v) == ValueKey(g, w)) <==> FilesClash(f, g)
  {
    if f + ['\0'] <= g {
      assert ValueKey(f, g[|f| + 1..] + ['\0']) == ValueKey(g, "");
    }
    if g + ['\0'] <= f {
      assert ValueKey(g, f[|g| + 1..] + ['\0']) == ValueKey(f, "");
    }
    forall v, w | ValueKey(f, v) == ValueKey(g, w)
      ensures FilesClash(f, g)
    {
      KeysMeet(f, v, g, w);
    }
  }

  lemma {:induction false} KeysMeet(f: string, v: string, g: string, w: string)
    requires f != g && ValueKey(f, v) == ValueKey(g, w)
    ensures FilesClash(f, g)
  {
    var k := ValueKey(f, v);
    assert k[..|f|] == f && k[..|g|] == g && k[|f|] == '\0' && k[|g|] == '\0';
    if |f| < |g| {
      assert g[..|f| + 1] == k[..|f| + 1] == f + ['\0'];
    } else if |g| < |f| {
      assert f[..|g| + 1] == k[..|g| + 1] == g + ['\0'];
    }
  }

  /** Among files whose names do not clash a key stands for one file and one value. */
  lemma {:induction false} KeyIsFileAndValue(f: string, v: string, g: string, w: string)
    requires !FilesClash(f, g) && ValueKey(f, v) == ValueKey(g, w)
    ensures f == g && v == w
  {
    hide FilesClash, ValueKey;
    if f != g {
      KeysMeet(f, v, g, w);
    } else {
      SameFileValue(f, v, w);
    }
  }

  lemma {:induction false} SameFileValue(f: string, v: string, w: string)
    requires ValueKey(f, v) == ValueKey(f, w)
    ensures v == w
  {
    assert ValueKey(f, v)[|f| + 1..] == v && ValueKey(f, w)[|f| + 1..] == w;
  }

  /** A rename stands for the delete and the add it came from. */
  function Unfold(): Change -> multiset<Change> {
    (c: Change) =>
      if c.kind == Rename
      then multiset{MakeChange(c.file, c.oldPath, Delete, c.oldValue, ""),
                    MakeChange(c.file, c.path, Add, "", c.newValue)}
      else multiset{c}
  }

  /** Folding pairs the one delete with the one add of the same file and the same value. */
  lemma {:induction false} RenameMeans(cs: seq<Change>, k: string)
    requires DocumentMode(cs) && Folds(cs, k)
    ensures var d, a := DeletesOf(cs, k)[0], AddsOf(cs, k)[0];
            && d in cs && a in cs && DeletesAs(k, d) && AddsAs(k, a)
            && d.file == a.file && d.oldValue == a.newValue
            && Unfold()(RenameFor(cs, k)) == multiset{d, a}
  {
    hide Filter, FilesClash;
    FilterMembers(DeleteFilter(k), cs);
    FilterMembers(AddFilter(k), cs);
    var d, a := DeletesOf(cs, k)[0], AddsOf(cs, k)[0];
    assert d in DeletesOf(cs, k) && a in AddsOf(cs, k);
    KeyIsFileAndValue(d.file, d.oldValue, a.file, a.newValue);
  }

  lemma {:induction false} PairFolds(d: Change, a: Change)
    requires d.kind == Delete && a.kind == Add && d.path != a.path
    ensures var k := ValueKey(d.file, d.oldValue); Folds([d, a], k) <==> ValueKey(a.file, a.newValue) == k
  {
    hide ValueKey;
    var k := ValueKey(d.file, d.oldValue);
    assert [d, a] == [d] + [a] && [d] == [] + [d];
    FilterAppend(DeleteFilter(k), [d], a);
    FilterAppend(AddFilter(k), [d], a);
    FilterAppend(DeleteFilter(k), [], d);
    FilterAppend(AddFilter(k), [], d);
  }

  ghost predicate Mispairs(f: string, p: string, v: string, g: string, q: string, w: string) {
    Folds([MakeChange(f, p, Delete, v, ""), MakeChange(g, q, Add, "", w)], ValueKey(f, v))
  }

  /** A delete in one file folds with an add in another, for some values, exactly when the file names clash. */
  lemma {:induction false} MispairsExactlyWhen(f: string, p: string, g: string, q: string)
    requires f != g && p != q
    ensures (exists v, w :: Mispairs(f, p, v, g, q, w)) <==> FilesClash(f, g)
  {
    hide ValueKey, Folds, FilesClash;
    forall v, w
      ensures Mispairs(f, p, v, g, q, w) <==> ValueKey(f, v) == ValueKey(g, w)
    {
      PairFolds(MakeChange(f, p, Delete, v, ""), MakeChange(g, q, Add, "", w));
    }
    KeysMeetExactlyWhen(f, g);
    if FilesClash(f, g) {
      var v, w :| ValueKey(f, v) == ValueKey(g, w);
      assert Mispairs(f, p, v, g, q, w);
    }
  }

  lemma {:induction false} KeptWithout(cs: seq<Change>, ks: seq<string>, k: string)
    requires k !in ks
    ensures multiset(Kept(cs, ks))
         == multiset(Kept(cs, ks + [k])) + multiset(DeletesOf(cs, k)) + multiset(AddsOf(cs, k))
  {
    hide ValueKey, Filter;
    FilterPermutation(KeptFilter(ks), cs);
    FilterPermutation(KeptFilter(ks + [k]), cs);
    FilterPermutation(DeleteFilter(k), cs);
    FilterPermutation(AddFilter(k), cs);
    forall c
      ensures multiset(Kept(cs, ks))[c]
           == (multiset(Kept(cs, ks + [k])) + multiset(DeletesOf(cs, k)) + multiset(AddsOf(cs, k)))[c]
    {
      FoldedBySnoc(ks, k, c);
      if DeletesAs(k, c) || AddsAs(k, c) { NotFoldedBy(ks, k, c); }
    }
  }

  lemma {:induction false} NotFoldedBy(ks: seq<string>, k: string, c: Change)
    requires k !in ks && (DeletesAs(k, c) || AddsAs(k, c))
    ensures !FoldedBy(ks, c)
  {
    hide ValueKey;
  }

  lemma {:induction false} PartialConservation(cs: seq<Change>, ks: seq<string>)
    requires DocumentMode(cs) && Distinct(ks) && forall i :: 0 <= i < |ks| ==> Folds(cs, ks[i])
    ensures multiset(Kept(cs, ks)) + Gather(Unfold(), RenamesFor(cs, ks)) == multiset(cs)
  {
    hide Folds, DocumentMode, Unfold;
    if ks == [] {
      KeepAll(cs);
    } else {
      var n := |ks| - 1;
      var js, k := ks[..n], ks[n];
      assert ks == js + [k];
      PartialConservation(cs, js);
      KeptWithout(cs, js, k);
      RenameMeans(cs, k);
      assert RenamesFor(cs, ks) == RenamesFor(cs, js) + [RenameFor(cs, k)];
      GatherSnoc(Unfold(), RenamesFor(cs, js), RenameFor(cs, k));
      SingleDeleteAdd(cs, k);
    }
  }

  lemma {:induction false} SingleDeleteAdd(cs: seq<Change>, k: string)
    requires Folds(cs, k)
    ensures multiset(DeletesOf(cs, k)) + multiset(AddsOf(cs, k)) == multiset{DeletesOf(cs, k)[0], AddsOf(cs, k)[0]}
  {
    hide DeletesOf, AddsOf;
    var ds, adds := DeletesOf(cs, k), AddsOf(cs, k);
    assert ds == [ds[0]] && adds == [adds[0]];
  }

  lemma {:induction false} KeepAll(cs: seq<Change>)
    ensures Kept(cs, []) == cs
  {
    if cs != [] {
      KeepAll(cs[1..]);
    }
  }

  lemma {:induction false} UnfoldPlain(cs: seq<Change>)
    requires forall i :: 0 <= i < |cs| ==> cs[i].kind != Rename
    ensures Gather(Unfold(), cs) == multiset(cs)
  {
    if cs != [] {
      UnfoldPlain(cs[1..]);
      assert cs == [cs[0]] + cs[1..];
    }
  }

  /** Unfolding the result restores exactly the original changes: nothing is lost and nothing invented. */
  lemma {:induction false} FoldConserves(cs: seq<Change>, ks: seq<string>, out: seq<Change>)
    requires DocumentMode(cs) && FoldedAs(cs, ks, out)
    ensures Gather(Unfold(), out) == multiset(cs)
  {
    hide Folds, Unfold, ChangeLeq, Gather;
    if ks == [] {
      UnfoldPlain(cs);
    } else {
      var kept, renames := Kept(cs, ks), RenamesFor(cs, ks);
      PartialConservation(cs, ks);
      GatherPermutation(Unfold(), out, kept + renames);
      GatherConcat(Unfold(), kept, renames);
      FilterMembers(KeptFilter(ks), cs);
      forall i | 0 <= i < |kept|
        ensures kept[i].kind != Rename
      {
        assert kept[i] in cs;
      }
      UnfoldPlain(kept);
    }
  }

  /** Every rename in the result moves one unchanged value within one file. */
  lemma {:induction false} RenamesAreMoves(cs: seq<Change>, ks: seq<string>, out: seq<Change>, r: Change)
    requires DocumentMode(cs) && FoldedAs(cs, ks, out)
    requires r in out && r.kind == Rename
    ensures r.oldValue == r.newValue && r.oldPath != r.path
    ensures MakeChange(r.file, r.oldPath, Delete, r.oldValue, "") in cs
    ensures MakeChange(r.file, r.path, Add, "", r.newValue) in cs
  {
    hide Unfold, ChangeLeq, Gather, Filter, KeptFilter;
    var i := RenameComesFrom(cs, ks, out, r);
    RenameMeans(cs, ks[i]);
  }

  lemma {:induction false} RenameComesFrom(
    cs: seq<Change>, ks: seq<string>, out: seq<Change>, r: Change)
    returns (i: nat)
    requires DocumentMode(cs) && FoldedAs(cs, ks, out)
    requires r in out && r.kind == Rename
    ensures i < |ks| && Folds(cs, ks[i]) && r == RenameFor(cs, ks[i])
  {
    hide Folds, ChangeLeq, FoldedBy;
    var kept, renames := Kept(cs, ks), RenamesFor(cs, ks);
    FilterMembers(KeptFilter(ks), cs);
    assert r !in cs by { NoRenames(cs, r); }
    if ks == [] {
      assert false;
    }
    PermutationMembers(out, kept + renames);
    assert r in renames;
    i :| 0 <= i < |renames| && renames[i] == r;
  }

  lemma NoRenames(cs: seq<Change>, r: Change)
    requires DocumentMode(cs) && r.kind == Rename
    ensures r !in cs
  {}

  /** Every decided diff of two documents has that shape, so what is proved of the fold holds of it. */
  lemma {:induction false} DiffIsDocumentMode(file: string, base: VNode, head: VNode, cs: seq<Change>)
    requires Exactly(file, [], base, head, cs)
    ensures DocumentMode(cs)
  {
    hide Ptr, Leaf;
    forall i | 0 <= i < |cs|
      ensures DocumentShape(cs[i]) && cs[i].file == file
    {
      assert cs[i] in cs;
      var q :| Reports(file, [], base, head, q, cs[i]);
    }
  }

  // ----- Exactly what folds -----

  /** Changes `i` and `j` are the only delete and the only add of one value in one file, at two paths. */
  ghost predicate SoleMove(cs: seq<Change>, i: int, j: int) {
    && 0 <= i < |cs| && 0 <= j < |cs| && cs[i].kind == Delete && cs[j].kind == Add
    && cs[i].file == cs[j].file && cs[i].oldValue == cs[j].newValue && cs[i].path != cs[j].path
    && (forall l :: 0 <= l < |cs| && l != i && cs[l].kind == Delete && cs[l].file == cs[i].file ==>
          cs[l].oldValue != cs[i].oldValue)
    && (forall l :: 0 <= l < |cs| && l != j && cs[l].kind == Add && cs[l].file == cs[i].file ==>
          cs[l].newValue != cs[i].oldValue)
  }

  lemma {:induction false} SoleMoveFolds(cs: seq<Change>, i: int, j: int)
    requires DocumentMode(cs) && SoleMove(cs, i, j)
    ensures var k := ValueKey(cs[i].file, cs[i].oldValue);
            && DeletesOf(cs, k) == [cs[i]] && AddsOf(cs, k) == [cs[j]] && Folds(cs, k)
            && DeletesAs(k, cs[i]) && AddsAs(k, cs[j])
  {
    hide ValueKey, FilesClash, Filter;
    var k := ValueKey(cs[i].file, cs[i].oldValue);
    forall l | 0 <= l < |cs|
      ensures (DeletesAs(k, cs[l]) <==> l == i) && (AddsAs(k, cs[l]) <==> l == j)
    {
      if DeletesAs(k, cs[l]) { KeyIsFileAndValue(cs[l].file, cs[l].oldValue, cs[i].file, cs[i].oldValue); }
      if AddsAs(k, cs[l]) { KeyIsFileAndValue(cs[l].file, cs[l].newValue, cs[i].file, cs[i].oldValue); }
    }
    OnlyPosition(DeleteFilter(k), cs, i);
    OnlyPosition(AddFilter(k), cs, j);
  }

  lemma {:induction false} FoldsSole(cs: seq<Change>, k: string) returns (i: int, j: int)
    requires DocumentMode(cs) && Folds(cs, k)
    ensures SoleMove(cs, i, j) && DeletesOf(cs, k)[0] == cs[i] && AddsOf(cs, k)[0] == cs[j]
    ensures forall l :: 0 <= l < |cs| ==> (DeletesAs(k, cs[l]) <==> l == i) && (AddsAs(k, cs[l]) <==> l == j)
  {
    hide ValueKey, FilesClash, Filter;
    RenameMeans(cs, k);
    i := PositionOfOnly(DeleteFilter(k), cs);
    j := PositionOfOnly(AddFilter(k), cs);
    assert forall l :: 0 <= l < |cs| ==> DeleteFilter(k)(cs[l]) == DeletesAs(k, cs[l]);
    assert forall l :: 0 <= l < |cs| ==> AddFilter(k)(cs[l]) == AddsAs(k, cs[l]);
  }

  ghost predicate Moved(cs: seq<Change>, r: Change) {
    exists i, j :: && SoleMove(cs, i, j)
                   && r == Change(cs[i].file, cs[j].path, Rename, cs[i].path, cs[i].oldValue, cs[j].newValue, "")
  }

  ghost predicate Untouched(cs: seq<Change>, l: int) {
    0 <= l < |cs| && forall i, j :: SoleMove(cs, i, j) ==> l != i && l != j
  }

  lemma {:induction false} FoldedExactlyWhen(cs: seq<Change>, ks: seq<string>, l: int)
    requires DocumentMode(cs) && FoldKeys(cs, ks) && 0 <= l < |cs|
    ensures FoldedBy(ks, cs[l]) <==> !Untouched(cs, l)
  {
    hide ValueKey, FilesClash, Filter, Folds, DocumentMode;
    if FoldedBy(ks, cs[l]) {
      var n :| 0 <= n < |ks| && (DeletesAs(ks[n], cs[l]) || AddsAs(ks[n], cs[l]));
      var i, j := FoldsSole(cs, ks[n]);
    }
    if i, j :| SoleMove(cs, i, j) && (l == i || l == j) {
      SoleMoveFolds(cs, i, j);
      var k := ValueKey(cs[i].file, cs[i].oldValue);
      var n :| 0 <= n < |ks| && ks[n] == k;
      assert DeletesAs(ks[n], cs[l]) || AddsAs(ks[n], cs[l]);
    }
  }

  /**
   The fold, spelled out: a rename appears for exactly those deletes and adds that are alone with their
   value in their file, and every other change stays.
   */
  lemma {:induction false} FoldsExactly(cs: seq<Change>, ks: seq<string>, out: seq<Change>, r: Change)
    requires DocumentMode(cs) && FoldedAs(cs, ks, out)
    ensures r in out <==> Moved(cs, r) || exists l :: Untouched(cs, l) && cs[l] == r
  {
    hide ValueKey, FilesClash, Filter, Folds, ChangeLeq, FoldedBy, DocumentMode, SoleMove;
    forall l | 0 <= l < |cs|
      ensures FoldedBy(ks, cs[l]) <==> !Untouched(cs, l)
    {
      FoldedExactlyWhen(cs, ks, l);
    }
    MovedExactlyWhen(cs, ks, r);
    FilterMembers(KeptFilter(ks), cs);
    if ks == [] {
      assert forall l :: 0 <= l < |cs| ==> !FoldedBy(ks, cs[l]) by { NoneFolded(cs); }
    } else {
      PermutationMembers(out, Kept(cs, ks) + RenamesFor(cs, ks));
    }
  }

  lemma {:induction false} MovedExactlyWhen(cs: seq<Change>, ks: seq<string>, r: Change)
    requires DocumentMode(cs) && FoldKeys(cs, ks)
    ensures Moved(cs, r) <==> r in RenamesFor(cs, ks)
  {
    hide ValueKey, FilesClash, Filter, DocumentMode;
    if i, j :| && SoleMove(cs, i, j)
               && r == Change(cs[i].file, cs[j].path, Rename, cs[i].path, cs[i].oldValue, cs[j].newValue, "")
    {
      SoleMoveFolds(cs, i, j);
      var n :| 0 <= n < |ks| && ks[n] == ValueKey(cs[i].file, cs[i].oldValue);
      assert RenamesFor(cs, ks)[n] == r;
    }
    if n :| 0 <= n < |ks| && RenamesFor(cs, ks)[n] == r {
      var i, j := FoldsSole(cs, ks[n]);
    }
  }

  lemma NoneFolded(cs: seq<Change>)
    ensures forall l :: 0 <= l < |cs| ==> !FoldedBy([], cs[l])
  {}

  // ----- Idempotence and order independence -----

  lemma {:induction false} FilterNone(keep: Change -> bool, cs: seq<Change>)
    requires forall i :: 0 <= i < |cs| ==> !keep(cs[i])
    ensures Filter(keep, cs) == []
  {
    if cs != [] {
      FilterNone(keep, cs[1..]);
    }
  }

  lemma {:induction false} SingletonBags<T>(a: seq<T>, b: seq<T>)
    requires multiset(a) == multiset(b)
    ensures |a| == |b|
    ensures |a| == 1 ==> a == b
  {
    assert |multiset(a)| == |multiset(b)|;
    if |a| == 1 {
      assert a == [a[0]] && b == [b[0]];
      assert a[0] in multiset(b);
    }
  }

  /** Whether a value folds depends only on the bag of its deletes and the bag of its adds. */
  lemma {:induction false} FoldsByBags(cs: seq<Change>, ds: seq<Change>, k: string)
    requires Permutation(DeletesOf(cs, k), DeletesOf(ds, k)) && Permutation(AddsOf(cs, k), AddsOf(ds, k))
    ensures Folds(cs, k) <==> Folds(ds, k)
    ensures Folds(cs, k) ==> RenameFor(cs, k) == RenameFor(ds, k)
  {
    hide DeletesOf, AddsOf;
    SingletonBags(DeletesOf(cs, k), DeletesOf(ds, k));
    SingletonBags(AddsOf(cs, k), AddsOf(ds, k));
  }

  lemma {:induction false} FoldsPermutes(cs: seq<Change>, ds: seq<Change>, k: string)
    requires Permutation(cs, ds)
    ensures Folds(cs, k) <==> Folds(ds, k)
    ensures Folds(cs, k) ==> RenameFor(cs, k) == RenameFor(ds, k)
  {
    hide Folds, RenameFor, ValueKey;
    FilterPermutation(DeleteFilter(k), cs);
    FilterPermutation(DeleteFilter(k), ds);
    FilterPermutation(AddFilter(k), cs);
    FilterPermutation(AddFilter(k), ds);
    FoldsByBags(cs, ds, k);
  }

  /** After the fold no value folds any more. */
  lemma {:induction false} NothingLeftToFold(cs: seq<Change>, ks: seq<string>, out: seq<Change>, k: string)
    requires FoldedAs(cs, ks, out) && ks != []
    ensures !Folds(out, k)
  {
    hide ValueKey, ChangeLeq, Folds, RenameFor;
    var kept, renames := Kept(cs, ks), RenamesFor(cs, ks);
    var all := kept + renames;
    FoldsPermutes(out, all, k);
    FilterConcat(DeleteFilter(k), kept, renames);
    FilterConcat(AddFilter(k), kept, renames);
    forall i | 0 <= i < |renames|
      ensures renames[i].kind == Rename
    {
      RenameIsRename(cs, ks[i]);
    }
    FilterNone(DeleteFilter(k), renames);
    FilterNone(AddFilter(k), renames);
    assert DeletesOf(all, k) == DeletesOf(kept, k) && AddsOf(all, k) == AddsOf(kept, k);
    if k in ks {
      FilterMembers(KeptFilter(ks), cs);
      forall i | 0 <= i < |kept|
        ensures !DeletesAs(k, kept[i])
      {
        assert kept[i] in kept;
      }
      FilterNone(DeleteFilter(k), kept);
      NoDeleteNoFold(all, k);
    } else {
      KeptSame(cs, ks, k);
      FoldsByBags(cs, all, k);
    }
  }

  lemma NoDeleteNoFold(cs: seq<Change>, k: string)
    requires DeletesOf(cs, k) == []
    ensures !Folds(cs, k)
  {}

  lemma RenameIsRename(cs: seq<Change>, k: string)
    requires Folds(cs, k)
    ensures RenameFor(cs, k).kind == Rename
  {}

  lemma {:induction false} KeptSame(cs: seq<Change>, ks: seq<string>, k: string)
    requires k !in ks
    ensures Permutation(DeletesOf(cs, k), DeletesOf(Kept(cs, ks), k))
    ensures Permutation(AddsOf(cs, k), AddsOf(Kept(cs, ks), k))
  {
    hide Filter, ValueKey, FoldedBy;
    FilterPermutation(KeptFilter(ks), cs);
    FilterPermutation(DeleteFilter(k), cs);
    FilterPermutation(AddFilter(k), cs);
    FilterPermutation(DeleteFilter(k), Kept(cs, ks));
    FilterPermutation(AddFilter(k), Kept(cs, ks));
    forall c | DeletesAs(k, c) || AddsAs(k, c)
      ensures !FoldedBy(ks, c)
    {
      NotFoldedBy(ks, k, c);
    }
  }

  /** Folding twice is folding once. */
  lemma {:induction false} FoldIdempotent(
    cs: seq<Change>, ks: seq<string>, out: seq<Change>, ks': seq<string>, out': seq<Change>)
    requires FoldedAs(cs, ks, out) && FoldedAs(out, ks', out')
    ensures out' == out
  {
    hide Folds, ChangeLeq, Kept, RenamesFor;
    if ks' != [] {
      assert Folds(out, ks'[0]);
      if ks != [] {
        NothingLeftToFold(cs, ks, out, ks'[0]);
      }
    }
  }

  ghost predicate DistinctPaths(cs: seq<Change>) {
    forall i, j :: 0 <= i < j < |cs| ==> PathKey(cs[i]) != PathKey(cs[j])
  }

  lemma {:induction false} DistinctMembers(cs: seq<Change>, x: Change, y: Change)
    requires DistinctPaths(cs) && x in cs && y in cs && PathKey(x) == PathKey(y)
    ensures x == y
  {
    var i :| 0 <= i < |cs| && cs[i] == x;
    var j :| 0 <= j < |cs| && cs[j] == y;
  }

  /** Where an output change comes from: itself, or the add its rename consumed. */
  lemma {:induction false} Origin(cs: seq<Change>, ks: seq<string>, x: Change) returns (o: Change)
    requires DocumentMode(cs) && FoldKeys(cs, ks) && x in Kept(cs, ks) + RenamesFor(cs, ks)
    ensures o in cs && PathKey(o) == PathKey(x)
    ensures (x == o && !FoldedBy(ks, o)) || (exists i :: 0 <= i < |ks| && x == RenameFor(cs, ks[i]) && AddsAs(ks[i], o))
  {
    hide Folds, ValueKey, Unfold, FoldedBy;
    FilterMembers(KeptFilter(ks), cs);
    if x in Kept(cs, ks) {
      o := x;
    } else {
      var renames := RenamesFor(cs, ks);
      assert x in renames;
      var i :| 0 <= i < |renames| && renames[i] == x;
      RenameMeans(cs, ks[i]);
      RenamePath(cs, ks[i]);
      o := AddsOf(cs, ks[i])[0];
    }
  }

  lemma {:induction false} RenamePath(cs: seq<Change>, k: string)
    requires Folds(cs, k)
    ensures |DeletesOf(cs, k)| == 1 && |AddsOf(cs, k)| == 1
    ensures RenameFor(cs, k).file == DeletesOf(cs, k)[0].file && RenameFor(cs, k).path == AddsOf(cs, k)[0].path
  {
    hide DeletesOf, AddsOf;
  }

  /** Distinct paths stay distinct, so the sorted result is determined. */
  lemma {:induction false} OutputSeparates(cs: seq<Change>, ks: seq<string>, out: seq<Change>)
    requires DocumentMode(cs) && DistinctPaths(cs) && FoldKeys(cs, ks)
    requires Permutation(out, Kept(cs, ks) + RenamesFor(cs, ks))
    ensures Separates(ChangeLeq, out)
  {
    hide Folds, ValueKey, LexLeq, RenameFor, DocumentMode, DistinctPaths;
    PermutationMembers(out, Kept(cs, ks) + RenamesFor(cs, ks));
    forall x, y | x in out && y in out && ChangeLeq(x, y) && ChangeLeq(y, x)
      ensures x == y
    {
      LexCompare(PathKey(x), PathKey(y));
      var a := Origin(cs, ks, x);
      var b := Origin(cs, ks, y);
      DistinctMembers(cs, a, b);
    }
  }

  /** The fold does not depend on the order of its input. */
  lemma {:induction false} FoldOrderIndependent(
    cs: seq<Change>, ks: seq<string>, out: seq<Change>, ds: seq<Change>, js: seq<string>, out': seq<Change>)
    requires DocumentMode(cs) && DistinctPaths(cs) && Permutation(cs, ds)
    requires FoldedAs(cs, ks, out) && FoldedAs(ds, js, out')
    ensures Permutation(out, out')
    ensures ks != [] ==> out == out'
  {
    hide ChangeLeq, Folds, RenameFor, DocumentMode, DistinctPaths;
    forall k
      ensures k in ks <==> k in js
    {
      FoldsPermutes(cs, ds, k);
      assert Folds(cs, k) <==> k in ks;
      assert Folds(ds, k) <==> k in js;
    }
    DistinctPermutation(ks, js);
    PermutationMembers(ks, js);
    if ks != [] {
      KeptPermutes(cs, ds, ks, js);
      RenamesPermute(cs, ds, ks, js);
      OutputSeparates(cs, ks, out);
      SortedUnique(ChangeLeq, out, out');
    }
  }

  lemma {:induction false} KeptPermutes(cs: seq<Change>, ds: seq<Change>, ks: seq<string>, js: seq<string>)
    requires Permutation(cs, ds) && forall k :: k in ks <==> k in js
    ensures Permutation(Kept(cs, ks), Kept(ds, js))
  {
    hide DeletesAs, AddsAs, Filter;
    FilterPermutation(KeptFilter(ks), cs);
    FilterPermutation(KeptFilter(js), ds);
    forall c
      ensures FoldedBy(ks, c) <==> FoldedBy(js, c)
    {
      FoldedByMoves(ks, js, c);
      FoldedByMoves(js, ks, c);
    }
  }

  lemma {:induction false} FoldedByMoves(ks: seq<string>, js: seq<string>, c: Change)
    requires forall k :: k in ks ==> k in js
    ensures FoldedBy(ks, c) ==> FoldedBy(js, c)
  {
    hide DeletesAs, AddsAs;
    if FoldedBy(ks, c) {
      var i :| 0 <= i < |ks| && (DeletesAs(ks[i], c) || AddsAs(ks[i], c));
      assert ks[i] in js;
      var j :| 0 <= j < |js| && js[j] == ks[i];
    }
  }

  ghost function RenameAt(cs: seq<Change>): string -> Change {
    (k: string) => if Folds(cs, k) then RenameFor(cs, k) else MakeChange("", "", Rename, "", "")
  }

  lemma {:induction false} RenamesPermute(cs: seq<Change>, ds: seq<Change>, ks: seq<string>, js: seq<string>)
    requires Permutation(cs, ds) && Permutation(ks, js)
    requires forall i :: 0 <= i < |ks| ==> Folds(cs, ks[i])
    requires forall i :: 0 <= i < |js| ==> Folds(ds, js[i])
    ensures Permutation(RenamesFor(cs, ks), RenamesFor(ds, js))
  {
    hide Folds, RenameFor;
    MapPermutes(RenameAt(cs), ks, js);
    assert RenamesFor(cs, ks) == Map(RenameAt(cs), ks);
    forall i | 0 <= i < |js|
      ensures RenamesFor(ds, js)[i] == RenameAt(cs)(js[i])
    {
      FoldsPermutes(cs, ds, js[i]);
    }
    assert RenamesFor(ds, js) == Map(RenameAt(cs), js);
  }
}
