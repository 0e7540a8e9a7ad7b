/**
 The assert tree: all/any/not over predicate leaves, evaluated in three values.  Leaves are
 uninterpreted; a leaf may hold, fail cleanly, or error.
 */
module AssertTree {
  import opened Sequences

  datatype Leaf = Leaf(cel: string, message: string)

  /** A combinator's children; a nil slice is not the same as an empty one. */
  datatype Children = Nil | Children(list: seq<Tree>)

  datatype Negated = NoChild | Negated(tree: Tree)

  /** The decoded tree: nothing stops a hand-built policy from setting several branches or none. */
  datatype Tree = Tree(leaf: Option<Leaf>, all: Children, any: Children, not: Negated)

  datatype Tri = True | False | Unknown

  /** Truth value and the message it is attributed to. */
  datatype Verdict = Verdict(value: Tri, message: string)

  const MAX_ASSERT_DEPTH: nat := 32

  // ----- Strong Kleene logic -----

  /** Conjunction: false dominates unknown. */
  function AllOf(vs: seq<Tri>): Tri {
    if False in vs then False else if Unknown in vs then Unknown else True
  }

  /** Disjunction: true dominates unknown. */
  function AnyOf(vs: seq<Tri>): Tri {
    if True in vs then True else if Unknown in vs then Unknown else False
  }

  function Negate(v: Tri): Tri {
    match v
    case True => False
    case False => True
    case Unknown => Unknown
  }

  /** The meaning of a tree at a depth: malformed and over-deep nodes are unknown. */
  ghost function Meaning(t: Tree, depth: nat, leaf: Leaf -> Tri): Tri
    decreases t
  {
    if depth > MAX_ASSERT_DEPTH then Unknown
    else if t.leaf.Some? then leaf(t.leaf.value)
    else if t.all.Children? then
      if t.all.list == [] then Unknown else AllOf(Meanings(t.all.list, depth + 1, leaf))
    else if t.any.Children? then
      if t.any.list == [] then Unknown else AnyOf(Meanings(t.any.list, depth + 1, leaf))
    else if t.not.Negated? then Negate(Meaning(t.not.tree, depth + 1, leaf))
    else Unknown
  }

  ghost function Meanings(ts: seq<Tree>, depth: nat, leaf: Leaf -> Tri): (vs: seq<Tri>)
    ensures |vs| == |ts|
    ensures forall i :: 0 <= i < |ts| ==> vs[i] == Meaning(ts[i], depth, leaf)
    decreases ts
  {
    seq(|ts|, i requires 0 <= i < |ts| => Meaning(ts[i], depth, leaf))
  }

  // ----- Attribution -----

  /** The first message among the verdicts with value `v`, in declared order. */
  function FirstMessage(v: Tri, rs: seq<Verdict>): string {
    if rs == [] then "" else if rs[0].value == v then rs[0].message else FirstMessage(v, rs[1..])
  }

  function Values(rs: seq<Verdict>): (vs: seq<Tri>)
    ensures |vs| == |rs|
    ensures forall i :: 0 <= i < |rs| ==> vs[i] == rs[i].value
  {
    seq(|rs|, i requires 0 <= i < |rs| => rs[i].value)
  }

  function Conjunction(rs: seq<Verdict>): Verdict {
    var v := AllOf(Values(rs));
    Verdict(v, if v == True then "" else FirstMessage(v, rs))
  }

  function Disjunction(rs: seq<Verdict>): Verdict {
    var v := AnyOf(Values(rs));
    Verdict(v, if v == True then "" else FirstMessage(v, rs))
  }

  /** The verdict with its message; `expand` fills a leaf's message template. */
  ghost function Judge(t: Tree, depth: nat, leaf: Leaf -> Tri, expand: string -> string): Verdict
    decreases t
  {
    if depth > MAX_ASSERT_DEPTH then Verdict(Unknown, "")
    else if t.leaf.Some? then
      var v := leaf(t.leaf.value);
      Verdict(v, if v == True then "" else expand(t.leaf.value.message))
    else if t.all.Children? then
      if t.all.list == [] then Verdict(Unknown, "") else Conjunction(Judges(t.all.list, depth + 1, leaf, expand))
    else if t.any.Children? then
      if t.any.list == [] then Verdict(Unknown, "") else Disjunction(Judges(t.any.list, depth + 1, leaf, expand))
    else if t.not.Negated? then
      var r := Judge(t.not.tree, depth + 1, leaf, expand);
      Verdict(Negate(r.value), if r.value == False then "" else r.message)
    else Verdict(Unknown, "")
  }

  ghost function Judges(ts: seq<Tree>, depth: nat, leaf: Leaf -> Tri, expand: string -> string): (rs: seq<Verdict>)
    ensures |rs| == |ts|
    ensures forall i :: 0 <= i < |ts| ==> rs[i] == Judge(ts[i], depth, leaf, expand)
    decreases ts
  {
    seq(|ts|, i requires 0 <= i < |ts| => Judge(ts[i], depth, leaf, expand))
  }

  /** The message never influences the value: Judge is Meaning with attribution. */
  lemma {:induction false} JudgeMeans(t: Tree, depth: nat, leaf: Leaf -> Tri, expand: string -> string)
    ensures Judge(t, depth, leaf, expand).value == Meaning(t, depth, leaf)
    decreases t
  {
    if depth <= MAX_ASSERT_DEPTH && t.leaf.None? {
      if t.all.Children? {
        JudgesMean(t.all.list, depth + 1, leaf, expand);
      } else if t.any.Children? {
        JudgesMean(t.any.list, depth + 1, leaf, expand);
      } else if t.not.Negated? {
        JudgeMeans(t.not.tree, depth + 1, leaf, expand);
      }
    }
  }

  lemma {:induction false} JudgesMean(ts: seq<Tree>, depth: nat, leaf: Leaf -> Tri, expand: string -> string)
    ensures Values(Judges(ts, depth, leaf, expand)) == Meanings(ts, depth, leaf)
    decreases ts
  {
    forall i | 0 <= i < |ts|
      ensures Judge(ts[i], depth, leaf, expand).value == Meaning(ts[i], depth, leaf)
    {
      JudgeMeans(ts[i], depth, leaf, expand);
    }
  }

  // ----- The walk -----

  lemma {:induction false} FirstMessageSnoc(v: Tri, rs: seq<Verdict>, r: Verdict)
    ensures FirstMessage(v, rs + [r])
         == if v in Values(rs) then FirstMessage(v, rs) else if r.value == v then r.message else ""
  {
    if rs == [] {
      assert rs + [r] == [r];
    } else {
      assert (rs + [r])[1..] == rs[1..] + [r];
      FirstMessageSnoc(v, rs[1..], r);
      assert Values(rs)[0] == rs[0].value && Values(rs)[1..] == Values(rs[1..]);
      assert v in Values(rs) <==> v == rs[0].value || v in Values(rs[1..]);
    }
  }

  lemma ValuesSnoc(rs: seq<Verdict>, r: Verdict)
    ensures Values(rs + [r]) == Values(rs) + [r.value]
  {}

  /** Scans every child; remembers the first false and the first error. */
  method WalkAll(ts: seq<Tree>, depth: nat, leaf: Leaf -> Tri, expand: string -> string) returns (r: Verdict)
    ensures r == Conjunction(Judges(ts, depth, leaf, expand))
    decreases ts, 0
  {
    hide Judge;
    ghost var rs := Judges(ts, depth, leaf, expand);
    var haveFalse, haveErr, falseMsg, errMsg := false, false, "", "";
    for i := 0 to |ts|
      invariant haveFalse <==> False in Values(rs[..i])
      invariant haveErr <==> Unknown in Values(rs[..i])
      invariant falseMsg == FirstMessage(False, rs[..i])
      invariant errMsg == FirstMessage(Unknown, rs[..i])
    {
      var s := Walk(ts[i], depth, leaf, expand);
      assert rs[..i + 1] == rs[..i] + [s];
      ValuesSnoc(rs[..i], s);
      FirstMessageSnoc(False, rs[..i], s);
      FirstMessageSnoc(Unknown, rs[..i], s);
      NoMessage(False, rs[..i]);
      NoMessage(Unknown, rs[..i]);
      match s.value {
        case Unknown => if !haveErr { haveErr, errMsg := true, s.message; }
        case False => if !haveFalse { haveFalse, falseMsg := true, s.message; }
        case True =>
      }
    }
    assert rs[..|ts|] == rs;
    if haveFalse { return Verdict(False, falseMsg); }
    if haveErr { return Verdict(Unknown, errMsg); }
    return Verdict(True, "");
  }

  lemma {:induction false} NoMessage(v: Tri, rs: seq<Verdict>)
    ensures v !in Values(rs) ==> FirstMessage(v, rs) == ""
  {
    if rs != [] {
      assert Values(rs)[0] == rs[0].value && Values(rs)[1..] == Values(rs[1..]);
      NoMessage(v, rs[1..]);
    }
  }

  /** Stops at the first child that holds. */
  method WalkAny(ts: seq<Tree>, depth: nat, leaf: Leaf -> Tri, expand: string -> string) returns (r: Verdict)
    ensures r == Disjunction(Judges(ts, depth, leaf, expand))
    decreases ts, 0
  {
    hide Judge;
    ghost var rs := Judges(ts, depth, leaf, expand);
    var haveFalse, haveErr, falseMsg, errMsg := false, false, "", "";
    for i := 0 to |ts|
      invariant True !in Values(rs[..i])
      invariant haveFalse <==> False in Values(rs[..i])
      invariant haveErr <==> Unknown in Values(rs[..i])
      invariant falseMsg == FirstMessage(False, rs[..i])
      invariant errMsg == FirstMessage(Unknown, rs[..i])
    {
      var s := Walk(ts[i], depth, leaf, expand);
      assert rs[..i + 1] == rs[..i] + [s];
      ValuesSnoc(rs[..i], s);
      FirstMessageSnoc(False, rs[..i], s);
      FirstMessageSnoc(Unknown, rs[..i], s);
      NoMessage(False, rs[..i]);
      NoMessage(Unknown, rs[..i]);
      match s.value {
        case Unknown => if !haveErr { haveErr, errMsg := true, s.message; }
        case True =>
          assert Values(rs)[i] == True;
          return Verdict(True, "");
        case False => if !haveFalse { haveFalse, falseMsg := true, s.message; }
      }
    }
    assert rs[..|ts|] == rs;
    if haveErr { return Verdict(Unknown, errMsg); }
    return Verdict(False, falseMsg);
  }

  /** The evaluator: a depth ceiling, then the first branch that is set. */
  method Walk(t: Tree, depth: nat, leaf: Leaf -> Tri, expand: string -> string) returns (r: Verdict)
    ensures r == Judge(t, depth, leaf, expand)
    decreases t, 1
  {
    if depth > MAX_ASSERT_DEPTH { return Verdict(Unknown, ""); }
    if t.leaf.Some? {
      var v := leaf(t.leaf.value);
      return Verdict(v, if v == True then "" else expand(t.leaf.value.message));
    }
    if t.all.Children? {
      if t.all.list == [] { return Verdict(Unknown, ""); }
      r := WalkAll(t.all.list, depth + 1, leaf, expand);
    } else if t.any.Children? {
      if t.any.list == [] { return Verdict(Unknown, ""); }
      r := WalkAny(t.any.list, depth + 1, leaf, expand);
    } else if t.not.Negated? {
      var s := Walk(t.not.tree, depth + 1, leaf, expand);
      match s.value {
        case Unknown => r := s;
        case True => r := Verdict(False, s.message);
        case False => r := Verdict(True, "");
      }
    } else {
      r := Verdict(Unknown, "");
    }
  }

  // ----- Laws -----

  /** `fine` answers wherever `coarse` does, and the same. */
  ghost predicate Refines(coarse: Leaf -> Tri, fine: Leaf -> Tri) {
    forall l: Leaf :: coarse(l) != Unknown ==> fine(l) == coarse(l)
  }

  /** A clean verdict survives any resolution of the erroring leaves. */
  lemma {:induction false} CleanIsStable(t: Tree, depth: nat, coarse: Leaf -> Tri, fine: Leaf -> Tri)
    requires Refines(coarse, fine)
    requires Meaning(t, depth, coarse) != Unknown
    ensures Meaning(t, depth, fine) == Meaning(t, depth, coarse)
    decreases t
  {
    if t.leaf.Some? {
    } else if t.all.Children? {
      StableAll(t.all.list, depth + 1, coarse, fine);
    } else if t.any.Children? {
      StableAll(t.any.list, depth + 1, coarse, fine);
    } else if t.not.Negated? {
      CleanIsStable(t.not.tree, depth + 1, coarse, fine);
    }
  }

  lemma {:induction false} StableAll(ts: seq<Tree>, depth: nat, coarse: Leaf -> Tri, fine: Leaf -> Tri)
    requires Refines(coarse, fine)
    ensures var cs, fs := Meanings(ts, depth, coarse), Meanings(ts, depth, fine);
            && (AllOf(cs) != Unknown ==> AllOf(fs) == AllOf(cs))
            && (AnyOf(cs) != Unknown ==> AnyOf(fs) == AnyOf(cs))
    decreases ts
  {
    hide Meaning;
    var cs, fs := Meanings(ts, depth, coarse), Meanings(ts, depth, fine);
    forall i | 0 <= i < |ts| && cs[i] != Unknown
      ensures fs[i] == cs[i]
    {
      CleanIsStable(ts[i], depth, coarse, fine);
    }
    AgreeWhereKnown(cs, fs);
  }

  lemma {:induction false} AgreeWhereKnown(cs: seq<Tri>, fs: seq<Tri>)
    requires |cs| == |fs|
    requires forall i :: 0 <= i < |cs| && cs[i] != Unknown ==> fs[i] == cs[i]
    ensures AllOf(cs) != Unknown ==> AllOf(fs) == AllOf(cs)
    ensures AnyOf(cs) != Unknown ==> AnyOf(fs) == AnyOf(cs)
  {
    if False in cs {
      var i :| 0 <= i < |cs| && cs[i] == False;
      assert fs[i] == False;
    }
    if True in cs {
      var i :| 0 <= i < |cs| && cs[i] == True;
      assert fs[i] == True;
    }
    if Unknown !in cs {
      assert cs == fs;
    }
  }

  /** `p` and `q` send the positions of two lists of length `n` to each other and undo one another. */
  ghost predicate IsBijection(p: seq<nat>, q: seq<nat>, n: nat) {
    && |p| == |q| == n
    && (forall i :: 0 <= i < n ==> p[i] < n && q[p[i]] == i)
    && (forall k :: 0 <= k < n ==> q[k] < n && p[q[k]] == k)
  }

  /** The same tree up to the order of children, at every depth. */
  ghost predicate Shuffled(a: Tree, b: Tree)
    decreases a
  {
    && a.leaf == b.leaf
    && (a.all.Children? <==> b.all.Children?) && (a.any.Children? <==> b.any.Children?)
    && (a.not.Negated? <==> b.not.Negated?)
    && (a.all.Children? ==> ShuffledList(a.all.list, b.all.list))
    && (a.any.Children? ==> ShuffledList(a.any.list, b.any.list))
    && (a.not.Negated? ==> Shuffled(a.not.tree, b.not.tree))
  }

  ghost predicate ShuffledList(ts: seq<Tree>, us: seq<Tree>)
    decreases ts
  {
    && |ts| == |us|
    && exists p: seq<nat>, q: seq<nat> :: IsBijection(p, q, |ts|) && ShuffledBy(ts, us, p)
  }

  ghost predicate ShuffledBy(ts: seq<Tree>, us: seq<Tree>, p: seq<nat>)
    requires |ts| == |us| == |p| && forall i :: 0 <= i < |p| ==> p[i] < |us|
    decreases ts, 0
  {
    forall i :: 0 <= i < |ts| ==> Shuffled(ts[i], us[p[i]])
  }

  /** Reordering children anywhere in the tree keeps the truth value. */
  lemma {:induction false} ShuffleKeepsMeaning(a: Tree, b: Tree, depth: nat, leaf: Leaf -> Tri)
    requires Shuffled(a, b)
    ensures Meaning(a, depth, leaf) == Meaning(b, depth, leaf)
    decreases a
  {
    if depth <= MAX_ASSERT_DEPTH && a.leaf.None? {
      if a.all.Children? {
        ShuffleKeepsMembers(a.all.list, b.all.list, depth + 1, leaf);
      } else if a.any.Children? {
        ShuffleKeepsMembers(a.any.list, b.any.list, depth + 1, leaf);
      } else if a.not.Negated? {
        ShuffleKeepsMeaning(a.not.tree, b.not.tree, depth + 1, leaf);
      }
    }
  }

  lemma {:induction false} ShuffleKeepsMembers(ts: seq<Tree>, us: seq<Tree>, depth: nat, leaf: Leaf -> Tri)
    requires ShuffledList(ts, us)
    ensures forall v :: v in Meanings(ts, depth, leaf) <==> v in Meanings(us, depth, leaf)
    decreases ts
  {
    hide Meaning, Shuffled;
    var p: seq<nat>, q: seq<nat> :| IsBijection(p, q, |ts|) && ShuffledBy(ts, us, p);
    var vs, ws := Meanings(ts, depth, leaf), Meanings(us, depth, leaf);
    forall i | 0 <= i < |ts|
      ensures vs[i] == ws[p[i]]
    {
      ShuffleKeepsMeaning(ts[i], us[p[i]], depth, leaf);
    }
    forall k | 0 <= k < |us|
      ensures ws[k] in vs
    {
      assert vs[q[k]] == ws[k];
    }
  }

  function NotOf(t: Tree): Tree { Tree(None, Nil, Nil, Negated(t)) }
  function AllTree(ts: seq<Tree>): Tree { Tree(None, Children(ts), Nil, NoChild) }
  function AnyTree(ts: seq<Tree>): Tree { Tree(None, Nil, Children(ts), NoChild) }

  /** De Morgan holds exactly, at every depth, malformed and over-deep children included. */
  lemma {:induction false} DeMorgan(ts: seq<Tree>, depth: nat, leaf: Leaf -> Tri)
    ensures Meaning(NotOf(AllTree(ts)), depth, leaf)
         == Meaning(AnyTree(seq(|ts|, i requires 0 <= i < |ts| => NotOf(ts[i]))), depth, leaf)
  {
    var ns := seq(|ts|, i requires 0 <= i < |ts| => NotOf(ts[i]));
    if ts != [] && depth < MAX_ASSERT_DEPTH {
      var vs, ws := Meanings(ts, depth + 2, leaf), Meanings(ns, depth + 1, leaf);
      forall i | 0 <= i < |ts|
        ensures ws[i] == Negate(vs[i])
      {
        NotMeans(ts[i], depth + 1, leaf);
      }
      NegateAll(vs, ws);
    } else if ts != [] && depth == MAX_ASSERT_DEPTH {
      var ws := Meanings(ns, depth + 1, leaf);
      assert ws[0] == Unknown;
      assert forall i :: 0 <= i < |ws| ==> ws[i] == Unknown;
    }
  }

  lemma NotMeans(t: Tree, depth: nat, leaf: Leaf -> Tri)
    requires depth <= MAX_ASSERT_DEPTH
    ensures Meaning(NotOf(t), depth, leaf) == Negate(Meaning(t, depth + 1, leaf))
  {}

  lemma {:induction false} NegateAll(vs: seq<Tri>, ws: seq<Tri>)
    requires |vs| == |ws| && forall i :: 0 <= i < |vs| ==> ws[i] == Negate(vs[i])
    ensures AnyOf(ws) == Negate(AllOf(vs))
  {
    if False in vs {
      var i :| 0 <= i < |vs| && vs[i] == False;
      assert ws[i] == True;
    }
    if Unknown in vs {
      var i :| 0 <= i < |vs| && vs[i] == Unknown;
      assert ws[i] == Unknown;
    }
  }

  // ----- What each node means -----

  /** A tree that the walk evaluates: within the ceiling, with a leaf or children to look at. */
  ghost predicate Evaluable(t: Tree, depth: nat) {
    && depth <= 32
    && if t.leaf.Some? then true
       else if t.all.Children? then t.all.list != []
       else if t.any.Children? then t.any.list != []
       else t.not.Negated?
  }

  /** Malformed and over-deep nodes are unknown; a leaf is what it evaluates to; not exchanges true and false. */
  lemma NodeMeans(t: Tree, depth: nat, leaf: Leaf -> Tri)
    ensures !Evaluable(t, depth) ==> Meaning(t, depth, leaf) == Unknown
    ensures Evaluable(t, depth) && t.leaf.Some? ==> Meaning(t, depth, leaf) == leaf(t.leaf.value)
    ensures Evaluable(t, depth) && t.leaf.None? && t.all.Nil? && t.any.Nil? ==>
      && (Meaning(t, depth, leaf) == True <==> Meaning(t.not.tree, depth + 1, leaf) == False)
      && (Meaning(t, depth, leaf) == False <==> Meaning(t.not.tree, depth + 1, leaf) == True)
  {}

  /** A conjunction holds exactly when all children do, and fails exactly when some child fails, errors or not. */
  lemma {:induction false} AllMeans(t: Tree, depth: nat, leaf: Leaf -> Tri)
    requires Evaluable(t, depth) && t.leaf.None? && t.all.Children?
    ensures Meaning(t, depth, leaf) == True <==> forall u :: u in t.all.list ==> Meaning(u, depth + 1, leaf) == True
    ensures Meaning(t, depth, leaf) == False <==> exists u :: u in t.all.list && Meaning(u, depth + 1, leaf) == False
  {
    hide Meaning;
    var ts := t.all.list;
    MeaningAll(t, depth, leaf);
    MeaningsMembers(ts, depth + 1, leaf);
  }

  /** A disjunction holds exactly when some child does, errors or not, and fails exactly when all children fail. */
  lemma {:induction false} AnyMeans(t: Tree, depth: nat, leaf: Leaf -> Tri)
    requires Evaluable(t, depth) && t.leaf.None? && t.all.Nil? && t.any.Children?
    ensures Meaning(t, depth, leaf) == True <==> exists u :: u in t.any.list && Meaning(u, depth + 1, leaf) == True
    ensures Meaning(t, depth, leaf) == False <==> forall u :: u in t.any.list ==> Meaning(u, depth + 1, leaf) == False
  {
    hide Meaning;
    var ts := t.any.list;
    MeaningAny(t, depth, leaf);
    MeaningsMembers(ts, depth + 1, leaf);
  }

  lemma MeaningAll(t: Tree, depth: nat, leaf: Leaf -> Tri)
    requires Evaluable(t, depth) && t.leaf.None? && t.all.Children?
    ensures Meaning(t, depth, leaf) == AllOf(Meanings(t.all.list, depth + 1, leaf))
  {}

  lemma MeaningAny(t: Tree, depth: nat, leaf: Leaf -> Tri)
    requires Evaluable(t, depth) && t.leaf.None? && t.all.Nil? && t.any.Children?
    ensures Meaning(t, depth, leaf) == AnyOf(Meanings(t.any.list, depth + 1, leaf))
  {}

  lemma {:induction false} MeaningsMembers(ts: seq<Tree>, depth: nat, leaf: Leaf -> Tri)
    ensures forall v :: v in Meanings(ts, depth, leaf) <==> exists u :: u in ts && Meaning(u, depth, leaf) == v
    ensures ts == [] <==> Meanings(ts, depth, leaf) == []
  {
    hide Meaning;
    var vs := Meanings(ts, depth, leaf);
    forall u | u in ts
      ensures Meaning(u, depth, leaf) in vs
    {
      var i :| 0 <= i < |ts| && ts[i] == u;
      assert vs[i] in vs;
    }
    forall v | v in vs
      ensures exists u :: u in ts && Meaning(u, depth, leaf) == v
    {
      var i :| 0 <= i < |vs| && vs[i] == v;
      assert ts[i] in ts;
    }
  }

  // ----- Which child is to blame -----

  /** `m` is the message of the first of `rs` with value `v`. */
  ghost predicate FirstBlamed(rs: seq<Verdict>, v: Tri, m: string) {
    exists i :: 0 <= i < |rs| && rs[i] == Verdict(v, m) && forall j :: 0 <= j < i ==> rs[j].value != v
  }

  lemma {:induction false} FirstMessageIs(v: Tri, rs: seq<Verdict>)
    requires exists i :: 0 <= i < |rs| && rs[i].value == v
    ensures FirstBlamed(rs, v, FirstMessage(v, rs))
  {
    if rs[0].value == v {
      assert rs[0] == Verdict(v, FirstMessage(v, rs));
    } else {
      var i :| 0 <= i < |rs| && rs[i].value == v;
      assert rs[1..][i - 1] == rs[i];
      FirstMessageIs(v, rs[1..]);
      var k :| && 0 <= k < |rs[1..]| && rs[1..][k] == Verdict(v, FirstMessage(v, rs[1..]))
               && forall j :: 0 <= j < k ==> rs[1..][j].value != v;
      assert rs[k + 1] == Verdict(v, FirstMessage(v, rs));
      forall j | 0 <= j < k + 1
        ensures rs[j].value != v
      {
        if j > 0 { assert rs[j] == rs[1..][j - 1]; }
      }
    }
  }

  /** A combinator that does not hold takes the message of the first child whose value is its own. */
  lemma {:induction false} Blame(t: Tree, depth: nat, leaf: Leaf -> Tri, expand: string -> string)
    requires Evaluable(t, depth) && t.leaf.None? && (t.all.Children? || t.any.Children?)
    ensures var r := Judge(t, depth, leaf, expand);
            var ts := if t.all.Children? then t.all.list else t.any.list;
            if r.value == True then r.message == ""
            else FirstBlamed(Judges(ts, depth + 1, leaf, expand), r.value, r.message)
  {
    hide FirstMessage, FirstBlamed, Judges;
    var ts := if t.all.Children? then t.all.list else t.any.list;
    var rs := Judges(ts, depth + 1, leaf, expand);
    var v := Judge(t, depth, leaf, expand).value;
    if v != True {
      assert v in Values(rs) by { ValueComesFrom(rs, v, t.all.Children?); }
      var i :| 0 <= i < |rs| && Values(rs)[i] == v;
      assert rs[i].value == v;
      FirstMessageIs(v, rs);
    }
  }

  lemma {:induction false} ValueComesFrom(rs: seq<Verdict>, v: Tri, all: bool)
    requires rs != [] && v != True && v == if all then AllOf(Values(rs)) else AnyOf(Values(rs))
    ensures v in Values(rs)
  {
    var vs := Values(rs);
    assert vs[0] in vs;
  }

  /** A leaf that does not hold takes its own message; not takes its child's. */
  lemma LeafAndNotBlame(t: Tree, depth: nat, leaf: Leaf -> Tri, expand: string -> string)
    requires Evaluable(t, depth)
    ensures t.leaf.Some? ==>
      Judge(t, depth, leaf, expand).message == if leaf(t.leaf.value) == True then "" else expand(t.leaf.value.message)
    ensures t.leaf.None? && t.all.Nil? && t.any.Nil? ==>
      var child := Judge(t.not.tree, depth + 1, leaf, expand);
      Judge(t, depth, leaf, expand).message == if child.value == False then "" else child.message
  {}
}
