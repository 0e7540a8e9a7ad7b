/**
 The indentation parser as it runs: nodes whose children are appended in place, and a stack of the
 nodes that can still grow.
 */
module IndentNodes {
  import opened Sequences
  import opened Strings
  import opened SchemaErrors

  class IndentNode {
    const line: string
    const indent: nat
    var children: seq<IndentNode>

    constructor (line: string)
      ensures this.line == line && indent == Indent(line) && children == []
    {
      this.line, indent, children := line, Indent(line), [];
    }
  }

  /** The nodes made so far: whom they point to, and the tree each one stands for. */
  datatype Shape = Shape(kids: map<IndentNode, seq<IndentNode>>, trees: map<IndentNode, Tree>)

  ghost predicate Shaped(s: Shape)
    reads s.kids.Keys
  {
    Consistent(s) && forall n :: n in s.kids ==> n.children == s.kids[n]
  }

  ghost predicate Consistent(s: Shape) {
    && s.trees.Keys == s.kids.Keys
    && (forall n, k :: n in s.kids && 0 <= k < |s.kids[n]| ==> s.kids[n][k] in s.kids)
    && forall n :: n in s.kids ==> Local(s, n)
  }

  /** A node's tree is its line over its children's trees. */
  ghost predicate Local(s: Shape, n: IndentNode) {
    && n in s.kids && n in s.trees && n.indent == Indent(n.line) && s.trees[n].line == n.line
    && |s.trees[n].kids| == |s.kids[n]|
    && forall k :: 0 <= k < |s.kids[n]| ==> s.kids[n][k] in s.trees && s.trees[n].kids[k] == s.trees[s.kids[n][k]]
  }

  ghost function Forest(s: Shape, ns: seq<IndentNode>): (r: seq<Tree>)
    requires forall k :: 0 <= k < |ns| ==> ns[k] in s.trees
    ensures |r| == |ns| && forall k :: 0 <= k < |ns| ==> r[k] == s.trees[ns[k]]
  {
    seq(|ns|, k requires 0 <= k < |ns| => s.trees[ns[k]])
  }

  /** The stack runs down the right edge of the forest, and nothing else points to its nodes. */
  ghost predicate Spine(s: Shape, roots: seq<IndentNode>, stack: seq<IndentNode>) {
    && (forall k :: 0 <= k < |roots| ==> roots[k] in s.kids)
    && (forall t :: 0 <= t < |stack| ==> stack[t] in s.kids)
    && Ascending(stack) && AtEdge(roots, stack) && OnlyParents(s, stack)
    && forall t :: 0 < t < |stack| ==> EndsWith(s, stack[t - 1], stack[t])
  }

  ghost predicate Ascending(stack: seq<IndentNode>) {
    forall i, t :: 0 <= i < t < |stack| ==> stack[i] != stack[t] && stack[i].indent < stack[t].indent
  }

  ghost predicate AtEdge(roots: seq<IndentNode>, stack: seq<IndentNode>) {
    && (stack != [] ==> roots != [] && roots[|roots| - 1] == stack[0])
    && forall k, t :: 0 <= k < |roots| && 0 <= t < |stack| && roots[k] == stack[t] ==> t == 0 && k == |roots| - 1
  }

  ghost predicate OnlyParents(s: Shape, stack: seq<IndentNode>) {
    forall n, k, t :: n in s.kids && 0 <= k < |s.kids[n]| && 0 <= t < |stack| && s.kids[n][k] == stack[t] ==>
      t > 0 && n == stack[t - 1] && k == |s.kids[n]| - 1
  }

  ghost predicate EndsWith(s: Shape, n: IndentNode, child: IndentNode) {
    n in s.kids && s.kids[n] != [] && s.kids[n][|s.kids[n]| - 1] == child
  }

  ghost function Siblings(s: Shape, roots: seq<IndentNode>, stack: seq<IndentNode>): seq<IndentNode>
    requires Spine(s, roots, stack)
  {
    if stack == [] then roots else s.kids[stack[|stack| - 1]]
  }

  ghost predicate LastAtLeast(ns: seq<IndentNode>, d: nat) {
    ns != [] ==> ns[|ns| - 1].indent >= d
  }

  /** A fresh node goes below the stack. */
  ghost predicate Fits(s: Shape, roots: seq<IndentNode>, stack: seq<IndentNode>, x: IndentNode) {
    && Consistent(s) && Spine(s, roots, stack)
    && x !in s.kids && x.indent == Indent(x.line)
    && (forall t :: 0 <= t < |stack| ==> stack[t].indent < x.indent)
    && LastAtLeast(Siblings(s, roots, stack), x.indent)
  }

  /** The shape with `x` appended below the stack: every open node's tree grows at its right edge. */
  ghost function Grow(s: Shape, stack: seq<IndentNode>, x: IndentNode): Shape
    requires forall t :: 0 <= t < |stack| ==> stack[t] in s.kids && stack[t] in s.trees
  {
    var kids := if stack == [] then s.kids else
                  var top := stack[|stack| - 1];
                  s.kids[top := s.kids[top] + [x]];
    Shape(kids[x := []],
          (map n | n in s.trees :: if n in stack then Node(n.line, InsertLast(s.trees[n].kids, x.line)) else s.trees[n])
          [x := Node(x.line, [])])
  }

  lemma {:induction false} InsertHere(f: seq<Tree>, ln: string)
    requires f != [] ==> Indent(f[|f| - 1].line) >= Indent(ln)
    ensures InsertLast(f, ln) == f + [Node(ln, [])]
  {
    hide Indent;
  }

  lemma {:induction false} InsertBelow(f: seq<Tree>, ln: string)
    requires f != [] && Indent(f[|f| - 1].line) < Indent(ln)
    ensures InsertLast(f, ln) == f[..|f| - 1] + [Node(f[|f| - 1].line, InsertLast(f[|f| - 1].kids, ln))]
  {
    hide Indent;
  }

  lemma {:induction false} ParentOnStack(
    s: Shape, roots: seq<IndentNode>, stack: seq<IndentNode>, n: IndentNode, k: nat)
    requires Spine(s, roots, stack) && n in s.kids && k < |s.kids[n]| && s.kids[n][k] in stack
    ensures n in stack
  {
    var t :| 0 <= t < |stack| && stack[t] == s.kids[n][k];
    assert n == stack[t - 1];
  }

  lemma {:induction false} GrowAt(s: Shape, stack: seq<IndentNode>, x: IndentNode, n: IndentNode)
    requires (forall t :: 0 <= t < |stack| ==> stack[t] in s.kids && stack[t] in s.trees) && n != x && n in s.kids
    requires n in s.trees
    ensures var s' := Grow(s, stack, x);
            && n in s'.kids && n in s'.trees
            && s'.kids[n] == (if stack != [] && n == stack[|stack| - 1] then s.kids[n] + [x] else s.kids[n])
            && s'.trees[n] == (if n in stack then Node(n.line, InsertLast(s.trees[n].kids, x.line)) else s.trees[n])
  {
    hide InsertLast;
  }

  lemma GrowNew(s: Shape, stack: seq<IndentNode>, x: IndentNode)
    requires forall t :: 0 <= t < |stack| ==> stack[t] in s.kids && stack[t] in s.trees
    ensures x in Grow(s, stack, x).trees && Grow(s, stack, x).trees[x] == Node(x.line, [])
  {
    hide InsertLast;
  }

  /** A child above the right edge keeps its tree. */
  lemma {:induction false} GrowEarlier(
    s: Shape, roots: seq<IndentNode>, stack: seq<IndentNode>, x: IndentNode, n: IndentNode, k: nat)
    requires Fits(s, roots, stack, x) && n in s.kids && k < |s.kids[n]| && s.kids[n][k] !in stack
    ensures var child := s.kids[n][k];
            child in Grow(s, stack, x).trees && Grow(s, stack, x).trees[child] == s.trees[child]
  {
    hide Grow, InsertLast, Local, Spine;
    StackKnown(s, roots, stack);
    GrowAt(s, stack, x, s.kids[n][k]);
  }

  lemma StackKnown(s: Shape, roots: seq<IndentNode>, stack: seq<IndentNode>)
    requires Consistent(s) && Spine(s, roots, stack)
    ensures forall t :: 0 <= t < |stack| ==> stack[t] in s.kids && stack[t] in s.trees
  {
    hide Local, OnlyParents, AtEdge, Ascending;
  }

  lemma {:induction false} ChildOffStack(s: Shape, roots: seq<IndentNode>, stack: seq<IndentNode>, t: nat, k: nat)
    requires Spine(s, roots, stack) && t < |stack| && k < |s.kids[stack[t]]|
    requires k < |s.kids[stack[t]]| - 1 || (t == |stack| - 1)
    ensures s.kids[stack[t]][k] !in stack
  {
    hide AtEdge, Ascending;
    if s.kids[stack[t]][k] in stack {
      var u :| 0 <= u < |stack| && stack[u] == s.kids[stack[t]][k];
      LastChildOnly(s, roots, stack, t, k, u);
    }
  }

  lemma LastChildOnly(s: Shape, roots: seq<IndentNode>, stack: seq<IndentNode>, t: nat, k: nat, u: nat)
    requires Spine(s, roots, stack) && t < |stack| && u < |stack| && k < |s.kids[stack[t]]|
    requires s.kids[stack[t]][k] == stack[u]
    ensures u == t + 1 && k == |s.kids[stack[t]]| - 1
  {
    assert u > 0 && stack[t] == stack[u - 1];
  }

  /** The innermost open node gains a child. */
  lemma {:induction false} GrowTop(s: Shape, roots: seq<IndentNode>, stack: seq<IndentNode>, x: IndentNode)
    requires Fits(s, roots, stack, x) && stack != []
    ensures Local(Grow(s, stack, x), stack[|stack| - 1])
  {
    hide Indent, InsertLast, Grow, OnlyParents, AtEdge, Ascending;
    var t := |stack| - 1;
    var n := stack[t];
    var kids := s.trees[n].kids;
    assert Local(s, n);
    StackKnown(s, roots, stack);
    GrowAt(s, stack, x, n);
    GrowNew(s, stack, x);
    assert kids != [] ==> Local(s, s.kids[n][|kids| - 1]);
    InsertHere(kids, x.line);
    forall k | 0 <= k < |kids|
      ensures s.kids[n][k] in Grow(s, stack, x).trees && Grow(s, stack, x).trees[s.kids[n][k]] == s.trees[s.kids[n][k]]
    {
      ChildOffStack(s, roots, stack, t, k);
      GrowEarlier(s, roots, stack, x, n, k);
    }
  }

  /** Every other open node's last child is the next open node, which has grown. */
  lemma {:induction false} GrowInner(s: Shape, roots: seq<IndentNode>, stack: seq<IndentNode>, x: IndentNode, t: nat)
    requires Fits(s, roots, stack, x) && t < |stack| - 1
    ensures Local(Grow(s, stack, x), stack[t])
  {
    hide Indent, InsertLast, Grow, OnlyParents, AtEdge;
    var n, next := stack[t], stack[t + 1];
    var kids := s.trees[n].kids;
    assert Local(s, n) && Local(s, next);
    assert EndsWith(s, stack[t + 1 - 1], next);
    StackKnown(s, roots, stack);
    GrowAt(s, stack, x, n);
    GrowAt(s, stack, x, next);
    InsertBelow(kids, x.line);
    forall k | 0 <= k < |kids| - 1
      ensures s.kids[n][k] in Grow(s, stack, x).trees && Grow(s, stack, x).trees[s.kids[n][k]] == s.trees[s.kids[n][k]]
    {
      ChildOffStack(s, roots, stack, t, k);
      GrowEarlier(s, roots, stack, x, n, k);
    }
  }

  lemma {:induction false} GrowClosed(
    s: Shape, roots: seq<IndentNode>, stack: seq<IndentNode>, x: IndentNode, n: IndentNode)
    requires Fits(s, roots, stack, x) && n in s.kids && n !in stack
    ensures Local(Grow(s, stack, x), n)
  {
    hide Indent, InsertLast;
    assert Local(s, n);
    forall k | 0 <= k < |s.kids[n]|
      ensures s.kids[n][k] !in stack && s.kids[n][k] in s.kids
    {
      if s.kids[n][k] in stack { ParentOnStack(s, roots, stack, n, k); }
    }
  }

  ghost function RootsWith(roots: seq<IndentNode>, stack: seq<IndentNode>, x: IndentNode): seq<IndentNode> {
    if stack == [] then roots + [x] else roots
  }

  lemma {:induction false} GrowConsistent(s: Shape, roots: seq<IndentNode>, stack: seq<IndentNode>, x: IndentNode)
    requires Fits(s, roots, stack, x)
    ensures Consistent(Grow(s, stack, x))
  {
    hide Indent, InsertLast, Local;
    var s' := Grow(s, stack, x);
    forall n | n in s'.kids
      ensures Local(s', n)
    {
      if n == x {
        assert Local(s', x) by { NewLocal(s, stack, x); }
      } else if n in stack {
        var t :| 0 <= t < |stack| && stack[t] == n;
        if t == |stack| - 1 { GrowTop(s, roots, stack, x); } else { GrowInner(s, roots, stack, x, t); }
      } else {
        GrowClosed(s, roots, stack, x, n);
      }
    }
  }

  lemma NewLocal(s: Shape, stack: seq<IndentNode>, x: IndentNode)
    requires (forall t :: 0 <= t < |stack| ==> stack[t] in s.kids && stack[t] in s.trees) && x.indent == Indent(x.line)
    ensures Local(Grow(s, stack, x), x)
  {}

  lemma {:induction false} GrowSpine(s: Shape, roots: seq<IndentNode>, stack: seq<IndentNode>, x: IndentNode)
    requires Fits(s, roots, stack, x)
    ensures Spine(Grow(s, stack, x), RootsWith(roots, stack, x), stack + [x])
  {
    hide Indent, InsertLast, Local, OnlyParents, AtEdge;
    GrowParents(s, roots, stack, x);
    GrowEdge(s, roots, stack, x);
  }

  lemma {:induction false} GrowParents(s: Shape, roots: seq<IndentNode>, stack: seq<IndentNode>, x: IndentNode)
    requires Fits(s, roots, stack, x)
    ensures OnlyParents(Grow(s, stack, x), stack + [x])
  {
    hide Indent, InsertLast, Local, AtEdge;
    var s', more := Grow(s, stack, x), stack + [x];
    forall n, k, t | n in s'.kids && 0 <= k < |s'.kids[n]| && 0 <= t < |more| && s'.kids[n][k] == more[t]
      ensures t > 0 && n == more[t - 1] && k == |s'.kids[n]| - 1
    {
      assert n in s.kids;
      if s'.kids[n][k] != x {
        assert k < |s.kids[n]| && s.kids[n][k] == stack[t];
      }
    }
  }

  lemma {:induction false} GrowEdge(s: Shape, roots: seq<IndentNode>, stack: seq<IndentNode>, x: IndentNode)
    requires Fits(s, roots, stack, x)
    ensures AtEdge(RootsWith(roots, stack, x), stack + [x])
  {
    hide Indent, InsertLast, Local, OnlyParents;
  }

  lemma {:induction false} GrowForest(s: Shape, roots: seq<IndentNode>, stack: seq<IndentNode>, x: IndentNode)
    requires Fits(s, roots, stack, x)
    ensures Spine(Grow(s, stack, x), RootsWith(roots, stack, x), stack + [x])
    ensures Grow(s, stack, x).trees.Keys == Grow(s, stack, x).kids.Keys
    ensures Forest(Grow(s, stack, x), RootsWith(roots, stack, x)) == InsertLast(Forest(s, roots), x.line)
  {
    hide Indent, InsertLast, Grow, OnlyParents, Ascending, Local, EndsWith;
    var s', f := Grow(s, stack, x), Forest(s, roots);
    GrowSpine(s, roots, stack, x);
    GrowConsistent(s, roots, stack, x);
    StackKnown(s, roots, stack);
    GrowNew(s, stack, x);
    forall k | 0 <= k < |roots|
      ensures s'.trees[roots[k]]
           == if roots[k] in stack then Node(roots[k].line, InsertLast(s.trees[roots[k]].kids, x.line))
              else s.trees[roots[k]]
      ensures s.trees[roots[k]].line == roots[k].line && roots[k].indent == Indent(roots[k].line)
    {
      GrowAt(s, stack, x, roots[k]);
      LocalLine(s, roots[k]);
    }
    if stack == [] {
      InsertHere(f, x.line);
    } else {
      InsertBelow(f, x.line);
    }
  }

  lemma LocalLine(s: Shape, n: IndentNode)
    requires Local(s, n)
    ensures n in s.trees && s.trees[n].line == n.line && n.indent == Indent(n.line)
  {}

  /** Drops the nodes that the new line cannot belong to. */
  method PopStack(
    ghost s: Shape, ghost roots: seq<IndentNode>, stack: seq<IndentNode>, d: nat)
    returns (r: seq<IndentNode>)
    requires Consistent(s) && Spine(s, roots, stack) && LastAtLeast(Siblings(s, roots, stack), d)
    ensures Spine(s, roots, r) && LastAtLeast(Siblings(s, roots, r), d)
    ensures forall t :: 0 <= t < |r| ==> r[t].indent < d
  {
    hide Local, Consistent;
    r := stack;
    while r != [] && r[|r| - 1].indent >= d
      invariant Spine(s, roots, r) && LastAtLeast(Siblings(s, roots, r), d)
      decreases |r|
    {
      PopSpine(s, roots, r, d);
      r := r[..|r| - 1];
    }
  }

  lemma {:induction false} PopSpine(s: Shape, roots: seq<IndentNode>, stack: seq<IndentNode>, d: nat)
    requires Spine(s, roots, stack) && stack != [] && stack[|stack| - 1].indent >= d
    ensures var r := stack[..|stack| - 1]; Spine(s, roots, r) && LastAtLeast(Siblings(s, roots, r), d)
  {
    var n := |stack|;
    assert n > 1 ==> EndsWith(s, stack[n - 1 - 1], stack[n - 1]);
  }

  /** Appends `x` to the children of the innermost open node, or to the roots. */
  method Attach(ghost s: Shape, roots: seq<IndentNode>, stack: seq<IndentNode>, x: IndentNode)
    returns (ghost s': Shape, roots': seq<IndentNode>)
    requires Shaped(s) && Fits(s, roots, stack, x) && x.children == []
    modifies s.kids.Keys
    ensures Shaped(s') && s'.trees.Keys == s'.kids.Keys == s.kids.Keys + {x} && Spine(s', roots', stack + [x])
    ensures s'.kids[x] == []
    ensures Forest(s', roots') == InsertLast(Forest(s, roots), x.line)
  {
    hide Indent, InsertLast, Local;
    s' := Grow(s, stack, x);
    GrowConsistent(s, roots, stack, x);
    GrowForest(s, roots, stack, x);
    roots' := roots;
    if stack == [] {
      roots' := roots + [x];
    } else {
      var top := stack[|stack| - 1];
      top.children := top.children + [x];
    }
  }

  lemma NothingYet()
    ensures Consistent(Shape(map[], map[])) && Spine(Shape(map[], map[]), [], [])
  {}

  /** Builds the forest line by line, appending in place. */
  method ParseIndentForest(lines: seq<string>) returns (roots: seq<IndentNode>, ghost s: Shape)
    ensures Shaped(s) && fresh(s.kids.Keys) && forall k :: 0 <= k < |roots| ==> roots[k] in s.trees
    ensures Forest(s, roots) == Parse(Content(lines))
  {
    hide Parse, Blank, Indent, InsertLast, Consistent, Ascending, AtEdge, OnlyParents;
    var stack: seq<IndentNode> := [];
    roots, s := [], Shape(map[], map[]);
    ParseNothing();
    NothingYet();
    for i := 0 to |lines|
      invariant Shaped(s) && fresh(s.kids.Keys) && s.trees.Keys == s.kids.Keys && Spine(s, roots, stack)
      invariant stack == [] ==> roots == []
      invariant stack != [] ==> s.kids[stack[|stack| - 1]] == []
      invariant Forest(s, roots) == Parse(Content(lines[..i]))
    {
      var ln := lines[i];
      FilterSnoc(NonBlank(), lines, i);
      if Blank(ln) { continue; }
      var x := new IndentNode(ln);
      stack := PopStack(s, roots, stack, x.indent);
      ParseAppend(Content(lines[..i]), ln);
      s, roots := Attach(s, roots, stack, x);
      stack := stack + [x];
    }
    assert lines[..|lines|] == lines;
  }

  /** Reads a finished node and everything below it. */
  method ReadTree(ghost s: Shape, n: IndentNode) returns (t: Tree)
    requires Shaped(s) && n in s.trees
    ensures t == s.trees[n]
    decreases s.trees[n], 1
  {
    hide Indent;
    assert Local(s, n);
    assert Forest(s, n.children) == s.trees[n].kids;
    var kids := ReadForest(s, n.children);
    t := Node(n.line, kids);
  }

  method ReadForest(ghost s: Shape, ns: seq<IndentNode>) returns (f: seq<Tree>)
    requires Shaped(s) && forall k :: 0 <= k < |ns| ==> ns[k] in s.trees
    ensures f == Forest(s, ns)
    decreases Forest(s, ns), 0
  {
    f := [];
    for i := 0 to |ns|
      invariant f == Forest(s, ns)[..i]
    {
      assert Forest(s, ns)[i] == s.trees[ns[i]];
      var t := ReadTree(s, ns[i]);
      f := f + [t];
    }
  }

  /** The header line, then the sorted forest. */
  method CanonicalizeSchemaError(msg: string) returns (r: string)
    ensures r == Canonical(msg)
  {
    hide Parse, SortForest, Split, Content, RenderKids;
    var lines := Split(msg, '\n');
    if |lines| <= 1 { return msg; }
    var roots, s := ParseIndentForest(lines[1..]);
    var forest := ReadForest(s, roots);
    r := lines[0] + RenderKids(SortForest(forest));
  }
}
