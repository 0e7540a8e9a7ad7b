/**
 The schema-error canonicaliser: the forest its lines form, the recursive sibling sort and the
 printer, and why reading and printing undo each other.
 */
module SchemaErrors {
  import opened Sequences
  import opened Strings

  /** One line and the more-indented lines below it. */
  datatype Tree = Node(line: string, kids: seq<Tree>)

  /** Unicode white space, as the program's trimming understands it. */
  predicate IsSpace(c: char) {
    var n := c as int;
    || 9 <= n <= 13 || n == 32 || n == 0x85 || n == 0xA0 || n == 0x1680 || 0x2000 <= n <= 0x200A
    || n == 0x2028 || n == 0x2029 || n == 0x202F || n == 0x205F || n == 0x3000
  }

  predicate Blank(ln: string) {
    forall i :: 0 <= i < |ln| ==> IsSpace(ln[i])
  }

  /** The characters a blank line may consist of. */
  lemma SpacesAre(c: char)
    ensures IsSpace(c) <==>
            c as int in {9, 10, 11, 12, 13, 32, 0x85, 0xA0, 0x1680, 0x2000, 0x2001, 0x2002, 0x2003, 0x2004, 0x2005,
                         0x2006, 0x2007, 0x2008, 0x2009, 0x200A, 0x2028, 0x2029, 0x202F, 0x205F, 0x3000}
  {}

  /** Leading spaces; tabs do not count. */
  function Indent(ln: string): nat {
    if ln != [] && ln[0] == ' ' then 1 + Indent(ln[1..]) else 0
  }

  // ----- Parsing -----

  /** How many lines at the front are indented deeper than `d`. */
  function Span(lines: seq<string>, d: nat): (n: nat)
    ensures n <= |lines|
  {
    if lines == [] || Indent(lines[0]) <= d then 0 else 1 + Span(lines[1..], d)
  }

  /** A line owns the deeper lines that follow it. */
  function Parse(lines: seq<string>): seq<Tree>
    decreases |lines|
  {
    if lines == [] then [] else
    var n := Span(lines[1..], Indent(lines[0]));
    [Node(lines[0], Parse(lines[1..n + 1]))] + Parse(lines[n + 1..])
  }

  /** Adds a line at the end: below the last line that is less indented. */
  function InsertLast(f: seq<Tree>, ln: string): seq<Tree>
    decreases f
  {
    if f == [] || Indent(f[|f| - 1].line) >= Indent(ln) then f + [Node(ln, [])]
    else f[..|f| - 1] + [Node(f[|f| - 1].line, InsertLast(f[|f| - 1].kids, ln))]
  }

  lemma {:induction false} SpanAppend(lines: seq<string>, ln: string, d: nat)
    ensures Span(lines + [ln], d)
         == if Span(lines, d) < |lines| then Span(lines, d) else if Indent(ln) > d then |lines| + 1 else |lines|
  {
    if lines == [] {
      assert [ln][1..] == [] && lines + [ln] == [ln];
    } else {
      assert (lines + [ln])[1..] == lines[1..] + [ln];
      SpanAppend(lines[1..], ln, d);
    }
  }

  lemma {:induction false} ParseUnfold(lines: seq<string>, n: nat)
    requires lines != [] && n == Span(lines[1..], Indent(lines[0]))
    ensures n + 1 <= |lines|
    ensures Parse(lines) == [Node(lines[0], Parse(lines[1..n + 1]))] + Parse(lines[n + 1..])
  {
    hide Indent, Span;
  }

  lemma ParseNonEmpty(lines: seq<string>)
    requires lines != []
    ensures Parse(lines) != []
  {}

  /** One more line: the parse grows at its right edge. */
  lemma {:induction false} ParseAppend(lines: seq<string>, ln: string)
    ensures Parse(lines + [ln]) == InsertLast(Parse(lines), ln)
    decreases |lines|
  {
    hide Parse, Indent;
    var more := lines + [ln];
    if lines == [] {
      ParseNothing();
      ParseOne(ln);
      assert more == [ln];
    } else {
      var d := Indent(lines[0]);
      var n := Span(lines[1..], d);
      assert more[1..] == lines[1..] + [ln];
      SpanAppend(lines[1..], ln, d);
      ParseUnfold(lines, n);
      ParseUnfold(more, Span(more[1..], d));
      var body, rest := lines[1..n + 1], lines[n + 1..];
      if rest != [] {
        assert more[1..n + 1] == body && more[n + 1..] == rest + [ln];
        ParseAppend(rest, ln);
        ParseNonEmpty(rest);
        InsertAtRight([Node(lines[0], Parse(body))], Parse(rest), ln);
      } else {
        assert Parse(rest) == [] by { ParseNothing(); }
        var root := Node(lines[0], Parse(body));
        assert [root] + Parse(rest) == [root];
        if Indent(ln) > d {
          assert more[1..n + 2] == body + [ln] && more[n + 2..] == [];
          ParseAppend(body, ln);
          ParseNothing();
        } else {
          assert more[1..n + 1] == body && more[n + 1..] == [ln];
          ParseOne(ln);
        }
      }
    }
  }

  lemma ParseNothing()
    ensures Parse([]) == []
  {}

  lemma {:induction false} ParseOne(ln: string)
    ensures Parse([ln]) == [Node(ln, [])] && [] + [ln] == [ln]
  {
    assert [ln][1..] == [];
  }

  lemma {:induction false} InsertAtRight(f: seq<Tree>, g: seq<Tree>, ln: string)
    requires g != []
    ensures InsertLast(f + g, ln) == f + InsertLast(g, ln)
  {
    assert (f + g)[|f + g| - 1] == g[|g| - 1];
    assert (f + g)[..|f + g| - 1] == f + g[..|g| - 1];
  }

  function NonBlank(): string -> bool { (ln: string) => !Blank(ln) }

  function Content(lines: seq<string>): seq<string> { Filter(NonBlank(), lines) }

  // ----- Printing and sorting -----

  function Render(t: Tree): string
    decreases t
  {
    t.line + RenderKids(t.kids)
  }

  function RenderKids(kids: seq<Tree>): string
    decreases kids
  {
    if kids == [] then "" else ['\n'] + Render(kids[0]) + RenderKids(kids[1..])
  }

  predicate RenderLeq(a: Tree, b: Tree) {
    Leq(Render(a), Render(b))
  }

  function SortTree(t: Tree): Tree
    decreases t
  {
    Node(t.line, SortForest(t.kids))
  }

  /** Children first, then siblings by their rendered text. */
  function SortForest(f: seq<Tree>): seq<Tree>
    decreases f
  {
    SortBy(RenderLeq, SortEach(f))
  }

  function SortEach(f: seq<Tree>): (r: seq<Tree>)
    ensures |r| == |f|
    decreases f, 0
  {
    if f == [] then [] else [SortTree(f[0])] + SortEach(f[1..])
  }

  lemma {:induction false} SortEachAt(f: seq<Tree>, i: nat)
    requires i < |f|
    ensures SortEach(f)[i] == SortTree(f[i])
  {
    if i > 0 {
      SortEachAt(f[1..], i - 1);
    }
  }

  lemma {:induction false} RenderLeqPreorder()
    ensures TotalPreorder(RenderLeq)
  {
    hide Leq, Render;
    forall a, b
      ensures RenderLeq(a, b) || RenderLeq(b, a)
    {
      LeqCompare(Render(a), Render(b));
    }
    forall a, b, c | RenderLeq(a, b) && RenderLeq(b, c)
      ensures RenderLeq(a, c)
    {
      LeqTransitive(Render(a), Render(b), Render(c));
    }
  }

  /** The canonical text: the header line, then the sorted forest. */
  function Canonical(msg: string): string {
    var lines := Split(msg, '\n');
    if |lines| <= 1 then msg else lines[0] + RenderKids(SortForest(Parse(Content(lines[1..]))))
  }

  // ----- The lines of a forest -----

  ghost function Lines(f: seq<Tree>): seq<string>
    decreases f
  {
    if f == [] then [] else [f[0].line] + Lines(f[0].kids) + Lines(f[1..])
  }

  /** Parsing loses no line and keeps their order. */
  lemma {:induction false} LinesOfParse(lines: seq<string>)
    ensures Lines(Parse(lines)) == lines
    decreases |lines|
  {
    hide Parse, Indent;
    if lines == [] {
      ParseNothing();
    } else {
      var n := Span(lines[1..], Indent(lines[0]));
      ParseUnfold(lines, n);
      LinesOfParse(lines[1..n + 1]);
      LinesOfParse(lines[n + 1..]);
      var root := Node(lines[0], Parse(lines[1..n + 1]));
      assert ([root] + Parse(lines[n + 1..]))[1..] == Parse(lines[n + 1..]);
      assert lines == [lines[0]] + lines[1..n + 1] + lines[n + 1..];
    }
  }

  // ----- Forests whose text parses back -----

  /** Children are deeper than their parent, and later siblings are never deeper than earlier ones. */
  ghost predicate WellIndented(f: seq<Tree>)
    decreases f
  {
    && (forall i, j :: 0 <= i < j < |f| ==> Indent(f[i].line) >= Indent(f[j].line))
    && (forall i :: 0 <= i < |f| ==> Below(f[i].kids, Indent(f[i].line)) && WellIndented(f[i].kids))
  }

  ghost predicate Below(f: seq<Tree>, d: nat) {
    forall i :: 0 <= i < |f| ==> Indent(f[i].line) > d
  }

  lemma {:induction false} WellIndentedParts(f: seq<Tree>)
    requires WellIndented(f) && f != []
    ensures WellIndented(f[1..]) && WellIndented(f[0].kids) && Below(f[0].kids, Indent(f[0].line))
    ensures |f| > 1 ==> Indent(f[1].line) <= Indent(f[0].line)
  {
    hide Indent;
  }

  /** Children are deeper than their parent, at every level; siblings may come in any order. */
  ghost predicate Nested(f: seq<Tree>)
    decreases f
  {
    forall i :: 0 <= i < |f| ==> Below(f[i].kids, Indent(f[i].line)) && Nested(f[i].kids)
  }

  lemma NestedParts(f: seq<Tree>)
    requires Nested(f) && f != []
    ensures Nested(f[1..]) && Nested(f[0].kids) && Below(f[0].kids, Indent(f[0].line))
  {
    hide Indent;
  }

  lemma {:induction false} WellIndentedNested(f: seq<Tree>)
    requires WellIndented(f)
    ensures Nested(f)
    decreases f
  {
    hide Indent;
    forall i | 0 <= i < |f|
      ensures Nested(f[i].kids)
    {
      WellIndentedNested(f[i].kids);
    }
  }

  lemma {:induction false} LinesBelow(f: seq<Tree>, d: nat)
    requires Nested(f) && Below(f, d)
    ensures forall i :: 0 <= i < |Lines(f)| ==> Indent(Lines(f)[i]) > d
    decreases f
  {
    hide Indent;
    if f != [] {
      NestedParts(f);
      LinesBelow(f[0].kids, d);
      LinesBelow(f[1..], d);
    }
  }

  lemma {:induction false} SpanIs(a: seq<string>, b: seq<string>, d: nat)
    requires forall i :: 0 <= i < |a| ==> Indent(a[i]) > d
    requires b != [] ==> Indent(b[0]) <= d
    ensures Span(a + b, d) == |a|
  {
    hide Indent;
    if a == [] {
      assert a + b == b;
    } else {
      assert (a + b)[1..] == a[1..] + b;
      SpanIs(a[1..], b, d);
    }
  }

  lemma {:induction false} LinesStep(f: seq<Tree>)
    ensures Lines(f) == if f == [] then [] else [f[0].line] + Lines(f[0].kids) + Lines(f[1..])
  {}

  lemma {:induction false} LinesUnfold(f: seq<Tree>)
    requires f != []
    ensures Lines(f) == [f[0].line] + Lines(f[0].kids) + Lines(f[1..])
    ensures Lines(f)[1..] == Lines(f[0].kids) + Lines(f[1..])
    ensures Lines(f[1..]) != [] ==> |f| > 1 && Lines(f[1..])[0] == f[1].line
  {
    hide Lines;
    LinesStep(f);
    var rest := f[1..];
    LinesStep(rest);
    var inner, below := Lines(f[0].kids), Lines(rest);
    assert ([f[0].line] + inner + below)[1..] == inner + below;
  }

  /** Reading a well-indented forest's lines back gives the forest. */
  lemma {:induction false} ParseLines(f: seq<Tree>)
    requires WellIndented(f)
    ensures Parse(Lines(f)) == f
    decreases f
  {
    if f == [] {
      ParseNothing();
    } else {
      WellIndentedParts(f);
      ParseLines(f[0].kids);
      ParseLines(f[1..]);
      ParseLinesStep(f);
    }
  }

  lemma {:induction false} ParseLinesStep(f: seq<Tree>)
    requires WellIndented(f) && f != [] && Parse(Lines(f[0].kids)) == f[0].kids && Parse(Lines(f[1..])) == f[1..]
    ensures Parse(Lines(f)) == f
  {
    hide Parse, Indent, WellIndented, Nested, Lines, Span;
    WellIndentedParts(f);
    WellIndentedNested(f[0].kids);
    var d, inner, rest := Indent(f[0].line), Lines(f[0].kids), Lines(f[1..]);
    LinesBelow(f[0].kids, d);
    LinesUnfold(f);
    var all := Lines(f);
    SpanIs(inner, rest, d);
    ParseUnfold(all, |inner|);
    assert all[1..|inner| + 1] == inner && all[|inner| + 1..] == rest;
    assert f == [f[0]] + f[1..];
  }

  lemma {:induction false} SpanBelow(lines: seq<string>, d: nat)
    ensures forall i :: 0 <= i < Span(lines, d) ==> Indent(lines[i]) > d
    ensures Span(lines, d) < |lines| ==> Indent(lines[Span(lines, d)]) <= d
  {
    hide Indent;
    if lines != [] && Indent(lines[0]) > d {
      SpanBelow(lines[1..], d);
    }
  }

  lemma {:induction false} ParseRoots(lines: seq<string>, d: nat)
    requires forall i :: 0 <= i < |lines| ==> Indent(lines[i]) > d
    ensures Below(Parse(lines), d)
    decreases |lines|
  {
    hide Parse, Indent;
    if lines == [] {
      ParseNothing();
    } else {
      var n := Span(lines[1..], Indent(lines[0]));
      ParseUnfold(lines, n);
      ParseRoots(lines[n + 1..], d);
    }
  }

  /** Everything the parser builds is well indented. */
  lemma {:induction false} ParseWellIndented(lines: seq<string>)
    ensures WellIndented(Parse(lines))
    ensures forall i :: 0 <= i < |Parse(lines)| ==> lines != [] && Indent(Parse(lines)[i].line) <= Indent(lines[0])
    decreases |lines|
  {
    hide Parse, Indent;
    if lines == [] {
      ParseNothing();
    } else {
      var d := Indent(lines[0]);
      var n := Span(lines[1..], d);
      ParseUnfold(lines, n);
      SpanBelow(lines[1..], d);
      var inner := lines[1..n + 1];
      forall i | 0 <= i < |inner|
        ensures Indent(inner[i]) > d
      {
        assert inner[i] == lines[1..][i];
      }
      ParseWellIndented(lines[1..n + 1]);
      ParseWellIndented(lines[n + 1..]);
      ParseRoots(lines[1..n + 1], d);
      assert n + 1 < |lines| ==> lines[1..][n] == lines[n + 1..][0];
    }
  }

  // ----- When sorting keeps forests well indented -----

  /** The first character that is not a space sorts after the space. */
  ghost predicate AboveSpace(ln: string) {
    Indent(ln) < |ln| && ln[Indent(ln)] > ' '
  }

  /** Among siblings of different indentation the shallower one's first character sorts after the space. */
  ghost predicate SortsBack(f: seq<Tree>)
    decreases f
  {
    && (forall i, j :: 0 <= i < |f| && 0 <= j < |f| && Indent(f[i].line) > Indent(f[j].line) ==> AboveSpace(f[j].line))
    && forall i :: 0 <= i < |f| ==> SortsBack(f[i].kids)
  }

  /** Every line holds more than spaces. */
  ghost predicate Solid(f: seq<Tree>)
    decreases f
  {
    forall i :: 0 <= i < |f| ==> Indent(f[i].line) < |f[i].line| && Solid(f[i].kids)
  }

  lemma {:induction false} IndentSpaces(ln: string)
    ensures Indent(ln) <= |ln| && forall i :: 0 <= i < Indent(ln) ==> ln[i] == ' '
    ensures Indent(ln) < |ln| ==> ln[Indent(ln)] != ' '
  {
    if ln != [] && ln[0] == ' ' {
      IndentSpaces(ln[1..]);
      assert forall i :: 1 <= i < Indent(ln) ==> ln[i] == ln[1..][i - 1];
    }
  }

  /** The first difference decides. */
  lemma {:induction false} LessAt(a: string, b: string, i: nat)
    requires i < |a| && i < |b| && a[..i] == b[..i] && a[i] < b[i]
    ensures Less(a, b)
  {
    if i > 0 {
      assert a[0] == a[..i][0] && b[0] == b[..i][0];
      assert a[1..][..i - 1] == a[..i][1..] && b[1..][..i - 1] == b[..i][1..];
      LessAt(a[1..], b[1..], i - 1);
    }
  }

  lemma RenderStarts(t: Tree)
    ensures |t.line| <= |Render(t)| && Render(t)[..|t.line|] == t.line
  {}

  /** Of two lines of different indentation, the shallower one's first character decides the rendered order. */
  lemma {:induction false} IndentDecides(a: Tree, b: Tree)
    requires Indent(b.line) < Indent(a.line) && Indent(b.line) < |b.line|
    ensures AboveSpace(b.line) ==> Less(Render(a), Render(b))
    ensures !AboveSpace(b.line) ==> Less(Render(b), Render(a))
  {
    hide Indent, Render, Less;
    var i := Indent(b.line);
    IndentSpaces(a.line);
    IndentSpaces(b.line);
    RenderStarts(a);
    RenderStarts(b);
    var x, y := Render(a), Render(b);
    assert x[i] == x[..|a.line|][i] == a.line[i] == ' ' && y[i] == y[..|b.line|][i] == b.line[i];
    assert x[..i] == y[..i] by {
      forall j | 0 <= j < i
        ensures x[j] == y[j]
      {
        assert x[j] == x[..|a.line|][j] && y[j] == y[..|b.line|][j];
      }
    }
    if y[i] > ' ' { LessAt(x, y, i); } else { LessAt(y, x, i); }
  }

  lemma {:induction false} SortFacts(f: seq<Tree>)
    ensures multiset(SortForest(f)) == multiset(SortEach(f)) && Sorted(RenderLeq, SortForest(f))
    ensures |SortForest(f)| == |f|
    ensures forall t :: t in SortForest(f) <==> exists i :: 0 <= i < |f| && t == SortTree(f[i])
  {
    hide SortTree, RenderLeq;
    RenderLeqPreorder();
    SortBySorted(RenderLeq, SortEach(f));
    PermutationMembers(SortForest(f), SortEach(f));
    forall t
      ensures t in SortEach(f) <==> exists i :: 0 <= i < |f| && t == SortTree(f[i])
    {
      if t in SortEach(f) {
        var i :| 0 <= i < |f| && SortEach(f)[i] == t;
        SortEachAt(f, i);
      }
      if exists i :: 0 <= i < |f| && t == SortTree(f[i]) {
        var i :| 0 <= i < |f| && t == SortTree(f[i]);
        SortEachAt(f, i);
        assert SortEach(f)[i] in SortEach(f);
      }
    }
  }

  lemma SortTreeLine(t: Tree)
    ensures SortTree(t).line == t.line && SortTree(t).kids == SortForest(t.kids)
  {}

  lemma {:induction false} SortBelow(f: seq<Tree>, d: nat)
    requires Below(f, d)
    ensures Below(SortForest(f), d)
  {
    hide Indent, SortForest, SortTree;
    SortFacts(f);
    forall i | 0 <= i < |SortForest(f)|
      ensures Indent(SortForest(f)[i].line) > d
    {
      assert SortForest(f)[i] in SortForest(f);
      var k :| 0 <= k < |f| && SortForest(f)[i] == SortTree(f[k]);
      SortTreeLine(f[k]);
    }
  }

  lemma {:induction false} SortNested(f: seq<Tree>)
    requires Nested(f)
    ensures Nested(SortForest(f))
    decreases f
  {
    hide Indent, SortForest, SortTree, Below;
    var s := SortForest(f);
    SortFacts(f);
    forall i | 0 <= i < |s|
      ensures Below(s[i].kids, Indent(s[i].line)) && Nested(s[i].kids)
    {
      assert s[i] in s;
      var k :| 0 <= k < |f| && s[i] == SortTree(f[k]);
      SortTreeLine(f[k]);
      SortNested(f[k].kids);
      SortBelow(f[k].kids, Indent(f[k].line));
    }
  }

  /** Siblings come out deepest first, so the sorted forest can be read back. */
  lemma {:induction false} SortsBackKeeps(f: seq<Tree>)
    requires Nested(f) && Solid(f) && SortsBack(f)
    ensures WellIndented(SortForest(f))
    decreases f
  {
    hide Indent, SortForest, SortTree, RenderLeq, AboveSpace, Below;
    var s := SortForest(f);
    SortFacts(f);
    forall i | 0 <= i < |s|
      ensures WellIndented(s[i].kids) && Below(s[i].kids, Indent(s[i].line))
    {
      assert s[i] in s;
      var k :| 0 <= k < |f| && s[i] == SortTree(f[k]);
      SortTreeLine(f[k]);
      SortsBackKeeps(f[k].kids);
      SortBelow(f[k].kids, Indent(f[k].line));
    }
    forall i, j | 0 <= i < j < |s|
      ensures Indent(s[i].line) >= Indent(s[j].line)
    {
      assert s[i] in s && s[j] in s;
      var k :| 0 <= k < |f| && s[i] == SortTree(f[k]);
      var l :| 0 <= l < |f| && s[j] == SortTree(f[l]);
      SortTreeLine(f[k]);
      SortTreeLine(f[l]);
      InOrderDeepFirst(s[i], s[j]);
    }
  }

  lemma {:induction false} InOrderDeepFirst(x: Tree, y: Tree)
    requires RenderLeq(x, y) && Indent(x.line) < |x.line|
    ensures Indent(x.line) >= Indent(y.line) || !AboveSpace(x.line)
  {
    hide Indent, Render, Less, AboveSpace;
    if Indent(x.line) < Indent(y.line) { IndentDecides(y, x); }
  }

  lemma {:induction false} InOrderLowFirst(x: Tree, y: Tree)
    requires RenderLeq(x, y) && Indent(y.line) < |y.line|
    ensures Indent(y.line) >= Indent(x.line) || AboveSpace(y.line)
  {
    hide Indent, Render, Less, AboveSpace;
    if Indent(y.line) < Indent(x.line) { IndentDecides(x, y); }
  }

  /** Where a shallower sibling's first character sorts low, the sorted forest cannot be read back. */
  lemma {:induction false} SortsBackNeeded(f: seq<Tree>)
    requires Solid(f) && WellIndented(SortForest(f))
    ensures SortsBack(f)
    decreases f
  {
    hide Indent, SortForest, SortTree, RenderLeq, AboveSpace;
    var s := SortForest(f);
    SortFacts(f);
    forall i | 0 <= i < |f|
      ensures SortsBack(f[i].kids)
    {
      assert SortTree(f[i]) in s;
      var p :| 0 <= p < |s| && s[p] == SortTree(f[i]);
      SortTreeLine(f[i]);
      SortsBackNeeded(f[i].kids);
    }
    forall i, j | 0 <= i < |f| && 0 <= j < |f| && Indent(f[i].line) > Indent(f[j].line)
      ensures AboveSpace(f[j].line)
    {
      assert SortTree(f[i]) in s && SortTree(f[j]) in s;
      var p :| 0 <= p < |s| && s[p] == SortTree(f[i]);
      var q :| 0 <= q < |s| && s[q] == SortTree(f[j]);
      SortTreeLine(f[i]);
      SortTreeLine(f[j]);
      if p < q { InOrderLowFirst(s[p], s[q]); }
    }
  }

  lemma {:induction false} SolidLine(ln: string)
    requires !Blank(ln)
    ensures Indent(ln) < |ln|
  {
    IndentSpaces(ln);
  }

  lemma {:induction false} ParseSolid(lines: seq<string>)
    requires forall i :: 0 <= i < |lines| ==> Indent(lines[i]) < |lines[i]|
    ensures Solid(Parse(lines))
    decreases |lines|
  {
    hide Parse, Indent;
    if lines == [] {
      ParseNothing();
    } else {
      var n := Span(lines[1..], Indent(lines[0]));
      ParseUnfold(lines, n);
      ParseSolid(lines[1..n + 1]);
      ParseSolid(lines[n + 1..]);
    }
  }

  /** Reading the canonical lines gives back the sorted forest exactly when the forest sorts back. */
  lemma {:induction false} ReparsesExactlyWhen(lines: seq<string>)
    requires forall i :: 0 <= i < |lines| ==> Indent(lines[i]) < |lines[i]|
    ensures Parse(Lines(SortForest(Parse(lines)))) == SortForest(Parse(lines)) <==> SortsBack(Parse(lines))
  {
    hide Parse, SortForest, WellIndented, SortsBack, Nested, Solid, Lines, Indent;
    var f, s := Parse(lines), SortForest(Parse(lines));
    ParseWellIndented(lines);
    WellIndentedNested(f);
    ParseSolid(lines);
    if SortsBack(f) {
      SortsBackKeeps(f);
      ParseLines(s);
    }
    if Parse(Lines(s)) == s {
      ParseWellIndented(Lines(s));
      SortsBackNeeded(f);
    }
  }

  lemma {:induction false} ParseAbove(lines: seq<string>)
    requires forall i :: 0 <= i < |lines| ==> AboveSpace(lines[i])
    ensures SortsBack(Parse(lines))
    ensures forall i :: 0 <= i < |Parse(lines)| ==> AboveSpace(Parse(lines)[i].line)
    decreases |lines|
  {
    hide Parse, Indent, AboveSpace;
    if lines == [] {
      ParseNothing();
    } else {
      var n := Span(lines[1..], Indent(lines[0]));
      ParseUnfold(lines, n);
      ParseAbove(lines[1..n + 1]);
      ParseAbove(lines[n + 1..]);
    }
  }

  /** In particular when every line's first character sorts after the space. */
  lemma {:induction false} ReparseSorted(lines: seq<string>)
    requires forall i :: 0 <= i < |lines| ==> AboveSpace(lines[i])
    ensures Parse(Lines(SortForest(Parse(lines)))) == SortForest(Parse(lines))
  {
    hide Parse, SortForest, SortsBack, Lines, Indent;
    ParseAbove(lines);
    ReparsesExactlyWhen(lines);
  }

  // ----- When the canonical text is a fixed point -----

  /** Every list of siblings is in rendered order. */
  ghost predicate Ordered(f: seq<Tree>)
    decreases f
  {
    && (forall i, j :: 0 <= i < j < |f| ==> Leq(Render(f[i]), Render(f[j])))
    && forall i :: 0 <= i < |f| ==> Ordered(f[i].kids)
  }

  /** How many lines lie below each line, summed up. */
  ghost function Weight(f: seq<Tree>): nat
    decreases f
  {
    if f == [] then 0 else |Lines(f[0].kids)| + Weight(f[0].kids) + Weight(f[1..])
  }

  /** How many deeper lines follow each line, summed up. */
  ghost function Reach(lines: seq<string>): nat {
    if lines == [] then 0 else Span(lines[1..], Indent(lines[0])) + Reach(lines[1..])
  }

  lemma {:induction false} SpanConcat(a: seq<string>, b: seq<string>, d: nat)
    ensures Span(a, d) <= Span(a + b, d)
    ensures b != [] && Indent(b[0]) <= d ==> Span(a + b, d) == Span(a, d)
  {
    hide Indent;
    if a == [] {
      assert a + b == b;
    } else {
      assert (a + b)[1..] == a[1..] + b;
      SpanConcat(a[1..], b, d);
    }
  }

  lemma {:induction false} SpanCovers(a: seq<string>, b: seq<string>, d: nat)
    requires forall i :: 0 <= i < |a| ==> Indent(a[i]) > d
    ensures Span(a + b, d) >= |a|
  {
    hide Indent;
    if a != [] {
      assert (a + b)[1..] == a[1..] + b;
      SpanCovers(a[1..], b, d);
    }
  }

  lemma {:induction false} ReachConcat(a: seq<string>, b: seq<string>)
    ensures Reach(a) + Reach(b) <= Reach(a + b)
    ensures (b != [] ==> forall i :: 0 <= i < |a| ==> Indent(a[i]) >= Indent(b[0])) ==>
            Reach(a + b) == Reach(a) + Reach(b)
  {
    hide Indent, Span;
    if a == [] {
      assert a + b == b;
    } else {
      assert (a + b)[1..] == a[1..] + b;
      ReachConcat(a[1..], b);
      SpanConcat(a[1..], b, Indent(a[0]));
      if b == [] { assert a[1..] + b == a[1..]; }
    }
  }

  lemma {:induction false} ReachCons(ln: string, rest: seq<string>)
    ensures Reach([ln] + rest) == Span(rest, Indent(ln)) + Reach(rest)
  {
    assert ([ln] + rest)[1..] == rest;
  }

  lemma WeightStep(f: seq<Tree>)
    requires f != []
    ensures Weight(f) == |Lines(f[0].kids)| + Weight(f[0].kids) + Weight(f[1..])
  {
    hide Lines;
  }

  /** Lines below a node follow it: no forest outweighs its text, and one that weighs as much is how the text reads. */
  lemma {:induction false} WeightBound(h: seq<Tree>)
    requires Nested(h)
    ensures Weight(h) <= Reach(Lines(h))
    ensures Weight(h) == Reach(Lines(h)) ==> Parse(Lines(h)) == h
    decreases h
  {
    if h == [] {
      ParseNothing();
    } else {
      NestedParts(h);
      WeightBound(h[0].kids);
      WeightBound(h[1..]);
      WeightBoundStep(h);
    }
  }

  lemma {:induction false} WeightBoundStep(h: seq<Tree>)
    requires Nested(h) && h != []
    requires Weight(h[0].kids) <= Reach(Lines(h[0].kids)) && Weight(h[1..]) <= Reach(Lines(h[1..]))
    requires Weight(h[0].kids) == Reach(Lines(h[0].kids)) ==> Parse(Lines(h[0].kids)) == h[0].kids
    requires Weight(h[1..]) == Reach(Lines(h[1..])) ==> Parse(Lines(h[1..])) == h[1..]
    ensures Weight(h) <= Reach(Lines(h))
    ensures Weight(h) == Reach(Lines(h)) ==> Parse(Lines(h)) == h
  {
    hide Indent, Parse, Nested, Lines, Weight, Reach, Span;
    var d, inner, rest := Indent(h[0].line), Lines(h[0].kids), Lines(h[1..]);
    NestedParts(h);
    LinesBelow(h[0].kids, d);
    LinesUnfold(h);
    WeightStep(h);
    SpanCovers(inner, rest, d);
    ReachConcat(inner, rest);
    var all := Lines(h);
    assert all == [h[0].line] + (inner + rest);
    ReachCons(h[0].line, inner + rest);
    if Weight(h) == Reach(all) {
      ParseUnfold(all, |inner|);
      assert all[1..|inner| + 1] == inner && all[|inner| + 1..] == rest;
      assert h == [h[0]] + h[1..];
    }
  }

  lemma {:induction false} WeightExact(g: seq<Tree>)
    requires WellIndented(g)
    ensures Weight(g) == Reach(Lines(g))
    decreases g
  {
    if g != [] {
      WellIndentedParts(g);
      WeightExact(g[0].kids);
      WeightExact(g[1..]);
      WeightExactStep(g);
    }
  }

  lemma {:induction false} WeightExactStep(g: seq<Tree>)
    requires WellIndented(g) && g != []
    requires Weight(g[0].kids) == Reach(Lines(g[0].kids)) && Weight(g[1..]) == Reach(Lines(g[1..]))
    ensures Weight(g) == Reach(Lines(g))
  {
    hide Indent, WellIndented, Nested, Lines, Weight, Reach, Span;
    var d, inner, rest := Indent(g[0].line), Lines(g[0].kids), Lines(g[1..]);
    WellIndentedParts(g);
    WellIndentedNested(g[0].kids);
    LinesBelow(g[0].kids, d);
    LinesUnfold(g);
    WeightStep(g);
    SpanIs(inner, rest, d);
    ReachConcat(inner, rest);
    assert Lines(g) == [g[0].line] + (inner + rest);
    ReachCons(g[0].line, inner + rest);
  }

  // ----- Permutation of lines -----

  lemma {:induction false} LinesPermute(f: seq<Tree>, g: seq<Tree>)
    requires Permutation(f, g)
    ensures multiset(Lines(f)) == multiset(Lines(g))
  {
    LinesGather(f);
    LinesGather(g);
    GatherPermutation(TreeLines(), f, g);
  }

  ghost function TreeLines(): Tree -> multiset<string> {
    (t: Tree) => multiset{t.line} + multiset(Lines(t.kids))
  }

  lemma {:induction false} LinesGather(f: seq<Tree>)
    ensures multiset(Lines(f)) == Gather(TreeLines(), f)
    decreases |f|
  {
    if f != [] {
      LinesGather(f[1..]);
    }
  }

  lemma {:induction false} SortKeepsLines(f: seq<Tree>)
    ensures multiset(Lines(SortForest(f))) == multiset(Lines(f))
    decreases f
  {
    hide SortForest, SortTree;
    SortFacts(f);
    LinesPermute(SortForest(f), SortEach(f));
    SortEachKeepsLines(f);
  }

  lemma {:induction false} SortEachKeepsLines(f: seq<Tree>)
    ensures multiset(Lines(SortEach(f))) == multiset(Lines(f))
    decreases f, 0
  {
    hide SortForest;
    if f != [] {
      SortKeepsLines(f[0].kids);
      SortEachKeepsLines(f[1..]);
      assert SortEach(f)[1..] == SortEach(f[1..]);
    }
  }

  ghost function TreeWeight(): Tree -> int {
    (t: Tree) => |Lines(t.kids)| + Weight(t.kids)
  }

  lemma {:induction false} WeightSums(f: seq<Tree>)
    ensures Weight(f) == Sum(TreeWeight(), f)
    decreases |f|
  {
    hide Lines;
    if f != [] {
      WeightSums(f[1..]);
    }
  }

  lemma {:induction false} SortKeepsWeight(f: seq<Tree>)
    ensures Weight(SortForest(f)) == Weight(f)
    decreases f
  {
    hide SortForest, SortTree, Weight, Sum;
    SortFacts(f);
    WeightSums(SortForest(f));
    WeightSums(SortEach(f));
    SumPermutation(TreeWeight(), SortForest(f), SortEach(f));
    SortEachKeepsWeight(f);
  }

  lemma {:induction false} SortEachKeepsWeight(f: seq<Tree>)
    ensures Weight(SortEach(f)) == Weight(f)
    decreases f, 0
  {
    hide SortForest, Lines;
    if f != [] {
      SortKeepsWeight(f[0].kids);
      SortKeepsLines(f[0].kids);
      assert |multiset(Lines(SortForest(f[0].kids)))| == |multiset(Lines(f[0].kids))|;
      SortEachKeepsWeight(f[1..]);
      assert SortEach(f)[1..] == SortEach(f[1..]);
    }
  }

  /** If sorting leaves the text of a well-indented forest alone, it leaves the forest alone. */
  lemma {:induction false} SameTextSameForest(g: seq<Tree>)
    requires WellIndented(g) && Lines(SortForest(g)) == Lines(g)
    ensures SortForest(g) == g
  {
    hide Parse, SortForest, WellIndented, Nested, Lines, Weight, Reach;
    WellIndentedNested(g);
    SortNested(g);
    SortKeepsWeight(g);
    WeightExact(g);
    WeightBound(SortForest(g));
    ParseLines(g);
  }

  // ----- Rendering is joining the lines -----

  /** Each line on its own line, after a newline. */
  ghost function Stacked(ls: seq<string>): string {
    if ls == [] then "" else ['\n'] + ls[0] + Stacked(ls[1..])
  }

  lemma {:induction false} StackedConcat(a: seq<string>, b: seq<string>)
    ensures Stacked(a + b) == Stacked(a) + Stacked(b)
  {
    if a == [] {
      assert a + b == b;
    } else {
      assert (a + b)[1..] == a[1..] + b;
      StackedConcat(a[1..], b);
    }
  }

  lemma {:induction false} RenderIsStacked(f: seq<Tree>)
    ensures RenderKids(f) == Stacked(Lines(f))
    decreases f
  {
    if f != [] {
      RenderIsStacked(f[0].kids);
      RenderIsStacked(f[1..]);
      StackedConcat([f[0].line] + Lines(f[0].kids), Lines(f[1..]));
      StackedConcat([f[0].line], Lines(f[0].kids));
      assert Stacked([f[0].line]) == ['\n'] + f[0].line by { assert [f[0].line][1..] == []; }
    }
  }

  lemma {:induction false} StackedJoins(h: string, ls: seq<string>)
    ensures h + Stacked(ls) == Join([h] + ls, '\n')
    decreases |ls|
  {
    if ls == [] {
      assert [h] + ls == [h];
    } else {
      StackedJoins(ls[0], ls[1..]);
      assert [ls[0]] + ls[1..] == ls;
      assert ([h] + ls)[1..] == ls;
    }
  }

  // ----- The canonical text -----

  /** The lines below the header that are not blank. */
  function Body(msg: string): seq<string> {
    Content(Split(msg, '\n')[1..])
  }

  /** The canonical text, split again: the header and the sorted forest's lines. */
  lemma {:induction false} CanonicalLines(msg: string)
    requires |Split(msg, '\n')| > 1
    ensures Split(Canonical(msg), '\n') == [Split(msg, '\n')[0]] + Lines(SortForest(Parse(Body(msg))))
  {
    hide Parse, SortForest, Split, Blank;
    var lines := Split(msg, '\n');
    var f := SortForest(Parse(Body(msg)));
    SplitParts(msg, '\n');
    RenderIsStacked(f);
    StackedJoins(lines[0], Lines(f));
    SortKeepsLines(Parse(Body(msg)));
    LinesOfParse(Body(msg));
    PermutationMembers(Lines(f), Body(msg));
    FilterMembers(NonBlank(), lines[1..]);
    forall i | 0 <= i < |[lines[0]] + Lines(f)|
      ensures '\n' !in ([lines[0]] + Lines(f))[i]
    {
      if i > 0 {
        assert Lines(f)[i - 1] in Body(msg);
        assert Lines(f)[i - 1] in lines[1..];
      }
    }
    SplitJoin([lines[0]] + Lines(f), '\n');
  }

  /** Same header, and below it exactly the non-blank lines, reordered. */
  lemma {:induction false} CanonicalPermutesLines(msg: string)
    requires |Split(msg, '\n')| > 1
    ensures var before, after := Split(msg, '\n'), Split(Canonical(msg), '\n');
            after[0] == before[0] && Permutation(after[1..], Content(before[1..]))
  {
    hide Parse, SortForest, Split, Content, Canonical;
    CanonicalLines(msg);
    SortKeepsLines(Parse(Body(msg)));
    LinesOfParse(Body(msg));
    assert ([Split(msg, '\n')[0]] + Lines(SortForest(Parse(Body(msg)))))[1..] == Lines(SortForest(Parse(Body(msg))));
  }

  lemma {:induction false} FilterAll(keep: string -> bool, s: seq<string>)
    requires forall i :: 0 <= i < |s| ==> keep(s[i])
    ensures Filter(keep, s) == s
  {
    if s != [] {
      FilterAll(keep, s[1..]);
    }
  }

  /** Sorting a forest that is already sorted, level by level, changes nothing. */
  lemma {:induction false} SortTwice(f: seq<Tree>)
    ensures SortForest(SortForest(f)) == SortForest(f)
    decreases f
  {
    hide SortTree, RenderLeq;
    var s := SortForest(f);
    SortFacts(f);
    forall i | 0 <= i < |s|
      ensures SortTree(s[i]) == s[i]
    {
      assert s[i] in s;
      var k :| 0 <= k < |f| && s[i] == SortTree(f[k]);
      SortTreeTwice(f[k]);
    }
    SortEachSame(s);
    SortSorted(RenderLeq, s);
  }

  lemma {:induction false} SortTreeTwice(t: Tree)
    ensures SortTree(SortTree(t)) == SortTree(t)
    decreases t
  {
    hide SortForest;
    SortTwice(t.kids);
  }

  lemma {:induction false} SortEachSame(s: seq<Tree>)
    requires forall i :: 0 <= i < |s| ==> SortTree(s[i]) == s[i]
    ensures SortEach(s) == s
  {
    hide SortTree;
    if s != [] {
      SortEachSame(s[1..]);
    }
  }

  lemma {:induction false} SortSorted<T>(le: (T, T) -> bool, s: seq<T>)
    requires Sorted(le, s)
    ensures SortBy(le, s) == s
  {
    if s != [] {
      SortSorted(le, s[1..]);
    }
  }

  lemma {:induction false} SortFixedExactlyWhen(g: seq<Tree>)
    ensures SortForest(g) == g <==> Ordered(g)
    decreases g
  {
    if Ordered(g) { OrderedIsFixed(g); }
    if SortForest(g) == g { FixedIsOrdered(g); }
  }

  lemma {:induction false} OrderedIsFixed(g: seq<Tree>)
    requires Ordered(g)
    ensures SortForest(g) == g
    decreases g
  {
    hide RenderLeq;
    forall i | 0 <= i < |g|
      ensures SortTree(g[i]) == g[i]
    {
      OrderedIsFixed(g[i].kids);
    }
    SortEachSame(g);
    SiblingOrder(g);
    SortSorted(RenderLeq, g);
  }

  lemma SiblingOrder(f: seq<Tree>)
    ensures Sorted(RenderLeq, f) <==> forall i, j :: 0 <= i < j < |f| ==> Leq(Render(f[i]), Render(f[j]))
  {}

  lemma {:induction false} FixedIsOrdered(g: seq<Tree>)
    requires SortForest(g) == g
    ensures Ordered(g)
    decreases g
  {
    hide RenderLeq, SortForest, SortTree;
    SortFacts(g);
    SiblingOrder(g);
    forall i | 0 <= i < |g|
      ensures Ordered(g[i].kids)
    {
      assert g[i] in SortForest(g);
      var k :| 0 <= k < |g| && g[i] == SortTree(g[k]);
      SortTreeLine(g[k]);
      SortTwice(g[k].kids);
      FixedIsOrdered(g[i].kids);
    }
  }

  lemma {:induction false} BodySolid(msg: string)
    ensures forall i :: 0 <= i < |Body(msg)| ==> !Blank(Body(msg)[i]) && Indent(Body(msg)[i]) < |Body(msg)[i]|
  {
    hide Split, Blank, Indent, Filter;
    FilterMembers(NonBlank(), Split(msg, '\n')[1..]);
    forall i | 0 <= i < |Body(msg)|
      ensures !Blank(Body(msg)[i]) && Indent(Body(msg)[i]) < |Body(msg)[i]|
    {
      assert Body(msg)[i] in Body(msg);
      SolidLine(Body(msg)[i]);
    }
  }

  /** What is read below the header of the canonical text: the sorted forest's lines. */
  lemma {:induction false} CanonicalBody(msg: string)
    requires |Split(msg, '\n')| > 1
    ensures Body(Canonical(msg)) == Lines(SortForest(Parse(Body(msg))))
  {
    hide Parse, SortForest, Split, Lines, RenderKids, Blank, Canonical;
    var ls := Lines(SortForest(Parse(Body(msg))));
    CanonicalLines(msg);
    SortKeepsLines(Parse(Body(msg)));
    LinesOfParse(Body(msg));
    PermutationMembers(ls, Body(msg));
    BodySolid(msg);
    forall i | 0 <= i < |ls|
      ensures NonBlank()(ls[i])
    {
      assert ls[i] in Body(msg);
    }
    FilterAll(NonBlank(), ls);
    assert Split(Canonical(msg), '\n')[1..] == ls;
  }

  /**
   Parser and printer undo each other, exactly when among siblings of different indentation the
   shallower one starts above the space: reading the canonical text gives the same sorted forest.
   */
  lemma {:induction false} CanonicalRoundTrip(msg: string)
    requires |Split(msg, '\n')| > 1
    ensures Parse(Body(Canonical(msg))) == SortForest(Parse(Body(msg))) <==> SortsBack(Parse(Body(msg)))
  {
    hide Parse, SortForest, Split, Lines, Canonical, Body, SortsBack, Blank, Indent;
    CanonicalBody(msg);
    BodySolid(msg);
    ReparsesExactlyWhen(Body(msg));
  }

  lemma {:induction false} FilterKeepsAll(keep: string -> bool, s: seq<string>)
    requires |Filter(keep, s)| == |s|
    ensures Filter(keep, s) == s && forall i :: 0 <= i < |s| ==> keep(s[i])
  {
    if s != [] {
      FilterMembers(keep, s[1..]);
      FilterKeepsAll(keep, s[1..]);
    }
  }

  /** A message is its own canonical text exactly when it has no blank line below the header and reads in order. */
  lemma {:induction false} FixedExactlyWhen(msg: string)
    requires |Split(msg, '\n')| > 1
    ensures Canonical(msg) == msg <==>
            (forall i :: 1 <= i < |Split(msg, '\n')| ==> !Blank(Split(msg, '\n')[i])) && Ordered(Parse(Body(msg)))
  {
    hide Parse, SortForest, Split, Lines, Canonical, Blank, Ordered, Filter;
    var lines, g := Split(msg, '\n'), Parse(Body(msg));
    var below := lines[1..];
    assert lines == [lines[0]] + below;
    CanonicalLines(msg);
    JoinSplit(msg, '\n');
    JoinSplit(Canonical(msg), '\n');
    SortFixedExactlyWhen(g);
    LinesOfParse(Body(msg));
    ParseWellIndented(Body(msg));
    if Canonical(msg) == msg {
      assert below == Lines(SortForest(g));
      SortKeepsLines(g);
      PermutationMembers(Lines(SortForest(g)), Body(msg));
      FilterKeepsAll(NonBlank(), below);
      SameTextSameForest(g);
      forall i | 1 <= i < |lines|
        ensures !Blank(lines[i])
      {
        assert lines[i] == below[i - 1] && NonBlank()(below[i - 1]);
      }
    }
    if (forall i :: 1 <= i < |lines| ==> !Blank(lines[i])) && Ordered(g) {
      forall i | 0 <= i < |below|
        ensures NonBlank()(below[i])
      {
        assert below[i] == lines[i + 1];
      }
      FilterAll(NonBlank(), below);
    }
  }

  lemma {:induction false} SortedReadsInOrder(f: seq<Tree>)
    requires Parse(Lines(SortForest(f))) == SortForest(f)
    ensures Ordered(Parse(Lines(SortForest(f))))
  {
    hide Parse, Lines, SortForest, Ordered;
    SortTwice(f);
    SortFixedExactlyWhen(SortForest(f));
  }

  /**
   Canonicalising twice is canonicalising once exactly when the canonical text reads in order; that
   is so whenever the round trip holds.
   */
  lemma {:induction false} CanonicalIdempotent(msg: string)
    ensures Canonical(Canonical(msg)) == Canonical(msg) <==> Ordered(Parse(Body(Canonical(msg))))
    ensures |Split(msg, '\n')| > 1 && SortsBack(Parse(Body(msg))) ==> Canonical(Canonical(msg)) == Canonical(msg)
  {
    hide Parse, SortForest, Split, Lines, Canonical, Blank, Ordered, Filter, SortsBack, Indent;
    var once := Canonical(msg);
    if |Split(once, '\n')| == 1 {
      OneLine(once);
    } else {
      SeveralLines(msg);
      CanonicalBody(msg);
      BodySolid(once);
      CanonicalNoBlank(msg);
      FixedExactlyWhen(once);
    }
    if |Split(msg, '\n')| > 1 && SortsBack(Parse(Body(msg))) {
      CanonicalRoundTrip(msg);
      CanonicalBody(msg);
      SortedReadsInOrder(Parse(Body(msg)));
    }
  }

  /** A message of one line is left alone, and nothing is read below its header. */
  lemma {:induction false} OneLine(msg: string)
    requires |Split(msg, '\n')| == 1
    ensures Canonical(msg) == msg && Ordered(Parse(Body(msg)))
  {
    hide SortForest;
    assert Split(msg, '\n')[1..] == [];
    ParseNothing();
  }

  lemma {:induction false} SeveralLines(msg: string)
    requires |Split(Canonical(msg), '\n')| > 1
    ensures |Split(msg, '\n')| > 1
  {
    hide Parse, SortForest, Split, RenderKids;
  }

  /** No line of the canonical text below the header is blank. */
  lemma {:induction false} CanonicalNoBlank(msg: string)
    requires |Split(msg, '\n')| > 1
    ensures forall i :: 1 <= i < |Split(Canonical(msg), '\n')| ==> !Blank(Split(Canonical(msg), '\n')[i])
  {
    hide Parse, SortForest, Split, Lines, Canonical, Blank, Filter;
    var after := Split(Canonical(msg), '\n');
    var ls := Lines(SortForest(Parse(Body(msg))));
    CanonicalLines(msg);
    CanonicalBody(msg);
    BodySolid(Canonical(msg));
    forall i | 1 <= i < |after|
      ensures !Blank(after[i])
    {
      assert after[i] == ls[i - 1];
    }
  }

  /**
   Without the condition the round trip fails: a tab sorts before the space, so the tab line moves
   ahead of its deeper sibling, and the second reading makes that sibling its child.
   */
  lemma {:induction false} TabBreaksReparse()
    ensures Parse(["  x", " \ty"]) == [Node("  x", []), Node(" \ty", [])]
    ensures SortForest(Parse(["  x", " \ty"])) == [Node(" \ty", []), Node("  x", [])]
    ensures Parse(Lines(SortForest(Parse(["  x", " \ty"])))) == [Node(" \ty", [Node("  x", [])])]
  {
    hide Parse, Render, Lines, RenderLeq, SortForest;
    var x, y := Node("  x", []), Node(" \ty", []);
    assert x.line[1..] == " x" && " x"[1..] == "x" && y.line[1..] == "\ty";
    assert Indent(x.line) == 2 && Indent(y.line) == 1;
    ParsePair([x.line, y.line]);
    ParsePair([y.line, x.line]);
    TextOrder(x, y, 1);
    SortLeaf(x);
    SortLeaf(y);
    SortPair(x, y);
    LinesPair(y, x);
    LinesStep([]);
    assert Lines([y, x]) == [y.line, x.line];
  }

  /** Three lines that canonicalising orders one way the first time and another way the second. */
  lemma {:induction false} SecondPassForest()
    ensures Parse(["  \tx", " \ta", "   k"]) == [Node("  \tx", []), Node(" \ta", [Node("   k", [])])]
    ensures SortForest(Parse(["  \tx", " \ta", "   k"])) == [Node(" \ta", [Node("   k", [])]), Node("  \tx", [])]
    ensures Lines(SortForest(Parse(["  \tx", " \ta", "   k"]))) == [" \ta", "   k", "  \tx"]
    ensures Parse([" \ta", "   k", "  \tx"]) == [Node(" \ta", [Node("   k", []), Node("  \tx", [])])]
    ensures !Ordered(Parse([" \ta", "   k", "  \tx"]))
  {
    hide Parse, Render, Lines, RenderLeq, SortForest;
    var x, k := Node("  \tx", []), Node("   k", []);
    var a := Node(" \ta", [k]);
    assert x.line[1..] == " \tx" && " \tx"[1..] == "\tx" && a.line[1..] == "\ta";
    assert k.line[1..] == "  k" && "  k"[1..] == " k" && " k"[1..] == "k";
    assert Indent(x.line) == 2 && Indent(a.line) == 1 && Indent(k.line) == 3;
    ParseTriple(x.line, a.line, k.line);
    ParsePair([a.line, k.line]);
    ParseTriple(a.line, k.line, x.line);
    ParsePair([k.line, x.line]);
    var f, g := [x, a], [Node(a.line, [k, x])];
    assert Parse(["  \tx", " \ta", "   k"]) == f && Parse([" \ta", "   k", "  \tx"]) == g;
    TextOrder(x, a, 1);
    SortLeaf(x);
    SortLeaf(k);
    SortTreeLine(a);
    SortPair(x, a);
    LinesPair(a, x);
    LinesStep([k]);
    LinesStep([]);
    assert [k][1..] == [];
    assert Lines([a, x]) == [a.line, k.line, x.line];
    TextOrder(k, x, 2);
    NotOrdered(g, 0, 0, 1);
  }

  lemma {:induction false} NotOrdered(g: seq<Tree>, n: nat, i: nat, j: nat)
    requires n < |g| && i < j < |g[n].kids| && !RenderLeq(g[n].kids[i], g[n].kids[j])
    ensures !Ordered(g)
  {
    SiblingOrder(g[n].kids);
    assert !Ordered(g[n].kids);
  }

  lemma {:induction false} ParseTriple(p: string, q: string, r: string)
    requires Indent(q) != Indent(p)
    ensures Indent(q) < Indent(p) ==> Parse([p, q, r]) == [Node(p, [])] + Parse([q, r])
    ensures Indent(q) > Indent(p) && Indent(r) > Indent(p) ==> Parse([p, q, r]) == [Node(p, Parse([q, r]))]
  {
    hide Indent, Parse;
    var all := [p, q, r];
    assert all[1..] == [q, r] && [q, r][1..] == [r] && [r][1..] == [];
    assert all[1..1] == [] && all[1..3] == [q, r] && all[3..] == [];
    ParseUnfold(all, Span(all[1..], Indent(p)));
    ParseNothing();
  }

  /** So canonicalising twice can differ from canonicalising once. */
  lemma {:induction false} SecondPassMoves()
    ensures var msg := Join(["h", "  \tx", " \ta", "   k"], '\n');
            Canonical(Canonical(msg)) != Canonical(msg)
  {
    hide Parse, SortForest, Split, Lines, Canonical, Ordered, Join, Filter;
    var below := ["  \tx", " \ta", "   k"];
    var all := ["h"] + below;
    var msg := Join(all, '\n');
    assert all == ["h", "  \tx", " \ta", "   k"];
    SplitJoin(all, '\n');
    assert all[1..] == below;
    assert !IsSpace("  \tx"[3]) && !IsSpace(" \ta"[2]) && !IsSpace("   k"[3]);
    FilterAll(NonBlank(), below);
    SecondPassForest();
    CanonicalBody(msg);
    CanonicalIdempotent(msg);
  }

  lemma {:induction false} TextOrder(x: Tree, y: Tree, i: nat)
    requires i < |x.line| && i < |y.line| && x.line[..i] == y.line[..i] && y.line[i] < x.line[i]
    ensures RenderLeq(y, x) && !RenderLeq(x, y)
  {
    hide Less, Render;
    RenderStarts(x);
    RenderStarts(y);
    var a, b := Render(y), Render(x);
    assert a[i] == a[..|y.line|][i] && b[i] == b[..|x.line|][i];
    assert a[..i] == a[..|y.line|][..i] && b[..i] == b[..|x.line|][..i];
    LessAt(a, b, i);
    LessTotal(a, b);
  }

  lemma {:induction false} SortLeaf(t: Tree)
    requires t.kids == []
    ensures SortTree(t) == t && SortForest([t]) == [t]
  {
    hide RenderLeq;
    assert SortForest([]) == [] && SortTree(t) == t;
    assert [t][1..] == [] && SortEach([t]) == [t] && SortBy(RenderLeq, [t]) == [t];
  }

  /** Two trees out of order change places. */
  lemma {:induction false} SortPair(x: Tree, y: Tree)
    requires SortTree(x) == x && SortTree(y) == y && !RenderLeq(x, y)
    ensures SortForest([x, y]) == [y, x]
  {
    hide RenderLeq, SortTree;
    assert [x, y][1..] == [y] && [y][1..] == [] && SortEach([y]) == [y] && SortEach([x, y]) == [x, y];
    assert SortBy(RenderLeq, [y]) == [y];
    assert Insert(RenderLeq, x, [y]) == [y, x];
  }

  lemma {:induction false} LinesPair(x: Tree, y: Tree)
    ensures Lines([x, y]) == [x.line] + Lines(x.kids) + [y.line] + Lines(y.kids)
  {
    hide Lines;
    LinesStep([x, y]);
    LinesStep([y]);
    LinesStep([]);
    assert [x, y][1..] == [y] && [y][1..] == [];
  }

  lemma {:induction false} ParsePair(lines: seq<string>)
    requires |lines| == 2
    ensures Parse(lines) == if Indent(lines[1]) > Indent(lines[0]) then [Node(lines[0], [Node(lines[1], [])])]
                            else [Node(lines[0], []), Node(lines[1], [])]
  {
    hide Indent, Parse;
    assert lines[1..] == [lines[1]] && [lines[1]][1..] == [] && lines[2..] == [];
    assert lines[1..1] == [] && lines[1..2] == [lines[1]];
    ParseUnfold(lines, Span(lines[1..], Indent(lines[0])));
    ParseNothing();
    ParseOne(lines[1]);
  }

  // ----- Sibling order does not matter -----

  /** The same forest up to the order of siblings, at every depth. */
  ghost predicate Similar(f: seq<Tree>, g: seq<Tree>)
    decreases g
  {
    exists h: seq<Tree> :: Permutation(f, h) && |h| == |g| && PairwiseSimilar(h, g)
  }

  ghost predicate PairwiseSimilar(h: seq<Tree>, g: seq<Tree>)
    requires |h| == |g|
    decreases g, 0
  {
    forall i :: 0 <= i < |g| ==> h[i].line == g[i].line && Similar(h[i].kids, g[i].kids)
  }

  function RenderOf(): Tree -> string { (t: Tree) => Render(t) }
  function SortedRender(): Tree -> string { (t: Tree) => Render(SortTree(t)) }

  lemma {:induction false} RenderKidsByText(f: seq<Tree>, g: seq<Tree>)
    requires Map(RenderOf(), f) == Map(RenderOf(), g)
    ensures RenderKids(f) == RenderKids(g)
    decreases |f|
  {
    hide Render;
    assert |f| == |g|;
    if f != [] {
      assert Render(f[0]) == Map(RenderOf(), f)[0] == Map(RenderOf(), g)[0] == Render(g[0]);
      assert Map(RenderOf(), f[1..]) == Map(RenderOf(), f)[1..];
      assert Map(RenderOf(), g[1..]) == Map(RenderOf(), g)[1..];
      RenderKidsByText(f[1..], g[1..]);
    }
  }

  lemma {:induction false} SortedTexts(f: seq<Tree>)
    ensures Sorted(Leq, Map(RenderOf(), SortForest(f)))
    ensures Permutation(Map(RenderOf(), SortForest(f)), Map(SortedRender(), f))
  {
    hide SortForest, SortTree, Render, Leq;
    SortFacts(f);
    forall i, j | 0 <= i < j < |SortForest(f)|
      ensures Leq(Render(SortForest(f)[i]), Render(SortForest(f)[j]))
    {
      assert RenderLeq(SortForest(f)[i], SortForest(f)[j]);
    }
    MapPermutes(RenderOf(), SortForest(f), SortEach(f));
    forall i | 0 <= i < |f|
      ensures Map(RenderOf(), SortEach(f))[i] == Map(SortedRender(), f)[i]
    {
      SortEachAt(f, i);
    }
    assert Map(RenderOf(), SortEach(f)) == Map(SortedRender(), f);
  }

  /** Forests that differ only in sibling order have the same canonical text. */
  lemma {:induction false} SimilarSameText(f: seq<Tree>, g: seq<Tree>)
    requires Similar(f, g)
    ensures Map(RenderOf(), SortForest(f)) == Map(RenderOf(), SortForest(g))
    ensures RenderKids(SortForest(f)) == RenderKids(SortForest(g))
    decreases g
  {
    hide SortForest, SortTree, Render, Leq, RenderKids;
    var h: seq<Tree> :| Permutation(f, h) && |h| == |g| && PairwiseSimilar(h, g);
    forall i | 0 <= i < |g|
      ensures Render(SortTree(h[i])) == Render(SortTree(g[i]))
    {
      SimilarSameText(h[i].kids, g[i].kids);
      RenderSorted(h[i]);
      RenderSorted(g[i]);
    }
    MapPermutes(SortedRender(), f, h);
    assert Map(SortedRender(), h) == Map(SortedRender(), g);
    SortedTexts(f);
    SortedTexts(g);
    LeqTotalOrder();
    SortedUnique(Leq, Map(RenderOf(), SortForest(f)), Map(RenderOf(), SortForest(g)));
    RenderKidsByText(SortForest(f), SortForest(g));
  }

  lemma {:induction false} RenderSorted(t: Tree)
    ensures Render(SortTree(t)) == t.line + RenderKids(SortForest(t.kids))
  {
    hide SortForest;
  }

  /** Two errors with the same header whose forests differ only in sibling order get one text. */
  lemma {:induction false} CanonicalIgnoresSiblingOrder(a: string, b: string)
    requires |Split(a, '\n')| > 1 && |Split(b, '\n')| > 1 && Split(a, '\n')[0] == Split(b, '\n')[0]
    requires Similar(Parse(Body(a)), Parse(Body(b)))
    ensures Canonical(a) == Canonical(b)
  {
    hide Parse, SortForest, Split, RenderKids, Similar;
    SimilarSameText(Parse(Body(a)), Parse(Body(b)));
  }
}
