/** RFC 6901 pointers: escaping, building and resolving them through the value tree. */
module Pointers {
  import opened Sequences
  import opened Strings

  /** The format-neutral value tree both sides of a diff are projected into. */
  datatype VNode =
    | Scalar(render: string, cmpKey: string)
    | Mapping(fields: map<string, VNode>)
    | Sequence(elems: seq<VNode>, projected: bool)

  /** `strings.ReplaceAll` of one character. */
  function ReplaceChar(s: string, c: char, sub: string): string {
    if s == [] then [] else (if s[0] == c then sub else [s[0]]) + ReplaceChar(s[1..], c, sub)
  }

  /** `strings.ReplaceAll` of a two-character pattern, leftmost first, no overlaps. */
  function ReplacePair(s: string, a: char, b: char, sub: char): string {
    if |s| < 2 then s
    else if s[0] == a && s[1] == b then [sub] + ReplacePair(s[2..], a, b, sub)
    else [s[0]] + ReplacePair(s[1..], a, b, sub)
  }

  /** Section 3 of RFC 6901: '~' becomes "~0", '/' becomes "~1". */
  function EscapePointer(token: string): string {
    ReplaceChar(ReplaceChar(token, '~', "~0"), '/', "~1")
  }

  /** Section 4 of RFC 6901: "~1" first, then "~0". */
  function UnescapePointer(token: string): string {
    ReplacePair(ReplacePair(token, '~', '1', '/'), '~', '0', '~')
  }

  lemma {:induction false} ReplaceCharConcat(a: string, b: string, c: char, sub: string)
    ensures ReplaceChar(a + b, c, sub) == ReplaceChar(a, c, sub) + ReplaceChar(b, c, sub)
  {
    if a == [] {
      assert a + b == b;
    } else {
      assert (a + b)[1..] == a[1..] + b;
      ReplaceCharConcat(a[1..], b, c, sub);
    }
  }

  /** The table of RFC 6901, section 3, character by character. */
  lemma {:induction false} EscapeCons(c: char, rest: string)
    ensures EscapePointer("") == ""
    ensures EscapePointer([c] + rest)
         == (if c == '~' then "~0" else if c == '/' then "~1" else [c]) + EscapePointer(rest)
  {
    ReplaceCharConcat([c], rest, '~', "~0");
    var first := if c == '~' then "~0" else [c];
    assert ReplaceChar([c], '~', "~0") == first by { assert [c][1..] == []; }
    ReplaceCharConcat(first, ReplaceChar(rest, '~', "~0"), '/', "~1");
    assert ReplaceChar(first, '/', "~1") == (if c == '/' then "~1" else first) by {
      if c == '~' {
        assert first[1..] == "0" && "0"[1..] == [];
      } else {
        assert first[1..] == [];
      }
    }
  }

  lemma {:induction false} PairSkip(c: char, s: string, a: char, b: char, sub: char)
    requires c != a || s == [] || s[0] != b
    ensures ReplacePair([c] + s, a, b, sub) == [c] + ReplacePair(s, a, b, sub)
  {
    assert ([c] + s)[1..] == s;
  }

  lemma {:induction false} PairHit(s: string, a: char, b: char, sub: char)
    ensures ReplacePair([a, b] + s, a, b, sub) == [sub] + ReplacePair(s, a, b, sub)
  {
    assert ([a, b] + s)[2..] == s;
  }

  /** Every string survives escaping and unescaping. */
  lemma {:induction false} EscapeRoundTrip(t: string)
    ensures UnescapePointer(EscapePointer(t)) == t
  {
    HalfWay(t);
    Rest(t);
  }

  /** After the first pass only '~' is still escaped. */
  lemma {:induction false} HalfWay(t: string)
    ensures ReplacePair(EscapePointer(t), '~', '1', '/') == ReplaceChar(t, '~', "~0")
  {
    if t != [] {
      var c, rest := t[0], t[1..];
      assert t == [c] + rest;
      EscapeCons(c, rest);
      HalfWay(rest);
      var e := EscapePointer(rest);
      if c == '~' {
        assert "~0" + e == ['~'] + (['0'] + e);
        PairSkip('~', ['0'] + e, '~', '1', '/');
        PairSkip('0', e, '~', '1', '/');
      } else if c == '/' {
        assert "~1" + e == ['~', '1'] + e;
        PairHit(e, '~', '1', '/');
      } else {
        PairSkip(c, e, '~', '1', '/');
      }
    }
  }

  lemma {:induction false} Rest(t: string)
    ensures ReplacePair(ReplaceChar(t, '~', "~0"), '~', '0', '~') == t
  {
    if t != [] {
      var c, rest := t[0], ReplaceChar(t[1..], '~', "~0");
      Rest(t[1..]);
      if c == '~' {
        assert "~0" + rest == ['~', '0'] + rest;
        PairHit(rest, '~', '0', '~');
      } else {
        PairSkip(c, rest, '~', '0', '~');
      }
      assert [c] + t[1..] == t;
    }
  }

  lemma {:induction false} EscapeHasNoSlash(t: string)
    ensures '/' !in EscapePointer(t)
  {
    if t != [] {
      assert t == [t[0]] + t[1..];
      EscapeCons(t[0], t[1..]);
      EscapeHasNoSlash(t[1..]);
    }
  }

  // ----- Pointers of key paths -----

  function Escaper(): string -> string { (k: string) => EscapePointer(k) }
  function Unescaper(): string -> string { (k: string) => UnescapePointer(k) }

  /** The pointer of a key path. */
  function Ptr(keys: seq<string>): string {
    if keys == [] then "" else Ptr(keys[..|keys| - 1]) + "/" + EscapePointer(keys[|keys| - 1])
  }

  lemma {:induction false} PtrSnoc(keys: seq<string>, k: string)
    ensures Ptr(keys + [k]) == Ptr(keys) + "/" + EscapePointer(k)
  {
    assert (keys + [k])[..|keys|] == keys;
  }

  lemma {:induction false} JoinSnoc(parts: seq<string>, p: string)
    requires |parts| >= 1
    ensures Join(parts + [p], '/') == Join(parts, '/') + "/" + p
  {
    if |parts| == 1 {
      assert (parts + [p])[1..] == [p];
    } else {
      assert (parts + [p])[1..] == parts[1..] + [p];
      JoinSnoc(parts[1..], p);
      assert parts[0] + ['/'] + (Join(parts[1..], '/') + "/" + p) == parts[0] + ['/'] + Join(parts[1..], '/') + "/" + p;
    }
  }

  lemma {:induction false} PtrIsJoin(keys: seq<string>)
    requires keys != []
    ensures Ptr(keys) == "/" + Join(Map(Escaper(), keys), '/')
  {
    hide EscapePointer;
    var n := |keys| - 1;
    var k := keys[n];
    if n == 0 {
      assert keys == [] + [k];
      PtrSnoc([], k);
      assert Map(Escaper(), keys) == [EscapePointer(k)];
      assert Ptr([]) + "/" + EscapePointer(k) == "/" + EscapePointer(k);
    } else {
      PtrIsJoin(keys[..n]);
      JoinSnoc(Map(Escaper(), keys[..n]), EscapePointer(k));
      assert Map(Escaper(), keys) == Map(Escaper(), keys[..n]) + [EscapePointer(k)];
      var front := Join(Map(Escaper(), keys[..n]), '/');
      assert "/" + front + "/" + EscapePointer(k) == "/" + (front + "/" + EscapePointer(k));
    }
  }

  /** Reading a built pointer back token by token gives the keys. */
  lemma {:induction false} PtrTokens(keys: seq<string>)
    requires keys != []
    ensures Ptr(keys) != [] && Ptr(keys)[0] == '/'
    ensures Map(Unescaper(), Split(Ptr(keys)[1..], '/')) == keys
  {
    hide EscapePointer, UnescapePointer;
    PtrIsJoin(keys);
    var es := Map(Escaper(), keys);
    assert Ptr(keys)[1..] == Join(es, '/');
    forall i | 0 <= i < |es|
      ensures '/' !in es[i] && UnescapePointer(es[i]) == keys[i]
    {
      EscapeHasNoSlash(keys[i]);
      EscapeRoundTrip(keys[i]);
    }
    SplitJoin(es, '/');
    assert Map(Unescaper(), es) == keys;
  }

  /** Different key paths have different pointers. */
  lemma {:induction false} PtrInjective(a: seq<string>, b: seq<string>)
    requires Ptr(a) == Ptr(b)
    ensures a == b
  {
    if a != [] { PtrTokens(a); }
    if b != [] { PtrTokens(b); }
  }

  // ----- Resolving -----

  /** The node a key path leads to. */
  function Lookup(node: VNode, keys: seq<string>): Option<VNode> {
    if keys == [] then Some(node)
    else if node.Mapping? && keys[0] in node.fields then Lookup(node.fields[keys[0]], keys[1..])
    else None
  }

  function TrimSlash(p: string): string {
    if p != [] && p[0] == '/' then p[1..] else p
  }

  /** Walks a cursor token by token; "" and "/" both mean the node itself. */
  method ResolvePointer(node: VNode, pointer: string) returns (r: Option<VNode>)
    ensures r == ResolveSpec(node, pointer)
  {
    if pointer == "" || pointer == "/" { return Some(node); }
    var toks := Split(TrimSlash(pointer), '/');
    ghost var keys := Map(Unescaper(), toks);
    var cur := node;
    for i := 0 to |toks|
      invariant Lookup(cur, keys[i..]) == Lookup(node, keys)
    {
      if !cur.Mapping? { return None; }
      var k := UnescapePointer(toks[i]);
      if k !in cur.fields { return None; }
      assert keys[i..][1..] == keys[i + 1..];
      cur := cur.fields[k];
    }
    return Some(cur);
  }

  function ResolveSpec(node: VNode, pointer: string): Option<VNode> {
    if pointer == "" || pointer == "/" then Some(node)
    else Lookup(node, Map(Unescaper(), Split(TrimSlash(pointer), '/')))
  }

  /** The pointer of every key path resolves to what the keys lead to, except the lone empty key. */
  lemma {:induction false} ResolveBuilt(node: VNode, keys: seq<string>)
    ensures keys != [""] ==> ResolveSpec(node, Ptr(keys)) == Lookup(node, keys)
    ensures keys == [""] ==> ResolveSpec(node, Ptr(keys)) == Some(node)
  {
    hide EscapePointer, UnescapePointer, Split;
    if keys != [] {
      PtrTokens(keys);
      SlashIsEmptyKey(keys);
    }
  }

  /** The leading slash may be left out. */
  lemma {:induction false} LeadingSlashOptional(node: VNode, p: string)
    requires p != "" && p[0] != '/'
    ensures ResolveSpec(node, p) == ResolveSpec(node, "/" + p)
  {
    assert ("/" + p)[1..] == p;
  }

  lemma {:induction false} SlashIsEmptyKey(keys: seq<string>)
    ensures Ptr(keys) == "/" <==> keys == [""]
  {
    var e: seq<string> := [""];
    assert Ptr(e) == "/" by {
      assert e == [] + [""];
      PtrSnoc([], "");
    }
    if Ptr(keys) == "/" { PtrInjective(keys, e); }
  }

  /** The exception is real: a top-level empty key is not what "/" resolves to. */
  lemma {:induction false} EmptyKeyMisresolved()
    ensures exists node: VNode :: Lookup(node, [""]).Some? && ResolveSpec(node, Ptr([""])) != Lookup(node, [""])
  {
    var leaf := Scalar("1", "n1");
    var node := Mapping(map["" := leaf]);
    ResolveBuilt(node, [""]);
    assert [""][1..] == [];
    assert Lookup(node, [""]) == Lookup(leaf, []) == Some(leaf);
    assert ResolveSpec(node, Ptr([""])) != Lookup(node, [""]);
  }
}
