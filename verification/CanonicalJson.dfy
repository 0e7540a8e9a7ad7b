/**
 The canonical JSON writer and the digest preimage: a reader that takes back exactly what the writer
 wrote, so equal preimages come from equal schema versions and equal values.
 */
module CanonicalJson {
  import opened Strings

  /** The range in which the formatter keeps a whole number as it is; beyond it, literals pass through float64. */
  type Int64 = n: int | FitsInt64(n)

  predicate FitsInt64(n: int) {
    -0x8000_0000_0000_0000 <= n <= 0x7FFF_FFFF_FFFF_FFFF
  }

  /** A decoded JSON value whose numbers are whole and fit 64 bits. */
  datatype Value =
    | Null
    | Bool(b: bool)
    | Num(n: Int64)
    | Str(s: string)
    | Arr(items: seq<Value>)
    | Obj(fields: map<string, Value>)

  // ----- Strings -----

  function HexDigit(d: nat): char
    requires d < 16
  {
    "0123456789abcdef"[d]
  }

  function UnicodeEscape(c: char): string
    requires c as int < 0x10000
  {
    var n := c as int;
    "\\u" + [HexDigit(n / 16 / 16 / 16), HexDigit(n / 16 / 16 % 16), HexDigit(n / 16 % 16), HexDigit(n % 16)]
  }

  /** One character inside a JSON string, with the HTML-safe escapes of Go's encoder. */
  function Escape(c: char): string {
    match c
    case '\"' => "\\\""
    case '\\' => "\\\\"
    case '\n' => "\\n"
    case '\r' => "\\r"
    case '\t' => "\\t"
    case _ =>
      var n := c as int;
      if n == 8 then "\\b"
      else if n == 12 then "\\f"
      else if n < 0x20 || c in "<>&" || n == 0x2028 || n == 0x2029 then UnicodeEscape(c)
      else [c]
  }

  function EscapeAll(s: string): string {
    if s == [] then [] else Escape(s[0]) + EscapeAll(s[1..])
  }

  function Quote(s: string): string {
    ['\"'] + EscapeAll(s) + ['\"']
  }

  // ----- Writing -----

  ghost function Encode(v: Value): (r: string)
    decreases v, 1, 0
  {
    match v
    case Null => "null"
    case Bool(b) => if b then "true" else "false"
    case Num(n) => Itoa(n)
    case Str(s) => Quote(s)
    case Arr(items) => ['['] + EncodeItems(items, true)
    case Obj(fields) => ['{'] + EncodeMembers(InOrder(fields.Keys), v, true)
  }

  /** The elements still to come and the closing bracket. */
  ghost function EncodeItems(items: seq<Value>, first: bool): string
    decreases items, 0, 0
  {
    if items == [] then "]"
    else Comma(first) + Encode(items[0]) + EncodeItems(items[1..], false)
  }

  function Comma(first: bool): string {
    if first then "" else ","
  }

  /** The members still to come and the closing brace. */
  ghost function EncodeMembers(keys: seq<string>, v: Value, first: bool): string
    requires v.Obj? && forall i :: 0 <= i < |keys| ==> keys[i] in v.fields
    decreases v, 0, |keys|
  {
    if keys == [] then "}"
    else Comma(first) + Quote(keys[0]) + [':'] + Encode(v.fields[keys[0]]) + EncodeMembers(keys[1..], v, false)
  }

  /** The text being written, shared by every recursive call. */
  class Buffer {
    var text: string

    constructor ()
      ensures text == ""
    {
      text := "";
    }

    method Write(s: string)
      modifies this
      ensures text == old(text) + s
    {
      text := text + s;
    }
  }

  method WriteCanonical(w: Buffer, v: Value)
    modifies w
    ensures w.text == old(w.text) + Encode(v)
    decreases v, 1
  {
    hide Quote, Itoa, EncodeItems, EncodeMembers;
    match v
    case Null => w.Write("null");
    case Bool(b) => w.Write(if b then "true" else "false");
    case Num(n) => w.Write(Itoa(n));
    case Str(s) => w.Write(Quote(s));
    case Arr(items) =>
      w.Write("[");
      WriteItems(w, items);
    case Obj(fields) =>
      var keys := SortedElements(fields.Keys);
      w.Write("{");
      WriteMembers(w, v, keys);
  }

  method WriteItems(w: Buffer, items: seq<Value>)
    modifies w
    ensures w.text == old(w.text) + EncodeItems(items, true)
    decreases items, 0
  {
    hide Encode;
    for i := 0 to |items|
      invariant w.text + EncodeItems(items[i..], i == 0) == old(w.text) + EncodeItems(items, true)
    {
      ghost var todo := items[i..];
      assert todo[1..] == items[i + 1..];
      ghost var before := w.text;
      if i > 0 { w.Write(","); }
      WriteCanonical(w, items[i]);
      assert before + EncodeItems(todo, i == 0) == w.text + EncodeItems(todo[1..], false);
    }
    w.Write("]");
  }

  method WriteMembers(w: Buffer, v: Value, keys: seq<string>)
    requires v.Obj? && forall i :: 0 <= i < |keys| ==> keys[i] in v.fields
    modifies w
    ensures w.text == old(w.text) + EncodeMembers(keys, v, true)
    decreases v, 0
  {
    hide Encode, Quote, EncodeMembers, Comma;
    MembersEnd(v);
    for i := 0 to |keys|
      invariant w.text + EncodeMembers(keys[i..], v, i == 0) == old(w.text) + EncodeMembers(keys, v, true)
    {
      ghost var todo := keys[i..];
      assert todo[1..] == keys[i + 1..];
      ghost var before := w.text;
      MembersUnfold(todo, v, i == 0);
      if i > 0 { w.Write(","); }
      assert w.text == before + Comma(i == 0) by { CommaIs(); }
      w.Write(Quote(keys[i]));
      w.Write(":");
      WriteCanonical(w, v.fields[keys[i]]);
      assert w.text == before + Comma(i == 0) + Quote(todo[0]) + [':'] + Encode(v.fields[todo[0]]);
    }
    assert keys[|keys|..] == [];
    w.Write("}");
  }

  lemma CommaIs()
    ensures Comma(true) == "" && Comma(false) == ","
  {}

  lemma MembersEnd(v: Value)
    requires v.Obj?
    ensures forall first :: EncodeMembers([], v, first) == "}"
  {}

  lemma {:induction false} MembersUnfold(keys: seq<string>, v: Value, first: bool)
    requires v.Obj? && keys != [] && forall i :: 0 <= i < |keys| ==> keys[i] in v.fields
    ensures EncodeMembers(keys, v, first)
         == Comma(first) + Quote(keys[0]) + [':'] + Encode(v.fields[keys[0]]) + EncodeMembers(keys[1..], v, false)
  {
    hide Encode, Quote, Comma;
  }

  // ----- Reading back -----

  datatype Parsed<T> = Failed | Read(value: T, rest: string)

  function HexValue(c: char): nat {
    if '0' <= c <= '9' then c as int - '0' as int
    else if 'a' <= c <= 'f' then c as int - 'a' as int + 10
    else 0
  }

  /** The character a four-digit escape stands for; only the basic plane is escaped that way. */
  function FromHex(s: string): char
    requires |s| >= 4
  {
    var n := 16 * (16 * (16 * HexValue(s[0]) + HexValue(s[1])) + HexValue(s[2])) + HexValue(s[3]);
    if 0 <= n < 0xD800 then n as char else '?'
  }

  /** One character of a JSON string, before the closing quote. */
  function ReadChar(s: string): (r: Parsed<char>)
    ensures r.Read? ==> |r.rest| < |s|
  {
    if s == [] || s[0] == '\"' then Failed
    else if s[0] != '\\' then Read(s[0], s[1..])
    else if |s| < 2 then Failed
    else match s[1]
      case 'n' => Read('\n', s[2..])
      case 'r' => Read('\r', s[2..])
      case 't' => Read('\t', s[2..])
      case 'b' => Read(8 as char, s[2..])
      case 'f' => Read(12 as char, s[2..])
      case 'u' => if |s| < 6 then Failed else Read(FromHex(s[2..6]), s[6..])
      case c => Read(c, s[2..])
  }

  function ReadChars(s: string): (r: Parsed<string>)
    ensures r.Read? ==> |r.rest| < |s|
    decreases |s|
  {
    if s != [] && s[0] == '\"' then Read("", s[1..])
    else match ReadChar(s)
      case Failed => Failed
      case Read(c, rest) =>
        match ReadChars(rest)
        case Failed => Failed
        case Read(more, rest') => Read([c] + more, rest')
  }

  function ReadString(s: string): (r: Parsed<string>)
    ensures r.Read? ==> |r.rest| < |s|
  {
    if s == [] || s[0] != '\"' then Failed else ReadChars(s[1..])
  }

  function Digits(s: string): (r: string)
    ensures |r| <= |s|
  {
    if s == [] || !IsDigit(s[0]) then [] else [s[0]] + Digits(s[1..])
  }

  function ReadNumber(s: string): (r: Parsed<int>)
    ensures r.Read? ==> |r.rest| < |s|
  {
    var negative := s != [] && s[0] == '-';
    var unsigned := if negative then s[1..] else s;
    var digits := Digits(unsigned);
    if digits == [] then Failed
    else
      var n: int := NumeralValue(digits);
      Read(if negative then -n else n, unsigned[|digits|..])
  }

  /** Skips a fixed word. */
  function ReadWord<T>(word: string, s: string, value: T): (r: Parsed<T>)
    ensures r.Read? ==> |r.rest| + |word| == |s|
  {
    if |word| <= |s| && s[..|word|] == word then Read(value, s[|word|..]) else Failed
  }

  function ReadValue(s: string): (r: Parsed<Value>)
    ensures r.Read? ==> |r.rest| < |s|
    decreases |s|, 1
  {
    if s == [] then Failed
    else match s[0]
      case 'n' => ReadWord("null", s, Null)
      case 't' => ReadWord("true", s, Bool(true))
      case 'f' => ReadWord("false", s, Bool(false))
      case '\"' =>
        (match ReadString(s)
         case Failed => Failed
         case Read(t, rest) => Read(Str(t), rest))
      case '[' =>
        (match ReadItems(s[1..], true)
         case Failed => Failed
         case Read(items, rest) => Read(Arr(items), rest))
      case '{' =>
        (match ReadMembers(s[1..], true)
         case Failed => Failed
         case Read(fields, rest) => Read(Obj(fields), rest))
      case _ =>
        (match ReadNumber(s)
         case Failed => Failed
         case Read(n, rest) => if FitsInt64(n) then Read(Num(n), rest) else Failed)
  }

  /** Skips the comma that separates an element from the one before it. */
  function SkipComma(s: string, first: bool): (r: Parsed<()>)
    ensures r.Read? ==> |r.rest| <= |s|
  {
    if first then Read((), s) else ReadWord(",", s, ())
  }

  function ReadItems(s: string, first: bool): (r: Parsed<seq<Value>>)
    ensures r.Read? ==> |r.rest| < |s|
    decreases |s|, 2
  {
    if s != [] && s[0] == ']' then Read([], s[1..])
    else match SkipComma(s, first)
      case Failed => Failed
      case Read(_, t) =>
        match ReadValue(t)
        case Failed => Failed
        case Read(v, u) =>
          match ReadItems(u, false)
          case Failed => Failed
          case Read(more, rest) => Read([v] + more, rest)
  }

  function ReadMembers(s: string, first: bool): (r: Parsed<map<string, Value>>)
    ensures r.Read? ==> |r.rest| < |s|
    decreases |s|, 2
  {
    if s != [] && s[0] == '}' then Read(map[], s[1..])
    else match SkipComma(s, first)
      case Failed => Failed
      case Read(_, t) =>
        match ReadKey(t)
        case Failed => Failed
        case Read(k, t') =>
          match ReadValue(t')
          case Failed => Failed
          case Read(v, u) =>
            match ReadMembers(u, false)
            case Failed => Failed
            case Read(more, rest) => Read(more[k := v], rest)
  }

  /** A quoted key and its colon. */
  function ReadKey(s: string): (r: Parsed<string>)
    ensures r.Read? ==> |r.rest| < |s|
  {
    match ReadString(s)
    case Failed => Failed
    case Read(k, t) => ReadWord(":", t, k)
  }

  // ----- The reader undoes the writer -----

  lemma {:induction false} HexRoundTrip(d: nat)
    requires d < 16
    ensures HexValue(HexDigit(d)) == d
  {
    if d >= 10 {
      assert d == 10 || d == 11 || d == 12 || d == 13 || d == 14 || d == 15;
    }
  }

  lemma {:induction false} UnicodeEscapeRoundTrip(c: char)
    requires c as int < 0xD800
    ensures |UnicodeEscape(c)| == 6 && FromHex(UnicodeEscape(c)[2..6]) == c
  {
    var n := c as int;
    HexRoundTrip(n / 16 / 16 / 16);
    HexRoundTrip(n / 16 / 16 % 16);
    HexRoundTrip(n / 16 % 16);
    HexRoundTrip(n % 16);
    hide HexValue, HexDigit;
  }

  lemma {:induction false} ReadEscape(c: char, rest: string)
    ensures ReadChar(Escape(c) + rest) == Read(c, rest)
    ensures (Escape(c) + rest)[0] != '\"'
  {
    hide UnicodeEscape, FromHex;
    var n := c as int;
    if n < 0xD800 { UnicodeEscapeRoundTrip(c); UnicodeEscapeStarts(c); }
    var whole := Escape(c) + rest;
    assert |Escape(c)| == 2 ==> whole[2..] == rest;
    assert |Escape(c)| == 6 ==> whole[6..] == rest && whole[2..6] == Escape(c)[2..6];
    assert |Escape(c)| == 1 ==> whole[1..] == rest;
  }

  lemma UnicodeEscapeStarts(c: char)
    requires c as int < 0x10000
    ensures |UnicodeEscape(c)| == 6 && UnicodeEscape(c)[0] == '\\' && UnicodeEscape(c)[1] == 'u'
  {}

  lemma {:induction false} ReadEscapes(t: string, rest: string)
    ensures ReadChars(EscapeAll(t) + ['\"'] + rest) == Read(t, rest)
  {
    hide Escape, ReadChar;
    if t == [] {
      assert EscapeAll(t) + ['\"'] + rest == ['\"'] + rest;
    } else {
      var tail := EscapeAll(t[1..]) + ['\"'] + rest;
      assert EscapeAll(t) + ['\"'] + rest == Escape(t[0]) + tail;
      ReadEscape(t[0], tail);
      ReadEscapes(t[1..], rest);
      assert [t[0]] + t[1..] == t;
    }
  }

  lemma {:induction false} ReadQuoted(t: string, rest: string)
    ensures ReadString(Quote(t) + rest) == Read(t, rest)
  {
    hide EscapeAll, ReadChars;
    assert (Quote(t) + rest)[1..] == EscapeAll(t) + ['\"'] + rest;
    ReadEscapes(t, rest);
  }

  /** What may follow a value without being read as part of it. */
  predicate Stops(rest: string) {
    rest == [] || !IsDigit(rest[0])
  }

  lemma {:induction false} DigitsOf(s: string, rest: string)
    requires (forall i :: 0 <= i < |s| ==> IsDigit(s[i])) && Stops(rest)
    ensures Digits(s + rest) == s
  {
    if s == [] {
      assert s + rest == rest;
    } else {
      assert (s + rest)[1..] == s[1..] + rest;
      DigitsOf(s[1..], rest);
    }
  }

  lemma {:induction false} ReadItoa(n: int, rest: string)
    requires Stops(rest)
    ensures ReadNumber(Itoa(n) + rest) == Read(n, rest)
  {
    hide Numeral, NumeralValue, Digits;
    var m: nat := if n < 0 then -n else n;
    NumeralRoundTrip(m);
    DigitsOf(Numeral(m), rest);
    var whole := Itoa(n) + rest;
    assert IsDigit(Numeral(m)[0]);
    if n < 0 {
      assert whole[1..] == Numeral(m) + rest;
    }
    assert (Numeral(m) + rest)[|Numeral(m)|..] == rest;
  }

  /** The writer's text, read back in front of anything that cannot extend it. */
  lemma {:induction false} ReadBack(v: Value, rest: string)
    requires Stops(rest)
    ensures ReadValue(Encode(v) + rest) == Read(v, rest)
    decreases v, 1, 0
  {
    hide ReadItems, ReadMembers, ReadString, ReadNumber, Quote, Itoa, EncodeItems, EncodeMembers;
    var whole := Encode(v) + rest;
    match v
    case Null => ReadWordBack("null", rest, Null);
    case Bool(b) => ReadWordBack(if b then "true" else "false", rest, v);
    case Num(n) =>
      ReadItoa(n, rest);
      ItoaStarts(n);
    case Str(t) =>
      ReadQuoted(t, rest);
      QuoteStarts(t);
    case Arr(items) =>
      assert whole[1..] == EncodeItems(items, true) + rest;
      ReadItemsBack(items, true, rest);
    case Obj(fields) =>
      var keys := InOrder(fields.Keys);
      assert whole[1..] == EncodeMembers(keys, v, true) + rest;
      ReadMembersBack(keys, v, true, rest);
      assert Chosen(keys, fields) == fields;
  }

  lemma {:induction false} ReadWordBack<T>(word: string, rest: string, value: T)
    ensures ReadWord(word, word + rest, value) == Read(value, rest)
  {
    assert (word + rest)[..|word|] == word && (word + rest)[|word|..] == rest;
  }

  lemma ItoaStarts(n: int)
    ensures IsDigit(Itoa(n)[0]) || Itoa(n)[0] == '-'
  {}

  lemma QuoteStarts(t: string)
    ensures Quote(t) != [] && Quote(t)[0] == '\"'
  {}

  /** A value never starts with a closing bracket or a comma. */
  lemma {:induction false} EncodeStarts(v: Value)
    ensures Encode(v) != [] && Encode(v)[0] != ']'
  {
    hide Quote, Itoa, EncodeItems, EncodeMembers;
    match v
    case Num(n) => ItoaStarts(n);
    case Str(t) => QuoteStarts(t);
    case _ =>
  }

  lemma {:induction false} ReadItemsBack(items: seq<Value>, first: bool, rest: string)
    ensures ReadItems(EncodeItems(items, first) + rest, first) == Read(items, rest)
    decreases items, 0, 0
  {
    hide Encode, ReadValue;
    var whole := EncodeItems(items, first) + rest;
    if items == [] {
      assert whole[1..] == rest;
    } else {
      var more := EncodeItems(items[1..], false) + rest;
      var text := Encode(items[0]) + more;
      assert whole == Comma(first) + text;
      EncodeStarts(items[0]);
      ReadWordBack(",", text, ());
      assert more[0] == (if items[1..] == [] then ']' else ',');
      ReadBack(items[0], more);
      ReadItemsBack(items[1..], false, rest);
      assert SkipComma(whole, first) == Read((), text);
      assert whole[0] != ']';
      assert [items[0]] + items[1..] == items;
    }
  }

  ghost function Chosen(keys: seq<string>, fields: map<string, Value>): map<string, Value>
    requires forall i :: 0 <= i < |keys| ==> keys[i] in fields
  {
    map k | k in keys && k in fields :: fields[k]
  }

  lemma {:induction false} ReadMembersBack(keys: seq<string>, v: Value, first: bool, rest: string)
    requires v.Obj? && forall i :: 0 <= i < |keys| ==> keys[i] in v.fields
    ensures ReadMembers(EncodeMembers(keys, v, first) + rest, first) == Read(Chosen(keys, v.fields), rest)
    decreases v, 0, |keys|
  {
    hide Encode, ReadValue, Quote, ReadKey;
    var whole := EncodeMembers(keys, v, first) + rest;
    if keys == [] {
      assert whole[1..] == rest;
      assert Chosen(keys, v.fields) == map[];
    } else {
      var more := EncodeMembers(keys[1..], v, false) + rest;
      var value := Encode(v.fields[keys[0]]) + more;
      var text := Quote(keys[0]) + [':'] + value;
      assert whole == Comma(first) + text;
      QuoteStarts(keys[0]);
      ReadWordBack(",", text, ());
      ReadKeyBack(keys[0], value);
      assert more[0] == (if keys[1..] == [] then '}' else ',');
      ReadBack(v.fields[keys[0]], more);
      ReadMembersBack(keys[1..], v, false, rest);
      assert SkipComma(whole, first) == Read((), text);
      assert whole[0] != '}';
      assert Chosen(keys[1..], v.fields)[keys[0] := v.fields[keys[0]]] == Chosen(keys, v.fields);
    }
  }

  lemma {:induction false} ReadKeyBack(k: string, rest: string)
    ensures ReadKey(Quote(k) + [':'] + rest) == Read(k, rest)
  {
    hide Quote, ReadString;
    assert Quote(k) + [':'] + rest == Quote(k) + ([':'] + rest);
    ReadQuoted(k, [':'] + rest);
    ReadWordBack(":", rest, k);
  }

  /** Different values have different canonical text. */
  lemma {:induction false} EncodeInjective(v: Value, w: Value)
    requires Encode(v) == Encode(w)
    ensures v == w
  {
    hide Encode, ReadValue;
    ReadBack(v, []);
    ReadBack(w, []);
    assert Encode(v) + [] == Encode(v) && Encode(w) + [] == Encode(w);
  }

  // ----- The digest preimage -----

  /** No control character, and nothing that HTML or JavaScript would read as its own. */
  ghost predicate Safe(s: string) {
    forall c :: c in s ==> c >= ' ' && c !in "<>&" && c as int !in {0x2028, 0x2029}
  }

  lemma {:induction false} EscapeAllSafe(s: string)
    ensures Safe(EscapeAll(s))
  {
    hide UnicodeEscape;
    if s != [] {
      var c := s[0];
      if c as int < 0x10000 { UnicodeEscapeSafe(c); }
      assert Safe(Escape(c));
      EscapeAllSafe(s[1..]);
    }
  }

  lemma HexDigitSafe(d: nat)
    requires d < 16
    ensures Safe([HexDigit(d)])
  {}

  lemma {:induction false} UnicodeEscapeSafe(c: char)
    requires c as int < 0x10000
    ensures Safe(UnicodeEscape(c))
  {
    hide HexDigit;
    var n := c as int;
    HexDigitSafe(n / 16 / 16 / 16);
    HexDigitSafe(n / 16 / 16 % 16);
    HexDigitSafe(n / 16 % 16);
    HexDigitSafe(n % 16);
    assert forall x :: x in UnicodeEscape(c) ==>
        || x in "\\u" || x in [HexDigit(n / 16 / 16 / 16)] || x in [HexDigit(n / 16 / 16 % 16)]
        || x in [HexDigit(n / 16 % 16)] || x in [HexDigit(n % 16)];
  }

  /**
   A character is written as itself, as a two-character escape or as a \u escape; which of the three
   depends on it alone.
   */
  lemma {:induction false} EscapeForms(c: char)
    ensures Escape(c) == [c] <==> c >= ' ' && c !in "\"\\<>&" && c as int !in {0x2028, 0x2029}
    ensures |Escape(c)| == 2 <==> c in "\"\\\n\r\t" || c as int in {8, 12}
    ensures |Escape(c)| in {1, 2, 6}
    ensures |Escape(c)| == 2 ==> Escape(c)[0] == '\\'
    ensures |Escape(c)| == 6 ==> Escape(c)[..2] == "\\u"
  {
    hide HexDigit;
  }

  /** The canonical text is one line, safe to embed. */
  lemma {:induction false} EncodeSafe(v: Value)
    ensures Safe(Encode(v))
    decreases v, 1, 0
  {
    hide EscapeAll, Itoa, EncodeItems, EncodeMembers;
    match v
    case Null =>
    case Bool(b) =>
    case Num(n) =>
    case Str(s) => EscapeAllSafe(s);
    case Arr(items) => ItemsSafe(items, true);
    case Obj(fields) => MembersSafe(InOrder(fields.Keys), v, true);
  }

  lemma {:induction false} ItemsSafe(items: seq<Value>, first: bool)
    ensures Safe(EncodeItems(items, first))
    decreases items, 0, 0
  {
    hide Encode;
    if items != [] {
      EncodeSafe(items[0]);
      ItemsSafe(items[1..], false);
    }
  }

  lemma {:induction false} MembersSafe(keys: seq<string>, v: Value, first: bool)
    requires v.Obj? && forall i :: 0 <= i < |keys| ==> keys[i] in v.fields
    ensures Safe(EncodeMembers(keys, v, first))
    decreases v, 0, |keys|
  {
    hide Encode, EscapeAll;
    if keys != [] {
      EscapeAllSafe(keys[0]);
      EncodeSafe(v.fields[keys[0]]);
      MembersSafe(keys[1..], v, false);
    }
  }

  const DOMAIN_PREFIX := "assent.canonical-json.v1"

  ghost function Preimage(schemaVersion: string, v: Value): string {
    DOMAIN_PREFIX + ['\n'] + schemaVersion + ['\n'] + Encode(v)
  }

  /** The bytes that are hashed, written piece by piece. */
  method DigestPreimage(schemaVersion: string, v: Value) returns (r: string)
    ensures r == "assent.canonical-json.v1" + "\n" + schemaVersion + "\n" + Encode(v)
    ensures r == Preimage(schemaVersion, v)
  {
    hide Encode;
    var buf := new Buffer();
    WriteCanonical(buf, v);
    var h := new Buffer();
    h.Write(DOMAIN_PREFIX);
    h.Write("\n");
    h.Write(schemaVersion);
    h.Write("\n");
    h.Write(buf.text);
    r := h.text;
  }

  /** The hashed text determines both the schema version, whatever it contains, and the value. */
  lemma {:induction false} PreimageDetermines(a: string, v: Value, b: string, w: Value)
    requires Preimage(a, v) == Preimage(b, w)
    ensures a == b && v == w
  {
    hide Encode;
    EncodeSafe(v);
    EncodeSafe(w);
    var p := DOMAIN_PREFIX + ['\n'];
    assert Preimage(a, v) == (p + a) + ['\n'] + Encode(v);
    assert Preimage(b, w) == (p + b) + ['\n'] + Encode(w);
    LastSeparatorSplits(p + a, Encode(v), p + b, Encode(w), '\n');
    assert (p + a)[|p|..] == a && (p + b)[|p|..] == b;
    EncodeInjective(v, w);
  }
}
