/**
  The JSON grammar of sections 2 to 7 of RFC 8259, as concrete syntax trees that keep
  every blank, a printer, and the reader that stands for `json.loads`.

  Printers are written in continuation style: `TextValue(v, k)` is the text of `v`
  followed by `k`.  The reader is proved to accept exactly the printed texts and to
  return the tree that was printed, so the grammar is unambiguous.
 */
module Json {
  import opened Wrappers

  // ---- concrete syntax -------------------------------------------------------

  /** One character of a string: itself, a two-character escape, a four-digit escape, or
      an escaped surrogate pair. */
  datatype Item = Plain(c: char) | Short(c: char) | Unit(h: string) | Pair(hi: string, lo: string)

  datatype Value =
    | Lit(word: string)
    | Num(text: string)
    | Str(items: seq<Item>)
    | Arr(pad: string, elems: seq<Elem>)
    | Obj(pad: string, members: seq<Member>)

  datatype Elem = Elem(pre: string, v: Value, post: string)

  /** `pre "key" mid : gap v post` */
  datatype Member = Member(pre: string, key: seq<Item>, mid: string, gap: string, v: Value, post: string)

  // ---- lexical classes -------------------------------------------------------

  predicate IsBlank(c: char) { c == ' ' || c == '\t' || c == '\n' || c == '\r' }

  predicate Blanks(w: string) { forall i :: 0 <= i < |w| ==> IsBlank(w[i]) }

  predicate IsDigit(c: char) { '0' <= c <= '9' }

  predicate IsHex(c: char) { IsDigit(c) || 'a' <= c <= 'f' || 'A' <= c <= 'F' }

  function HexDigit(c: char): nat {
    if IsDigit(c) then (c - '0') as int
    else if 'a' <= c <= 'f' then 10 + (c - 'a') as int
    else if 'A' <= c <= 'F' then 10 + (c - 'A') as int
    else 0
  }

  predicate IsHex4(h: string) {
    |h| == 4 && IsHex(h[0]) && IsHex(h[1]) && IsHex(h[2]) && IsHex(h[3])
  }

  function Hex4(h: string): nat
    requires |h| == 4
  {
    HexDigit(h[0]) * 4096 + HexDigit(h[1]) * 256 + HexDigit(h[2]) * 16 + HexDigit(h[3])
  }

  predicate HighSurrogate(n: nat) { 0xD800 <= n < 0xDC00 }

  predicate LowSurrogate(n: nat) { 0xDC00 <= n < 0xE000 }

  predicate IsShort(c: char) {
    c == '\"' || c == '\\' || c == '/' || c == 'b' || c == 'f' || c == 'n' || c == 'r' || c == 't'
  }

  predicate GoodItem(i: Item) {
    match i
    case Plain(c) => c != '\"' && c != '\\' && ' ' <= c
    case Short(c) => IsShort(c)
    case Unit(h) => IsHex4(h) && !HighSurrogate(Hex4(h)) && !LowSurrogate(Hex4(h))
    case Pair(hi, lo) => IsHex4(hi) && IsHex4(lo) && HighSurrogate(Hex4(hi)) && LowSurrogate(Hex4(lo))
  }

  predicate GoodItems(items: seq<Item>) { forall i :: 0 <= i < |items| ==> GoodItem(items[i]) }

  predicate IsNumChar(c: char) { IsDigit(c) || c == '-' || c == '+' || c == '.' || c == 'e' || c == 'E' }

  /** The length of the leading run of digits. */
  function DigitsLen(s: string): (n: nat)
    ensures n <= |s|
    ensures forall i :: 0 <= i < n ==> IsDigit(s[i])
  {
    if s == "" || !IsDigit(s[0]) then 0 else 1 + DigitsLen(s[1..])
  }

  /** `[ (e / E) [ + / - ] 1*DIGIT ]` */
  predicate IsExponent(s: string)
    ensures IsExponent(s) ==> forall i :: 0 <= i < |s| ==> IsNumChar(s[i])
  {
    s == "" ||
    ((s[0] == 'e' || s[0] == 'E') &&
     var u := s[1..];
     var w := if u != "" && (u[0] == '+' || u[0] == '-') then u[1..] else u;
     w != "" && DigitsLen(w) == |w|)
  }

  /** `[ frac ] [ exp ]` */
  predicate IsFractionAndExponent(r: string)
    ensures IsFractionAndExponent(r) ==> forall i :: 0 <= i < |r| ==> IsNumChar(r[i])
  {
    if r != "" && r[0] == '.' then
      var digits := r[1..];
      var f := DigitsLen(digits);
      f >= 1 && IsExponent(digits[f..])
    else
      IsExponent(r)
  }

  /** Section 6 of RFC 8259: `[ - ] int [ frac ] [ exp ]`. */
  predicate IsNumber(t: string)
    ensures IsNumber(t) ==> t != "" && (t[0] == '-' || IsDigit(t[0]))
    ensures IsNumber(t) ==> forall i :: 0 <= i < |t| ==> IsNumChar(t[i])
  {
    var s := if t != "" && t[0] == '-' then t[1..] else t;
    var d := DigitsLen(s);
    && d >= 1
    && (s[0] == '0' ==> d == 1)
    && IsFractionAndExponent(s[d..])
  }

  predicate Good(v: Value)
    decreases v
  {
    match v
    case Lit(w) => w == "true" || w == "false" || w == "null"
    case Num(t) => IsNumber(t)
    case Str(items) => GoodItems(items)
    case Arr(pad, es) => Blanks(pad) && (es != [] ==> pad == "") && GoodElems(es)
    case Obj(pad, ms) => Blanks(pad) && (ms != [] ==> pad == "") && GoodMembers(ms)
  }

  predicate GoodElem(e: Elem)
    decreases e
  {
    Blanks(e.pre) && Good(e.v) && Blanks(e.post)
  }

  predicate GoodMember(m: Member)
    decreases m
  {
    Blanks(m.pre) && GoodItems(m.key) && Blanks(m.mid) && Blanks(m.gap) && Good(m.v) && Blanks(m.post)
  }

  predicate GoodElems(es: seq<Elem>)
    decreases es
  {
    forall i :: 0 <= i < |es| ==> GoodElem(es[i])
  }

  predicate GoodMembers(ms: seq<Member>)
    decreases ms
  {
    forall i :: 0 <= i < |ms| ==> GoodMember(ms[i])
  }

  // ---- printing --------------------------------------------------------------

  function TextItem(i: Item, k: string): (s: string)
    ensures |k| < |s|
  {
    match i
    case Plain(c) => [c] + k
    case Short(c) => ['\\', c] + k
    case Unit(h) => ['\\', 'u'] + (h + k)
    case Pair(hi, lo) => ['\\', 'u'] + (hi + (['\\', 'u'] + (lo + k)))
  }

  function TextItems(items: seq<Item>, k: string): (s: string)
    ensures |k| <= |s|
  {
    if items == [] then k else TextItem(items[0], TextItems(items[1..], k))
  }

  function TextStr(items: seq<Item>, k: string): (s: string)
    ensures |k| < |s|
  {
    ['\"'] + TextItems(items, ['\"'] + k)
  }

  function TextValue(v: Value, k: string): (s: string)
    ensures |k| <= |s|
    decreases v
  {
    match v
    case Lit(w) => w + k
    case Num(t) => t + k
    case Str(items) => TextStr(items, k)
    case Arr(pad, es) => ['['] + (if es == [] then pad + ([']'] + k) else TextElems(es, [']'] + k))
    case Obj(pad, ms) => ['{'] + (if ms == [] then pad + (['}'] + k) else TextMembers(ms, ['}'] + k))
  }

  function TextElem(e: Elem, k: string): (s: string)
    ensures |k| <= |s|
    decreases e
  {
    e.pre + TextValue(e.v, e.post + k)
  }

  function TextElems(es: seq<Elem>, k: string): (s: string)
    requires es != []
    ensures |k| <= |s|
    decreases es
  {
    TextElem(es[0], if |es| == 1 then k else [','] + TextElems(es[1..], k))
  }

  function TextMember(m: Member, k: string): (s: string)
    ensures |k| < |s|
    decreases m
  {
    m.pre + TextStr(m.key, m.mid + ([':'] + (m.gap + TextValue(m.v, m.post + k))))
  }

  function TextMembers(ms: seq<Member>, k: string): (s: string)
    requires ms != []
    ensures |k| < |s|
    decreases ms
  {
    TextMember(ms[0], if |ms| == 1 then k else [','] + TextMembers(ms[1..], k))
  }

  function Text(v: Value): string { TextValue(v, "") }

  /** The text of a value followed by `k` is the text of the value, then `k`. */
  lemma {:induction false} TextAppend(v: Value, k: string)
    ensures TextValue(v, k) == Text(v) + k
    decreases v, 0
  {
    match v
    case Lit(w) => assert w + "" == w;
    case Num(t) => assert t + "" == t;
    case Str(items) =>
      StrAppend(items, "", k);
      assert "" + k == k;
    case Arr(pad, es) =>
      if es == [] {
        assert TextValue(v, k) == ['['] + pad + [']'] + k;
      } else {
        ElemsAppend(es, [']'], k);
        assert [']'] + "" == [']'];
      }
    case Obj(pad, ms) =>
      if ms == [] {
        assert TextValue(v, k) == ['{'] + pad + ['}'] + k;
      } else {
        MembersAppend(ms, ['}'], k);
        assert ['}'] + "" == ['}'];
      }
  }

  lemma ItemAppend(i: Item, j: string, k: string)
    ensures TextItem(i, j + k) == TextItem(i, j) + k
  {
    match i
    case Plain(c) => assert [c] + (j + k) == ([c] + j) + k;
    case Short(c) => assert ['\\', c] + (j + k) == (['\\', c] + j) + k;
    case Unit(h) => UnitAppend(h, j, k);
    case Pair(hi, lo) =>
      UnitAppend(lo, j, k);
      UnitAppend(hi, ['\\', 'u'] + (lo + j), k);
  }

  lemma UnitAppend(h: string, j: string, k: string)
    ensures ['\\', 'u'] + (h + (j + k)) == (['\\', 'u'] + (h + j)) + k
  {
    assert h + (j + k) == (h + j) + k;
  }

  lemma {:induction false} ItemsAppend(items: seq<Item>, j: string, k: string)
    ensures TextItems(items, j + k) == TextItems(items, j) + k
  {
    if items != [] {
      ItemsAppend(items[1..], j, k);
      ItemAppend(items[0], TextItems(items[1..], j), k);
    }
  }

  lemma StrAppend(items: seq<Item>, j: string, k: string)
    ensures TextStr(items, j + k) == TextStr(items, j) + k
  {
    assert ['\"'] + (j + k) == (['\"'] + j) + k;
    ItemsAppend(items, ['\"'] + j, k);
  }

  lemma {:induction false} ValueAppend(v: Value, j: string, k: string)
    ensures TextValue(v, j + k) == TextValue(v, j) + k
    decreases v, 1
  {
    TextAppend(v, j);
    TextAppend(v, j + k);
    assert Text(v) + (j + k) == (Text(v) + j) + k;
  }

  lemma {:induction false} ElemAppend(e: Elem, j: string, k: string)
    ensures TextElem(e, j + k) == TextElem(e, j) + k
    decreases e
  {
    assert e.post + (j + k) == (e.post + j) + k;
    ValueAppend(e.v, e.post + j, k);
  }

  lemma {:induction false} ElemsAppend(es: seq<Elem>, j: string, k: string)
    requires es != []
    ensures TextElems(es, j + k) == TextElems(es, j) + k
    decreases es
  {
    if |es| == 1 {
      ElemAppend(es[0], j, k);
    } else {
      ElemsAppend(es[1..], j, k);
      ElemAppend(es[0], [','] + TextElems(es[1..], j), k);
      assert [','] + TextElems(es[1..], j + k) == ([','] + TextElems(es[1..], j)) + k;
    }
  }

  lemma {:induction false} MemberAppend(m: Member, j: string, k: string)
    ensures TextMember(m, j + k) == TextMember(m, j) + k
    decreases m
  {
    assert m.post + (j + k) == (m.post + j) + k;
    ValueAppend(m.v, m.post + j, k);
    var t := m.mid + ([':'] + (m.gap + TextValue(m.v, m.post + j)));
    assert m.mid + ([':'] + (m.gap + TextValue(m.v, m.post + (j + k)))) == t + k;
    StrAppend(m.key, t, k);
  }

  lemma {:induction false} MembersAppend(ms: seq<Member>, j: string, k: string)
    requires ms != []
    ensures TextMembers(ms, j + k) == TextMembers(ms, j) + k
    decreases ms
  {
    if |ms| == 1 {
      MemberAppend(ms[0], j, k);
    } else {
      MembersAppend(ms[1..], j, k);
      MemberAppend(ms[0], [','] + TextMembers(ms[1..], j), k);
      assert [','] + TextMembers(ms[1..], j + k) == ([','] + TextMembers(ms[1..], j)) + k;
    }
  }

  // ---- the value a text denotes ----------------------------------------------

  datatype Json =
    | JNull
    | JBool(b: bool)
    | JNum(text: string)
    | JStr(s: string)
    | JArr(elems: seq<Json>)
    | JObj(fields: map<string, Json>)

  function CodePoint(n: nat): char {
    if n < 0xD800 || 0xE000 <= n < 0x11_0000 then n as char else '\U{FFFD}'
  }

  function DecodeItem(i: Item): char {
    match i
    case Plain(c) => c
    case Short(c) =>
      if c == 'b' then '\U{0008}' else if c == 'f' then '\U{000C}' else if c == 'n' then '\n'
      else if c == 'r' then '\r' else if c == 't' then '\t' else c
    case Unit(h) => if |h| == 4 then CodePoint(Hex4(h)) else '\U{FFFD}'
    case Pair(hi, lo) =>
      if |hi| == 4 && |lo| == 4 && HighSurrogate(Hex4(hi)) && LowSurrogate(Hex4(lo)) then
        CodePoint(0x1_0000 + (Hex4(hi) - 0xD800) * 0x400 + (Hex4(lo) - 0xDC00))
      else '\U{FFFD}'
  }

  function Decode(items: seq<Item>): string { seq(|items|, i requires 0 <= i < |items| => DecodeItem(items[i])) }

  function Meaning(v: Value): Json
    decreases v
  {
    match v
    case Lit(w) => if w == "null" then JNull else JBool(w == "true")
    case Num(t) => JNum(t)
    case Str(items) => JStr(Decode(items))
    case Arr(_, es) => JArr(ElemsMeaning(es))
    case Obj(_, ms) => JObj(Fields(ms))
  }

  function ElemsMeaning(es: seq<Elem>): seq<Json>
    decreases es
  {
    if es == [] then [] else [Meaning(es[0].v)] + ElemsMeaning(es[1..])
  }

  /** The dictionary of a member list; the last occurrence of a repeated key wins. */
  function Fields(ms: seq<Member>): map<string, Json>
    decreases ms
  {
    if ms == [] then map[] else map[Decode(ms[0].key) := Meaning(ms[0].v)] + Fields(ms[1..])
  }

  // ---- reading ---------------------------------------------------------------

  predicate StartsBlank(k: string) { k != "" && IsBlank(k[0]) }

  predicate StartsNum(k: string) { k != "" && IsNumChar(k[0]) }

  /** The leading blanks and what follows them. */
  function Unblank(s: string): (r: (string, string))
    ensures r.0 + r.1 == s && Blanks(r.0) && !StartsBlank(r.1)
  {
    if StartsBlank(s) then var (w, rest) := Unblank(s[1..]); ([s[0]] + w, rest) else ("", s)
  }

  /** The longest run of characters that can occur in a number, and what follows it. */
  function NumSpan(s: string): (r: (string, string))
    ensures r.0 + r.1 == s
  {
    if StartsNum(s) then var (t, rest) := NumSpan(s[1..]); ([s[0]] + t, rest) else ("", s)
  }

  /** What follows `c`, when `s` starts with `c`. */
  function After(s: string, c: char): (r: Option<string>)
    ensures r.Some? ==> s == [c] + r.value
    ensures r.None? <==> s == "" || s[0] != c
  {
    if s != "" && s[0] == c then Some(s[1..]) else None
  }

  /** What follows `word`, when `s` starts with `word`. */
  function AfterWord(s: string, word: string): (r: Option<string>)
    ensures r.Some? ==> s == word + r.value
  {
    if word <= s then Some(s[|word|..]) else None
  }

  function ReadItem(s: string): (r: Option<(Item, string)>)
    ensures r.Some? ==> GoodItem(r.value.0) && TextItem(r.value.0, r.value.1) == s
  {
    if s == "" || s[0] == '\"' || s[0] < ' ' then None
    else if s[0] != '\\' then assert s == [s[0]] + s[1..]; Some((Plain(s[0]), s[1..]))
    else if |s| < 2 then None
    else if s[1] != 'u' then
      if IsShort(s[1]) then assert s == ['\\', s[1]] + s[2..]; Some((Short(s[1]), s[2..])) else None
    else if |s| < 6 || !IsHex4(s[2..6]) then None
    else
      var hi := s[2..6];
      if HighSurrogate(Hex4(hi)) then
        if |s| < 12 || s[6] != '\\' || s[7] != 'u' || !IsHex4(s[8..12]) || !LowSurrogate(Hex4(s[8..12])) then None
        else
          assert s == ['\\', 'u'] + (hi + (['\\', 'u'] + (s[8..12] + s[12..])));
          Some((Pair(hi, s[8..12]), s[12..]))
      else if LowSurrogate(Hex4(hi)) then None
      else assert s == ['\\', 'u'] + (hi + s[6..]); Some((Unit(hi), s[6..]))
  }

  /** Reads up to and including the closing quotation mark. */
  function ReadItems(s: string): (r: Option<(seq<Item>, string)>)
    ensures r.Some? ==> GoodItems(r.value.0) && TextItems(r.value.0, ['\"'] + r.value.1) == s
    decreases |s|
  {
    var done := After(s, '\"');
    if done.Some? then Some(([], done.value))
    else
      var (i, s1) :- ReadItem(s);
      var (items, s2) :- ReadItems(s1);
      assert ([i] + items)[1..] == items;
      Some(([i] + items, s2))
  }

  function ReadValue(s: string): (r: Option<(Value, string)>)
    ensures r.Some? ==> Good(r.value.0) && TextValue(r.value.0, r.value.1) == s && |r.value.1| < |s|
    decreases |s|, 0
  {
    if s == "" then None
    else if s[0] == '\"' then
      var t := After(s, '\"').value;
      var (items, rest) :- ReadItems(t);
      Some((Str(items), rest))
    else if s[0] == '[' then
      var t := After(s, '[').value;
      var (pad, u) := Unblank(t);
      var empty := After(u, ']');
      if empty.Some? then Some((Arr(pad, []), empty.value))
      else
        var (es, rest) :- ReadElems(t);
        Some((Arr("", es), rest))
    else if s[0] == '{' then
      var t := After(s, '{').value;
      var (pad, u) := Unblank(t);
      var empty := After(u, '}');
      if empty.Some? then Some((Obj(pad, []), empty.value))
      else
        var (ms, rest) :- ReadMembers(t);
        Some((Obj("", ms), rest))
    else ReadWord(s)
  }

  function ReadWord(s: string): (r: Option<(Value, string)>)
    ensures r.Some? ==> Good(r.value.0) && TextValue(r.value.0, r.value.1) == s && |r.value.1| < |s|
  {
    if AfterWord(s, "true").Some? then Some((Lit("true"), AfterWord(s, "true").value))
    else if AfterWord(s, "false").Some? then Some((Lit("false"), AfterWord(s, "false").value))
    else if AfterWord(s, "null").Some? then Some((Lit("null"), AfterWord(s, "null").value))
    else
      var (t, rest) := NumSpan(s);
      if IsNumber(t) then Some((Num(t), rest)) else None
  }

  function ReadElem(s: string): (r: Option<(Elem, string)>)
    ensures r.Some? ==> GoodElem(r.value.0) && TextElem(r.value.0, r.value.1) == s && |r.value.1| < |s|
    decreases |s|, 1
  {
    var (pre, s1) := Unblank(s);
    var (v, s2) :- ReadValue(s1);
    var (post, s3) := Unblank(s2);
    Some((Elem(pre, v, post), s3))
  }

  /** Reads one or more elements and the closing bracket. */
  function ReadElems(s: string): (r: Option<(seq<Elem>, string)>)
    ensures r.Some? ==> r.value.0 != [] && GoodElems(r.value.0)
    ensures r.Some? ==> TextElems(r.value.0, [']'] + r.value.1) == s && |r.value.1| < |s|
    decreases |s|, 2
  {
    var (e, s1) :- ReadElem(s);
    var done := After(s1, ']');
    if done.Some? then Some(([e], done.value))
    else
      var s2 :- After(s1, ',');
      var (es, rest) :- ReadElems(s2);
      assert ([e] + es)[1..] == es;
      Some(([e] + es, rest))
  }

  function ReadMember(s: string): (r: Option<(Member, string)>)
    ensures r.Some? ==> GoodMember(r.value.0) && TextMember(r.value.0, r.value.1) == s && |r.value.1| < |s|
    decreases |s|, 1
  {
    var (pre, s0) := Unblank(s);
    var s1 :- After(s0, '\"');
    var (key, s2) :- ReadItems(s1);
    var (mid, s3) := Unblank(s2);
    var s4 :- After(s3, ':');
    var (gap, s5) := Unblank(s4);
    var (v, s6) :- ReadValue(s5);
    var (post, s7) := Unblank(s6);
    Some((Member(pre, key, mid, gap, v, post), s7))
  }

  /** Reads one or more members and the closing brace. */
  function ReadMembers(s: string): (r: Option<(seq<Member>, string)>)
    ensures r.Some? ==> r.value.0 != [] && GoodMembers(r.value.0)
    ensures r.Some? ==> TextMembers(r.value.0, ['}'] + r.value.1) == s && |r.value.1| < |s|
    decreases |s|, 2
  {
    var (m, s1) :- ReadMember(s);
    var done := After(s1, '}');
    if done.Some? then Some(([m], done.value))
    else
      var s2 :- After(s1, ',');
      var (ms, rest) :- ReadMembers(s2);
      assert ([m] + ms)[1..] == ms;
      Some(([m] + ms, rest))
  }

  /** A document: one value between blanks. */
  function ReadDocument(s: string): (r: Option<Value>)
    ensures r.Some? ==> Good(r.value)
  {
    var (v, rest) :- ReadValue(Unblank(s).1);
    if Blanks(rest) then Some(v) else None
  }

  /** `json.loads`; `None` stands for the raised decode error. */
  function Loads(s: string): Option<Json> {
    var v :- ReadDocument(s);
    Some(Meaning(v))
  }

  // ---- the reader returns the tree that was printed ----------------------------

  lemma {:induction false} UnblankExact(w: string, k: string)
    requires Blanks(w) && !StartsBlank(k)
    ensures Unblank(w + k) == (w, k)
  {
    if w == "" {
      assert w + k == k;
    } else {
      assert (w + k)[1..] == w[1..] + k;
      UnblankExact(w[1..], k);
      assert [w[0]] + w[1..] == w;
    }
  }

  lemma {:induction false} NumSpanExact(t: string, k: string)
    requires !StartsNum(k) && forall i :: 0 <= i < |t| ==> IsNumChar(t[i])
    ensures NumSpan(t + k) == (t, k)
  {
    if t == "" {
      assert t + k == k;
    } else {
      assert (t + k)[1..] == t[1..] + k;
      NumSpanExact(t[1..], k);
      assert [t[0]] + t[1..] == t;
    }
  }

  lemma AfterExact(c: char, k: string)
    ensures After([c] + k, c) == Some(k)
  {
    assert ([c] + k)[1..] == k;
  }

  lemma ReadItemExact(i: Item, k: string)
    requires GoodItem(i)
    ensures ReadItem(TextItem(i, k)) == Some((i, k))
    ensures TextItem(i, k)[0] != '\"'
  {
    var s := TextItem(i, k);
    match i
    case Plain(c) => assert s[1..] == k;
    case Short(c) => assert s[2..] == k;
    case Unit(h) => assert s[2..6] == h && s[6..] == k;
    case Pair(hi, lo) =>
      assert s[2..6] == hi && s[6] == '\\' && s[7] == 'u' && s[8..12] == lo && s[12..] == k;
  }

  lemma {:induction false} ReadItemsExact(items: seq<Item>, k: string)
    requires GoodItems(items)
    ensures ReadItems(TextItems(items, ['\"'] + k)) == Some((items, k))
  {
    if items == [] {
      AfterExact('\"', k);
    } else {
      ReadItemExact(items[0], TextItems(items[1..], ['\"'] + k));
      ReadItemsExact(items[1..], k);
      assert [items[0]] + items[1..] == items;
    }
  }

  lemma FirstChar(v: Value, k: string)
    requires Good(v)
    ensures TextValue(v, k) != "" && !IsBlank(TextValue(v, k)[0])
    ensures TextValue(v, k)[0] !in {']', '}', ',', ':'}
    ensures TextValue(v, k)[0] == '{' <==> v.Obj?
    ensures TextValue(v, k)[0] == '[' <==> v.Arr?
    ensures TextValue(v, k)[0] == '\"' <==> v.Str?
  {
  }

  lemma ReadWordExact(v: Value, k: string)
    requires Good(v) && (v.Lit? || v.Num?) && (v.Num? ==> !StartsNum(k))
    ensures ReadWord(TextValue(v, k)) == Some((v, k))
  {
    hide IsNumber;
    if v.Lit? {
      var s := v.word + k;
      assert v.word <= s && s[|v.word|..] == k;
      assert s[0] == v.word[0];
    } else {
      NumSpanExact(v.text, k);
    }
  }

  /** Reading the text of a value gives the value back and stops where it ends. */
  lemma {:induction false} ReadValueExact(v: Value, k: string)
    requires Good(v) && (v.Num? ==> !StartsNum(k))
    ensures ReadValue(TextValue(v, k)) == Some((v, k))
    decreases v
  {
    FirstChar(v, k);
    match v
    case Lit(_) => ReadWordExact(v, k);
    case Num(_) => ReadWordExact(v, k);
    case Str(items) =>
      AfterExact('\"', TextItems(items, ['\"'] + k));
      ReadItemsExact(items, k);
    case Arr(pad, es) => ReadArrExact(pad, es, k);
    case Obj(pad, ms) => ReadObjExact(pad, ms, k);
  }

  lemma {:induction false} ReadArrExact(pad: string, es: seq<Elem>, k: string)
    requires Good(Arr(pad, es))
    ensures ReadValue(TextValue(Arr(pad, es), k)) == Some((Arr(pad, es), k))
    decreases es, 1
  {
    if es == [] {
      AfterExact('[', pad + ([']'] + k));
      UnblankExact(pad, [']'] + k);
      AfterExact(']', k);
    } else {
      AfterExact('[', TextElems(es, [']'] + k));
      ElemsStart(es, [']'] + k);
      ReadElemsExact(es, k);
    }
  }

  lemma {:induction false} ReadObjExact(pad: string, ms: seq<Member>, k: string)
    requires Good(Obj(pad, ms))
    ensures ReadValue(TextValue(Obj(pad, ms), k)) == Some((Obj(pad, ms), k))
    decreases ms, 1
  {
    if ms == [] {
      AfterExact('{', pad + (['}'] + k));
      UnblankExact(pad, ['}'] + k);
      AfterExact('}', k);
    } else {
      AfterExact('{', TextMembers(ms, ['}'] + k));
      MembersStart(ms, ['}'] + k);
      ReadMembersExact(ms, k);
    }
  }

  lemma ElemsStart(es: seq<Elem>, k: string)
    requires es != [] && GoodElem(es[0])
    ensures After(Unblank(TextElems(es, k)).1, ']').None?
  {
    var k1 := if |es| == 1 then k else [','] + TextElems(es[1..], k);
    FirstChar(es[0].v, es[0].post + k1);
    UnblankExact(es[0].pre, TextValue(es[0].v, es[0].post + k1));
  }

  lemma MembersStart(ms: seq<Member>, k: string)
    requires ms != [] && GoodMember(ms[0])
    ensures After(Unblank(TextMembers(ms, k)).1, '}').None?
  {
    var m := ms[0];
    var k1 := if |ms| == 1 then k else [','] + TextMembers(ms[1..], k);
    UnblankExact(m.pre, TextStr(m.key, m.mid + ([':'] + (m.gap + TextValue(m.v, m.post + k1)))));
  }

  /** `k` can follow a value and the blanks after it. */
  predicate Delimits(k: string) { !StartsBlank(k) && !StartsNum(k) }

  lemma PostStops(post: string, k: string)
    requires Blanks(post) && Delimits(k)
    ensures !StartsNum(post + k)
  {
    if post == "" {
      assert post + k == k;
    }
  }

  lemma {:induction false} ReadElemExact(e: Elem, k: string)
    requires GoodElem(e) && Delimits(k)
    ensures ReadElem(TextElem(e, k)) == Some((e, k))
    decreases e, 0
  {
    FirstChar(e.v, e.post + k);
    UnblankExact(e.pre, TextValue(e.v, e.post + k));
    PostStops(e.post, k);
    ReadValueExact(e.v, e.post + k);
    UnblankExact(e.post, k);
  }

  lemma {:induction false} ReadElemsExact(es: seq<Elem>, k: string)
    requires es != [] && GoodElems(es)
    ensures ReadElems(TextElems(es, [']'] + k)) == Some((es, k))
    decreases es, 0
  {
    hide ReadElem;
    hide TextElem;
    hide GoodElem;
    if |es| == 1 {
      ReadElemExact(es[0], [']'] + k);
      AfterExact(']', k);
      assert [es[0]] == es;
    } else {
      var rest := TextElems(es[1..], [']'] + k);
      ReadElemExact(es[0], [','] + rest);
      AfterExact(',', rest);
      ReadElemsExact(es[1..], k);
      assert [es[0]] + es[1..] == es;
    }
  }

  lemma {:induction false} ReadMemberExact(m: Member, k: string)
    requires GoodMember(m) && Delimits(k)
    ensures ReadMember(TextMember(m, k)) == Some((m, k))
    decreases m, 0
  {
    var t4 := m.post + k;
    var t3 := m.gap + TextValue(m.v, t4);
    var t2 := m.mid + ([':'] + t3);
    FirstChar(m.v, t4);
    UnblankExact(m.pre, TextStr(m.key, t2));
    AfterExact('\"', TextItems(m.key, ['\"'] + t2));
    ReadItemsExact(m.key, t2);
    UnblankExact(m.mid, [':'] + t3);
    AfterExact(':', t3);
    UnblankExact(m.gap, TextValue(m.v, t4));
    PostStops(m.post, k);
    ReadValueExact(m.v, t4);
    UnblankExact(m.post, k);
  }

  lemma {:induction false} ReadMembersExact(ms: seq<Member>, k: string)
    requires ms != [] && GoodMembers(ms)
    ensures ReadMembers(TextMembers(ms, ['}'] + k)) == Some((ms, k))
    decreases ms, 0
  {
    hide ReadMember;
    hide TextMember;
    hide GoodMember;
    if |ms| == 1 {
      ReadMemberExact(ms[0], ['}'] + k);
      AfterExact('}', k);
      assert [ms[0]] == ms;
    } else {
      var rest := TextMembers(ms[1..], ['}'] + k);
      ReadMemberExact(ms[0], [','] + rest);
      AfterExact(',', rest);
      ReadMembersExact(ms[1..], k);
      assert [ms[0]] + ms[1..] == ms;
    }
  }

  /** `loads` inverts printing, whatever blanks surround the document. */
  lemma LoadsText(lead: string, v: Value, trail: string)
    requires Good(v) && Blanks(lead) && Blanks(trail)
    ensures ReadDocument(lead + TextValue(v, trail)) == Some(v)
    ensures Loads(lead + TextValue(v, trail)) == Some(Meaning(v))
  {
    FirstChar(v, trail);
    UnblankExact(lead, TextValue(v, trail));
    ReadValueExact(v, trail);
  }

  /** `loads` succeeds on the texts of the grammar and on no other. */
  lemma LoadsAcceptsExactlyTheGrammar(s: string)
    ensures Loads(s).Some? <==>
            exists lead, v, trail :: Blanks(lead) && Good(v) && Blanks(trail) && s == lead + TextValue(v, trail)
  {
    if Loads(s).Some? {
      var (lead, u) := Unblank(s);
      var (v, trail) := ReadValue(u).value;
      assert s == lead + TextValue(v, trail);
    }
    forall lead, v, trail | Blanks(lead) && Good(v) && Blanks(trail) && s == lead + TextValue(v, trail)
      ensures Loads(s).Some?
    {
      LoadsText(lead, v, trail);
    }
  }

  // ---- what a tree denotes, case by case --------------------------------------

  /** The literal names, numbers as their text, strings decoded, arrays element by element. */
  lemma MeaningOfEach(v: Value)
    requires Good(v)
    ensures v.Lit? ==> (v.word == "null" && Meaning(v) == JNull) || (v.word == "true" && Meaning(v) == JBool(true)) || (v.word == "false" && Meaning(v) == JBool(false))
    ensures v.Num? ==> Meaning(v) == JNum(v.text)
    ensures v.Str? ==> Meaning(v) == JStr(Decode(v.items))
    ensures v.Arr? ==> Meaning(v).JArr? && |Meaning(v).elems| == |v.elems| && forall i :: 0 <= i < |v.elems| ==> Meaning(v).elems[i] == Meaning(v.elems[i].v)
    ensures v.Obj? ==> Meaning(v) == JObj(Fields(v.members))
  {
    if v.Arr? {
      ElemMeanings(v.elems);
    }
  }

  lemma {:induction false} ElemMeanings(es: seq<Elem>)
    ensures |ElemsMeaning(es)| == |es| && forall i :: 0 <= i < |es| ==> ElemsMeaning(es)[i] == Meaning(es[i].v)
  {
    hide Meaning;
    if es != [] {
      ElemMeanings(es[1..]);
      forall i | 0 <= i < |es| ensures ElemsMeaning(es)[i] == Meaning(es[i].v) {
        if i > 0 {
          assert es[1..][i - 1] == es[i];
        }
      }
    }
  }

  /** A member that comes later wins over earlier ones of the same key, and leaves the others alone. */
  lemma {:induction false} LaterMemberWins(ms: seq<Member>, m: Member)
    ensures Fields(ms + [m]) == Fields(ms)[Decode(m.key) := Meaning(m.v)]
  {
    hide Meaning, Decode;
    if ms == [] {
      assert ms + [m] == [m] && [m][1..] == [];
    } else {
      assert (ms + [m])[1..] == ms[1..] + [m];
      LaterMemberWins(ms[1..], m);
    }
  }

  /** Section 7 of RFC 8259: a character is itself, a two-character escape its control character or itself. */
  lemma DecodeEach(items: seq<Item>, i: nat)
    requires i < |items|
    ensures |Decode(items)| == |items|
    ensures items[i].Plain? ==> Decode(items)[i] == items[i].c
    ensures items[i] == Short('n') ==> Decode(items)[i] as int == 10
    ensures items[i] == Short('r') ==> Decode(items)[i] as int == 13
    ensures items[i] == Short('t') ==> Decode(items)[i] as int == 9
    ensures items[i] == Short('b') ==> Decode(items)[i] as int == 8
    ensures items[i] == Short('f') ==> Decode(items)[i] as int == 12
    ensures items[i] == Short('\"') || items[i] == Short('\\') || items[i] == Short('/') ==> Decode(items)[i] == items[i].c
  {
  }

  /** The digit of a number below 16, in capitals or not. */
  function DigitOf(n: nat, capital: bool): char
    requires n < 16
  {
    if n < 10 then '0' + n as char else (if capital then 'A' else 'a') + (n - 10) as char
  }

  function Digits(n: nat, capital: bool): string
    requires n < 0x1_0000
  {
    [DigitOf(n / 16 / 16 / 16, capital), DigitOf(n / 16 / 16 % 16, capital), DigitOf(n / 16 % 16, capital), DigitOf(n % 16, capital)]
  }

  lemma DigitsAreHex(n: nat, capital: bool)
    requires n < 0x1_0000
    ensures IsHex4(Digits(n, capital)) && Hex4(Digits(n, capital)) == n
  {
    hide DigitOf, HexDigit, IsHex;
    OneDigit(n / 16 / 16 / 16, capital);
    OneDigit(n / 16 / 16 % 16, capital);
    OneDigit(n / 16 % 16, capital);
    OneDigit(n % 16, capital);
    FourDigits(n);
  }

  lemma FourDigits(n: nat)
    requires n < 0x1_0000
    ensures n == n / 16 / 16 / 16 * 4096 + n / 16 / 16 % 16 * 256 + n / 16 % 16 * 16 + n % 16
  {
    var p := n / 16;
    var q := p / 16;
    assert n == p * 16 + n % 16 && p == q * 16 + p % 16 && q == q / 16 * 16 + q % 16;
  }

  lemma OneDigit(x: nat, capital: bool)
    requires x < 16
    ensures IsHex(DigitOf(x, capital)) && HexDigit(DigitOf(x, capital)) == x
  {
  }

  /** Any character can be written by its number: one escape below 0x10000, and a surrogate pair above, decode to it. */
  lemma EscapeByNumber(c: char, capital: bool)
    ensures c as int < 0x1_0000 ==> GoodItem(Unit(Digits(c as int, capital))) && Decode([Unit(Digits(c as int, capital))]) == [c]
    ensures c as int >= 0x1_0000 ==>
              var k := c as int - 0x1_0000;
              var pair := Pair(Digits(0xD800 + k / 0x400, capital), Digits(0xDC00 + k % 0x400, capital));
              GoodItem(pair) && Decode([pair]) == [c]
  {
    var n := c as int;
    if n < 0x1_0000 {
      DigitsAreHex(n, capital);
    } else {
      var k := n - 0x1_0000;
      DigitsAreHex(0xD800 + k / 0x400, capital);
      DigitsAreHex(0xDC00 + k % 0x400, capital);
      assert k / 0x400 * 0x400 + k % 0x400 == k;
    }
  }

  // ---- tokens, without the scanner --------------------------------------------

  predicate AllDigits(s: string) { s != "" && forall i :: 0 <= i < |s| ==> '0' <= s[i] <= '9' }

  predicate FractionForm(s: string) { s == "" || (s[0] == '.' && AllDigits(s[1..])) }

  predicate ExponentForm(s: string) {
    s == "" || ((s[0] == 'e' || s[0] == 'E') && (AllDigits(s[1..]) || (|s| >= 2 && (s[1] == '+' || s[1] == '-') && AllDigits(s[2..]))))
  }

  predicate NumberForm(sign: string, whole: string, fraction: string, exponent: string) {
    (sign == "" || sign == "-") && AllDigits(whole) && (whole[0] == '0' ==> |whole| == 1) && FractionForm(fraction) && ExponentForm(exponent)
  }

  lemma {:induction false} DigitsLenOf(digits: string, rest: string)
    requires forall i :: 0 <= i < |digits| ==> IsDigit(digits[i])
    requires rest == "" || !IsDigit(rest[0])
    ensures DigitsLen(digits + rest) == |digits|
  {
    if digits == "" {
      assert digits + rest == rest;
    } else {
      assert (digits + rest)[1..] == digits[1..] + rest;
      DigitsLenOf(digits[1..], rest);
    }
  }

  lemma {:induction false} DigitsLenStops(s: string)
    ensures DigitsLen(s) < |s| ==> !IsDigit(s[DigitsLen(s)])
  {
    if s != "" && IsDigit(s[0]) {
      DigitsLenStops(s[1..]);
    }
  }

  lemma ExponentIff(s: string)
    ensures IsExponent(s) <==> ExponentForm(s)
  {
    if s != "" && (s[0] == 'e' || s[0] == 'E') {
      var u := s[1..];
      AllDigitsIff(u);
      if u != "" && (u[0] == '+' || u[0] == '-') {
        assert u[1..] == s[2..];
        AllDigitsIff(s[2..]);
      }
    }
  }

  lemma AllDigitsIff(s: string)
    ensures AllDigits(s) <==> s != "" && DigitsLen(s) == |s|
  {
    if AllDigits(s) {
      assert s + "" == s;
      DigitsLenOf(s, "");
    }
  }

  lemma TailSplits(s: string) returns (fraction: string, exponent: string)
    requires IsFractionAndExponent(s)
    ensures FractionForm(fraction) && ExponentForm(exponent) && s == fraction + exponent
  {
    hide ExponentForm, IsExponent, DigitsLen, AllDigits;
    if s != "" && s[0] == '.' {
      var digits := s[1..];
      var f := DigitsLen(digits);
      ExponentIff(digits[f..]);
      DigitsFront(digits);
      fraction, exponent := ['.'] + digits[..f], digits[f..];
      assert fraction[1..] == digits[..f];
      assert s == ['.'] + digits && digits == digits[..f] + digits[f..];
    } else {
      ExponentIff(s);
      fraction, exponent := "", s;
    }
  }

  lemma DigitsFront(s: string)
    requires DigitsLen(s) >= 1
    ensures AllDigits(s[..DigitsLen(s)])
  {
  }

  lemma TailJoins(fraction: string, exponent: string)
    requires FractionForm(fraction) && ExponentForm(exponent)
    ensures IsFractionAndExponent(fraction + exponent)
    ensures fraction + exponent != "" ==> (fraction + exponent)[0] == '.' || (fraction + exponent)[0] == 'e' || (fraction + exponent)[0] == 'E'
  {
    ExponentIff(exponent);
    if fraction == "" {
      assert fraction + exponent == exponent;
    } else {
      var digits := fraction[1..];
      DigitsLenOf(digits, exponent);
      hide ExponentForm, IsExponent, DigitsLen;
      assert (fraction + exponent)[1..] == digits + exponent;
      assert (digits + exponent)[|digits|..] == exponent;
    }
  }

  /** The sign and what is behind it. */
  lemma Unsigned(t: string) returns (sign: string, s: string)
    requires IsNumber(t)
    ensures (sign == "" || sign == "-") && t == sign + s
    ensures 1 <= DigitsLen(s) && (s[0] == '0' ==> DigitsLen(s) == 1) && IsFractionAndExponent(s[DigitsLen(s)..])
  {
    hide IsFractionAndExponent, DigitsLen;
    sign, s := if t[0] == '-' then "-" else "", if t[0] == '-' then t[1..] else t;
  }

  lemma NumberSplits(t: string) returns (sign: string, whole: string, fraction: string, exponent: string)
    requires IsNumber(t)
    ensures NumberForm(sign, whole, fraction, exponent) && t == sign + (whole + (fraction + exponent))
  {
    hide IsNumber, ExponentForm, FractionForm, IsFractionAndExponent, AllDigits, DigitsLen;
    var s: string;
    sign, s := Unsigned(t);
    var d := DigitsLen(s);
    DigitsFront(s);
    whole := s[..d];
    fraction, exponent := TailSplits(s[d..]);
    assert s == whole + s[d..] && whole[0] == s[0];
  }

  lemma NumberJoins(sign: string, whole: string, fraction: string, exponent: string)
    requires NumberForm(sign, whole, fraction, exponent)
    ensures IsNumber(sign + (whole + (fraction + exponent)))
  {
    var rest := fraction + exponent;
    var s := whole + rest;
    TailJoins(fraction, exponent);
    DigitsLenOf(whole, rest);
    hide ExponentForm, FractionForm, IsFractionAndExponent, DigitsLen;
    assert s[|whole|..] == rest;
    assert if sign == "" then sign + s == s else (sign + s)[0] == '-' && (sign + s)[1..] == s;
  }

  /** Section 6 of RFC 8259, on the parts: a number is a sign or none, digits without a leading zero, a fraction or none, and an
      exponent or none. */
  lemma NumberIff(t: string)
    ensures IsNumber(t) <==> exists sign, whole, fraction, exponent :: NumberForm(sign, whole, fraction, exponent) && t == sign + (whole + (fraction + exponent))
  {
    hide IsNumber, NumberForm;
    if IsNumber(t) {
      var sign, whole, fraction, exponent := NumberSplits(t);
    }
    forall sign, whole, fraction, exponent | NumberForm(sign, whole, fraction, exponent) && t == sign + (whole + (fraction + exponent))
      ensures IsNumber(t)
    {
      NumberJoins(sign, whole, fraction, exponent);
    }
  }

  /** Sections 2, 3 and 7 of RFC 8259: blanks, literal names, and what a string may hold. */
  lemma TokensAre(c: char, h: string)
    ensures IsBlank(c) <==> c as int == 0x20 || c as int == 0x09 || c as int == 0x0A || c as int == 0x0D
    ensures Good(Lit(h)) <==> h == "true" || h == "false" || h == "null"
    ensures GoodItem(Plain(c)) <==> c as int >= 0x20 && c as int != 0x22 && c as int != 0x5C
    ensures GoodItem(Short(c)) <==> c in ['\"', '\\', '/', 'b', 'f', 'n', 'r', 't']
    ensures GoodItem(Unit(h)) ==> |h| == 4 && forall i :: 0 <= i < 4 ==> '0' <= h[i] <= '9' || 'a' <= h[i] <= 'f' || 'A' <= h[i] <= 'F'
  {
  }
}
