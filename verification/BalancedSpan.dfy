/**
  core/json.py: the bracket-stack scanner and the extraction of a JSON document from
  free-form text.
 */
module BalancedSpan {
  import opened Json
  import opened Wrappers

  /** The scanner's variables: the closers still awaited, and the string state. */
  datatype Scan = Scan(stack: seq<char>, inString: bool, escaped: bool)

  const START := Scan([], false, false)

  function Closer(c: char): Option<char> {
    if c == '{' then Some('}') else if c == '[' then Some(']') else None
  }

  function Next(st: Scan, c: char): Scan {
    if st.inString then
      if st.escaped then st.(escaped := false)
      else if c == '\\' then st.(escaped := true)
      else if c == '\"' then st.(inString := false)
      else st
    else if c == '\"' then st.(inString := true)
    else if Closer(c).Some? then st.(stack := st.stack + [Closer(c).value])
    else if st.stack != [] && c == st.stack[|st.stack| - 1] then st.(stack := st.stack[..|st.stack| - 1])
    else st
  }

  predicate Closes(st: Scan, c: char) { st.stack != [] && Next(st, c).stack == [] }

  /** What follows the point where the stack first empties. */
  function Rest(st: Scan, s: string): (r: Option<string>)
    ensures r.Some? ==> |r.value| < |s| && r.value == s[|s| - |r.value|..]
    decreases |s|
  {
    if s == "" then None
    else if Closes(st, s[0]) then Some(s[1..])
    else Rest(Next(st, s[0]), s[1..])
  }

  /** The balanced span at the front of `s`. */
  function Span(s: string): Option<string> {
    var rest :- Rest(START, s);
    Some(s[..|s| - |rest|])
  }

  lemma RestEnd(st: Scan)
    ensures Rest(st, "") == None
  {
  }

  lemma RestStep(st: Scan, text: string, idx: nat)
    requires idx < |text|
    ensures Rest(st, text[idx..]) ==
            if Closes(st, text[idx]) then Some(text[idx + 1..]) else Rest(Next(st, text[idx]), text[idx + 1..])
  {
    assert text[idx..][1..] == text[idx + 1..];
  }

  /** `_balanced_span_from` */
  method BalancedSpanFrom(text: string, start: nat) returns (r: Option<string>)
    requires start <= |text|
    ensures r == Span(text[start..])
  {
    hide Rest;
    var stack: seq<char> := [];
    var inString := false;
    var escaped := false;
    var idx := start;
    ghost var s := text[start..];
    while idx < |text|
      invariant start <= idx <= |text|
      invariant Rest(START, s) == Rest(Scan(stack, inString, escaped), text[idx..])
    {
      var c := text[idx];
      RestStep(Scan(stack, inString, escaped), text, idx);
      if inString {
        if escaped {
          escaped := false;
        } else if c == '\\' {
          escaped := true;
        } else if c == '\"' {
          inString := false;
        }
      } else if c == '\"' {
        inString := true;
      } else if Closer(c).Some? {
        stack := stack + [Closer(c).value];
      } else if stack != [] && c == stack[|stack| - 1] {
        stack := stack[..|stack| - 1];
        if stack == [] {
          assert text[idx + 1..] == s[|s| - |text[idx + 1..]|..] && text[start..idx + 1] == s[..idx + 1 - start];
          return Some(text[start..idx + 1]);
        }
      }
      idx := idx + 1;
    }
    RestEnd(Scan(stack, inString, escaped));
    return None;
  }

  // ---- the scanner agrees with the grammar ------------------------------------

  predicate Awaiting(stack: seq<char>) {
    stack != [] && forall i :: 0 <= i < |stack| ==> stack[i] == '}' || stack[i] == ']'
  }

  predicate Between(st: Scan) { !st.inString && !st.escaped && Awaiting(st.stack) }

  lemma RestCons(st: Scan, c: char, k: string)
    ensures Rest(st, [c] + k) == if Closes(st, c) then Some(k) else Rest(Next(st, c), k)
  {
    assert ([c] + k)[1..] == k;
  }

  /** Characters that are neither quotes nor brackets leave the scanner where it is. */
  predicate Neutral(w: string) { forall i :: 0 <= i < |w| ==> w[i] !in {'\"', '{', '[', '}', ']'} }

  lemma {:induction false} RestNeutral(st: Scan, w: string, k: string)
    requires Between(st) && Neutral(w)
    ensures Rest(st, w + k) == Rest(st, k)
  {
    if w == "" {
      assert w + k == k;
    } else {
      assert w + k == [w[0]] + (w[1..] + k);
      RestCons(st, w[0], w[1..] + k);
      RestNeutral(st, w[1..], k);
    }
  }

  predicate Quiet(w: string) { forall i :: 0 <= i < |w| ==> w[i] != '\"' && w[i] != '\\' }

  lemma {:induction false} RestInString(st: Scan, w: string, k: string)
    requires st.inString && !st.escaped && Awaiting(st.stack) && Quiet(w)
    ensures Rest(st, w + k) == Rest(st, k)
  {
    if w == "" {
      assert w + k == k;
    } else {
      assert w + k == [w[0]] + (w[1..] + k);
      RestCons(st, w[0], w[1..] + k);
      RestInString(st, w[1..], k);
    }
  }

  lemma RestItem(st: Scan, i: Item, k: string)
    requires st.inString && !st.escaped && Awaiting(st.stack) && GoodItem(i)
    ensures Rest(st, TextItem(i, k)) == Rest(st, k)
  {
    hide Rest;
    hide Next;
    hide Closes;
    match i
    case Plain(c) => RestInString(st, [c], k);
    case Short(c) => RestEscape(st, c, k);
    case Unit(h) =>
      RestEscape(st, 'u', h + k);
      RestInString(st, h, k);
    case Pair(hi, lo) =>
      RestEscape(st, 'u', hi + (['\\', 'u'] + (lo + k)));
      RestInString(st, hi, ['\\', 'u'] + (lo + k));
      RestEscape(st, 'u', lo + k);
      RestInString(st, lo, k);
  }

  lemma RestEscape(st: Scan, c: char, k: string)
    requires st.inString && !st.escaped && Awaiting(st.stack)
    ensures Rest(st, ['\\', c] + k) == Rest(st, k)
  {
    assert ['\\', c] + k == ['\\'] + ([c] + k);
    RestCons(st, '\\', [c] + k);
    RestCons(st.(escaped := true), c, k);
  }

  lemma {:induction false} RestItems(st: Scan, items: seq<Item>, k: string)
    requires st.inString && !st.escaped && Awaiting(st.stack) && GoodItems(items)
    ensures Rest(st, TextItems(items, k)) == Rest(st, k)
  {
    hide Rest;
    if items != [] {
      RestItem(st, items[0], TextItems(items[1..], k));
      RestItems(st, items[1..], k);
    }
  }

  lemma RestStr(st: Scan, items: seq<Item>, k: string)
    requires Between(st) && GoodItems(items)
    ensures Rest(st, TextStr(items, k)) == Rest(st, k)
  {
    hide Rest;
    RestCons(st, '\"', TextItems(items, ['\"'] + k));
    RestItems(st.(inString := true), items, ['\"'] + k);
    RestCons(st.(inString := true), '\"', k);
  }

  /** Inside a container a whole value returns the scanner to the state before it. */
  lemma {:induction false} RestValue(st: Scan, v: Value, k: string)
    requires Between(st) && Good(v)
    ensures Rest(st, TextValue(v, k)) == Rest(st, k)
    decreases v
  {
    hide Rest;
    match v
    case Lit(w) => RestNeutral(st, w, k);
    case Num(t) => RestNeutral(st, t, k);
    case Str(items) => RestStr(st, items, k);
    case Arr(_, _) => RestContainer(st, v, k);
    case Obj(_, _) => RestContainer(st, v, k);
  }

  predicate Container(v: Value) { v.Arr? || v.Obj? }

  /** A container pushes its closer and pops it again; from the empty stack that closes the span. */
  lemma {:induction false} RestContainer(st: Scan, v: Value, k: string)
    requires !st.inString && !st.escaped && (st.stack == [] || Awaiting(st.stack)) && Good(v) && Container(v)
    ensures Rest(st, TextValue(v, k)) == if st.stack == [] then Some(k) else Rest(st, k)
    decreases v, 0
  {
    hide Rest;
    hide Next;
    hide Closes;
    match v
    case Arr(pad, es) =>
      if es == [] {
        RestPush(st, '[', ']', pad + ([']'] + k));
        RestNeutral(Pushed(st, ']'), pad, [']'] + k);
      } else {
        RestPush(st, '[', ']', TextElems(es, [']'] + k));
        RestElems(Pushed(st, ']'), es, [']'] + k);
      }
      RestPop(st, ']', k);
    case Obj(pad, ms) =>
      if ms == [] {
        RestPush(st, '{', '}', pad + (['}'] + k));
        RestNeutral(Pushed(st, '}'), pad, ['}'] + k);
      } else {
        RestPush(st, '{', '}', TextMembers(ms, ['}'] + k));
        RestMembers(Pushed(st, '}'), ms, ['}'] + k);
      }
      RestPop(st, '}', k);
  }

  lemma RestPush(st: Scan, open: char, close: char, k: string)
    requires !st.inString && !st.escaped && Closer(open) == Some(close)
    ensures Rest(st, [open] + k) == Rest(Pushed(st, close), k)
  {
    hide Rest;
    RestCons(st, open, k);
  }

  function Pushed(st: Scan, close: char): Scan { st.(stack := st.stack + [close]) }

  lemma NextPop(st: Scan, close: char)
    requires !st.inString && !st.escaped && (close == ']' || close == '}')
    ensures Next(Pushed(st, close), close) == st
  {
    var stack := st.stack + [close];
    assert stack[|stack| - 1] == close && stack[..|stack| - 1] == st.stack;
  }

  lemma RestPop(st: Scan, close: char, k: string)
    requires !st.inString && !st.escaped && (close == ']' || close == '}')
    ensures Rest(Pushed(st, close), [close] + k) == if st.stack == [] then Some(k) else Rest(st, k)
  {
    hide Rest;
    hide Next;
    NextPop(st, close);
    RestCons(Pushed(st, close), close, k);
  }

  lemma {:induction false} RestElems(st: Scan, es: seq<Elem>, k: string)
    requires Between(st) && es != [] && GoodElems(es)
    ensures Rest(st, TextElems(es, k)) == Rest(st, k)
    decreases es
  {
    hide Rest;
    var e := es[0];
    var k1 := if |es| == 1 then k else [','] + TextElems(es[1..], k);
    RestNeutral(st, e.pre, TextValue(e.v, e.post + k1));
    RestValue(st, e.v, e.post + k1);
    RestNeutral(st, e.post, k1);
    if |es| > 1 {
      RestNeutral(st, [','], TextElems(es[1..], k));
      RestElems(st, es[1..], k);
    }
  }

  lemma {:induction false} RestMember(st: Scan, m: Member, k: string)
    requires Between(st) && GoodMember(m)
    ensures Rest(st, TextMember(m, k)) == Rest(st, k)
    decreases m
  {
    hide Rest;
    var t3 := m.gap + TextValue(m.v, m.post + k);
    RestNeutral(st, m.pre, TextStr(m.key, m.mid + ([':'] + t3)));
    RestStr(st, m.key, m.mid + ([':'] + t3));
    RestNeutral(st, m.mid, [':'] + t3);
    RestNeutral(st, [':'], t3);
    RestNeutral(st, m.gap, TextValue(m.v, m.post + k));
    RestValue(st, m.v, m.post + k);
    RestNeutral(st, m.post, k);
  }

  lemma {:induction false} RestMembers(st: Scan, ms: seq<Member>, k: string)
    requires Between(st) && ms != [] && GoodMembers(ms)
    ensures Rest(st, TextMembers(ms, k)) == Rest(st, k)
    decreases ms
  {
    if |ms| == 1 {
      RestMember(st, ms[0], k);
    } else {
      RestMember(st, ms[0], [','] + TextMembers(ms[1..], k));
      RestNeutral(st, [','], TextMembers(ms[1..], k));
      RestMembers(st, ms[1..], k);
    }
  }

  /** Text that has not yet reached the closing bracket has no balanced span. */
  lemma {:induction false} RestOfPrefix(st: Scan, s: string, n: nat)
    requires n <= |s| && Rest(st, s).Some?
    ensures n < |s| - |Rest(st, s).value| ==> Rest(st, s[..n]) == None
    decreases |s|
  {
    if n > 0 && !Closes(st, s[0]) {
      assert s[..n][1..] == s[1..][..n - 1];
      RestOfPrefix(Next(st, s[0]), s[1..], n - 1);
    }
  }

  /** Scanning from the opening bracket of a container returns exactly the container. */
  lemma SpanOfContainer(v: Value, k: string)
    requires Good(v) && Container(v)
    ensures Rest(START, TextValue(v, k)) == Some(k)
    ensures Span(TextValue(v, k)) == Some(Text(v))
  {
    RestContainer(START, v, k);
    TextAppend(v, k);
  }

  /** A truncated container has no span at all. */
  lemma SpanOfTruncated(v: Value, n: nat)
    requires Good(v) && Container(v) && n < |Text(v)|
    ensures Span(Text(v)[..n]) == None
  {
    SpanOfContainer(v, "");
    RestOfPrefix(START, Text(v), n);
  }

  // ---- extraction --------------------------------------------------------------

  predicate Opens(c: char, arrays: bool) { c == '{' || (arrays && c == '[') }

  /** The successive top-level spans of `s`, up to the first opener that never closes. */
  function Spans(s: string, arrays: bool): seq<string>
    decreases |s|
  {
    if s == "" then []
    else if !Opens(s[0], arrays) then Spans(s[1..], arrays)
    else
      match Rest(START, s)
      case None => []
      case Some(rest) => [s[..|s| - |rest|]] + Spans(rest, arrays)
  }

  function LastParseable(spans: seq<string>): Option<string> {
    if spans == [] then None
    else
      var last := spans[|spans| - 1];
      if Loads(last).Some? then Some(last) else LastParseable(spans[..|spans| - 1])
  }

  function Last(spans: seq<string>): Option<string> {
    if spans == [] then None else Some(spans[|spans| - 1])
  }

  /** The last span that parses, or the last span when none does. */
  function Chosen(spans: seq<string>): Option<string> {
    if LastParseable(spans).Some? then LastParseable(spans) else Last(spans)
  }

  lemma SpansStep(s: string, arrays: bool)
    requires s != "" && Opens(s[0], arrays)
    ensures Span(s).None? ==> Spans(s, arrays) == []
    ensures Span(s).Some? ==>
              && 0 < |Span(s).value| <= |s|
              && Spans(s, arrays) == [Span(s).value] + Spans(s[|Span(s).value|..], arrays)
  {
    hide Rest;
    var rest := Rest(START, s);
    if rest.Some? {
      var span := s[..|s| - |rest.value|];
      assert Span(s) == Some(span) && s[|span|..] == rest.value;
    }
  }

  lemma SpansSkip(text: string, idx: nat, arrays: bool)
    requires idx < |text| && !Opens(text[idx], arrays)
    ensures Spans(text[idx..], arrays) == Spans(text[idx + 1..], arrays)
  {
    assert text[idx..][1..] == text[idx + 1..];
  }

  lemma SpansEnd(arrays: bool)
    ensures Spans("", arrays) == []
  {
  }

  lemma ChosenStep(done: seq<string>, span: string)
    ensures LastParseable(done + [span]) == if Loads(span).Some? then Some(span) else LastParseable(done)
    ensures Last(done + [span]) == Some(span)
  {
    assert (done + [span])[..|done|] == done;
  }

  lemma ChosenNone()
    ensures LastParseable([]) == None && Last([]) == None
  {
  }

  /** `extract_balanced_json_text` */
  method ExtractBalancedJsonText(text: string, arrays: bool) returns (r: Option<string>)
    ensures r == Chosen(Spans(text, arrays))
    ensures !arrays && r.Some? ==> Delimited(r.value, '{', '}')
  {
    hide Rest;
    hide Loads;
    hide Span;
    hide Delimited;
    ExtractedWithoutArrays(text, arrays);
    hide Spans;
    hide LastParseable;
    var lastParseable: Option<string> := None;
    var lastBalanced: Option<string> := None;
    var idx := 0;
    ghost var done: seq<string> := [];
    assert text[0..] == text && [] + Spans(text, arrays) == Spans(text, arrays);
    ChosenNone();
    while idx < |text|
      invariant idx <= |text|
      invariant lastParseable == LastParseable(done) && lastBalanced == Last(done)
      invariant Spans(text, arrays) == done + Spans(text[idx..], arrays)
    {
      ghost var s := text[idx..];
      if !Opens(text[idx], arrays) {
        SpansSkip(text, idx, arrays);
        idx := idx + 1;
        continue;
      }
      SpansStep(s, arrays);
      var found := BalancedSpanFrom(text, idx);
      if found.None? {
        assert done + [] == done;
        return if lastParseable.Some? then lastParseable else lastBalanced;
      }
      var span := found.value;
      ChosenStep(done, span);
      lastBalanced := Some(span);
      if Loads(span).Some? {
        lastParseable := Some(span);
      }
      assert s[|span|..] == text[idx + |span|..];
      assert done + ([span] + Spans(s[|span|..], arrays)) == (done + [span]) + Spans(s[|span|..], arrays);
      done := done + [span];
      idx := idx + |span|;
    }
    SpansEnd(arrays);
    assert text[idx..] == "" && done + [] == done;
    return if lastParseable.Some? then lastParseable else lastBalanced;
  }

  /** Prose, then a document. */
  datatype Chunk = Chunk(prose: string, doc: Value)

  predicate Proselike(w: string, arrays: bool) { forall i :: 0 <= i < |w| ==> !Opens(w[i], arrays) }

  function Render(chunks: seq<Chunk>, tail: string): string {
    if chunks == [] then tail else chunks[0].prose + TextValue(chunks[0].doc, Render(chunks[1..], tail))
  }

  lemma SpansDocument(v: Value, k: string, arrays: bool)
    requires Good(v) && (v.Obj? || (arrays && v.Arr?))
    ensures Spans(TextValue(v, k), arrays) == [Text(v)] + Spans(k, arrays)
  {
    hide Good, Text, TextValue, Rest;
    SpanOfContainer(v, k);
    FirstChar(v, k);
  }

  // ---- prose with brackets of its own ------------------------------------------

  /** The loop, run on the prose alone, meets no opener that never closes. */
  predicate Settled(s: string, arrays: bool)
    decreases |s|
  {
    if s == "" then true
    else if !Opens(s[0], arrays) then Settled(s[1..], arrays)
    else
      match Rest(START, s)
      case None => false
      case Some(rest) => Settled(rest, arrays)
  }

  /** Where the spans of `s` start, when `s` itself starts at `at`. */
  function Starts(s: string, arrays: bool, at: nat): seq<nat>
    decreases |s|
  {
    if s == "" then []
    else if !Opens(s[0], arrays) then Starts(s[1..], arrays, at + 1)
    else
      match Rest(START, s)
      case None => []
      case Some(rest) => [at] + Starts(rest, arrays, at + |s| - |rest|)
  }

  predicate SpanAt(s: string, start: int, span: string) {
    0 <= start <= |s| && |span| <= |s| - start && s[start..][..|span|] == span
  }

  lemma SpanBehind(s: string, rest: string, start: int, span: string)
    requires |rest| <= |s| && rest == s[|s| - |rest|..] && SpanAt(rest, start, span)
    ensures SpanAt(s, start + |s| - |rest|, span)
  {
    assert s[start + |s| - |rest|..] == rest[start..];
  }

  /** There is one start for each span, and the span is the text there. */
  lemma {:induction false} SpansAreAtStarts(s: string, arrays: bool, at: nat)
    ensures |Starts(s, arrays, at)| == |Spans(s, arrays)|
    ensures forall i :: 0 <= i < |Spans(s, arrays)| ==> SpanAt(s, Starts(s, arrays, at)[i] - at, Spans(s, arrays)[i])
    ensures forall x :: x in Starts(s, arrays, at) ==> x >= at
    decreases |s|
  {
    hide SpanAt;
    if s != "" && !Opens(s[0], arrays) {
      SpansAreAtStarts(s[1..], arrays, at + 1);
      forall i | 0 <= i < |Spans(s, arrays)| ensures SpanAt(s, Starts(s, arrays, at)[i] - at, Spans(s, arrays)[i]) {
        SpanBehind(s, s[1..], Starts(s, arrays, at)[i] - at - 1, Spans(s, arrays)[i]);
      }
    } else if s != "" && Rest(START, s).Some? {
      hide Rest;
      var rest := Rest(START, s).value;
      SpansAreAtStarts(rest, arrays, at + |s| - |rest|);
      forall i | 0 <= i < |Spans(s, arrays)| ensures SpanAt(s, Starts(s, arrays, at)[i] - at, Spans(s, arrays)[i]) {
        if i == 0 {
          FrontSpan(s, |s| - |rest|);
        } else {
          SpanBehind(s, rest, Starts(s, arrays, at)[i] - at - |s| + |rest|, Spans(s, arrays)[i]);
        }
      }
    }
  }

  lemma FrontSpan(s: string, n: nat)
    requires n <= |s|
    ensures SpanAt(s, 0, s[..n])
  {
    assert s[0..] == s;
  }

  /** The scanner after a text in which nothing closed. */
  function Scanned(st: Scan, s: string): Scan
    decreases |s|
  {
    if s == "" then st else Scanned(Next(st, s[0]), s[1..])
  }

  /** A scan that ended in a text ends there whatever follows; one that did not goes on. */
  lemma {:induction false} RestAppend(st: Scan, s: string, t: string)
    ensures Rest(st, s).Some? ==> Rest(st, s + t) == Some(Rest(st, s).value + t)
    ensures Rest(st, s).None? ==> Rest(st, s + t) == Rest(Scanned(st, s), t)
    decreases |s|
  {
    hide Next, Closes;
    if s == "" {
      assert s + t == t;
    } else {
      assert (s + t)[0] == s[0] && (s + t)[1..] == s[1..] + t;
      if !Closes(st, s[0]) {
        RestAppend(Next(st, s[0]), s[1..], t);
      }
    }
  }

  /** One turn of the loop, on spans. */
  lemma SpansTurn(s: string, arrays: bool)
    requires s != ""
    ensures !Opens(s[0], arrays) ==> Spans(s, arrays) == Spans(s[1..], arrays)
    ensures Opens(s[0], arrays) && Rest(START, s).None? ==> Spans(s, arrays) == []
    ensures Opens(s[0], arrays) && Rest(START, s).Some? ==>
              var rest := Rest(START, s).value;
              Spans(s, arrays) == [s[..|s| - |rest|]] + Spans(rest, arrays)
  {
    hide Rest;
  }

  /** The first span of a text is the first span of a longer one. */
  lemma FirstSpanAppend(s: string, t: string, arrays: bool)
    requires s != "" && Opens(s[0], arrays) && Rest(START, s).Some?
    ensures var rest := Rest(START, s).value;
            && Spans(s, arrays) == [s[..|s| - |rest|]] + Spans(rest, arrays)
            && Spans(s + t, arrays) == [s[..|s| - |rest|]] + Spans(rest + t, arrays)
  {
    hide Rest, Spans;
    RestAppend(START, s, t);
    SpansTurn(s, arrays);
    SpansTurn(s + t, arrays);
    var n := |s| - |Rest(START, s).value|;
    assert (s + t)[..n] == s[..n];
  }

  lemma {:induction false} SpansAppend(prose: string, t: string, arrays: bool)
    requires Settled(prose, arrays)
    ensures Spans(prose + t, arrays) == Spans(prose, arrays) + Spans(t, arrays)
    decreases |prose|
  {
    hide Rest, Spans;
    if prose == "" {
      assert prose + t == t;
      SpansEnd(arrays);
    } else if !Opens(prose[0], arrays) {
      SpansTurn(prose, arrays);
      SpansTurn(prose + t, arrays);
      assert (prose + t)[1..] == prose[1..] + t;
      SpansAppend(prose[1..], t, arrays);
    } else {
      var rest := Rest(START, prose).value;
      FirstSpanAppend(prose, t, arrays);
      SpansAppend(rest, t, arrays);
      Regroup([prose[..|prose| - |rest|]], Spans(rest, arrays), Spans(t, arrays));
    }
  }

  lemma Regroup(a: seq<string>, b: seq<string>, c: seq<string>)
    ensures a + (b + c) == (a + b) + c
  {
  }

  predicate SettledChunk(c: Chunk, arrays: bool) {
    Settled(c.prose, arrays) && Good(c.doc) && (c.doc.Obj? || (arrays && c.doc.Arr?))
  }

  /** The spans of the prose and the documents, in order. */
  function ChunkSpans(chunks: seq<Chunk>, arrays: bool): seq<string> {
    if chunks == [] then [] else Spans(chunks[0].prose, arrays) + ([Text(chunks[0].doc)] + ChunkSpans(chunks[1..], arrays))
  }

  /** The spans of documents between settled prose are the documents and what the prose itself holds, in order. */
  lemma {:induction false} SpansOfRender(chunks: seq<Chunk>, tail: string, arrays: bool)
    requires forall i :: 0 <= i < |chunks| ==> SettledChunk(chunks[i], arrays)
    ensures Spans(Render(chunks, tail), arrays) == ChunkSpans(chunks, arrays) + Spans(tail, arrays)
  {
    hide Rest, Good, TextValue, Spans, Settled;
    if chunks != [] {
      var k := Render(chunks[1..], tail);
      assert SettledChunk(chunks[0], arrays);
      SpansOfRender(chunks[1..], tail, arrays);
      SpansAppend(chunks[0].prose, TextValue(chunks[0].doc, k), arrays);
      SpansDocument(chunks[0].doc, k, arrays);
      var a, d, m, t := Spans(chunks[0].prose, arrays), [Text(chunks[0].doc)], ChunkSpans(chunks[1..], arrays), Spans(tail, arrays);
      Regroup(d, m, t);
      Regroup(a, d + m, t);
    }
  }

  /** Opener-free prose holds no span, so between such prose the spans are the documents. */
  lemma {:induction false} OnlyDocuments(chunks: seq<Chunk>, arrays: bool)
    requires forall i :: 0 <= i < |chunks| ==> Proselike(chunks[i].prose, arrays)
    ensures |ChunkSpans(chunks, arrays)| == |chunks|
    ensures forall i :: 0 <= i < |chunks| ==> ChunkSpans(chunks, arrays)[i] == Text(chunks[i].doc)
  {
    hide Rest, TextValue;
    if chunks != [] {
      OnlyDocuments(chunks[1..], arrays);
      ProseHasNoSpan(chunks[0].prose, arrays);
      assert [] + ([Text(chunks[0].doc)] + ChunkSpans(chunks[1..], arrays)) == [Text(chunks[0].doc)] + ChunkSpans(chunks[1..], arrays);
    }
  }

  lemma {:induction false} ProseHasNoSpan(w: string, arrays: bool)
    requires Proselike(w, arrays)
    ensures Spans(w, arrays) == [] && Settled(w, arrays)
    decreases |w|
  {
    if w != "" {
      ProseHasNoSpan(w[1..], arrays);
    }
  }

  lemma {:induction false} ChunkSpansEnd(chunks: seq<Chunk>, arrays: bool)
    requires chunks != []
    ensures Last(ChunkSpans(chunks, arrays)) == Some(Text(chunks[|chunks| - 1].doc))
  {
    hide Spans, TextValue;
    if |chunks| > 1 {
      ChunkSpansEnd(chunks[1..], arrays);
    }
  }

  /** What may follow the last document: settled prose none of whose spans parses, and perhaps a document that was cut short. */
  predicate TailOf(tail: string, prose: string, cutDoc: Value, n: nat, arrays: bool) {
    && Settled(prose, arrays) && LastParseable(Spans(prose, arrays)).None? && Good(cutDoc) && Container(cutDoc)
    && n < |Text(cutDoc)| && (n > 0 ==> Opens(Text(cutDoc)[0], arrays))
    && tail == prose + Text(cutDoc)[..n]
  }

  lemma SpansTail(tail: string, prose: string, cutDoc: Value, n: nat, arrays: bool)
    requires TailOf(tail, prose, cutDoc, n, arrays)
    ensures Spans(tail, arrays) == Spans(prose, arrays)
  {
    hide Rest, Good, TextValue, Settled, Spans;
    var cut := Text(cutDoc)[..n];
    SpansAppend(prose, cut, arrays);
    if n > 0 {
      SpanOfTruncated(cutDoc, n);
      SpansStep(cut, arrays);
    } else {
      SpansEnd(arrays);
    }
    assert Spans(prose, arrays) + [] == Spans(prose, arrays);
  }

  lemma {:induction false} LastParseableBefore(front: seq<string>, behind: seq<string>)
    requires LastParseable(behind).None?
    ensures LastParseable(front + behind) == LastParseable(front)
    decreases |behind|
  {
    hide Loads;
    if behind == [] {
      assert front + behind == front;
    } else {
      var shorter := behind[..|behind| - 1];
      assert (front + behind)[..|front + behind| - 1] == front + shorter;
      LastParseableBefore(front, shorter);
    }
  }

  /** Between settled prose, extraction returns the last complete document, whatever unparseable brackets follow it and even
      when another document is cut off after it; without a document, the last balanced span of the prose. */
  lemma ExtractionReturnsLastDocument(chunks: seq<Chunk>, tail: string, prose: string, cutDoc: Value, n: nat, arrays: bool)
    requires forall i :: 0 <= i < |chunks| ==> SettledChunk(chunks[i], arrays)
    requires TailOf(tail, prose, cutDoc, n, arrays)
    ensures Chosen(Spans(Render(chunks, tail), arrays)) ==
            if chunks == [] then Last(Spans(prose, arrays)) else Some(Text(chunks[|chunks| - 1].doc))
  {
    hide Loads, Rest, Settled, Good, Spans, TextValue;
    SpansTail(tail, prose, cutDoc, n, arrays);
    SpansOfRender(chunks, tail, arrays);
    var front, behind := ChunkSpans(chunks, arrays), Spans(prose, arrays);
    LastParseableBefore(front, behind);
    if chunks == [] {
      assert front + behind == behind;
    } else {
      var doc := chunks[|chunks| - 1].doc;
      assert SettledChunk(chunks[|chunks| - 1], arrays);
      ChunkSpansEnd(chunks, arrays);
      LoadsText("", doc, "");
      assert "" + TextValue(doc, "") == Text(doc);
    }
  }

  /** After any settled prose, code and set notation included, the document is the last span and is what extraction returns. */
  lemma SettledProseKeepsDocument(prose: string, v: Value, arrays: bool)
    requires Settled(prose, arrays) && Good(v) && (v.Obj? || (arrays && v.Arr?))
    ensures Spans(prose + Text(v), arrays) == Spans(prose, arrays) + [Text(v)]
    ensures Chosen(Spans(prose + Text(v), arrays)) == Some(Text(v))
  {
    hide Rest, Loads, Good, TextValue;
    SpansAppend(prose, Text(v), arrays);
    SpansDocument(v, "", arrays);
    SpansEnd(arrays);
    assert [Text(v)] + [] == [Text(v)];
    LoadsText("", v, "");
    assert "" + TextValue(v, "") == Text(v);
  }

  /** One turn of the loop, on starts. */
  lemma StartsStep(s: string, arrays: bool, at: nat)
    requires s != ""
    ensures !Opens(s[0], arrays) ==> Starts(s, arrays, at) == Starts(s[1..], arrays, at + 1)
    ensures Opens(s[0], arrays) && Rest(START, s).None? ==> Starts(s, arrays, at) == []
    ensures Opens(s[0], arrays) && Rest(START, s).Some? ==>
              var rest := Rest(START, s).value;
              Starts(s, arrays, at) == [at] + Starts(rest, arrays, at + |s| - |rest|)
  {
    hide Rest;
  }

  lemma {:induction false} VisitedIffSettled(prose: string, t: string, arrays: bool, at: nat)
    requires t != "" && Opens(t[0], arrays) && Rest(START, t).Some?
    ensures at + |prose| in Starts(prose + t, arrays, at) <==> Settled(prose, arrays)
    decreases |prose|
  {
    hide Rest, Starts;
    StartsStep(prose + t, arrays, at);
    if prose == "" {
      assert prose + t == t;
    } else if !Opens(prose[0], arrays) {
      assert (prose + t)[1..] == prose[1..] + t;
      VisitedIffSettled(prose[1..], t, arrays, at + 1);
    } else {
      RestAppend(START, prose, t);
      if Rest(START, prose).Some? {
        var rest := Rest(START, prose).value;
        VisitedIffSettled(rest, t, arrays, at + |prose| - |rest|);
      } else if Rest(START, prose + t).Some? {
        var rest := Rest(START, prose + t).value;
        SpansAreAtStarts(rest, arrays, at + |prose + t| - |rest|);
      }
    }
  }

  /**
    "Every candidate opening position" (the docstring) is not what is scanned: the loop stops at the first opener
    that never closes.  After any prose at all, the document's own position is visited exactly when the prose is settled.
   */
  lemma DocumentVisitedIffProseSettled(prose: string, v: Value, arrays: bool)
    requires Good(v) && (v.Obj? || (arrays && v.Arr?))
    ensures |prose| in Starts(prose + Text(v), arrays, 0) <==> Settled(prose, arrays)
  {
    hide Rest, Good, TextValue, Starts, Settled, Span;
    SpanOfContainer(v, "");
    FirstChar(v, "");
    VisitedIffSettled(prose, Text(v), arrays, 0);
  }

  /** An opener in front of any document hides it, and extraction returns nothing. */
  lemma OpenerHidesDocument(v: Value, arrays: bool)
    requires Good(v)
    ensures Chosen(Spans("{" + Text(v), arrays)) == None
  {
    hide Rest, Good, TextValue;
    OpenerAlone(arrays);
    UnsettledProseLosesDocument("{", v, arrays);
    ChosenNone();
  }

  lemma OpenerAlone(arrays: bool)
    ensures !Settled("{", arrays) && Spans("{", arrays) == []
  {
    assert Rest(START, "{") == Rest(Next(START, '{'), "") == None;
  }

  predicate QuoteFree(w: string) { forall i :: 0 <= i < |w| ==> w[i] != '\"' }

  /** A text after which an open bracket is still open. */
  ghost predicate Inert(t: string) { forall st :: Between(st) ==> Rest(st, t) == None }

  lemma TextIsInert(v: Value)
    requires Good(v)
    ensures Inert(Text(v))
  {
    hide Rest;
    forall st | Between(st)
      ensures Rest(st, Text(v)) == None
    {
      RestValue(st, v, "");
      RestEnd(st);
    }
  }

  lemma {:induction false} ScannedBetween(st: Scan, w: string)
    requires Between(st) && QuoteFree(w) && Rest(st, w).None?
    ensures Between(Scanned(st, w))
    decreases |w|
  {
    if w != "" {
      ScannedBetween(Next(st, w[0]), w[1..]);
    }
  }

  /** After prose without quotes the document is one more span exactly when the prose is settled; otherwise no span is added. */
  lemma {:induction false} SpansGainDocumentIffSettled(prose: string, v: Value, arrays: bool)
    requires QuoteFree(prose) && Good(v) && (v.Obj? || (arrays && v.Arr?))
    ensures Spans(prose + Text(v), arrays) == Spans(prose, arrays) + [Text(v)] <==> Settled(prose, arrays)
    ensures !Settled(prose, arrays) ==> Spans(prose + Text(v), arrays) == Spans(prose, arrays)
    decreases |prose|
  {
    if Settled(prose, arrays) {
      SettledProseKeepsDocument(prose, v, arrays);
    } else {
      UnsettledProseLosesDocument(prose, v, arrays);
    }
  }

  lemma {:induction false} UnsettledProseLosesDocument(prose: string, v: Value, arrays: bool)
    requires QuoteFree(prose) && Good(v) && !Settled(prose, arrays)
    ensures Spans(prose + Text(v), arrays) == Spans(prose, arrays)
    decreases |prose|
  {
    hide Good, TextValue, Rest;
    var t := Text(v);
    if !Opens(prose[0], arrays) {
      assert (prose + t)[1..] == prose[1..] + t;
      UnsettledProseLosesDocument(prose[1..], v, arrays);
    } else {
      RestAppend(START, prose, t);
      if Rest(START, prose).Some? {
        var rest := Rest(START, prose).value;
        assert QuoteFree(rest);
        UnsettledProseLosesDocument(rest, v, arrays);
        assert (prose + t)[..|prose| - |rest|] == prose[..|prose| - |rest|];
      } else {
        OpenerScanned(prose, arrays);
        TextIsInert(v);
      }
    }
  }

  lemma OpenerScanned(w: string, arrays: bool)
    requires w != "" && Opens(w[0], arrays) && QuoteFree(w) && Rest(START, w).None?
    ensures Between(Scanned(START, w))
  {
    ScannedBetween(Next(START, w[0]), w[1..]);
  }

  // ---- what a span looks like --------------------------------------------------

  lemma NextKeepsBottom(st: Scan, c: char)
    requires st.stack != []
    ensures if Closes(st, c) then c == st.stack[0] else Next(st, c).stack != [] && Next(st, c).stack[0] == st.stack[0]
  {
  }

  lemma {:induction false} RestClosesBottom(st: Scan, s: string)
    requires st.stack != [] && Rest(st, s).Some?
    ensures |Rest(st, s).value| < |s| && s[|s| - |Rest(st, s).value| - 1] == st.stack[0]
    decreases |s|
  {
    hide Next, Closes;
    NextKeepsBottom(st, s[0]);
    if !Closes(st, s[0]) {
      RestClosesBottom(Next(st, s[0]), s[1..]);
    }
  }

  /** A brace closed by a brace, or a bracket closed by a bracket. */
  predicate Delimited(span: string, open: char, close: char) {
    |span| >= 2 && span[0] == open && span[|span| - 1] == close
  }

  /** Without arrays every span is a braced one; with arrays it can also be a bracketed one. */
  lemma {:induction false} SpansAreDelimited(s: string)
    ensures forall x :: x in Spans(s, false) ==> Delimited(x, '{', '}')
    decreases |s|
  {
    hide Rest;
    if s != "" {
      SpansTurn(s, false);
      if s[0] != '{' {
        SpansAreDelimited(s[1..]);
      } else if Rest(START, s).Some? {
        FrontIsDelimited(s);
        SpansAreDelimited(Rest(START, s).value);
      }
    }
  }

  lemma {:induction false} SpansWithArraysAreDelimited(s: string)
    ensures forall x :: x in Spans(s, true) ==> Delimited(x, '{', '}') || Delimited(x, '[', ']')
    decreases |s|
  {
    hide Rest;
    if s != "" {
      SpansTurn(s, true);
      if s[0] != '{' && s[0] != '[' {
        SpansWithArraysAreDelimited(s[1..]);
      } else if Rest(START, s).Some? {
        FrontIsDelimited(s);
        SpansWithArraysAreDelimited(Rest(START, s).value);
      }
    }
  }

  lemma FrontIsDelimited(s: string)
    requires s != "" && (s[0] == '{' || s[0] == '[') && Rest(START, s).Some?
    ensures var span := s[..|s| - |Rest(START, s).value|];
            if s[0] == '{' then Delimited(span, '{', '}') else Delimited(span, '[', ']')
  {
    var close := if s[0] == '{' then '}' else ']';
    assert Next(START, s[0]).stack == [close];
    RestClosesBottom(Next(START, s[0]), s[1..]);
  }

  /** Between strings, a closer other than the one awaited is passed over. */
  lemma ForeignCloserIsSkipped(st: Scan, c: char, k: string)
    requires Between(st) && (c == '}' || c == ']') && c != st.stack[|st.stack| - 1]
    ensures Rest(st, [c] + k) == Rest(st, k)
  {
    hide Rest;
    RestCons(st, c, k);
  }

  /** What is chosen: the last span that parses; if none parses, the last one; nothing only where there is no span. */
  lemma {:induction false} ChosenIsLast(spans: seq<string>)
    ensures Chosen(spans).None? <==> spans == []
    ensures forall i :: 0 <= i < |spans| && Loads(spans[i]).Some? && (forall j :: i < j < |spans| ==> Loads(spans[j]).None?) ==>
              Chosen(spans) == Some(spans[i])
    ensures spans != [] && (forall j :: 0 <= j < |spans| ==> Loads(spans[j]).None?) ==> Chosen(spans) == Some(spans[|spans| - 1])
    ensures LastParseable(spans).Some? ==> Loads(LastParseable(spans).value).Some?
    ensures LastParseable(spans).None? <==> forall j :: 0 <= j < |spans| ==> Loads(spans[j]).None?
  {
    hide Loads;
    if spans != [] {
      var last := |spans| - 1;
      var before := spans[..last];
      ChosenIsLast(before);
      assert forall i :: 0 <= i < last ==> before[i] == spans[i];
      if Loads(spans[last]).None? {
        forall i | 0 <= i < |spans| && Loads(spans[i]).Some? && (forall j :: i < j < |spans| ==> Loads(spans[j]).None?)
          ensures Chosen(spans) == Some(spans[i])
        {
          assert forall j :: i < j < |before| ==> before[j] == spans[j];
          assert Chosen(before) == Some(before[i]);
        }
      }
    }
  }

  /** Whatever extraction without arrays returns is a braced span. */
  lemma ExtractedWithoutArrays(text: string, arrays: bool)
    ensures !arrays && Chosen(Spans(text, arrays)).Some? ==> Delimited(Chosen(Spans(text, arrays)).value, '{', '}')
  {
    hide Spans, Chosen, Delimited;
    if !arrays && Chosen(Spans(text, arrays)).Some? {
      SpansAreDelimited(text);
      ChosenIsMember(Spans(text, arrays));
    }
  }

  lemma {:induction false} ChosenIsMember(spans: seq<string>)
    requires Chosen(spans).Some?
    ensures Chosen(spans).value in spans
  {
    hide Loads;
    if Loads(spans[|spans| - 1]).None? && LastParseable(spans).Some? {
      ChosenIsMember(spans[..|spans| - 1]);
    }
  }
}
