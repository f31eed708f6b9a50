/**
  What salvage recovers, told from the grammar alone, and the proof that the scanner, the
  pattern and the reader together recover exactly that from every prefix of every object.
 */
module SalvageRecovery {
  import opened Json
  import opened Wrappers
  import opened Salvage

  // ---- recovery, told from the grammar ---------------------------------------------

  /** The raw text between the quotation marks of a key. */
  function Raw(key: seq<Item>): string { TextItems(key, "") }

  /** A member up to the first character of its value. */
  function Head(m: Member): string { m.pre + ['\"'] + Raw(m.key) + ['\"'] + m.mid + [':'] + m.gap }

  /** Of the first `n` characters of the member list: how many members arrived with the comma
      after them, and how many characters of the next one arrived. */
  function Split(ms: seq<Member>, n: nat): (r: (nat, nat))
    requires ms != []
    ensures r.0 < |ms|
  {
    var first := |TextMember(ms[0], "")|;
    if |ms| == 1 || n <= first then (0, n)
    else var (k, j) := Split(ms[1..], n - first - 1); (k + 1, j)
  }

  /** The pairs recovered from the first `n` characters of a member list that `t` follows. */
  function Recover(ms: seq<Member>, t: string, n: nat, depth: nat): Dict
    decreases ms
  {
    if ms == [] then map[]
    else
      var (k, j) := Split(ms, n);
      Fields(ms[..k]) + Straddle(ms[k], AfterStraddle(ms, k, t), j, depth)
  }

  /** What the member that straddles the cut contributes: only an object whose brace has arrived.  A key
      with a quotation mark in it is another matter. */
  function Straddle(m: Member, t: string, j: nat, depth: nat): Dict
    decreases m
  {
    if depth >= MAX_SALVAGE_DEPTH then map[]
    else if !NoQuote(Raw(m.key)) then Misread(m, t, j, depth)
    else if !m.v.Obj? || Raw(m.key) == "" || j <= |Head(m)| then map[]
    else
      var inner := Recover(m.v.members, ['}'] + (m.post + t), j - |Head(m)| - 1, depth + 1);
      if inner == map[] then map[] else map[Raw(m.key) := JObj(inner)]
  }

  /** Where a member's text goes on after the first quotation mark inside its key. */
  function AfterInnerQuote(m: Member): nat { |m.pre| + |UpToQuote(Raw(m.key)).0| + 2 }

  /** The pattern takes the first quotation mark inside the key for its end; the pair it finds, if a colon and
      a brace happen to follow, is salvaged from the text behind that quotation mark. */
  function Misread(m: Member, t: string, j: nat, depth: nat): Dict {
    var text := TextMember(m, t);
    if !(AfterInnerQuote(m) <= j <= |text|) then map[]
    else
      match MatchObject(text[AfterInnerQuote(m)..j])
      case None => map[]
      case Some(found) =>
        match Salvaged(found, depth + 1)
        case None => map[]
        case Some(inner) => map[UpToQuote(Raw(m.key)).0 := JObj(inner)]
  }

  /** The text of a key does not itself read as the end of a key, a colon and a brace. */
  predicate ReadableKey(raw: string) {
    var (_, quoted) := UpToQuote(raw);
    quoted == "" || MatchObject(quoted[1..]).None?
  }

  // ---- the scanner and the grammar ---------------------------------------------------

  predicate Between(st: Scan) { !st.inString && !st.escaped && st.depth >= 1 }

  predicate Inside(st: Scan) { st.inString && !st.escaped }

  lemma RunCons(n: int, st: Scan, c: char, k: string)
    ensures Run(n, st, [c] + k) == Run(n, Step(st, c, n - |k| - 1), k)
  {
    assert ([c] + k)[1..] == k;
  }

  predicate Neutral(w: string) { forall i :: 0 <= i < |w| ==> w[i] !in {'\"', '{', '[', '}', ']', ','} }

  lemma {:induction false} RunNeutral(n: int, st: Scan, w: string, k: string)
    requires Between(st) && Neutral(w)
    ensures Run(n, st, w + k) == Run(n, st, k)
  {
    hide Run;
    if w == "" {
      assert w + k == k;
    } else {
      assert w + k == [w[0]] + (w[1..] + k);
      RunCons(n, st, w[0], w[1..] + k);
      RunNeutral(n, st, w[1..], k);
    }
  }

  lemma {:induction false} RunInside(n: int, st: Scan, w: string, k: string)
    requires Inside(st) && forall i :: 0 <= i < |w| ==> w[i] != '\"' && w[i] != '\\'
    ensures Run(n, st, w + k) == Run(n, st, k)
  {
    hide Run;
    if w == "" {
      assert w + k == k;
    } else {
      assert w + k == [w[0]] + (w[1..] + k);
      RunCons(n, st, w[0], w[1..] + k);
      RunInside(n, st, w[1..], k);
    }
  }

  lemma RunEscape(n: int, st: Scan, c: char, k: string)
    requires Inside(st)
    ensures Run(n, st, ['\\', c] + k) == Run(n, st, k)
  {
    hide Run;
    assert ['\\', c] + k == ['\\'] + ([c] + k);
    RunCons(n, st, '\\', [c] + k);
    RunCons(n, st.(escaped := true), c, k);
  }

  lemma RunItem(n: int, st: Scan, i: Item, k: string)
    requires Inside(st) && GoodItem(i)
    ensures Run(n, st, TextItem(i, k)) == Run(n, st, k)
  {
    hide Run;
    hide Step;
    match i
    case Plain(c) => RunInside(n, st, [c], k);
    case Short(c) => RunEscape(n, st, c, k);
    case Unit(h) =>
      RunEscape(n, st, 'u', h + k);
      RunInside(n, st, h, k);
    case Pair(hi, lo) =>
      RunEscape(n, st, 'u', hi + (['\\', 'u'] + (lo + k)));
      RunInside(n, st, hi, ['\\', 'u'] + (lo + k));
      RunEscape(n, st, 'u', lo + k);
      RunInside(n, st, lo, k);
  }

  lemma {:induction false} RunItems(n: int, st: Scan, items: seq<Item>, k: string)
    requires Inside(st) && GoodItems(items)
    ensures Run(n, st, TextItems(items, k)) == Run(n, st, k)
  {
    hide Run;
    if items != [] {
      RunItem(n, st, items[0], TextItems(items[1..], k));
      RunItems(n, st, items[1..], k);
    }
  }

  lemma RunStr(n: int, st: Scan, items: seq<Item>, k: string)
    requires Between(st) && GoodItems(items)
    ensures Run(n, st, TextStr(items, k)) == Run(n, st, k)
  {
    hide Run;
    RunCons(n, st, '\"', TextItems(items, ['\"'] + k));
    RunItems(n, st.(inString := true), items, ['\"'] + k);
    RunCons(n, st.(inString := true), '\"', k);
  }

  /** A whole value below the top brace leaves the scanner as it was. */
  lemma {:induction false} RunValue(n: int, st: Scan, v: Value, k: string)
    requires Between(st) && Good(v)
    ensures Run(n, st, TextValue(v, k)) == Run(n, st, k)
    decreases v
  {
    hide Run;
    hide Step;
    match v
    case Lit(_) => RunWord(n, st, v, k);
    case Num(_) => RunWord(n, st, v, k);
    case Str(items) => RunStr(n, st, items, k);
    case Arr(pad, es) => RunArr(n, st, pad, es, k);
    case Obj(pad, ms) => RunObj(n, st, pad, ms, k);
  }

  lemma RunWord(n: int, st: Scan, v: Value, k: string)
    requires Between(st) && Good(v) && (v.Lit? || v.Num?)
    ensures Run(n, st, TextValue(v, k)) == Run(n, st, k)
  {
    hide Run;
    hide Step;
    hide IsNumber;
    if v.Lit? {
      RunNeutral(n, st, v.word, k);
    } else {
      RunNeutral(n, st, v.text, k);
    }
  }

  lemma {:induction false} RunArr(n: int, st: Scan, pad: string, es: seq<Elem>, k: string)
    requires Between(st) && Good(Arr(pad, es))
    ensures Run(n, st, TextValue(Arr(pad, es), k)) == Run(n, st, k)
    decreases es, 1
  {
    hide Run;
    hide Step;
    if es == [] {
      RunOpen(n, st, '[', pad + ([']'] + k));
      RunNeutral(n, Deeper(st), pad, [']'] + k);
    } else {
      RunOpen(n, st, '[', TextElems(es, [']'] + k));
      RunElems(n, Deeper(st), es, [']'] + k);
    }
    RunClose(n, st, ']', k);
  }

  lemma {:induction false} RunObj(n: int, st: Scan, pad: string, ms: seq<Member>, k: string)
    requires Between(st) && Good(Obj(pad, ms))
    ensures Run(n, st, TextValue(Obj(pad, ms), k)) == Run(n, st, k)
    decreases ms, 1
  {
    hide Run;
    hide Step;
    if ms == [] {
      RunOpen(n, st, '{', pad + (['}'] + k));
      RunNeutral(n, Deeper(st), pad, ['}'] + k);
    } else {
      RunOpen(n, st, '{', TextMembers(ms, ['}'] + k));
      RunMembers(n, Deeper(st), ms, ['}'] + k);
    }
    RunClose(n, st, '}', k);
  }

  function Deeper(st: Scan): Scan { st.(depth := st.depth + 1) }

  lemma RunOpen(n: int, st: Scan, c: char, k: string)
    requires !st.inString && !st.escaped && (c == '{' || c == '[')
    ensures Run(n, st, [c] + k) == Run(n, Deeper(st), k)
  {
    hide Run;
    RunCons(n, st, c, k);
  }

  lemma RunClose(n: int, st: Scan, c: char, k: string)
    requires !st.inString && !st.escaped && (c == '}' || c == ']')
    ensures Run(n, Deeper(st), [c] + k) == Run(n, st, k)
  {
    hide Run;
    RunCons(n, Deeper(st), c, k);
  }

  lemma RunInnerComma(n: int, st: Scan, k: string)
    requires Between(st) && st.depth >= 2
    ensures Run(n, st, [','] + k) == Run(n, st, k)
  {
    hide Run;
    RunCons(n, st, ',', k);
  }

  lemma {:induction false} RunElems(n: int, st: Scan, es: seq<Elem>, k: string)
    requires Between(st) && st.depth >= 2 && es != [] && GoodElems(es)
    ensures Run(n, st, TextElems(es, k)) == Run(n, st, k)
    decreases es, 0
  {
    hide Run;
    hide Step;
    var e := es[0];
    var k1 := if |es| == 1 then k else [','] + TextElems(es[1..], k);
    RunNeutral(n, st, e.pre, TextValue(e.v, e.post + k1));
    RunValue(n, st, e.v, e.post + k1);
    RunNeutral(n, st, e.post, k1);
    if |es| > 1 {
      RunInnerComma(n, st, TextElems(es[1..], k));
      RunElems(n, st, es[1..], k);
    }
  }

  lemma {:induction false} RunMember(n: int, st: Scan, m: Member, k: string)
    requires Between(st) && GoodMember(m)
    ensures Run(n, st, TextMember(m, k)) == Run(n, st, k)
    decreases m
  {
    hide Run;
    hide Step;
    var t3 := m.gap + TextValue(m.v, m.post + k);
    RunNeutral(n, st, m.pre, TextStr(m.key, m.mid + ([':'] + t3)));
    RunStr(n, st, m.key, m.mid + ([':'] + t3));
    RunNeutral(n, st, m.mid, [':'] + t3);
    RunNeutral(n, st, [':'], t3);
    RunNeutral(n, st, m.gap, TextValue(m.v, m.post + k));
    RunValue(n, st, m.v, m.post + k);
    RunNeutral(n, st, m.post, k);
  }

  lemma {:induction false} RunMembers(n: int, st: Scan, ms: seq<Member>, k: string)
    requires Between(st) && st.depth >= 2 && ms != [] && GoodMembers(ms)
    ensures Run(n, st, TextMembers(ms, k)) == Run(n, st, k)
    decreases ms, 0
  {
    hide Run;
    hide Step;
    hide TextMember;
    hide GoodMember;
    if |ms| == 1 {
      RunMember(n, st, ms[0], k);
    } else {
      RunMember(n, st, ms[0], [','] + TextMembers(ms[1..], k));
      RunInnerComma(n, st, TextMembers(ms[1..], k));
      RunMembers(n, st, ms[1..], k);
    }
  }

  // ---- prefixes ----------------------------------------------------------------------

  lemma {:induction false} RunAppend(n: int, st: Scan, a: string, b: string)
    ensures Run(n, st, a + b) == Run(n, Run(n - |b|, st, a), b)
    decreases |a|
  {
    if a == "" {
      assert a + b == b;
    } else {
      assert (a + b)[1..] == a[1..] + b;
      RunAppend(n, Step(st, a[0], n - |a| - |b|), a[1..], b);
    }
  }

  /** If scanning a text moves no cut, neither does scanning a prefix of it. */
  lemma NoCutInPrefix(n: int, st: Scan, a: string, b: string)
    requires -1 <= st.cut < n - |a| && Run(n + |b|, st, a + b).cut == st.cut
    ensures Run(n, st, a).cut == st.cut
  {
    hide Run;
    RunAppend(n + |b|, st, a, b);
  }

  /** What can follow a straddling object: blanks and the braces of the objects around it. */
  predicate Closing(t: string) { forall i :: 0 <= i < |t| ==> IsBlank(t[i]) || t[i] == '}' }

  lemma {:induction false} RunClosing(n: int, st: Scan, t: string)
    requires !st.inString && !st.escaped && Closing(t)
    ensures Run(n, st, t).cut == st.cut
    decreases |t|
  {
    if t != "" {
      RunClosing(n, Step(st, t[0], n - |t|), t[1..]);
    }
  }

  /** No cut falls inside the first `j` characters of a member and what closes it. */
  lemma NoCutInMember(n: int, st: Scan, m: Member, t: string, j: nat)
    requires Between(st) && st.depth == 1 && GoodMember(m) && Closing(t)
    requires j <= |TextMember(m, t)| && -1 <= st.cut < n - j
    ensures Run(n, st, TextMember(m, t)[..j]).cut == st.cut
  {
    hide Run;
    hide Step;
    hide TextMember;
    hide GoodMember;
    var s := TextMember(m, t);
    var n' := n + |s| - j;
    RunMember(n', st, m, t);
    RunClosing(n', st, t);
    assert s == s[..j] + s[j..];
    NoCutInPrefix(n, st, s[..j], s[j..]);
  }

  // ---- where the last top-level comma falls -------------------------------------------

  /** What follows the straddling member of a split: the closing text, if that member is the last one. */
  function AfterStraddle(ms: seq<Member>, k: nat, t: string): string { if k + 1 == |ms| then t else "" }

  lemma FirstMember(ms: seq<Member>, t: string)
    requires |ms| > 1
    ensures TextMembers(ms, t) == TextMember(ms[0], "") + ([','] + TextMembers(ms[1..], t))
  {
    var rest := [','] + TextMembers(ms[1..], t);
    assert "" + rest == rest;
    MemberAppend(ms[0], "", rest);
  }

  lemma Regroup(a: string, b: string, c: string)
    ensures a + ([','] + (b + ([','] + c))) == (a + ([','] + b)) + ([','] + c)
  {
  }

  /** The first `n` characters: the complete members, a comma, and the straddling member's share. */
  lemma {:induction false} SplitText(ms: seq<Member>, t: string, n: nat)
    requires ms != [] && n <= |TextMembers(ms, t)|
    ensures var (k, j) := Split(ms, n);
            var part := TextMember(ms[k], AfterStraddle(ms, k, t));
            && j <= |part|
            && TextMembers(ms, t)[..n] == if k == 0 then part[..j] else TextMembers(ms[..k], "") + ([','] + part[..j])
    decreases ms
  {
    hide TextMember;
    var first := TextMember(ms[0], "");
    if |ms| == 1 {
    } else if n <= |first| {
      FirstMember(ms, t);
    } else {
      FirstMember(ms, t);
      var rest := TextMembers(ms[1..], t);
      SplitText(ms[1..], t, n - |first| - 1);
      var (k, j) := Split(ms[1..], n - |first| - 1);
      assert TextMembers(ms, t)[..n] == first + ([','] + rest[..n - |first| - 1]);
      if k == 0 {
        assert ms[..1] == [ms[0]];
      } else {
        assert ms[..k + 1][1..] == ms[1..][..k];
        FirstMember(ms[..k + 1], "");
        var part := TextMember(ms[1..][k], AfterStraddle(ms[1..], k, t));
        Regroup(first, TextMembers(ms[1..][..k], ""), part[..j]);
      }
    }
  }

  /** The scanner's cut is the comma before the straddling member. */
  lemma {:induction false} CutOfSplit(n: int, st: Scan, ms: seq<Member>, t: string, m: nat)
    requires Between(st) && st.depth == 1 && ms != [] && GoodMembers(ms) && Closing(t)
    requires m <= |TextMembers(ms, t)| && -1 <= st.cut < n - m
    ensures Run(n, st, TextMembers(ms, t)[..m]).cut ==
            var (k, j) := Split(ms, m);
            if k == 0 then st.cut else n - j - 1
    decreases ms
  {
    hide Run;
    hide TextMember;
    hide GoodMember;
    var first := TextMember(ms[0], "");
    SplitText(ms, t, m);
    if |ms| == 1 || m <= |first| {
      NoCutInMember(n, st, ms[0], AfterStraddle(ms, 0, t), m);
    } else {
      FirstMember(ms, t);
      var rest := TextMembers(ms[1..], t);
      var r := rest[..m - |first| - 1];
      assert TextMembers(ms, t)[..m] == first + ([','] + r);
      assert "" + ([','] + r) == [','] + r;
      MemberAppend(ms[0], "", [','] + r);
      RunMember(n, st, ms[0], [','] + r);
      RunCons(n, st, ',', r);
      CutOfSplit(n, st.(cut := n - |r| - 1), ms[1..], t, |r|);
    }
  }

  // ---- the pattern on a prefix of a member --------------------------------------------

  lemma {:induction false} SkipSpacePrefix(w: string, k: string, n: nat)
    requires Blanks(w) && (k == "" || !IsSpace(k[0])) && n <= |w + k|
    ensures SkipSpace((w + k)[..n]) == if n <= |w| then "" else k[..n - |w|]
  {
    var s := (w + k)[..n];
    if w == "" {
      assert s == k[..n];
    } else if n > 0 {
      assert w + k == [w[0]] + (w[1..] + k) && Blanks(w[1..]);
      assert s[1..] == (w[1..] + k)[..n - 1];
      SkipSpacePrefix(w[1..], k, n - 1);
    }
  }

  lemma {:induction false} UpToQuotePrefix(raw: string, k: string, n: nat)
    requires NoQuote(raw) && n <= |raw + (['\"'] + k)|
    ensures UpToQuote((raw + (['\"'] + k))[..n]) ==
            if n <= |raw| then (raw[..n], "") else (raw, (['\"'] + k)[..n - |raw|])
  {
    var s := (raw + (['\"'] + k))[..n];
    if raw == "" {
      assert s == (['\"'] + k)[..n];
    } else if n > 0 {
      assert raw + (['\"'] + k) == [raw[0]] + (raw[1..] + (['\"'] + k)) && NoQuote(raw[1..]);
      assert s[1..] == (raw[1..] + (['\"'] + k))[..n - 1];
      UpToQuotePrefix(raw[1..], k, n - 1);
      assert [raw[0]] + raw[1..] == raw;
      if n <= |raw| {
        assert [raw[0]] + raw[1..][..n - 1] == raw[..n];
      }
    }
  }

  lemma AfterPrefix(c: char, k: string, n: nat)
    requires n <= |[c] + k|
    ensures After(([c] + k)[..n], c) == if n == 0 then None else Some(k[..n - 1])
  {
    if n > 0 {
      assert ([c] + k)[..n][1..] == k[..n - 1];
    }
  }

  lemma MatchObjectPrefix(mid: string, gap: string, v: string, n: nat)
    requires Blanks(mid) && Blanks(gap) && v != "" && !IsSpace(v[0]) && n <= |mid + ([':'] + (gap + v))|
    ensures var head := |mid| + |gap| + 1;
            MatchObject((mid + ([':'] + (gap + v)))[..n]) ==
            if n > head && v[0] == '{' then Some(v[..n - head]) else None
  {
    SkipSpacePrefix(mid, [':'] + (gap + v), n);
    if n > |mid| {
      AfterPrefix(':', gap + v, n - |mid|);
      SkipSpacePrefix(gap, v, n - |mid| - 1);
    }
  }

  /** The pattern on the first `n` characters of `pre "raw" mid : gap v`. */
  lemma MatchPairPrefix(pre: string, raw: string, mid: string, gap: string, v: string, n: nat)
    requires Blanks(pre) && Blanks(mid) && Blanks(gap) && NoQuote(raw) && v != "" && !IsSpace(v[0])
    requires n <= |pre + (['\"'] + (raw + (['\"'] + (mid + ([':'] + (gap + v))))))|
    ensures var head := |pre| + |raw| + |mid| + |gap| + 3;
            MatchPair((pre + (['\"'] + (raw + (['\"'] + (mid + ([':'] + (gap + v)))))))[..n]) ==
            if n > head && raw != "" && v[0] == '{' then Some((raw, v[..n - head])) else None
  {
    hide SkipSpace;
    hide UpToQuote;
    hide MatchObject;
    var s4 := mid + ([':'] + (gap + v));
    var s2 := raw + (['\"'] + s4);
    SkipSpacePrefix(pre, ['\"'] + s2, n);
    if n > |pre| {
      var n1 := n - |pre|;
      AfterPrefix('\"', s2, n1);
      UpToQuotePrefix(raw, s4, n1 - 1);
      if n1 - 1 > |raw| {
        AfterPrefix('\"', s4, n1 - 1 - |raw|);
        MatchObjectPrefix(mid, gap, v, n1 - 2 - |raw|);
      }
    }
  }

  lemma {:induction false} UpToQuoteParts(s: string)
    ensures var (a, b) := UpToQuote(s);
            s == a + b && NoQuote(a) && (b == "" || b[0] == '\"') && (b == "" <==> NoQuote(s))
  {
    if s != "" && s[0] != '\"' {
      UpToQuoteParts(s[1..]);
      var (a, b) := UpToQuote(s[1..]);
      assert s == [s[0]] + (a + b);
    }
  }

  lemma {:induction false} NoBraceAhead(b: string, k: string, n: nat)
    requires var e := SkipSpace(b); e == "" || e[0] != '{'
    requires n <= |b + (['\"'] + k)|
    ensures var e := SkipSpace((b + (['\"'] + k))[..n]); e == "" || e[0] != '{'
  {
    var s := (b + (['\"'] + k))[..n];
    if b != "" && IsSpace(b[0]) && n > 0 {
      assert s[1..] == (b[1..] + (['\"'] + k))[..n - 1];
      NoBraceAhead(b[1..], k, n - 1);
    }
  }

  /** A text that does not go on with a colon and a brace does not do so in front of a quotation mark. */
  lemma {:induction false} NoObjectAhead(b: string, k: string, n: nat)
    requires MatchObject(b).None? && n <= |b + (['\"'] + k)|
    ensures MatchObject((b + (['\"'] + k))[..n]).None?
  {
    var s := (b + (['\"'] + k))[..n];
    if b != "" && n > 0 {
      assert s[0] == b[0] && s[1..] == (b[1..] + (['\"'] + k))[..n - 1];
      if IsSpace(b[0]) {
        NoObjectAhead(b[1..], k, n - 1);
      } else if b[0] == ':' {
        NoBraceAhead(b[1..], k, n - 1);
      }
    }
  }

  /** The pattern on the first `n` characters of `pre "a" rest`. */
  lemma MatchQuotedPrefix(pre: string, a: string, rest: string, n: nat)
    requires Blanks(pre) && NoQuote(a) && a != "" && n <= |pre + (['\"'] + (a + (['\"'] + rest)))|
    ensures var at := |pre| + |a| + 2;
            MatchPair((pre + (['\"'] + (a + (['\"'] + rest))))[..n]) ==
            if n < at then None
            else if MatchObject(rest[..n - at]).None? then None else Some((a, MatchObject(rest[..n - at]).value))
  {
    hide SkipSpace, UpToQuote, MatchObject;
    var s2 := a + (['\"'] + rest);
    SkipSpacePrefix(pre, ['\"'] + s2, n);
    if n > |pre| {
      var n1 := n - |pre|;
      AfterPrefix('\"', s2, n1);
      UpToQuotePrefix(a, rest, n1 - 1);
      if n1 - 1 > |a| {
        AfterPrefix('\"', rest, n1 - 1 - |a|);
      }
    }
  }

  lemma HexHasNoQuote(h: string, k: string)
    requires IsHex4(h) && NoQuote(k)
    ensures NoQuote(['\\', 'u'] + (h + k))
  {
    assert NoQuote(h);
  }

  lemma ItemHasNoQuote(i: Item, k: string)
    requires GoodItem(i) && i != Short('\"') && NoQuote(k)
    ensures NoQuote(TextItem(i, k))
  {
    match i
    case Plain(c) =>
    case Short(c) =>
    case Unit(h) => HexHasNoQuote(h, k);
    case Pair(hi, lo) =>
      HexHasNoQuote(lo, k);
      HexHasNoQuote(hi, ['\\', 'u'] + (lo + k));
  }

  lemma {:induction false} RawHasNoQuote(key: seq<Item>)
    requires GoodItems(key) && forall i :: 0 <= i < |key| ==> key[i] != Short('\"')
    ensures NoQuote(Raw(key))
  {
    if key != [] {
      RawHasNoQuote(key[1..]);
      ItemHasNoQuote(key[0], Raw(key[1..]));
    }
  }

  lemma MemberFromHead(m: Member, t: string)
    ensures TextMember(m, t) ==
            m.pre + (['\"'] + (Raw(m.key) + (['\"'] + (m.mid + ([':'] + (m.gap + TextValue(m.v, m.post + t)))))))
  {
    var k := m.mid + ([':'] + (m.gap + TextValue(m.v, m.post + t)));
    assert "" + (['\"'] + k) == ['\"'] + k;
    ItemsAppend(m.key, "", ['\"'] + k);
  }

  /** The part of a member's text behind the first quotation mark inside its key. */
  function BehindInnerQuote(m: Member, t: string): string
    requires !NoQuote(Raw(m.key))
  {
    UpToQuoteParts(Raw(m.key));
    UpToQuote(Raw(m.key)).1[1..] + (['\"'] + (m.mid + ([':'] + (m.gap + TextValue(m.v, m.post + t)))))
  }

  lemma QuotedText(m: Member, t: string)
    requires !NoQuote(Raw(m.key))
    ensures TextMember(m, t) == m.pre + (['\"'] + (UpToQuote(Raw(m.key)).0 + (['\"'] + BehindInnerQuote(m, t))))
  {
    var raw := Raw(m.key);
    var k := m.mid + ([':'] + (m.gap + TextValue(m.v, m.post + t)));
    var (a, quoted) := UpToQuote(raw);
    MemberFromHead(m, t);
    UpToQuoteParts(raw);
    assert quoted == ['\"'] + quoted[1..];
    assert raw + (['\"'] + k) == a + (['\"'] + (quoted[1..] + (['\"'] + k)));
  }

  lemma RawStart(key: seq<Item>)
    requires GoodItems(key)
    ensures Raw(key) == "" || Raw(key)[0] != '\"'
  {
    if key != [] {
      assert GoodItem(key[0]);
    }
  }

  /** The pattern on every prefix of every member: under a key without quotation marks it finds the object whose
      brace has arrived, otherwise what a colon and a brace behind the first one make it find. */
  lemma MatchMember(m: Member, t: string, j: nat)
    requires GoodMember(m) && j <= |TextMember(m, t)|
    ensures |TextMember(m, t)| == |Head(m)| + |TextValue(m.v, m.post + t)|
    ensures NoQuote(Raw(m.key)) ==>
              MatchPair(TextMember(m, t)[..j]) ==
              if j > |Head(m)| && Raw(m.key) != "" && m.v.Obj?
              then Some((Raw(m.key), TextValue(m.v, m.post + t)[..j - |Head(m)|])) else None
    ensures !NoQuote(Raw(m.key)) ==>
              var at := AfterInnerQuote(m);
              MatchPair(TextMember(m, t)[..j]) ==
              if j < at || MatchObject(TextMember(m, t)[at..j]).None? then None
              else Some((UpToQuote(Raw(m.key)).0, MatchObject(TextMember(m, t)[at..j]).value))
  {
    hide MatchPair, MatchObject;
    var v := TextValue(m.v, m.post + t);
    FirstChar(m.v, m.post + t);
    MemberFromHead(m, t);
    var raw := Raw(m.key);
    if NoQuote(raw) {
      MatchPairPrefix(m.pre, raw, m.mid, m.gap, v, j);
    } else {
      MatchMisread(m, t, j);
    }
  }

  lemma SliceBehind(pre: string, a: string, rest: string, j: nat)
    requires |pre| + |a| + 2 <= j <= |pre| + |a| + 2 + |rest|
    ensures (pre + (['\"'] + (a + (['\"'] + rest))))[|pre| + |a| + 2..j] == rest[..j - |pre| - |a| - 2]
  {
    var front := pre + ['\"'] + a + ['\"'];
    assert pre + (['\"'] + (a + (['\"'] + rest))) == front + rest;
  }

  lemma MatchMisread(m: Member, t: string, j: nat)
    requires GoodMember(m) && j <= |TextMember(m, t)| && !NoQuote(Raw(m.key))
    ensures var at := AfterInnerQuote(m);
            MatchPair(TextMember(m, t)[..j]) ==
            if j < at || MatchObject(TextMember(m, t)[at..j]).None? then None
            else Some((UpToQuote(Raw(m.key)).0, MatchObject(TextMember(m, t)[at..j]).value))
  {
    hide MatchPair, MatchObject;
    var a := UpToQuote(Raw(m.key)).0;
    var rest := BehindInnerQuote(m, t);
    QuotedText(m, t);
    UpToQuoteParts(Raw(m.key));
    RawStart(m.key);
    hide TextMember, UpToQuote;
    MatchQuotedPrefix(m.pre, a, rest, j);
    var at := AfterInnerQuote(m);
    if j >= at {
      SliceBehind(m.pre, a, rest, j);
    }
  }

  lemma {:induction false} MatchClosing(s: string)
    requires Closing(s)
    ensures MatchPair(s) == None
  {
    if s != "" && IsBlank(s[0]) {
      MatchClosing(s[1..]);
    }
  }

  // ---- the theorem -----------------------------------------------------------------------

  lemma CloseMembers(ms: seq<Member>)
    requires ms != [] && GoodMembers(ms)
    ensures Loads((['{'] + TextMembers(ms, "")) + "}") == Some(JObj(Fields(ms)))
  {
    hide TextMember;
    var v := Obj("", ms);
    assert "" + "}" == "}" && ['}'] + "" == "}";
    MembersAppend(ms, "", "}");
    assert (['{'] + TextMembers(ms, "")) + "}" == "" + TextValue(v, "");
    LoadsText("", v, "");
  }

  lemma {:induction false} TrailingPairIsStraddle(m: Member, t: string, j: nat, depth: nat)
    requires GoodMember(m) && Closing(t) && j <= |TextMember(m, t)|
    ensures TrailingPair(TextMember(m, t)[..j], depth) == Straddle(m, t, j, depth)
    decreases m
  {
    hide MatchPair, Run, Loads, Salvaged, TextMember, TextValue, Head, Raw, Recover, NoQuote, MatchObject, UpToQuote;
    MatchMember(m, t, j);
    if depth < MAX_SALVAGE_DEPTH && j > |Head(m)| && Raw(m.key) != "" && NoQuote(Raw(m.key)) && m.v.Obj? {
      SalvageOfPrefix(m.v, m.post + t, j - |Head(m)|, depth + 1);
    }
  }

  lemma SalvagedUncut(tail: string, depth: nat)
    requires Cut(['{'] + tail) < 0
    ensures Salvaged(['{'] + tail, depth) == NonEmpty(TrailingPair(tail, depth))
  {
    hide Cut;
    hide TrailingPair;
    assert (['{'] + tail)[1..] == tail;
  }

  lemma SalvagedCut(front: string, fields: Dict, tail: string, depth: nat)
    requires front != "" && front[0] == '{' && Cut(front + ([','] + tail)) == |front|
    requires Loads(front + "}") == Some(JObj(fields))
    ensures Salvaged(front + ([','] + tail), depth) == NonEmpty(fields + TrailingPair(tail, depth))
  {
    hide Cut;
    hide Loads;
    hide TrailingPair;
    var text := front + ([','] + tail);
    assert text[..|front|] == front && text[|front| + 1..] == tail;
  }

  /** The scanner after the opening brace. */
  lemma CutOfObject(body: string)
    ensures Cut(['{'] + body) == Run(|body| + 1, Deeper(START), body).cut
  {
    hide Run;
    RunOpen(|body| + 1, START, '{', body);
  }

  lemma SalvageOfEmptyObject(body: string, depth: nat)
    requires Closing(body)
    ensures Salvaged(['{'] + body, depth) == None
  {
    hide Run;
    hide MatchPair;
    CutOfObject(body);
    RunClosing(|body| + 1, Deeper(START), body);
    MatchClosing(body);
    SalvagedUncut(body, depth);
  }

  lemma {:induction false} SalvageOfMembers(ms: seq<Member>, t: string, n: nat, depth: nat)
    requires ms != [] && GoodMembers(ms)
    requires Closing(t) && n <= |TextMembers(ms, t)|
    ensures Salvaged(['{'] + TextMembers(ms, t)[..n], depth) == NonEmpty(Recover(ms, t, n, depth))
    decreases ms
  {
    hide Run;
    hide Cut;
    hide Loads;
    hide Salvaged;
    hide TrailingPair;
    hide TextMember;
    hide GoodMember;
    var (k, j) := Split(ms, n);
    var rest := AfterStraddle(ms, k, t);
    var part := TextMember(ms[k], rest);
    var body := TextMembers(ms, t)[..n];
    SplitText(ms, t, n);
    CutOfObject(body);
    CutOfSplit(n + 1, Deeper(START), ms, t, n);
    TrailingPairIsStraddle(ms[k], rest, j, depth);
    if k == 0 {
      assert Fields(ms[..0]) + Straddle(ms[0], rest, j, depth) == Straddle(ms[0], rest, j, depth);
      SalvagedUncut(body, depth);
    } else {
      var front := ['{'] + TextMembers(ms[..k], "");
      assert ['{'] + body == front + ([','] + part[..j]);
      CloseMembers(ms[..k]);
      SalvagedCut(front, Fields(ms[..k]), part[..j], depth);
    }
  }

  /** Salvage of any prefix of an object, followed by the closing text of the objects around it. */
  lemma {:induction false} SalvageOfPrefix(v: Value, t: string, n: nat, depth: nat)
    requires v.Obj? && Good(v) && Closing(t) && 1 <= n <= |TextValue(v, t)|
    ensures Salvaged(TextValue(v, t)[..n], depth) == NonEmpty(Recover(v.members, ['}'] + t, n - 1, depth))
    decreases v
  {
    hide Salvaged;
    hide TextMembers;
    var ms := v.members;
    var body := if ms == [] then v.pad + (['}'] + t) else TextMembers(ms, ['}'] + t);
    assert TextValue(v, t)[..n] == ['{'] + body[..n - 1];
    if ms == [] {
      SalvageOfEmptyObject(body[..n - 1], depth);
    } else {
      SalvageOfMembers(ms, ['}'] + t, n - 1, depth);
    }
  }

  /**
    For every object text and every proper prefix of it, salvage parses its own cut and
    returns exactly the pairs before the last top-level comma and the straddling object's
    share, or nothing when there are none.
   */
  lemma SalvageOfTruncatedDocument(v: Value, n: nat)
    requires v.Obj? && Good(v) && n < |Text(v)|
    ensures Salvaged(Text(v)[..n], 0) == if n == 0 then None else NonEmpty(Recover(v.members, "}", n - 1, 0))
  {
    if n > 0 {
      assert ['}'] + "" == "}";
      SalvageOfPrefix(v, "", n, 0);
    }
  }
}
