/**
  adapters/ecosystem_adapters.py: recovering the complete pairs of a JSON object that was
  cut short, and the relay envelope around it.
 */
module Salvage {
  import opened Json
  import opened Wrappers

  const MAX_SALVAGE_DEPTH := 3

  // ---- the scanner ---------------------------------------------------------------

  datatype Scan = Scan(depth: int, inString: bool, escaped: bool, cut: int)

  const START := Scan(0, false, false, -1)

  /** One turn of the loop body on the character at index `pos`. */
  function Step(st: Scan, c: char, pos: int): Scan {
    if st.escaped then st.(escaped := false)
    else if c == '\\' && st.inString then st.(escaped := true)
    else if c == '\"' then st.(inString := !st.inString)
    else if st.inString then st
    else if c == '{' || c == '[' then st.(depth := st.depth + 1)
    else if c == '}' || c == ']' then st.(depth := st.depth - 1)
    else if c == ',' && st.depth == 1 then st.(cut := pos)
    else st
  }

  /** Scanning `s`, the last `|s|` characters of a text of length `n`. */
  function Run(n: int, st: Scan, s: string): (r: Scan)
    ensures -1 <= st.cut < n - |s| ==> -1 <= st.cut <= r.cut < n
    decreases |s|
  {
    if s == "" then st else Run(n, Step(st, s[0], n - |s|), s[1..])
  }

  function Cut(text: string): int { Run(|text|, START, text).cut }

  // ---- the pattern \s*"([^"]+)"\s*:\s*(\{.*)\Z ---------------------------------------

  /** The characters `\s` matches in a Unicode pattern. */
  predicate IsSpace(c: char) {
    || '\t' <= c <= '\r' || '\U{001C}' <= c <= ' ' || c == '\U{0085}' || c == '\U{00A0}' || c == '\U{1680}'
    || '\U{2000}' <= c <= '\U{200A}' || c == '\U{2028}' || c == '\U{2029}' || c == '\U{202F}'
    || c == '\U{205F}' || c == '\U{3000}'
  }

  /** Other blanks than those of JSON count, zero-width ones and letters do not. */
  lemma SpacesAre()
    ensures IsSpace(' ') && IsSpace('\t') && IsSpace('\n') && IsSpace('\r') && IsSpace('\U{000B}') && IsSpace('\U{00A0}') && IsSpace('\U{2003}')
    ensures !IsSpace('\U{200B}') && !IsSpace('x') && !IsSpace(':')
  {
  }

  predicate Spaces(w: string) { forall i :: 0 <= i < |w| ==> IsSpace(w[i]) }

  predicate NoQuote(w: string) { forall i :: 0 <= i < |w| ==> w[i] != '\"' }

  function SkipSpace(s: string): (r: string)
    ensures |r| <= |s|
  {
    if s != "" && IsSpace(s[0]) then SkipSpace(s[1..]) else s
  }

  function UpToQuote(s: string): (r: (string, string))
    ensures |r.0| + |r.1| == |s|
  {
    if s == "" || s[0] == '\"' then ("", s) else var (a, b) := UpToQuote(s[1..]); ([s[0]] + a, b)
  }

  /** The part `\s*:\s*(\{.*)` of the pattern. */
  function MatchObject(s: string): (r: Option<string>)
    ensures r.Some? ==> |r.value| < |s|
  {
    var d :- After(SkipSpace(s), ':');
    var e := SkipSpace(d);
    if e != "" && e[0] == '{' then Some(e) else None
  }

  /** The two groups of the match, if the pattern matches. */
  function MatchPair(tail: string): (r: Option<(string, string)>)
    ensures r.Some? ==> |r.value.1| < |tail|
  {
    var a :- After(SkipSpace(tail), '\"');
    var (key, b) := UpToQuote(a);
    var c :- After(b, '\"');
    var rest :- MatchObject(c);
    if key != "" then Some((key, rest)) else None
  }

  // ---- salvage -----------------------------------------------------------------------

  type Dict = map<string, Json>

  function NonEmpty(d: Dict): Option<Dict> { if d == map[] then None else Some(d) }

  /** What `_salvage_truncated_object` computes. */
  function Salvaged(text: string, depth: nat): Option<Dict>
    decreases |text|
  {
    if text == "" || text[0] != '{' then None
    else
      var cut := Cut(text);
      if cut < 0 then NonEmpty(TrailingPair(text[1..], depth))
      else
        match Loads(text[..cut] + "}")
        case Some(JObj(fields)) => NonEmpty(fields + TrailingPair(text[cut + 1..], depth))
        case _ => None
  }

  /** The pair `_salvage_trailing_object_pair` adds, if any. */
  function TrailingPair(tail: string, depth: nat): Dict
    decreases |tail|
  {
    if depth >= MAX_SALVAGE_DEPTH then map[]
    else
      match MatchPair(tail)
      case None => map[]
      case Some((key, rest)) =>
        match Salvaged(rest, depth + 1)
        case None => map[]
        case Some(inner) => map[key := JObj(inner)]
  }

  lemma RunStep(n: int, st: Scan, text: string, idx: nat)
    requires idx < |text|
    ensures Run(n, st, text[idx..]) == Run(n, Step(st, text[idx], n - |text| + idx), text[idx + 1..])
  {
    assert text[idx..][1..] == text[idx + 1..];
  }

  lemma RunEnd(n: int, st: Scan)
    ensures Run(n, st, "") == st
  {
  }

  /** The loop of `_salvage_truncated_object`: the last comma at depth 1, or -1. */
  method LastTopLevelComma(text: string) returns (cut: int)
    ensures cut == Cut(text)
  {
    hide Run;
    var depthLevel := 0;
    var inString := false;
    var escaped := false;
    cut := -1;
    assert text[0..] == text;
    for index := 0 to |text|
      invariant Run(|text|, START, text) == Run(|text|, Scan(depthLevel, inString, escaped, cut), text[index..])
    {
      RunStep(|text|, Scan(depthLevel, inString, escaped, cut), text, index);
      var c := text[index];
      if escaped {
        escaped := false;
        continue;
      }
      if c == '\\' && inString {
        escaped := true;
        continue;
      }
      if c == '\"' {
        inString := !inString;
        continue;
      }
      if inString {
        continue;
      }
      if c == '{' || c == '[' {
        depthLevel := depthLevel + 1;
      } else if c == '}' || c == ']' {
        depthLevel := depthLevel - 1;
      } else if c == ',' && depthLevel == 1 {
        cut := index;
      }
    }
    assert text[|text|..] == "";
    RunEnd(|text|, Scan(depthLevel, inString, escaped, cut));
  }

  /** `_salvage_truncated_object` */
  method SalvageTruncatedObject(text: string, depth: nat) returns (r: Option<Dict>)
    ensures r == Salvaged(text, depth)
    decreases |text|, 1
  {
    hide Run;
    hide Loads;
    if text == "" || text[0] != '{' {
      return None;
    }
    var cut := LastTopLevelComma(text);
    var salvaged: Dict := map[];
    var tail := text[1..];
    if cut >= 0 {
      var parsed := Loads(text[..cut] + "}");
      if parsed.None? || !parsed.value.JObj? {
        return None;
      }
      salvaged := parsed.value.fields;
      tail := text[cut + 1..];
    }
    assert salvaged + map[] == salvaged && map[] + TrailingPair(tail, depth) == TrailingPair(tail, depth);
    if depth < MAX_SALVAGE_DEPTH {
      var pair := SalvageTrailingObjectPair(tail, depth);
      salvaged := salvaged + pair;
    }
    return NonEmpty(salvaged);
  }

  /** `_salvage_trailing_object_pair`, called one level below `depth`; no pair is the empty dictionary. */
  method SalvageTrailingObjectPair(tail: string, depth: nat) returns (pair: Dict)
    requires depth < MAX_SALVAGE_DEPTH
    ensures pair == TrailingPair(tail, depth)
    decreases |tail|, 0
  {
    var m := MatchPair(tail);
    if m.None? {
      return map[];
    }
    var (key, rest) := m.value;
    var inner := SalvageTruncatedObject(rest, depth + 1);
    return if inner.Some? then map[key := JObj(inner.value)] else map[];
  }
}
