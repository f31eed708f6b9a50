/**
  adapters/ecosystem_adapters.py: unwrapping a relay envelope, whose document may have
  been cut short by the sender.
 */
module RelayEnvelope {
  import opened Json
  import opened Wrappers
  import opened Salvage
  import opened SalvageRecovery
  import BalancedSpan

  /** A value of the outer document: what the three conditions look at. */
  datatype Outer = OText(s: string) | Scalar | Structured

  datatype Unwrapped = Kept | Inner(fields: Dict)

  const ENVELOPE_KEYS: set<string> := {"text", "message", "body", "payload", "data"}

  function StripRight(s: string): (r: string)
    ensures r <= s
    ensures r != "" ==> !IsSpace(r[|r| - 1])
  {
    if s != "" && IsSpace(s[|s| - 1]) then StripRight(s[..|s| - 1]) else s
  }

  /** `str.strip` */
  function Strip(s: string): string { StripRight(SkipSpace(s)) }

  predicate StartsWithBrace(s: string) { s != "" && s[0] == '{' }

  function Candidates(data: map<string, Outer>): set<string> {
    set key | key in data && key in ENVELOPE_KEYS && data[key].OText? && StartsWithBrace(Strip(data[key].s))
  }

  predicate Wraps(data: map<string, Outer>, key: string) {
    Candidates(data) == {key} && forall k :: k in data && k != key ==> !data[k].Structured?
  }

  /** `_unwrap_json_envelope` on the text of the only candidate key. */
  function UnwrapText(text: string, size: nat): (r: Unwrapped)
    ensures r.Inner? ==> |r.fields| > size
  {
    match Loads(text)
    case None =>
      (match Salvaged(text, 0)
       case Some(d) => if |d| > size then Inner(d) else Kept
       case None => Kept)
    case Some(JObj(d)) => if |d| > size then Inner(d) else Kept
    case Some(_) => Kept
  }

  /** `_unwrap_json_envelope` */
  ghost function Unwrap(data: map<string, Outer>): (r: Unwrapped)
    ensures r.Inner? ==> |r.fields| > |data| && exists key :: Wraps(data, key)
  {
    if key :| Wraps(data, key) then
      assert key in Candidates(data);
      UnwrapText(Strip(data[key].s), |data|)
    else Kept
  }

  // ---- which documents are wrappers ------------------------------------------------------

  /** The value of `key` could be a wrapped document: one of the relays' keys, and text that starts with a brace. */
  predicate CouldWrap(data: map<string, Outer>, key: string) {
    && (key == "text" || key == "message" || key == "body" || key == "payload" || key == "data")
    && key in data && data[key].OText? && Strip(data[key].s) != "" && Strip(data[key].s)[0] == '{'
  }

  lemma CandidatesAre(data: map<string, Outer>, key: string)
    ensures key in Candidates(data) <==> CouldWrap(data, key)
  {
  }

  /** A document is treated as a wrapper exactly when one key alone could wrap and every other value is a scalar or text. */
  lemma WrapsIff(data: map<string, Outer>, key: string)
    ensures Wraps(data, key) <==>
            && CouldWrap(data, key)
            && forall k :: k in data && k != key ==> !CouldWrap(data, k) && !data[k].Structured?
  {
    hide CouldWrap, Candidates;
    forall k ensures k in Candidates(data) <==> CouldWrap(data, k) { CandidatesAre(data, k); }
    if Wraps(data, key) {
      assert key in Candidates(data);
      forall k | k in data && k != key ensures !CouldWrap(data, k) {
        assert k !in Candidates(data);
      }
    }
    if CouldWrap(data, key) && forall k :: k in data && k != key ==> !CouldWrap(data, k) && !data[k].Structured? {
      forall k ensures k in Candidates(data) <==> k == key {
        CouldWrapIsThere(data, k);
      }
      assert Candidates(data) == {key};
    }
  }

  lemma CouldWrapIsThere(data: map<string, Outer>, k: string)
    ensures CouldWrap(data, k) ==> k in data
  {
  }

  /** Anything else is kept as it is: no candidate, several of them, or a structured value beside the only one. */
  lemma KeptUnlessWrapper(data: map<string, Outer>)
    requires forall key :: CouldWrap(data, key) ==> exists k :: k in data && k != key && (CouldWrap(data, k) || data[k].Structured?)
    ensures Unwrap(data) == Kept
  {
    hide CouldWrap, Wraps, Strip;
    forall key ensures !Wraps(data, key) { WrapsIff(data, key); }
  }

  /** Text that starts with a brace and is a document is an object, so a wrapper holds an object or nothing that parses. */
  lemma BracedDocumentIsObject(s: string)
    requires s != "" && s[0] == '{' && Loads(s).Some?
    ensures Loads(s).value.JObj?
  {
    hide Good, TextValue, Loads;
    LoadsAcceptsExactlyTheGrammar(s);
    var lead, v, trail :| Blanks(lead) && Good(v) && Blanks(trail) && s == lead + TextValue(v, trail);
    FirstChar(v, trail);
    assert !IsBlank(s[0]);
    assert lead == "";
    LoadsText(lead, v, trail);
  }

  // ---- stripping -------------------------------------------------------------------------

  lemma {:induction false} SkipSpaceExact(w: string, k: string)
    requires Spaces(w) && (k == "" || !IsSpace(k[0]))
    ensures SkipSpace(w + k) == k
  {
    if w == "" {
      assert w + k == k;
    } else {
      assert (w + k)[1..] == w[1..] + k;
      SkipSpaceExact(w[1..], k);
    }
  }

  lemma {:induction false} StripRightExact(k: string, w: string)
    requires Spaces(w) && k != "" && !IsSpace(k[|k| - 1])
    ensures StripRight(k + w) == k
  {
    if w == "" {
      assert k + w == k;
    } else {
      assert (k + w)[..|k + w| - 1] == k + w[..|w| - 1];
      StripRightExact(k, w[..|w| - 1]);
    }
  }

  lemma StripAround(lead: string, k: string, trail: string)
    requires Spaces(lead) && Spaces(trail) && k != "" && !IsSpace(k[0]) && !IsSpace(k[|k| - 1])
    ensures Strip(lead + (k + trail)) == k
  {
    SkipSpaceExact(lead, k + trail);
    StripRightExact(k, trail);
  }

  // ---- a cut document never parses ---------------------------------------------------------

  /** No proper prefix of a container is a JSON document. */
  lemma LoadsOfTruncatedFails(v: Value, n: nat)
    requires Good(v) && BalancedSpan.Container(v) && n < |Text(v)|
    ensures Loads(Text(v)[..n]) == None
  {
    var s := Text(v)[..n];
    if Loads(s).Some? {
      LoadsAcceptsExactlyTheGrammar(s);
      var lead, w, trail :| Blanks(lead) && Good(w) && Blanks(trail) && s == lead + TextValue(w, trail);
      FirstChar(w, trail);
      FirstChar(v, "");
      assert s[0] == Text(v)[0];
      assert lead == "";
      assert s == TextValue(w, trail);
      BalancedSpan.SpanOfContainer(w, trail);
      BalancedSpan.SpanOfTruncated(v, n);
    }
  }

  lemma WrapsOne(data: map<string, Outer>, key: string)
    requires Wraps(data, key)
    ensures key in data && data[key].OText? && Unwrap(data) == UnwrapText(Strip(data[key].s), |data|)
  {
    assert key in Candidates(data);
    forall k | Wraps(data, k)
      ensures k == key
    {
      assert k in Candidates(data);
    }
  }

  /** A complete document is unwrapped exactly when it is richer than its envelope. */
  lemma CompleteDocumentUnwraps(data: map<string, Outer>, key: string, lead: string, v: Value, trail: string)
    requires Wraps(data, key) && Good(v) && v.Obj? && Spaces(lead) && Spaces(trail)
    requires key in data && data[key] == OText(lead + (Text(v) + trail))
    ensures Unwrap(data) == if |Fields(v.members)| > |data| then Inner(Fields(v.members)) else Kept
  {
    hide Loads;
    hide Salvaged;
    hide Strip;
    hide TextValue;
    hide Wraps;
    WrapsOne(data, key);
    FirstChar(v, "");
    LastChar(v);
    StripAround(lead, Text(v), trail);
    LoadsText("", v, "");
    assert "" + TextValue(v, "") == Text(v);
  }

  lemma LastChar(v: Value)
    requires v.Obj?
    ensures Text(v) != "" && Text(v)[|Text(v)| - 1] == '}'
  {
    if v.members == [] {
      assert Text(v) == (['{'] + v.pad) + ['}'];
    } else {
      assert "" + "}" == "}" && ['}'] + "" == "}";
      MembersAppend(v.members, "", "}");
    }
  }

  /** A document cut anywhere is replaced by its recovered pairs exactly when they are richer
      than the envelope; `m` is what is left of the cut text once trailing blanks are stripped. */
  lemma TruncatedDocumentUnwraps(data: map<string, Outer>, key: string, lead: string, v: Value, n: nat)
    returns (m: nat)
    requires Wraps(data, key) && Good(v) && v.Obj? && Spaces(lead)
    requires 1 <= n < |Text(v)| && key in data && data[key] == OText(lead + Text(v)[..n])
    ensures 1 <= m <= n && forall i :: m <= i < n ==> IsSpace(Text(v)[i])
    ensures var d := Recover(v.members, "}", m - 1, 0);
            Unwrap(data) == if |d| > |data| then Inner(d) else Kept
  {
    hide Loads;
    hide Salvaged;
    hide Recover;
    hide TextValue;
    hide Good;
    hide Wraps;
    hide StripRight;
    hide SkipSpace;
    var s := Text(v)[..n];
    WrapsOne(data, key);
    FirstChar(v, "");
    SkipSpaceExact(lead, s);
    m := |StripRight(s)|;
    StripRightKeeps(s, 0);
    StripRightDrops(s);
    assert StripRight(s) == Text(v)[..m];
    LoadsOfTruncatedFails(v, m);
    SalvageOfTruncatedDocument(v, m);
  }

  lemma {:induction false} StripRightKeeps(s: string, i: nat)
    requires i < |s| && !IsSpace(s[i])
    ensures i < |StripRight(s)|
    decreases |s|
  {
    if IsSpace(s[|s| - 1]) {
      StripRightKeeps(s[..|s| - 1], i);
    }
  }

  lemma {:induction false} StripRightDrops(s: string)
    ensures forall i :: |StripRight(s)| <= i < |s| ==> IsSpace(s[i])
    decreases |s|
  {
    if s != "" && IsSpace(s[|s| - 1]) {
      StripRightDrops(s[..|s| - 1]);
    }
  }

  // ---- the pattern ---------------------------------------------------------------------------

  /** `tail` is spaces, a quoted key, spaces, a colon, spaces and a text that starts with a brace. */
  predicate Pattern(tail: string, w1: string, key: string, w2: string, w3: string, rest: string) {
    && Spaces(w1) && Spaces(w2) && Spaces(w3) && key != "" && NoQuote(key) && StartsWithBrace(rest)
    && tail == w1 + (['\"'] + (key + (['\"'] + (w2 + ([':'] + (w3 + rest))))))
  }

  lemma {:induction false} SkipSpaceSplit(s: string) returns (w: string)
    ensures Spaces(w) && s == w + SkipSpace(s)
  {
    hide IsSpace;
    if s != "" && IsSpace(s[0]) {
      var w' := SkipSpaceSplit(s[1..]);
      w := [s[0]] + w';
    } else {
      w := "";
    }
  }

  lemma {:induction false} UpToQuoteExact(key: string, k: string)
    requires NoQuote(key)
    ensures UpToQuote(key + (['\"'] + k)) == (key, ['\"'] + k)
  {
    if key == "" {
      assert key + (['\"'] + k) == ['\"'] + k;
    } else {
      assert (key + (['\"'] + k))[1..] == key[1..] + (['\"'] + k);
      UpToQuoteExact(key[1..], k);
      assert [key[0]] + key[1..] == key;
    }
  }

  /** `MatchPair` finds the groups of the pattern whenever the pattern matches, and only then. */
  lemma MatchPairIsThePattern(tail: string, key: string, rest: string)
    ensures MatchPair(tail) == Some((key, rest)) <==> exists w1, w2, w3 :: Pattern(tail, w1, key, w2, w3, rest)
  {
    if MatchPair(tail) == Some((key, rest)) {
      PatternOfMatch(tail, key, rest);
    }
    forall w1, w2, w3 | Pattern(tail, w1, key, w2, w3, rest)
      ensures MatchPair(tail) == Some((key, rest))
    {
      var s3 := w3 + rest;
      var s2 := w2 + ([':'] + s3);
      var s1 := key + (['\"'] + s2);
      SkipSpaceExact(w1, ['\"'] + s1);
      AfterExact('\"', s1);
      UpToQuoteExact(key, s2);
      AfterExact('\"', s2);
      SkipSpaceExact(w2, [':'] + s3);
      AfterExact(':', s3);
      SkipSpaceExact(w3, rest);
    }
  }

  lemma PatternOfMatch(tail: string, key: string, rest: string)
    requires MatchPair(tail) == Some((key, rest))
    ensures exists w1, w2, w3 :: Pattern(tail, w1, key, w2, w3, rest)
  {
    var w1 := SkipSpaceSplit(tail);
    var a := After(SkipSpace(tail), '\"').value;
    UpToQuoteParts(a);
    var c := After(UpToQuote(a).1, '\"').value;
    var w2 := SkipSpaceSplit(c);
    var d := After(SkipSpace(c), ':').value;
    var w3 := SkipSpaceSplit(d);
    assert Pattern(tail, w1, key, w2, w3, rest);
  }
}
