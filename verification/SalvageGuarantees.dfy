/**
  What the recovered pairs are worth: nothing is invented or shortened, more text never
  recovers less, and the two places where recovery gives less than the text carries.
 */
module SalvageGuarantees {
  import opened Json
  import opened Wrappers
  import opened Salvage
  import opened SalvageRecovery

  /** `a` is `b`, or an object made of some of the fields of `b`, recursively. */
  ghost predicate PartOf(a: Json, b: Json)
    decreases a
  {
    a == b ||
    (a.JObj? && b.JObj? &&
     forall k :: k in a.fields ==> k in b.fields && PartOf(a.fields[k], b.fields[k]))
  }

  predicate PlainKey(key: seq<Item>) { forall i :: 0 <= i < |key| ==> key[i].Plain? && key[i].c != '\"' }

  /** Distinct keys without escapes, in `v` and in every object reached through objects. */
  ghost predicate PlainDistinct(v: Value)
    decreases v
  {
    v.Obj? ==>
      && Distinct(v.members)
      && forall i :: 0 <= i < |v.members| ==> PlainKey(v.members[i].key) && PlainDistinct(v.members[i].v)
  }

  predicate Distinct(ms: seq<Member>) {
    forall i, j :: 0 <= i < j < |ms| ==> Decode(ms[i].key) != Decode(ms[j].key)
  }

  // ---- dictionaries of distinct members ------------------------------------------------

  lemma {:induction false} FieldsIndex(ms: seq<Member>, key: string) returns (i: nat)
    requires key in Fields(ms)
    ensures i < |ms| && Decode(ms[i].key) == key
  {
    if key in Fields(ms[1..]) {
      var j := FieldsIndex(ms[1..], key);
      i := j + 1;
    } else {
      i := 0;
    }
  }

  lemma {:induction false} FieldsAt(ms: seq<Member>, i: nat)
    requires Distinct(ms) && i < |ms|
    ensures Decode(ms[i].key) in Fields(ms) && Fields(ms)[Decode(ms[i].key)] == Meaning(ms[i].v)
  {
    if i > 0 {
      FieldsAt(ms[1..], i - 1);
    } else if Decode(ms[0].key) in Fields(ms[1..]) {
      var j := FieldsIndex(ms[1..], Decode(ms[0].key));
      assert false;
    }
  }

  lemma FieldsOfPrefix(ms: seq<Member>, k: nat, key: string)
    requires Distinct(ms) && k <= |ms| && key in Fields(ms[..k])
    ensures key in Fields(ms) && Fields(ms)[key] == Fields(ms[..k])[key]
  {
    var i := FieldsIndex(ms[..k], key);
    FieldsAt(ms[..k], i);
    FieldsAt(ms, i);
  }

  // ---- keys --------------------------------------------------------------------------

  lemma {:induction false} RawLength(key: seq<Item>)
    requires GoodItems(key)
    ensures |Raw(key)| >= |key|
    ensures |Raw(key)| == |key| <==> PlainKey(key)
  {
    if key != [] {
      RawLength(key[1..]);
      ItemAppend(key[0], "", Raw(key[1..]));
      assert "" + Raw(key[1..]) == Raw(key[1..]);
    }
  }

  lemma {:induction false} RawOfPlainKey(key: seq<Item>)
    requires PlainKey(key)
    ensures Raw(key) == Decode(key) && NoQuote(Raw(key))
  {
    if key != [] {
      RawOfPlainKey(key[1..]);
      assert Decode(key) == [key[0].c] + Decode(key[1..]);
    }
  }

  lemma DecodedQuote(key: seq<Item>)
    requires GoodItems(key) && !NoQuote(Raw(key))
    ensures !NoQuote(Decode(key)) && !PlainKey(key)
  {
    hide Raw;
    if forall i :: 0 <= i < |key| ==> key[i] != Short('\"') {
      RawHasNoQuote(key);
      assert false;
    } else {
      var i :| 0 <= i < |key| && key[i] == Short('\"');
      assert Decode(key)[i] == '\"';
    }
  }

  /** The straddling pair keeps the raw key up to its first quotation mark, and that is the real key exactly when it has no escape. */
  lemma StraddlingKeyIsGenuineIffPlain(m: Member, t: string, j: nat, depth: nat)
    requires GoodMember(m) && Straddle(m, t, j, depth) != map[]
    ensures Straddle(m, t, j, depth).Keys == {UpToQuote(Raw(m.key)).0}
    ensures UpToQuote(Raw(m.key)).0 == Decode(m.key) <==> PlainKey(m.key)
  {
    var (a, quoted) := UpToQuote(Raw(m.key));
    UpToQuoteParts(Raw(m.key));
    assert a + "" == a;
    RawLength(m.key);
    if PlainKey(m.key) {
      RawOfPlainKey(m.key);
    }
    if !NoQuote(Raw(m.key)) {
      DecodedQuote(m.key);
    }
  }

  lemma {:induction false} BraceStaysAhead(b: string, k: string)
    requires SkipSpace(b) != "" && SkipSpace(b)[0] == '{'
    ensures SkipSpace(b + k) != "" && SkipSpace(b + k)[0] == '{'
  {
    assert (b + k)[1..] == b[1..] + k;
    if IsSpace(b[0]) {
      BraceStaysAhead(b[1..], k);
    }
  }

  lemma {:induction false} ObjectStaysAhead(b: string, k: string)
    requires MatchObject(b).Some?
    ensures MatchObject(b + k).Some?
  {
    assert (b + k)[1..] == b[1..] + k;
    if IsSpace(b[0]) {
      ObjectStaysAhead(b[1..], k);
    } else {
      BraceStaysAhead(b[1..], k);
    }
  }

  /** The pattern finds a member's own key or nothing, exactly when the key does not itself read as the end of a
      key, a colon and a brace; otherwise it ends the key at that quotation mark. */
  lemma PatternFindsOwnKeyIff(m: Member, t: string)
    requires GoodMember(m)
    ensures (MatchPair(TextMember(m, t)).Some? ==> MatchPair(TextMember(m, t)).value.0 == Raw(m.key)) <==> ReadableKey(Raw(m.key))
  {
    hide MatchPair, TextMember, Head, Good;
    var raw := Raw(m.key);
    var (a, quoted) := UpToQuote(raw);
    UpToQuoteParts(raw);
    var text := TextMember(m, t);
    assert text[..|text|] == text;
    MatchMember(m, t, |text|);
    if !NoQuote(raw) {
      var rest := BehindInnerQuote(m, t);
      QuotedText(m, t);
      assert text[AfterInnerQuote(m)..|text|] == rest && rest[..|rest|] == rest;
      if ReadableKey(raw) {
        NoObjectAhead(quoted[1..], m.mid + ([':'] + (m.gap + TextValue(m.v, m.post + t))), |rest|);
      } else {
        ObjectStaysAhead(quoted[1..], ['\"'] + (m.mid + ([':'] + (m.gap + TextValue(m.v, m.post + t)))));
      }
      assert |a| < |raw|;
    }
  }

  // ---- nothing is invented or shortened --------------------------------------------------

  lemma {:induction false} StraddleIsPart(m: Member, t: string, j: nat, depth: nat)
    requires PlainKey(m.key) && PlainDistinct(m.v)
    ensures forall key :: key in Straddle(m, t, j, depth) ==>
              key == Decode(m.key) && PartOf(Straddle(m, t, j, depth)[key], Meaning(m.v))
    decreases m
  {
    RawOfPlainKey(m.key);
    if Straddle(m, t, j, depth) != map[] {
      RecoveredIsPart(m.v, ['}'] + (m.post + t), j - |Head(m)| - 1, depth + 1);
    }
  }

  /** Every recovered field is a field of the original, whole or, for a straddling object, in part. */
  lemma {:induction false} RecoveredIsPart(v: Value, t: string, n: nat, depth: nat)
    requires v.Obj? && PlainDistinct(v)
    ensures PartOf(JObj(Recover(v.members, t, n, depth)), Meaning(v))
    decreases v
  {
    var ms := v.members;
    var got := Recover(ms, t, n, depth);
    if ms != [] {
      var (k, j) := Split(ms, n);
      StraddleIsPart(ms[k], AfterStraddle(ms, k, t), j, depth);
      FieldsAt(ms, k);
      forall key | key in got
        ensures key in Fields(ms) && PartOf(got[key], Fields(ms)[key])
      {
        if key !in Straddle(ms[k], AfterStraddle(ms, k, t), j, depth) {
          FieldsOfPrefix(ms, k, key);
        }
      }
    }
  }

  /** Whatever salvage returns for a cut document with distinct keys free of escapes is a part of that document. */
  lemma SalvageInventsNothing(v: Value, n: nat)
    requires v.Obj? && Good(v) && PlainDistinct(v) && n < |Text(v)| && Salvaged(Text(v)[..n], 0).Some?
    ensures PartOf(JObj(Salvaged(Text(v)[..n], 0).value), Meaning(v))
  {
    hide Salvaged, Recover, Meaning, PartOf, TextValue;
    SalvageOfTruncatedDocument(v, n);
    RecoveredIsPart(v, "}", n - 1, 0);
  }

  // ---- more text never recovers less ----------------------------------------------------

  lemma {:induction false} SplitMonotone(ms: seq<Member>, n: nat, n': nat)
    requires ms != [] && n <= n'
    ensures var (k, j), (k', j') := Split(ms, n), Split(ms, n');
            k < k' || (k == k' && j <= j')
  {
    var first := |TextMember(ms[0], "")|;
    if |ms| > 1 && n > first {
      SplitMonotone(ms[1..], n - first - 1, n' - first - 1);
    }
  }

  lemma {:induction false} StraddleGrows(m: Member, t: string, j: nat, j': nat, depth: nat)
    requires PlainKey(m.key) && PlainDistinct(m.v) && j <= j'
    ensures PartOf(JObj(Straddle(m, t, j, depth)), JObj(Straddle(m, t, j', depth)))
    decreases m
  {
    hide Recover;
    hide Head;
    RawOfPlainKey(m.key);
    hide Raw;
    var d := Straddle(m, t, j, depth);
    if d != map[] {
      RecoveryGrows(m.v, ['}'] + (m.post + t), j - |Head(m)| - 1, j' - |Head(m)| - 1, depth + 1);
      var inner := Recover(m.v.members, ['}'] + (m.post + t), j - |Head(m)| - 1, depth + 1);
      var inner' := Recover(m.v.members, ['}'] + (m.post + t), j' - |Head(m)| - 1, depth + 1);
      assert inner' != map[];
      assert d == map[Raw(m.key) := JObj(inner)];
      assert Straddle(m, t, j', depth) == map[Raw(m.key) := JObj(inner')];
    }
  }

  /** Whatever a prefix recovers, every longer prefix recovers too. */
  lemma {:induction false} RecoveryGrows(v: Value, t: string, n: nat, n': nat, depth: nat)
    requires v.Obj? && PlainDistinct(v) && n <= n'
    ensures PartOf(JObj(Recover(v.members, t, n, depth)), JObj(Recover(v.members, t, n', depth)))
    decreases v
  {
    var ms := v.members;
    if ms != [] {
      var (k, j) := Split(ms, n);
      var (k', j') := Split(ms, n');
      SplitMonotone(ms, n, n');
      var got, got' := Recover(ms, t, n, depth), Recover(ms, t, n', depth);
      StraddleIsPart(ms[k], AfterStraddle(ms, k, t), j, depth);
      StraddleIsPart(ms[k'], AfterStraddle(ms, k', t), j', depth);
      forall key | key in got
        ensures key in got' && PartOf(got[key], got'[key])
      {
        if k == k' {
          StraddlerGrows(ms, t, k, j, j', depth, key);
        } else {
          EarlierMemberKept(ms, t, k', j', depth, key, k, j);
        }
      }
    }
  }

  lemma StraddlerGrows(ms: seq<Member>, t: string, k: nat, j: nat, j': nat, depth: nat, key: string)
    requires k < |ms| && j <= j' && Distinct(ms)
    requires forall i :: 0 <= i < |ms| ==> PlainKey(ms[i].key) && PlainDistinct(ms[i].v)
    requires key in Fields(ms[..k]) + Straddle(ms[k], AfterStraddle(ms, k, t), j, depth)
    ensures var got := Fields(ms[..k]) + Straddle(ms[k], AfterStraddle(ms, k, t), j, depth);
            var got' := Fields(ms[..k]) + Straddle(ms[k], AfterStraddle(ms, k, t), j', depth);
            key in got' && PartOf(got[key], got'[key])
  {
    StraddleIsPart(ms[k], AfterStraddle(ms, k, t), j', depth);
    StraddleGrows(ms[k], AfterStraddle(ms, k, t), j, j', depth);
    var d, d' := Straddle(ms[k], AfterStraddle(ms, k, t), j, depth), Straddle(ms[k], AfterStraddle(ms, k, t), j', depth);
    if key in d {
      assert key in d' && PartOf(d[key], d'[key]);
    } else {
      var i := FieldsIndex(ms[..k], key);
      assert Decode(ms[i].key) != Decode(ms[k].key);
    }
  }

  /** Once the comma after it has arrived, a member is recovered whole. */
  lemma EarlierMemberKept(ms: seq<Member>, t: string, k': nat, j': nat, depth: nat, key: string, k: nat, j: nat)
    requires k < k' < |ms| && Distinct(ms)
    requires forall i :: 0 <= i < |ms| ==> PlainKey(ms[i].key) && PlainDistinct(ms[i].v)
    requires key in Fields(ms[..k]) + Straddle(ms[k], AfterStraddle(ms, k, t), j, depth)
    ensures var got := Fields(ms[..k]) + Straddle(ms[k], AfterStraddle(ms, k, t), j, depth);
            var got' := Fields(ms[..k']) + Straddle(ms[k'], AfterStraddle(ms, k', t), j', depth);
            key in got' && PartOf(got[key], got'[key])
  {
    StraddleIsPart(ms[k], AfterStraddle(ms, k, t), j, depth);
    StraddleIsPart(ms[k'], AfterStraddle(ms, k', t), j', depth);
    assert ms[..k'][..k] == ms[..k];
    FieldsAt(ms[..k'], k);
    var i := k;
    if key !in Straddle(ms[k], AfterStraddle(ms, k, t), j, depth) {
      i := FieldsIndex(ms[..k], key);
      FieldsOfPrefix(ms[..k'], k, key);
    }
    assert Decode(ms[i].key) != Decode(ms[k'].key);
  }

  // ---- where recovery gives less than the text carries ---------------------------------

  /** However much of it has arrived, the whole of it included, an object with distinct escape-free keys is recovered
      whole exactly when it is empty: its last member is dropped, or shortened in turn. */
  lemma {:induction false} RecoveredWholeIffEmpty(v: Value, t: string, n: nat, depth: nat)
    requires v.Obj? && PlainDistinct(v)
    ensures Recover(v.members, t, n, depth) == Fields(v.members) <==> v.members == []
    decreases v
  {
    var ms := v.members;
    if ms != [] {
      var last := |ms| - 1;
      var (k, j) := Split(ms, n);
      FieldsAt(ms, last);
      StraddleIsPart(ms[k], AfterStraddle(ms, k, t), j, depth);
      RawOfPlainKey(ms[k].key);
      var key := Decode(ms[last].key);
      if key in Fields(ms[..k]) {
        var i := FieldsIndex(ms[..k], key);
        assert false;
      }
      if k == last && ms[k].v.Obj? {
        StraddleIsNotWhole(ms[k], AfterStraddle(ms, k, t), j, depth);
      }
    }
  }

  lemma {:induction false} StraddleIsNotWhole(m: Member, t: string, j: nat, depth: nat)
    requires m.v.Obj? && PlainKey(m.key) && PlainDistinct(m.v)
    ensures Straddle(m, t, j, depth) != map[Decode(m.key) := Meaning(m.v)]
    decreases m
  {
    RawOfPlainKey(m.key);
    var d := Straddle(m, t, j, depth);
    if d != map[] {
      RecoveredWholeIffEmpty(m.v, ['}'] + (m.post + t), j - |Head(m)| - 1, depth + 1);
      assert d[Raw(m.key)] != Meaning(m.v);
    }
    assert Decode(m.key) in map[Decode(m.key) := Meaning(m.v)];
  }

  const PAIR_X := Pair0([Plain('x')], Num("1"))
  const PAIR_Y := Pair0([Plain('y')], Num("2"))
  const ESCAPED := Pair0([Unit("0061")], Obj("", [PAIR_X, PAIR_Y]))

  function Pair0(key: seq<Item>, v: Value): Member { Member("", key, "", "", v, "") }

  /** A member without blanks, under a key without escapes. */
  lemma PlainPair(key: seq<Item>, t: string, k: string)
    requires PlainKey(key)
    ensures TextMember(Pair0(key, Num(t)), k) == ['\"'] + Decode(key) + ['\"', ':'] + t + k
    ensures Fields([Pair0(key, Num(t))]) == map[Decode(key) := JNum(t)]
  {
    var m := Pair0(key, Num(t));
    assert [m][1..] == [];
    RawOfPlainKey(key);
    MemberFromHead(m, k);
    hide Raw, Decode, TextMember;
    assert "" + ([':'] + ("" + (t + ("" + k)))) == [':'] + (t + k);
    assert TextMember(m, k) == ['\"'] + (Decode(key) + (['\"'] + ([':'] + (t + k))));
  }

  lemma SmallPair(c: char, t: string, k: string)
    requires c != '\"'
    ensures var m := Pair0([Plain(c)], Num(t));
            TextMember(m, k) == ['\"', c, '\"', ':'] + t + k && Fields([m]) == map[[c] := JNum(t)]
  {
    PlainPair([Plain(c)], t, k);
    assert Decode([Plain(c)]) == [c];
  }

  lemma EscapedKey()
    ensures GoodItem(Unit("0061")) && Decode(ESCAPED.key) == "a" && Raw(ESCAPED.key) == "\\u0061" && Head(ESCAPED) == "\"\\u0061\":"
  {
    assert Hex4("0061") == 97;
    assert ESCAPED.key[1..] == [];
  }

  lemma EscapedText()
    ensures |Text(Obj("", [ESCAPED]))| == 24
  {
    hide TextMember;
    EscapedKey();
    SmallPair('x', "1", "");
    SmallPair('y', "2", "}}");
    var inner := [PAIR_X, PAIR_Y];
    assert inner[1..] == [PAIR_Y];
    FirstMember(inner, "}}");
    assert |TextMembers([PAIR_Y], "}}")| == 7 && |TextMembers(inner, "}}")| == 13;
    assert "" + "}" == "}" && ['}'] + "}" == "}}" && ['}'] + "" == "}";
    assert |TextValue(ESCAPED.v, "}")| == 14;
    MemberFromHead(ESCAPED, "}");
    assert |TextMember(ESCAPED, "}")| == 23;
    assert TextMembers([ESCAPED], "}") == TextMember(ESCAPED, "}");
    assert Text(Obj("", [ESCAPED])) == ['{'] + TextMember(ESCAPED, "}");
  }

  lemma EscapedRecovery()
    ensures Recover([ESCAPED], "}", 16, 0) == map["\\u0061" := JObj(map["x" := JNum("1")])]
  {
    hide TextMember;
    EscapedKey();
    SmallPair('x', "1", "");
    var inner := [PAIR_X, PAIR_Y];
    assert inner[1..] == [PAIR_Y] && Split(inner, 6) == (1, 0) && inner[..1] == [PAIR_X];
    assert Straddle(PAIR_Y, "}}", 0, 1) == map[];
    assert Recover(inner, "}}", 6, 1) == map["x" := JNum("1")];
    assert "x" in Recover(inner, "}}", 6, 1) && ESCAPED.v.members == inner && |Head(ESCAPED)| == 9;
    assert NoQuote("\\u0061") && ['}'] + ("" + "}") == "}}";
    assert Straddle(ESCAPED, "}", 16, 0) == map["\\u0061" := JObj(map["x" := JNum("1")])];
    assert Split([ESCAPED], 16) == (0, 16) && [ESCAPED][..0] == [];
    assert Recover([ESCAPED], "}", 16, 0) == Fields([]) + Straddle(ESCAPED, "}", 16, 0);
  }

  lemma EscapedIsGood()
    ensures Good(Obj("", [ESCAPED])) && GoodItems(ESCAPED.key) && GoodItems(PAIR_X.key) && GoodItems(PAIR_Y.key)
  {
    hide TextMember, Raw, Head;
    EscapedKey();
    assert GoodItem(Plain('x')) && GoodItem(Plain('y'));
    assert Good(Num("1")) && Good(Num("2"));
    assert GoodMember(PAIR_X) && GoodMember(PAIR_Y);
    assert Good(ESCAPED.v);
    assert GoodMember(ESCAPED);
  }

  /** The key "a", written as an escape, comes back as the six characters of the escape. */
  lemma EscapedKeyIsKeptRaw()
    ensures var v := Obj("", [ESCAPED]);
            && Good(v)
            && Decode(ESCAPED.key) == "a"
            && 17 < |Text(v)|
            && Salvaged(Text(v)[..17], 0) == Some(map["\\u0061" := JObj(map["x" := JNum("1")])])
  {
    hide Salvaged;
    hide TextValue;
    hide Recover;
    hide Straddle;
    EscapedKey();
    EscapedText();
    EscapedRecovery();
    EscapedIsGood();
    hide Good;
    assert "\\u0061" in Recover([ESCAPED], "}", 16, 0);
    SalvageOfTruncatedDocument(Obj("", [ESCAPED]), 17);
  }

  // ---- a key that reads as a pair of its own ---------------------------------------------

  const SHORT_KEY := [Plain(':'), Plain('1'), Plain(',')]
  const UNREADABLE := Pair0([Short('\"'), Plain(':'), Plain('{')], Obj("", [Pair0(SHORT_KEY, Num("2"))]))

  /** What the text behind the quotation mark looks like the beginning of. */
  const MISTAKEN := [Pair0([Plain(':'), Plain('{')], Num("1")), Pair0([Plain(':'), Plain('2')], Num("3"))]

  lemma UnreadableKey()
    ensures Raw(UNREADABLE.key) == ['\\', '\"'] + ":{" && GoodItems(UNREADABLE.key) && GoodItems(SHORT_KEY)
  {
    var key := UNREADABLE.key;
    assert key[1..] == [Plain(':'), Plain('{')] && key[1..][1..] == [Plain('{')] && key[1..][1..][1..] == [];
  }

  lemma UnreadableValue()
    ensures TextValue(UNREADABLE.v, "" + "}") == "{\":1,\":2" + "}}"
  {
    var inner := Pair0(SHORT_KEY, Num("2"));
    PlainPair(SHORT_KEY, "2", "}}");
    assert Decode(SHORT_KEY) == ":1,";
    hide TextMember;
    assert "" + "}" == "}" && ['}'] + "}" == "}}";
    assert TextMembers([inner], "}}") == TextMember(inner, "}}");
    assert TextValue(UNREADABLE.v, "}") == ['{'] + TextMember(inner, "}}");
  }

  lemma Cutting(raw: string, value: string, end: string)
    requires |raw| == 4
    ensures var text := "" + (['\"'] + (raw + (['\"'] + ("" + ([':'] + ("" + (value + end)))))));
            |text| == 7 + |value| + |end| && text[3..7 + |value|] == raw[2..] + ['\"', ':'] + value
  {
  }

  lemma UnreadableText()
    ensures |TextMember(UNREADABLE, "}")| == 17 && TextMember(UNREADABLE, "}")[3..15] == ":{\":{\":1,\":2"
    ensures |Text(Obj("", [UNREADABLE]))| == 18
  {
    UnreadableKey();
    UnreadableValue();
    MemberFromHead(UNREADABLE, "}");
    hide Raw, TextMember;
    Cutting(Raw(UNREADABLE.key), "{\":1,\":2", "}}");
    assert TextMembers([UNREADABLE], "}") == TextMember(UNREADABLE, "}");
    assert "" + "}" == "}" && ['}'] + "" == "}";
    assert Text(Obj("", [UNREADABLE])) == ['{'] + TextMember(UNREADABLE, "}");
  }

  function Front(d0: string, t0: string, d1: string): string { ['{', '\"'] + d0 + ['\"', ':'] + t0 + [',', '\"'] + d1 }

  /** Two members without blanks, cut at the end of the second key. */
  lemma TwoPairs(key0: seq<Item>, t0: string, key1: seq<Item>, t1: string)
    requires PlainKey(key0) && PlainKey(key1)
    ensures var v := Obj("", [Pair0(key0, Num(t0)), Pair0(key1, Num(t1))]);
            var front := Front(Decode(key0), t0, Decode(key1));
            |front| < |Text(v)| && Text(v)[..|front|] == front
    ensures |TextMember(Pair0(key0, Num(t0)), "")| == |key0| + 3 + |t0|
  {
    var ms := [Pair0(key0, Num(t0)), Pair0(key1, Num(t1))];
    PlainPair(key0, t0, "");
    PlainPair(key1, t1, "}");
    hide TextMember, Decode;
    assert ms[1..] == [ms[1]];
    FirstMember(ms, "}");
    assert "" + "}" == "}" && ['}'] + "" == "}";
    assert TextMembers([ms[1]], "}") == TextMember(ms[1], "}");
    var d0, d1 := Decode(key0), Decode(key1);
    assert Text(Obj("", ms)) == ['{'] + ((['\"'] + d0 + ['\"', ':'] + t0 + "") + ([','] + (['\"'] + d1 + ['\"', ':'] + t1 + "}")));
    FrontOf(d0, t0, d1, t1);
  }

  lemma FrontOf(d0: string, t0: string, d1: string, t1: string)
    ensures var front := Front(d0, t0, d1);
            ['{'] + ((['\"'] + d0 + ['\"', ':'] + t0 + "") + ([','] + (['\"'] + d1 + ['\"', ':'] + t1 + "}")))
            == front + (['\"', ':'] + t1 + "}")
  {
  }

  lemma MistakenIsGood()
    ensures Good(Obj("", MISTAKEN))
  {
    hide TextMember;
    assert Good(Num("1")) && Good(Num("3")) && GoodItems(MISTAKEN[0].key) && GoodItems(MISTAKEN[1].key);
    assert GoodMember(MISTAKEN[0]) && GoodMember(MISTAKEN[1]);
  }

  lemma MistakenFront()
    ensures Front(":{", "1", ":2") == "{\":{\":1,\":2"
  {
  }

  lemma MistakenKeys()
    ensures Decode(MISTAKEN[0].key) == ":{" && Decode(MISTAKEN[1].key) == ":2" && PlainKey(MISTAKEN[0].key) && PlainKey(MISTAKEN[1].key)
  {
  }

  lemma MistakenText()
    ensures 11 < |Text(Obj("", MISTAKEN))| && Text(Obj("", MISTAKEN))[..11] == "{\":{\":1,\":2"
    ensures |TextMember(MISTAKEN[0], "")| == 6 && Fields(MISTAKEN[..1]) == map[":{" := JNum("1")]
  {
    hide TextMember, TextValue, Decode, Front, PlainKey, Fields;
    MistakenKeys();
    MistakenFront();
    TwoPairs(MISTAKEN[0].key, "1", MISTAKEN[1].key, "3");
    PlainPair(MISTAKEN[0].key, "1", "");
    assert MISTAKEN[..1] == [MISTAKEN[0]];
  }

  lemma MistakenRecovery()
    ensures Salvaged("{\":{\":1,\":2", 1) == Some(map[":{" := JNum("1")])
  {
    MistakenText();
    MistakenIsGood();
    hide Salvaged, TextMember, TextValue, Good;
    var ms := MISTAKEN;
    assert ms[1..] == [ms[1]] && Split(ms, 10) == (1, 3);
    assert !ms[1].v.Obj? && PlainKey(ms[1].key);
    RawOfPlainKey(ms[1].key);
    assert Straddle(ms[1], "}", 3, 1) == map[];
    assert Recover(ms, "}", 10, 1) == Fields(ms[..1]) + map[];
    assert ['}'] + "" == "}" && ":{" in Recover(ms, "}", 10, 1);
    SalvageOfPrefix(Obj("", ms), "", 11, 1);
  }

  lemma MisreadIs(m: Member, t: string, j: nat, depth: nat, behind: string, inner: Dict)
    requires AfterInnerQuote(m) <= j <= |TextMember(m, t)| && TextMember(m, t)[AfterInnerQuote(m)..j] == behind
    requires MatchObject(behind).Some? && Salvaged(MatchObject(behind).value, depth + 1) == Some(inner)
    ensures Misread(m, t, j, depth) == map[UpToQuote(Raw(m.key)).0 := JObj(inner)]
  {
    hide Salvaged, TextMember, MatchObject, Raw, UpToQuote;
  }

  lemma UnreadableRecovery()
    ensures Recover([UNREADABLE], "}", 15, 0) == map["\\" := JObj(map[":{" := JNum("1")])]
  {
    UnreadableKey();
    UnreadableText();
    MistakenRecovery();
    hide Salvaged, TextMember, Raw;
    var raw := Raw(UNREADABLE.key);
    assert raw[0] == '\\' && raw[1] == '\"';
    assert UpToQuote(raw[1..]) == ("", raw[1..]) && UpToQuote(raw) == (['\\'] + "", raw[1..]);
    var behind := ":{\":{\":1,\":2";
    assert behind[1..] == "{\":{\":1,\":2" && MatchObject(behind) == Some(behind[1..]);
    assert AfterInnerQuote(UNREADABLE) == 3;
    assert UpToQuote(raw).0 == "\\" && TextMember(UNREADABLE, "}")[3..15] == behind;
    MisreadIs(UNREADABLE, "}", 15, 0, behind, map[":{" := JNum("1")]);
    assert Misread(UNREADABLE, "}", 15, 0) == map["\\" := JObj(map[":{" := JNum("1")])];
    assert Split([UNREADABLE], 15) == (0, 15) && [UNREADABLE][..0] == [];
    assert Recover([UNREADABLE], "}", 15, 0) == Fields([]) + Straddle(UNREADABLE, "}", 15, 0);
  }

  /** The document {"\":{":{":1,":2}}, cut behind the 2: salvage returns a key and a pair that are not in it. */
  lemma UnreadableKeyInventsAPair()
    ensures var v := Obj("", [UNREADABLE]);
            && Good(v) && 16 < |Text(v)|
            && Salvaged(Text(v)[..16], 0) == Some(map["\\" := JObj(map[":{" := JNum("1")])])
            && Meaning(v) == JObj(map["\":{" := JObj(map[":1," := JNum("2")])])
  {
    UnreadableIsGood();
    UnreadableText();
    UnreadableRecovery();
    hide Salvaged, TextMember, TextValue, Good, Recover;
    assert "\\" in Recover([UNREADABLE], "}", 15, 0);
    SalvageOfTruncatedDocument(Obj("", [UNREADABLE]), 16);
  }

  lemma UnreadableIsGood()
    ensures Good(Obj("", [UNREADABLE])) && Meaning(Obj("", [UNREADABLE])) == JObj(map["\":{" := JObj(map[":1," := JNum("2")])])
  {
    UnreadableKey();
    hide TextMember, Raw;
    var inner := Pair0(SHORT_KEY, Num("2"));
    assert Good(Num("2")) && GoodMember(inner) && Good(UNREADABLE.v) && GoodMember(UNREADABLE);
    assert Decode(SHORT_KEY) == ":1," && Decode(UNREADABLE.key) == "\":{";
    assert [inner][1..] == [] && [UNREADABLE][1..] == [];
    assert Fields([inner]) == map[":1," := JNum("2")];
    assert Meaning(UNREADABLE.v) == JObj(map[":1," := JNum("2")]);
    assert Fields([UNREADABLE]) == map["\":{" := Meaning(UNREADABLE.v)];
  }

  // ---- when salvage gives up -----------------------------------------------------------------

  /** Text that is not an object, and text whose part before the last top-level comma is not one, is given up whole. */
  lemma GivenUp(text: string, depth: nat)
    requires text == "" || text[0] != '{' || (Cut(text) >= 0 && (Loads(text[..Cut(text)] + "}").None? || !Loads(text[..Cut(text)] + "}").value.JObj?))
    ensures Salvaged(text, depth) == None
  {
    hide Cut, Loads, TrailingPair;
  }

  /** A straddling object is opened up to the third level below the document, and not beyond. */
  lemma ThreeLevels(m: Member, t: string, j: nat, depth: nat)
    ensures depth >= 3 ==> Straddle(m, t, j, depth) == map[]
    ensures depth < 3 && m.v.Obj? && NoQuote(Raw(m.key)) && Raw(m.key) != "" && j > |Head(m)| &&
            Recover(m.v.members, ['}'] + (m.post + t), j - |Head(m)| - 1, depth + 1) != map[] ==>
              Raw(m.key) in Straddle(m, t, j, depth)
  {
    hide Recover, Head, Raw, NoQuote, Misread;
  }

  /** The members before the straddling one are all there, at every depth. */
  lemma FrontIsKept(ms: seq<Member>, t: string, n: nat, depth: nat, i: nat)
    requires ms != [] && i < Split(ms, n).0 && Distinct(ms)
    requires forall k :: 0 <= k < |ms| ==> PlainKey(ms[k].key) && PlainDistinct(ms[k].v)
    ensures Decode(ms[i].key) in Recover(ms, t, n, depth) && Recover(ms, t, n, depth)[Decode(ms[i].key)] == Meaning(ms[i].v)
  {
    var (k, j) := Split(ms, n);
    FieldsAt(ms[..k], i);
    StraddleIsPart(ms[k], AfterStraddle(ms, k, t), j, depth);
    assert Decode(ms[i].key) != Decode(ms[k].key);
  }
}
