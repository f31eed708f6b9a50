/**
  The four gates of the Lite edition on the rows of the tables: what exactly makes an alert a
  duplicate, silenced, unmatched or cooling, and which rules it is otherwise delivered to.
 */
module LiteGates {
  import opened Wrappers
  import opened LiteStore
  import opened LitePipeline
  import opened LiteRuns

  // ---- the conditions, on rows --------------------------------------------------------------------------

  /** An event of the same identity arrived less than the dedup window before. */
  predicate Seen(t: Tables, s: Settings, a: Alert, now: real) {
    exists i :: 0 <= i < |t.events| && t.events[i].hash == a.hash && now - t.events[i].receivedAt < s.dedupWindow as real
  }

  /** `part` occurs in `text`. */
  predicate Occurs(part: string, text: string) { exists i :: 0 <= i <= |text| && OccursAt(part, text, i) }

  predicate OccursAt(part: string, text: string, i: nat) { i + |part| <= |text| && text[i..i + |part|] == part }

  predicate Hushes(x: Silence, now: real, text: string) { now < x.until && Occurs(x.pattern, text) }

  predicate Muted(t: Tables, a: Alert, now: real) { exists x :: x in t.silences && Hushes(x, now, a.text) }

  /** The rule is enabled and takes the alert: an empty list takes everything. */
  predicate Takes(r: Rule, a: Alert) {
    r.enabled && (r.sources == [] || a.source in r.sources) && (r.importances == [] || a.importance in r.importances)
  }

  /** A delivery of this identity under this name belongs to an alert that arrived less than the cooldown before. */
  predicate Recent(t: Tables, s: Settings, hash: string, name: string, now: real) {
    exists i :: 0 <= i < |t.outbox| && t.outbox[i].ruleName == name && 1 <= t.outbox[i].eventId <= |t.events|
                && t.events[t.outbox[i].eventId - 1].hash == hash
                && now - t.events[t.outbox[i].eventId - 1].receivedAt < s.cooldown as real
  }

  /** Rule number `n`, in order of priority, is reached: it takes the alert, and no earlier rule that does stops there. */
  predicate Reached(rules: seq<Rule>, a: Alert, n: nat) {
    n < |rules| && Takes(rules[n], a) && forall m :: 0 <= m < n ==> !(rules[m].stop && Takes(rules[m], a))
  }

  // ---- the code's own terms mean these --------------------------------------------------------------------

  lemma OccursIff(part: string, text: string)
    ensures Contains(text, part) <==> Occurs(part, text)
  {
    if Contains(text, part) {
      var i :| 0 <= i <= |text| && part <= text[i..];
      assert text[i..i + |part|] == text[i..][..|part|];
      assert OccursAt(part, text, i);
    }
    if Occurs(part, text) {
      var i :| 0 <= i <= |text| && OccursAt(part, text, i);
      assert text[i..i + |part|] == text[i..][..|part|];
    }
  }

  /** The silence found is the first one that hushes the alert. */
  lemma {:induction false} SilenceFound(silences: seq<Silence>, now: real, text: string)
    ensures FirstSilence(silences, now, text).None? <==> forall x :: x in silences ==> !Hushes(x, now, text)
    ensures forall i :: 0 <= i < |silences| && Hushes(silences[i], now, text) && (forall j :: 0 <= j < i ==> !Hushes(silences[j], now, text)) ==>
              FirstSilence(silences, now, text) == Some(silences[i].id)
  {
    hide Occurs, Contains;
    if silences != [] {
      OccursIff(silences[0].pattern, text);
      var rest := silences[1..];
      SilenceFound(rest, now, text);
      assert silences == [silences[0]] + rest;
      if !Hushes(silences[0], now, text) {
        forall i | 0 <= i < |silences| && Hushes(silences[i], now, text) && (forall j :: 0 <= j < i ==> !Hushes(silences[j], now, text))
          ensures FirstSilence(silences, now, text) == Some(silences[i].id)
        {
          assert rest[i - 1] == silences[i];
          assert forall j :: 0 <= j < i - 1 ==> rest[j] == silences[j + 1];
        }
      }
    }
  }

  lemma {:induction false} EnabledExactly(rules: seq<Rule>)
    ensures forall r :: r in Enabled(rules) <==> r in rules && r.enabled
  {
    if rules != [] {
      assert rules == [rules[0]] + rules[1..];
      EnabledExactly(rules[1..]);
    }
  }

  /** The active rules are the enabled ones. */
  lemma ActiveExactly(rules: seq<Rule>)
    ensures forall r :: r in ActiveRules(rules) <==> r in rules && r.enabled
  {
    hide Enabled;
    EnabledExactly(rules);
    forall r ensures r in ActiveRules(rules) <==> r in Enabled(rules) {
      assert r in ActiveRules(rules) <==> r in multiset(ActiveRules(rules));
      assert r in Enabled(rules) <==> r in multiset(Enabled(rules));
    }
  }

  lemma CoolsIffRecent(t: Tables, s: Settings, hash: string, name: string, now: real)
    ensures Cools(t, s, hash, name, now) <==> s.cooldown > 0 && Recent(t, s, hash, name, now)
  {
    hide LastForwardAt;
    var last := LastForwardAt(t.events, t.outbox, hash, name);
    if Recent(t, s, hash, name, now) {
      var i :| 0 <= i < |t.outbox| && t.outbox[i].ruleName == name && 1 <= t.outbox[i].eventId <= |t.events|
               && t.events[t.outbox[i].eventId - 1].hash == hash
               && now - t.events[t.outbox[i].eventId - 1].receivedAt < s.cooldown as real;
      assert ForIdentity(t.events, t.outbox[i], hash, name);
    }
    if last.Some? && now - last.value < s.cooldown as real {
      var i :| 0 <= i < |t.outbox| && ForIdentity(t.events, t.outbox[i], hash, name) &&
               t.events[t.outbox[i].eventId - 1].receivedAt == last.value;
      assert t.outbox[i].ruleName == name;
    }
  }

  lemma ReachedIffConsidered(rules: seq<Rule>, a: Alert, m: nat)
    requires forall r :: r in rules ==> r.enabled
    ensures Reached(rules, a, m) <==> m < Considered(rules, a) && Matches(rules[m], a)
  {
    forall i | 0 <= i < |rules| ensures Matches(rules[i], a) <==> Takes(rules[i], a) {
      assert rules[i] in rules;
    }
    hide Takes, Matches;
    var n := Considered(rules, a);
    assert forall i :: 0 <= i < n - 1 ==> !Stops(rules[i], a);
    assert n < |rules| ==> n > 0 && Stops(rules[n - 1], a);
  }

  lemma MatchedIffReached(t: Tables, a: Alert, r: Rule)
    ensures var rules := ActiveRules(t.rules);
            r in Matched(rules, a) <==> exists n: nat :: Reached(rules, a, n) && rules[n] == r
  {
    var rules := ActiveRules(t.rules);
    ActiveExactly(t.rules);
    var n := Considered(rules, a);
    PrefixInOrder(rules, n);
    MatchingExactly(rules[..n], a);
    forall m: nat ensures Reached(rules, a, m) <==> m < n && Matches(rules[m], a) { ReachedIffConsidered(rules, a, m); }
    hide ActiveRules, Matching, Considered, Reached, Matches;
    if r in Matched(rules, a) {
      var m :| 0 <= m < n && rules[..n][m] == r;
      assert Reached(rules, a, m);
    }
    if m: nat :| Reached(rules, a, m) && rules[m] == r {
      assert rules[..n][m] == r;
    }
  }

  // ---- the gates, in order -----------------------------------------------------------------------------------

  lemma DuplicateFoundIff(t: Tables, s: Settings, a: Alert, now: real)
    ensures RecentDuplicate(t.events, a.hash, now - s.dedupWindow as real).Some? <==> Seen(t, s, a, now)
  {
  }

  lemma SilenceFoundIff(t: Tables, a: Alert, now: real)
    ensures FirstSilence(t.silences, now, a.text).Some? <==> Muted(t, a, now)
  {
    SilenceFound(t.silences, now, a.text);
  }

  lemma NothingMatchedIff(t: Tables, a: Alert)
    ensures Matched(ActiveRules(t.rules), a) == [] <==> forall n: nat :: !Reached(ActiveRules(t.rules), a, n)
  {
    var rules := ActiveRules(t.rules);
    forall r ensures r in Matched(rules, a) <==> exists n: nat :: Reached(rules, a, n) && rules[n] == r { MatchedIffReached(t, a, r); }
    hide ActiveRules, Matched, Reached;
    EmptyIffNone(rules, a, Matched(rules, a));
  }

  /** A rule that is due: reached, and not cooling. */
  ghost predicate IsDue(t: Tables, s: Settings, a: Alert, now: real, r: Rule) {
    var rules := ActiveRules(t.rules);
    exists n: nat :: Reached(rules, a, n) && rules[n] == r && !(s.cooldown > 0 && Recent(t, s, a.hash, r.name, now))
  }

  lemma DueIff(t: Tables, s: Settings, a: Alert, now: real, r: Rule)
    ensures r in DueRules(t, s, a.hash, now, Matched(ActiveRules(t.rules), a)) <==> IsDue(t, s, a, now, r)
  {
    MatchedIffReached(t, a, r);
    CoolsIffRecent(t, s, a.hash, r.name, now);
    InMatchedOrder(t, a);
    hide ActiveRules, Matched, Reached, Recent, Cools;
    DueRulesExactly(t, s, a.hash, now, Matched(ActiveRules(t.rules), a));
  }

  lemma NothingDueIff(t: Tables, s: Settings, a: Alert, now: real)
    ensures DueRules(t, s, a.hash, now, Matched(ActiveRules(t.rules), a)) == [] <==> forall r :: !IsDue(t, s, a, now, r)
  {
    hide DueRules, Matched, ActiveRules, IsDue;
    forall r ensures r in DueRules(t, s, a.hash, now, Matched(ActiveRules(t.rules), a)) <==> IsDue(t, s, a, now, r) {
      DueIff(t, s, a, now, r);
    }
    EmptyIffNoMember(DueRules(t, s, a.hash, now, Matched(ActiveRules(t.rules), a)));
  }

  /** Every verdict: the first gate that holds on the rows decides, and a forwarded alert goes to exactly the rules that are due. */
  lemma JudgeExactly(t: Tables, s: Settings, a: Alert, c: Clock)
    ensures var v := Judge(t, s, a, c);
            && (v.code == Duplicate <==> Seen(t, s, a, c.dedup))
            && (v.code == Silenced <==> !Seen(t, s, a, c.dedup) && Muted(t, a, c.silence))
            && (v.code == NoMatch <==>
                  !Seen(t, s, a, c.dedup) && !Muted(t, a, c.silence) && forall n: nat :: !Reached(ActiveRules(t.rules), a, n))
            && (v.code == Cooldown <==>
                  && !Seen(t, s, a, c.dedup) && !Muted(t, a, c.silence) && (exists n: nat :: Reached(ActiveRules(t.rules), a, n))
                  && forall r :: !IsDue(t, s, a, c.cooldown, r))
            && (v.code == NoSkip ==> forall r :: r in v.due <==> IsDue(t, s, a, c.cooldown, r))
  {
    hide Judge, Seen, Muted, Reached, IsDue, ActiveRules, Matched, DueRules, FirstSilence, RecentDuplicate;
    DuplicateFoundIff(t, s, a, c.dedup);
    SilenceFoundIff(t, a, c.silence);
    NothingMatchedIff(t, a);
    NothingDueIff(t, s, a, c.cooldown);
    VerdictOf(t, s, a, c);
    forall r ensures r in DueRules(t, s, a.hash, c.cooldown, Matched(ActiveRules(t.rules), a)) <==> IsDue(t, s, a, c.cooldown, r) {
      DueIff(t, s, a, c.cooldown, r);
    }
  }

  lemma EmptyIffNoMember(rules: seq<Rule>)
    ensures rules == [] <==> forall r :: r !in rules
  {
    if rules != [] {
      assert rules[0] in rules;
    }
  }

  lemma EmptyIffNone(rules: seq<Rule>, a: Alert, matched: seq<Rule>)
    requires forall r :: r in matched <==> exists n: nat :: Reached(rules, a, n) && rules[n] == r
    ensures matched == [] <==> forall n: nat :: !Reached(rules, a, n)
  {
    EmptyIffNoMember(matched);
    if n: nat :| Reached(rules, a, n) {
      assert rules[n] in matched;
    }
  }

  lemma InMatchedOrder(t: Tables, a: Alert)
    ensures InOrder(Matched(ActiveRules(t.rules), a))
  {
    var rules := ActiveRules(t.rules);
    PrefixInOrder(rules, Considered(rules, a));
    MatchingExactly(rules[..Considered(rules, a)], a);
  }

  lemma VerdictOf(t: Tables, s: Settings, a: Alert, c: Clock)
    ensures var v := Judge(t, s, a, c);
            var dup := RecentDuplicate(t.events, a.hash, c.dedup - s.dedupWindow as real);
            var silence := FirstSilence(t.silences, c.silence, a.text);
            var matched := Matched(ActiveRules(t.rules), a);
            var due := DueRules(t, s, a.hash, c.cooldown, matched);
            && v.code == (if dup.Some? then Duplicate else if silence.Some? then Silenced else if matched == [] then NoMatch
                          else if due == [] then Cooldown else NoSkip)
            && (v.code == NoSkip ==> v.due == due)
  {
    hide ActiveRules, Matched, DueRules, FirstSilence, RecentDuplicate, CooledNames;
  }

  /** What an alert leaves behind: its event carries its identity, text and arrival, its decision the verdict. */
  lemma ProcessedRows(t: Tables, s: Settings, a: Alert, c: Clock)
    ensures var u := Processed(t, s, a, c);
            var v := Judge(t, s, a, c);
            var n := |t.events|;
            && |u.events| == n + 1 && u.events[..n] == t.events
            && u.events[n].hash == a.hash && u.events[n].receivedAt == c.persist && u.events[n].source == a.source && u.events[n].text == a.text
            && |u.decisions| == |t.decisions| + 1 && u.decisions[..|t.decisions|] == t.decisions
            && u.decisions[|t.decisions|].eventId == n + 1 && u.decisions[|t.decisions|].skipCode == v.code
            && u.decisions[|t.decisions|].steps == v.steps && (u.decisions[|t.decisions|].outcome == Forwarded <==> v.code == NoSkip)
            && |u.outbox| == |t.outbox| + |v.due| && u.outbox[..|t.outbox|] == t.outbox
            && (forall i :: 0 <= i < |v.due| ==> u.outbox[|t.outbox| + i].eventId == n + 1 && u.outbox[|t.outbox| + i].ruleName == v.due[i].name)
            && u.rules == t.rules && u.silences == t.silences
  {
    hide Judge;
  }

  /** Only an alert that reached the analysis keeps its importance; the decision names the due rules and its clock readings. */
  lemma RecordedVerdict(t: Tables, s: Settings, a: Alert, c: Clock)
    ensures var u := Processed(t, s, a, c);
            var v := Judge(t, s, a, c);
            && u.events[|t.events|].importance == (if v.code == Duplicate || v.code == Silenced then "" else a.importance)
            && u.decisions[|t.decisions|].at == c.decide && u.decisions[|t.decisions|].checkedAt == c.cooldown
            && |u.decisions[|t.decisions|].matched| == |v.due|
            && forall i :: 0 <= i < |v.due| ==> u.decisions[|t.decisions|].matched[i] == v.due[i].name
  {
    hide ActiveRules, Matched, DueRules, FirstSilence, RecentDuplicate, CooledNames;
  }

  /** Rules are tried by priority, the highest first, and in the order they were made where that is equal. */
  lemma ActiveOrder(rules: seq<Rule>, i: nat, j: nat)
    requires i < j < |ActiveRules(rules)|
    ensures var active := ActiveRules(rules);
            active[i].priority > active[j].priority || (active[i].priority == active[j].priority && active[i].id <= active[j].id)
  {
    assert Before(ActiveRules(rules)[i], ActiveRules(rules)[j]);
  }

  /** The trace names the rule that stopped the scan: the one reached that stops, if there is one. */
  lemma StoppedByExactly(t: Tables, a: Alert, n: nat)
    ensures var rules := ActiveRules(t.rules);
            && (Reached(rules, a, n) && rules[n].stop ==> StoppedBy(rules, a) == Some(rules[n].name))
            && (StoppedBy(rules, a).Some? ==> exists m: nat :: Reached(rules, a, m) && rules[m].stop)
  {
    var rules := ActiveRules(t.rules);
    ActiveExactly(t.rules);
    ReachedIffConsidered(rules, a, n);
    var k := Considered(rules, a);
    hide ActiveRules, Reached;
    if Reached(rules, a, n) && rules[n].stop {
      assert Stops(rules[n], a);
      assert n == k - 1;
    }
    if StoppedBy(rules, a).Some? {
      ReachedIffConsidered(rules, a, k - 1);
      assert Reached(rules, a, k - 1);
    }
  }

  /** The names reported as cooling are those of the matched rules that cool. */
  lemma {:induction false} CooledExactly(t: Tables, s: Settings, hash: string, now: real, rules: seq<Rule>)
    ensures forall name :: name in CooledNames(t, s, hash, now, rules) <==>
              exists r :: r in rules && r.name == name && s.cooldown > 0 && Recent(t, s, hash, name, now)
  {
    hide Cools, Recent;
    if rules != [] {
      var last := |rules| - 1;
      assert rules == rules[..last] + [rules[last]];
      CooledExactly(t, s, hash, now, rules[..last]);
      CoolsIffRecent(t, s, hash, rules[last].name, now);
    }
  }
}
