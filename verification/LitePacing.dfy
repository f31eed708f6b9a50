/**
  When the cooldown really separates all deliveries of one identity under one rule name: the
  rules table does not keep names apart, and one alert can be forwarded twice under one name.
 */
module LitePacing {
  import opened Wrappers
  import opened LiteStore
  import opened LitePipeline
  import opened LiteRuns

  /** The rules stay as they are throughout. */
  predicate FixedRules(states: seq<State>, ops: seq<Op>, rules: seq<Rule>) {
    states != [] && states[0].tables.rules == rules && forall i :: 0 <= i < |ops| ==> !ops[i].SetRules?
  }

  ghost predicate AllApart(t: Tables, s: Settings) {
    |t.decisions| == |t.events| && forall x, y :: SameThread(t, x, y) ==> Apart(t, s, x, y)
  }

  /** Under these rules every run keeps all such deliveries a cooldown apart. */
  ghost predicate KeepsPace(rules: seq<Rule>, s: Settings, backoff: real) {
    forall states: seq<State>, ops: seq<Op> :: IsRun(states, ops, s, backoff) && FixedRules(states, ops, rules) ==> AllApart(states[|ops|].tables, s)
  }

  /** No alert is matched twice under one name. */
  ghost predicate NamesApart(rules: seq<Rule>) {
    forall a: Alert :: NoRepeat(Names(Matched(ActiveRules(rules), a)))
  }

  lemma {:induction false} RulesStay(states: seq<State>, ops: seq<Op>, s: Settings, backoff: real, rules: seq<Rule>, k: nat)
    requires IsRun(states, ops, s, backoff) && FixedRules(states, ops, rules) && k < |states|
    ensures states[k].tables.rules == rules
  {
    hide Judge;
    if k > 0 {
      RulesStay(states, ops, s, backoff, rules, k - 1);
      assert states[k] == LiteRuns.Apply(states[k - 1], ops[k - 1], s, backoff) && !ops[k - 1].SetRules?;
    }
  }

  /** What is due is matched, name by name. */
  lemma {:induction false} DueNamesAreMatched(t: Tables, s: Settings, hash: string, now: real, rules: seq<Rule>)
    requires NoRepeat(Names(rules))
    ensures NoRepeat(Names(DueRules(t, s, hash, now, rules)))
    ensures forall r :: r in DueRules(t, s, hash, now, rules) ==> r in rules
  {
    hide Cools;
    if rules != [] {
      var last := |rules| - 1;
      var before := rules[..last];
      assert forall i :: 0 <= i < last ==> Names(before)[i] == Names(rules)[i];
      DueNamesAreMatched(t, s, hash, now, before);
      var due := DueRules(t, s, hash, now, before);
      forall i | 0 <= i < |due| ensures due[i].name != rules[last].name {
        assert due[i] in before;
        var j :| 0 <= j < last && before[j] == due[i];
        assert Names(rules)[j] != Names(rules)[last];
      }
    }
  }

  lemma VerdictNames(t: Tables, s: Settings, a: Alert, c: Clock)
    requires NamesApart(t.rules)
    ensures NoRepeat(Names(Judge(t, s, a, c).due))
  {
    hide Judge, NoRepeat, Matched, ActiveRules, DueRules;
    VerdictDelivers(t, s, a, c);
    DueNamesAreMatched(t, s, a.hash, c.cooldown, Matched(ActiveRules(t.rules), a));
    NothingRepeats();
    assert Names([]) == [];
  }

  lemma {:induction false} NeverForwardedTwice(states: seq<State>, ops: seq<Op>, s: Settings, backoff: real, rules: seq<Rule>, k: nat)
    requires IsRun(states, ops, s, backoff) && FixedRules(states, ops, rules) && NamesApart(rules) && k < |states|
    ensures forall i :: 0 <= i < |states[k].tables.decisions| ==> NoRepeat(states[k].tables.decisions[i].matched)
  {
    hide Judge, NoRepeat, NamesApart, Possible;
    if k > 0 {
      NeverForwardedTwice(states, ops, s, backoff, rules, k - 1);
      var t := states[k - 1].tables;
      match ops[k - 1]
      case Arrive(a, c) =>
        RulesStay(states, ops, s, backoff, rules, k - 1);
        VerdictNames(t, s, a, c);
        assert states[k].tables.decisions == t.decisions + [NewDecision(|t.events| + 1, c, Judge(t, s, a, c))];
      case _ =>
    }
  }

  lemma NothingRepeats()
    ensures NoRepeat([])
  {
  }

  /** The first alert of an empty store goes to every rule it matches. */
  lemma FirstAlertReachesAll(t: Tables, s: Settings, a: Alert)
    requires t.events == [] && t.outbox == [] && t.silences == [] && Matched(ActiveRules(t.rules), a) != []
    ensures Judge(t, s, a, At(0.0)).due == Matched(ActiveRules(t.rules), a)
  {
    hide Matched, ActiveRules, Judge;
    var matched := Matched(ActiveRules(t.rules), a);
    assert forall name :: LastForwardAt(t.events, t.outbox, a.hash, name) == None;
    NothingCools(t, s, a.hash, 0.0, matched);
    JudgeMatched(t, s, a, At(0.0), matched);
  }

  lemma OneEventTwice(u: Tables, s: Settings, x: nat, y: nat)
    requires s.cooldown > 0 && |u.decisions| == |u.events| == 1 && SameThread(u, x, y)
    requires u.decisions[0].checkedAt == u.events[0].receivedAt
    ensures !AllApart(u, s)
  {
    assert !Apart(u, s, x, y);
  }

  lemma FirstAlertTwice(t: Tables, s: Settings, a: Alert, x: nat, y: nat)
    requires t.events == [] && t.outbox == [] && t.silences == [] && t.decisions == [] && s.cooldown > 0
    requires var matched := Matched(ActiveRules(t.rules), a); x < y < |matched| && matched[x].name == matched[y].name
    ensures !AllApart(Processed(t, s, a, At(0.0)), s)
  {
    hide Judge, Matched, ActiveRules, AllApart;
    FirstAlertReachesAll(t, s, a);
    var due := Judge(t, s, a, At(0.0)).due;
    var u := Processed(t, s, a, At(0.0));
    assert u.outbox == [] + Rows(1, due, 0.0);
    assert u.outbox[x] == Fresh(1, due[x], 0.0) && u.outbox[y] == Fresh(1, due[y], 0.0);
    OneEventTwice(u, s, x, y);
  }

  /** One alert, matched twice under one name: both deliveries are for the same event. */
  lemma TwiceUnderOneName(rules: seq<Rule>, s: Settings, backoff: real, a: Alert) returns (states: seq<State>, ops: seq<Op>)
    requires s.cooldown > 0 && !NoRepeat(Names(Matched(ActiveRules(rules), a)))
    ensures IsRun(states, ops, s, backoff) && FixedRules(states, ops, rules) && |states| == |ops| + 1 && !AllApart(states[|ops|].tables, s)
  {
    hide Judge, Matched, ActiveRules, AllApart, Processed;
    var names := Names(Matched(ActiveRules(rules), a));
    var x, y :| 0 <= x < y < |names| && names[x] == names[y];
    var t := Tables([], [], [], rules, []);
    FirstAlertTwice(t, s, a, x, y);
    var op := Arrive(a, At(0.0));
    var s0 := State(0.0, t);
    states, ops := [s0, LiteRuns.Apply(s0, op, s, backoff)], [op];
  }

  /** All deliveries of one identity under one name are a cooldown apart, in every run under the given rules, exactly
      when no alert is matched twice under one name. */
  lemma KeepsPaceIff(rules: seq<Rule>, s: Settings, backoff: real)
    requires s.cooldown > 0
    ensures KeepsPace(rules, s, backoff) <==> NamesApart(rules)
  {
    hide IsRun, AllApart;
    if NamesApart(rules) {
      forall states: seq<State>, ops: seq<Op> | IsRun(states, ops, s, backoff) && FixedRules(states, ops, rules)
        ensures |states| == |ops| + 1 && AllApart(states[|ops|].tables, s)
      {
        RunKeepsApart(states, ops, s, backoff, rules);
      }
    } else {
      var a: Alert :| !NoRepeat(Names(Matched(ActiveRules(rules), a)));
      var states, ops := TwiceUnderOneName(rules, s, backoff, a);
      assert IsRun(states, ops, s, backoff) && FixedRules(states, ops, rules);
    }
  }

  lemma RunKeepsApart(states: seq<State>, ops: seq<Op>, s: Settings, backoff: real, rules: seq<Rule>)
    requires IsRun(states, ops, s, backoff) && FixedRules(states, ops, rules) && NamesApart(rules) && s.cooldown > 0
    ensures |states| == |ops| + 1 && AllApart(states[|ops|].tables, s)
  {
    RunLength(states, ops, s, backoff);
    var k := |ops|;
    var t := states[k].tables;
    NeverForwardedTwice(states, ops, s, backoff, rules, k);
    assert |t.decisions| == |t.events| by { RunRecords(states, ops, s, backoff, k); }
    forall x, y | SameThread(t, x, y) ensures Apart(t, s, x, y) {
      hide IsRun, Apart;
      DeliveriesKeepTheCooldown(states, ops, s, backoff, k, x, y);
    }
  }

  lemma RunRecords(states: seq<State>, ops: seq<Op>, s: Settings, backoff: real, k: nat)
    requires IsRun(states, ops, s, backoff) && k < |states|
    ensures |states[k].tables.decisions| == |states[k].tables.events|
  {
    RunInv(states, ops, s, backoff, k);
  }

  /** Different names among the enabled rules are enough. */
  lemma DistinctNamesSuffice(rules: seq<Rule>)
    requires NoRepeat(Names(ActiveRules(rules)))
    ensures NamesApart(rules)
  {
    forall a: Alert ensures NoRepeat(Names(Matched(ActiveRules(rules), a))) {
      var active := ActiveRules(rules);
      var seen := active[..Considered(active, a)];
      assert forall i :: 0 <= i < |seen| ==> Names(seen)[i] == Names(active)[i];
      MatchingNames(seen, a);
    }
  }

  lemma {:induction false} MatchingNames(rules: seq<Rule>, a: Alert)
    requires NoRepeat(Names(rules))
    ensures NoRepeat(Names(Matching(rules, a))) && forall r :: r in Matching(rules, a) ==> r in rules
  {
    if rules != [] {
      var last := |rules| - 1;
      var before := rules[..last];
      assert forall i :: 0 <= i < last ==> Names(before)[i] == Names(rules)[i];
      MatchingNames(before, a);
      var matching := Matching(before, a);
      forall i | 0 <= i < |matching| ensures matching[i].name != rules[last].name {
        assert matching[i] in before;
        var j :| 0 <= j < last && before[j] == matching[i];
        assert Names(rules)[j] != Names(rules)[last];
      }
    }
  }

  /** Two enabled rules for everything, both named as given: the table admits them, and the first alert goes out twice. */
  lemma SharedNameBreaksPace(name: string, s: Settings, backoff: real)
    requires s.cooldown > 0
    ensures !KeepsPace([Rule(1, name, true, [], [], "", 0, false), Rule(2, name, true, [], [], "", 0, false)], s, backoff)
  {
    var r1, r2 := Rule(1, name, true, [], [], "", 0, false), Rule(2, name, true, [], [], "", 0, false);
    var a := Alert("", "", "", "", false);
    BothMatch(r1, r2, a);
    var names := Names(Matched(ActiveRules([r1, r2]), a));
    assert names[0] == names[1];
    KeepsPaceIff([r1, r2], s, backoff);
  }

  lemma BothMatch(r1: Rule, r2: Rule, a: Alert)
    requires r1.enabled && r2.enabled && Before(r1, r2) && Matches(r1, a) && Matches(r2, a) && !r1.stop && !r2.stop
    ensures ActiveRules([r1, r2]) == [r1, r2] && Matched([r1, r2], a) == [r1, r2]
  {
    var rules := [r1, r2];
    assert rules[1..] == [r2] && [r2][1..] == [] && ActiveRules([]) == [];
    assert ActiveRules([r2]) == [r2];
    ConsideredAll(rules, a);
    assert rules[..2] == rules && rules[..1] == [r1] && [r1][..0] == [] && Matching([], a) == [] && Matching([r1], a) == [r1];
  }
}
