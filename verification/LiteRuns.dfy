/**
  Every serial run of the Lite edition: alerts processed, outbox passes, and changes to the
  rules and silences, under a clock that never goes back.
 */
module LiteRuns {
  import opened Wrappers
  import opened LiteStore
  import opened LitePipeline
  import opened LiteDelivery

  // ---- the gate automaton -------------------------------------------------------------------------------

  datatype Gate = AtStart | AtNormalize | AtDedup | AtSilence | AtAnalysis | AtRules | AtCooldown | AtForward | Ended(code: SkipCode)

  function Advance(g: Gate, s: GateStep): Option<Gate> {
    match (g, s)
    case (AtStart, Correlate) => Some(AtNormalize)
    case (AtStart, Normalize) => Some(AtDedup)
    case (AtNormalize, Normalize) => Some(AtDedup)
    case (AtDedup, DedupDuplicate(_)) => Some(Ended(Duplicate))
    case (AtDedup, DedupPass) => Some(AtSilence)
    case (AtSilence, SilenceHit(_)) => Some(Ended(Silenced))
    case (AtSilence, SilencePass) => Some(AtAnalysis)
    case (AtAnalysis, Analysis) => Some(AtRules)
    case (AtRules, RulesNoMatch) => Some(Ended(NoMatch))
    case (AtRules, RulesMatched(_, _)) => Some(AtCooldown)
    case (AtCooldown, Cooling(_)) => Some(Ended(Cooldown))
    case (AtCooldown, CooldownPass(_)) => Some(AtForward)
    case (AtForward, Enqueued(_)) => Some(Ended(NoSkip))
    case _ => None
  }

  function Walk(g: Gate, steps: seq<GateStep>): Option<Gate>
    decreases |steps|
  {
    if steps == [] then Some(g)
    else
      var next :- Advance(g, steps[0]);
      Walk(next, steps[1..])
  }

  lemma {:induction false} WalkAppend(g: Gate, a: seq<GateStep>, b: seq<GateStep>)
    ensures Walk(g, a + b) == (var mid :- Walk(g, a); Walk(mid, b))
    decreases |a|
  {
    if a == [] {
      assert a + b == b;
    } else {
      assert (a + b)[1..] == a[1..] + b;
      if Advance(g, a[0]).Some? {
        WalkAppend(Advance(g, a[0]).value, a[1..], b);
      }
    }
  }

  lemma WalkOne(g: Gate, s: GateStep)
    ensures Walk(g, [s]) == Advance(g, s)
  {
    assert [s][1..] == [];
  }

  lemma WalkTwo(g: Gate, s: GateStep, t: GateStep)
    ensures Walk(g, [s, t]) == (var mid :- Advance(g, s); Advance(mid, t))
  {
    assert [s, t][1..] == [t];
    if Advance(g, s).Some? {
      WalkOne(Advance(g, s).value, t);
    }
  }

  lemma OpeningWalks(a: Alert)
    ensures Walk(AtStart, Opening(a)) == Some(AtDedup)
  {
    WalkTwo(AtStart, Correlate, Normalize);
    WalkOne(AtStart, Normalize);
  }

  /** The trace of a judged alert is a path of the automaton that ends with its skip code. */
  lemma TraceIsAPath(t: Tables, s: Settings, a: Alert, c: Clock)
    ensures var v := Judge(t, s, a, c);
            Walk(AtStart, v.steps) == Some(Ended(v.code))
  {
    hide Walk;
    var head := Opening(a);
    OpeningWalks(a);
    var dup := RecentDuplicate(t.events, a.hash, c.dedup - s.dedupWindow as real);
    var silence := FirstSilence(t.silences, c.silence, a.text);
    if dup.Some? {
      WalkAppend(AtStart, head, [DedupDuplicate(dup.value)]);
      WalkOne(AtDedup, DedupDuplicate(dup.value));
    } else if silence.Some? {
      WalkAppend(AtStart, head, [DedupPass, SilenceHit(silence.value)]);
      WalkTwo(AtDedup, DedupPass, SilenceHit(silence.value));
    } else {
      WalkAppend(AtStart, head, [DedupPass, SilencePass, Analysis]);
      assert [DedupPass, SilencePass, Analysis] == [DedupPass, SilencePass] + [Analysis];
      WalkAppend(AtDedup, [DedupPass, SilencePass], [Analysis]);
      WalkTwo(AtDedup, DedupPass, SilencePass);
      WalkOne(AtAnalysis, Analysis);
      RulesTraceIsAPath(t, s, a, c, head + [DedupPass, SilencePass, Analysis]);
    }
  }

  lemma RulesTraceIsAPath(t: Tables, s: Settings, a: Alert, c: Clock, head: seq<GateStep>)
    requires Walk(AtStart, head) == Some(AtRules)
    ensures var v := JudgeRules(t, s, a, c, head);
            Walk(AtStart, v.steps) == Some(Ended(v.code))
  {
    hide Walk;
    hide ActiveRules;
    hide Matched;
    hide DueRules;
    hide CooledNames;
    hide Names;
    hide StoppedBy;
    var rules := ActiveRules(t.rules);
    var matched := Matched(rules, a);
    if matched == [] {
      WalkAppend(AtStart, head, [RulesNoMatch]);
      WalkOne(AtRules, RulesNoMatch);
    } else {
      var step := RulesMatched(Names(matched), StoppedBy(rules, a));
      var due := DueRules(t, s, a.hash, c.cooldown, matched);
      var cooled := CooledNames(t, s, a.hash, c.cooldown, matched);
      WalkAppend(AtStart, head, [step]);
      WalkOne(AtRules, step);
      WalkAppend(AtStart, head + [step], [Cooling(cooled)]);
      WalkOne(AtCooldown, Cooling(cooled));
      WalkAppend(AtStart, head + [step], [CooldownPass(cooled), Enqueued(|due|)]);
      WalkTwo(AtCooldown, CooldownPass(cooled), Enqueued(|due|));
    }
  }

  /** The code a closing step stands for. */
  function CodeOf(s: GateStep): SkipCode {
    match s
    case DedupDuplicate(_) => Duplicate
    case SilenceHit(_) => Silenced
    case RulesNoMatch => NoMatch
    case Cooling(_) => Cooldown
    case _ => NoSkip
  }

  /** On every path the last step alone determines the code. */
  lemma {:induction false} LastStepDeterminesCode(g: Gate, steps: seq<GateStep>, code: SkipCode)
    requires steps != [] && Walk(g, steps) == Some(Ended(code))
    ensures CodeOf(steps[|steps| - 1]) == code
    decreases |steps|
  {
    if |steps| > 1 {
      LastStepDeterminesCode(Advance(g, steps[0]).value, steps[1..], code);
    }
  }

  // ---- the gates ------------------------------------------------------------------------------------------

  /** An alert is a duplicate exactly when any event of its identity, duplicates included, arrived
      less than the window before the check. */
  lemma DuplicateIff(t: Tables, s: Settings, a: Alert, c: Clock)
    ensures Judge(t, s, a, c).code == Duplicate <==>
            exists i :: 0 <= i < |t.events| && t.events[i].hash == a.hash && c.dedup - t.events[i].receivedAt < s.dedupWindow as real
  {
  }

  lemma {:induction false} CoolingWitness(t: Tables, s: Settings, hash: string, now: real, rules: seq<Rule>) returns (r: Rule)
    requires rules != [] && DueRules(t, s, hash, now, rules) == []
    ensures Cools(t, s, hash, r.name, now)
  {
    r := rules[|rules| - 1];
  }

  /** With a dedup window at least as long as the cooldown, no decision is ever `cooldown`. */
  lemma LongDedupWindowHidesCooldown(t: Tables, s: Settings, a: Alert, c: Clock)
    requires s.dedupWindow >= s.cooldown && Forward(c)
    ensures Judge(t, s, a, c).code != Cooldown
  {
    if Judge(t, s, a, c).code == Cooldown {
      DuplicateIff(t, s, a, c);
      var r := CoolingWitness(t, s, a.hash, c.cooldown, Matched(ActiveRules(t.rules), a));
    }
  }

  lemma {:induction false} DueRulesDoNotCool(t: Tables, s: Settings, hash: string, now: real, rules: seq<Rule>)
    ensures forall i :: 0 <= i < |DueRules(t, s, hash, now, rules)| ==>
              !Cools(t, s, hash, DueRules(t, s, hash, now, rules)[i].name, now)
  {
    if rules != [] {
      DueRulesDoNotCool(t, s, hash, now, rules[..|rules| - 1]);
    }
  }

  lemma AppendInOrder(rules: seq<Rule>, picked: seq<Rule>, r: Rule)
    requires InOrder(rules + [r]) && InOrder(picked) && forall x :: x in picked ==> x in rules
    ensures InOrder(rules) && InOrder(picked + [r])
  {
    var all := rules + [r];
    forall i, j | 0 <= i < j < |rules|
      ensures Before(rules[i], rules[j])
    {
      assert rules[i] == all[i] && rules[j] == all[j];
    }
    forall i | 0 <= i < |picked|
      ensures Before(picked[i], r)
    {
      assert picked[i] in rules;
      var k :| 0 <= k < |rules| && rules[k] == picked[i];
      assert all[k] == picked[i] && all[|rules|] == r;
    }
  }

  lemma PrefixInOrder(rules: seq<Rule>, n: nat)
    requires InOrder(rules) && n <= |rules|
    ensures InOrder(rules[..n])
  {
  }

  lemma {:induction false} MatchingExactly(rules: seq<Rule>, a: Alert)
    requires InOrder(rules)
    ensures forall r :: r in Matching(rules, a) <==> r in rules && Matches(r, a)
    ensures InOrder(Matching(rules, a))
  {
    if rules != [] {
      var last := |rules| - 1;
      assert rules == rules[..last] + [rules[last]];
      PrefixInOrder(rules, last);
      MatchingExactly(rules[..last], a);
      AppendInOrder(rules[..last], Matching(rules[..last], a), rules[last]);
    }
  }

  lemma {:induction false} DueRulesExactly(t: Tables, s: Settings, hash: string, now: real, rules: seq<Rule>)
    requires InOrder(rules)
    ensures forall r :: r in DueRules(t, s, hash, now, rules) <==> r in rules && !Cools(t, s, hash, r.name, now)
    ensures InOrder(DueRules(t, s, hash, now, rules))
  {
    hide Cools;
    if rules != [] {
      var last := |rules| - 1;
      assert rules == rules[..last] + [rules[last]];
      PrefixInOrder(rules, last);
      DueRulesExactly(t, s, hash, now, rules[..last]);
      AppendInOrder(rules[..last], DueRules(t, s, hash, now, rules[..last]), rules[last]);
    }
  }

  /** A forwarded alert goes, in priority order, to exactly the enabled rules that match it, come no
      later than the first matching stop rule, and are not cooling. */
  lemma ForwardedExactlyToDueRules(t: Tables, s: Settings, a: Alert, c: Clock)
    requires Judge(t, s, a, c).code == NoSkip
    ensures InOrder(Judge(t, s, a, c).due)
    ensures var rules := ActiveRules(t.rules);
            forall r :: r in Judge(t, s, a, c).due <==>
              r in rules[..Considered(rules, a)] && Matches(r, a) && !Cools(t, s, a.hash, r.name, c.cooldown)
  {
    VerdictDelivers(t, s, a, c);
    hide Judge;
    hide ActiveRules;
    var rules := ActiveRules(t.rules);
    PrefixInOrder(rules, Considered(rules, a));
    MatchingExactly(rules[..Considered(rules, a)], a);
    DueRulesExactly(t, s, a.hash, c.cooldown, Matched(rules, a));
  }

  // ---- runs -------------------------------------------------------------------------------------------------

  datatype Op =
    | Arrive(alert: Alert, clock: Clock)
    | Pass(now: real, attempts: seq<Attempt>)
    | SetRules(rules: seq<Rule>)
    | SetSilences(silences: seq<Silence>)

  datatype State = State(now: real, tables: Tables)

  predicate Monotone(attempts: seq<Attempt>, from: real) {
    && (forall i :: 0 <= i < |attempts| ==> from <= attempts[i].at)
    && (forall i, j :: 0 <= i < j < |attempts| ==> attempts[i].at <= attempts[j].at)
  }

  predicate Possible(st: State, op: Op) {
    match op
    case Arrive(_, c) => Forward(c) && st.now <= c.dedup
    case Pass(now, attempts) => st.now <= now && Monotone(attempts, now) && |LiteDelivery.Due(st.tables.outbox, now)| <= |attempts|
    case _ => true
  }

  function Apply(st: State, op: Op, s: Settings, backoff: real): State
    requires Possible(st, op)
  {
    match op
    case Arrive(a, c) => State(c.decide, Processed(st.tables, s, a, c))
    case Pass(now, attempts) =>
      State(if attempts == [] then now else attempts[|attempts| - 1].at,
            st.tables.(outbox := Delivered(st.tables.outbox, LiteDelivery.Due(st.tables.outbox, now), attempts, backoff)))
    case SetRules(rules) => st.(tables := st.tables.(rules := rules))
    case SetSilences(silences) => st.(tables := st.tables.(silences := silences))
  }

  predicate IsRun(states: seq<State>, ops: seq<Op>, s: Settings, backoff: real) {
    && |states| == |ops| + 1
    && states[0].tables.events == [] && states[0].tables.decisions == [] && states[0].tables.outbox == []
    && forall i :: 0 <= i < |ops| ==> Possible(states[i], ops[i]) && states[i + 1] == Apply(states[i], ops[i], s, backoff)
  }

  /** The rule names of the deliveries of one event, in outbox order. */
  function DeliveredTo(outbox: seq<Delivery>, id: nat): seq<string> {
    if outbox == [] then []
    else
      var last := |outbox| - 1;
      DeliveredTo(outbox[..last], id) + if outbox[last].eventId == id then [outbox[last].ruleName] else []
  }

  /** One decision and its own deliveries for each event. */
  predicate Recorded(t: Tables) {
    && |t.decisions| == |t.events|
    && (forall i :: 0 <= i < |t.outbox| ==> 1 <= t.outbox[i].eventId <= |t.events|)
    && (forall i :: 0 <= i < |t.decisions| ==>
          && t.decisions[i].eventId == i + 1
          && t.decisions[i].matched == DeliveredTo(t.outbox, i + 1)
          && (t.decisions[i].outcome == Forwarded <==> t.decisions[i].skipCode == NoSkip)
          && (t.decisions[i].outcome == Forwarded <==> t.decisions[i].matched != [])
          && Walk(AtStart, t.decisions[i].steps) == Some(Ended(t.decisions[i].skipCode)))
  }

  /** Deliveries of one identity under one rule name keep the cooldown. */
  predicate Paced(t: Tables, s: Settings) {
    |t.decisions| == |t.events| &&
    forall i, j, n :: 0 <= i < j < |t.decisions| && n in t.decisions[i].matched && n in t.decisions[j].matched &&
                      t.events[i].hash == t.events[j].hash && s.cooldown > 0 ==>
                      t.decisions[j].checkedAt - t.events[i].receivedAt >= s.cooldown as real
  }

  predicate Inv(t: Tables, s: Settings, backoff: real) { Recorded(t) && Paced(t, s) && OutboxOk(t.outbox, backoff) }

  lemma {:induction false} DeliveredToNone(outbox: seq<Delivery>, id: nat)
    requires forall i :: 0 <= i < |outbox| ==> outbox[i].eventId < id
    ensures DeliveredTo(outbox, id) == []
  {
    if outbox != [] {
      DeliveredToNone(outbox[..|outbox| - 1], id);
    }
  }

  lemma {:induction false} DeliveredToRows(outbox: seq<Delivery>, id: nat, rules: seq<Rule>, now: real, other: nat)
    ensures DeliveredTo(outbox + Rows(id, rules, now), other) ==
            DeliveredTo(outbox, other) + if other == id then Names(rules) else []
    decreases |rules|
  {
    if rules == [] {
      assert outbox + Rows(id, rules, now) == outbox;
      assert Names(rules) == [];
    } else {
      var last := |rules| - 1;
      var all := outbox + Rows(id, rules, now);
      assert all[..|all| - 1] == outbox + Rows(id, rules[..last], now);
      DeliveredToRows(outbox, id, rules[..last], now, other);
      assert Names(rules) == Names(rules[..last]) + [rules[last].name];
    }
  }

  lemma {:induction false} DeliveredToMember(outbox: seq<Delivery>, id: nat, name: string) returns (i: nat)
    requires name in DeliveredTo(outbox, id)
    ensures i < |outbox| && outbox[i].eventId == id && outbox[i].ruleName == name
  {
    var last := |outbox| - 1;
    if outbox[last].eventId == id && outbox[last].ruleName == name {
      i := last;
    } else {
      i := DeliveredToMember(outbox[..last], id, name);
    }
  }

  lemma {:induction false} DeliveredToAdvances(before: seq<Delivery>, after: seq<Delivery>, id: nat)
    requires Advances(before, after)
    ensures DeliveredTo(before, id) == DeliveredTo(after, id)
    decreases |before|
  {
    if before != [] {
      DeliveredToAdvances(before[..|before| - 1], after[..|after| - 1], id);
    }
  }

  /** A verdict delivers exactly when its code is `none`, and then to the matched rules that are due. */
  lemma VerdictDelivers(t: Tables, s: Settings, a: Alert, c: Clock)
    ensures var v := Judge(t, s, a, c);
            && (v.code == NoSkip <==> v.due != [])
            && (v.due != [] ==> v.due == DueRules(t, s, a.hash, c.cooldown, Matched(ActiveRules(t.rules), a)))
  {
  }

  lemma ArriveKeepsRecorded(t: Tables, s: Settings, a: Alert, c: Clock)
    requires Recorded(t)
    ensures Recorded(Processed(t, s, a, c))
  {
    hide Walk;
    hide Judge;
    hide DeliveredTo;
    var u := Processed(t, s, a, c);
    var v := Judge(t, s, a, c);
    var id := |t.events| + 1;
    TraceIsAPath(t, s, a, c);
    VerdictDelivers(t, s, a, c);
    DeliveredToNone(t.outbox, id);
    forall i | 0 <= i < |u.decisions|
      ensures u.decisions[i].matched == DeliveredTo(u.outbox, i + 1)
    {
      DeliveredToRows(t.outbox, id, v.due, c.enqueue, i + 1);
    }
    assert Names(v.due) != [] <==> v.due != [];
  }

  /** A rule that is due was last forwarded, for this identity, at least a cooldown before. */
  lemma DueRuleIsPaced(t: Tables, s: Settings, a: Alert, c: Clock, i: nat, n: string)
    requires Recorded(t) && s.cooldown > 0 && i < |t.decisions| && n in t.decisions[i].matched
    requires t.events[i].hash == a.hash && n in Names(Judge(t, s, a, c).due)
    ensures c.cooldown - t.events[i].receivedAt >= s.cooldown as real
  {
    hide Walk;
    hide Judge;
    hide DeliveredTo, Matched, ActiveRules, DueRules;
    VerdictDelivers(t, s, a, c);
    var due := Judge(t, s, a, c).due;
    DueRulesDoNotCool(t, s, a.hash, c.cooldown, Matched(ActiveRules(t.rules), a));
    var k := DeliveredToMember(t.outbox, i + 1, n);
    assert ForIdentity(t.events, t.outbox[k], a.hash, n);
    var x :| 0 <= x < |due| && due[x].name == n;
  }

  lemma ArriveKeepsPaced(t: Tables, s: Settings, a: Alert, c: Clock)
    requires Recorded(t) && Paced(t, s)
    ensures Paced(Processed(t, s, a, c), s)
  {
    hide Judge;
    hide Recorded;
    assert |t.decisions| == |t.events|;
    var u := Processed(t, s, a, c);
    forall i, j, n | 0 <= i < j < |u.decisions| && n in u.decisions[i].matched && n in u.decisions[j].matched &&
                     u.events[i].hash == u.events[j].hash && s.cooldown > 0
      ensures u.decisions[j].checkedAt - u.events[i].receivedAt >= s.cooldown as real
    {
      assert u.decisions[i] == t.decisions[i] && u.events[i] == t.events[i];
      if j < |t.decisions| {
        assert u.decisions[j] == t.decisions[j] && u.events[j] == t.events[j];
      } else {
        DueRuleIsPaced(t, s, a, c, i, n);
      }
    }
  }

  lemma FreshRowsOk(outbox: seq<Delivery>, id: nat, rules: seq<Rule>, now: real, backoff: real)
    requires OutboxOk(outbox, backoff)
    ensures OutboxOk(outbox + Rows(id, rules, now), backoff)
  {
  }

  lemma PassKeepsInv(t: Tables, after: seq<Delivery>, s: Settings, backoff: real)
    requires Inv(t, s, backoff) && Advances(t.outbox, after) && OutboxOk(after, backoff)
    ensures Inv(t.(outbox := after), s, backoff)
  {
    hide Walk;
    hide DeliveredTo;
    hide RowOk;
    forall i | 0 <= i < |t.decisions|
      ensures t.decisions[i].matched == DeliveredTo(after, i + 1)
    {
      DeliveredToAdvances(t.outbox, after, i + 1);
    }
  }

  lemma StepKeepsInv(st: State, op: Op, s: Settings, backoff: real)
    requires Inv(st.tables, s, backoff) && Possible(st, op)
    ensures Inv(Apply(st, op, s, backoff).tables, s, backoff)
  {
    hide Walk;
    hide Judge;
    hide DeliveredTo;
    hide Delivered;
    hide RowOk;
    var t := st.tables;
    match op
    case Arrive(a, c) =>
      ArriveKeepsRecorded(t, s, a, c);
      ArriveKeepsPaced(t, s, a, c);
      FreshRowsOk(t.outbox, |t.events| + 1, Judge(t, s, a, c).due, c.enqueue, backoff);
    case Pass(now, attempts) =>
      var ids := LiteDelivery.Due(t.outbox, now);
      DeliveredKeepsOutbox(t.outbox, ids, now, attempts, backoff);
      PassKeepsInv(t, Delivered(t.outbox, ids, attempts, backoff), s, backoff);
    case _ =>
  }

  lemma {:induction false} RunInv(states: seq<State>, ops: seq<Op>, s: Settings, backoff: real, i: nat)
    requires IsRun(states, ops, s, backoff) && i < |states|
    ensures Inv(states[i].tables, s, backoff)
  {
    if i > 0 {
      RunInv(states, ops, s, backoff, i - 1);
      StepKeepsInv(states[i - 1], ops[i - 1], s, backoff);
    }
  }

  predicate NoRepeat(names: seq<string>) { forall i, j :: 0 <= i < j < |names| ==> names[i] != names[j] }

  /** Two rows of one identity under one rule name, `x` for the earlier event or the same. */
  predicate SameThread(t: Tables, x: nat, y: nat) {
    && x < |t.outbox| && y < |t.outbox| && x != y && t.outbox[x].ruleName == t.outbox[y].ruleName
    && 1 <= t.outbox[x].eventId <= t.outbox[y].eventId <= |t.events|
    && t.events[t.outbox[x].eventId - 1].hash == t.events[t.outbox[y].eventId - 1].hash
  }

  /** A cooldown lies between the arrival of the alert of `x` and the cooldown check of that of `y`. */
  predicate Apart(t: Tables, s: Settings, x: nat, y: nat)
    requires SameThread(t, x, y) && |t.decisions| == |t.events|
  {
    t.decisions[t.outbox[y].eventId - 1].checkedAt - t.events[t.outbox[x].eventId - 1].receivedAt >= s.cooldown as real
  }

  /** In every run, two deliveries of one identity under one rule name are a cooldown apart, unless one alert
      was forwarded twice under that name. */
  lemma DeliveriesKeepTheCooldown(states: seq<State>, ops: seq<Op>, s: Settings, backoff: real, k: nat, x: nat, y: nat)
    requires IsRun(states, ops, s, backoff) && k < |states| && s.cooldown > 0 && SameThread(states[k].tables, x, y)
    ensures var t := states[k].tables;
            && |t.decisions| == |t.events|
            && (Apart(t, s, x, y) || (t.outbox[x].eventId == t.outbox[y].eventId && !NoRepeat(t.decisions[t.outbox[x].eventId - 1].matched)))
  {
    hide Walk;
    RunInv(states, ops, s, backoff, k);
    var t := states[k].tables;
    RowIsDelivered(t.outbox, x);
    RowIsDelivered(t.outbox, y);
    if t.outbox[x].eventId == t.outbox[y].eventId {
      DeliveredTwice(t.outbox, if x < y then x else y, if x < y then y else x);
    }
  }

  lemma {:induction false} DeliveredTwice(outbox: seq<Delivery>, x: nat, y: nat)
    requires x < y < |outbox| && outbox[x].eventId == outbox[y].eventId && outbox[x].ruleName == outbox[y].ruleName
    ensures !NoRepeat(DeliveredTo(outbox, outbox[x].eventId))
  {
    var last := |outbox| - 1;
    var id := outbox[x].eventId;
    var names := DeliveredTo(outbox[..last], id);
    if y < last {
      DeliveredTwice(outbox[..last], x, y);
      var i, j :| 0 <= i < j < |names| && names[i] == names[j];
      assert DeliveredTo(outbox, id)[i] == DeliveredTo(outbox, id)[j];
    } else {
      RowIsDelivered(outbox[..last], x);
      var i :| 0 <= i < |names| && names[i] == outbox[x].ruleName;
      assert DeliveredTo(outbox, id)[i] == DeliveredTo(outbox, id)[|names|];
    }
  }

  lemma {:induction false} RowIsDelivered(outbox: seq<Delivery>, i: nat)
    requires i < |outbox|
    ensures outbox[i].ruleName in DeliveredTo(outbox, outbox[i].eventId)
  {
    if i < |outbox| - 1 {
      RowIsDelivered(outbox[..|outbox| - 1], i);
    }
  }

  /** Along a run deliveries are never dropped or reassigned, and a finished one never changes again. */
  lemma {:induction false} FinishedDeliveriesStay(states: seq<State>, ops: seq<Op>, s: Settings, backoff: real, i: nat, j: nat, k: nat)
    requires IsRun(states, ops, s, backoff) && i <= j < |states| && k < |states[i].tables.outbox|
    ensures k < |states[j].tables.outbox|
    ensures var before, after := states[i].tables.outbox[k], states[j].tables.outbox[k];
            && after.eventId == before.eventId && after.ruleName == before.ruleName
            && (before.status != Pending ==> after == before)
    decreases j
  {
    hide Inv;
    hide Judge;
    hide Delivered;
    hide RowOk;
    if i < j {
      FinishedDeliveriesStay(states, ops, s, backoff, i, j - 1, k);
      var t := states[j - 1].tables;
      match ops[j - 1]
      case Pass(now, attempts) =>
        RunOutboxOk(states, ops, s, backoff, j - 1);
        DeliveredKeepsOutbox(t.outbox, LiteDelivery.Due(t.outbox, now), now, attempts, backoff);
      case _ =>
    }
  }

  lemma RunOutboxOk(states: seq<State>, ops: seq<Op>, s: Settings, backoff: real, i: nat)
    requires IsRun(states, ops, s, backoff) && i < |states|
    ensures OutboxOk(states[i].tables.outbox, backoff)
  {
    RunInv(states, ops, s, backoff, i);
  }

  /** In every run, an exhausted delivery failed exactly its budget of times, each at least the
      backoff after the one before, and a pending one has attempts left. */
  lemma ExhaustedMeansSpacedFailures(states: seq<State>, ops: seq<Op>, s: Settings, backoff: real, i: nat, k: nat)
    requires IsRun(states, ops, s, backoff) && i < |states| && k < |states[i].tables.outbox|
    ensures var d := states[i].tables.outbox[k];
            && (d.status == Exhausted ==> |d.failures| == d.maxAttempts && Spaced(d.failures, backoff))
            && (d.status == Pending ==> d.attempts < d.maxAttempts)
  {
    RunOutboxOk(states, ops, s, backoff, i);
  }

  // ---- when the cooldown gate can speak at all ----------------------------------------------------------------

  predicate HasCooldown(decisions: seq<Decision>) {
    exists i :: 0 <= i < |decisions| && decisions[i].skipCode == Cooldown
  }

  ghost predicate CooldownCanFire(s: Settings) {
    exists states: seq<State>, ops: seq<Op> :: IsRun(states, ops, s, 15.0) && |states| == |ops| + 1 && HasCooldown(states[|ops|].tables.decisions)
  }

  lemma {:induction false} NoCooldownDecision(states: seq<State>, ops: seq<Op>, s: Settings, backoff: real, k: nat)
    requires IsRun(states, ops, s, backoff) && k < |states| && (s.cooldown <= 0 || s.dedupWindow >= s.cooldown)
    ensures !HasCooldown(states[k].tables.decisions)
  {
    hide Judge;
    if k > 0 {
      NoCooldownDecision(states, ops, s, backoff, k - 1);
      var t := states[k - 1].tables;
      match ops[k - 1]
      case Arrive(a, c) =>
        if s.cooldown > 0 {
          LongDedupWindowHidesCooldown(t, s, a, c);
        } else {
          OffCooldownIsSilent(t, s, a, c);
        }
      case _ =>
    }
  }

  lemma OffCooldownIsSilent(t: Tables, s: Settings, a: Alert, c: Clock)
    requires s.cooldown <= 0
    ensures Judge(t, s, a, c).code != Cooldown
  {
    NothingCools(t, s, a.hash, c.cooldown, Matched(ActiveRules(t.rules), a));
  }

  function At(t: real): Clock { Clock(t, t, t, t, t, t) }

  lemma OnlyRuleMatches(r: Rule, a: Alert)
    requires r.enabled && Matches(r, a)
    ensures ActiveRules([r]) == [r] && Matched([r], a) == [r]
  {
    assert [r][1..] == [] && ActiveRules([]) == [] && Insert(r, []) == [r];
    assert Considered([], a) == 0 && Considered([r], a) == 1;
    assert [r][..1] == [r] && [r][..0] == [] && Matching([], a) == [];
  }

  /** An alert that is new, not silenced and matched stops at the cooldown gate or is delivered. */
  lemma JudgeMatched(t: Tables, s: Settings, a: Alert, c: Clock, matched: seq<Rule>)
    requires RecentDuplicate(t.events, a.hash, c.dedup - s.dedupWindow as real) == None
    requires FirstSilence(t.silences, c.silence, a.text) == None
    requires matched == Matched(ActiveRules(t.rules), a) && matched != []
    ensures var v := Judge(t, s, a, c);
            && v.importance == a.importance && v.due == DueRules(t, s, a.hash, c.cooldown, matched)
            && v.code == if v.due == [] then Cooldown else NoSkip
  {
    hide RecentDuplicate;
    hide FirstSilence;
    hide Matched;
    hide ActiveRules;
    hide DueRules;
    hide CooledNames;
  }

  /** The first alert of an empty store, with one matching rule. */
  lemma FirstArrival(t: Tables, s: Settings, r: Rule, a: Alert)
    requires t == Tables([], [], [], [r], []) && r.enabled && Matches(r, a)
    ensures var v := Judge(t, s, a, At(0.0));
            v.importance == a.importance && v.due == [r]
  {
    OnlyRuleMatches(r, a);
    assert LastForwardAt(t.events, t.outbox, a.hash, r.name) == None;
    NothingCools(t, s, a.hash, 0.0, [r]);
    hide Judge;
    hide Matched;
    hide ActiveRules;
    hide DueRules;
    JudgeMatched(t, s, a, At(0.0), [r]);
  }

  lemma RuleCools(t: Tables, s: Settings, now: real, r: Rule, e: Event)
    requires t.events == [e] && t.outbox == [Fresh(1, r, 0.0)] && e.receivedAt == 0.0
    requires now < s.cooldown as real && s.cooldown > 0
    ensures DueRules(t, s, e.hash, now, [r]) == []
  {
    assert ForIdentity(t.events, t.outbox[0], e.hash, r.name);
    var last := LastForwardAt(t.events, t.outbox, e.hash, r.name);
    assert last == Some(0.0);
    assert Cools(t, s, e.hash, r.name, now);
    assert [r][..0] == [] && DueRules(t, s, e.hash, now, []) == [];
  }

  /** The same alert again, after the dedup window and within the cooldown. */
  lemma SecondArrivalCools(t: Tables, s: Settings, now: real, r: Rule, a: Alert, e: Event)
    requires t.events == [e] && t.outbox == [Fresh(1, r, 0.0)] && t.rules == [r] && t.silences == []
    requires e.receivedAt == 0.0 && e.hash == a.hash && r.enabled && Matches(r, a)
    requires s.dedupWindow as real <= now < s.cooldown as real && s.cooldown > 0
    ensures Judge(t, s, a, At(now)).code == Cooldown
  {
    OnlyRuleMatches(r, a);
    RuleCools(t, s, now, r, e);
    assert RecentDuplicate(t.events, a.hash, now - s.dedupWindow as real) == None;
    hide Judge;
    hide Matched;
    hide ActiveRules;
    hide DueRules;
    JudgeMatched(t, s, a, At(now), [r]);
  }

  lemma CooldownFires(s: Settings) returns (states: seq<State>, ops: seq<Op>)
    requires s.cooldown > 0 && s.cooldown > s.dedupWindow
    ensures IsRun(states, ops, s, 15.0) && |states| == |ops| + 1 && HasCooldown(states[|ops|].tables.decisions)
  {
    hide Judge;
    var now := if s.dedupWindow > 0 then s.dedupWindow as real else 0.0;
    var r := Rule(1, "", true, [], [], "", 0, false);
    var a := Alert("", "", "", "", false);
    var t := Tables([], [], [], [r], []);
    FirstArrival(t, s, r, a);
    var v := Judge(t, s, a, At(0.0));
    assert Rows(1, [r], 0.0) == [Fresh(1, r, 0.0)];
    var op1, op2 := Arrive(a, At(0.0)), Arrive(a, At(now));
    var s0 := State(0.0, t);
    var s1 := Apply(s0, op1, s, 15.0);
    SecondArrivalCools(s1.tables, s, now, r, a, NewEvent(a, At(0.0), v));
    var s2 := Apply(s1, op2, s, 15.0);
    assert s2.tables.decisions[1].skipCode == Cooldown;
    states, ops := [s0, s1, s2], [op1, op2];
  }

  /** The settings comment, made exact: cooldown gets a say only when it is positive and the longer window. */
  lemma CooldownCanFireIff(s: Settings)
    ensures CooldownCanFire(s) <==> s.cooldown > 0 && s.cooldown > s.dedupWindow
  {
    hide IsRun;
    hide HasCooldown;
    if s.cooldown > 0 && s.cooldown > s.dedupWindow {
      var states, ops := CooldownFires(s);
    } else {
      forall states: seq<State>, ops: seq<Op> | IsRun(states, ops, s, 15.0)
        ensures |states| == |ops| + 1 && !HasCooldown(states[|ops|].tables.decisions)
      {
        RunLength(states, ops, s, 15.0);
        NoCooldownDecision(states, ops, s, 15.0, |ops|);
      }
    }
  }

  lemma RunLength(states: seq<State>, ops: seq<Op>, s: Settings, backoff: real)
    requires IsRun(states, ops, s, backoff)
    ensures |states| == |ops| + 1
  {
  }
}
