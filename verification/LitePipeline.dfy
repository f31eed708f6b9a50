/**
  lite/pipeline.py: the four suppression gates, over the tables of lite/store.py.
 */
module LitePipeline {
  import opened Wrappers
  import opened LiteStore

  datatype Settings = Settings(dedupWindow: int, cooldown: int)

  /** A normalised alert with its triage verdict; `text` and the silence patterns are lower-cased. */
  datatype Alert = Alert(source: string, text: string, hash: string, importance: string, correlated: bool)

  /** When each gate reads the clock. */
  datatype Clock = Clock(dedup: real, silence: real, persist: real, cooldown: real, enqueue: real, decide: real)

  predicate Forward(c: Clock) { c.dedup <= c.silence <= c.persist <= c.cooldown <= c.enqueue <= c.decide }

  // ---- silences -----------------------------------------------------------------------------------

  predicate Contains(text: string, pattern: string) {
    exists i :: 0 <= i <= |text| && pattern <= text[i..]
  }

  predicate SilencedBy(s: Silence, now: real, text: string) { s.until > now && Contains(text, s.pattern) }

  /** The first active silence that matches. */
  function FirstSilence(silences: seq<Silence>, now: real, text: string): Option<nat> {
    if silences == [] then None
    else if SilencedBy(silences[0], now, text) then Some(silences[0].id)
    else FirstSilence(silences[1..], now, text)
  }

  // ---- rules ----------------------------------------------------------------------------------------

  predicate Wanted(wanted: seq<string>, value: string) { wanted == [] || value in wanted }

  /** `_matches` */
  predicate Matches(r: Rule, a: Alert) { Wanted(r.sources, a.source) && Wanted(r.importances, a.importance) }

  function Matching(rules: seq<Rule>, a: Alert): seq<Rule> {
    if rules == [] then []
    else
      var last := |rules| - 1;
      Matching(rules[..last], a) + if Matches(rules[last], a) then [rules[last]] else []
  }

  predicate Stops(r: Rule, a: Alert) { r.stop && Matches(r, a) }

  /** How many rules are considered: up to and including the first matching stop rule. */
  function Considered(rules: seq<Rule>, a: Alert): (n: nat)
    ensures n <= |rules|
    ensures forall i :: 0 <= i < n - 1 ==> !Stops(rules[i], a)
    ensures n < |rules| ==> n > 0 && Stops(rules[n - 1], a)
  {
    if rules == [] then 0
    else if Stops(rules[0], a) then 1
    else 1 + Considered(rules[1..], a)
  }

  function Matched(rules: seq<Rule>, a: Alert): seq<Rule> { Matching(rules[..Considered(rules, a)], a) }

  function StoppedBy(rules: seq<Rule>, a: Alert): Option<string> {
    var n := Considered(rules, a);
    if n > 0 && Stops(rules[n - 1], a) then Some(rules[n - 1].name) else None
  }

  lemma {:induction false} ConsideredAt(rules: seq<Rule>, a: Alert, i: nat)
    requires i < |rules| && Stops(rules[i], a) && forall j :: 0 <= j < i ==> !Stops(rules[j], a)
    ensures Considered(rules, a) == i + 1
  {
    if i > 0 {
      ConsideredAt(rules[1..], a, i - 1);
    }
  }

  lemma {:induction false} ConsideredAll(rules: seq<Rule>, a: Alert)
    requires forall j :: 0 <= j < |rules| ==> !Stops(rules[j], a)
    ensures Considered(rules, a) == |rules|
  {
    if rules != [] {
      ConsideredAll(rules[1..], a);
    }
  }

  /** `_match_rules` */
  method MatchRules(rules: seq<Rule>, a: Alert) returns (matched: seq<Rule>, stoppedBy: Option<string>)
    ensures matched == Matched(rules, a) && stoppedBy == StoppedBy(rules, a)
  {
    matched := [];
    for i := 0 to |rules|
      invariant matched == Matching(rules[..i], a)
      invariant forall j :: 0 <= j < i ==> !Stops(rules[j], a)
    {
      assert rules[..i + 1][..i] == rules[..i];
      if Matches(rules[i], a) {
        matched := matched + [rules[i]];
        if rules[i].stop {
          ConsideredAt(rules, a, i);
          return matched, Some(rules[i].name);
        }
      }
    }
    ConsideredAll(rules, a);
    assert rules[..|rules|] == rules;
    return matched, None;
  }

  // ---- cooldown ---------------------------------------------------------------------------------------

  predicate Cools(t: Tables, s: Settings, hash: string, name: string, now: real) {
    s.cooldown > 0 &&
    var last := LastForwardAt(t.events, t.outbox, hash, name);
    last.Some? && now - last.value < s.cooldown as real
  }

  /** The rules whose cooldown is over. */
  function DueRules(t: Tables, s: Settings, hash: string, now: real, rules: seq<Rule>): seq<Rule> {
    if rules == [] then []
    else
      var last := |rules| - 1;
      DueRules(t, s, hash, now, rules[..last]) + if Cools(t, s, hash, rules[last].name, now) then [] else [rules[last]]
  }

  function CooledNames(t: Tables, s: Settings, hash: string, now: real, rules: seq<Rule>): seq<string> {
    if rules == [] then []
    else
      var last := |rules| - 1;
      CooledNames(t, s, hash, now, rules[..last]) +
      if Cools(t, s, hash, rules[last].name, now) then [rules[last].name] else []
  }

  lemma {:induction false} NothingCools(t: Tables, s: Settings, hash: string, now: real, rules: seq<Rule>)
    requires forall i :: 0 <= i < |rules| ==> !Cools(t, s, hash, rules[i].name, now)
    ensures DueRules(t, s, hash, now, rules) == rules && CooledNames(t, s, hash, now, rules) == []
  {
    if rules != [] {
      NothingCools(t, s, hash, now, rules[..|rules| - 1]);
    }
  }

  /** `_apply_cooldown` */
  method ApplyCooldown(store: Store, s: Settings, hash: string, now: real, matched: seq<Rule>)
    returns (due: seq<Rule>, cooled: seq<string>)
    ensures due == DueRules(store.View(), s, hash, now, matched)
    ensures cooled == CooledNames(store.View(), s, hash, now, matched)
  {
    if s.cooldown <= 0 {
      NothingCools(store.View(), s, hash, now, matched);
      return matched, [];
    }
    due, cooled := [], [];
    for i := 0 to |matched|
      invariant due == DueRules(store.View(), s, hash, now, matched[..i])
      invariant cooled == CooledNames(store.View(), s, hash, now, matched[..i])
    {
      assert matched[..i + 1][..i] == matched[..i];
      var last := LastForwardAt(store.events, store.outbox, hash, matched[i].name);
      if last.Some? && now - last.value < s.cooldown as real {
        cooled := cooled + [matched[i].name];
      } else {
        due := due + [matched[i]];
      }
    }
    assert matched[..|matched|] == matched;
  }

  // ---- the chain ----------------------------------------------------------------------------------------

  function Names(rules: seq<Rule>): (r: seq<string>)
    ensures |r| == |rules| && forall i :: 0 <= i < |r| ==> r[i] == rules[i].name
  {
    seq(|rules|, i requires 0 <= i < |rules| => rules[i].name)
  }

  function Rows(eventId: nat, rules: seq<Rule>, now: real): (r: seq<Delivery>)
    ensures |r| == |rules| && forall i :: 0 <= i < |r| ==> r[i] == Fresh(eventId, rules[i], now)
  {
    seq(|rules|, i requires 0 <= i < |rules| => Fresh(eventId, rules[i], now))
  }

  /** The head of every trace. */
  function Opening(a: Alert): seq<GateStep> { if a.correlated then [Correlate, Normalize] else [Normalize] }

  /** The decision one alert gets, and the rules it is delivered to. */
  datatype Verdict = Verdict(importance: string, code: SkipCode, steps: seq<GateStep>, due: seq<Rule>)

  function Judge(t: Tables, s: Settings, a: Alert, c: Clock): Verdict {
    var head := Opening(a);
    var dup := RecentDuplicate(t.events, a.hash, c.dedup - s.dedupWindow as real);
    if dup.Some? then Verdict("", Duplicate, head + [DedupDuplicate(dup.value)], [])
    else
      var silence := FirstSilence(t.silences, c.silence, a.text);
      if silence.Some? then Verdict("", Silenced, head + [DedupPass, SilenceHit(silence.value)], [])
      else JudgeRules(t, s, a, c, head + [DedupPass, SilencePass, Analysis])
  }

  function JudgeRules(t: Tables, s: Settings, a: Alert, c: Clock, head: seq<GateStep>): Verdict {
    var rules := ActiveRules(t.rules);
    var matched := Matched(rules, a);
    if matched == [] then Verdict(a.importance, NoMatch, head + [RulesNoMatch], [])
    else
      var head := head + [RulesMatched(Names(matched), StoppedBy(rules, a))];
      var due := DueRules(t, s, a.hash, c.cooldown, matched);
      var cooled := CooledNames(t, s, a.hash, c.cooldown, matched);
      if due == [] then Verdict(a.importance, Cooldown, head + [Cooling(cooled)], [])
      else Verdict(a.importance, NoSkip, head + [CooldownPass(cooled), Enqueued(|due|)], due)
  }

  function Outcome(v: Verdict): Outcome { if v.code == NoSkip then Forwarded else Skipped }

  function NewEvent(a: Alert, c: Clock, v: Verdict): Event { Event(c.persist, a.source, a.text, a.hash, v.importance) }

  function NewDecision(id: nat, c: Clock, v: Verdict): Decision {
    Decision(id, c.decide, Outcome(v), v.code, v.steps, Names(v.due), c.cooldown)
  }

  /** The tables after `process`: one event, one decision, one delivery for each due rule. */
  function Processed(t: Tables, s: Settings, a: Alert, c: Clock): Tables {
    var v := Judge(t, s, a, c);
    var id := |t.events| + 1;
    t.(events := t.events + [NewEvent(a, c, v)],
       decisions := t.decisions + [NewDecision(id, c, v)],
       outbox := t.outbox + Rows(id, v.due, c.enqueue))
  }

  /** The event being judged has no delivery yet, so looking it up with or without its row is the same. */
  lemma {:induction false} CurrentEventHasNoDelivery(events: seq<Event>, e: Event, outbox: seq<Delivery>, hash: string, name: string)
    requires forall i :: 0 <= i < |outbox| ==> outbox[i].eventId <= |events|
    ensures LastForwardAt(events + [e], outbox, hash, name) == LastForwardAt(events, outbox, hash, name)
  {
    if outbox != [] {
      CurrentEventHasNoDelivery(events, e, outbox[..|outbox| - 1], hash, name);
    }
  }

  lemma {:induction false} CooldownIgnoresCurrentEvent(t: Tables, e: Event, s: Settings, hash: string, now: real, rules: seq<Rule>)
    requires forall i :: 0 <= i < |t.outbox| ==> t.outbox[i].eventId <= |t.events|
    ensures var u := t.(events := t.events + [e]);
            && DueRules(u, s, hash, now, rules) == DueRules(t, s, hash, now, rules)
            && CooledNames(u, s, hash, now, rules) == CooledNames(t, s, hash, now, rules)
  {
    if rules != [] {
      CooldownIgnoresCurrentEvent(t, e, s, hash, now, rules[..|rules| - 1]);
      CurrentEventHasNoDelivery(t.events, e, t.outbox, hash, rules[|rules| - 1].name);
    }
  }

  method FindSilence(store: Store, now: real, text: string) returns (hit: Option<nat>)
    ensures hit == FirstSilence(store.silences, now, text)
  {
    assert store.silences[0..] == store.silences;
    for i := 0 to |store.silences|
      invariant FirstSilence(store.silences, now, text) == FirstSilence(store.silences[i..], now, text)
    {
      assert store.silences[i..][1..] == store.silences[i + 1..];
      if store.silences[i].until > now && Contains(text, store.silences[i].pattern) {
        return Some(store.silences[i].id);
      }
    }
    return None;
  }

  /** `process` */
  method Process(store: Store, s: Settings, a: Alert, c: Clock) returns (v: Verdict)
    requires forall i :: 0 <= i < |store.outbox| ==> store.outbox[i].eventId <= |store.events|
    modifies store
    ensures v == Judge(old(store.View()), s, a, c)
    ensures store.View() == Processed(old(store.View()), s, a, c)
  {
    var steps := Opening(a);
    var duplicate := RecentDuplicate(store.events, a.hash, c.dedup - s.dedupWindow as real);
    if duplicate.Some? {
      v := Verdict("", Duplicate, steps + [DedupDuplicate(duplicate.value)], []);
      Conclude(store, a, c, v);
      return;
    }
    steps := steps + [DedupPass];
    var silence := FindSilence(store, c.silence, a.text);
    if silence.Some? {
      v := Verdict("", Silenced, steps + [SilenceHit(silence.value)], []);
      assert Opening(a) + [DedupPass, SilenceHit(silence.value)] == steps + [SilenceHit(silence.value)];
      Conclude(store, a, c, v);
      return;
    }
    steps := steps + [SilencePass, Analysis];
    assert steps == Opening(a) + [DedupPass, SilencePass, Analysis];
    var id := store.InsertEvent(Event(c.persist, a.source, a.text, a.hash, a.importance));
    v := RunRules(store, s, a, c, steps, id);
  }

  /** A chain that stops before the analysis: the event and the decision are written. */
  method Conclude(store: Store, a: Alert, c: Clock, v: Verdict)
    requires v.due == []
    modifies store
    ensures store.View() == old(store.View()).(events := old(store.events) + [NewEvent(a, c, v)],
                                               decisions := old(store.decisions) + [NewDecision(|old(store.events)| + 1, c, v)],
                                               outbox := old(store.outbox) + Rows(|old(store.events)| + 1, [], c.enqueue))
  {
    var id := store.InsertEvent(NewEvent(a, c, v));
    store.InsertDecision(NewDecision(id, c, v));
    assert Rows(id, [], c.enqueue) == [] && store.outbox == old(store.outbox) + [];
  }

  /** The gates after the event row was written. */
  method RunRules(store: Store, s: Settings, a: Alert, c: Clock, steps: seq<GateStep>, id: nat) returns (v: Verdict)
    requires store.events != [] && id == |store.events|
    requires forall i :: 0 <= i < |store.outbox| ==> store.outbox[i].eventId < |store.events|
    modifies store
    ensures v == JudgeRules(old(store.View()).(events := old(store.events)[..|old(store.events)| - 1]), s, a, c, steps)
    ensures store.View() == old(store.View()).(decisions := old(store.decisions) + [NewDecision(id, c, v)],
                                               outbox := old(store.outbox) + Rows(id, v.due, c.enqueue))
  {
    ghost var t := store.View().(events := store.events[..id - 1]);
    var rules := ActiveRules(store.rules);
    var matched, stoppedBy := MatchRules(rules, a);
    assert Rows(id, [], c.enqueue) == [] && store.outbox + [] == store.outbox;
    if matched == [] {
      v := Verdict(a.importance, NoMatch, steps + [RulesNoMatch], []);
      store.InsertDecision(NewDecision(id, c, v));
      return;
    }
    var trace := steps + [RulesMatched(Names(matched), stoppedBy)];
    assert t.events + [store.events[id - 1]] == store.events;
    CooldownIgnoresCurrentEvent(t, store.events[id - 1], s, a.hash, c.cooldown, matched);
    var due, cooled := ApplyCooldown(store, s, a.hash, c.cooldown, matched);
    if due == [] {
      v := Verdict(a.importance, Cooldown, trace + [Cooling(cooled)], []);
      store.InsertDecision(NewDecision(id, c, v));
      return;
    }
    v := Verdict(a.importance, NoSkip, trace + [CooldownPass(cooled), Enqueued(|due|)], due);
    EnqueueAll(store, id, due, c.enqueue);
    store.InsertDecision(NewDecision(id, c, v));
  }

  method EnqueueAll(store: Store, id: nat, due: seq<Rule>, now: real)
    modifies store
    ensures store.View() == old(store.View()).(outbox := old(store.outbox) + Rows(id, due, now))
  {
    for i := 0 to |due|
      invariant store.View() == old(store.View()).(outbox := old(store.outbox) + Rows(id, due, now)[..i])
    {
      store.EnqueueDelivery(id, due[i], now);
    }
  }
}
