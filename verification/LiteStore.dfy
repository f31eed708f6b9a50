/**
  lite/store.py: the tables of the Lite edition and the queries on them.  Events, decisions
  and deliveries are never deleted, so the row with identifier `n` is at index `n - 1`.
 */
module LiteStore {
  import opened Wrappers

  datatype Event = Event(receivedAt: real, source: string, text: string, hash: string, importance: string)

  datatype Rule = Rule(id: nat, name: string, enabled: bool, sources: seq<string>, importances: seq<string>,
                       url: string, priority: int, stop: bool)

  datatype Silence = Silence(id: nat, pattern: string, until: real)

  datatype Status = Pending | Sent | Exhausted

  /** `failures` is the history of failed attempts; it is kept for the statements only. */
  datatype Delivery = Delivery(eventId: nat, ruleName: string, url: string, status: Status, attempts: nat,
                               maxAttempts: nat, nextAttemptAt: real, failures: seq<real>)

  datatype Outcome = Forwarded | Skipped

  datatype SkipCode = NoSkip | Duplicate | Silenced | NoMatch | Cooldown

  /** The entries of the decision trace. */
  datatype GateStep =
    | Correlate
    | Normalize
    | DedupDuplicate(firstEventId: nat)
    | DedupPass
    | SilenceHit(id: nat)
    | SilencePass
    | Analysis
    | RulesNoMatch
    | RulesMatched(names: seq<string>, stoppedBy: Option<string>)
    | Cooling(cooled: seq<string>)
    | CooldownPass(cooled: seq<string>)
    | Enqueued(count: nat)

  /** `checkedAt` is when the cooldown gate read the clock; it is kept for the statements only. */
  datatype Decision = Decision(eventId: nat, at: real, outcome: Outcome, skipCode: SkipCode, steps: seq<GateStep>,
                               matched: seq<string>, checkedAt: real)

  datatype Tables = Tables(events: seq<Event>, decisions: seq<Decision>, outbox: seq<Delivery>,
                           rules: seq<Rule>, silences: seq<Silence>)

  const MAX_ATTEMPTS: nat := 4

  // ---- queries ------------------------------------------------------------------------------------

  /** `WHERE alert_hash=? AND received_at > ? ORDER BY id DESC LIMIT 1`: the identifier found. */
  function RecentDuplicate(events: seq<Event>, hash: string, since: real): (r: Option<nat>)
    ensures r.Some? ==> 1 <= r.value <= |events| && events[r.value - 1].hash == hash && events[r.value - 1].receivedAt > since
    ensures forall i :: 0 <= i < |events| && events[i].hash == hash && events[i].receivedAt > since ==>
              r.Some? && i + 1 <= r.value
  {
    if events == [] then None
    else
      var last := |events| - 1;
      if events[last].hash == hash && events[last].receivedAt > since then Some(last + 1)
      else RecentDuplicate(events[..last], hash, since)
  }

  /** The delivery is for an event with this identity, under this rule name. */
  predicate ForIdentity(events: seq<Event>, d: Delivery, hash: string, name: string) {
    d.ruleName == name && 1 <= d.eventId <= |events| && events[d.eventId - 1].hash == hash
  }

  /** `SELECT MAX(e.received_at) FROM outbox o JOIN events e ... WHERE alert_hash=? AND rule_name=?` */
  function LastForwardAt(events: seq<Event>, outbox: seq<Delivery>, hash: string, name: string): (r: Option<real>)
    ensures forall i :: 0 <= i < |outbox| && ForIdentity(events, outbox[i], hash, name) ==>
              r.Some? && events[outbox[i].eventId - 1].receivedAt <= r.value
    ensures r.Some? ==> exists i :: 0 <= i < |outbox| && ForIdentity(events, outbox[i], hash, name) &&
                                    events[outbox[i].eventId - 1].receivedAt == r.value
  {
    if outbox == [] then None
    else
      var last := |outbox| - 1;
      var rest := LastForwardAt(events, outbox[..last], hash, name);
      if !ForIdentity(events, outbox[last], hash, name) then rest
      else
        var t := events[outbox[last].eventId - 1].receivedAt;
        if rest.Some? && rest.value >= t then rest else Some(t)
  }

  /** `priority DESC, id ASC` */
  predicate Before(a: Rule, b: Rule) { a.priority > b.priority || (a.priority == b.priority && a.id <= b.id) }

  predicate InOrder(rules: seq<Rule>) { forall i, j :: 0 <= i < j < |rules| ==> Before(rules[i], rules[j]) }

  function Insert(rule: Rule, rules: seq<Rule>): (r: seq<Rule>)
    ensures multiset(r) == multiset(rules) + multiset{rule}
  {
    if rules == [] || Before(rule, rules[0]) then [rule] + rules
    else
      assert rules == [rules[0]] + rules[1..];
      [rules[0]] + Insert(rule, rules[1..])
  }

  lemma {:induction false} InsertInOrder(rule: Rule, rules: seq<Rule>)
    requires InOrder(rules)
    ensures InOrder(Insert(rule, rules))
  {
    if rules != [] && !Before(rule, rules[0]) {
      InsertInOrder(rule, rules[1..]);
      var rest := Insert(rule, rules[1..]);
      forall j | 0 <= j < |rest|
        ensures Before(rules[0], rest[j])
      {
        assert rest[j] in multiset(rules[1..]) + multiset{rule};
        if rest[j] != rule {
          assert rest[j] in rules[1..];
        }
      }
    }
  }

  function Enabled(rules: seq<Rule>): seq<Rule> {
    if rules == [] then [] else (if rules[0].enabled then [rules[0]] else []) + Enabled(rules[1..])
  }

  /** `SELECT * FROM rules WHERE enabled=1 ORDER BY priority DESC, id ASC` */
  function ActiveRules(rules: seq<Rule>): (r: seq<Rule>)
    ensures InOrder(r) && multiset(r) == multiset(Enabled(rules))
  {
    if rules == [] then []
    else if rules[0].enabled then
      InsertInOrder(rules[0], ActiveRules(rules[1..]));
      Insert(rules[0], ActiveRules(rules[1..]))
    else assert [] + Enabled(rules[1..]) == Enabled(rules[1..]); ActiveRules(rules[1..])
  }

  predicate Due(d: Delivery, now: real) { d.status == Pending && d.nextAttemptAt <= now }

  /** `WHERE status='pending' AND next_attempt_at <= ? ORDER BY id LIMIT ?`: the identifiers found, from index `i` on. */
  function DueDeliveries(outbox: seq<Delivery>, now: real, limit: nat, i: nat): (r: seq<nat>)
    requires i <= |outbox|
    ensures |r| <= limit && forall k :: 0 <= k < |r| ==> i < r[k] <= |outbox| && Due(outbox[r[k] - 1], now)
    ensures forall j, k :: 0 <= j < k < |r| ==> r[j] < r[k]
    decreases |outbox| - i
  {
    if i == |outbox| || limit == 0 then []
    else if Due(outbox[i], now) then [i + 1] + DueDeliveries(outbox, now, limit - 1, i + 1)
    else DueDeliveries(outbox, now, limit, i + 1)
  }

  // ---- updates of one delivery ------------------------------------------------------------------------

  function AfterSent(d: Delivery): Delivery { d.(status := Sent, attempts := d.attempts + 1) }

  function AfterFailed(d: Delivery, now: real, backoff: real): Delivery {
    d.(status := if d.attempts + 1 >= d.maxAttempts then Exhausted else Pending,
       attempts := d.attempts + 1, nextAttemptAt := now + backoff, failures := d.failures + [now])
  }

  class Store {
    var events: seq<Event>
    var decisions: seq<Decision>
    var outbox: seq<Delivery>
    var rules: seq<Rule>
    var silences: seq<Silence>

    ghost function View(): Tables
      reads this
    {
      Tables(events, decisions, outbox, rules, silences)
    }

    constructor (rules: seq<Rule>, silences: seq<Silence>)
      ensures View() == Tables([], [], [], rules, silences)
    {
      events, decisions, outbox := [], [], [];
      this.rules, this.silences := rules, silences;
    }

    /** `insert_event`: returns the row's identifier. */
    method InsertEvent(e: Event) returns (id: nat)
      modifies this
      ensures View() == old(View()).(events := old(events) + [e]) && id == |events|
    {
      events := events + [e];
      return |events|;
    }

    method InsertDecision(d: Decision)
      modifies this
      ensures View() == old(View()).(decisions := old(decisions) + [d])
    {
      decisions := decisions + [d];
    }

    /** `enqueue_delivery`: a pending row that is due at once. */
    method EnqueueDelivery(eventId: nat, rule: Rule, now: real)
      modifies this
      ensures View() == old(View()).(outbox := old(outbox) + [Fresh(eventId, rule, now)])
    {
      outbox := outbox + [Fresh(eventId, rule, now)];
    }

    method MarkSent(id: nat)
      modifies this
      ensures View() == old(View()).(outbox := if 1 <= id <= |old(outbox)| then old(outbox)[id - 1 := AfterSent(old(outbox)[id - 1])] else old(outbox))
    {
      if 1 <= id <= |outbox| {
        outbox := outbox[id - 1 := AfterSent(outbox[id - 1])];
      }
    }

    /** `mark_failed`: the new status, or none for a missing row. */
    method MarkFailed(id: nat, now: real, backoff: real) returns (status: Option<Status>)
      modifies this
      ensures View() == old(View()).(outbox := if 1 <= id <= |old(outbox)| then old(outbox)[id - 1 := AfterFailed(old(outbox)[id - 1], now, backoff)] else old(outbox))
      ensures status == if 1 <= id <= |outbox| then Some(outbox[id - 1].status) else None
    {
      if !(1 <= id <= |outbox|) {
        return None;
      }
      var attempts := outbox[id - 1].attempts + 1;
      var s := if attempts >= outbox[id - 1].maxAttempts then Exhausted else Pending;
      outbox := outbox[id - 1 := outbox[id - 1].(status := s, attempts := attempts, nextAttemptAt := now + backoff,
                                                 failures := outbox[id - 1].failures + [now])];
      return Some(s);
    }
  }

  function Fresh(eventId: nat, rule: Rule, now: real): Delivery {
    Delivery(eventId, rule.name, rule.url, Pending, 0, MAX_ATTEMPTS, now, [])
  }
}
