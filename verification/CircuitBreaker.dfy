/**
  core/circuit_breaker.py and its three Redis scripts, with Redis healthy: any number of
  processes, each with its CLOSED cache and its checks in flight, and the shared state.
 */
module CircuitBreaker {
  import opened Wrappers

  type Id = nat

  /** `recovery_timeout`, and the longest time from the script's run to the caller seeing its reply. */
  datatype Config = Config(recovery: real, latency: real)

  predicate GoodConfig(c: Config) { c.recovery > 0.0 && c.latency >= 0.0 }

  /** `min(3.0, recovery_timeout)` */
  function ClosedTtl(c: Config): real { if c.recovery < 3.0 then c.recovery else 3.0 }

  /** The two state keys; `since` is when the current OPEN began. */
  datatype Shared = Closed | Open(since: real, until: real)

  /** A state check: sent with the sender's clock, answered by the script, not yet seen by the caller. */
  datatype Check = Asked(sentAt: real) | Answered(open: bool, readAt: real)

  datatype Process = Process(cachedUntil: real, checks: map<Id, Check>)

  /** When the cache ends once a reply is seen: only CLOSED is cached, from the moment it is seen. */
  function CachedAfter(c: Config, cachedUntil: real, open: bool, now: real): real {
    if open then cachedUntil else now + ClosedTtl(c)
  }

  datatype Reply = SaysOpen | SaysClosed | Raised

  /** The breaker object of one process, cut at its awaits. */
  class Breaker {
    const config: Config
    var closedCacheUntil: real

    constructor (config: Config)
      ensures this.config == config && closedCacheUntil == 0.0
    {
      this.config := config;
      closedCacheUntil := 0.0;
    }

    /** `_check_state_async` up to the script: true lets the call through without asking. */
    method CheckCache(now: real) returns (admitted: bool)
      requires GoodConfig(config)
      ensures admitted <==> now < closedCacheUntil
    {
      return ClosedTtl(config) > 0.0 && now < closedCacheUntil;
    }

    /** `_check_state_async` after the script's reply.  A script that raised counts as CLOSED, and is
        cached like it, although the comment in the source says that fallbacks are not. */
    method SeeReply(reply: Reply, now: real) returns (admitted: bool)
      requires GoodConfig(config)
      modifies this
      ensures admitted == !reply.SaysOpen? && closedCacheUntil == CachedAfter(config, old(closedCacheUntil), reply.SaysOpen?, now)
    {
      var open := reply.SaysOpen?;
      if !open && ClosedTtl(config) > 0.0 {
        closedCacheUntil := now + ClosedTtl(config);
      }
      return !open;
    }

    /** The first statement of `_record_failure`. */
    method DropCache()
      modifies this
      ensures closedCacheUntil == 0.0
    {
      closedCacheUntil := 0.0;
    }
  }

  datatype State = State(now: real, shared: Shared, processes: map<Id, Process>)

  datatype Step =
    | Tick(d: real)
    | Ask(p: Id, g: Id)
    | Evaluate(p: Id, g: Id)
    | Reply(p: Id, g: Id)
    | AdmitCached(p: Id)
    | DropCache(p: Id)
    | Trip(sentAt: real)
    | CloseShared

  predicate Enabled(c: Config, s: State, a: Step) {
    match a
    case Tick(d) =>
      d >= 0.0 && forall p, g :: p in s.processes && g in s.processes[p].checks && s.processes[p].checks[g].Answered? ==>
                    s.now + d <= s.processes[p].checks[g].readAt + c.latency
    case Ask(p, g) => p in s.processes && g !in s.processes[p].checks && s.now >= s.processes[p].cachedUntil
    case Evaluate(p, g) => p in s.processes && g in s.processes[p].checks && s.processes[p].checks[g].Asked?
    case Reply(p, g) => p in s.processes && g in s.processes[p].checks && s.processes[p].checks[g].Answered?
    case AdmitCached(p) => p in s.processes && s.now < s.processes[p].cachedUntil
    case DropCache(p) => p in s.processes
    case Trip(sentAt) => sentAt <= s.now
    case CloseShared => true
  }

  /** circuit_breaker_check_state.lua with the caller's clock: OPEN, unless its window has ended. */
  predicate ReadsOpen(shared: Shared, sentAt: real) { shared.Open? && sentAt < shared.until }

  function Set(s: State, p: Id, q: Process): State { s.(processes := s.processes[p := q]) }

  function Apply(c: Config, s: State, a: Step): State
    requires Enabled(c, s, a)
  {
    match a
    case Tick(d) => s.(now := s.now + d)
    case Ask(p, g) =>
      var q := s.processes[p];
      Set(s, p, q.(checks := q.checks[g := Asked(s.now)]))
    case Evaluate(p, g) =>
      var q := s.processes[p];
      var open := ReadsOpen(s.shared, q.checks[g].sentAt);
      Set(s, p, q.(checks := q.checks[g := Answered(open, s.now)])).(shared := if open then s.shared else Closed)
    case Reply(p, g) =>
      var q := s.processes[p];
      var t := q.(checks := q.checks - {g});
      Set(s, p, t.(cachedUntil := CachedAfter(c, q.cachedUntil, q.checks[g].open, s.now)))
    case AdmitCached(_) => s
    case DropCache(p) => Set(s, p, s.processes[p].(cachedUntil := 0.0))
    case Trip(sentAt) =>
      s.(shared := Open(if s.shared.Open? then s.shared.since else s.now, sentAt + c.recovery))
    case CloseShared => s.(shared := Closed)
  }

  /** The step lets a call through: from the cache, or on a reply that says CLOSED. */
  predicate Admits(s: State, a: Step) {
    match a
    case AdmitCached(_) => true
    case Reply(p, g) => p in s.processes && g in s.processes[p].checks && s.processes[p].checks[g].Answered? && !s.processes[p].checks[g].open
    case _ => false
  }

  predicate Init(s: State) {
    s.shared == Closed && s.now >= 0.0 && forall p :: p in s.processes ==> s.processes[p] == Process(0.0, map[])
  }

  predicate IsRun(c: Config, states: seq<State>, steps: seq<Step>) {
    && |states| == |steps| + 1 && Init(states[0])
    && forall i :: 0 <= i < |steps| ==> Enabled(c, states[i], steps[i]) && states[i + 1] == Apply(c, states[i], steps[i])
  }

  // ---- how long a trip can go unnoticed ------------------------------------------------------------------

  predicate ProcessOk(c: Config, s: State, q: Process) {
    && q.cachedUntil <= s.now + ClosedTtl(c)
    && (s.shared.Open? ==> q.cachedUntil <= s.shared.since + c.latency + ClosedTtl(c))
    && (forall g :: g in q.checks && q.checks[g].Asked? ==> q.checks[g].sentAt <= s.now)
    && forall g :: g in q.checks && q.checks[g].Answered? ==>
         && q.checks[g].readAt <= s.now <= q.checks[g].readAt + c.latency
         && (s.shared.Open? && !q.checks[g].open ==> q.checks[g].readAt <= s.shared.since)
  }

  predicate Inv(c: Config, s: State) {
    && s.now >= 0.0 && (s.shared.Open? ==> 0.0 <= s.shared.since <= s.now)
    && forall p :: p in s.processes ==> ProcessOk(c, s, s.processes[p])
  }

  lemma StepKeepsInv(c: Config, s: State, a: Step)
    requires GoodConfig(c) && Inv(c, s) && Enabled(c, s, a)
    ensures Inv(c, Apply(c, s, a))
  {
    var t := Apply(c, s, a);
    forall p | p in t.processes
      ensures ProcessOk(c, t, t.processes[p])
    {
      assert ProcessOk(c, s, s.processes[p]);
    }
  }

  lemma {:induction false} RunInv(c: Config, states: seq<State>, steps: seq<Step>, i: nat)
    requires GoodConfig(c) && IsRun(c, states, steps) && i < |states|
    ensures Inv(c, states[i])
  {
    if i > 0 {
      RunInv(c, states, steps, i - 1);
      StepKeepsInv(c, states[i - 1], steps[i - 1]);
    }
  }

  /** While the breaker stays OPEN, no process admits a call later than the cache TTL and one reply
      latency after it opened. */
  lemma NoAdmissionOnceNoticed(c: Config, states: seq<State>, steps: seq<Step>, i: nat)
    requires GoodConfig(c) && IsRun(c, states, steps) && i < |steps|
    requires states[i].shared.Open? && Admits(states[i], steps[i])
    ensures states[i].now < states[i].shared.since + ClosedTtl(c) + c.latency
  {
    RunInv(c, states, steps, i);
    var s := states[i];
    match steps[i]
    case AdmitCached(p) => assert ProcessOk(c, s, s.processes[p]);
    case Reply(p, g) => assert ProcessOk(c, s, s.processes[p]);
  }

  // ---- the open window --------------------------------------------------------------------------------------

  /** The script answers OPEN exactly inside the window, by the sender's clock, and closes the breaker once it is over. */
  lemma CheckReadsWindow(c: Config, s: State, p: Id, g: Id)
    requires Enabled(c, s, Evaluate(p, g))
    ensures var t := Apply(c, s, Evaluate(p, g));
            var sentAt := s.processes[p].checks[g].sentAt;
            && g in t.processes[p].checks
            && (s.shared.Open? && sentAt < s.shared.until ==> t.processes[p].checks[g] == Answered(true, s.now) && t.shared == s.shared)
            && (s.shared.Open? && sentAt >= s.shared.until ==> t.processes[p].checks[g] == Answered(false, s.now) && t.shared == Closed)
            && (s.shared.Closed? ==> t.processes[p].checks[g] == Answered(false, s.now) && t.shared == Closed)
  {
  }

  /** No success of a call that was already through closed the breaker, and the window was always still running. */
  predicate WindowRuns(states: seq<State>, steps: seq<Step>, i: nat, j: nat)
    requires i <= j <= |steps| && |states| == |steps| + 1
  {
    forall k :: i <= k < j ==> !steps[k].CloseShared? && (states[k].shared.Open? ==> states[k].now < states[k].shared.until)
  }

  predicate NoTrip(steps: seq<Step>, i: nat, j: nat) { forall k :: i <= k < j && k < |steps| ==> !steps[k].Trip? }

  lemma StepStaysOpen(c: Config, s: State, a: Step)
    requires GoodConfig(c) && Inv(c, s) && Enabled(c, s, a) && s.shared.Open? && s.now < s.shared.until && !a.CloseShared?
    ensures Apply(c, s, a).shared.Open? && Apply(c, s, a).shared.since == s.shared.since
    ensures !a.Trip? ==> Apply(c, s, a).shared == s.shared
  {
    if a.Evaluate? {
      assert ProcessOk(c, s, s.processes[a.p]);
    }
  }

  /** In every run, an open breaker stays open as long as its window runs, whatever checks are made. */
  lemma {:induction false} OpenWhileWindowRuns(c: Config, states: seq<State>, steps: seq<Step>, i: nat, j: nat)
    requires GoodConfig(c) && IsRun(c, states, steps) && i <= j <= |steps| && states[i].shared.Open? && WindowRuns(states, steps, i, j)
    ensures states[j].shared.Open? && states[j].shared.since == states[i].shared.since
    ensures NoTrip(steps, i, j) ==> states[j].shared == states[i].shared
    decreases j
  {
    if i < j {
      OpenWhileWindowRuns(c, states, steps, i, j - 1);
      RunInv(c, states, steps, j - 1);
      assert Enabled(c, states[j - 1], steps[j - 1]) && states[j] == Apply(c, states[j - 1], steps[j - 1]);
      hide Apply, Enabled, Inv;
      StepStaysOpen(c, states[j - 1], steps[j - 1]);
    }
  }

  /** From a trip on, no process lets a call through later than three seconds, or the recovery time if that is shorter, and
      one reply latency after it, until the open window ends. */
  lemma OpenBreakerRejects(c: Config, states: seq<State>, steps: seq<Step>, i: nat, j: nat, sentAt: real)
    requires GoodConfig(c) && IsRun(c, states, steps) && i < j < |steps|
    requires steps[i] == Trip(sentAt) && states[i].shared.Closed? && WindowRuns(states, steps, i + 1, j)
    requires states[j].now >= states[i].now + (if c.recovery < 3.0 then c.recovery else 3.0) + c.latency
    ensures !Admits(states[j], steps[j])
    ensures NoTrip(steps, i + 1, j) ==> states[j].shared == Open(states[i].now, sentAt + c.recovery)
  {
    assert Enabled(c, states[i], steps[i]) && states[i + 1] == Apply(c, states[i], steps[i]);
    OpenWhileWindowRuns(c, states, steps, i + 1, j);
    if Admits(states[j], steps[j]) {
      NoAdmissionOnceNoticed(c, states, steps, j);
    }
  }

  /** A reply that says CLOSED is trusted for three seconds, or the recovery time if that is shorter, from the moment it is seen. */
  lemma ClosedReplyIsCached(c: Config, s: State, p: Id, g: Id)
    requires GoodConfig(c) && Enabled(c, s, Reply(p, g))
    ensures var t := Apply(c, s, Reply(p, g));
            && t.processes[p].cachedUntil ==
               (if s.processes[p].checks[g].open then s.processes[p].cachedUntil else s.now + (if c.recovery < 3.0 then c.recovery else 3.0))
            && t.shared == s.shared
  {
  }

  /** The call is let through a cache TTL or more after the breaker opened, with the open window still running. */
  predicate AdmitsTooLate(c: Config, s: State, a: Step) {
    s.shared.Open? && s.shared.since + ClosedTtl(c) <= s.now < s.shared.until && Admits(s, a)
  }

  /** The comment's promise: trips lag by at most the cache TTL. */
  ghost predicate LagsByTtlOnly(c: Config) {
    forall states: seq<State>, steps: seq<Step>, i ::
      IsRun(c, states, steps) && 0 <= i < |steps| && |states| == |steps| + 1 ==> !AdmitsTooLate(c, states[i], steps[i])
  }

  lemma Extended(c: Config, states: seq<State>, steps: seq<Step>, a: Step) returns (states': seq<State>, steps': seq<Step>)
    requires IsRun(c, states, steps) && Enabled(c, states[|steps|], a)
    ensures IsRun(c, states', steps') && |states'| == |steps'| + 1 && steps' == steps + [a] && states <= states'
    ensures states'[|steps'|] == Apply(c, states[|steps|], a) && states'[|steps|] == states[|steps|]
  {
    hide Enabled, Apply, Init;
    states', steps' := states + [Apply(c, states[|steps|], a)], steps + [a];
    forall i | 0 <= i < |steps'|
      ensures Enabled(c, states'[i], steps'[i]) && states'[i + 1] == Apply(c, states'[i], steps'[i])
    {
      if i < |steps| {
        assert states'[i] == states[i] && states'[i + 1] == states[i + 1] && steps'[i] == steps[i];
      }
    }
  }

  /** A CLOSED answer is read, then the breaker opens at time 0, and the answer has not been seen yet. */
  lemma TripBehindTheRead(c: Config) returns (states: seq<State>, steps: seq<Step>)
    requires GoodConfig(c)
    ensures IsRun(c, states, steps) && |states| == |steps| + 1
    ensures states[|steps|] == State(0.0, Open(0.0, c.recovery), map[0 := Process(0.0, map[0 := Answered(false, 0.0)])])
  {
    states, steps := [State(0.0, Closed, map[0 := Process(0.0, map[])])], [];
    assert IsRun(c, states, steps);
    hide IsRun;
    states, steps := Extended(c, states, steps, Ask(0, 0));
    states, steps := Extended(c, states, steps, Evaluate(0, 0));
    states, steps := Extended(c, states, steps, Trip(0.0));
    var processes := states[|steps|].processes;
    assert processes[0].checks == map[0 := Answered(false, 0.0)];
    assert processes == map[0 := Process(0.0, map[0 := Answered(false, 0.0)])];
  }

  /** A CLOSED read just before the trip is cached from the moment its reply arrives, not from the read. */
  lemma LateReplyExtendsTheLag(c: Config) returns (states: seq<State>, steps: seq<Step>)
    requires GoodConfig(c) && c.latency > 0.0
    ensures IsRun(c, states, steps) && |states| == |steps| + 1 && steps != []
    ensures AdmitsTooLate(c, states[|steps| - 1], steps[|steps| - 1])
  {
    hide IsRun;
    var ttl := ClosedTtl(c);
    var l := if c.latency < ttl then c.latency / 2.0 else ttl / 2.0;
    states, steps := TripBehindTheRead(c);
    states, steps := Extended(c, states, steps, Tick(l));
    states, steps := Extended(c, states, steps, Reply(0, 0));
    states, steps := Extended(c, states, steps, Trip(l));
    states, steps := Extended(c, states, steps, Tick(ttl - l));
    states, steps := Extended(c, states, steps, AdmitCached(0));
  }

  /** The promise holds exactly when replies are instantaneous. */
  lemma LagsByTtlOnlyIff(c: Config)
    requires GoodConfig(c)
    ensures LagsByTtlOnly(c) <==> c.latency == 0.0
  {
    hide IsRun, Admits;
    if c.latency == 0.0 {
      forall states: seq<State>, steps: seq<Step>, i | IsRun(c, states, steps) && 0 <= i < |steps| && |states| == |steps| + 1
        ensures !AdmitsTooLate(c, states[i], steps[i])
      {
        if states[i].shared.Open? && Admits(states[i], steps[i]) {
          NoAdmissionOnceNoticed(c, states, steps, i);
        }
      }
    } else {
      var states, steps := LateReplyExtendsTheLag(c);
      assert AdmitsTooLate(c, states[|steps| - 1], steps[|steps| - 1]);
    }
  }

  // ---- a recorded failure forces a re-read --------------------------------------------------------------------

  /** A CLOSED answer of the script is on its way to the process. */
  predicate AnswerInFlight(q: Process) { exists g :: g in q.checks && q.checks[g].Answered? && !q.checks[g].open }

  predicate Rereads(steps: seq<Step>, p: Id, i: nat, j: nat) {
    exists k :: i < k < j && k < |steps| && steps[k].Evaluate? && steps[k].p == p
  }

  lemma {:induction false} UncachedUntilReread(c: Config, states: seq<State>, steps: seq<Step>, p: Id, i: nat, j: nat)
    requires GoodConfig(c) && IsRun(c, states, steps) && i < j <= |steps| && steps[i] == DropCache(p)
    requires !AnswerInFlight(states[i].processes[p]) && !Rereads(steps, p, i, j)
    ensures p in states[j].processes && !AnswerInFlight(states[j].processes[p]) && states[j].processes[p].cachedUntil == 0.0
    decreases j
  {
    if j == i + 1 {
      assert states[j].processes[p].checks == states[i].processes[p].checks;
    } else {
      assert !Rereads(steps, p, i, j - 1);
      UncachedUntilReread(c, states, steps, p, i, j - 1);
      assert !(steps[j - 1].Evaluate? && steps[j - 1].p == p);
    }
  }

  /** After a failure with no CLOSED answer in flight, the process admits from its cache only after re-reading. */
  lemma FailureForcesReread(c: Config, states: seq<State>, steps: seq<Step>, p: Id, i: nat, j: nat)
    requires GoodConfig(c) && IsRun(c, states, steps) && i < j < |steps|
    requires steps[i] == DropCache(p) && !AnswerInFlight(states[i].processes[p])
    requires steps[j] == AdmitCached(p)
    ensures Rereads(steps, p, i, j)
  {
    if !Rereads(steps, p, i, j) {
      UncachedUntilReread(c, states, steps, p, i, j);
      RunInv(c, states, steps, j);
    }
  }

  /** With a CLOSED answer in flight, it is cached after the failure and admits without a re-read. */
  lemma AnswerInFlightDefeatsTheDrop(c: Config, s: State, p: Id, g: Id)
    requires GoodConfig(c) && p in s.processes && g in s.processes[p].checks
    requires s.processes[p].checks[g].Answered? && !s.processes[p].checks[g].open
    ensures Enabled(c, s, DropCache(p))
    ensures var s1 := Apply(c, s, DropCache(p));
            && Enabled(c, s1, Reply(p, g))
            && Enabled(c, Apply(c, s1, Reply(p, g)), AdmitCached(p))
  {
  }

  /** The run goes on to `steps'`: the cache is dropped, and at step `j` a call is let through from it with no re-read between. */
  predicate Defeats(c: Config, states: seq<State>, steps: seq<Step>, p: Id, states': seq<State>, steps': seq<Step>, j: nat) {
    && IsRun(c, states', steps') && states <= states' && steps + [DropCache(p)] <= steps'
    && |steps| < j < |steps'| && steps'[j] == AdmitCached(p) && !Rereads(steps', p, |steps|, j)
  }

  /** At any point of any run: dropping the cache can be defeated exactly when a CLOSED answer is in flight. */
  lemma DropDefeatedIffAnswerInFlight(c: Config, states: seq<State>, steps: seq<Step>, p: Id)
    requires GoodConfig(c) && IsRun(c, states, steps) && p in states[|steps|].processes
    ensures (exists states': seq<State>, steps': seq<Step>, j: nat :: Defeats(c, states, steps, p, states', steps', j)) <==> AnswerInFlight(states[|steps|].processes[p])
  {
    hide Apply, Enabled, Rereads;
    forall states': seq<State>, steps': seq<Step>, j: nat | Defeats(c, states, steps, p, states', steps', j)
      ensures AnswerInFlight(states[|steps|].processes[p])
    {
      assert steps'[|steps|] == DropCache(p) && states'[|steps|] == states[|steps|];
      if !AnswerInFlight(states'[|steps|].processes[p]) {
        FailureForcesReread(c, states', steps', p, |steps|, j);
        assert false;
      }
    }
    if AnswerInFlight(states[|steps|].processes[p]) {
      var states', steps' := DefeatingRun(c, states, steps, p);
      assert Defeats(c, states, steps, p, states', steps', |steps| + 2);
    }
  }

  lemma DefeatingRun(c: Config, states: seq<State>, steps: seq<Step>, p: Id) returns (states': seq<State>, steps': seq<Step>)
    requires GoodConfig(c) && IsRun(c, states, steps) && p in states[|steps|].processes && AnswerInFlight(states[|steps|].processes[p])
    ensures Defeats(c, states, steps, p, states', steps', |steps| + 2)
  {
    assert |states| == |steps| + 1;
    hide IsRun, Apply, Enabled;
    var q := states[|steps|].processes[p];
    var g :| g in q.checks && q.checks[g].Answered? && !q.checks[g].open;
    AnswerInFlightDefeatsTheDrop(c, states[|steps|], p, g);
    states', steps' := Extended(c, states, steps, DropCache(p));
    states', steps' := Extended(c, states', steps', Reply(p, g));
    states', steps' := Extended(c, states', steps', AdmitCached(p));
  }
}
