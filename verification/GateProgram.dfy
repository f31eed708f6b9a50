/**
  core/alert_concurrency.py: the control flow of one `alert_processing_gate` call, with its
  polling loop, its refresh task and its `finally`, driven by the answers Redis gives it.
  Every call stays on the steps of the protocol in `LeaseGate`.
 */
module GateProgram {
  import opened Wrappers
  import opened LeaseGate

  datatype ReserveReply = Granted | Refused | ReserveBroken(applied: bool)

  /** One round of the polling loop: the answer, and whether the deadline has passed by then. */
  datatype Try = Try(reply: TryReply, late: bool)
  datatype TryReply = Taken | Busy | TryBroken(applied: bool)

  datatype Renewal = Renewed | NotOwner | RenewalBroken(applied: bool)

  /** A step this call made, and whether it was granted what it asked for. */
  datatype Seen = Seen(step: Step, granted: bool)

  /** What the call knows of itself. */
  datatype Local = Local(phase: Phase, slot: bool, locked: bool, refreshing: bool)

  const OUTSIDE := Local(Idle, false, false, false)

  function LocalOf(g: Gate): Local { Local(g.phase, g.slot, g.lease.Some?, g.lease.Some? && g.lease.value.refreshing) }

  /** The protocol as one call sees it. */
  function LocalStep(c: Config, l: Local, o: Seen): Option<Local> {
    match o.step
    case Reserve(_) =>
      if l.phase != Idle || (!o.granted && c.threshold == 0) then None
      else if o.granted then Some(l.(phase := Waiting, slot := c.threshold > 0)) else Some(l.(phase := Done))
    case ReserveFails(_, _) => if l.phase == Idle && c.threshold > 0 then Some(l.(phase := Done)) else None
    case Acquire(_) => if l.phase == Waiting && c.distributed then Some(l.(phase := Running, locked := true, refreshing := true)) else None
    case AcquireFails(_, _) => if l.phase == Waiting && c.distributed then Some(l.(phase := Suppressed)) else None
    case NoLock(_) => if l.phase == Waiting && !c.distributed then Some(l.(phase := Running)) else None
    case TimeOut(_) => if l.phase == Waiting && c.distributed then Some(l.(phase := Suppressed)) else None
    case Refresh(_) => if l.phase == Running && l.refreshing then Some(l.(refreshing := o.granted)) else None
    case RefreshFails(_, _) => if l.phase == Running && l.refreshing then Some(l.(refreshing := false)) else None
    case Finish(_) =>
      if l.phase == Running || l.phase == Suppressed then Some(l.(phase := if l.locked then Leaving else LeavingSlot)) else None
    case ReleaseLock(_, _) => if l.phase == Leaving then Some(l.(phase := LeavingSlot)) else None
    case ReleaseSlot(_, _) => if l.phase == LeavingSlot then Some(l.(phase := Done, slot := false)) else None
    case _ => None
  }

  /** Whether the shared state grants the step. */
  predicate Grants(c: Config, s: State, a: Step) {
    match a
    case Reserve(_) => c.threshold == 0 || s.counter < c.threshold
    case Refresh(w) => w in s.gates && Owns(s, s.gates[w].token)
    case _ => true
  }

  /** What a step of the call waits for outside itself: the free key, the end of the refresh interval. */
  predicate Timely(c: Config, s: State, a: Step) {
    match a
    case Acquire(_) => !Live(s)
    case Refresh(w) => IntervalOver(c, s, w)
    case RefreshFails(w, _) => IntervalOver(c, s, w)
    case _ => true
  }

  predicate IntervalOver(c: Config, s: State, w: Id) {
    w in s.gates && s.gates[w].lease.Some? && s.now >= s.gates[w].lease.value.since + Interval(c)
  }

  /** Each protocol step of a worker is, with its outcome, a step of its call. */
  lemma ProtocolStepIsLocal(c: Config, s: State, a: Step)
    requires Enabled(c, s, a) && !a.Tick? && !a.Crash?
    ensures LocalStep(c, LocalOf(s.gates[a.w]), Seen(a, Grants(c, s, a))) == Some(LocalOf(Apply(c, s, a).gates[a.w]))
  {
  }

  /** And each step the call can make is one the protocol allows. */
  lemma LocalStepIsProtocol(c: Config, s: State, a: Step)
    requires !a.Tick? && a.w in s.gates && Timely(c, s, a)
    requires LocalStep(c, LocalOf(s.gates[a.w]), Seen(a, Grants(c, s, a))).Some?
    ensures Enabled(c, s, a)
  {
  }

  function Walk(c: Config, l: Local, trace: seq<Seen>): Option<Local>
    decreases |trace|
  {
    if trace == [] then Some(l) else
    var before :- Walk(c, l, trace[..|trace| - 1]);
    LocalStep(c, before, trace[|trace| - 1])
  }

  lemma WalkOne(c: Config, trace: seq<Seen>, o: Seen)
    ensures Walk(c, OUTSIDE, trace + [o]) == var l :- Walk(c, OUTSIDE, trace); LocalStep(c, l, o)
  {
    assert (trace + [o])[..|trace + [o]| - 1] == trace;
  }

  // ---- a call among the others ---------------------------------------------------------------------------

  predicate Mine(a: Step, w: Id) { !a.Tick? && a.w == w }

  /** What the call of `w` has seen after `n` steps: its own steps, answered by the state they met. */
  function Observed(c: Config, states: seq<State>, steps: seq<Step>, w: Id, n: nat): seq<Seen>
    requires n <= |steps| <= |states|
  {
    if n == 0 then [] else
    Observed(c, states, steps, w, n - 1) + if Mine(steps[n - 1], w) then [Seen(steps[n - 1], Grants(c, states[n - 1], steps[n - 1]))] else []
  }

  function Next(c: Config, s: State, a: Step): State { if Enabled(c, s, a) then Apply(c, s, a) else s }

  /** The others and the clock keep to the protocol; of the steps of `w` only their timing is known. */
  predicate Driven(c: Config, states: seq<State>, steps: seq<Step>, w: Id) {
    && |states| == |steps| + 1 && Init(states[0]) && w in states[0].gates
    && forall i :: 0 <= i < |steps| ==>
         && states[i + 1] == Next(c, states[i], steps[i])
         && if Mine(steps[i], w) then Timely(c, states[i], steps[i]) else Enabled(c, states[i], steps[i])
  }

  lemma StepKeepsGates(c: Config, s: State, a: Step, w: Id)
    requires Enabled(c, s, a) && w in s.gates
    ensures w in Apply(c, s, a).gates && (!Mine(a, w) ==> Apply(c, s, a).gates[w] == s.gates[w])
  {
  }

  lemma {:induction false} PrefixFollowsProtocol(c: Config, states: seq<State>, steps: seq<Step>, w: Id, n: nat)
    requires Driven(c, states, steps, w) && n <= |steps| && Walk(c, OUTSIDE, Observed(c, states, steps, w, n)).Some?
    ensures w in states[n].gates && Walk(c, OUTSIDE, Observed(c, states, steps, w, n)) == Some(LocalOf(states[n].gates[w]))
    ensures forall i :: 0 <= i < n ==> Enabled(c, states[i], steps[i])
  {
    hide Enabled, Apply, Grants, Timely, LocalStep, Walk, Init;
    if n == 0 {
      FirstView(c, states[0], w);
    } else {
      var s, a := states[n - 1], steps[n - 1];
      var before := Observed(c, states, steps, w, n - 1);
      if Mine(a, w) {
        WalkOne(c, before, Seen(a, Grants(c, s, a)));
        PrefixFollowsProtocol(c, states, steps, w, n - 1);
        LocalStepIsProtocol(c, s, a);
        NoCrash(c, LocalOf(s.gates[w]), Seen(a, Grants(c, s, a)));
        ProtocolStepIsLocal(c, s, a);
      } else {
        assert Observed(c, states, steps, w, n) == before;
        PrefixFollowsProtocol(c, states, steps, w, n - 1);
      }
      StepKeepsGates(c, s, a, w);
    }
  }

  lemma FirstView(c: Config, s: State, w: Id)
    requires Init(s) && w in s.gates
    ensures Walk(c, OUTSIDE, []) == Some(LocalOf(s.gates[w]))
  {
  }

  lemma NoCrash(c: Config, l: Local, o: Seen)
    requires LocalStep(c, l, o).Some?
    ensures !o.step.Crash?
  {
  }

  /** A call that walks `LocalStep`, answered by the shared state among any other workers, is part of a run of the protocol,
      and what it knows of itself is its gate in that run. */
  lemma CallFollowsProtocol(c: Config, states: seq<State>, steps: seq<Step>, w: Id)
    requires Driven(c, states, steps, w) && Walk(c, OUTSIDE, Observed(c, states, steps, w, |steps|)).Some?
    ensures IsRun(c, states, steps)
    ensures w in states[|steps|].gates && Walk(c, OUTSIDE, Observed(c, states, steps, w, |steps|)) == Some(LocalOf(states[|steps|].gates[w]))
  {
    hide Enabled, Apply, Walk, Timely;
    PrefixFollowsProtocol(c, states, steps, w, |steps|);
  }

  predicate TakesSlot(a: Step) { a.Reserve? }
  predicate GivesSlot(a: Step) { a.ReleaseSlot? }
  predicate TakesLock(a: Step) { a.Acquire? }
  predicate GivesLock(a: Step) { a.ReleaseLock? }

  /** How often a trace makes granted steps of a kind. */
  function Count(trace: seq<Seen>, kind: Step -> bool): nat
    decreases |trace|
  {
    if trace == [] then 0
    else Count(trace[..|trace| - 1], kind) + if trace[|trace| - 1].granted && kind(trace[|trace| - 1].step) then 1 else 0
  }

  /** Only a reservation and a renewal can be refused. */
  predicate Plausible(trace: seq<Seen>) {
    forall i :: 0 <= i < |trace| && !trace[i].step.Reserve? && !trace[i].step.Refresh? ==> trace[i].granted
  }

  predicate AllMine(trace: seq<Seen>, w: Id) { forall i :: 0 <= i < |trace| ==> Mine(trace[i].step, w) }

  /** The slot and the lock the call holds are those it took and has not given back. */
  predicate Balanced(c: Config, l: Local, slotsTaken: int, slotsGiven: int, locksTaken: int, locksGiven: int) {
    && (c.threshold > 0 ==> slotsTaken == slotsGiven + (if l.slot then 1 else 0) <= 1)
    && locksTaken == (if l.locked then 1 else 0)
    && locksGiven == (if l.locked && (l.phase == LeavingSlot || l.phase == Done) then 1 else 0)
    && (l.slot <==> c.threshold > 0 && l.phase != Idle && l.phase != Done)
    && (l.locked ==> l.phase == Running || l.phase == Leaving || l.phase == LeavingSlot || l.phase == Done)
    && (l.phase == Idle ==> slotsTaken == 0)
    && (l.phase == Leaving ==> l.locked)
  }

  function One(b: bool): int { if b then 1 else 0 }

  lemma StepBalances(c: Config, l: Local, o: Seen, slotsTaken: int, slotsGiven: int, locksTaken: int, locksGiven: int)
    requires Balanced(c, l, slotsTaken, slotsGiven, locksTaken, locksGiven) && LocalStep(c, l, o).Some?
    requires o.granted || o.step.Reserve? || o.step.Refresh?
    ensures Balanced(c, LocalStep(c, l, o).value,
                     slotsTaken + One(o.granted && TakesSlot(o.step)), slotsGiven + One(o.granted && GivesSlot(o.step)),
                     locksTaken + One(o.granted && TakesLock(o.step)), locksGiven + One(o.granted && GivesLock(o.step)))
  {
  }

  /** At every point of every call what it took and gave balances; so a call that is done gave everything back, once. */
  lemma {:induction false} WalkBalances(c: Config, trace: seq<Seen>)
    requires Walk(c, OUTSIDE, trace).Some? && Plausible(trace)
    ensures Balanced(c, Walk(c, OUTSIDE, trace).value,
                     Count(trace, TakesSlot), Count(trace, GivesSlot), Count(trace, TakesLock), Count(trace, GivesLock))
    decreases |trace|
  {
    hide Balanced, LocalStep;
    if trace == [] {
      NothingBalances(c);
    } else {
      var before := trace[..|trace| - 1];
      WalkBalances(c, before);
      StepBalances(c, Walk(c, OUTSIDE, before).value, trace[|trace| - 1],
                   Count(before, TakesSlot), Count(before, GivesSlot), Count(before, TakesLock), Count(before, GivesLock));
    }
  }

  lemma NothingBalances(c: Config)
    ensures Balanced(c, OUTSIDE, 0, 0, 0, 0)
  {
  }

  /** `_acquire_distributed_lock`: it stops at the first answer other than busy, or at the deadline. */
  method AcquireLock(c: Config, w: Id, tries: seq<Try>) returns (step: Option<Step>)
    ensures !c.distributed ==> step == Some(NoLock(w))
    ensures c.distributed && step.Some? ==> step.value == Acquire(w) || step.value == TimeOut(w) || step.value.AcquireFails?
    ensures c.distributed ==> (step.None? <==> forall i :: 0 <= i < |tries| ==> tries[i] == Try(Busy, false))
    ensures c.distributed && step == Some(Acquire(w)) ==> exists n: nat :: Polls(tries, n) && tries[n].reply == Taken
    ensures c.distributed && step.Some? && step.value.AcquireFails? ==>
              step.value.w == w && exists n: nat :: Polls(tries, n) && tries[n].reply == TryBroken(step.value.applied)
    ensures c.distributed && step == Some(TimeOut(w)) ==> exists n: nat :: Polls(tries, n) && tries[n] == Try(Busy, true)
  {
    if !c.distributed {
      return Some(NoLock(w));
    }
    for i := 0 to |tries|
      invariant forall j :: 0 <= j < i ==> tries[j] == Try(Busy, false)
    {
      assert Polls(tries, i);
      match tries[i].reply
      case Taken => return Some(Acquire(w));
      case TryBroken(applied) => return Some(AcquireFails(w, applied));
      case Busy =>
        if tries[i].late {
          return Some(TimeOut(w));
        }
    }
    return None;
  }

  /** The loop reaches round `n`. */
  predicate Polls(tries: seq<Try>, n: nat) { n < |tries| && forall j :: 0 <= j < n ==> tries[j] == Try(Busy, false) }

  /** `_refresh_distributed_lock` while the body runs: it renews until the first renewal that fails, and that one sets `lock_lost`. */
  method RefreshLock(c: Config, w: Id, renewals: seq<Renewal>, trace: seq<Seen>) returns (after: seq<Seen>, lockLost: bool)
    requires Walk(c, OUTSIDE, trace).Some? && Plausible(trace) && AllMine(trace, w)
    requires var l := Walk(c, OUTSIDE, trace).value; l.phase == Running && l.locked && l.refreshing
    ensures trace <= after && Plausible(after) && AllMine(after, w)
    ensures Walk(c, OUTSIDE, after) == Some(Walk(c, OUTSIDE, trace).value.(refreshing := !lockLost))
    ensures lockLost <==> exists i :: 0 <= i < |renewals| && renewals[i] != Renewed
  {
    hide Walk;
    after := trace;
    for i := 0 to |renewals|
      invariant trace <= after && Plausible(after) && AllMine(after, w) && Walk(c, OUTSIDE, after) == Walk(c, OUTSIDE, trace)
      invariant forall j :: 0 <= j < i ==> renewals[j] == Renewed
    {
      var seen := if renewals[i].RenewalBroken? then Seen(RefreshFails(w, renewals[i].applied), true)
                  else Seen(Refresh(w), renewals[i] == Renewed);
      WalkOne(c, after, seen);
      after := after + [seen];
      if renewals[i] != Renewed {
        return after, true;
      }
    }
    return after, false;
  }

  /** `alert_processing_gate`: on every path that comes to an end the call has followed the protocol to its last phase, so by
      `WalkBalances` it gave back what it took, once, and by `CallFollowsProtocol` it was part of a run; otherwise it is still polling. */
  method ProcessingGate(c: Config, w: Id, reserve: ReserveReply, tries: seq<Try>, renewals: seq<Renewal>, lockReply: bool, slotReply: bool)
    returns (trace: seq<Seen>, suppressed: bool, lockLost: bool)
    ensures Plausible(trace) && AllMine(trace, w) && Walk(c, OUTSIDE, trace).Some?
    ensures var l := Walk(c, OUTSIDE, trace).value;
            && (l.phase == Done || (l.phase == Waiting && c.distributed && forall i :: 0 <= i < |tries| ==> tries[i] == Try(Busy, false)))
            && (l.phase == Done && !suppressed ==> (l.locked <==> c.distributed))
            && (suppressed ==> !l.locked)
            && (l.phase == Done ==> (suppressed <==> (c.threshold > 0 && reserve != Granted) || (c.distributed && !l.locked)))
            && (lockLost <==> l.locked && exists i :: 0 <= i < |renewals| && renewals[i] != Renewed)
  {
    hide Walk;
    assert Walk(c, OUTSIDE, []) == Some(OUTSIDE) by { NoSteps(c); }
    trace, suppressed, lockLost := [], false, false;
    var reserved := if c.threshold == 0 || reserve == Granted then Seen(Reserve(w), true)
                    else if reserve == Refused then Seen(Reserve(w), false)
                    else Seen(ReserveFails(w, reserve.applied), true);
    trace := Append(c, w, trace, reserved);
    if c.threshold > 0 && reserve != Granted {
      return trace, true, false;
    }
    var lock := AcquireLock(c, w, tries);
    if lock.None? {
      return;
    }
    trace := Append(c, w, trace, Seen(lock.value, true));
    suppressed := lock.value.TimeOut? || lock.value.AcquireFails?;
    if lock.value.Acquire? {
      trace, lockLost := RefreshLock(c, w, renewals, trace);
    }
    trace := Leave(c, w, trace, lock.value.Acquire?, lockReply, slotReply);
  }

  /** The `finally` block; the last step is a command only if a slot is held. */
  method Leave(c: Config, w: Id, trace: seq<Seen>, locked: bool, lockReply: bool, slotReply: bool) returns (after: seq<Seen>)
    requires AllMine(trace, w) && Plausible(trace) && Walk(c, OUTSIDE, trace).Some?
    requires var l := Walk(c, OUTSIDE, trace).value; l.locked == locked && (l.phase == Running || l.phase == Suppressed)
    ensures Plausible(after) && AllMine(after, w)
    ensures Walk(c, OUTSIDE, after) == Some(Walk(c, OUTSIDE, trace).value.(phase := Done, slot := false))
  {
    hide Walk, Plausible, AllMine;
    after := Append(c, w, trace, Seen(Finish(w), true));
    if locked {
      after := Append(c, w, after, Seen(ReleaseLock(w, lockReply), true));
    }
    after := Append(c, w, after, Seen(ReleaseSlot(w, slotReply), true));
  }

  lemma NoSteps(c: Config)
    ensures Walk(c, OUTSIDE, []) == Some(OUTSIDE)
  {
  }

  method Append(c: Config, w: Id, trace: seq<Seen>, o: Seen) returns (after: seq<Seen>)
    requires AllMine(trace, w) && Mine(o.step, w)
    requires Plausible(trace) && Walk(c, OUTSIDE, trace).Some? && LocalStep(c, Walk(c, OUTSIDE, trace).value, o).Some?
    requires o.granted || o.step.Reserve? || o.step.Refresh?
    ensures after == trace + [o] && Plausible(after) && AllMine(after, w)
    ensures Walk(c, OUTSIDE, after) == LocalStep(c, Walk(c, OUTSIDE, trace).value, o)
  {
    WalkOne(c, trace, o);
    return trace + [o];
  }
}
