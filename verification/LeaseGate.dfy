/**
  core/alert_concurrency.py and its four Redis scripts: the per-alert gate, for one dedup
  key, any number of workers, and a clock.  Every Redis command is one atomic step; a
  command that raises may or may not have taken effect.
 */
module LeaseGate {
  import opened Wrappers

  type Id = nat

  /** `ttl` and `window`, the lifetime of the counter key, in seconds; `late` bounds how late a due refresh can run. */
  datatype Config = Config(ttl: nat, threshold: nat, window: nat, distributed: bool, late: real)

  predicate GoodConfig(c: Config) { c.ttl >= 1 && c.window >= 1 && c.late >= 0.0 }

  /** `max(1.0, ttl / 3.0)` */
  function Interval(c: Config): real { if c.ttl as real / 3.0 < 1.0 then 1.0 else c.ttl as real / 3.0 }

  datatype Entry = Entry(token: nat, expires: real)

  /** What a worker's lock history amounts to: it was set at `acquired`, last renewed at `since`,
      and protects the worker until `end`.  `lost` is the event, `refreshing` the live task. */
  datatype Lease = Lease(acquired: real, since: real, end: real, lost: bool, refreshing: bool)

  datatype Phase = Idle | Waiting | Running | Suppressed | Leaving | LeavingSlot | Done | Crashed

  datatype Gate = Gate(phase: Phase, slot: bool, token: nat, lease: Option<Lease>,
                       reserved: nat, released: nat, lockReleases: nat)

  const FRESH := Gate(Idle, false, 0, None, 0, 0, 0)

  /** `counterUntil` is when the counter key times out, `leaked` counts increments whose owner will never
      release them, `expired` notes that the key has timed out with a count in it. */
  datatype State = State(now: real, entry: Option<Entry>, counter: nat, counterUntil: real, leaked: nat, expired: bool,
                         nextToken: nat, gates: map<Id, Gate>)

  datatype Step =
    | Tick(d: real)
    | Reserve(w: Id)
    | ReserveFails(w: Id, applied: bool)
    | Acquire(w: Id)
    | AcquireFails(w: Id, applied: bool)
    | NoLock(w: Id)
    | TimeOut(w: Id)
    | Refresh(w: Id)
    | RefreshFails(w: Id, applied: bool)
    | Finish(w: Id)
    | ReleaseLock(w: Id, applied: bool)
    | ReleaseSlot(w: Id, applied: bool)
    | Crash(w: Id)

  predicate Live(s: State) { s.entry.Some? && s.now < s.entry.value.expires }

  predicate Owns(s: State, token: nat) { Live(s) && s.entry.value.token == token }

  predicate Refreshing(g: Gate) { g.phase == Running && g.lease.Some? && g.lease.value.refreshing }

  predicate Enabled(c: Config, s: State, a: Step) {
    match a
    case Tick(d) =>
      d >= 0.0 && forall w :: w in s.gates && Refreshing(s.gates[w]) ==>
                    s.now + d <= s.gates[w].lease.value.since + Interval(c) + c.late
    case _ => a.w in s.gates && GateEnabled(c, s, s.gates[a.w], a)
  }

  predicate GateEnabled(c: Config, s: State, g: Gate, a: Step) {
    match a
    case Tick(_) => false
    case Reserve(_) => g.phase == Idle
    case ReserveFails(_, _) => g.phase == Idle && c.threshold > 0
    case Acquire(_) => g.phase == Waiting && c.distributed && !Live(s)
    case AcquireFails(_, _) => g.phase == Waiting && c.distributed
    case NoLock(_) => g.phase == Waiting && !c.distributed
    case TimeOut(_) => g.phase == Waiting && c.distributed
    case Refresh(_) => Refreshing(g) && s.now >= g.lease.value.since + Interval(c)
    case RefreshFails(_, _) => Refreshing(g) && s.now >= g.lease.value.since + Interval(c)
    case Finish(_) => g.phase == Running || g.phase == Suppressed
    case ReleaseLock(_, _) => g.phase == Leaving
    case ReleaseSlot(_, _) => g.phase == LeavingSlot
    case Crash(_) => g.phase != Idle && g.phase != Done && g.phase != Crashed
  }

  function Earlier(a: real, b: real): real { if a < b then a else b }

  function Set(s: State, w: Id, g: Gate): State { s.(gates := s.gates[w := g]) }

  /** alert_reserve_queue_slot.lua, then a fresh token for the lock. */
  function DoReserve(c: Config, s: State, w: Id): State
    requires w in s.gates
  {
    var g := s.gates[w];
    if c.threshold > 0 && s.counter >= c.threshold then Set(s, w, g.(phase := Done))
    else
      var slot := c.threshold > 0;
      Set(s, w, g.(phase := Waiting, slot := slot, token := s.nextToken, reserved := if slot then 1 else 0))
      .(nextToken := s.nextToken + 1, counter := if slot then s.counter + 1 else s.counter,
        counterUntil := if slot then s.now + c.window as real else s.counterUntil)
  }

  /** alert_release_queue_slot.lua; at one or less the key is deleted, otherwise it lives a window longer. */
  function DoRelease(c: Config, s: State): State {
    if s.counter <= 1 then s.(counter := 0) else s.(counter := s.counter - 1, counterUntil := s.now + c.window as real)
  }

  /** Time passes, and with it the counter key. */
  function Elapse(s: State, d: real): State {
    var t := s.(now := s.now + d);
    if s.counter > 0 && t.now >= s.counterUntil then t.(counter := 0, expired := true) else t
  }

  function Apply(c: Config, s: State, a: Step): State
    requires Enabled(c, s, a)
  {
    match a
    case Tick(d) => Elapse(s, d)
    case Reserve(w) => DoReserve(c, s, w)
    case ReserveFails(w, applied) =>
      var t := Set(s, w, s.gates[w].(phase := Done));
      if applied && s.counter < c.threshold then
        t.(counter := s.counter + 1, counterUntil := s.now + c.window as real, leaked := s.leaked + 1)
      else t
    case Acquire(w) =>
      var end := s.now + c.ttl as real;
      Set(s, w, s.gates[w].(phase := Running, lease := Some(Lease(s.now, s.now, end, false, true))))
      .(entry := Some(Entry(s.gates[w].token, end)))
    case AcquireFails(w, applied) =>
      var t := Set(s, w, s.gates[w].(phase := Suppressed));
      if applied && !Live(s) then t.(entry := Some(Entry(s.gates[w].token, s.now + c.ttl as real))) else t
    case NoLock(w) => Set(s, w, s.gates[w].(phase := Running))
    case TimeOut(w) => Set(s, w, s.gates[w].(phase := Suppressed))
    case Refresh(w) =>
      var g := s.gates[w];
      var end := s.now + c.ttl as real;
      if Owns(s, g.token) then
        Set(s, w, g.(lease := Some(g.lease.value.(since := s.now, end := end)))).(entry := Some(Entry(g.token, end)))
      else Set(s, w, g.(lease := Some(g.lease.value.(lost := true, refreshing := false))))
    case RefreshFails(w, applied) =>
      var g := s.gates[w];
      var t := Set(s, w, g.(lease := Some(g.lease.value.(lost := true, refreshing := false))));
      if applied && Owns(s, g.token) then t.(entry := Some(Entry(g.token, s.now + c.ttl as real))) else t
    case Finish(w) =>
      Set(s, w, s.gates[w].(phase := if s.gates[w].lease.Some? then Leaving else LeavingSlot))
    case ReleaseLock(w, applied) =>
      var g := s.gates[w];
      var freed := applied && Owns(s, g.token);
      var l := if freed && g.lease.Some? then Some(g.lease.value.(end := Earlier(s.now, g.lease.value.end))) else g.lease;
      Set(s, w, g.(phase := LeavingSlot, lease := l, lockReleases := g.lockReleases + 1))
      .(entry := if freed then None else s.entry)
    case ReleaseSlot(w, applied) =>
      var g := s.gates[w];
      if !g.slot then Set(s, w, g.(phase := Done))
      else
        var t := Set(s, w, g.(phase := Done, slot := false, released := g.released + 1));
        if applied then DoRelease(c, t) else t.(leaked := s.leaked + 1)
    case Crash(w) =>
      var g := s.gates[w];
      Set(s, w, g.(phase := Crashed, slot := false)).(leaked := if g.slot then s.leaked + 1 else s.leaked)
  }

  predicate Init(s: State) {
    && s.entry.None? && s.counter == 0 && s.leaked == 0 && !s.expired
    && forall w :: w in s.gates ==> s.gates[w] == FRESH
  }

  predicate IsRun(c: Config, states: seq<State>, steps: seq<Step>) {
    && |states| == |steps| + 1 && Init(states[0])
    && forall i :: 0 <= i < |steps| ==> Enabled(c, states[i], steps[i]) && states[i + 1] == Apply(c, states[i], steps[i])
  }

  // ---- the lock ---------------------------------------------------------------------------------

  /** A gate whose token is the one it acquires or acquired with. */
  predicate Drawn(g: Gate) { g.phase == Waiting || g.lease.Some? }

  predicate LeaseOk(c: Config, s: State, g: Gate) {
    && (g.phase == Idle || g.phase == Waiting ==> g.lease.None?)
    && (g.phase == Leaving ==> g.lease.Some?)
    && (Drawn(g) ==> g.token < s.nextToken)
    && (g.lease.Some? ==>
          var l := g.lease.value;
          && l.acquired <= l.since <= s.now && l.acquired <= l.end <= l.since + c.ttl as real
          && (s.now < l.end ==> s.entry.Some? && s.entry.value.token == g.token && l.end <= s.entry.value.expires)
          && (g.phase == Running ==> l.end == l.since + c.ttl as real && (l.lost <==> !l.refreshing))
          && (Refreshing(g) ==> s.now <= l.since + Interval(c) + c.late))
  }

  /** The spans two workers are protected for do not overlap. */
  predicate Disjoint(a: Lease, b: Lease) { a.acquired >= b.end || b.acquired >= a.end }

  /** `v` and `w` have different tokens and disjoint leases, and if the key carries `w`'s token then `w` came last. */
  predicate Apart(s: State, v: Gate, w: Gate) {
    && (Drawn(v) && Drawn(w) ==> v.token != w.token)
    && (v.lease.Some? && w.lease.Some? ==>
          && Disjoint(v.lease.value, w.lease.value)
          && (s.entry.Some? && s.entry.value.token == w.token ==> w.lease.value.acquired >= v.lease.value.end))
  }

  predicate LockInv(c: Config, s: State) {
    && (forall w :: w in s.gates ==> LeaseOk(c, s, s.gates[w]))
    && (forall v, w :: v in s.gates && w in s.gates && v != w ==> Apart(s, s.gates[v], s.gates[w]))
    && (s.entry.Some? ==> s.entry.value.token < s.nextToken)
  }

  /** One gate and the key change; it is enough to look at that gate, at each other gate, and at pairs of others. */
  lemma OneGateChanges(c: Config, s: State, t: State, w: Id, g: Gate)
    requires LockInv(c, s) && w in s.gates && t.gates == s.gates[w := g]
    requires LeaseOk(c, t, g) && (t.entry.Some? ==> t.entry.value.token < t.nextToken)
    requires forall v :: v in s.gates && v != w ==>
               LeaseOk(c, t, s.gates[v]) && Apart(t, s.gates[v], g) && Apart(t, g, s.gates[v])
    requires forall u, v :: u in s.gates && v in s.gates && u != w && v != w && u != v ==> Apart(t, s.gates[u], s.gates[v])
    ensures LockInv(c, t)
  {
  }

  /** A key that is unchanged, gone, or taken by `g` says nothing new about two others. */
  lemma OthersStayApart(s: State, t: State, u: Gate, v: Gate, g: Gate)
    requires Apart(s, u, v) && Apart(s, v, g) && Drawn(g)
    requires t.entry == s.entry || (t.entry.Some? ==> t.entry.value.token == g.token)
    ensures Apart(t, u, v)
  {
  }

  lemma AcquireKeepsLockInv(c: Config, s: State, a: Step)
    requires GoodConfig(c) && LockInv(c, s) && Enabled(c, s, a) && (a.Acquire? || a.AcquireFails?)
    ensures LockInv(c, Apply(c, s, a))
  {
    var w := a.w;
    var t := Apply(c, s, a);
    assert Interval(c) >= 1.0;
    forall v | v in s.gates && v != w
      ensures LeaseOk(c, t, s.gates[v]) && Apart(t, s.gates[v], t.gates[w]) && Apart(t, t.gates[w], s.gates[v])
    {
      assert Apart(s, s.gates[v], s.gates[w]) && LeaseOk(c, s, s.gates[v]);
    }
    forall u, v | u in s.gates && v in s.gates && u != w && v != w && u != v
      ensures Apart(t, s.gates[u], s.gates[v])
    {
      OthersStayApart(s, t, s.gates[u], s.gates[v], s.gates[w]);
    }
    OneGateChanges(c, s, t, w, t.gates[w]);
  }

  predicate Renews(a: Step) { a.Refresh? || a.RefreshFails? || a.ReleaseLock? }

  lemma RefreshKeepsLockInv(c: Config, s: State, a: Step)
    requires GoodConfig(c) && LockInv(c, s) && Enabled(c, s, a) && Renews(a)
    ensures LockInv(c, Apply(c, s, a))
  {
    var w := a.w;
    var t := Apply(c, s, a);
    assert LeaseOk(c, s, s.gates[w]);
    RefreshKeepsOwn(c, s, a);
    hide LeaseOk, Apart, Apply, Enabled, Drawn;
    forall v | v in s.gates && v != w
      ensures LeaseOk(c, t, s.gates[v]) && Apart(t, s.gates[v], t.gates[w]) && Apart(t, t.gates[w], s.gates[v])
    {
      RefreshSparesOthers(c, s, a, s.gates[v]);
    }
    forall u, v | u in s.gates && v in s.gates && u != w && v != w && u != v
      ensures Apart(t, s.gates[u], s.gates[v])
    {
      OthersStayApart(s, t, s.gates[u], s.gates[v], s.gates[w]);
    }
    OneGateChanges(c, s, t, w, t.gates[w]);
  }

  lemma RefreshKeepsOwn(c: Config, s: State, a: Step)
    requires GoodConfig(c) && Enabled(c, s, a) && Renews(a) && LeaseOk(c, s, s.gates[a.w])
    ensures var t := Apply(c, s, a);
            && t.gates == s.gates[a.w := t.gates[a.w]] && t.nextToken == s.nextToken && Drawn(s.gates[a.w])
            && (t.entry == s.entry || (t.entry.Some? ==> t.entry.value.token == s.gates[a.w].token))
            && s.gates[a.w].token < s.nextToken
            && LeaseOk(c, t, t.gates[a.w])
  {
    assert Interval(c) >= 1.0;
  }

  lemma RefreshSparesOthers(c: Config, s: State, a: Step, g: Gate)
    requires GoodConfig(c) && Enabled(c, s, a) && Renews(a)
    requires LeaseOk(c, s, s.gates[a.w]) && LeaseOk(c, s, g) && Apart(s, g, s.gates[a.w]) && Apart(s, s.gates[a.w], g)
    ensures var t := Apply(c, s, a);
            LeaseOk(c, t, g) && Apart(t, g, t.gates[a.w]) && Apart(t, t.gates[a.w], g)
  {
  }

  /** A step that leaves the key, the clock, the leases and every drawn token alone. */
  lemma PlainStepKeepsLockInv(c: Config, s: State, t: State, w: Id, g: Gate)
    requires LockInv(c, s) && w in s.gates && t.gates == s.gates[w := g]
    requires t.now == s.now && t.entry == s.entry && t.nextToken >= s.nextToken
    requires g.lease == s.gates[w].lease && (g.lease.Some? ==> g.token == s.gates[w].token)
    requires Drawn(g) ==> (g.token == s.gates[w].token && Drawn(s.gates[w])) || s.nextToken <= g.token < t.nextToken
    requires g.phase == Idle || g.phase == Waiting ==> g.lease.None?
    requires g.phase == Leaving ==> g.lease.Some?
    requires g.phase == Running && g.lease.Some? ==> s.gates[w].phase == Running
    ensures LockInv(c, t)
  {
    assert LeaseOk(c, s, s.gates[w]);
    forall v | v in s.gates && v != w
      ensures LeaseOk(c, t, s.gates[v]) && Apart(t, s.gates[v], g) && Apart(t, g, s.gates[v])
    {
      assert Apart(s, s.gates[v], s.gates[w]) && Apart(s, s.gates[w], s.gates[v]) && LeaseOk(c, s, s.gates[v]);
    }
    forall u, v | u in s.gates && v in s.gates && u != w && v != w && u != v
      ensures Apart(t, s.gates[u], s.gates[v])
    {
      assert Apart(s, s.gates[u], s.gates[v]);
    }
    OneGateChanges(c, s, t, w, g);
  }

  lemma TickKeepsLockInv(c: Config, s: State, a: Step)
    requires LockInv(c, s) && Enabled(c, s, a) && a.Tick?
    ensures LockInv(c, Apply(c, s, a))
  {
    var t := Apply(c, s, a);
    forall w | w in t.gates
      ensures LeaseOk(c, t, t.gates[w])
    {
      assert LeaseOk(c, s, s.gates[w]);
    }
    forall v, w | v in t.gates && w in t.gates && v != w
      ensures Apart(t, t.gates[v], t.gates[w])
    {
      assert Apart(s, s.gates[v], s.gates[w]);
    }
  }

  lemma StepKeepsLockInv(c: Config, s: State, a: Step)
    requires GoodConfig(c) && LockInv(c, s) && Enabled(c, s, a)
    ensures LockInv(c, Apply(c, s, a))
  {
    hide LockInv, Apply;
    if a.Acquire? || a.AcquireFails? {
      AcquireKeepsLockInv(c, s, a);
    } else if Renews(a) {
      RefreshKeepsLockInv(c, s, a);
    } else if a.Tick? {
      TickKeepsLockInv(c, s, a);
    } else {
      OtherStepKeepsLockInv(c, s, a);
    }
  }

  lemma OtherStepKeepsLockInv(c: Config, s: State, a: Step)
    requires LockInv(c, s) && Enabled(c, s, a)
    requires !a.Tick? && !a.Acquire? && !a.AcquireFails? && !Renews(a)
    ensures LockInv(c, Apply(c, s, a))
  {
    assert LeaseOk(c, s, s.gates[a.w]);
    hide LockInv;
    var t := Apply(c, s, a);
    PlainStepKeepsLockInv(c, s, t, a.w, t.gates[a.w]);
  }

  lemma {:induction false} RunLockInv(c: Config, states: seq<State>, steps: seq<Step>, i: nat)
    requires GoodConfig(c) && IsRun(c, states, steps) && i < |states|
    ensures LockInv(c, states[i])
  {
    if i > 0 {
      RunLockInv(c, states, steps, i - 1);
      StepKeepsLockInv(c, states[i - 1], steps[i - 1]);
    }
  }

  /** Within its lease a worker is the sole holder: the key carries its token, is unexpired, and no
      other worker is within its own lease. */
  lemma SoleHolder(c: Config, states: seq<State>, steps: seq<Step>, i: nat, w: Id, v: Id)
    requires GoodConfig(c) && IsRun(c, states, steps) && i < |states|
    requires w in states[i].gates && states[i].gates[w].lease.Some? && states[i].now < states[i].gates[w].lease.value.end
    requires v in states[i].gates && v != w && states[i].gates[v].lease.Some?
    ensures Owns(states[i], states[i].gates[w].token)
    ensures states[i].gates[v].token != states[i].gates[w].token
    ensures states[i].now >= states[i].gates[v].lease.value.end
  {
    RunLockInv(c, states, steps, i);
    assert Apart(states[i], states[i].gates[v], states[i].gates[w]);
    assert LeaseOk(c, states[i], states[i].gates[v]) && LeaseOk(c, states[i], states[i].gates[w]);
  }

  /** A worker that got the lock keeps the moment it got it, and once it knows the lock lost it knows it for good. */
  lemma {:induction false} LeaseLasts(c: Config, states: seq<State>, steps: seq<Step>, i: nat, j: nat, w: Id)
    requires IsRun(c, states, steps) && i <= j < |states| && w in states[i].gates && states[i].gates[w].lease.Some?
    requires GoodConfig(c)
    ensures w in states[j].gates && states[j].gates[w].lease.Some?
    ensures var before, after := states[i].gates[w].lease.value, states[j].gates[w].lease.value;
            after.acquired == before.acquired && (before.lost ==> after.lost)
    decreases j
  {
    if i < j {
      LeaseLasts(c, states, steps, i, j - 1, w);
      RunLockInv(c, states, steps, j - 1);
      assert LeaseOk(c, states[j - 1], states[j - 1].gates[w]);
      StepKeepsLease(c, states[j - 1], steps[j - 1], w);
    }
  }

  lemma StepKeepsLease(c: Config, s: State, a: Step, w: Id)
    requires Enabled(c, s, a) && w in s.gates && LeaseOk(c, s, s.gates[w]) && s.gates[w].lease.Some?
    ensures var t := Apply(c, s, a);
            && w in t.gates && t.gates[w].lease.Some? && t.gates[w].lease.value.acquired == s.gates[w].lease.value.acquired
            && (s.gates[w].lease.value.lost ==> t.gates[w].lease.value.lost)
  {
  }

  /** What a step can do to the key: nothing, delete it, or put the token of its own worker there. */
  lemma KeyEffect(c: Config, s: State, a: Step)
    requires Enabled(c, s, a) && !a.Tick? && LeaseOk(c, s, s.gates[a.w])
    ensures var t := Apply(c, s, a);
            && t.now == s.now && t.gates == s.gates[a.w := t.gates[a.w]]
            && (t.entry == s.entry || t.entry.None? || (t.entry.value.token == s.gates[a.w].token && Drawn(s.gates[a.w])))
  {
  }

  lemma OwnStepDoesNotRestore(c: Config, s: State, a: Step)
    requires Enabled(c, s, a) && !a.Tick? && LeaseOk(c, s, s.gates[a.w]) && s.gates[a.w].lease.Some? && !Owns(s, s.gates[a.w].token)
    ensures var t := Apply(c, s, a);
            && !Owns(t, t.gates[a.w].token) && t.gates[a.w].lease.Some?
            && t.gates[a.w].lease.value.end <= s.gates[a.w].lease.value.end
  {
  }

  lemma StepDoesNotRestore(c: Config, s: State, a: Step, w: Id)
    requires Enabled(c, s, a) && LockInv(c, s) && w in s.gates && s.gates[w].lease.Some? && !Owns(s, s.gates[w].token)
    ensures var t := Apply(c, s, a);
            && w in t.gates && !Owns(t, t.gates[w].token)
            && t.gates[w].lease.Some? && t.gates[w].lease.value.end <= s.gates[w].lease.value.end
  {
    if !a.Tick? {
      assert LeaseOk(c, s, s.gates[a.w]);
      if a.w == w {
        OwnStepDoesNotRestore(c, s, a);
      } else {
        assert Apart(s, s.gates[a.w], s.gates[w]);
        hide Apply, LockInv, LeaseOk;
        KeyEffect(c, s, a);
      }
    }
  }

  /** A lock that is gone, expired or taken, is gone for good: the key never carries the worker's token again, and the
      worker was protected no longer than until then.  (`Acquire` finds the key free, so a lock that is taken is gone.) */
  lemma {:induction false} LostForGood(c: Config, states: seq<State>, steps: seq<Step>, i: nat, j: nat, w: Id)
    requires GoodConfig(c) && IsRun(c, states, steps) && i <= j < |states|
    requires w in states[i].gates && states[i].gates[w].lease.Some? && !Owns(states[i], states[i].gates[w].token)
    ensures w in states[j].gates && states[j].gates[w].lease.Some? && states[j].gates[w].lease.value.end <= states[i].now
    ensures !Owns(states[j], states[j].gates[w].token)
    decreases j
  {
    if i == j {
      RunLockInv(c, states, steps, i);
      assert LeaseOk(c, states[i], states[i].gates[w]);
    } else {
      LostForGood(c, states, steps, i, j - 1, w);
      RunLockInv(c, states, steps, j - 1);
      hide LockInv, Apply, Enabled;
      StepDoesNotRestore(c, states[j - 1], steps[j - 1], w);
    }
  }

  /** Another worker takes the key, whether or not it gets to know. */
  predicate Takes(s: State, a: Step) { a.Acquire? || (a.AcquireFails? && a.applied && !Live(s)) }

  /** A worker takes the key only from one that has lost it. */
  lemma TakenFromALoser(c: Config, s: State, a: Step, token: nat)
    requires Enabled(c, s, a) && Takes(s, a)
    ensures !Owns(s, token)
  {
  }

  /** Once the lock is gone, whatever the reason, the worker's next refresh sets `lock_lost`, for good. */
  lemma NextRefreshDetectsLoss(c: Config, states: seq<State>, steps: seq<Step>, i: nat, j: nat, k: nat, w: Id)
    requires GoodConfig(c) && IsRun(c, states, steps) && i <= j < k < |states|
    requires w in states[i].gates && states[i].gates[w].lease.Some?
    requires !Owns(states[i], states[i].gates[w].token) || Takes(states[i], steps[i])
    requires steps[j] == Refresh(w) || (steps[j].RefreshFails? && steps[j].w == w)
    ensures w in states[k].gates && states[k].gates[w].lease.Some? && states[k].gates[w].lease.value.lost
  {
    assert Enabled(c, states[i], steps[i]);
    if Takes(states[i], steps[i]) {
      TakenFromALoser(c, states[i], steps[i], states[i].gates[w].token);
    }
    LostForGood(c, states, steps, i, j, w);
    assert Enabled(c, states[j], steps[j]) && states[j + 1] == Apply(c, states[j], steps[j]);
    assert w in states[j + 1].gates && states[j + 1].gates[w].lease.Some? && states[j + 1].gates[w].lease.value.lost;
    LeaseLasts(c, states, steps, j + 1, k, w);
  }

  /** Once the lock is gone, the worker is without `lock_lost` for at most interval + late - ttl. */
  lemma LossIsNoticedInTime(c: Config, states: seq<State>, steps: seq<Step>, i: nat, k: nat, w: Id)
    requires GoodConfig(c) && IsRun(c, states, steps) && i < k < |states|
    requires w in states[i].gates && states[i].gates[w].lease.Some?
    requires !Owns(states[i], states[i].gates[w].token) || Takes(states[i], steps[i])
    requires w in states[k].gates && states[k].gates[w].phase == Running
    ensures states[k].gates[w].lease.Some?
    ensures states[k].gates[w].lease.value.lost || states[k].now - states[i].now <= Interval(c) + c.late - c.ttl as real
  {
    assert Enabled(c, states[i], steps[i]);
    if Takes(states[i], steps[i]) {
      TakenFromALoser(c, states[i], steps[i], states[i].gates[w].token);
    }
    LostForGood(c, states, steps, i, k, w);
    RunLockInv(c, states, steps, k);
    assert LeaseOk(c, states[k], states[k].gates[w]);
  }

  // ---- what releasing and refreshing do to the key ------------------------------------------------

  /** A release that reached Redis frees the key of the worker's token, for good. */
  lemma ReleaseFreesKey(c: Config, states: seq<State>, steps: seq<Step>, i: nat, j: nat, w: Id)
    requires GoodConfig(c) && IsRun(c, states, steps) && i < j < |states| && steps[i] == ReleaseLock(w, true)
    ensures w in states[j].gates && !Owns(states[j], states[j].gates[w].token)
  {
    RunLockInv(c, states, steps, i);
    assert Enabled(c, states[i], steps[i]) && states[i + 1] == Apply(c, states[i], steps[i]);
    assert LeaseOk(c, states[i], states[i].gates[w]);
    LostForGood(c, states, steps, i + 1, j, w);
  }

  /** Right after its owner released the key, a waiting worker can take it. */
  lemma WaiterFollowsRelease(c: Config, s: State, w: Id, v: Id)
    requires Enabled(c, s, ReleaseLock(w, true)) && Owns(s, s.gates[w].token) && c.distributed
    requires v in s.gates && v != w && s.gates[v].phase == Waiting
    ensures Enabled(c, Apply(c, s, ReleaseLock(w, true)), Acquire(v))
  {
  }

  /** A release under another token leaves the key to its holder. */
  lemma ForeignReleaseSparesKey(c: Config, s: State, w: Id)
    requires Enabled(c, s, ReleaseLock(w, true)) && !Owns(s, s.gates[w].token)
    ensures Apply(c, s, ReleaseLock(w, true)).entry == s.entry
  {
  }

  /** The owner's refresh renews the key for a whole TTL and raises no alarm. */
  lemma RefreshRenews(c: Config, s: State, w: Id)
    requires GoodConfig(c) && Enabled(c, s, Refresh(w)) && Owns(s, s.gates[w].token)
    ensures var t := Apply(c, s, Refresh(w));
            && Owns(t, t.gates[w].token) && t.entry.value.expires == t.now + c.ttl as real
            && t.gates[w].lease.value.lost == s.gates[w].lease.value.lost && Refreshing(t.gates[w])
  {
  }

  /** In every run, a worker that believes it holds the lock got or renewed it no longer ago than a third of the TTL, or one
      second if that is more, and the lateness. */
  lemma ConfidentIsRecent(c: Config, states: seq<State>, steps: seq<Step>, i: nat, w: Id)
    requires GoodConfig(c) && IsRun(c, states, steps) && i < |states| && Confident(states[i], w)
    ensures var third := c.ttl as real / 3.0;
            states[i].now - states[i].gates[w].lease.value.since <= (if third > 1.0 then third else 1.0) + c.late
  {
    RunLockInv(c, states, steps, i);
    assert LeaseOk(c, states[i], states[i].gates[w]);
  }

  /** No refresh comes before that interval is over. */
  lemma RefreshWaitsForInterval(c: Config, s: State, w: Id)
    requires Enabled(c, s, Refresh(w))
    ensures s.now - s.gates[w].lease.value.since >= 1.0
    ensures s.now - s.gates[w].lease.value.since >= c.ttl as real / 3.0
  {
  }

  /** A worker inside the gate, with a lock it does not know to be lost. */
  predicate Confident(s: State, w: Id) {
    w in s.gates && s.gates[w].phase == Running && s.gates[w].lease.Some? && !s.gates[w].lease.value.lost
  }

  /** Two confident workers cannot coexist when refreshes come before the lock can expire. */
  lemma ExclusionWhenRefreshInTime(c: Config, states: seq<State>, steps: seq<Step>, i: nat, v: Id, w: Id)
    requires GoodConfig(c) && Interval(c) + c.late < c.ttl as real
    requires IsRun(c, states, steps) && i < |states| && Confident(states[i], v) && Confident(states[i], w)
    ensures v == w
  {
    RunLockInv(c, states, steps, i);
    assert LeaseOk(c, states[i], states[i].gates[w]) && LeaseOk(c, states[i], states[i].gates[v]);
    if v != w {
      SoleHolder(c, states, steps, i, w, v);
    }
  }

  lemma Extended(c: Config, states: seq<State>, steps: seq<Step>, a: Step) returns (states': seq<State>, steps': seq<Step>)
    requires IsRun(c, states, steps) && Enabled(c, states[|steps|], a)
    ensures IsRun(c, states', steps') && |states'| == |steps'| + 1 && states'[|steps'|] == Apply(c, states[|steps|], a)
  {
    hide Enabled, Apply, Init;
    states', steps' := states + [Apply(c, states[|steps|], a)], steps + [a];
    forall i | 0 <= i < |steps'|
      ensures Enabled(c, states'[i], steps'[i]) && states'[i + 1] == Apply(c, states'[i], steps'[i])
    {
      if i < |steps| {
        assert states'[i] == states[i] && states'[i + 1] == states[i + 1] && steps'[i] == steps[i];
      }
    }
  }

  /** Otherwise the lock can expire while its holder is confident, and a second worker enters.  At a threshold of
      one it needs a free slot: a body that outlives the counter key leaves one behind when it releases. */
  lemma OverlapWhenRefreshTooLate(c: Config) returns (states: seq<State>, steps: seq<Step>)
    requires GoodConfig(c) && c.distributed && Interval(c) + c.late >= c.ttl as real
    ensures IsRun(c, states, steps)
    ensures |states| == |steps| + 1 && Confident(states[|steps|], 0) && Confident(states[|steps|], 1)
  {
    hide IsRun;
    if c.threshold == 1 {
      states, steps := SlotFreedTwice(c);
    } else {
      states, steps := [State(0.0, None, 0, 0.0, 0, false, 0, map[0 := FRESH, 1 := FRESH])], [];
      FirstRun(c, states[0]);
      states, steps := Extended(c, states, steps, Reserve(0));
      assert SecondMayCome(c, states[|steps|]);
    }
    states, steps := Extended(c, states, steps, Acquire(0));
    states, steps := Extended(c, states, steps, Tick(c.ttl as real));
    states, steps := Extended(c, states, steps, Reserve(1));
    states, steps := Extended(c, states, steps, Acquire(1));
  }

  lemma FirstRun(c: Config, s: State)
    requires Init(s)
    ensures IsRun(c, [s], [])
  {
  }

  /** Worker 0 is at the free lock, worker 1 has not come yet, and there is a slot for it. */
  predicate SecondMayCome(c: Config, s: State) {
    && 0 in s.gates && 1 in s.gates && !Live(s) && s.gates[0].phase == Waiting && s.gates[1] == FRESH
    && (c.threshold == 0 || s.counter < c.threshold)
    && forall w :: w in s.gates ==> !Refreshing(s.gates[w])
  }

  /** Worker 2 is still in its body, with its slot, when the counter key and its lock have timed out. */
  predicate Outlived(s: State) {
    && s.gates.Keys == {0, 1, 2} && s.gates[0] == FRESH && s.gates[1] == FRESH && !Live(s) && s.counter == 0
    && s.gates[2].phase == Running && s.gates[2].slot && s.gates[2].lease.Some? && !s.gates[2].lease.value.refreshing
  }

  lemma WorkerOutlivesItsKeys(c: Config) returns (states: seq<State>, steps: seq<Step>)
    requires GoodConfig(c) && c.distributed && c.threshold == 1
    ensures IsRun(c, states, steps) && |states| == |steps| + 1 && Outlived(states[|steps|])
  {
    hide IsRun;
    states, steps := [State(0.0, None, 0, 0.0, 0, false, 0, map[0 := FRESH, 1 := FRESH, 2 := FRESH])], [];
    FirstRun(c, states[0]);
    states, steps := Extended(c, states, steps, Reserve(2));
    states, steps := Extended(c, states, steps, Acquire(2));
    states, steps := Extended(c, states, steps, Tick(Interval(c)));
    states, steps := Extended(c, states, steps, RefreshFails(2, false));
    states, steps := Extended(c, states, steps, Tick((c.window + c.ttl) as real));
  }

  /** Worker 0 then gets its slot, and the late release of worker 2 frees it again. */
  lemma SlotFreedTwice(c: Config) returns (states: seq<State>, steps: seq<Step>)
    requires GoodConfig(c) && c.distributed && c.threshold == 1
    ensures IsRun(c, states, steps) && |states| == |steps| + 1 && SecondMayCome(c, states[|steps|])
  {
    hide IsRun;
    states, steps := WorkerOutlivesItsKeys(c);
    states, steps := Extended(c, states, steps, Reserve(0));
    states, steps := Extended(c, states, steps, Finish(2));
    states, steps := Extended(c, states, steps, ReleaseLock(2, true));
    states, steps := Extended(c, states, steps, ReleaseSlot(2, true));
  }

  /** In no reachable state are two workers confident at once. */
  ghost predicate Exclusive(c: Config) {
    forall states, steps, i, v, w ::
      IsRun(c, states, steps) && 0 <= i < |states| && Confident(states[i], v) && Confident(states[i], w) ==> v == w
  }

  /** The exact condition for mutual exclusion. */
  lemma ExclusiveIffRefreshInTime(c: Config)
    requires GoodConfig(c) && c.distributed
    ensures Exclusive(c) <==> Interval(c) + c.late < c.ttl as real
  {
    if Interval(c) + c.late < c.ttl as real {
      forall states, steps, i, v, w |
        IsRun(c, states, steps) && 0 <= i < |states| && Confident(states[i], v) && Confident(states[i], w)
        ensures v == w
      {
        ExclusionWhenRefreshInTime(c, states, steps, i, v, w);
      }
    } else {
      var states, steps := OverlapWhenRefreshTooLate(c);
      assert IsRun(c, states, steps) && Confident(states[|steps|], 0) && Confident(states[|steps|], 1);
    }
  }

  /** With punctual refreshes that is: exclusion from a ttl of two seconds on, and none at one second. */
  lemma PunctualExclusion(c: Config)
    requires GoodConfig(c) && c.distributed && c.late == 0.0
    ensures Exclusive(c) <==> c.ttl >= 2
  {
    ExclusiveIffRefreshInTime(c);
    assert c.ttl >= 2 ==> c.ttl as real / 3.0 < c.ttl as real;
  }

  // ---- the slots --------------------------------------------------------------------------------

  function Holders(gates: map<Id, Gate>): set<Id> { set w | w in gates && gates[w].slot }

  /** How often a gate that is in this phase has reserved and released. */
  predicate Accounted(c: Config, g: Gate) {
    && g.reserved <= 1 && g.lockReleases <= 1
    && (g.phase != Crashed ==> g.reserved == g.released + (if g.slot then 1 else 0))
    && (c.threshold == 0 ==> !g.slot)
    && (g.phase == Idle ==> g == FRESH)
    && (g.phase == Done ==> !g.slot)
    && (g.phase == Waiting ==> g.lease.None?)
    && (g.phase == Leaving ==> g.lease.Some?)
    && (g.phase == Waiting || g.phase == Running || g.phase == Suppressed || g.phase == Leaving ==> g.lockReleases == 0)
    && (g.phase == Suppressed ==> g.lease.None?)
    && (g.phase == LeavingSlot || g.phase == Done ==> g.lockReleases == if g.lease.Some? then 1 else 0)
  }

  predicate SlotInv(c: Config, s: State) {
    && (forall w :: w in s.gates ==> Accounted(c, s.gates[w]))
    && s.counter <= |Holders(s.gates)| + s.leaked
    && (!s.expired ==> s.counter == |Holders(s.gates)| + s.leaked)
    && s.counter <= c.threshold
  }

  lemma HoldersUpdate(gates: map<Id, Gate>, w: Id, g: Gate)
    requires w in gates
    ensures |Holders(gates[w := g])| + (if gates[w].slot then 1 else 0) == |Holders(gates)| + (if g.slot then 1 else 0)
  {
    var others := Holders(gates) - {w};
    assert Holders(gates) == if gates[w].slot then others + {w} else others;
    assert Holders(gates[w := g]) == if g.slot then others + {w} else others;
  }

  predicate Leaves(a: Step) { a.Finish? || a.ReleaseLock? || a.ReleaseSlot? || a.Crash? }

  lemma LeavingAccounts(c: Config, s: State, a: Step)
    requires Enabled(c, s, a) && Leaves(a) && Accounted(c, s.gates[a.w])
    ensures Accounted(c, Apply(c, s, a).gates[a.w])
  {
  }

  lemma EnteringAccounts(c: Config, s: State, a: Step)
    requires Enabled(c, s, a) && !a.Tick? && !Leaves(a) && Accounted(c, s.gates[a.w])
    ensures Accounted(c, Apply(c, s, a).gates[a.w])
  {
  }

  lemma StepCounts(c: Config, s: State, a: Step)
    requires SlotInv(c, s) && Enabled(c, s, a) && !a.Tick?
    ensures var t := Apply(c, s, a);
            && t.counter <= c.threshold && t.counter <= |Holders(t.gates)| + t.leaked
            && (!t.expired ==> t.counter == |Holders(t.gates)| + t.leaked)
  {
    hide Holders;
    var t := Apply(c, s, a);
    assert Accounted(c, s.gates[a.w]);
    HoldersUpdate(s.gates, a.w, t.gates[a.w]);
  }

  lemma StepTouchesOneGate(c: Config, s: State, a: Step)
    requires Enabled(c, s, a) && !a.Tick?
    ensures Apply(c, s, a).gates == s.gates[a.w := Apply(c, s, a).gates[a.w]]
  {
  }

  lemma StepKeepsSlotInv(c: Config, s: State, a: Step)
    requires SlotInv(c, s) && Enabled(c, s, a)
    ensures SlotInv(c, Apply(c, s, a))
  {
    hide Holders;
    hide Accounted;
    if !a.Tick? {
      hide Apply;
      StepTouchesOneGate(c, s, a);
      if Leaves(a) {
        LeavingAccounts(c, s, a);
      } else {
        EnteringAccounts(c, s, a);
      }
      StepCounts(c, s, a);
    }
  }

  lemma {:induction false} RunSlotInv(c: Config, states: seq<State>, steps: seq<Step>, i: nat)
    requires IsRun(c, states, steps) && i < |states|
    ensures SlotInv(c, states[i])
  {
    if i == 0 {
      assert Holders(states[0].gates) == {};
    } else {
      RunSlotInv(c, states, steps, i - 1);
      StepKeepsSlotInv(c, states[i - 1], steps[i - 1]);
    }
  }

  /** On every exit path a reserved slot was released exactly once and an acquired lock exactly once. */
  lemma EveryExitReleasesOnce(c: Config, states: seq<State>, steps: seq<Step>, i: nat, w: Id)
    requires IsRun(c, states, steps) && i < |states| && w in states[i].gates && states[i].gates[w].phase == Done
    ensures var g := states[i].gates[w];
            g.released == g.reserved <= 1 && g.lockReleases == if g.lease.Some? then 1 else 0
  {
    RunSlotInv(c, states, steps, i);
    assert Accounted(c, states[i].gates[w]);
  }

  /** The counter never exceeds the threshold; without expiry and without leaks it is the number of
      workers between reserve and release. */
  lemma CounterCountsHolders(c: Config, states: seq<State>, steps: seq<Step>, i: nat)
    requires IsRun(c, states, steps) && i < |states|
    ensures states[i].counter <= c.threshold
    ensures states[i].counter <= |Holders(states[i].gates)| + states[i].leaked
    ensures !states[i].expired && states[i].leaked == 0 ==> states[i].counter == |Holders(states[i].gates)|
  {
    RunSlotInv(c, states, steps, i);
  }

  /** In every run, the counter key times out with a count in it only a whole window after the last reservation of a slot. */
  lemma {:induction false} ExpiryTakesAWindow(c: Config, states: seq<State>, steps: seq<Step>, i: nat, j: nat, w: Id)
    requires IsRun(c, states, steps) && i < j < |states| && steps[i] == Reserve(w) && c.threshold > 0
    requires states[i].counter < c.threshold && states[j].expired && !states[i].expired
    ensures states[j].now >= states[i].now + c.window as real
  {
    UntilGrows(c, states, steps, i, j, w);
  }

  lemma {:induction false} UntilGrows(c: Config, states: seq<State>, steps: seq<Step>, i: nat, j: nat, w: Id)
    requires IsRun(c, states, steps) && i < j < |states| && steps[i] == Reserve(w) && c.threshold > 0
    requires states[i].counter < c.threshold && !states[i].expired
    ensures LivesUntil(states[j], states[i].now + c.window as real) && states[j].now >= states[i].now
    decreases j
  {
    hide Enabled, Apply, LivesUntil, Init;
    assert Enabled(c, states[j - 1], steps[j - 1]) && states[j] == Apply(c, states[j - 1], steps[j - 1]);
    if i + 1 < j {
      UntilGrows(c, states, steps, i, j - 1, w);
      StepLivesUntil(c, states[j - 1], steps[j - 1], states[i].now + c.window as real, states[i].now);
    } else {
      ReserveLives(c, states[i], w);
    }
  }

  /** The counter key does not time out before `until`. */
  predicate LivesUntil(s: State, until: real) { s.counterUntil >= until && (s.expired ==> s.now >= until) }

  lemma StepLivesUntil(c: Config, s: State, a: Step, until: real, from: real)
    requires Enabled(c, s, a) && LivesUntil(s, until) && s.now >= from && until == from + c.window as real
    ensures LivesUntil(Apply(c, s, a), until) && Apply(c, s, a).now >= from
  {
  }

  lemma ReserveLives(c: Config, s: State, w: Id)
    requires Enabled(c, s, Reserve(w)) && c.threshold > 0 && s.counter < c.threshold && !s.expired
    ensures LivesUntil(Apply(c, s, Reserve(w)), s.now + c.window as real) && Apply(c, s, Reserve(w)).now >= s.now
  {
  }

  /** So it does after a release that leaves slots taken. */
  lemma {:induction false} ReleaseProlongsCounter(c: Config, states: seq<State>, steps: seq<Step>, i: nat, j: nat, w: Id)
    requires IsRun(c, states, steps) && i < j < |states| && steps[i] == ReleaseSlot(w, true)
    requires w in states[i].gates && states[i].gates[w].slot && states[i].counter > 1 && !states[i].expired && states[j].expired
    ensures states[j].now >= states[i].now + c.window as real
  {
    ReleaseUntil(c, states, steps, i, j, w);
  }

  lemma {:induction false} ReleaseUntil(c: Config, states: seq<State>, steps: seq<Step>, i: nat, j: nat, w: Id)
    requires IsRun(c, states, steps) && i < j < |states| && steps[i] == ReleaseSlot(w, true) && w in states[i].gates
    requires states[i].gates[w].slot && states[i].counter > 1 && !states[i].expired
    ensures LivesUntil(states[j], states[i].now + c.window as real) && states[j].now >= states[i].now
    decreases j
  {
    hide Enabled, Apply, LivesUntil, Init;
    assert Enabled(c, states[j - 1], steps[j - 1]) && states[j] == Apply(c, states[j - 1], steps[j - 1]);
    if i + 1 < j {
      ReleaseUntil(c, states, steps, i, j - 1, w);
      StepLivesUntil(c, states[j - 1], steps[j - 1], states[i].now + c.window as real, states[i].now);
    } else {
      ReleaseLives(c, states[i], w);
    }
  }

  lemma ReleaseLives(c: Config, s: State, w: Id)
    requires Enabled(c, s, ReleaseSlot(w, true)) && s.gates[w].slot && s.counter > 1 && !s.expired
    ensures LivesUntil(Apply(c, s, ReleaseSlot(w, true)), s.now + c.window as real) && Apply(c, s, ReleaseSlot(w, true)).now >= s.now
  {
  }

  /** The counter key is gone from the end of its window on, and not before. */
  lemma CounterTimesOut(c: Config, s: State, d: real)
    requires Enabled(c, s, Tick(d)) && s.counter > 0
    ensures Apply(c, s, Tick(d)).counter == (if s.now + d >= s.counterUntil then 0 else s.counter)
  {
  }

  /** A slot is refused exactly when the threshold is on and reached; the alert is then done. */
  lemma SlotRefusedIff(c: Config, s: State, w: Id)
    requires Enabled(c, s, Reserve(w))
    ensures Apply(c, s, Reserve(w)).gates[w].phase == Done <==> c.threshold > 0 && s.counter >= c.threshold
    ensures Apply(c, s, Reserve(w)).gates[w].phase == Waiting <==> c.threshold == 0 || s.counter < c.threshold
  {
  }
}
