/**
  core/pubsub_cache.py: the per-worker TTL cache.  `get` is cut at its awaits into the
  segments the event loop runs without interruption; `Local` is the value the fields hold.
 */
module PubSubCache {
  import opened Wrappers

  datatype Local<T> = Local(value: Option<T>, loadedAt: int, epoch: nat)

  function Empty<T>(): Local<T> { Local(None, 0, 0) }

  function Invalidated<T>(l: Local<T>): Local<T> { Local(None, 0, l.epoch + 1) }

  predicate Fresh<T>(l: Local<T>, now: int, ttl: int) { l.value.Some? && now - l.loadedAt < ttl }

  /** A finished load is stored only if no invalidation arrived since its epoch was noted. */
  function Stored<T>(l: Local<T>, before: nat, v: T, now: int): Local<T> {
    if l.epoch == before then Local(Some(v), now, l.epoch) else l
  }

  class TtlPubSubCache<T> {
    const ttl: int
    var value: Option<T>
    var loadedAt: int
    var invalidationEpoch: nat

    ghost function View(): Local<T>
      reads this
    {
      Local(value, loadedAt, invalidationEpoch)
    }

    constructor (ttl: int)
      ensures View() == Empty() && this.ttl == ttl
    {
      this.ttl := ttl;
      value, loadedAt, invalidationEpoch := None, 0, 0;
    }

    method Invalidate()
      modifies this
      ensures View() == Invalidated(old(View()))
    {
      value := None;
      loadedAt := 0;
      invalidationEpoch := invalidationEpoch + 1;
    }

    /** The check of `get`, made before the lock and again under it. */
    method Lookup(now: int) returns (hit: Option<T>)
      ensures hit == if Fresh(View(), now, ttl) then value else None
    {
      if value.Some? && now - loadedAt < ttl {
        return value;
      }
      return None;
    }

    /** Before the loader is awaited. */
    method BeginLoad() returns (before: nat)
      ensures before == invalidationEpoch
    {
      return invalidationEpoch;
    }

    /** After the loader returned `v`. */
    method FinishLoad(before: nat, v: T, now: int)
      modifies this
      ensures View() == Stored(old(View()), before, v, now)
    {
      if invalidationEpoch == before {
        value := Some(v);
        loadedAt := now;
      }
    }
  }
}

/**
  Any number of workers with their caches, one database, transactions whose after-commit
  action invalidates and publishes, and messages that may be lost.
 */
module CacheProtocol {
  import opened Wrappers
  import opened PubSubCache

  type Id = nat

  /** A loaded value: the database version it read, and the step at which its load began. */
  datatype Val = Val(version: nat, began: nat)

  /** One call of `get`: `mark` and `floor` are the worker's last invalidation and the database
      version at that invalidation, when the call started. */
  datatype Get =
    | Waiting(mark: int, floor: nat)
    | Loading(mark: int, floor: nat, before: nat, began: nat, base: nat, read: Option<nat>)
    | Returned(mark: int, floor: nat, val: Val, cached: bool, storedAt: int, servedAt: int)
    | Failed(mark: int, floor: nat)

  datatype Worker = Worker(local: Local<Val>, holder: Option<Id>, gets: map<Id, Get>,
                           lastInvalidation: int, floor: nat, stores: set<(Val, int)>)

  datatype Sys = Sys(step: nat, now: int, db: nat, workers: map<Id, Worker>, pending: set<(Id, nat)>, mail: set<(Id, nat)>)

  datatype Step =
    | Tick(d: nat)
    | Begin(w: Id, g: Id)
    | Acquire(w: Id, g: Id)
    | Read(w: Id, g: Id)
    | Finish(w: Id, g: Id)
    | Fail(w: Id, g: Id)
    | InvalidateNow(w: Id)
    | Commit(w: Id)
    | AfterCommit(w: Id, version: nat, to: set<Id>)
    | Deliver(w: Id, version: nat)
    | Lose(w: Id, version: nat)

  predicate Active(s: Sys, w: Id, g: Id) { w in s.workers && g in s.workers[w].gets }

  predicate Enabled(s: Sys, a: Step) {
    match a
    case Tick(_) => true
    case Begin(w, g) => w in s.workers && g !in s.workers[w].gets
    case Acquire(w, g) => Active(s, w, g) && s.workers[w].gets[g].Waiting? && s.workers[w].holder.None?
    case Read(w, g) => Active(s, w, g) && s.workers[w].gets[g].Loading? && s.workers[w].gets[g].read.None?
    case Finish(w, g) => Active(s, w, g) && s.workers[w].gets[g].Loading? && s.workers[w].gets[g].read.Some?
    case Fail(w, g) => Active(s, w, g) && (s.workers[w].gets[g].Waiting? || s.workers[w].gets[g].Loading?)
    case InvalidateNow(w) => w in s.workers
    case Commit(w) => w in s.workers
    case AfterCommit(w, version, _) => w in s.workers && (w, version) in s.pending
    case Deliver(w, version) => w in s.workers && (w, version) in s.mail
    case Lose(w, version) => (w, version) in s.mail
  }

  function Hit(k: Worker, now: int, mark: int, floor: nat): Get
    requires k.local.value.Some?
  {
    Returned(mark, floor, k.local.value.value, true, k.local.loadedAt, now)
  }

  /** What each step does to the worker it happens on. */
  function WorkerStep(s: Sys, k: Worker, a: Step, ttl: int): Worker
    requires Enabled(s, a)
    requires !a.Tick? && !a.Lose? ==> a.w in s.workers && k == s.workers[a.w]
  {
    match a
    case Begin(_, g) =>
      k.(gets := k.gets[g := if Fresh(k.local, s.now, ttl) then Hit(k, s.now, k.lastInvalidation, k.floor)
                             else Waiting(k.lastInvalidation, k.floor)])
    case Acquire(_, g) =>
      var get := k.gets[g];
      if Fresh(k.local, s.now, ttl) then k.(gets := k.gets[g := Hit(k, s.now, get.mark, get.floor)])
      else k.(holder := Some(g), gets := k.gets[g := Loading(get.mark, get.floor, k.local.epoch, s.step, s.db, None)])
    case Read(_, g) => k.(gets := k.gets[g := k.gets[g].(read := Some(s.db))])
    case Finish(_, g) =>
      var get := k.gets[g];
      var v := Val(get.read.value, get.began);
      k.(local := Stored(k.local, get.before, v, s.now), holder := None,
         stores := if k.local.epoch == get.before then k.stores + {(v, s.now)} else k.stores,
         gets := k.gets[g := Returned(get.mark, get.floor, v, false, s.now, s.now)])
    case Fail(_, g) =>
      var get := k.gets[g];
      k.(holder := if get.Loading? then None else k.holder, gets := k.gets[g := Failed(get.mark, get.floor)])
    case InvalidateNow(_) => Dropped(s, k)
    case AfterCommit(_, _, _) => Dropped(s, k)
    case Deliver(_, _) => Dropped(s, k)
    case _ => k
  }

  function Dropped(s: Sys, k: Worker): Worker {
    k.(local := Invalidated(k.local), lastInvalidation := s.step, floor := s.db)
  }

  function Apply(s: Sys, a: Step, ttl: int): Sys
    requires Enabled(s, a)
  {
    var t := s.(step := s.step + 1);
    match a
    case Tick(d) => t.(now := s.now + d)
    case Commit(w) => t.(db := s.db + 1, pending := s.pending + {(w, s.db + 1)})
    case Lose(w, version) => t.(mail := s.mail - {(w, version)})
    case AfterCommit(w, version, to) =>
      t.(workers := s.workers[w := WorkerStep(s, s.workers[w], a, ttl)],
         pending := s.pending - {(w, version)}, mail := s.mail + (set x | x in to :: (x, version)))
    case Deliver(w, version) =>
      t.(workers := s.workers[w := WorkerStep(s, s.workers[w], a, ttl)], mail := s.mail - {(w, version)})
    case _ => t.(workers := s.workers[a.w := WorkerStep(s, s.workers[a.w], a, ttl)])
  }

  // ---- what every step keeps ----------------------------------------------------------------

  predicate GetOk(k: Worker, g: Id, get: Get, step: nat, db: nat, ttl: int) {
    match get
    case Waiting(mark, floor) => mark <= k.lastInvalidation && floor <= k.floor
    case Failed(_, _) => true
    case Loading(mark, floor, before, began, base, read) =>
      && k.holder == Some(g) && before <= k.local.epoch
      && mark < began < step && floor <= base <= db
      && (before == k.local.epoch ==> began > k.lastInvalidation && base >= k.floor)
      && (read.Some? ==> base <= read.value <= db)
    case Returned(mark, floor, val, cached, storedAt, servedAt) =>
      && val.began > mark && val.version >= floor
      && (cached ==> servedAt - storedAt < ttl && (val, storedAt) in k.stores)
  }

  predicate WorkerOk(k: Worker, step: nat, db: nat, ttl: int) {
    && k.floor <= db && k.lastInvalidation < step
    && (k.local.value.Some? ==>
          && k.local.value.value.began > k.lastInvalidation && k.local.value.value.version >= k.floor
          && (k.local.value.value, k.local.loadedAt) in k.stores)
    && (k.holder.Some? ==> k.holder.value in k.gets && k.gets[k.holder.value].Loading?)
    && (forall g :: g in k.gets ==> GetOk(k, g, k.gets[g], step, db, ttl))
  }

  predicate Inv(s: Sys, ttl: int) {
    && (forall w :: w in s.workers ==> WorkerOk(s.workers[w], s.step, s.db, ttl))
    && (forall p :: p in s.pending ==> p.1 <= s.db)
    && (forall m :: m in s.mail ==> m.1 <= s.db)
  }

  predicate Init(s: Sys) {
    && s.step == 0 && s.pending == {} && s.mail == {}
    && forall w :: w in s.workers ==> s.workers[w] == Worker(Empty(), None, map[], -1, 0, {})
  }

  lemma WorkerStepOk(s: Sys, a: Step, ttl: int)
    requires Inv(s, ttl) && Enabled(s, a) && !a.Tick? && !a.Lose? && !a.Commit?
    ensures WorkerOk(WorkerStep(s, s.workers[a.w], a, ttl), s.step + 1, s.db, ttl)
  {
  }

  lemma StepKeepsInv(s: Sys, a: Step, ttl: int)
    requires Inv(s, ttl) && Enabled(s, a)
    ensures Inv(Apply(s, a, ttl), ttl)
  {
    hide WorkerStep;
    if !a.Tick? && !a.Lose? && !a.Commit? {
      WorkerStepOk(s, a, ttl);
    }
  }

  // ---- runs -----------------------------------------------------------------------------------

  predicate IsRun(states: seq<Sys>, steps: seq<Step>, ttl: int) {
    && |states| == |steps| + 1 && Init(states[0])
    && forall i :: 0 <= i < |steps| ==> Enabled(states[i], steps[i]) && states[i + 1] == Apply(states[i], steps[i], ttl)
  }

  lemma {:induction false} RunInv(states: seq<Sys>, steps: seq<Step>, ttl: int, i: nat)
    requires IsRun(states, steps, ttl) && i < |states|
    ensures Inv(states[i], ttl) && states[i].step == i
  {
    if i > 0 {
      RunInv(states, steps, ttl, i - 1);
      StepKeepsInv(states[i - 1], steps[i - 1], ttl);
    }
  }

  predicate Invalidates(a: Step, w: Id) { (a.InvalidateNow? || a.AfterCommit? || a.Deliver?) && a.w == w }

  lemma {:induction false} WorkerAdvances(states: seq<Sys>, steps: seq<Step>, ttl: int, w: Id, i: nat, j: nat)
    requires IsRun(states, steps, ttl) && i <= j < |states| && w in states[i].workers
    ensures w in states[j].workers
    ensures states[i].workers[w].lastInvalidation <= states[j].workers[w].lastInvalidation
    ensures states[i].workers[w].floor <= states[j].workers[w].floor
    ensures states[i].workers[w].local.epoch <= states[j].workers[w].local.epoch
    decreases j
  {
    if i < j {
      WorkerAdvances(states, steps, ttl, w, i, j - 1);
      RunInv(states, steps, ttl, j - 1);
      hide Apply, Inv, Enabled;
      StepAdvances(states[j - 1], steps[j - 1], ttl, w);
    }
  }

  lemma StepAdvances(s: Sys, a: Step, ttl: int, w: Id)
    requires Inv(s, ttl) && Enabled(s, a) && w in s.workers
    ensures var t := Apply(s, a, ttl);
            && w in t.workers && s.workers[w].lastInvalidation <= t.workers[w].lastInvalidation
            && s.workers[w].floor <= t.workers[w].floor && s.workers[w].local.epoch <= t.workers[w].local.epoch
  {
    assert WorkerOk(s.workers[w], s.step, s.db, ttl);
  }

  lemma {:induction false} GetKeepsItsStart(states: seq<Sys>, steps: seq<Step>, ttl: int, w: Id, g: Id, i: nat, j: nat)
    requires IsRun(states, steps, ttl) && i <= j < |states| && Active(states[i], w, g)
    ensures Active(states[j], w, g)
    ensures states[j].workers[w].gets[g].mark == states[i].workers[w].gets[g].mark
    ensures states[j].workers[w].gets[g].floor == states[i].workers[w].gets[g].floor
    decreases j
  {
    if i < j {
      GetKeepsItsStart(states, steps, ttl, w, g, i, j - 1);
    }
  }

  /** A `get` that starts after an invalidation never returns a value whose load began before it. */
  lemma GetAfterInvalidation(states: seq<Sys>, steps: seq<Step>, ttl: int, w: Id, g: Id, i: nat, j: nat, k: nat)
    requires IsRun(states, steps, ttl) && i < j < k < |states|
    requires Invalidates(steps[i], w) && steps[j] == Begin(w, g)
    requires Active(states[k], w, g) && states[k].workers[w].gets[g].Returned?
    ensures states[k].workers[w].gets[g].val.began > i
    ensures states[k].workers[w].gets[g].val.version >= states[i].db
  {
    RunInv(states, steps, ttl, i);
    RunInv(states, steps, ttl, k);
    WorkerAdvances(states, steps, ttl, w, i + 1, j);
    GetKeepsItsStart(states, steps, ttl, w, g, j + 1, k);
  }

  /** Once the after-commit action ran on the writer, or its message reached a listener, no later
      `get` there returns a value older than the commit, whatever was reloaded before. */
  lemma NoPreCommitRead(states: seq<Sys>, steps: seq<Step>, ttl: int, w: Id, g: Id, version: nat, i: nat, j: nat, k: nat)
    requires IsRun(states, steps, ttl) && i < j < k < |states|
    requires steps[i] == Deliver(w, version) || (steps[i].AfterCommit? && steps[i].w == w && steps[i].version == version)
    requires steps[j] == Begin(w, g)
    requires Active(states[k], w, g) && states[k].workers[w].gets[g].Returned?
    ensures states[k].workers[w].gets[g].val.version >= version
  {
    RunInv(states, steps, ttl, i);
    GetAfterInvalidation(states, steps, ttl, w, g, i, j, k);
  }

  /** At most one load per cache is in flight. */
  lemma SingleFlight(states: seq<Sys>, steps: seq<Step>, ttl: int, w: Id, g: Id, h: Id, i: nat)
    requires IsRun(states, steps, ttl) && i < |states| && Active(states[i], w, g) && Active(states[i], w, h)
    requires states[i].workers[w].gets[g].Loading? && states[i].workers[w].gets[h].Loading?
    ensures g == h
  {
    RunInv(states, steps, ttl, i);
  }

  /** The reload lock is held by a load in flight or by nobody, so a waiting `get` is never locked out for good. */
  lemma LockIsHeldByALoad(states: seq<Sys>, steps: seq<Step>, ttl: int, w: Id, g: Id, i: nat)
    requires IsRun(states, steps, ttl) && i < |states| && Active(states[i], w, g) && states[i].workers[w].gets[g].Waiting?
    ensures Enabled(states[i], Acquire(w, g)) <==> forall h :: h in states[i].workers[w].gets ==> !states[i].workers[w].gets[h].Loading?
  {
    RunInv(states, steps, ttl, i);
  }

  /** A load that finishes is stored, with the database version it read and its own time, unless an invalidation came in between. */
  lemma FinishedLoadIsStored(s: Sys, w: Id, g: Id, ttl: int)
    requires Enabled(s, Finish(w, g)) && s.workers[w].local.epoch == s.workers[w].gets[g].before
    ensures var local := Apply(s, Finish(w, g), ttl).workers[w].local;
            local.value == Some(Val(s.workers[w].gets[g].read.value, s.workers[w].gets[g].began)) && local.loadedAt == s.now
  {
  }

  /** A load overtaken by an invalidation returns to its caller and leaves the cache alone. */
  lemma {:induction false} OvertakenLoadIsNotStored(states: seq<Sys>, steps: seq<Step>, ttl: int, w: Id, g: Id, i: nat, k: nat, j: nat)
    requires IsRun(states, steps, ttl) && i <= k < j < |steps|
    requires Active(states[i], w, g) && states[i].workers[w].gets[g].Loading?
    requires Invalidates(steps[k], w) && steps[j] == Finish(w, g)
    ensures states[j + 1].workers[w].local == states[j].workers[w].local
  {
    RunInv(states, steps, ttl, i);
    WorkerAdvances(states, steps, ttl, w, i, k);
    WorkerAdvances(states, steps, ttl, w, k + 1, j);
    LoadKeepsItsEpoch(states, steps, ttl, w, g, i, j);
  }

  lemma {:induction false} LoadKeepsItsEpoch(states: seq<Sys>, steps: seq<Step>, ttl: int, w: Id, g: Id, i: nat, j: nat)
    requires IsRun(states, steps, ttl) && i <= j < |states| && Active(states[i], w, g)
    requires states[i].workers[w].gets[g].Loading?
    ensures Active(states[j], w, g)
    ensures var get := states[j].workers[w].gets[g];
            !get.Waiting? && (get.Loading? ==> get.before == states[i].workers[w].gets[g].before)
    decreases j
  {
    if i < j {
      LoadKeepsItsEpoch(states, steps, ttl, w, g, i, j - 1);
    }
  }

  /** With every message lost, a value served from the cache was still stored less than one TTL before. */
  lemma CachedReadIsWithinTtl(states: seq<Sys>, steps: seq<Step>, ttl: int, w: Id, g: Id, i: nat)
    requires IsRun(states, steps, ttl) && i < |states| && Active(states[i], w, g)
    requires states[i].workers[w].gets[g].Returned? && states[i].workers[w].gets[g].cached
    ensures var get := states[i].workers[w].gets[g];
            get.servedAt - get.storedAt < ttl && (get.val, get.storedAt) in states[i].workers[w].stores
  {
    RunInv(states, steps, ttl, i);
  }

  /** Every recorded store is a load that finished at that moment with that value. */
  lemma {:induction false} StoredByALoad(states: seq<Sys>, steps: seq<Step>, ttl: int, w: Id, v: Val, t: int, i: nat)
    returns (j: nat)
    requires IsRun(states, steps, ttl) && i < |states| && w in states[i].workers && (v, t) in states[i].workers[w].stores
    ensures j < i && steps[j].Finish? && steps[j].w == w && states[j].now == t
    ensures states[j + 1].workers[w].local.value == Some(v) && v.version <= states[j].db
    ensures Active(states[j], w, steps[j].g) && states[j].workers[w].gets[steps[j].g].Loading? &&
            states[j].workers[w].gets[steps[j].g].read == Some(v.version)
  {
    RunInv(states, steps, ttl, i - 1);
    if w in states[i - 1].workers && (v, t) in states[i - 1].workers[w].stores {
      j := StoredByALoad(states, steps, ttl, w, v, t, i - 1);
    } else {
      j := i - 1;
    }
  }
}
