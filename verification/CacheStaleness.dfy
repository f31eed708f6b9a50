/**
  core/pubsub_cache.py: how old a value served from the cache can be when every message is
  lost.  The lifetime counts from the end of the load, the value is as of its read.
 */
module CacheStaleness {
  import opened Wrappers
  import opened PubSubCache
  import opened CacheProtocol

  /** Every load that finishes does so within `load` of its read. */
  predicate PromptLoads(states: seq<Sys>, steps: seq<Step>, load: nat)
    requires |states| == |steps| + 1
  {
    forall q, f :: 0 <= q < f < |steps| && steps[q].Read? && steps[f] == Finish(steps[q].w, steps[q].g) ==>
      states[f].now - states[q].now <= load
  }

  lemma {:induction false} TimeGoesOn(states: seq<Sys>, steps: seq<Step>, ttl: int, i: nat, j: nat)
    requires IsRun(states, steps, ttl) && i <= j < |states|
    ensures states[i].now <= states[j].now && states[i].db <= states[j].db
    decreases j
  {
    hide WorkerStep;
    if i < j {
      TimeGoesOn(states, steps, ttl, i, j - 1);
      assert states[j] == Apply(states[j - 1], steps[j - 1], ttl);
    }
  }

  lemma StepReads(s: Sys, a: Step, ttl: int, w: Id, g: Id)
    requires Enabled(s, a) && Active(Apply(s, a, ttl), w, g)
    requires var get := Apply(s, a, ttl).workers[w].gets[g]; get.Loading? && get.read.Some?
    ensures Active(s, w, g) && s.workers[w].gets[g].Loading?
    ensures var get := Apply(s, a, ttl).workers[w].gets[g];
            s.workers[w].gets[g].read == get.read || (a == Read(w, g) && get.read == Some(s.db))
  {
  }

  /** What a load has read is the version of the database at its read step. */
  lemma {:induction false} ReadStep(states: seq<Sys>, steps: seq<Step>, ttl: int, w: Id, g: Id, i: nat) returns (q: nat)
    requires IsRun(states, steps, ttl) && i < |states| && Active(states[i], w, g)
    requires states[i].workers[w].gets[g].Loading? && states[i].workers[w].gets[g].read.Some?
    ensures q < i && steps[q] == Read(w, g) && states[i].workers[w].gets[g].read == Some(states[q].db)
  {
    if i == 0 {
      assert false;
    } else {
      assert Enabled(states[i - 1], steps[i - 1]) && states[i] == Apply(states[i - 1], steps[i - 1], ttl);
      hide Apply, Enabled;
      StepReads(states[i - 1], steps[i - 1], ttl, w, g);
      if states[i - 1].workers[w].gets[g].read == states[i].workers[w].gets[g].read {
        q := ReadStep(states, steps, ttl, w, g, i - 1);
      } else {
        q := i - 1;
      }
    }
  }

  /** With any messages lost, a value served from the cache at `t` is at least the version committed at `t - ttl - load`. */
  lemma ServedVersionBound(states: seq<Sys>, steps: seq<Step>, ttl: int, load: nat, w: Id, g: Id, i: nat, p: nat)
    requires IsRun(states, steps, ttl) && PromptLoads(states, steps, load) && i < |states| && p < |states| && Active(states[i], w, g)
    requires states[i].workers[w].gets[g].Returned? && states[i].workers[w].gets[g].cached
    requires states[p].now <= states[i].workers[w].gets[g].servedAt - ttl - load
    ensures states[i].workers[w].gets[g].val.version >= states[p].db
  {
    var get := states[i].workers[w].gets[g];
    CachedReadIsWithinTtl(states, steps, ttl, w, g, i);
    var f := StoredByALoad(states, steps, ttl, w, get.val, get.storedAt, i);
    var q := ReadStep(states, steps, ttl, w, steps[f].g, f);
    hide IsRun;
    assert states[f].now - states[q].now <= load;
    if q < p {
      TimeGoesOn(states, steps, ttl, q, p);
      assert false;
    } else {
      TimeGoesOn(states, steps, ttl, p, q);
    }
  }

  /** A cached value is served at `t` although the version of time `t - ttl` is newer. */
  predicate TooStale(states: seq<Sys>, ttl: int, w: Id, g: Id, i: nat, p: nat) {
    && i < |states| && p < |states| && Active(states[i], w, g)
    && var get := states[i].workers[w].gets[g];
       get.Returned? && get.cached && states[p].now <= get.servedAt - ttl && get.val.version < states[p].db
  }

  /** The docstring's promise: without any message a value is stale for at most one TTL. */
  ghost predicate StaleByTtlOnly(ttl: int, load: nat) {
    forall states: seq<Sys>, steps: seq<Step>, w, g, i: nat, p: nat ::
      IsRun(states, steps, ttl) && |states| == |steps| + 1 && PromptLoads(states, steps, load) ==> !TooStale(states, ttl, w, g, i, p)
  }

  lemma Extended(states: seq<Sys>, steps: seq<Step>, ttl: int, a: Step) returns (states': seq<Sys>, steps': seq<Step>)
    requires IsRun(states, steps, ttl) && Enabled(states[|steps|], a)
    ensures IsRun(states', steps', ttl) && steps' == steps + [a] && states' == states + [Apply(states[|steps|], a, ttl)]
  {
    hide Enabled, Apply, Init;
    states', steps' := states + [Apply(states[|steps|], a, ttl)], steps + [a];
    forall i | 0 <= i < |steps'|
      ensures Enabled(states'[i], steps'[i]) && states'[i + 1] == Apply(states'[i], steps'[i], ttl)
    {
      if i < |steps| {
        assert states'[i] == states[i] && states'[i + 1] == states[i + 1] && steps'[i] == steps[i];
      }
    }
  }

  const IDLE := Worker(Empty(), None, map[], -1, 0, {})

  /** Worker 0 has read version 0 and not finished its load when worker 1 commits version 1; the message reaches nobody. */
  lemma CommitBehindTheRead(ttl: int) returns (states: seq<Sys>, steps: seq<Step>)
    requires ttl >= 1
    ensures IsRun(states, steps, ttl) && |states| == |steps| + 1
    ensures steps == [Begin(0, 0), Acquire(0, 0), Read(0, 0), Commit(1), AfterCommit(1, 1, {})]
    ensures states[2].now == 0
    ensures var s := states[5];
            && s.now == 0 && s.db == 1 && 0 in s.workers && s.workers[0].local == Empty()
            && s.workers[0].gets == map[0 := Loading(-1, 0, 0, 1, 0, Some(0))]
  {
    states, steps := [Sys(0, 0, 0, map[0 := IDLE, 1 := IDLE], {}, {})], [];
    assert IsRun(states, steps, ttl);
    hide IsRun;
    states, steps := Extended(states, steps, ttl, Begin(0, 0));
    states, steps := Extended(states, steps, ttl, Acquire(0, 0));
    states, steps := Extended(states, steps, ttl, Read(0, 0));
    states, steps := Extended(states, steps, ttl, Commit(1));
    states, steps := Extended(states, steps, ttl, AfterCommit(1, 1, {}));
  }

  lemma SlowLoadExtendsStaleness(ttl: int, load: nat) returns (states: seq<Sys>, steps: seq<Step>)
    requires ttl >= 1 && load >= 1
    ensures IsRun(states, steps, ttl) && |states| == |steps| + 1 == 10 && PromptLoads(states, steps, load)
    ensures TooStale(states, ttl, 0, 1, 9, 5)
  {
    hide IsRun;
    states, steps := CommitBehindTheRead(ttl);
    states, steps := Extended(states, steps, ttl, Tick(load));
    states, steps := Extended(states, steps, ttl, Finish(0, 0));
    states, steps := Extended(states, steps, ttl, Tick(ttl - 1));
    states, steps := Extended(states, steps, ttl, Begin(0, 1));
  }

  /** One TTL bounds the staleness exactly when loads take no time. */
  lemma StaleByTtlOnlyIff(ttl: int, load: nat)
    requires ttl >= 1
    ensures StaleByTtlOnly(ttl, load) <==> load == 0
  {
    hide IsRun, PromptLoads;
    if load == 0 {
      forall states: seq<Sys>, steps: seq<Step>, w, g, i: nat, p: nat
        | IsRun(states, steps, ttl) && |states| == |steps| + 1 && PromptLoads(states, steps, load)
        ensures !TooStale(states, ttl, w, g, i, p)
      {
        if TooStale(states, ttl, w, g, i, p) {
          ServedVersionBound(states, steps, ttl, load, w, g, i, p);
          assert false;
        }
      }
    } else {
      var states, steps := SlowLoadExtendsStaleness(ttl, load);
      assert TooStale(states, ttl, 0, 1, 9, 5);
    }
  }
}
