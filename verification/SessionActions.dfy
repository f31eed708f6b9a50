/**
  db/session.py: after-commit actions, kept in `session.info` under their key, and the
  transaction skeletons of `session_scope` and `get_db_session`.
 */
module SessionActions {
  import opened Wrappers

  /** An insertion-ordered dictionary from key to action. */
  type Actions = seq<(string, nat)>

  predicate HasKey(a: Actions, key: string) { exists i :: 0 <= i < |a| && a[i].0 == key }

  /** `actions[key] = action` */
  function Put(a: Actions, key: string, action: nat): Actions {
    if a == [] then [(key, action)]
    else if a[0].0 == key then [(key, action)] + a[1..]
    else [a[0]] + Put(a[1..], key, action)
  }

  predicate OncePerKey(a: Actions) { forall i, j :: 0 <= i < j < |a| ==> a[i].0 != a[j].0 }

  /** The dictionary after a sequence of registrations. */
  function RegisteredOn(a: Actions, ops: Actions): Actions
    decreases |ops|
  {
    if ops == [] then a else var last := |ops| - 1; Put(RegisteredOn(a, ops[..last]), ops[last].0, ops[last].1)
  }

  function Registered(ops: Actions): Actions { RegisteredOn([], ops) }

  datatype Event = Committed | Ran(action: nat)

  /** Which actions raise. */
  type Faults = nat -> bool

  /** The actions run in order, up to and including the first that raises. */
  function RanAll(a: Actions, raises: Faults): seq<Event> {
    if a == [] then []
    else if raises(a[0].1) then [Ran(a[0].1)]
    else [Ran(a[0].1)] + RanAll(a[1..], raises)
  }

  predicate SomeRaises(a: Actions, raises: Faults) { exists i :: 0 <= i < |a| && raises(a[i].1) }

  /** Without a raising action each one runs once, in order. */
  lemma {:induction false} AllRunOnce(a: Actions, raises: Faults)
    requires !SomeRaises(a, raises)
    ensures |RanAll(a, raises)| == |a| && forall i :: 0 <= i < |a| ==> RanAll(a, raises)[i] == Ran(a[i].1)
  {
    if a != [] {
      assert !raises(a[0].1);
      assert forall i :: 0 <= i < |a[1..]| ==> a[1..][i] == a[i + 1];
      AllRunOnce(a[1..], raises);
    }
  }

  /** With a raising action: exactly the actions up to and including the first that raises are run, in order. */
  lemma {:induction false} RunsUpToFirstRaise(a: Actions, raises: Faults, n: nat)
    requires n < |a| && raises(a[n].1) && forall i :: 0 <= i < n ==> !raises(a[i].1)
    ensures |RanAll(a, raises)| == n + 1 && forall i :: 0 <= i <= n ==> RanAll(a, raises)[i] == Ran(a[i].1)
  {
    if n > 0 {
      assert !raises(a[0].1);
      assert forall i :: 0 <= i < |a[1..]| ==> a[1..][i] == a[i + 1];
      RunsUpToFirstRaise(a[1..], raises, n - 1);
    }
  }

  /** How the body and the commit of a transaction end. */
  datatype Outcome = BodyRaised | CommitRaised | CommitReturned

  class Session {
    var actions: Actions
    var log: seq<Event>
    var inTransaction: bool

    constructor ()
      ensures actions == [] && log == [] && !inTransaction
    {
      actions, log, inTransaction := [], [], false;
    }

    /** `register_after_commit_action`: a known key keeps its place and gets the new action, a new one goes last. */
    method Register(key: string, action: nat)
      requires OncePerKey(actions)
      modifies this`actions
      ensures OncePerKey(actions) && actions == Put(old(actions), key, action)
      ensures |actions| == |old(actions)| + if HasKey(old(actions), key) then 0 else 1
      ensures forall i :: 0 <= i < |old(actions)| ==> actions[i] == if old(actions)[i].0 == key then (key, action) else old(actions)[i]
      ensures !HasKey(old(actions), key) ==> actions[|actions| - 1] == (key, action)
    {
      PutShape(actions, key, action);
      PutOnce(actions, key, action);
      actions := Put(actions, key, action);
    }

    /** `_discard_after_commit_actions` */
    method Discard()
      modifies this`actions
      ensures actions == []
    {
      actions := [];
    }

    /** `_run_after_commit_actions`: the dictionary is popped first, so an action that raises takes the rest with it. */
    method RunAfterCommit(raises: Faults) returns (raised: bool)
      modifies this`actions, this`log
      ensures actions == [] && log == old(log) + RanAll(old(actions), raises)
      ensures raised <==> SomeRaises(old(actions), raises)
    {
      var popped := actions;
      actions := [];
      assert popped[0..] == popped;
      for i := 0 to |popped|
        invariant actions == [] && log + RanAll(popped[i..], raises) == old(log) + RanAll(popped, raises)
        invariant forall j :: 0 <= j < i ==> !raises(popped[j].1)
      {
        assert popped[i..][1..] == popped[i + 1..];
        log := log + [Ran(popped[i].1)];
        if raises(popped[i].1) {
          return true;
        }
      }
      assert popped[|popped|..] == [];
      return false;
    }
  }

  /** The body of a scope makes registrations. */
  method RunBody(session: Session, ops: Actions)
    requires OncePerKey(session.actions)
    modifies session`actions
    ensures OncePerKey(session.actions) && session.actions == RegisteredOn(old(session.actions), ops)
  {
    for i := 0 to |ops|
      invariant OncePerKey(session.actions) && session.actions == RegisteredOn(old(session.actions), ops[..i])
    {
      assert ops[..i + 1][..i] == ops[..i];
      session.Register(ops[i].0, ops[i].1);
    }
    assert ops[..|ops|] == ops;
  }

  /** `session_scope` with an existing session: its owner commits, and nothing is run or discarded here. */
  method NestedScope(session: Session, ops: Actions)
    requires OncePerKey(session.actions)
    modifies session`actions
    ensures OncePerKey(session.actions) && session.actions == RegisteredOn(old(session.actions), ops)
  {
    RunBody(session, ops);
  }

  /** `session_scope` without an existing session: the body makes registrations, then the block ends. */
  method SessionScope(ops: Actions, outcome: Outcome, raises: Faults) returns (session: Session, raised: bool)
    ensures outcome.CommitReturned? ==> session.log == [Committed] + RanAll(Registered(ops), raises)
    ensures !outcome.CommitReturned? ==> session.log == []
    ensures raised <==> !outcome.CommitReturned? || SomeRaises(Registered(ops), raises)
  {
    session := new Session();
    RunBody(session, ops);
    match outcome {
      case BodyRaised =>
        session.Discard();
        return session, true;
      case CommitRaised =>
        return session, true;
      case CommitReturned =>
        session.log := session.log + [Committed];
        raised := session.RunAfterCommit(raises);
    }
  }

  // ---- the request session -------------------------------------------------------------------

  /** What a request handler does with its session: `Use` is any statement, which opens a transaction. */
  datatype Op = Act(key: string, action: nat) | Use | Commit | Rollback

  /** The registrations among the operations. */
  function Acts(ops: seq<Op>): Actions
    decreases |ops|
  {
    if ops == [] then []
    else var last := |ops| - 1; Acts(ops[..last]) + if ops[last].Act? then [(ops[last].key, ops[last].action)] else []
  }

  function Commits(ops: seq<Op>): seq<Event>
    decreases |ops|
  {
    if ops == [] then [] else var last := |ops| - 1; Commits(ops[..last]) + if ops[last].Commit? then [Committed] else []
  }

  /** The last operation that opened or ended a transaction. */
  function LastTouch(ops: seq<Op>): Option<Op>
    decreases |ops|
  {
    if ops == [] then None
    else var last := |ops| - 1; if ops[last].Act? then LastTouch(ops[..last]) else Some(ops[last])
  }

  /** The actions that are run in the end: none after an error or with a transaction left open. */
  function Aftermath(ops: seq<Op>, handlerRaised: bool): Actions {
    if handlerRaised || LastTouch(ops) == Some(Use) then [] else Registered(Acts(ops))
  }

  lemma OneMoreAct(ops: seq<Op>, i: nat)
    requires i < |ops|
    ensures var before := Registered(Acts(ops[..i]));
            Registered(Acts(ops[..i + 1])) == if ops[i].Act? then Put(before, ops[i].key, ops[i].action) else before
  {
    assert ops[..i + 1][..i] == ops[..i];
    var acts := Acts(ops[..i]);
    assert acts + [] == acts;
    if ops[i].Act? {
      assert (acts + [(ops[i].key, ops[i].action)])[..|acts|] == acts;
    }
  }

  /** The handler at work on its session. */
  method Handle(ops: seq<Op>) returns (session: Session)
    ensures fresh(session) && session.actions == Registered(Acts(ops)) && session.log == Commits(ops)
    ensures session.inTransaction <==> LastTouch(ops) == Some(Use)
  {
    hide Registered, Put;
    session := new Session();
    NothingRegistered();
    for i := 0 to |ops|
      invariant fresh(session) && OncePerKey(session.actions) && session.actions == Registered(Acts(ops[..i]))
      invariant session.log == Commits(ops[..i]) && (session.inTransaction <==> LastTouch(ops[..i]) == Some(Use))
    {
      assert ops[..i + 1][..i] == ops[..i];
      OneMoreAct(ops, i);
      match ops[i] {
        case Act(key, action) =>
          session.Register(key, action);
        case Use =>
          session.inTransaction := true;
        case Commit =>
          session.inTransaction := false;
          session.log := session.log + [Committed];
        case Rollback =>
          session.inTransaction := false;
      }
    }
    assert ops[..|ops|] == ops;
  }

  lemma NothingRegistered()
    ensures Registered([]) == []
  {
  }

  /** `get_db_session`: the actions run exactly when the handler returned and left no transaction open. */
  method GetDbSession(ops: seq<Op>, handlerRaised: bool, raises: Faults) returns (session: Session, raised: bool)
    ensures session.inTransaction <==> LastTouch(ops) == Some(Use)
    ensures session.log == Commits(ops) + RanAll(Aftermath(ops, handlerRaised), raises)
    ensures session.actions == []
    ensures raised <==> handlerRaised || SomeRaises(Aftermath(ops, handlerRaised), raises)
  {
    hide Registered, Commits, Acts, LastTouch;
    session := Handle(ops);
    raised := handlerRaised;
    if handlerRaised || session.inTransaction {
      session.Discard();
    } else {
      raised := session.RunAfterCommit(raises);
    }
  }

  // ---- one action per key: the last one registered --------------------------------------------

  lemma {:induction false} PutLookup(a: Actions, key: string, action: nat, i: nat)
    requires OncePerKey(a) && i < |Put(a, key, action)|
    ensures var p := Put(a, key, action);
            if p[i].0 == key then p[i].1 == action else i < |a| && p[i] == a[i]
    ensures i < |a| ==> Put(a, key, action)[i].0 == a[i].0
    ensures |a| <= |Put(a, key, action)| <= |a| + 1 && (|Put(a, key, action)| == |a| <==> HasKey(a, key))
  {
    if a != [] && a[0].0 != key {
      if i > 0 {
        PutLookup(a[1..], key, action, i - 1);
      } else {
        PutLookup(a[1..], key, action, 0);
      }
      assert HasKey(a, key) <==> HasKey(a[1..], key) by {
        if HasKey(a, key) {
          var j :| 0 <= j < |a| && a[j].0 == key;
          assert a[1..][j - 1].0 == key;
        }
        if HasKey(a[1..], key) {
          var j :| 0 <= j < |a[1..]| && a[1..][j].0 == key;
          assert a[j + 1].0 == key;
        }
      }
    } else if a != [] {
      assert a[0].0 == key;
    }
  }

  lemma PutShape(a: Actions, key: string, action: nat)
    requires OncePerKey(a)
    ensures var p := Put(a, key, action);
            && |p| == |a| + (if HasKey(a, key) then 0 else 1)
            && (forall i :: 0 <= i < |a| ==> p[i] == if a[i].0 == key then (key, action) else a[i])
            && (!HasKey(a, key) ==> p[|p| - 1] == (key, action))
  {
    var p := Put(a, key, action);
    PutSize(a, key, action);
    forall i | 0 <= i < |a| ensures p[i] == if a[i].0 == key then (key, action) else a[i] {
      PutLookup(a, key, action, i);
    }
    if !HasKey(a, key) {
      PutHasKey(a, key, action, key);
      var i :| 0 <= i < |p| && p[i].0 == key;
      PutLookup(a, key, action, i);
      assert forall k :: 0 <= k < |a| ==> a[k].0 != key;
    }
  }

  lemma PutSize(a: Actions, key: string, action: nat)
    requires OncePerKey(a)
    ensures |Put(a, key, action)| == |a| + (if HasKey(a, key) then 0 else 1)
  {
    assert |Put(a, key, action)| > 0;
    PutLookup(a, key, action, 0);
  }

  lemma PutOnce(a: Actions, key: string, action: nat)
    requires OncePerKey(a)
    ensures OncePerKey(Put(a, key, action))
  {
    var p := Put(a, key, action);
    forall i, j | 0 <= i < j < |p|
      ensures p[i].0 != p[j].0
    {
      PutLookup(a, key, action, i);
      PutLookup(a, key, action, j);
    }
  }

  /** The last action registered under `key`. */
  function LastAction(ops: Actions, key: string): Option<nat> {
    if ops == [] then None
    else
      var last := |ops| - 1;
      if ops[last].0 == key then Some(ops[last].1) else LastAction(ops[..last], key)
  }

  /** After any registrations, each key that was registered holds one action, the last one, and no other key does. */
  lemma {:induction false} OneActionPerKey(ops: Actions)
    ensures OncePerKey(Registered(ops))
    ensures forall i :: 0 <= i < |Registered(ops)| ==> LastAction(ops, Registered(ops)[i].0) == Some(Registered(ops)[i].1)
    ensures forall key :: LastAction(ops, key).Some? ==> HasKey(Registered(ops), key)
  {
    if ops != [] {
      var last := |ops| - 1;
      var (key, action) := ops[last];
      var a := Registered(ops[..last]);
      OneActionPerKey(ops[..last]);
      PutOnce(a, key, action);
      var p := Put(a, key, action);
      forall i | 0 <= i < |p|
        ensures LastAction(ops, p[i].0) == Some(p[i].1)
      {
        PutLookup(a, key, action, i);
      }
      forall k | LastAction(ops, k).Some?
        ensures HasKey(p, k)
      {
        PutHasKey(a, key, action, k);
      }
    }
  }

  lemma {:induction false} PutHasKey(a: Actions, key: string, action: nat, k: string)
    requires k == key || HasKey(a, k)
    ensures HasKey(Put(a, key, action), k)
  {
    var p := Put(a, key, action);
    if a == [] || a[0].0 == k {
      assert p[0].0 == k;
    } else if a[0].0 == key {
      var j :| 0 <= j < |a| && a[j].0 == k;
      assert p[j].0 == k;
    } else {
      if k != key {
        var j :| 0 <= j < |a| && a[j].0 == k;
        assert a[1..][j - 1].0 == k;
      }
      PutHasKey(a[1..], key, action, k);
      var i :| 0 <= i < |Put(a[1..], key, action)| && Put(a[1..], key, action)[i].0 == k;
      assert p[i + 1].0 == k;
    }
  }
}
