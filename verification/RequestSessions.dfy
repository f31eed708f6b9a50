/**
  What "delayed until a successful commit" comes to in `get_db_session` of db/session.py, where
  the handler commits by itself: for each registration, how the transaction it was made in
  ended, and whether the action under its key is run.
 */
module RequestSessions {
  import opened Wrappers
  import opened SessionActions

  predicate Ends(op: Op) { op.Commit? || op.Rollback? }

  /** How the transaction of registration `i` ended: by the first commit or rollback behind it. */
  function OwnEnd(ops: seq<Op>, i: nat): Option<Op>
    requires i < |ops|
    decreases |ops| - i
  {
    if i + 1 == |ops| then None else if Ends(ops[i + 1]) then Some(ops[i + 1]) else OwnEnd(ops, i + 1)
  }

  predicate Registration(ops: seq<Op>, i: nat) { i < |ops| && ops[i].Act? }

  /** The action under the key of registration `i` is run. */
  predicate Published(ops: seq<Op>, handlerRaised: bool, i: nat)
    requires Registration(ops, i)
  {
    HasKey(Aftermath(ops, handlerRaised), ops[i].key)
  }

  predicate CommitBetween(ops: seq<Op>, i: nat, r: nat) { exists c :: i < c < r && c < |ops| && ops[c].Commit? }

  predicate RollbackBetween(ops: seq<Op>, i: nat, c: nat) { exists r :: i < r < c && r < |ops| && ops[r].Rollback? }

  predicate EndBehind(ops: seq<Op>, i: nat) { exists e :: i < e < |ops| && Ends(ops[e]) }

  /** A statement was executed behind the last commit or rollback. */
  predicate OpenAtExit(ops: seq<Op>) { exists u :: 0 <= u < |ops| && ops[u].Use? && !EndBehind(ops, u) }

  /** Registration `i` is followed by an end, and separated by a commit from every later rollback. */
  predicate CommitComesFirst(ops: seq<Op>, i: nat) {
    EndBehind(ops, i) && forall r: nat :: i < r < |ops| && ops[r].Rollback? ==> CommitBetween(ops, i, r)
  }

  /** Some commit lies behind registration `i`, with no rollback in between. */
  predicate ReachesCommit(ops: seq<Op>, i: nat) { exists c: nat :: i < c < |ops| && ops[c].Commit? && !RollbackBetween(ops, i, c) }

  lemma {:induction false} OpenAtExitIffLastTouch(ops: seq<Op>)
    ensures OpenAtExit(ops) <==> LastTouch(ops) == Some(Use)
  {
    if ops != [] {
      var last := |ops| - 1;
      var before := ops[..last];
      OpenAtExitIffLastTouch(before);
      if ops[last].Act? {
        forall u: nat | u < last ensures EndBehind(ops, u) <==> EndBehind(before, u) {
          if EndBehind(ops, u) {
            var e :| u < e < |ops| && Ends(ops[e]);
            assert Ends(before[e]);
          }
          if EndBehind(before, u) {
            var e :| u < e < |before| && Ends(before[e]);
            assert Ends(ops[e]);
          }
        }
        if OpenAtExit(before) {
          var u :| 0 <= u < |before| && before[u].Use? && !EndBehind(before, u);
          assert ops[u].Use?;
        }
        if OpenAtExit(ops) {
          var u :| 0 <= u < |ops| && ops[u].Use? && !EndBehind(ops, u);
          assert before[u].Use?;
        }
      } else if ops[last].Use? {
        assert !EndBehind(ops, last);
      } else {
        forall u: nat | u < |ops| && ops[u].Use? ensures EndBehind(ops, u) {
          assert Ends(ops[last]);
        }
      }
    }
  }

  /** The transaction of `i` was committed exactly when a commit comes before any later rollback. */
  lemma {:induction false} CommittedIff(ops: seq<Op>, i: nat)
    requires i < |ops|
    ensures OwnEnd(ops, i) == Some(Commit) <==> CommitComesFirst(ops, i)
    ensures OwnEnd(ops, i) == Some(Commit) <==> ReachesCommit(ops, i)
    decreases |ops| - i
  {
    if i + 1 < |ops| {
      var n := i + 1;
      if ops[n].Commit? {
        assert Ends(ops[n]) && !RollbackBetween(ops, i, n);
        forall r: nat | i < r < |ops| && ops[r].Rollback? ensures CommitBetween(ops, i, r) {
          assert ops[n].Commit?;
        }
      } else if ops[n].Rollback? {
        assert !CommitBetween(ops, i, n);
        forall c: nat | i < c < |ops| && ops[c].Commit? ensures RollbackBetween(ops, i, c) {
          assert ops[n].Rollback?;
        }
      } else {
        CommittedIff(ops, n);
        SkipOne(ops, i);
      }
    }
  }

  /** An operation that ends nothing can be skipped. */
  lemma SkipOne(ops: seq<Op>, i: nat)
    requires i + 1 < |ops| && !Ends(ops[i + 1])
    ensures EndBehind(ops, i) <==> EndBehind(ops, i + 1)
    ensures forall r: nat :: r > i + 1 ==> (CommitBetween(ops, i, r) <==> CommitBetween(ops, i + 1, r))
    ensures forall c: nat :: c > i + 1 ==> (RollbackBetween(ops, i, c) <==> RollbackBetween(ops, i + 1, c))
  {
  }

  lemma {:induction false} RegistrationIsActed(ops: seq<Op>, i: nat)
    requires Registration(ops, i)
    ensures LastAction(Acts(ops), ops[i].key).Some?
  {
    var last := |ops| - 1;
    var before := Acts(ops[..last]);
    if i < last {
      RegistrationIsActed(ops[..last], i);
      if ops[last].Act? {
        assert Acts(ops)[..|before|] == before;
      } else {
        assert before + [] == before;
      }
    }
  }

  lemma PublishedIff(ops: seq<Op>, handlerRaised: bool, i: nat)
    requires Registration(ops, i)
    ensures Published(ops, handlerRaised, i) <==> !handlerRaised && !OpenAtExit(ops)
  {
    OpenAtExitIffLastTouch(ops);
    RegistrationIsActed(ops, i);
    OneActionPerKey(Acts(ops));
  }

  /** Nothing is published for work that was not committed, exactly when nothing is published at all, or every registration is
      followed by an end and separated by a commit from every later rollback. */
  lemma OnlyCommittedPublishedIff(ops: seq<Op>, handlerRaised: bool)
    ensures (forall i: nat :: Registration(ops, i) && Published(ops, handlerRaised, i) ==> OwnEnd(ops, i) == Some(Commit)) <==>
            || handlerRaised || OpenAtExit(ops)
            || forall i: nat :: Registration(ops, i) ==> CommitComesFirst(ops, i)
  {
    forall i: nat | Registration(ops, i)
      ensures Published(ops, handlerRaised, i) <==> !handlerRaised && !OpenAtExit(ops)
      ensures OwnEnd(ops, i) == Some(Commit) <==> CommitComesFirst(ops, i)
    {
      PublishedIff(ops, handlerRaised, i);
      CommittedIff(ops, i);
    }
  }

  /** No committed registration is dropped, exactly when the handler returned and executed nothing behind its last end, or no
      registration has a commit behind it before the next rollback. */
  lemma NoCommittedDroppedIff(ops: seq<Op>, handlerRaised: bool)
    ensures (forall i: nat :: Registration(ops, i) && OwnEnd(ops, i) == Some(Commit) ==> Published(ops, handlerRaised, i)) <==>
            || (!handlerRaised && !OpenAtExit(ops))
            || forall i: nat :: Registration(ops, i) ==> !ReachesCommit(ops, i)
  {
    forall i: nat | Registration(ops, i)
      ensures Published(ops, handlerRaised, i) <==> !handlerRaised && !OpenAtExit(ops)
      ensures OwnEnd(ops, i) == Some(Commit) <==> ReachesCommit(ops, i)
    {
      PublishedIff(ops, handlerRaised, i);
      CommittedIff(ops, i);
    }
  }

  /** Handlers that return and yet publish rolled-back work: rolled back last, or something else committed later. */
  lemma RolledBackWorkIsPublished(key: string, action: nat)
    ensures var ops := [Use, Act(key, action), Rollback];
            Published(ops, false, 1) && OwnEnd(ops, 1) == Some(Rollback)
    ensures var ops := [Use, Act(key, action), Rollback, Use, Commit];
            Published(ops, false, 1) && OwnEnd(ops, 1) == Some(Rollback)
  {
    var short, long := [Use, Act(key, action), Rollback], [Use, Act(key, action), Rollback, Use, Commit];
    PublishedIff(short, false, 1);
    PublishedIff(long, false, 1);
    assert Ends(short[2]) && Ends(long[4]);
  }

  /** Handlers that return and yet drop committed work: a read behind the commit, or another transaction left open. */
  lemma CommittedWorkIsDropped(key: string, action: nat)
    ensures var ops := [Use, Act(key, action), Commit, Use];
            !Published(ops, false, 1) && OwnEnd(ops, 1) == Some(Commit)
    ensures var ops := [Use, Act(key, action), Commit, Use, Rollback, Use];
            !Published(ops, false, 1) && OwnEnd(ops, 1) == Some(Commit)
  {
    var short, long := [Use, Act(key, action), Commit, Use], [Use, Act(key, action), Commit, Use, Rollback, Use];
    PublishedIff(short, false, 1);
    PublishedIff(long, false, 1);
    assert !EndBehind(short, 3) && !EndBehind(long, 5);
  }
}
