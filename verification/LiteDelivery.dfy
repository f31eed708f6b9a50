/**
  lite/app.py: one pass of the delivery loop over the outbox.
 */
module LiteDelivery {
  import opened Wrappers
  import opened LiteStore

  const LIMIT: nat := 20

  /** How one send ended, and when its row was marked. */
  datatype Attempt = Attempt(ok: bool, at: real)

  function Marked(d: Delivery, a: Attempt, backoff: real): Delivery {
    if a.ok then AfterSent(d) else AfterFailed(d, a.at, backoff)
  }

  /** The outbox after the rows `ids` were attempted in order. */
  function Delivered(outbox: seq<Delivery>, ids: seq<nat>, attempts: seq<Attempt>, backoff: real): seq<Delivery>
    requires |ids| <= |attempts| && forall k :: 0 <= k < |ids| ==> 1 <= ids[k] <= |outbox|
    decreases |ids|
  {
    if ids == [] then outbox
    else Delivered(outbox[ids[0] - 1 := Marked(outbox[ids[0] - 1], attempts[0], backoff)], ids[1..], attempts[1..], backoff)
  }

  function Due(outbox: seq<Delivery>, now: real): (ids: seq<nat>)
    ensures forall k :: 0 <= k < |ids| ==> 1 <= ids[k] <= |outbox|
  {
    DueDeliveries(outbox, now, LIMIT, 0)
  }

  /** `_deliver_once`; `attempts` is what the sends and the clock will do. */
  method DeliverOnce(store: Store, now: real, attempts: seq<Attempt>, backoff: real)
    requires |Due(store.outbox, now)| <= |attempts|
    modifies store
    ensures store.View() ==
            old(store.View()).(outbox := Delivered(old(store.outbox), Due(old(store.outbox), now), attempts, backoff))
    ensures |store.outbox| == |old(store.outbox)| && AllDueAttempted(old(store.outbox), now, store.outbox)
  {
    hide Due, AllDueAttempted, Delivered;
    AllDueRowsAttempted(store.outbox, now, attempts, backoff);
    DeliverRows(store, Due(store.outbox, now), attempts, backoff);
  }

  /** The loop over the due rows. */
  method DeliverRows(store: Store, ids: seq<nat>, attempts: seq<Attempt>, backoff: real)
    requires |ids| <= |attempts| && forall k :: 0 <= k < |ids| ==> 1 <= ids[k] <= |store.outbox|
    modifies store
    ensures store.View() == old(store.View()).(outbox := Delivered(old(store.outbox), ids, attempts, backoff))
  {
    var i := 0;
    assert ids[0..] == ids && attempts[0..] == attempts;
    while i < |ids|
      invariant 0 <= i <= |ids|
      invariant store.View() == old(store.View()).(outbox := store.outbox) && |store.outbox| == |old(store.outbox)|
      invariant Delivered(old(store.outbox), ids, attempts, backoff) ==
                Delivered(store.outbox, ids[i..], attempts[i..], backoff)
    {
      assert ids[i..][1..] == ids[i + 1..] && attempts[i..][1..] == attempts[i + 1..];
      if !attempts[i].ok {
        var _ := store.MarkFailed(ids[i], attempts[i].at, backoff);
      } else {
        store.MarkSent(ids[i]);
      }
      i := i + 1;
    }
    assert ids[i..] == [];
  }

  // ---- which rows a pass attempts, and what becomes of them ------------------------------------------------

  /** How many rows from index `i` up to `j` are due. */
  function DueBetween(outbox: seq<Delivery>, now: real, i: nat, j: nat): nat
    requires i <= j <= |outbox|
    decreases j - i
  {
    if i == j then 0 else (if LiteStore.Due(outbox[i], now) then 1 else 0) + DueBetween(outbox, now, i + 1, j)
  }

  lemma {:induction false} DueRowFound(outbox: seq<Delivery>, now: real, limit: nat, i: nat, j: nat)
    requires i <= j < |outbox| && LiteStore.Due(outbox[j], now) && DueBetween(outbox, now, i, j) < limit
    ensures j + 1 in DueDeliveries(outbox, now, limit, i)
    decreases j - i
  {
    if i < j {
      DueRowFound(outbox, now, if LiteStore.Due(outbox[i], now) then limit - 1 else limit, i + 1, j);
    }
  }

  /** A pass takes exactly the due rows with fewer than twenty due rows before them. */
  lemma PassTakesIff(outbox: seq<Delivery>, now: real, j: nat)
    requires j < |outbox|
    ensures j + 1 in Due(outbox, now) <==> LiteStore.Due(outbox[j], now) && DueBetween(outbox, now, 0, j) < 20
  {
    if LiteStore.Due(outbox[j], now) && DueBetween(outbox, now, 0, j) < 20 {
      DueRowFound(outbox, now, LIMIT, 0, j);
    } else if LiteStore.Due(outbox[j], now) {
      TakenIsEarly(outbox, now, LIMIT, 0, j);
    }
  }

  lemma {:induction false} TakenIsEarly(outbox: seq<Delivery>, now: real, limit: nat, i: nat, j: nat)
    requires i <= j < |outbox| && DueBetween(outbox, now, i, j) >= limit
    ensures j + 1 !in DueDeliveries(outbox, now, limit, i)
    decreases j - i
  {
    if i < j && limit > 0 {
      TakenIsEarly(outbox, now, if LiteStore.Due(outbox[i], now) then limit - 1 else limit, i + 1, j);
    }
  }

  /** The `k`-th row taken counts one more attempt: sent if the send succeeded, otherwise exhausted if that was its last
      attempt, or due again a backoff later.  Rows that were not taken stay as they were. */
  lemma {:induction false} PassMarks(outbox: seq<Delivery>, ids: seq<nat>, attempts: seq<Attempt>, backoff: real)
    requires |ids| <= |attempts| && Increasing(ids) && forall k :: 0 <= k < |ids| ==> 1 <= ids[k] <= |outbox|
    ensures var after := Delivered(outbox, ids, attempts, backoff);
            && |after| == |outbox|
            && (forall k :: 0 <= k < |ids| ==> MarkedRight(outbox[ids[k] - 1], attempts[k], backoff, after[ids[k] - 1]))
            && (forall j :: 0 <= j < |outbox| && j + 1 !in ids ==> after[j] == outbox[j])
    decreases |ids|
  {
    hide Marked, MarkedRight;
    if ids != [] {
      MarkIsRight(outbox[ids[0] - 1], attempts[0], backoff);
      var i := ids[0] - 1;
      var next := outbox[i := Marked(outbox[i], attempts[0], backoff)];
      PassMarks(next, ids[1..], attempts[1..], backoff);
      var after := Delivered(outbox, ids, attempts, backoff);
      assert i + 1 !in ids[1..];
      forall k | 0 <= k < |ids| ensures MarkedRight(outbox[ids[k] - 1], attempts[k], backoff, after[ids[k] - 1]) {
        if k > 0 {
          assert ids[1..][k - 1] == ids[k] && attempts[1..][k - 1] == attempts[k] && ids[0] < ids[k];
        }
      }
      forall j | 0 <= j < |outbox| && j + 1 !in ids ensures after[j] == outbox[j] {
        assert j + 1 !in ids[1..] && j + 1 != ids[0];
      }
    }
  }

  lemma MarkIsRight(d: Delivery, a: Attempt, backoff: real)
    ensures MarkedRight(d, a, backoff, Marked(d, a, backoff))
  {
  }

  predicate MarkedRight(d: Delivery, a: Attempt, backoff: real, e: Delivery) {
    && e.attempts == d.attempts + 1 && e.maxAttempts == d.maxAttempts
    && e.eventId == d.eventId && e.ruleName == d.ruleName && e.url == d.url
    && (e.status == Sent <==> a.ok)
    && (e.status == Exhausted <==> !a.ok && d.attempts + 1 >= d.maxAttempts)
    && (!a.ok ==> e.nextAttemptAt == a.at + backoff)
  }

  /** Every due row with fewer than twenty due rows before it has one more attempt. */
  predicate AllDueAttempted(before: seq<Delivery>, now: real, after: seq<Delivery>)
    requires |before| == |after|
  {
    forall j :: 0 <= j < |before| && LiteStore.Due(before[j], now) && DueBetween(before, now, 0, j) < 20 ==>
      after[j].attempts == before[j].attempts + 1
  }

  lemma AllDueRowsAttempted(outbox: seq<Delivery>, now: real, attempts: seq<Attempt>, backoff: real)
    requires |Due(outbox, now)| <= |attempts|
    ensures var after := Delivered(outbox, Due(outbox, now), attempts, backoff);
            |after| == |outbox| && AllDueAttempted(outbox, now, after)
  {
    var ids := Due(outbox, now);
    PassMarks(outbox, ids, attempts, backoff);
    hide Due, Delivered;
    var after := Delivered(outbox, ids, attempts, backoff);
    forall j | 0 <= j < |outbox| && LiteStore.Due(outbox[j], now) && DueBetween(outbox, now, 0, j) < 20
      ensures after[j].attempts == outbox[j].attempts + 1
    {
      PassTakesIff(outbox, now, j);
      var k :| 0 <= k < |ids| && ids[k] == j + 1;
      assert MarkedRight(outbox[ids[k] - 1], attempts[k], backoff, after[ids[k] - 1]);
    }
  }

  /** A row is put into the outbox with four attempts, due at once, for the rule's name and address. */
  lemma FreshRowIsDue(eventId: nat, r: Rule, now: real)
    ensures var d := LiteStore.Fresh(eventId, r, now);
            LiteStore.Due(d, now) && d.attempts == 0 && d.maxAttempts == 4 && d.eventId == eventId && d.ruleName == r.name && d.url == r.url
  {
  }

  // ---- what every pass keeps --------------------------------------------------------------------------

  /** At least `backoff` between one failure and the next. */
  predicate Spaced(times: seq<real>, backoff: real) {
    forall i :: 0 < i < |times| ==> times[i] - times[i - 1] >= backoff
  }

  predicate RowOk(d: Delivery, backoff: real) {
    && d.maxAttempts >= 1 && Spaced(d.failures, backoff)
    && match d.status
       case Pending => |d.failures| == d.attempts < d.maxAttempts &&
                       (d.failures != [] ==> d.nextAttemptAt == d.failures[|d.failures| - 1] + backoff)
       case Exhausted => |d.failures| == d.attempts == d.maxAttempts
       case Sent => |d.failures| + 1 == d.attempts <= d.maxAttempts
  }

  predicate OutboxOk(outbox: seq<Delivery>, backoff: real) { forall i :: 0 <= i < |outbox| ==> RowOk(outbox[i], backoff) }

  /** The attempts a pending row still has. */
  function Budget(d: Delivery): nat {
    if d.status == Pending && d.attempts < d.maxAttempts then d.maxAttempts - d.attempts else 0
  }

  function Budgets(outbox: seq<Delivery>): nat {
    if outbox == [] then 0 else Budget(outbox[0]) + Budgets(outbox[1..])
  }

  lemma {:induction false} BudgetsUpdate(outbox: seq<Delivery>, i: nat, d: Delivery)
    requires i < |outbox|
    ensures Budgets(outbox[i := d]) + Budget(outbox[i]) == Budgets(outbox) + Budget(d)
  {
    if i == 0 {
      assert outbox[0 := d][1..] == outbox[1..];
    } else {
      assert outbox[i := d][1..] == outbox[1..][i - 1 := d];
      BudgetsUpdate(outbox[1..], i - 1, d);
    }
  }

  predicate Increasing(ids: seq<nat>) { forall j, k :: 0 <= j < k < |ids| ==> ids[j] < ids[k] }

  /** Attempting a due row keeps it in order, ends it or spends one of its attempts. */
  lemma MarkKeepsRowOk(d: Delivery, now: real, a: Attempt, backoff: real)
    requires RowOk(d, backoff) && LiteStore.Due(d, now) && now <= a.at
    ensures RowOk(Marked(d, a, backoff), backoff) && Budget(Marked(d, a, backoff)) < Budget(d)
    ensures Marked(d, a, backoff).eventId == d.eventId && Marked(d, a, backoff).ruleName == d.ruleName
    ensures Marked(d, a, backoff).maxAttempts == d.maxAttempts
  {
    var f := d.failures + [a.at];
    assert forall i :: 0 < i < |f| ==> f[i] - f[i - 1] >= backoff;
  }

  /** What a pass may do to the outbox. */
  predicate Advances(before: seq<Delivery>, after: seq<Delivery>) {
    && |before| == |after|
    && forall i :: 0 <= i < |before| ==>
         && after[i].eventId == before[i].eventId && after[i].ruleName == before[i].ruleName
         && after[i].maxAttempts == before[i].maxAttempts
         && (before[i].status != Pending ==> after[i] == before[i])
  }

  /** A pass keeps every row in order, conserves rows, leaves finished rows alone, and spends at
      least one attempt for each row it tried. */
  lemma {:induction false} DeliveredKeepsOutbox(outbox: seq<Delivery>, ids: seq<nat>, now: real, attempts: seq<Attempt>, backoff: real)
    requires OutboxOk(outbox, backoff) && |ids| <= |attempts| && Increasing(ids)
    requires forall k :: 0 <= k < |ids| ==> 1 <= ids[k] <= |outbox| && LiteStore.Due(outbox[ids[k] - 1], now)
    requires forall k :: 0 <= k < |ids| ==> now <= attempts[k].at
    ensures var after := Delivered(outbox, ids, attempts, backoff);
            OutboxOk(after, backoff) && Advances(outbox, after) && Budgets(after) + |ids| <= Budgets(outbox)
    decreases |ids|
  {
    hide RowOk, Marked, Budgets;
    if ids != [] {
      var i := ids[0] - 1;
      var d := Marked(outbox[i], attempts[0], backoff);
      MarkKeepsRowOk(outbox[i], now, attempts[0], backoff);
      BudgetsUpdate(outbox, i, d);
      DeliveredKeepsOutbox(outbox[i := d], ids[1..], now, attempts[1..], backoff);
    }
  }
}
