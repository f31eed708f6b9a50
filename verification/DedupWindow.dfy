/**
  services/dedup.py with dedup_remember.lua: the dedup chain of one key.  One event is
  resolved and remembered before the next one is resolved, because the processing gate
  serialises a key; `delay` bounds the time from resolving to the last write.
 */
module DedupWindow {
  import opened Wrappers

  /** `DEDUP_WINDOW_SECONDS`, `ANALYSIS_REUSE_WINDOW_SECONDS`, and the longest processing time. */
  datatype Config = Config(window: nat, reuse: int, delay: real)

  /** A positive window, and processing that is over before the window is. */
  predicate GoodConfig(c: Config) { c.window > 0 && 0.0 <= c.delay < c.window as real }

  function Window(c: Config): real { c.window as real }

  /** The Redis payload and when the key expires. */
  datatype Chain = Chain(first: real, last: real, count: nat, reusable: bool, expires: real)

  /** A non-duplicate `WebhookEvent` row. */
  datatype Row = Row(at: real, reusable: bool)

  datatype State = State(now: real, chain: Option<Chain>, rows: seq<Row>)

  datatype Action = New | Reuse | DbReuse | Rechain

  datatype Resolution = Resolution(action: Action, reset: bool)

  /** The key as a read sees it. */
  function Stored(chain: Option<Chain>, now: real): Option<Chain> {
    if chain.Some? && now < chain.value.expires then chain else None
  }

  /** `max(60, 2 * window)` seconds */
  function Ttl(c: Config): real { if 2 * c.window < 60 then 60.0 else (2 * c.window) as real }

  /** dedup_remember.lua */
  function Remember(c: Config, chain: Option<Chain>, now: real, reset: bool, reusable: bool): Chain {
    var raw := Stored(chain, now);
    if raw.Some? && !reset then Chain(raw.value.first, now, raw.value.count + 1, reusable, now + Ttl(c))
    else Chain(now, now, 1, reusable, now + Ttl(c))
  }

  /** `_find_original_by_dedup_key`: the newest row from the window on. */
  function FindOriginal(rows: seq<Row>, from: real): (r: Option<Row>)
    ensures r.Some? ==> r.value in rows && r.value.at >= from
    ensures r.None? ==> forall i :: 0 <= i < |rows| ==> rows[i].at < from
    ensures r.Some? ==> forall i :: 0 <= i < |rows| ==> rows[i].at <= r.value.at
  {
    if rows == [] then None
    else
      var rest := FindOriginal(rows[1..], from);
      if rows[0].at >= from && (rest.None? || rest.value.at < rows[0].at) then Some(rows[0]) else rest
  }

  /** `resolve_dedup` */
  function Resolve(c: Config, s: State, now: real): Resolution {
    var seen := Stored(s.chain, now);
    var reset := seen.Some? && now - seen.value.last > Window(c);
    if seen.Some? && seen.value.reusable && RechainDue(c, seen.value, now) then Resolution(Rechain, true)
    else if seen.Some? && seen.value.reusable && now - seen.value.last <= Window(c) then Resolution(Reuse, false)
    else
      var row := FindOriginal(s.rows, now - Window(c));
      if row.Some? && row.value.reusable then Resolution(DbReuse, false)
      else Resolution(New, reset)
  }

  predicate RechainDue(c: Config, chain: Chain, now: real) {
    now - chain.first > Window(c) && now - chain.last <= Window(c) && now - chain.first <= c.reuse as real
  }

  /** An event resolved at `at`; a fresh analysis writes its placeholder at `at + mid`, the row is
      saved at `at + saved`, and every event writes its final state at `at + done`. */
  datatype Event = Event(at: real, mid: real, saved: real, done: real)

  predicate Enabled(c: Config, s: State, e: Event) {
    s.now <= e.at && 0.0 <= e.mid <= e.saved <= e.done <= c.delay
  }

  function Apply(c: Config, s: State, e: Event): State {
    var r := Resolve(c, s, e.at);
    var reset := r.reset || r.action == Rechain;
    var placed := if r.action == New then Some(Remember(c, s.chain, e.at + e.mid, r.reset, false)) else s.chain;
    var chain := Remember(c, placed, e.at + e.done, reset, true);
    State(e.at + e.done, Some(chain),
          if r.action == New || r.action == Rechain then s.rows + [Row(e.at + e.saved, true)] else s.rows)
  }

  const START := State(0.0, None, [])

  /** The states of a run of events, from the empty store. */
  function After(c: Config, events: seq<Event>): State {
    if events == [] then START else Apply(c, After(c, events[..|events| - 1]), events[|events| - 1])
  }

  predicate IsRun(c: Config, events: seq<Event>) {
    if events == [] then true
    else
      var before := events[..|events| - 1];
      IsRun(c, before) && Enabled(c, After(c, before), events[|events| - 1])
  }

  // ---- what holds in every run -------------------------------------------------------------------

  /** Chain heads come more than a window, less the delay, apart, and none is later than the chain. */
  predicate HeadsApart(c: Config, s: State) {
    && (s.rows == [] <==> s.chain.None?)
    && (forall i :: 0 <= i < |s.rows| ==> s.rows[i].reusable)
    && (forall i :: 0 < i < |s.rows| ==> s.rows[i].at - s.rows[i - 1].at > Window(c) - c.delay)
    && (s.chain.Some? ==>
          var k := s.chain.value;
          && k.reusable && k.first <= k.last <= s.now && k.expires == k.last + Ttl(c)
          && forall i :: 0 <= i < |s.rows| ==> s.rows[i].at <= k.last && s.rows[i].at <= k.first + c.delay)
  }

  predicate Young(c: Config, s: State) {
    s.chain.Some? ==> s.chain.value.last - s.chain.value.first <= Window(c) + c.delay
  }

  /** When the chain is absent, or quiet for longer than the window, the database has no original either. */
  lemma StaleChainMissesDatabase(c: Config, s: State, now: real)
    requires GoodConfig(c) && HeadsApart(c, s) && s.now <= now
    requires s.chain.Some? ==> now - s.chain.value.last > Window(c)
    ensures FindOriginal(s.rows, now - Window(c)) == None
  {
  }

  /** The action as a function of the chain alone; the database fallback never hits. */
  lemma ResolveCases(c: Config, s: State, now: real)
    requires GoodConfig(c) && HeadsApart(c, s) && s.now <= now
    ensures var r := Resolve(c, s, now);
            && r.action != DbReuse
            && (r.action == New <==> s.chain.None? || now - s.chain.value.last > Window(c))
            && (r.reset <==> r.action == Rechain || (r.action == New && Stored(s.chain, now).Some?))
            && (r.action == Rechain <==> s.chain.Some? && RechainDue(c, s.chain.value, now))
            && (r.action == Reuse <==> s.chain.Some? && now - s.chain.value.last <= Window(c) && !RechainDue(c, s.chain.value, now))
  {
    if s.chain.None? || now - s.chain.value.last > Window(c) {
      StaleChainMissesDatabase(c, s, now);
    }
  }

  /** When the chain is lost, quiet for longer than the window or without a reusable analysis, the database decides: its newest
      original, if that lies within the window and its analysis can be reused, and otherwise the alert is new. */
  lemma LostChainFallsBack(c: Config, s: State, now: real, newest: Row)
    requires newest in s.rows
    requires Stored(s.chain, now).Some? ==> !s.chain.value.reusable || now - s.chain.value.last > Window(c)
    requires forall i :: 0 <= i < |s.rows| && s.rows[i] != newest ==> s.rows[i].at < newest.at
    ensures var r := Resolve(c, s, now);
            && (r.action == DbReuse <==> now - newest.at <= Window(c) && newest.reusable)
            && (r.action == DbReuse || r.action == New)
            && (r.reset <==> r.action == New && Stored(s.chain, now).Some? && now - s.chain.value.last > Window(c))
  {
    var found := FindOriginal(s.rows, now - Window(c));
    var k :| 0 <= k < |s.rows| && s.rows[k] == newest;
  }

  /** A repeat adds one to the chain's count and keeps its head; a rechain starts over at its own time. */
  lemma ChainCounts(c: Config, s: State, e: Event)
    requires GoodConfig(c) && HeadsApart(c, s) && Enabled(c, s, e) && s.chain.Some?
    ensures var before, after := s.chain.value, Apply(c, s, e).chain.value;
            && after.last == e.at + e.done
            && (Resolve(c, s, e.at).action == Reuse ==> after.count == before.count + 1 && after.first == before.first)
            && (Resolve(c, s, e.at).action == Rechain ==> after.count == 1 && after.first == after.last)
  {
    ResolveCases(c, s, e.at);
  }

  /** A chain is kept for two windows after its last event, and for a minute at least; then Redis forgets it. */
  lemma ChainIsKept(c: Config, s: State, e: Event, now: real)
    requires GoodConfig(c) && Enabled(c, s, e) && Apply(c, s, e).now <= now
    ensures var t := Apply(c, s, e);
            t.chain.Some? && (Stored(t.chain, now).Some? <==> now - t.now < 2.0 * c.window as real || now - t.now < 60.0)
  {
  }

  /** An original is recorded for a new alert and for a rechained one, and for no repeat. */
  lemma OriginalsAreRecorded(c: Config, s: State, e: Event)
    requires Enabled(c, s, e)
    ensures var rows, action := Apply(c, s, e).rows, Resolve(c, s, e.at).action;
            if action == New || action == Rechain then rows == s.rows + [Row(e.at + e.saved, true)] else rows == s.rows
  {
  }

  lemma StepKeepsHeadsApart(c: Config, s: State, e: Event)
    requires GoodConfig(c) && HeadsApart(c, s) && Enabled(c, s, e)
    ensures HeadsApart(c, Apply(c, s, e))
  {
    ResolveCases(c, s, e.at);
  }

  /** With a reuse window of two windows and the delay, a chain never outgrows the window and the delay. */
  lemma StepKeepsYoung(c: Config, s: State, e: Event)
    requires GoodConfig(c) && HeadsApart(c, s) && Young(c, s) && Enabled(c, s, e)
    requires c.reuse as real >= 2.0 * Window(c) + c.delay
    ensures Young(c, Apply(c, s, e))
  {
    ResolveCases(c, s, e.at);
  }

  lemma {:induction false} RunKeepsHeadsApart(c: Config, events: seq<Event>)
    requires GoodConfig(c) && IsRun(c, events)
    ensures HeadsApart(c, After(c, events))
  {
    if events != [] {
      var before := events[..|events| - 1];
      RunKeepsHeadsApart(c, before);
      StepKeepsHeadsApart(c, After(c, before), events[|events| - 1]);
    }
  }

  lemma {:induction false} RunKeepsYoung(c: Config, events: seq<Event>)
    requires GoodConfig(c) && IsRun(c, events) && c.reuse as real >= 2.0 * Window(c) + c.delay
    ensures Young(c, After(c, events))
  {
    if events != [] {
      var before := events[..|events| - 1];
      RunKeepsYoung(c, before);
      RunKeepsHeadsApart(c, before);
      StepKeepsYoung(c, After(c, before), events[|events| - 1]);
    }
  }

  // ---- reuse on an old chain -------------------------------------------------------------------------

  /** In every run, a duplicate is only ever attached to a chain that is at most one window old. */
  ghost predicate ReusesOnlyYoungChains(c: Config) {
    forall events, e :: IsRun(c, events) && Enabled(c, After(c, events), e) &&
                        Resolve(c, After(c, events), e.at).action == Reuse ==>
                        e.at - After(c, events).chain.value.first <= Window(c)
  }

  /** An over-age chain that is still being hit takes RECHAIN. */
  lemma OldLiveChainRechains(c: Config, events: seq<Event>, now: real)
    requires GoodConfig(c) && IsRun(c, events) && c.reuse as real >= 2.0 * Window(c) + c.delay
    requires After(c, events).now <= now && After(c, events).chain.Some?
    requires now - After(c, events).chain.value.last <= Window(c) < now - After(c, events).chain.value.first
    ensures Resolve(c, After(c, events), now).action == Rechain
  {
    RunKeepsYoung(c, events);
    RunKeepsHeadsApart(c, events);
  }

  /** Below two windows and the delay there is a run that reuses a chain older than the window. */
  lemma OldChainIsReused(c: Config) returns (events: seq<Event>, e: Event)
    requires GoodConfig(c) && (c.reuse as real) < 2.0 * Window(c) + c.delay
    ensures IsRun(c, events) && Enabled(c, After(c, events), e)
    ensures Resolve(c, After(c, events), e.at).action == Reuse
    ensures e.at - After(c, events).chain.value.first == 2.0 * Window(c) + c.delay
  {
    var w := Window(c);
    var e0 := Event(0.0, 0.0, 0.0, 0.0);
    var e1 := Event(w, 0.0, 0.0, c.delay);
    e := Event(2.0 * w + c.delay, 0.0, 0.0, 0.0);
    events := [e0, e1];
    assert [] + [e0] == [e0] && [e0] + [e1] == events;
    OneMore(c, [], e0);
    OneMore(c, [e0], e1);
    hide After, IsRun;
    var s1 := After(c, [e0]);
    assert s1.chain.Some? && s1.chain.value.first == 0.0 && s1.chain.value.last == 0.0;
    assert s1.chain.value.expires == Ttl(c) && s1.chain.value.reusable && s1.now == 0.0;
    var s2 := After(c, events);
    assert Resolve(c, s1, e1.at).action == Reuse;
    assert s2.chain.value.first == 0.0 && s2.chain.value.last == w + c.delay;
  }

  lemma OneMore(c: Config, events: seq<Event>, e: Event)
    ensures After(c, []) == START && IsRun(c, [])
    ensures After(c, events + [e]) == Apply(c, After(c, events), e)
    ensures IsRun(c, events + [e]) <==> IsRun(c, events) && Enabled(c, After(c, events), e)
  {
    assert (events + [e])[..|events + [e]| - 1] == events;
  }

  /** The exact condition; `validate_runtime_relationships` only demands `reuse >= window`. */
  lemma ReusesOnlyYoungChainsIff(c: Config)
    requires GoodConfig(c)
    ensures ReusesOnlyYoungChains(c) <==> c.reuse as real >= 2.0 * Window(c) + c.delay
  {
    if c.reuse as real >= 2.0 * Window(c) + c.delay {
      forall events, e | IsRun(c, events) && Enabled(c, After(c, events), e) &&
                         Resolve(c, After(c, events), e.at).action == Reuse
        ensures e.at - After(c, events).chain.value.first <= Window(c)
      {
        RunKeepsYoung(c, events);
        RunKeepsHeadsApart(c, events);
      }
    } else {
      var events, e := OldChainIsReused(c);
      assert !(e.at - After(c, events).chain.value.first <= Window(c));
    }
  }

  // ---- how many originals a storm can create -----------------------------------------------------------

  lemma OneMoreGap(n: nat, gap: real)
    ensures (n + 1) as real * gap == n as real * gap + gap
  {
  }

  lemma {:induction false} RowsAreSpaced(rows: seq<Row>, gap: real, i: nat, j: nat)
    requires i <= j < |rows| && forall k :: 0 < k < |rows| ==> rows[k].at - rows[k - 1].at > gap
    ensures rows[j].at - rows[i].at >= (j - i) as real * gap
    decreases j
  {
    if i < j {
      RowsAreSpaced(rows, gap, i, j - 1);
      OneMoreGap(j - 1 - i, gap);
    }
  }

  /** In every run, any `n` consecutive originals span at least `n - 1` windows less the delay. */
  lemma OriginalsAreSpaced(c: Config, events: seq<Event>, i: nat, j: nat)
    requires GoodConfig(c) && IsRun(c, events) && i <= j < |After(c, events).rows|
    ensures After(c, events).rows[j].at - After(c, events).rows[i].at >= (j - i) as real * (Window(c) - c.delay)
  {
    hide After;
    hide IsRun;
    RunKeepsHeadsApart(c, events);
    RowsAreSpaced(After(c, events).rows, Window(c) - c.delay, i, j);
  }

  /** In every run the database fallback is never what answers. */
  lemma DatabaseFallbackNeverHits(c: Config, events: seq<Event>, e: Event)
    requires GoodConfig(c) && IsRun(c, events) && Enabled(c, After(c, events), e)
    ensures Resolve(c, After(c, events), e.at).action != DbReuse
  {
    RunKeepsHeadsApart(c, events);
    ResolveCases(c, After(c, events), e.at);
  }
}
