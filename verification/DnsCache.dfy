/**
  core/url_security.py: the bounded DNS cache.  Each method is one section under the cache
  lock; other resolutions run between the lookup and the store of one.
 */
module DnsCache {
  import opened Wrappers

  datatype Key = Key(host: string, port: Option<int>)

  datatype Entry = Entry(expires: real, ips: seq<string>)

  type Cache = map<Key, Entry>

  const TTL: real := 60.0
  const MAX_ENTRIES: nat := 2048

  predicate Live(c: Cache, k: Key, now: real) { k in c && now < c[k].expires }

  function LiveKeys(c: Cache, now: real): set<Key> { set k | k in c && Live(c, k, now) }

  /** `after` keeps some entries of `before`: all of them below the maximum; otherwise no expired one,
      and live ones only go when they alone fill the cache, soonest to expire first, one more than the excess. */
  predicate Evicts(before: Cache, after: Cache, now: real) {
    && after.Keys <= before.Keys && (forall k :: k in after ==> after[k] == before[k])
    && (|before| < 2048 ==> after == before)
    && (|before| >= 2048 ==>
          && after.Keys <= LiveKeys(before, now)
          && (|LiveKeys(before, now)| < 2048 ==> after.Keys == LiveKeys(before, now))
          && (|LiveKeys(before, now)| >= 2048 ==>
                && |after| == 2047
                && forall a, b :: a in LiveKeys(before, now) && a !in after && b in after ==> before[a].expires <= before[b].expires))
  }

  predicate IsSoonest(c: Cache, k: Key) { k in c && forall x :: x in c ==> c[k].expires <= c[x].expires }

  lemma {:induction false} SoonestExists(c: Cache) returns (k: Key)
    requires c != map[]
    ensures IsSoonest(c, k)
    decreases |c|
  {
    assert c.Keys != {};
    k :| k in c.Keys;
    var rest := c - {k};
    assert rest.Keys == c.Keys - {k};
    if rest.Keys == {} {
      forall x | x in c.Keys ensures x == k {
        assert x == k || x in rest.Keys;
      }
    } else {
      assert |rest.Keys| == |c.Keys| - 1;
      var r := SoonestExists(rest);
      assert forall x :: x in c.Keys ==> x == k || x in rest.Keys;
      if c[r].expires < c[k].expires {
        k := r;
      }
    }
  }

  lemma RemoveOne(c: Cache, k: Key)
    requires k in c
    ensures (c - {k}).Keys == c.Keys - {k} && |c - {k}| == |c| - 1
  {
    assert |(c - {k}).Keys| == |c.Keys| - 1;
  }

  /** One lookup under the lock. */
  predicate LooksUp(before: Cache, after: Cache, key: Key, now: real, hit: Option<seq<string>>) {
    if Live(before, key, now) then hit == Some(before[key].ips) && after == before
    else hit == None && after == before - {key}
  }

  /** One store under the lock, answering `ips`: a resolution that finished meanwhile wins. */
  ghost predicate Keeps(before: Cache, after: Cache, key: Key, now: real, resolved: seq<string>, ips: seq<string>) {
    if Live(before, key, now) then after == before && ips == before[key].ips
    else ips == resolved && exists kept :: Evicts(before, kept, now) && |kept| < MAX_ENTRIES && after == kept[key := Entry(now + TTL, resolved)]
  }

  class Resolver {
    var cache: Cache

    constructor ()
      ensures cache == map[]
    {
      cache := map[];
    }

    /** `_evict_dns_cache_if_full` */
    method EvictIfFull(now: real)
      modifies this
      ensures Evicts(old(cache), cache, now) && |cache| < MAX_ENTRIES
    {
      if |cache| < MAX_ENTRIES {
        return;
      }
      cache := map k | k in cache && Live(cache, k, now) :: cache[k];
      assert cache.Keys == LiveKeys(old(cache), now);
      assert |cache.Keys| == |cache|;
      if |cache| < MAX_ENTRIES {
        return;
      }
      ghost var live := cache;
      while |cache| >= MAX_ENTRIES
        invariant cache.Keys <= live.Keys && (forall k :: k in cache ==> cache[k] == live[k])
        invariant |cache| >= MAX_ENTRIES - 1
        invariant forall a, b :: a in live && a !in cache && b in cache ==> live[a].expires <= live[b].expires
        decreases |cache|
      {
        var c := cache;
        ghost var w := SoonestExists(c);
        var k :| IsSoonest(c, k);
        assert IsSoonest(c, k);
        RemoveOne(cache, k);
        cache := cache - {k};
      }
    }

    /** The first section of `_resolve_ips_cached`. */
    method Lookup(key: Key, now: real) returns (hit: Option<seq<string>>)
      modifies this
      ensures LooksUp(old(cache), cache, key, now, hit)
    {
      if key in cache {
        if now < cache[key].expires {
          return Some(cache[key].ips);
        }
        cache := cache - {key};
      } else {
        assert cache - {key} == cache;
      }
      return None;
    }

    /** The second section, after `resolved` came back. */
    method Store(key: Key, now: real, resolved: seq<string>) returns (ips: seq<string>)
      modifies this
      ensures Keeps(old(cache), cache, key, now, resolved, ips)
    {
      if key in cache && now < cache[key].expires {
        return cache[key].ips;
      }
      EvictIfFull(now);
      ghost var kept := cache;
      cache := cache[key := Entry(now + TTL, resolved)];
      return resolved;
    }
  }

  // ---- every interleaving of resolutions ----

  /** A section under the lock, at its clock reading, with the answer it gave. */
  datatype Section =
    | Looked(key: Key, now: real, hit: Option<seq<string>>)
    | Stored(key: Key, now: real, resolved: seq<string>, ips: seq<string>)

  ghost predicate Step(before: Cache, s: Section, after: Cache) {
    match s
    case Looked(key, now, hit) => LooksUp(before, after, key, now, hit)
    case Stored(key, now, resolved, ips) => Keeps(before, after, key, now, resolved, ips)
  }

  /** A run of sections of any resolutions, from the empty cache, under a monotonic clock. */
  ghost predicate IsRun(run: seq<Section>, caches: seq<Cache>) {
    && |caches| == |run| + 1 && caches[0] == map[]
    && (forall i :: 0 <= i < |run| ==> Step(caches[i], run[i], caches[i + 1]))
    && forall i, j :: 0 <= i < j < |run| ==> run[i].now <= run[j].now
  }

  /** Section `i` resolved `key` to `ips`, less than the lifetime before `now`. */
  predicate FreshResolution(run: seq<Section>, i: nat, key: Key, ips: seq<string>, now: real) {
    i < |run| && run[i].Stored? && run[i].key == key && run[i].resolved == ips && run[i].now <= now < run[i].now + 60.0
  }

  /** Section `i` made the entry `e` of `key`. */
  predicate Made(run: seq<Section>, i: nat, key: Key, e: Entry) {
    i < |run| && run[i].Stored? && run[i].key == key && e == Entry(run[i].now + TTL, run[i].resolved)
  }

  lemma {:induction false} EntriesWereResolved(run: seq<Section>, caches: seq<Cache>, n: nat, key: Key) returns (i: nat)
    requires IsRun(run, caches) && n <= |run| && key in caches[n]
    ensures i < n && Made(run, i, key, caches[n][key])
  {
    if n == 0 {
      assert false;
    } else {
      assert Step(caches[n - 1], run[n - 1], caches[n]);
      if key in caches[n - 1] && caches[n - 1][key] == caches[n][key] {
        i := EntriesWereResolved(run, caches, n - 1, key);
      } else {
        i := n - 1;
      }
    }
  }

  lemma {:induction false} NeverOverTheMaximum(run: seq<Section>, caches: seq<Cache>, n: nat)
    requires IsRun(run, caches) && n <= |run|
    ensures |caches[n]| <= 2048
  {
    hide Evicts;
    if n > 0 {
      NeverOverTheMaximum(run, caches, n - 1);
      var before, s, after := caches[n - 1], run[n - 1], caches[n];
      assert Step(before, s, after);
      if s.Looked? {
        if !Live(before, s.key, s.now) && s.key in before {
          RemoveOne(before, s.key);
        } else {
          assert before - {s.key} == before || after == before;
        }
      } else if !Live(before, s.key, s.now) {
        var kept :| Evicts(before, kept, s.now) && |kept| < MAX_ENTRIES && after == kept[s.key := Entry(s.now + TTL, s.resolved)];
        assert after.Keys == kept.Keys + {s.key};
        assert |after.Keys| <= |kept.Keys| + 1;
      }
    }
  }

  /** Every answer, hit or fresh, is a resolution of that very host some section of the run made less than the lifetime ago. */
  lemma AnswersAreFresh(run: seq<Section>, caches: seq<Cache>, n: nat) returns (i: nat)
    requires IsRun(run, caches) && n < |run|
    requires run[n].Stored? || run[n].hit.Some?
    ensures i <= n
    ensures FreshResolution(run, i, run[n].key, if run[n].Stored? then run[n].ips else run[n].hit.value, run[n].now)
  {
    var s := run[n];
    assert Step(caches[n], s, caches[n + 1]);
    if Live(caches[n], s.key, s.now) {
      i := EntriesWereResolved(run, caches, n, s.key);
    } else {
      i := n;
    }
  }
}
