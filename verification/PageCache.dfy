/**
 * The pinning page cache (common/lru_cache.cpp) with lazy offloading and no leases: pages are
 * pinned by loads, unpinned by releases, and evicted through a queue whose outdated entries are
 * dropped when they come to its front.
 */
module PageCache {
  import opened Wrappers

  type Page = nat
  type Value = int

  const WRAP: nat := 0x1_0000_0000_0000_0000

  /** cache_node; a page is named by its partition and bucket together. */
  datatype Slot = Slot(ts: nat, readCnt: nat, value: Value, size: nat)

  /** cache_visit */
  datatype Visit = Visit(page: Page, ts: nat, size: nat)

  predicate Fresh(cache: map<Page, Slot>, v: Visit) {
    v.page in cache && cache[v.page].ts == v.ts
  }

  /** Every queue entry is of the past, and no entry that is not outdated is of a pinned page. */
  predicate QueueOK(cache: map<Page, Slot>, queue: seq<Visit>, clock: nat) {
    && (forall p :: p in cache ==> cache[p].ts <= clock)
    && (forall i :: 0 <= i < |queue| ==> queue[i].ts <= clock)
    && (forall i :: 0 <= i < |queue| && Fresh(cache, queue[i]) ==> cache[queue[i].page].readCnt == 0)
    && (forall i, j :: 0 <= i < j < |queue| && Fresh(cache, queue[i]) && Fresh(cache, queue[j]) ==> queue[i].page != queue[j].page)
  }

  predicate Queued(cache: map<Page, Slot>, queue: seq<Visit>, p: Page) {
    exists i :: 0 <= i < |queue| && queue[i].page == p && Fresh(cache, queue[i])
  }

  /** Every unpinned page is in the queue. */
  predicate Complete(cache: map<Page, Slot>, queue: seq<Visit>) {
    forall p :: p in cache && cache[p].readCnt == 0 ==> Queued(cache, queue, p)
  }

  /** The entries that are not outdated come in the order of the releases. */
  predicate InOrder(cache: map<Page, Slot>, queue: seq<Visit>, released: map<Page, nat>, now: nat) {
    && (forall i :: 0 <= i < |queue| && Fresh(cache, queue[i]) ==> queue[i].page in released && released[queue[i].page] < now)
    && (forall i, j :: 0 <= i < j < |queue| && Fresh(cache, queue[i]) && Fresh(cache, queue[j]) ==>
        released[queue[i].page] < released[queue[j].page])
  }

  predicate OK(cache: map<Page, Slot>, queue: seq<Visit>, clock: nat, released: map<Page, nat>, now: nat) {
    QueueOK(cache, queue, clock) && Complete(cache, queue) && InOrder(cache, queue, released, now)
  }

  /** A page (re)loaded now: its old entries are outdated, the others are as before. */
  lemma Loaded(cache: map<Page, Slot>, queue: seq<Visit>, clock: nat, released: map<Page, nat>, now: nat, p: Page, s: Slot)
    requires OK(cache, queue, clock, released, now) && s.ts == clock + 1 && s.readCnt >= 1
    ensures OK(cache[p := s], queue, clock + 1, released, now)
  {
    var c := cache[p := s];
    assert forall i :: 0 <= i < |queue| ==> (Fresh(c, queue[i]) <==> Fresh(cache, queue[i]) && queue[i].page != p);
    forall q | q in c && c[q].readCnt == 0
      ensures Queued(c, queue, q)
    {
      assert Queued(cache, queue, q);
      var i :| 0 <= i < |queue| && queue[i].page == q && Fresh(cache, queue[i]);
      assert Fresh(c, queue[i]);
    }
  }

  /** A page unpinned but still pinned by others: nothing changes for the queue. */
  lemma Unpinned(cache: map<Page, Slot>, queue: seq<Visit>, clock: nat, released: map<Page, nat>, now: nat, p: Page)
    requires OK(cache, queue, clock, released, now) && p in cache && cache[p].readCnt > 1
    ensures OK(cache[p := cache[p].(readCnt := cache[p].readCnt - 1)], queue, clock, released, now)
  {
    var c := cache[p := cache[p].(readCnt := cache[p].readCnt - 1)];
    assert forall i :: 0 <= i < |queue| ==> (Fresh(c, queue[i]) <==> Fresh(cache, queue[i]));
    forall q | q in c && c[q].readCnt == 0
      ensures Queued(c, queue, q)
    {
      assert Queued(cache, queue, q);
      var i :| 0 <= i < |queue| && queue[i].page == q && Fresh(cache, queue[i]);
      assert Fresh(c, queue[i]);
    }
  }

  /** One release too many: the page is in the queue, to be evicted, with a count that looks pinned. */
  lemma Wrapped(cache: map<Page, Slot>, queue: seq<Visit>, clock: nat, released: map<Page, nat>, now: nat, p: Page)
    requires OK(cache, queue, clock, released, now) && p in cache && cache[p].readCnt == 0
    ensures !OK(cache[p := cache[p].(readCnt := WRAP - 1)], queue, clock, released, now)
  {
    var c := cache[p := cache[p].(readCnt := WRAP - 1)];
    assert Queued(cache, queue, p);
    var i :| 0 <= i < |queue| && queue[i].page == p && Fresh(cache, queue[i]);
    assert Fresh(c, queue[i]);
  }

  /** The last release puts the page at the end of the queue. */
  lemma Queues(cache: map<Page, Slot>, queue: seq<Visit>, clock: nat, released: map<Page, nat>, now: nat, p: Page, v: Visit)
    requires OK(cache, queue, clock, released, now) && p in cache && cache[p].readCnt == 1
    requires v.page == p && v.ts == cache[p].ts
    ensures OK(cache[p := cache[p].(readCnt := 0)], queue + [v], clock, released[p := now], now + 1)
  {
    var c, u := cache[p := cache[p].(readCnt := 0)], queue + [v];
    assert forall i :: 0 <= i < |queue| ==>
        u[i] == queue[i] && (Fresh(c, queue[i]) <==> Fresh(cache, queue[i]))
        && (Fresh(cache, queue[i]) ==> queue[i].page != p);
    assert Fresh(c, v) && u[|queue|] == v;
    forall q | q in c && c[q].readCnt == 0
      ensures Queued(c, u, q)
    {
      if q != p {
        assert Queued(cache, queue, q);
        var i :| 0 <= i < |queue| && queue[i].page == q && Fresh(cache, queue[i]);
        assert u[i].page == q && Fresh(c, u[i]);
      }
    }
  }

  /** An outdated entry at the front can go. */
  lemma Skipped(cache: map<Page, Slot>, queue: seq<Visit>, clock: nat, released: map<Page, nat>, now: nat)
    requires OK(cache, queue, clock, released, now) && queue != [] && !Fresh(cache, queue[0])
    ensures OK(cache, queue[1..], clock, released, now)
  {
    var u := queue[1..];
    assert forall i :: 0 <= i < |u| ==> u[i] == queue[i + 1];
    forall q | q in cache && cache[q].readCnt == 0
      ensures Queued(cache, u, q)
    {
      assert Queued(cache, queue, q);
      var i :| 0 <= i < |queue| && queue[i].page == q && Fresh(cache, queue[i]);
      assert u[i - 1] == queue[i];
    }
  }

  /** The page of a front entry that is not outdated: unpinned, and released before all others. */
  lemma FrontIsOldest(cache: map<Page, Slot>, queue: seq<Visit>, clock: nat, released: map<Page, nat>, now: nat)
    requires OK(cache, queue, clock, released, now) && queue != [] && Fresh(cache, queue[0])
    ensures IsVictim(cache, released, queue[0].page)
  {
    forall q | q in cache && cache[q].readCnt == 0
      ensures q in released && released[queue[0].page] <= released[q]
    {
      assert Queued(cache, queue, q);
      var i :| 0 <= i < |queue| && queue[i].page == q && Fresh(cache, queue[i]);
    }
  }

  /** `p` is the unpinned page released longest ago. */
  predicate IsVictim(cache: map<Page, Slot>, released: map<Page, nat>, p: Page) {
    && p in cache && cache[p].readCnt == 0 && p in released
    && (forall q :: q in cache && cache[q].readCnt == 0 ==> q in released && released[p] <= released[q])
  }

  lemma Evicted(cache: map<Page, Slot>, queue: seq<Visit>, clock: nat, released: map<Page, nat>, now: nat)
    requires OK(cache, queue, clock, released, now) && queue != [] && Fresh(cache, queue[0])
    ensures OK(cache - {queue[0].page}, queue[1..], clock, released, now)
  {
    var p, c, u := queue[0].page, cache - {queue[0].page}, queue[1..];
    assert forall i :: 0 <= i < |u| ==> u[i] == queue[i + 1] && (Fresh(c, u[i]) <==> Fresh(cache, queue[i + 1]) && queue[i + 1].page != p);
    forall q | q in c && c[q].readCnt == 0
      ensures Queued(c, u, q)
    {
      assert Queued(cache, queue, q);
      var i :| 0 <= i < |queue| && queue[i].page == q && Fresh(cache, queue[i]);
      assert u[i - 1] == queue[i] && Fresh(c, u[i - 1]);
    }
  }

  class Cache {
    var cache: map<Page, Slot>
    var queue: seq<Visit>
    var timestamp: nat
    var cachedBytes: nat
    const limit: nat
    ghost var released: map<Page, nat>
    ghost var now: nat

    ghost predicate Valid()
      reads this
    {
      OK(cache, queue, timestamp, released, now)
    }

    constructor (siz: nat)
      ensures Valid() && cache == map[]
    {
      cache, queue, timestamp, cachedBytes, limit := map[], [], 0, 0, siz;
      released, now := map[], 0;
    }

    /** A resident page pinned once more, at a new timestamp. */
    method Pin(p: Page) returns (v: Value)
      requires Valid() && p in cache
      modifies this`cache, this`timestamp
      ensures Valid() && v == old(cache)[p].value
      ensures cache == old(cache)[p := old(cache)[p].(ts := timestamp, readCnt := old(cache)[p].readCnt + 1)]
    {
      var s := cache[p];
      Loaded(cache, queue, timestamp, released, now, p, s.(ts := timestamp + 1, readCnt := s.readCnt + 1));
      timestamp := timestamp + 1;
      cache := cache[p := s.(ts := if s.ts < timestamp then timestamp else s.ts, readCnt := s.readCnt + 1)];
      v := s.value;
    }

    /** try_load: a resident page is pinned once more. */
    method TryLoad(p: Page) returns (r: Option<Value>)
      requires Valid()
      modifies this`cache, this`timestamp
      ensures Valid()
      ensures r == if p in old(cache) then Some(old(cache)[p].value) else None
      ensures cache ==
              if p in old(cache) then old(cache)[p := old(cache)[p].(ts := timestamp, readCnt := old(cache)[p].readCnt + 1)]
              else old(cache)
    {
      if p !in cache {
        return None;
      }
      var v := Pin(p);
      r := Some(v);
    }

    /** release. The count wraps below zero: exactly one release per pin keeps the cache in order. */
    method Release(p: Page)
      requires Valid()
      modifies this`cache, this`queue, this`released, this`now
      ensures Valid() <==> old(p in cache ==> cache[p].readCnt >= 1)
      ensures cache ==
              if p in old(cache) then
                old(cache)[p := old(cache)[p].(readCnt := if old(cache)[p].readCnt == 0 then WRAP - 1 else old(cache)[p].readCnt - 1)]
              else old(cache)
      ensures p in cache && cache[p].readCnt == 0 ==> released == old(released)[p := old(now)]
      ensures !(p in cache && cache[p].readCnt == 0) ==> released == old(released)
    {
      if p !in cache {
        return;
      }
      var s := cache[p];
      if s.readCnt > 1 {
        Unpinned(cache, queue, timestamp, released, now, p);
        cache := cache[p := s.(readCnt := s.readCnt - 1)];
      } else if s.readCnt == 1 {
        Queues(cache, queue, timestamp, released, now, p, Visit(p, s.ts, s.size));
        cache := cache[p := s.(readCnt := 0)];
        queue := queue + [Visit(p, s.ts, s.size)];
        released, now := released[p := now], now + 1;
      } else {
        Wrapped(cache, queue, timestamp, released, now, p);
        cache := cache[p := s.(readCnt := WRAP - 1)];
      }
    }

    /** cache_free: evicts the unpinned page released longest ago; fails exactly when all are pinned. */
    method CacheFree() returns (r: Option<(Page, Value)>)
      requires Valid()
      modifies this`cache, this`queue, this`cachedBytes
      ensures Valid()
      ensures r == None <==> forall p :: p in old(cache) ==> old(cache)[p].readCnt > 0
      ensures r == None ==> cache == old(cache)
      ensures r.Some? ==> IsVictim(old(cache), released, r.value.0) && r.value.1 == old(cache)[r.value.0].value
      ensures r.Some? ==> cache == old(cache) - {r.value.0}
    {
      while queue != []
        invariant Valid() && cache == old(cache)
        decreases |queue|
      {
        var it := queue[0];
        if !(it.page in cache && cache[it.page].ts == it.ts) {
          Skipped(cache, queue, timestamp, released, now);
          queue := queue[1..];
        } else {
          FrontIsOldest(cache, queue, timestamp, released, now);
          Evicted(cache, queue, timestamp, released, now);
          r := Some((it.page, cache[it.page].value));
          cachedBytes := (cachedBytes - it.size) % WRAP;
          cache := cache - {it.page};
          queue := queue[1..];
          return;
        }
      }
      assert forall p :: p in cache && cache[p].readCnt == 0 ==> Queued(cache, queue, p);
      r := None;
    }

    /** Space for a page of `bytes`: an eviction if the limit would be passed. */
    method MakeRoom(bytes: nat) returns (ok: bool, swapped: Option<(Page, Value)>)
      requires Valid()
      modifies this`cache, this`queue, this`cachedBytes
      ensures Valid()
      ensures !ok <==> old(cachedBytes) + bytes > limit && forall q :: q in old(cache) ==> old(cache)[q].readCnt > 0
      ensures swapped.Some? <==> ok && old(cachedBytes) + bytes > limit
      ensures swapped.Some? ==> IsVictim(old(cache), released, swapped.value.0) && swapped.value.1 == old(cache)[swapped.value.0].value
      ensures cache == if swapped.Some? then old(cache) - {swapped.value.0} else old(cache)
    {
      swapped := None;
      if cachedBytes + bytes > limit {
        swapped := CacheFree();
        ok := swapped.Some?;
      } else {
        cachedBytes := cachedBytes + bytes;
        ok := true;
      }
    }

    /**
     * load_and_swap: pins a resident page, or brings `inserted` in, for which an unpinned page
     * may have to go; refused when one has to and all are pinned.
     */
    method LoadAndSwap(p: Page, bytes: nat, inserted: Value) returns (r: Option<Value>, swapped: Option<(Page, Value)>)
      requires Valid()
      modifies this`cache, this`queue, this`timestamp, this`cachedBytes
      ensures Valid()
      ensures p in old(cache) ==> r == Some(old(cache)[p].value) && swapped == None
      ensures p in old(cache) ==> cache == old(cache)[p := old(cache)[p].(ts := timestamp, readCnt := old(cache)[p].readCnt + 1)]
      ensures r == None <==>
              p !in old(cache) && old(cachedBytes) + bytes > limit && forall q :: q in old(cache) ==> old(cache)[q].readCnt > 0
      ensures r == None ==> cache == old(cache) && swapped == None
      ensures r.Some? && p !in old(cache) ==> r.value == inserted
      ensures r.Some? && p !in old(cache) ==>
          cache == (if swapped.Some? then old(cache) - {swapped.value.0} else old(cache))[p := Slot(timestamp, 1, inserted, bytes)]
      ensures swapped.Some? ==> IsVictim(old(cache), released, swapped.value.0) && swapped.value.1 == old(cache)[swapped.value.0].value
    {
      if p in cache {
        var v := Pin(p);
        return Some(v), None;
      }
      var ok;
      ok, swapped := MakeRoom(bytes);
      if !ok {
        return None, None;
      }
      Loaded(cache, queue, timestamp, released, now, p, Slot(timestamp + 1, 1, inserted, bytes));
      timestamp := timestamp + 1;
      cache := cache[p := Slot(timestamp, 1, inserted, bytes)];
      r := Some(inserted);
    }
  }
}
