/**
 * The page cache under concurrency (common/lru_cache.cpp): release(), load_and_swap() and the
 * eviction inside it run under the cache's latch, but try_load() does not. Every read and every
 * write of a shared counter, timestamp or pointer is a step of its own, under the latch too,
 * since an unlatched try_load() can come between any two of them.
 */
module PageCacheRuns {
  import opened Wrappers

  type Page = nat

  /** cache_node; `id` tells one allocation from the next. */
  datatype Node = Node(id: nat, ts: nat, cnt: nat)

  /** cache_visit */
  datatype Visit = Visit(page: Page, ts: nat)

  /** A load of a page that is in the cache, by try_load() or by load_and_swap(). */
  datatype Loader =
    | Idle
    | HasPtr(p: Page, id: nat)
    | HasCnt(p: Page, id: nat, c: nat)        // count read
    | Counted(p: Page, id: nat)               // count written
    | HasClock(p: Page, id: nat, v: nat)      // clock read
    | Ticked(p: Page, id: nat, now: nat)      // clock written
    | HasTs(p: Page, id: nat, ts: nat)        // timestamp read, the one to write is `ts`

  /** What is under way under the latch. */
  datatype Latch =
    | Free
    | HitBy(t: nat)                     // load_and_swap() of a page in the cache, by loader `t`
    | RelLoaded(p: Page, v: nat)        // release(): count read
    | RelStored(p: Page)                // release(): count written
    | RelZero(p: Page)                  // release(): found to be 0
    | New(p: Page)                      // load_and_swap() of a page not in the cache
    | NewClock(p: Page, v: nat)         // clock read
    | NewTicked(p: Page, now: nat)      // clock written
    | Evicting(p: Page)                 // cache_free(): front entry found up to date

  /**
   * `ticks` counts the increments of the clock, `pins` are the loads completed and not yet
   * released, `broken` tells that a page taken out of the cache was accessed.
   */
  datatype State = State(
    cache: map<Page, Node>, queue: seq<Visit>, clock: nat, ticks: nat, born: nat,
    loaders: seq<Loader>, pins: multiset<Page>, latch: Latch, broken: bool)

  datatype Action =
    | ReadPtr(t: nat, p: Page)
    | HitPtr(t: nat, p: Page)
    | LoadCnt(t: nat)
    | StoreCnt(t: nat)
    | LoadClock(t: nat)
    | StoreClock(t: nat)
    | LoadTs(t: nat)
    | Stamp(t: nat)
    | RelLoad(p: Page)
    | RelStore
    | RelCheck
    | RelPush
    | NewStart(p: Page)
    | NewLoad
    | NewStore
    | Publish
    | Drop
    | Choose
    | Remove

  predicate Fresh(cache: map<Page, Node>, v: Visit) {
    v.page in cache && cache[v.page].ts == v.ts
  }

  predicate Enabled(s: State, a: Action) {
    match a
    case ReadPtr(t, p) => t < |s.loaders| && s.loaders[t].Idle? && p in s.cache
    case HitPtr(t, p) => t < |s.loaders| && s.loaders[t].Idle? && p in s.cache && s.latch.Free?
    case LoadCnt(t) => t < |s.loaders| && s.loaders[t].HasPtr?
    case StoreCnt(t) => t < |s.loaders| && s.loaders[t].HasCnt?
    case LoadClock(t) => t < |s.loaders| && s.loaders[t].Counted?
    case StoreClock(t) => t < |s.loaders| && s.loaders[t].HasClock?
    case LoadTs(t) => t < |s.loaders| && s.loaders[t].Ticked?
    case Stamp(t) => t < |s.loaders| && s.loaders[t].HasTs?
    case RelLoad(p) => s.latch.Free? && p in s.pins
    case RelStore => s.latch.RelLoaded? && s.latch.p in s.cache
    case RelCheck => s.latch.RelStored? && s.latch.p in s.cache
    case RelPush => s.latch.RelZero? && s.latch.p in s.cache
    case NewStart(p) => s.latch.Free? && p !in s.cache
    case NewLoad => s.latch.New?
    case NewStore => s.latch.NewClock?
    case Publish => s.latch.NewTicked?
    case Drop => s.latch.Free? && s.queue != [] && !Fresh(s.cache, s.queue[0])
    case Choose => s.latch.Free? && s.queue != [] && Fresh(s.cache, s.queue[0])
    case Remove => s.latch.Evicting? && s.queue != []
  }

  predicate Alive(s: State, p: Page, id: nat) {
    p in s.cache && s.cache[p].id == id
  }

  function SetLoader(s: State, t: nat, l: Loader): State
    requires t < |s.loaders|
  {
    s.(loaders := s.loaders[t := l])
  }

  function DoLoadCnt(s: State, t: nat): State
    requires Enabled(s, LoadCnt(t))
  {
    var l := s.loaders[t];
    if Alive(s, l.p, l.id) then SetLoader(s, t, HasCnt(l.p, l.id, s.cache[l.p].cnt))
    else SetLoader(s, t, HasCnt(l.p, l.id, 0)).(broken := true)
  }

  function DoStoreCnt(s: State, t: nat): State
    requires Enabled(s, StoreCnt(t))
  {
    var l := s.loaders[t];
    var s' := SetLoader(s, t, Counted(l.p, l.id));
    if Alive(s, l.p, l.id) then s'.(cache := s.cache[l.p := s.cache[l.p].(cnt := l.c + 1)]) else s'.(broken := true)
  }

  function DoStoreClock(s: State, t: nat): State
    requires Enabled(s, StoreClock(t))
  {
    var l := s.loaders[t];
    SetLoader(s, t, Ticked(l.p, l.id, l.v + 1)).(clock := l.v + 1, ticks := s.ticks + 1)
  }

  /** try_load() keeps the larger timestamp, load_and_swap() assigns its own. */
  function DoLoadTs(s: State, t: nat): State
    requires Enabled(s, LoadTs(t))
  {
    var l := s.loaders[t];
    if !Alive(s, l.p, l.id) then SetLoader(s, t, HasTs(l.p, l.id, l.now)).(broken := true)
    else
      var ts := s.cache[l.p].ts;
      SetLoader(s, t, HasTs(l.p, l.id, if s.latch != HitBy(t) && l.now < ts then ts else l.now))
  }

  function DoStamp(s: State, t: nat): State
    requires Enabled(s, Stamp(t))
  {
    var l := s.loaders[t];
    var s' := SetLoader(s, t, Idle).(pins := s.pins + multiset{l.p}, latch := if s.latch == HitBy(t) then Free else s.latch);
    if Alive(s, l.p, l.id) then s'.(cache := s.cache[l.p := s.cache[l.p].(ts := l.ts)]) else s'.(broken := true)
  }

  /** A release of a page that is gone does nothing. */
  function DoRelLoad(s: State, p: Page): State
    requires Enabled(s, RelLoad(p))
  {
    if p in s.cache then s.(latch := RelLoaded(p, s.cache[p].cnt)) else s.(pins := s.pins - multiset{p})
  }

  function DoRelStore(s: State): State
    requires Enabled(s, RelStore)
  {
    var p, v := s.latch.p, s.latch.v;
    s.(cache := s.cache[p := s.cache[p].(cnt := if v == 0 then 0xFFFF_FFFF_FFFF_FFFF else v - 1)],
       pins := s.pins - multiset{p}, latch := RelStored(p))
  }

  function DoPublish(s: State): State
    requires Enabled(s, Publish)
  {
    var p := s.latch.p;
    s.(cache := s.cache[p := Node(s.born, s.latch.now, 1)], born := s.born + 1, pins := s.pins + multiset{p}, latch := Free)
  }

  function Apply(s: State, a: Action): State
    requires Enabled(s, a)
  {
    match a
    case ReadPtr(t, p) => SetLoader(s, t, HasPtr(p, s.cache[p].id))
    case HitPtr(t, p) => SetLoader(s, t, HasPtr(p, s.cache[p].id)).(latch := HitBy(t))
    case LoadCnt(t) => DoLoadCnt(s, t)
    case StoreCnt(t) => DoStoreCnt(s, t)
    case LoadClock(t) => SetLoader(s, t, HasClock(s.loaders[t].p, s.loaders[t].id, s.clock))
    case StoreClock(t) => DoStoreClock(s, t)
    case LoadTs(t) => DoLoadTs(s, t)
    case Stamp(t) => DoStamp(s, t)
    case RelLoad(p) => DoRelLoad(s, p)
    case RelStore => DoRelStore(s)
    case RelCheck => s.(latch := if s.cache[s.latch.p].cnt == 0 then RelZero(s.latch.p) else Free)
    case RelPush => s.(queue := s.queue + [Visit(s.latch.p, s.cache[s.latch.p].ts)], latch := Free)
    case NewStart(p) => s.(latch := New(p))
    case NewLoad => s.(latch := NewClock(s.latch.p, s.clock))
    case NewStore => s.(latch := NewTicked(s.latch.p, s.latch.v + 1), clock := s.latch.v + 1, ticks := s.ticks + 1)
    case Publish => DoPublish(s)
    case Drop => s.(queue := s.queue[1..])
    case Choose => s.(latch := Evicting(s.queue[0].page))
    case Remove => s.(cache := s.cache - {s.latch.p}, queue := s.queue[1..], latch := Free)
  }

  predicate Init(s: State) {
    && s.cache == map[] && s.queue == [] && s.clock == s.ticks == 0 && s.pins == multiset{} && s.latch.Free? && !s.broken
    && forall t :: 0 <= t < |s.loaders| ==> s.loaders[t] == Idle
  }

  function Run(s: State, schedule: seq<Action>): Option<State> {
    if schedule == [] then Some(s)
    else
      match Run(s, schedule[..|schedule| - 1])
      case None => None
      case Some(m) =>
        var a := schedule[|schedule| - 1];
        if Enabled(m, a) then Some(Apply(m, a)) else None
  }

  /** The state after the first `k` steps. */
  function At(s: State, schedule: seq<Action>, k: nat): State
    requires Run(s, schedule).Some? && k <= |schedule|
  {
    Prefix(s, schedule, k);
    Run(s, schedule[..k]).value
  }

  lemma {:induction false} Prefix(s: State, schedule: seq<Action>, k: nat)
    requires Run(s, schedule).Some? && k <= |schedule|
    ensures Run(s, schedule[..k]).Some?
    decreases |schedule| - k
  {
    if k < |schedule| {
      Prefix(s, schedule, k + 1);
      assert schedule[..k + 1][..k] == schedule[..k];
    } else {
      assert schedule[..k] == schedule;
    }
  }

  lemma AtNext(s: State, schedule: seq<Action>, k: nat)
    requires Run(s, schedule).Some? && k < |schedule|
    ensures Enabled(At(s, schedule, k), schedule[k]) && At(s, schedule, k + 1) == Apply(At(s, schedule, k), schedule[k])
  {
    Prefix(s, schedule, k + 1);
    assert schedule[..k + 1][..k] == schedule[..k] && schedule[..k + 1][k] == schedule[k];
  }

  // ----- what is wanted, and what it takes

  predicate Loading(l: Loader, p: Page) {
    !l.Idle? && l.p == p
  }

  predicate Busy(s: State, p: Page) {
    exists t :: 0 <= t < |s.loaders| && Loading(s.loaders[t], p)
  }

  /** The loader has counted itself, but has not stamped the page yet. */
  predicate HalfDone(l: Loader, p: Page) {
    (l.Counted? || l.HasClock? || l.Ticked? || l.HasTs?) && l.p == p
  }

  /** How many loaders have counted themselves on `p` and not yet stamped it. */
  function Half(ls: seq<Loader>, p: Page): nat {
    if ls == [] then 0 else Half(ls[..|ls| - 1], p) + (if HalfDone(ls[|ls| - 1], p) then 1 else 0)
  }

  /**
   * No evicted page was accessed, pinned pages are in the cache, counts are the pins and the
   * half-done loads, the clock counts its increments, and no pinned page is up for eviction.
   */
  ghost predicate InOrder(s: State) {
    && !s.broken && s.clock == s.ticks
    && (forall p: Page :: p in s.pins ==> p in s.cache)
    && (forall p: Page :: p in s.cache ==> s.cache[p].cnt == s.pins[p] + Half(s.loaders, p))
    && (forall i :: 0 <= i < |s.queue| && Fresh(s.cache, s.queue[i]) ==> s.queue[i].page !in s.pins)
  }

  /** No evicted page was accessed, and pinned pages are in the cache. */
  ghost predicate Safe(s: State) {
    !s.broken && forall p: Page :: p in s.pins ==> p in s.cache
  }

  /** No thread is in the middle of an operation. */
  predicate Quiet(s: State) {
    s.latch.Free? && forall t :: 0 <= t < |s.loaders| ==> s.loaders[t].Idle?
  }

  /**
   * The step overwrites a count or the clock with a value computed from another one than it
   * holds, or queues, as the last release, a page that is pinned again.
   */
  predicate Torn(s: State, a: Action)
    requires Enabled(s, a)
  {
    match a
    case StoreCnt(t) => var l := s.loaders[t]; Alive(s, l.p, l.id) && s.cache[l.p].cnt != l.c
    case RelStore => s.cache[s.latch.p].cnt != s.latch.v
    case StoreClock(t) => s.clock != s.loaders[t].v
    case NewStore => s.clock != s.latch.v
    case RelPush => s.latch.p in s.pins
    case _ => false
  }

  /** The step makes an eviction and a try_load() of one page overlap. */
  predicate Overlaps(s: State, a: Action)
    requires Enabled(s, a)
  {
    match a
    case Choose => Busy(s, s.queue[0].page)
    case ReadPtr(_, p) => s.latch == Evicting(p)
    case _ => false
  }

  ghost predicate UntornAt(s: State, schedule: seq<Action>, k: nat)
    requires Run(s, schedule).Some? && k < |schedule|
  {
    Enabled(At(s, schedule, k), schedule[k]) && !Torn(At(s, schedule, k), schedule[k])
  }

  ghost predicate ApartAt(s: State, schedule: seq<Action>, k: nat)
    requires Run(s, schedule).Some? && k < |schedule|
  {
    Enabled(At(s, schedule, k), schedule[k]) && !Overlaps(At(s, schedule, k), schedule[k])
  }

  /** No step of the schedule is torn. */
  ghost predicate Untorn(s: State, schedule: seq<Action>)
    requires Run(s, schedule).Some?
  {
    forall k :: 0 <= k < |schedule| ==> UntornAt(s, schedule, k)
  }

  /** No eviction of a page overlaps a try_load() of it. */
  ghost predicate Apart(s: State, schedule: seq<Action>)
    requires Run(s, schedule).Some?
  {
    forall k :: 0 <= k < |schedule| ==> ApartAt(s, schedule, k)
  }
}
