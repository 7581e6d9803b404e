/**
 * What goes wrong in the page cache when steps are torn or overlap: four runs in which a page
 * that is pinned is evicted. Each has one kind of careless step at the root.
 */
module PageCacheRaces {
  import opened Wrappers
  import opened PageCacheRuns

  const Start := State(map[], [], 0, 0, 0, [Idle, Idle], multiset{}, Free, false)

  datatype Care = Full | ApartOnly | UntornOnly

  /** The schedule leads to `m` with the care told by `c`. */
  ghost predicate To(schedule: seq<Action>, m: State, c: Care) {
    && Run(Start, schedule) == Some(m)
    && (!c.UntornOnly? ==> Apart(Start, schedule))
    && (!c.ApartOnly? ==> Untorn(Start, schedule))
  }

  lemma Extend(schedule: seq<Action>, m: State, a: Action)
    requires Run(Start, schedule) == Some(m) && Enabled(m, a)
    ensures Run(Start, schedule + [a]) == Some(Apply(m, a))
  {
    assert (schedule + [a])[..|schedule|] == schedule;
  }

  lemma SamePrefix(schedule: seq<Action>, a: Action, k: nat)
    requires Run(Start, schedule).Some? && Run(Start, schedule + [a]).Some? && k <= |schedule|
    ensures At(Start, schedule + [a], k) == At(Start, schedule, k)
    ensures k == |schedule| ==> At(Start, schedule, k) == Run(Start, schedule).value
  {
    assert (schedule + [a])[..k] == schedule[..k];
    if k == |schedule| { assert schedule[..k] == schedule; }
  }

  lemma Step(schedule: seq<Action>, m: State, a: Action, c: Care)
    requires To(schedule, m, c) && Enabled(m, a) && (c.UntornOnly? || !Overlaps(m, a)) && (c.ApartOnly? || !Torn(m, a))
    ensures To(schedule + [a], Apply(m, a), c)
  {
    var longer := schedule + [a];
    Extend(schedule, m, a);
    forall k | 0 <= k < |longer|
      ensures (!c.UntornOnly? ==> ApartAt(Start, longer, k)) && (!c.ApartOnly? ==> UntornAt(Start, longer, k))
    {
      SamePrefix(schedule, a, k);
      if k < |schedule| {
        assert (!c.UntornOnly? ==> ApartAt(Start, schedule, k)) && (!c.ApartOnly? ==> UntornAt(Start, schedule, k));
      }
    }
  }

  // ----- operations that nothing comes between

  function NewSteps(p: Page): seq<Action> {
    [NewStart(p), NewLoad, NewStore, Publish]
  }

  lemma NewTicks(schedule: seq<Action>, m: State, p: Page, c: Care)
    requires To(schedule, m, c) && m.latch.Free? && p !in m.cache
    ensures To(schedule + [NewStart(p)] + [NewLoad] + [NewStore],
               m.(latch := NewTicked(p, m.clock + 1), clock := m.clock + 1, ticks := m.ticks + 1), c)
  {
    Step(schedule, m, NewStart(p), c);
    var m1 := m.(latch := New(p));
    Step(schedule + [NewStart(p)], m1, NewLoad, c);
    var m2 := m.(latch := NewClock(p, m.clock));
    Step(schedule + [NewStart(p)] + [NewLoad], m2, NewStore, c);
  }

  lemma NewAlone(schedule: seq<Action>, m: State, p: Page, c: Care)
    requires To(schedule, m, c) && m.latch.Free? && p !in m.cache
    ensures To(schedule + NewSteps(p),
               m.(cache := m.cache[p := Node(m.born, m.clock + 1, 1)], born := m.born + 1, pins := m.pins + multiset{p},
                  clock := m.clock + 1, ticks := m.ticks + 1), c)
  {
    NewTicks(schedule, m, p, c);
    var before := schedule + [NewStart(p)] + [NewLoad] + [NewStore];
    var m3 := m.(latch := NewTicked(p, m.clock + 1), clock := m.clock + 1, ticks := m.ticks + 1);
    Step(before, m3, Publish, c);
    assert before + [Publish] == schedule + NewSteps(p);
  }

  function CountSteps(t: nat, p: Page): seq<Action> {
    [ReadPtr(t, p), LoadCnt(t), StoreCnt(t)]
  }

  function TickSteps(t: nat): seq<Action> {
    [LoadClock(t), StoreClock(t)]
  }

  function CountedBy(m: State, t: nat, p: Page): State
    requires t < |m.loaders| && p in m.cache
  {
    m.(cache := m.cache[p := m.cache[p].(cnt := m.cache[p].cnt + 1)], loaders := m.loaders[t := Counted(p, m.cache[p].id)])
  }

  lemma CountAlone(schedule: seq<Action>, m: State, t: nat, p: Page, c: Care)
    requires To(schedule, m, c) && t < |m.loaders| && m.loaders[t].Idle? && p in m.cache && m.latch != Evicting(p)
    ensures To(schedule + CountSteps(t, p), CountedBy(m, t, p), c)
  {
    var n := m.cache[p];
    Step(schedule, m, ReadPtr(t, p), c);
    var m1 := SetLoader(m, t, HasPtr(p, n.id));
    Step(schedule + [ReadPtr(t, p)], m1, LoadCnt(t), c);
    var m2 := SetLoader(m, t, HasCnt(p, n.id, n.cnt));
    assert SetLoader(m1, t, HasCnt(p, n.id, n.cnt)) == m2;
    Step(schedule + [ReadPtr(t, p)] + [LoadCnt(t)], m2, StoreCnt(t), c);
    assert m2.loaders[t := Counted(p, n.id)] == m.loaders[t := Counted(p, n.id)];
    assert schedule + [ReadPtr(t, p)] + [LoadCnt(t)] + [StoreCnt(t)] == schedule + CountSteps(t, p);
  }

  lemma TickAlone(schedule: seq<Action>, m: State, t: nat, c: Care)
    requires To(schedule, m, c) && t < |m.loaders| && m.loaders[t].Counted?
    ensures To(schedule + TickSteps(t),
               m.(loaders := m.loaders[t := Ticked(m.loaders[t].p, m.loaders[t].id, m.clock + 1)], clock := m.clock + 1,
                   ticks := m.ticks + 1),
               c)
  {
    var p, id := m.loaders[t].p, m.loaders[t].id;
    Step(schedule, m, LoadClock(t), c);
    var m1 := SetLoader(m, t, HasClock(p, id, m.clock));
    Step(schedule + [LoadClock(t)], m1, StoreClock(t), c);
    assert m1.loaders[t := Ticked(p, id, m.clock + 1)] == m.loaders[t := Ticked(p, id, m.clock + 1)];
    assert schedule + [LoadClock(t)] + [StoreClock(t)] == schedule + TickSteps(t);
  }

  function Max(a: nat, b: nat): nat {
    if a < b then b else a
  }

  lemma StampAlone(schedule: seq<Action>, m: State, t: nat, c: Care)
    requires To(schedule, m, c) && t < |m.loaders| && m.loaders[t].Ticked? && m.latch != HitBy(t)
    requires Alive(m, m.loaders[t].p, m.loaders[t].id)
    ensures var l := m.loaders[t];
      To(schedule + [LoadTs(t)] + [Stamp(t)],
         m.(cache := m.cache[l.p := m.cache[l.p].(ts := Max(m.cache[l.p].ts, l.now))], loaders := m.loaders[t := Idle],
            pins := m.pins + multiset{l.p}), c)
  {
    var l := m.loaders[t];
    var ts := Max(m.cache[l.p].ts, l.now);
    Step(schedule, m, LoadTs(t), c);
    var m1 := SetLoader(m, t, HasTs(l.p, l.id, ts));
    Step(schedule + [LoadTs(t)], m1, Stamp(t), c);
    assert m1.loaders[t := Idle] == m.loaders[t := Idle];
  }

  function FinishedBy(m: State, t: nat): State
    requires t < |m.loaders| && m.loaders[t].Counted? && m.loaders[t].p in m.cache
  {
    var p := m.loaders[t].p;
    m.(cache := m.cache[p := m.cache[p].(ts := Max(m.cache[p].ts, m.clock + 1))], loaders := m.loaders[t := Idle],
       pins := m.pins + multiset{p}, clock := m.clock + 1, ticks := m.ticks + 1)
  }

  lemma FinishAlone(schedule: seq<Action>, m: State, t: nat, c: Care)
    requires To(schedule, m, c) && t < |m.loaders| && m.loaders[t].Counted? && m.latch != HitBy(t)
    requires Alive(m, m.loaders[t].p, m.loaders[t].id)
    ensures To(schedule + TickSteps(t) + [LoadTs(t)] + [Stamp(t)], FinishedBy(m, t), c)
  {
    var l := m.loaders[t];
    TickAlone(schedule, m, t, c);
    var m1 := m.(loaders := m.loaders[t := Ticked(l.p, l.id, m.clock + 1)], clock := m.clock + 1, ticks := m.ticks + 1);
    StampAlone(schedule + TickSteps(t), m1, t, c);
    assert m1.loaders[t := Idle] == m.loaders[t := Idle];
  }

  function LoadedBy(m: State, p: Page): State
    requires p in m.cache
  {
    m.(cache := m.cache[p := Node(m.cache[p].id, Max(m.cache[p].ts, m.clock + 1), m.cache[p].cnt + 1)],
       pins := m.pins + multiset{p}, clock := m.clock + 1, ticks := m.ticks + 1)
  }

  lemma CountedThenFinished(m: State, t: nat, p: Page)
    requires t < |m.loaders| && m.loaders[t].Idle? && p in m.cache
    ensures FinishedBy(CountedBy(m, t, p), t) == LoadedBy(m, p)
  {
    assert m.loaders[t := Counted(p, m.cache[p].id)][t := Idle] == m.loaders;
  }

  lemma LoadAlone(schedule: seq<Action>, m: State, t: nat, p: Page, c: Care)
    requires To(schedule, m, c) && t < |m.loaders| && m.loaders[t].Idle? && p in m.cache && m.latch != Evicting(p) && m.latch != HitBy(t)
    ensures To(schedule + CountSteps(t, p) + TickSteps(t) + [LoadTs(t)] + [Stamp(t)], LoadedBy(m, p), c)
  {
    CountAlone(schedule, m, t, p, c);
    FinishAlone(schedule + CountSteps(t, p), CountedBy(m, t, p), t, c);
    CountedThenFinished(m, t, p);
  }

  /** load_and_swap() of a page that is there counts it under the latch. */
  lemma HitCounts(schedule: seq<Action>, m: State, t: nat, p: Page, c: Care)
    requires To(schedule, m, c) && t < |m.loaders| && m.loaders[t].Idle? && p in m.cache && m.latch.Free?
    ensures To(schedule + [HitPtr(t, p)] + [LoadCnt(t)] + [StoreCnt(t)], CountedBy(m, t, p).(latch := HitBy(t)), c)
  {
    var n := m.cache[p];
    Step(schedule, m, HitPtr(t, p), c);
    var m1 := SetLoader(m, t, HasPtr(p, n.id)).(latch := HitBy(t));
    Step(schedule + [HitPtr(t, p)], m1, LoadCnt(t), c);
    var m2 := SetLoader(m, t, HasCnt(p, n.id, n.cnt)).(latch := HitBy(t));
    assert m1.loaders[t := HasCnt(p, n.id, n.cnt)] == m2.loaders;
    Step(schedule + [HitPtr(t, p)] + [LoadCnt(t)], m2, StoreCnt(t), c);
    assert m2.loaders[t := Counted(p, n.id)] == m.loaders[t := Counted(p, n.id)];
  }

  /** And assigns the next tick, whatever the page's timestamp is. */
  lemma HitStamps(schedule: seq<Action>, m: State, t: nat, c: Care)
    requires To(schedule, m, c) && t < |m.loaders| && m.loaders[t].Ticked? && m.latch == HitBy(t)
    requires Alive(m, m.loaders[t].p, m.loaders[t].id)
    ensures var l := m.loaders[t];
      To(schedule + [LoadTs(t)] + [Stamp(t)],
         m.(cache := m.cache[l.p := m.cache[l.p].(ts := l.now)], loaders := m.loaders[t := Idle],
             pins := m.pins + multiset{l.p}, latch := Free), c)
  {
    var l := m.loaders[t];
    Step(schedule, m, LoadTs(t), c);
    var m1 := SetLoader(m, t, HasTs(l.p, l.id, l.now));
    Step(schedule + [LoadTs(t)], m1, Stamp(t), c);
    assert m1.loaders[t := Idle] == m.loaders[t := Idle];
  }

  const CheckSteps := [RelStore, RelCheck]

  lemma CheckAlone(schedule: seq<Action>, m: State, p: Page, c: Care)
    requires To(schedule, m, c) && m.latch.Free? && p in m.pins && p in m.cache && m.cache[p].cnt > 0
    ensures To(schedule + [RelLoad(p)] + CheckSteps,
               m.(cache := m.cache[p := m.cache[p].(cnt := m.cache[p].cnt - 1)], pins := m.pins - multiset{p},
                  latch := if m.cache[p].cnt == 1 then RelZero(p) else Free), c)
  {
    var n := m.cache[p];
    Step(schedule, m, RelLoad(p), c);
    var m1 := m.(latch := RelLoaded(p, n.cnt));
    Step(schedule + [RelLoad(p)], m1, RelStore, c);
    var m2 := m.(cache := m.cache[p := n.(cnt := n.cnt - 1)], pins := m.pins - multiset{p}, latch := RelStored(p));
    Step(schedule + [RelLoad(p)] + [RelStore], m2, RelCheck, c);
    assert schedule + [RelLoad(p)] + [RelStore] + [RelCheck] == schedule + [RelLoad(p)] + CheckSteps;
  }

  function ReleaseSteps(p: Page): seq<Action> {
    [RelLoad(p)] + CheckSteps + [RelPush]
  }

  lemma ReleaseAlone(schedule: seq<Action>, m: State, p: Page, c: Care)
    requires To(schedule, m, c) && m.latch.Free? && p in m.cache && m.cache[p].cnt == 1
    requires p in m.pins && (c.ApartOnly? || m.pins[p] == 1)
    ensures To(schedule + ReleaseSteps(p),
               m.(cache := m.cache[p := m.cache[p].(cnt := 0)], pins := m.pins - multiset{p},
                  queue := m.queue + [Visit(p, m.cache[p].ts)]), c)
  {
    CheckAlone(schedule, m, p, c);
    var m1 := m.(cache := m.cache[p := m.cache[p].(cnt := 0)], pins := m.pins - multiset{p}, latch := RelZero(p));
    Step(schedule + [RelLoad(p)] + CheckSteps, m1, RelPush, c);
    assert schedule + [RelLoad(p)] + CheckSteps + [RelPush] == schedule + ReleaseSteps(p);
  }

  lemma EvictAlone(schedule: seq<Action>, m: State, c: Care)
    requires To(schedule, m, c) && m.latch.Free? && m.queue != [] && Fresh(m.cache, m.queue[0]) && !Busy(m, m.queue[0].page)
    ensures To(schedule + [Choose] + [Remove], m.(cache := m.cache - {m.queue[0].page}, queue := m.queue[1..]), c)
  {
    Step(schedule, m, Choose, c);
    Step(schedule + [Choose], m.(latch := Evicting(m.queue[0].page)), Remove, c);
  }

  // ----- the runs

  const Pinned := State(map[0 := Node(0, 1, 1)], [], 1, 1, 1, [Idle, Idle], multiset{0}, Free, false)
  const Queued := Pinned.(cache := map[0 := Node(0, 1, 0)], queue := [Visit(0, 1)], pins := multiset{})

  const ToPinned := [] + NewSteps(0)
  const ToQueued := ToPinned + ReleaseSteps(0)

  lemma PinnedReached()
    ensures To(ToPinned, Pinned, Full)
  {
    assert To([], Start, Full);
    NewAlone([], Start, 0, Full);
    assert Start.cache[0 := Node(0, 1, 1)] == Pinned.cache && Start.pins + multiset{0} == Pinned.pins;
  }

  lemma QueuedReached()
    ensures To(ToQueued, Queued, Full)
  {
    PinnedReached();
    ReleaseAlone(ToPinned, Pinned, 0, Full);
    assert Pinned.cache[0 := Node(0, 1, 0)] == Queued.cache && Pinned.pins - multiset{0} == Queued.pins;
    assert Pinned.queue + [Visit(0, 1)] == Queued.queue;
  }

  /** A pinned page is not in the cache, and nothing is under way. */
  predicate PinLost(m: State) {
    Quiet(m) && 0 in m.pins && 0 !in m.cache
  }

  const OverlapRun := ToQueued + CountSteps(0, 0) + TickSteps(0) + [Choose] + [Remove] + [LoadTs(0)] + [Stamp(0)]

  /** A page is evicted between the count and the stamp of a load; no step is torn. */
  lemma EvictedWhileLoaded()
    ensures Run(Start, OverlapRun).Some? && Untorn(Start, OverlapRun)
    ensures PinLost(Run(Start, OverlapRun).value) && Run(Start, OverlapRun).value.broken
  {
    QueuedReached();
    CountAlone(ToQueued, Queued, 0, 0, UntornOnly);
    var m1 := Queued.(cache := map[0 := Node(0, 1, 1)], loaders := [Counted(0, 0), Idle]);
    assert CountedBy(Queued, 0, 0) == m1;
    TickAlone(ToQueued + CountSteps(0, 0), m1, 0, UntornOnly);
    var m2 := m1.(loaders := [Ticked(0, 0, 2), Idle], clock := 2, ticks := 2);
    assert m1.loaders[0 := Ticked(0, 0, 2)] == m2.loaders;
    EvictedThenStamped(ToQueued + CountSteps(0, 0) + TickSteps(0), m2);
  }

  lemma EvictedThenStamped(schedule: seq<Action>, m: State)
    requires To(schedule, m, UntornOnly) && m.latch.Free? && m.queue == [Visit(0, 1)] && m.cache == map[0 := Node(0, 1, 1)]
    requires m.loaders == [Ticked(0, 0, 2), Idle]
    ensures exists m' :: To(schedule + [Choose] + [Remove] + [LoadTs(0)] + [Stamp(0)], m', UntornOnly) && PinLost(m') && m'.broken
  {
    Step(schedule, m, Choose, UntornOnly);
    Step(schedule + [Choose], m.(latch := Evicting(0)), Remove, UntornOnly);
    var m2 := m.(cache := map[], queue := []);
    assert m.cache - {0} == m2.cache && m.queue[1..] == m2.queue && Visit(0, 1) == m.queue[0];
    Step(schedule + [Choose] + [Remove], m2, LoadTs(0), UntornOnly);
    var m3 := m2.(loaders := [HasTs(0, 0, 2), Idle], broken := true);
    assert m2.loaders[0 := HasTs(0, 0, 2)] == m3.loaders;
    Step(schedule + [Choose] + [Remove] + [LoadTs(0)], m3, Stamp(0), UntornOnly);
  }

  /**
   * After the careful schedule `before` comes one torn step, after which, with no overlap at
   * all, the run ends with a pinned page gone.
   */
  ghost predicate Race(before: seq<Action>, bad: Action, whole: seq<Action>) {
    && Run(Start, before).Some? && Untorn(Start, before) && Apart(Start, before)
    && Enabled(Run(Start, before).value, bad) && Torn(Run(Start, before).value, bad)
    && before + [bad] <= whole
    && Run(Start, whole).Some? && Apart(Start, whole) && PinLost(Run(Start, whole).value)
  }

  // ----- two loads read the same count

  const BeforeLostCount := ToQueued + [ReadPtr(0, 0)] + [LoadCnt(0)] + CountSteps(1, 0)
  const BothCounted := BeforeLostCount + [StoreCnt(0)]
  const BothLoaded := BothCounted + TickSteps(0) + [LoadTs(0)] + [Stamp(0)] + TickSteps(1) + [LoadTs(1)] + [Stamp(1)]
  const LostCountRun := BothLoaded + ReleaseSteps(0) + [Drop] + [Choose] + [Remove]

  const C0 := Queued.(cache := map[0 := Node(0, 1, 1)], loaders := [HasCnt(0, 0, 0), Counted(0, 0)])
  const C1 := C0.(loaders := [Counted(0, 0), Counted(0, 0)])
  const C2 := C0.(cache := map[0 := Node(0, 2, 1)], loaders := [Idle, Counted(0, 0)], clock := 2, ticks := 2, pins := multiset{0})
  const C3 := C0.(cache := map[0 := Node(0, 3, 1)], loaders := [Idle, Idle], clock := 3, ticks := 3, pins := multiset{0, 0})
  const C4 := C3.(cache := map[0 := Node(0, 3, 0)], queue := [Visit(0, 1), Visit(0, 3)], pins := multiset{0})

  lemma LostCount0()
    ensures To(BeforeLostCount, C0, Full)
  {
    QueuedReached();
    Step(ToQueued, Queued, ReadPtr(0, 0), Full);
    var m1 := Queued.(loaders := [HasPtr(0, 0), Idle]);
    assert Queued.loaders[0 := HasPtr(0, 0)] == m1.loaders;
    Step(ToQueued + [ReadPtr(0, 0)], m1, LoadCnt(0), Full);
    var m2 := Queued.(loaders := [HasCnt(0, 0, 0), Idle]);
    assert m1.loaders[0 := HasCnt(0, 0, 0)] == m2.loaders;
    CountAlone(ToQueued + [ReadPtr(0, 0)] + [LoadCnt(0)], m2, 1, 0, Full);
    assert m2.cache[0 := Node(0, 1, 1)] == C0.cache && m2.loaders[1 := Counted(0, 0)] == C0.loaders;
  }

  lemma LostCount1()
    ensures To(BothCounted, C1, ApartOnly)
  {
    LostCount0();
    Step(BeforeLostCount, C0, StoreCnt(0), ApartOnly);
    assert C0.loaders[0 := Counted(0, 0)] == C1.loaders && C0.cache[0 := Node(0, 1, 1)] == C1.cache;
  }

  lemma LostCount2()
    ensures To(BothCounted + TickSteps(0) + [LoadTs(0)] + [Stamp(0)], C2, ApartOnly)
  {
    LostCount1();
    FinishAlone(BothCounted, C1, 0, ApartOnly);
    assert C1.loaders[0 := Idle] == C2.loaders && C1.cache[0 := Node(0, 2, 1)] == C2.cache && C1.pins + multiset{0} == C2.pins;
  }

  lemma LostCount3()
    ensures To(BothLoaded, C3, ApartOnly)
  {
    LostCount2();
    FinishAlone(BothCounted + TickSteps(0) + [LoadTs(0)] + [Stamp(0)], C2, 1, ApartOnly);
    assert C2.loaders[1 := Idle] == C3.loaders && C2.cache[0 := Node(0, 3, 1)] == C3.cache && C2.pins + multiset{0} == C3.pins;
  }

  lemma LostCount4()
    ensures To(BothLoaded + ReleaseSteps(0), C4, ApartOnly)
  {
    LostCount3();
    ReleaseAlone(BothLoaded, C3, 0, ApartOnly);
    assert C3.cache[0 := Node(0, 3, 0)] == C4.cache && C3.queue + [Visit(0, 3)] == C4.queue && C3.pins - multiset{0} == C4.pins;
  }

  lemma LostCount5()
    ensures Run(Start, LostCountRun).Some? && Apart(Start, LostCountRun) && PinLost(Run(Start, LostCountRun).value)
  {
    LostCount4();
    Step(BothLoaded + ReleaseSteps(0), C4, Drop, ApartOnly);
    EvictAlone(BothLoaded + ReleaseSteps(0) + [Drop], C4.(queue := C4.queue[1..]), ApartOnly);
  }

  lemma LostCount()
    ensures Race(BeforeLostCount, StoreCnt(0), LostCountRun)
  {
    LostCount0();
    LostCount5();
  }

  // ----- a load puts the clock back

  const SlowTick := [] + NewSteps(1) + CountSteps(1, 1) + [LoadClock(1)]
  const ZeroLoaded := SlowTick + NewSteps(0) + CountSteps(0, 0) + TickSteps(0) + [LoadTs(0)] + [Stamp(0)]
  const BeforeLostTick := ZeroLoaded + [RelLoad(0)] + CheckSteps + ReleaseSteps(0)
  const TickLost := BeforeLostTick + [StoreClock(1)] + [LoadTs(1)] + [Stamp(1)]
  const LostTickRun := TickLost + CountSteps(0, 0) + TickSteps(0) + [LoadTs(0)] + [Stamp(0)] + [Choose] + [Remove]

  const T0 := State(map[1 := Node(0, 1, 1)], [], 1, 1, 1, [Idle, Idle], multiset{1}, Free, false)
  const T1 := T0.(cache := map[1 := Node(0, 1, 2)], loaders := [Idle, HasClock(1, 0, 1)])
  const T2 := T1.(cache := map[1 := Node(0, 1, 2), 0 := Node(1, 2, 1)], clock := 2, ticks := 2, born := 2, pins := multiset{1, 0})
  const T3 := T2.(cache := map[1 := Node(0, 1, 2), 0 := Node(1, 3, 2)], clock := 3, ticks := 3, pins := multiset{1, 0, 0})
  const T4 := T3.(cache := map[1 := Node(0, 1, 2), 0 := Node(1, 3, 1)], pins := multiset{1, 0})
  const T5 := T3.(cache := map[1 := Node(0, 1, 2), 0 := Node(1, 3, 0)], pins := multiset{1}, queue := [Visit(0, 3)])
  const T6 := T5.(cache := map[1 := Node(0, 2, 2), 0 := Node(1, 3, 0)], loaders := [Idle, Idle], clock := 2, ticks := 4,
      pins := multiset{1, 1})
  const T7 := T6.(cache := map[1 := Node(0, 2, 2), 0 := Node(1, 3, 1)], clock := 3, ticks := 5, pins := multiset{1, 1, 0})

  lemma LostTick1()
    ensures To(SlowTick, T1, Full)
  {
    assert To([], Start, Full);
    NewAlone([], Start, 1, Full);
    assert Start.cache[1 := Node(0, 1, 1)] == T0.cache && Start.pins + multiset{1} == T0.pins;
    CountAlone([] + NewSteps(1), T0, 1, 1, Full);
    var m := T1.(loaders := [Idle, Counted(1, 0)]);
    assert T0.cache[1 := Node(0, 1, 2)] == m.cache && T0.loaders[1 := Counted(1, 0)] == m.loaders;
    Step([] + NewSteps(1) + CountSteps(1, 1), m, LoadClock(1), Full);
    assert m.loaders[1 := HasClock(1, 0, 1)] == T1.loaders;
  }

  lemma LostTick2()
    ensures To(SlowTick + NewSteps(0), T2, Full)
  {
    LostTick1();
    NewAlone(SlowTick, T1, 0, Full);
    assert T1.cache[0 := Node(1, 2, 1)] == T2.cache && T1.pins + multiset{0} == T2.pins;
  }

  lemma LostTick3()
    ensures To(ZeroLoaded, T3, Full)
  {
    LostTick2();
    LoadAlone(SlowTick + NewSteps(0), T2, 0, 0, Full);
    assert T2.cache[0 := Node(1, 3, 2)] == T3.cache && T2.pins + multiset{0} == T3.pins;
  }

  lemma LostTick4()
    ensures To(ZeroLoaded + [RelLoad(0)] + CheckSteps, T4, Full)
  {
    LostTick3();
    CheckAlone(ZeroLoaded, T3, 0, Full);
    assert T3.cache[0 := Node(1, 3, 1)] == T4.cache && T3.pins - multiset{0} == T4.pins;
  }

  lemma LostTick5()
    ensures To(BeforeLostTick, T5, Full)
  {
    LostTick4();
    ReleaseAlone(ZeroLoaded + [RelLoad(0)] + CheckSteps, T4, 0, Full);
    assert T4.cache[0 := Node(1, 3, 0)] == T5.cache && T4.pins - multiset{0} == T5.pins && T4.queue + [Visit(0, 3)] == T5.queue;
  }

  lemma LostTick6()
    ensures To(TickLost, T6, ApartOnly)
  {
    LostTick5();
    Step(BeforeLostTick, T5, StoreClock(1), ApartOnly);
    var m := T5.(loaders := [Idle, Ticked(1, 0, 2)], clock := 2, ticks := 4);
    assert T5.loaders[1 := Ticked(1, 0, 2)] == m.loaders;
    StampAlone(BeforeLostTick + [StoreClock(1)], m, 1, ApartOnly);
    assert m.cache[1 := Node(0, 2, 2)] == T6.cache && m.pins + multiset{1} == T6.pins && m.loaders[1 := Idle] == T6.loaders;
  }

  /** The load of page 0 gets the timestamp the page has already. */
  lemma ReloadedOld()
    ensures LoadedBy(T6, 0) == T7
  {
    assert T6.cache[0 := Node(1, 3, 1)] == T7.cache && T6.pins + multiset{0} == T7.pins;
  }

  lemma LostTick7()
    ensures To(TickLost + CountSteps(0, 0) + TickSteps(0) + [LoadTs(0)] + [Stamp(0)], T7, ApartOnly)
  {
    LostTick6();
    LoadAlone(TickLost, T6, 0, 0, ApartOnly);
    ReloadedOld();
  }

  lemma LostTick8()
    ensures Run(Start, LostTickRun).Some? && Apart(Start, LostTickRun) && PinLost(Run(Start, LostTickRun).value)
  {
    LostTick7();
    EvictAlone(TickLost + CountSteps(0, 0) + TickSteps(0) + [LoadTs(0)] + [Stamp(0)], T7, ApartOnly);
  }

  lemma LostTick()
    ensures Race(BeforeLostTick, StoreClock(1), LostTickRun)
  {
    LostTick5();
    LostTick8();
  }

  // ----- a page is queued after it was loaded again

  const BeforeLatePush := ToPinned + [RelLoad(0)] + CheckSteps + CountSteps(0, 0) + TickSteps(0) + [LoadTs(0)] + [Stamp(0)]
  const LatePushRun := BeforeLatePush + [RelPush] + [Choose] + [Remove]

  const P0 := Pinned.(cache := map[0 := Node(0, 1, 0)], pins := multiset{}, latch := RelZero(0))
  const P1 := P0.(cache := map[0 := Node(0, 2, 1)], pins := multiset{0}, clock := 2, ticks := 2)

  lemma LatePush0()
    ensures To(ToPinned + [RelLoad(0)] + CheckSteps, P0, Full)
  {
    PinnedReached();
    CheckAlone(ToPinned, Pinned, 0, Full);
    assert Pinned.cache[0 := Node(0, 1, 0)] == P0.cache && Pinned.pins - multiset{0} == P0.pins;
  }

  lemma LatePush1()
    ensures To(BeforeLatePush, P1, Full)
  {
    LatePush0();
    LoadAlone(ToPinned + [RelLoad(0)] + CheckSteps, P0, 0, 0, Full);
    assert P0.cache[0 := Node(0, 2, 1)] == P1.cache && P0.pins + multiset{0} == P1.pins;
  }

  lemma LatePush2()
    ensures Run(Start, LatePushRun).Some? && Apart(Start, LatePushRun) && PinLost(Run(Start, LatePushRun).value)
  {
    LatePush1();
    Step(BeforeLatePush, P1, RelPush, ApartOnly);
    EvictAlone(BeforeLatePush + [RelPush], P1.(queue := P1.queue + [Visit(0, 2)], latch := Free), ApartOnly);
  }

  lemma LatePush()
    ensures Race(BeforeLatePush, RelPush, LatePushRun)
  {
    LatePush1();
    LatePush2();
  }
}
