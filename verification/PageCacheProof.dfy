/**
 * The page cache's invariant: what every step keeps that is neither torn nor makes an eviction
 * and a load overlap.
 */
module PageCacheProof {
  import opened PageCacheRuns

  /** The timestamps of the queue entries of `p`. */
  function Stamps(queue: seq<Visit>, p: Page): multiset<nat> {
    if queue == [] then multiset{}
    else
      var v := queue[|queue| - 1];
      Stamps(queue[..|queue| - 1], p) + if v.page == p then multiset{v.ts} else multiset{}
  }

  /** How many queue entries of `p` are up to date. */
  function Entries(s: State, p: Page): nat
    requires p in s.cache
  {
    Stamps(s.queue, p)[s.cache[p].ts]
  }

  predicate Unpinning(l: Latch, p: Page) {
    l == RelStored(p) || l == RelZero(p)
  }

  /**
   * Counts are exact. A pinned page has no entry that is up to date, an unpinned one has one,
   * unless it is about to be queued.
   */
  ghost predicate PageOK(s: State, p: Page) {
    && (forall x: nat :: Stamps(s.queue, p)[x] > 0 ==> x <= s.clock)
    && (p !in s.cache ==> p !in s.pins)
    && (p in s.cache ==> NodeOK(s.cache[p], s.pins[p], Half(s.loaders, p), Entries(s, p), s.clock, Unpinning(s.latch, p)))
  }

  predicate NodeOK(n: Node, pins: nat, half: nat, entries: nat, clock: nat, unpinning: bool) {
    && n.cnt == pins + half && n.ts <= clock && entries <= 1
    && (pins > 0 || unpinning ==> entries == 0)
    && (n.cnt == 0 && !unpinning ==> entries == 1)
  }

  /** The timestamp a loader is going to put on its page. */
  function Stamped(l: Loader): nat
    requires l.Ticked? || l.HasTs?
  {
    if l.Ticked? then l.now else l.ts
  }

  /** That timestamp is newer than the page's, or the page was pinned since the clock was read. */
  predicate TickOK(s: State, p: Page, now: nat)
    requires p in s.cache
  {
    && now <= s.clock && Stamps(s.queue, p)[now] == 0
    && (s.cache[p].ts < now || (Entries(s, p) == 0 && (s.latch == RelZero(p) ==> p in s.pins)))
  }

  predicate LoaderOK(s: State, t: nat)
    requires t < |s.loaders|
  {
    var l := s.loaders[t];
    !l.Idle? ==> Alive(s, l.p, l.id) && s.latch != Evicting(l.p) && (l.Ticked? || l.HasTs? ==> TickOK(s, l.p, Stamped(l)))
  }

  predicate LatchOK(s: State) {
    match s.latch
    case RelLoaded(p, v) => p in s.cache && p in s.pins && v >= 1
    case RelStored(p) => p in s.cache
    case RelZero(p) => p in s.cache
    case New(p) => p !in s.cache
    case NewClock(p, _) => p !in s.cache
    case NewTicked(p, now) => p !in s.cache && now <= s.clock && Stamps(s.queue, p)[now] == 0
    case Evicting(p) => s.queue != [] && s.queue[0].page == p && p in s.cache && s.cache[p].ts == s.queue[0].ts && p !in s.pins
    case _ => true
  }

  ghost predicate LoadersOK(s: State) {
    forall t :: 0 <= t < |s.loaders| ==> LoaderOK(s, t)
  }

  ghost predicate Inv(s: State) {
    && !s.broken && s.clock == s.ticks
    && LatchOK(s) && LoadersOK(s)
    && forall p: Page :: PageOK(s, p)
  }

  // ----- counting

  function One(b: bool): nat {
    if b then 1 else 0
  }

  lemma {:induction false} HalfUpdate(ls: seq<Loader>, t: nat, l: Loader, p: Page)
    requires t < |ls|
    ensures Half(ls[t := l], p) + One(HalfDone(ls[t], p)) == Half(ls, p) + One(HalfDone(l, p))
    decreases |ls|
  {
    var n := |ls| - 1;
    if t < n {
      assert ls[t := l][..n] == ls[..n][t := l];
      HalfUpdate(ls[..n], t, l, p);
    } else {
      assert ls[t := l][..n] == ls[..n];
    }
  }

  lemma {:induction false} HalfPositive(ls: seq<Loader>, t: nat, p: Page)
    requires t < |ls| && HalfDone(ls[t], p)
    ensures Half(ls, p) >= 1
    decreases |ls|
  {
    if t < |ls| - 1 { HalfPositive(ls[..|ls| - 1], t, p); }
  }

  lemma {:induction false} HalfZero(ls: seq<Loader>, p: Page)
    requires forall t :: 0 <= t < |ls| ==> !Loading(ls[t], p)
    ensures Half(ls, p) == 0
    decreases |ls|
  {
    if ls != [] { HalfZero(ls[..|ls| - 1], p); }
  }

  lemma {:induction false} StampsIn(queue: seq<Visit>, i: nat)
    requires i < |queue|
    ensures Stamps(queue, queue[i].page)[queue[i].ts] > 0
    decreases |queue|
  {
    if i < |queue| - 1 { StampsIn(queue[..|queue| - 1], i); }
  }

  lemma StampsPush(queue: seq<Visit>, v: Visit, p: Page)
    ensures forall x: nat :: Stamps(queue + [v], p)[x] == Stamps(queue, p)[x] + One(v == Visit(p, x))
  {
    assert (queue + [v])[..|queue|] == queue;
  }

  lemma {:induction false} StampsPop(queue: seq<Visit>, p: Page)
    requires queue != []
    ensures forall x: nat :: Stamps(queue, p)[x] == Stamps(queue[1..], p)[x] + One(queue[0] == Visit(p, x))
    decreases |queue|
  {
    var n := |queue| - 1;
    if n > 0 {
      StampsPop(queue[..n], p);
      assert queue[..n][1..] == queue[1..][..n - 1];
      assert queue[1..][n - 1] == queue[n];
    } else {
      assert queue == [] + [queue[0]];
      StampsPush([], queue[0], p);
    }
  }

  // ----- what each step keeps of a page

  ghost predicate Good(s: State, a: Action) {
    Enabled(s, a) && !Torn(s, a) && !Overlaps(s, a)
  }

  predicate OfLoader(a: Action) {
    a.ReadPtr? || a.HitPtr? || a.LoadCnt? || a.StoreCnt? || a.LoadClock? || a.StoreClock? || a.LoadTs? || a.Stamp?
  }

  predicate OfRelease(a: Action) {
    a.RelLoad? || a.RelStore? || a.RelCheck? || a.RelPush?
  }

  predicate OfNew(a: Action) {
    a.NewStart? || a.NewLoad? || a.NewStore? || a.Publish?
  }

  predicate OfQueue(a: Action) {
    a.Drop? || a.Choose? || a.Remove?
  }

  /** Nothing of the page changes, the clock may have moved on. */
  lemma Frame(s: State, s': State, q: Page)
    requires PageOK(s, q) && s'.queue == s.queue && s'.clock >= s.clock && s'.pins[q] == s.pins[q]
    requires (q in s.cache) == (q in s'.cache) && (q in s.cache ==> s'.cache[q] == s.cache[q])
    requires Half(s'.loaders, q) == Half(s.loaders, q) && Unpinning(s'.latch, q) == Unpinning(s.latch, q)
    ensures PageOK(s', q)
  {
  }

  lemma StoreCntKeepsPage(s: State, t: nat)
    requires Good(s, StoreCnt(t)) && LoaderOK(s, t) && PageOK(s, s.loaders[t].p)
    ensures PageOK(Apply(s, StoreCnt(t)), s.loaders[t].p)
  {
    HalfUpdate(s.loaders, t, Counted(s.loaders[t].p, s.loaders[t].id), s.loaders[t].p);
  }

  lemma StampKeepsPage(s: State, t: nat)
    requires Good(s, Stamp(t)) && LoaderOK(s, t) && PageOK(s, s.loaders[t].p)
    ensures PageOK(Apply(s, Stamp(t)), s.loaders[t].p)
  {
    HalfUpdate(s.loaders, t, Idle, s.loaders[t].p);
  }

  lemma LoaderKeepsPage(s: State, a: Action, q: Page)
    requires OfLoader(a) && Good(s, a) && LoaderOK(s, a.t) && PageOK(s, q)
    ensures PageOK(Apply(s, a), q)
  {
    var s' := Apply(s, a);
    if a.StoreCnt? && s.loaders[a.t].p == q {
      StoreCntKeepsPage(s, a.t);
    } else if a.Stamp? && s.loaders[a.t].p == q {
      StampKeepsPage(s, a.t);
    } else {
      HalfUpdate(s.loaders, a.t, s'.loaders[a.t], q);
      Frame(s, s', q);
    }
  }

  lemma RelLoadKeepsPage(s: State, p: Page, q: Page)
    requires Good(s, RelLoad(p)) && PageOK(s, q)
    ensures PageOK(Apply(s, RelLoad(p)), q)
  {
    if p in s.cache {
      Frame(s, s.(latch := RelLoaded(p, s.cache[p].cnt)), q);
    } else if q != p {
      Frame(s, s.(pins := s.pins - multiset{p}), q);
    }
  }

  lemma RelStoreKeepsPage(s: State, q: Page)
    requires Good(s, RelStore) && LatchOK(s) && PageOK(s, q)
    ensures PageOK(Apply(s, RelStore), q)
  {
    var s' := DoRelStore(s);
    if q == s.latch.p {
      assert s.pins[q] >= 1 && s'.pins[q] == s.pins[q] - 1 && s'.cache[q] == s.cache[q].(cnt := s.latch.v - 1);
      assert Entries(s', q) == Entries(s, q) == 0;
    } else {
      Frame(s, s', q);
    }
  }

  lemma RelCheckKeepsPage(s: State, q: Page)
    requires Good(s, RelCheck) && LatchOK(s) && PageOK(s, q)
    ensures PageOK(Apply(s, RelCheck), q)
  {
    if q != s.latch.p { Frame(s, Apply(s, RelCheck), q); }
  }

  lemma RelPushKeepsPage(s: State)
    requires Good(s, RelPush) && LatchOK(s) && PageOK(s, s.latch.p)
    ensures PageOK(Apply(s, RelPush), s.latch.p)
  {
    var p, s' := s.latch.p, Apply(s, RelPush);
    StampsPush(s.queue, Visit(p, s.cache[p].ts), p);
    assert Entries(s', p) == Entries(s, p) + 1;
  }

  lemma RelPushKeepsOther(s: State, q: Page)
    requires Good(s, RelPush) && LatchOK(s) && PageOK(s, q) && q != s.latch.p
    ensures PageOK(Apply(s, RelPush), q)
  {
    var s' := Apply(s, RelPush);
    StampsPush(s.queue, Visit(s.latch.p, s.cache[s.latch.p].ts), q);
    assert q in s.cache ==> Entries(s', q) == Entries(s, q);
  }

  lemma ReleaseKeepsPage(s: State, a: Action, q: Page)
    requires OfRelease(a) && Good(s, a) && LatchOK(s) && PageOK(s, q)
    ensures PageOK(Apply(s, a), q)
  {
    match a
    case RelLoad(p) => RelLoadKeepsPage(s, p, q);
    case RelStore => RelStoreKeepsPage(s, q);
    case RelCheck => RelCheckKeepsPage(s, q);
    case RelPush => if q == s.latch.p { RelPushKeepsPage(s); } else { RelPushKeepsOther(s, q); }
  }

  lemma PublishKeepsPage(s: State)
    requires Good(s, Publish) && LatchOK(s) && PageOK(s, s.latch.p) && Half(s.loaders, s.latch.p) == 0
    ensures PageOK(Apply(s, Publish), s.latch.p)
  {
    assert s.pins[s.latch.p] == 0;
  }

  lemma NewKeepsPage(s: State, a: Action, q: Page)
    requires OfNew(a) && Good(s, a) && LatchOK(s) && PageOK(s, q)
    requires a.Publish? ==> Half(s.loaders, s.latch.p) == 0
    ensures PageOK(Apply(s, a), q)
  {
    if a.Publish? && q == s.latch.p {
      PublishKeepsPage(s);
    } else {
      Frame(s, Apply(s, a), q);
    }
  }

  lemma DropKeepsPage(s: State, q: Page)
    requires Good(s, Drop) && PageOK(s, q)
    ensures PageOK(Apply(s, Drop), q)
  {
    StampsPop(s.queue, q);
  }

  lemma RemoveKeepsPage(s: State, q: Page)
    requires Good(s, Remove) && LatchOK(s) && PageOK(s, q)
    ensures PageOK(Apply(s, Remove), q)
  {
    StampsPop(s.queue, q);
  }

  lemma QueueKeepsPage(s: State, a: Action, q: Page)
    requires OfQueue(a) && Good(s, a) && LatchOK(s) && PageOK(s, q)
    ensures PageOK(Apply(s, a), q)
  {
    if a.Drop? {
      DropKeepsPage(s, q);
    } else if a.Choose? {
      Frame(s, Apply(s, a), q);
    } else {
      RemoveKeepsPage(s, q);
    }
  }

  // ----- what each step keeps of a loader

  /** A step of another thread that changes nothing the timestamp depends on. */
  lemma FrameLoader(s: State, s': State, u: nat)
    requires u < |s.loaders| == |s'.loaders| && s'.loaders[u] == s.loaders[u] && LoaderOK(s, u)
    requires s'.queue == s.queue && s'.latch == s.latch && s'.clock >= s.clock
    requires !s.loaders[u].Idle? ==> s.loaders[u].p in s'.cache && s'.cache[s.loaders[u].p].id == s.cache[s.loaders[u].p].id
    requires !s.loaders[u].Idle? ==> s'.cache[s.loaders[u].p].ts == s.cache[s.loaders[u].p].ts
    requires !s.loaders[u].Idle? && s.loaders[u].p in s.pins ==> s.loaders[u].p in s'.pins
    ensures LoaderOK(s', u)
  {
  }

  /** A page is stamped while another loader holds a timestamp for it. */
  lemma StampKeepsLoader(s: State, t: nat, u: nat)
    requires Good(s, Stamp(t)) && LoaderOK(s, t) && t != u && u < |s.loaders| && LoaderOK(s, u)
    ensures LoaderOK(Apply(s, Stamp(t)), u)
  {
  }

  lemma OwnLoader(s: State, a: Action)
    requires OfLoader(a) && Good(s, a) && LoaderOK(s, a.t) && (s.loaders[a.t].Idle? || PageOK(s, s.loaders[a.t].p))
    ensures LoaderOK(Apply(s, a), a.t)
  {
    if a.StoreClock? {
      var l := s.loaders[a.t];
      assert Stamps(s.queue, l.p)[s.clock + 1] == 0;
    }
  }

  lemma LoaderKeepsLoader(s: State, a: Action, u: nat)
    requires OfLoader(a) && Good(s, a) && LoaderOK(s, a.t) && u < |s.loaders| && LoaderOK(s, u) && u != a.t
    ensures LoaderOK(Apply(s, a), u)
  {
    if a.Stamp? {
      StampKeepsLoader(s, a.t, u);
    } else {
      FrameLoader(s, Apply(s, a).(latch := s.latch), u);
    }
  }

  lemma RelPushKeepsLoader(s: State, u: nat)
    requires Good(s, RelPush) && LatchOK(s) && u < |s.loaders| && LoaderOK(s, u)
    ensures LoaderOK(Apply(s, RelPush), u)
  {
    var l := s.loaders[u];
    if l.Ticked? || l.HasTs? { StampsPush(s.queue, Visit(s.latch.p, s.cache[s.latch.p].ts), l.p); }
  }

  /** While a loader has counted itself, no release finds the count 0. */
  lemma ReleaseKeepsLoader(s: State, a: Action, u: nat)
    requires OfRelease(a) && !a.RelPush? && Good(s, a) && LatchOK(s) && u < |s.loaders| && LoaderOK(s, u)
    requires s.loaders[u].Idle? || PageOK(s, s.loaders[u].p)
    ensures LoaderOK(Apply(s, a), u)
  {
    var l := s.loaders[u];
    if l.Ticked? || l.HasTs? { HalfPositive(s.loaders, u, l.p); }
  }

  lemma NewKeepsLoader(s: State, a: Action, u: nat)
    requires OfNew(a) && Good(s, a) && LatchOK(s) && u < |s.loaders| && LoaderOK(s, u)
    ensures LoaderOK(Apply(s, a), u)
  {
  }

  lemma QueueKeepsLoader(s: State, a: Action, u: nat)
    requires OfQueue(a) && Good(s, a) && LatchOK(s) && u < |s.loaders| && LoaderOK(s, u)
    ensures LoaderOK(Apply(s, a), u)
  {
    var l := s.loaders[u];
    if !l.Idle? {
      assert Loading(l, l.p);
      StampsPop(s.queue, l.p);
    }
  }

  // ----- what each step keeps of the latch

  lemma LoaderKeepsLatch(s: State, a: Action)
    requires OfLoader(a) && Good(s, a) && LatchOK(s) && LoaderOK(s, a.t)
    ensures LatchOK(Apply(s, a))
  {
  }

  lemma OtherKeepsLatch(s: State, a: Action, p: Page)
    requires !OfLoader(a) && Good(s, a) && LatchOK(s) && PageOK(s, p)
    requires p == match a case RelLoad(p) => p case Choose => s.queue[0].page case NewStore => s.latch.p case _ => p
    ensures LatchOK(Apply(s, a))
  {
    if a.Choose? { StampsIn(s.queue, 0); }
    if a.RelLoad? { assert s.pins[p] >= 1; }
  }

  // ----- everything together

  lemma KeepPages(s: State, a: Action)
    requires Inv(s) && Good(s, a)
    ensures forall q: Page :: PageOK(Apply(s, a), q)
  {
    forall q: Page
      ensures PageOK(Apply(s, a), q)
    {
      assert PageOK(s, q);
      if OfLoader(a) {
        LoaderKeepsPage(s, a, q);
      } else if OfRelease(a) {
        ReleaseKeepsPage(s, a, q);
      } else if OfNew(a) {
        if a.Publish? { NobodyLoads(s, s.latch.p); }
        NewKeepsPage(s, a, q);
      } else {
        QueueKeepsPage(s, a, q);
      }
    }
  }

  /** Only pages in the cache are being loaded. */
  lemma NobodyLoads(s: State, p: Page)
    requires LoadersOK(s) && (p !in s.cache || s.latch == Evicting(p))
    ensures !Busy(s, p) && Half(s.loaders, p) == 0
  {
    forall t | 0 <= t < |s.loaders|
      ensures !Loading(s.loaders[t], p)
    {
      assert LoaderOK(s, t);
    }
    HalfZero(s.loaders, p);
  }

  lemma KeepLoader(s: State, a: Action, u: nat)
    requires Inv(s) && Good(s, a) && u < |s.loaders|
    ensures LoaderOK(Apply(s, a), u)
  {
    assert LoaderOK(s, u);
    assert s.loaders[u].Idle? || PageOK(s, s.loaders[u].p);
    if OfLoader(a) {
      assert LoaderOK(s, a.t);
      if u == a.t { OwnLoader(s, a); } else { LoaderKeepsLoader(s, a, u); }
    } else if OfRelease(a) {
      if a.RelPush? { RelPushKeepsLoader(s, u); } else { ReleaseKeepsLoader(s, a, u); }
    } else if OfNew(a) {
      NewKeepsLoader(s, a, u);
    } else {
      QueueKeepsLoader(s, a, u);
    }
  }

  lemma KeepLoaders(s: State, a: Action)
    requires Inv(s) && Good(s, a)
    ensures LoadersOK(Apply(s, a))
  {
    forall u | 0 <= u < |s.loaders|
      ensures LoaderOK(Apply(s, a), u)
    {
      KeepLoader(s, a, u);
    }
  }

  lemma KeepLatch(s: State, a: Action)
    requires Inv(s) && Good(s, a)
    ensures LatchOK(Apply(s, a))
  {
    if OfLoader(a) {
      assert LoaderOK(s, a.t);
      LoaderKeepsLatch(s, a);
    } else {
      var p := match a case RelLoad(p) => p case Choose => s.queue[0].page case NewStore => s.latch.p case _ => 0;
      assert PageOK(s, p);
      OtherKeepsLatch(s, a, p);
    }
  }

  lemma KeepFlags(s: State, a: Action)
    requires Good(s, a) && !s.broken && s.clock == s.ticks && LoadersOK(s)
    ensures !Apply(s, a).broken && Apply(s, a).clock == Apply(s, a).ticks
  {
    if OfLoader(a) { assert LoaderOK(s, a.t); }
  }

  lemma KeepInv(s: State, a: Action)
    requires Inv(s) && Good(s, a)
    ensures Inv(Apply(s, a))
  {
    KeepFlags(s, a);
    KeepLatch(s, a);
    KeepLoaders(s, a);
    KeepPages(s, a);
  }
}
