/**
 * What the page cache keeps over whole runs, and exactly which runs keep it: those in which no
 * step is torn and no eviction overlaps a load of the same page.
 */
module PageCacheTheorems {
  import opened Wrappers
  import opened PageCacheRuns
  import opened PageCacheProof

  // ----- runs that take care

  lemma InitInv(s: State)
    requires Init(s)
    ensures Inv(s)
  {
    forall p: Page
      ensures PageOK(s, p)
    {
      assert s.pins[p] == 0;
    }
    forall t | 0 <= t < |s.loaders|
      ensures LoaderOK(s, t)
    {
    }
  }

  /** As long as no step is torn or makes an eviction and a load overlap, the invariant holds. */
  lemma {:induction false} InvAt(s: State, schedule: seq<Action>, n: nat)
    requires Init(s) && Run(s, schedule).Some? && n <= |schedule|
    requires forall k :: 0 <= k < n ==> UntornAt(s, schedule, k) && ApartAt(s, schedule, k)
    ensures Inv(At(s, schedule, n))
    decreases n
  {
    if n == 0 {
      InitInv(s);
    } else {
      InvAt(s, schedule, n - 1);
      AtNext(s, schedule, n - 1);
      assert UntornAt(s, schedule, n - 1) && ApartAt(s, schedule, n - 1);
      KeepInv(At(s, schedule, n - 1), schedule[n - 1]);
    }
  }

  lemma InvInOrder(s: State)
    requires Inv(s)
    ensures InOrder(s) && Safe(s)
  {
    forall p: Page
      ensures p in s.pins ==> p in s.cache
      ensures p in s.cache ==> s.cache[p].cnt == s.pins[p] + Half(s.loaders, p)
    {
      assert PageOK(s, p);
    }
    forall i | 0 <= i < |s.queue| && Fresh(s.cache, s.queue[i])
      ensures s.queue[i].page !in s.pins
    {
      assert PageOK(s, s.queue[i].page);
      StampsIn(s.queue, i);
    }
  }

  lemma RunInv(s: State, schedule: seq<Action>)
    requires Init(s) && Run(s, schedule).Some? && Untorn(s, schedule) && Apart(s, schedule)
    ensures Inv(Run(s, schedule).value)
  {
    var n := |schedule|;
    assert schedule[..n] == schedule;
    InvAt(s, schedule, n);
  }

  /**
   * In every such run everything is in order, and a page that is about to be evicted is in the
   * cache with count 0, is pinned by nobody, and is not being loaded.
   */
  lemma PinSafe(s: State, schedule: seq<Action>)
    requires Init(s) && Run(s, schedule).Some? && Untorn(s, schedule) && Apart(s, schedule)
    ensures var m := Run(s, schedule).value;
      && InOrder(m) && Safe(m)
      && (m.latch.Evicting? ==>
          var p := m.latch.p; p in m.cache && m.cache[p].cnt == 0 && p !in m.pins && !Busy(m, p))
  {
    RunInv(s, schedule);
    var m := Run(s, schedule).value;
    InvInOrder(m);
    if m.latch.Evicting? {
      assert PageOK(m, m.latch.p);
      NobodyLoads(m, m.latch.p);
    }
  }

  /**
   * The eviction gives up only when there is nothing to evict: with the queue empty, every page
   * is pinned or counted by a load that is not complete.
   */
  lemma NothingToEvict(s: State, schedule: seq<Action>)
    requires Init(s) && Run(s, schedule).Some? && Untorn(s, schedule) && Apart(s, schedule)
    requires var m := Run(s, schedule).value; m.latch.Free? && m.queue == []
    ensures var m := Run(s, schedule).value; forall p :: p in m.cache ==> p in m.pins || Busy(m, p)
  {
    RunInv(s, schedule);
    var m := Run(s, schedule).value;
    forall p | p in m.cache && p !in m.pins
      ensures Busy(m, p)
    {
      assert PageOK(m, p);
      if !Busy(m, p) {
        assert forall t :: 0 <= t < |m.loaders| ==> !Loading(m.loaders[t], p);
        HalfZero(m.loaders, p);
      }
    }
  }

  // ----- runs that do not

  /** Allocations are told apart by their ids. */
  predicate IdsOK(s: State) {
    && (forall p :: p in s.cache ==> s.cache[p].id < s.born)
    && (forall t :: 0 <= t < |s.loaders| && !s.loaders[t].Idle? ==> s.loaders[t].id < s.born)
  }

  lemma {:induction false} IdsAt(s: State, schedule: seq<Action>, n: nat)
    requires Init(s) && Run(s, schedule).Some? && n <= |schedule|
    ensures IdsOK(At(s, schedule, n))
    decreases n
  {
    if n > 0 {
      IdsAt(s, schedule, n - 1);
      AtNext(s, schedule, n - 1);
      KeepIds(At(s, schedule, n - 1), schedule[n - 1]);
    }
  }

  lemma LoaderKeepsIds(s: State, a: Action)
    requires OfLoader(a) && Enabled(s, a) && IdsOK(s)
    ensures IdsOK(Apply(s, a))
  {
    var s' := Apply(s, a);
    assert s'.loaders == s.loaders[a.t := s'.loaders[a.t]];
    forall p | p in s'.cache
      ensures s'.cache[p].id < s.born
    {
      SameIds(s, a, p);
    }
  }

  lemma SameIds(s: State, a: Action, p: Page)
    requires OfLoader(a) && Enabled(s, a) && p in Apply(s, a).cache
    ensures p in s.cache && Apply(s, a).cache[p].id == s.cache[p].id
  {
  }

  lemma OtherKeepsIds(s: State, a: Action)
    requires !OfLoader(a) && Enabled(s, a) && IdsOK(s)
    ensures IdsOK(Apply(s, a))
  {
    assert Apply(s, a).loaders == s.loaders;
  }

  lemma KeepIds(s: State, a: Action)
    requires Enabled(s, a) && IdsOK(s)
    ensures IdsOK(Apply(s, a))
  {
    if OfLoader(a) { LoaderKeepsIds(s, a); } else { OtherKeepsIds(s, a); }
  }

  /** The loader holds a page that is freed or about to be. */
  predicate Dangling(s: State, l: Loader) {
    !l.Idle? && (!Alive(s, l.p, l.id) || s.latch == Evicting(l.p))
  }

  predicate Doomed(s: State) {
    (s.latch.Evicting? && s.latch.p in s.pins) || exists t :: 0 <= t < |s.loaders| && Dangling(s, s.loaders[t])
  }

  /** From such a state there is no way back. */
  lemma StaysDoomed(s: State, a: Action)
    requires Enabled(s, a) && IdsOK(s) && Doomed(s) && Safe(Apply(s, a))
    ensures Doomed(Apply(s, a))
  {
    var s' := Apply(s, a);
    if s.latch.Evicting? && s.latch.p in s.pins {
      if a.Remove? {
        assert s.latch.p in s'.pins;
      }
    } else {
      var t :| 0 <= t < |s.loaders| && Dangling(s, s.loaders[t]);
      StillDangling(s, a, t);
    }
  }

  lemma StillDangling(s: State, a: Action, t: nat)
    requires Enabled(s, a) && IdsOK(s) && t < |s.loaders| && Dangling(s, s.loaders[t]) && !Apply(s, a).broken
    ensures Doomed(Apply(s, a))
  {
    if a == Stamp(t) {
      assert s.loaders[t].p in Apply(s, a).pins;
    } else if OfLoader(a) {
      LoaderKeepsDangling(s, a, t);
    } else {
      OtherKeepsDangling(s, a, t);
    }
  }

  lemma LoaderKeepsDangling(s: State, a: Action, t: nat)
    requires OfLoader(a) && a != Stamp(t) && Enabled(s, a) && IdsOK(s)
    requires t < |s.loaders| && Dangling(s, s.loaders[t]) && !Apply(s, a).broken
    ensures Dangling(Apply(s, a), Apply(s, a).loaders[t])
  {
  }

  lemma OtherKeepsDangling(s: State, a: Action, t: nat)
    requires !OfLoader(a) && Enabled(s, a) && IdsOK(s) && t < |s.loaders| && Dangling(s, s.loaders[t])
    ensures t < |Apply(s, a).loaders| && Dangling(Apply(s, a), Apply(s, a).loaders[t])
  {
    assert s.loaders[t].id < s.born;
  }

  ghost predicate SafeAt(s: State, schedule: seq<Action>, k: nat)
    requires Run(s, schedule).Some? && k <= |schedule|
  {
    Safe(At(s, schedule, k))
  }

  ghost predicate DoomedAt(s: State, schedule: seq<Action>, k: nat)
    requires Run(s, schedule).Some? && k <= |schedule|
  {
    Doomed(At(s, schedule, k))
  }

  lemma DoomedNext(s: State, schedule: seq<Action>, k: nat)
    requires Init(s) && Run(s, schedule).Some? && k < |schedule|
    requires DoomedAt(s, schedule, k) && SafeAt(s, schedule, k + 1)
    ensures DoomedAt(s, schedule, k + 1)
  {
    AtNext(s, schedule, k);
    IdsAt(s, schedule, k);
    StaysDoomed(At(s, schedule, k), schedule[k]);
  }

  lemma {:induction false} DoomedUpTo(s: State, schedule: seq<Action>, k: nat, n: nat)
    requires Init(s) && Run(s, schedule).Some? && k <= n <= |schedule|
    requires DoomedAt(s, schedule, k) && forall i :: 0 <= i <= n ==> SafeAt(s, schedule, i)
    ensures DoomedAt(s, schedule, n)
    decreases n - k
  {
    if k < n {
      DoomedNext(s, schedule, k);
      DoomedUpTo(s, schedule, k + 1, n);
    }
  }

  lemma OverlapDooms(s: State, a: Action)
    requires Inv(s) && Enabled(s, a) && Overlaps(s, a)
    ensures Doomed(Apply(s, a))
  {
    var s' := Apply(s, a);
    if a.Choose? {
      var p := s.queue[0].page;
      var t :| 0 <= t < |s.loaders| && Loading(s.loaders[t], p);
      assert Dangling(s', s'.loaders[t]);
    } else {
      assert Dangling(s', s'.loaders[a.t]);
    }
  }

  lemma TornBreaks(s: State, a: Action)
    requires Inv(s) && Enabled(s, a) && Torn(s, a)
    ensures !InOrder(Apply(s, a))
  {
    var s' := Apply(s, a);
    if a.StoreCnt? {
      var p := s.loaders[a.t].p;
      assert PageOK(s, p);
      HalfUpdate(s.loaders, a.t, s'.loaders[a.t], p);
      assert s'.cache[p].cnt != s'.pins[p] + Half(s'.loaders, p);
    } else if a.RelStore? {
      var p := s.latch.p;
      assert PageOK(s, p);
      assert s'.cache[p].cnt != s'.pins[p] + Half(s'.loaders, p);
    } else if a.RelPush? {
      var i := |s.queue|;
      assert Fresh(s'.cache, s'.queue[i]) && s'.queue[i].page in s'.pins;
    }
  }

  /** The first step of the schedule that is torn or overlaps. */
  lemma {:induction false} FirstCareless(s: State, schedule: seq<Action>, n: nat) returns (k: nat)
    requires Run(s, schedule).Some? && n <= |schedule|
    requires exists j :: 0 <= j < n && !(UntornAt(s, schedule, j) && ApartAt(s, schedule, j))
    ensures k < n && !(UntornAt(s, schedule, k) && ApartAt(s, schedule, k))
    ensures forall j :: 0 <= j < k ==> UntornAt(s, schedule, j) && ApartAt(s, schedule, j)
    decreases n
  {
    if exists j :: 0 <= j < n - 1 && !(UntornAt(s, schedule, j) && ApartAt(s, schedule, j)) {
      k := FirstCareless(s, schedule, n - 1);
    } else {
      k := n - 1;
    }
  }

  /** A run that ends quietly, with a first step at `k` that overlaps, has done harm on the way. */
  lemma OverlapHarms(s: State, schedule: seq<Action>, k: nat)
    requires Init(s) && Run(s, schedule).Some? && Quiet(Run(s, schedule).value)
    requires k < |schedule| && Inv(At(s, schedule, k)) && !ApartAt(s, schedule, k)
    ensures exists i :: 0 <= i <= |schedule| && !SafeAt(s, schedule, i)
  {
    var n := |schedule|;
    AtNext(s, schedule, k);
    OverlapDooms(At(s, schedule, k), schedule[k]);
    assert schedule[..n] == schedule;
    if forall i :: 0 <= i <= n ==> SafeAt(s, schedule, i) {
      DoomedUpTo(s, schedule, k + 1, n);
      assert false;
    }
  }

  /**
   * The condition of PinSafe is exact: a run that ends quietly is in order all along if and only
   * if no step is torn and no eviction overlaps a load.
   */
  lemma CareIsExact(s: State, schedule: seq<Action>)
    requires Init(s) && Run(s, schedule).Some? && Quiet(Run(s, schedule).value)
    ensures Untorn(s, schedule) && Apart(s, schedule) <==> forall i :: 0 <= i <= |schedule| ==> InOrder(At(s, schedule, i))
  {
    var n := |schedule|;
    assert schedule[..n] == schedule;
    if Untorn(s, schedule) && Apart(s, schedule) {
      forall i | 0 <= i <= n
        ensures InOrder(At(s, schedule, i))
      {
        InvAt(s, schedule, i);
        InvInOrder(At(s, schedule, i));
      }
    } else {
      var k := FirstCareless(s, schedule, n);
      InvAt(s, schedule, k);
      AtNext(s, schedule, k);
      if !UntornAt(s, schedule, k) {
        TornBreaks(At(s, schedule, k), schedule[k]);
        assert !InOrder(At(s, schedule, k + 1));
      } else {
        OverlapHarms(s, schedule, k);
        var i :| 0 <= i <= n && !SafeAt(s, schedule, i);
        assert !InOrder(At(s, schedule, i));
      }
    }
  }

  /**
   * Among the runs without a torn step that end quietly, those that never access freed memory
   * and never lose a pinned page are exactly those in which no eviction overlaps a load.
   */
  lemma OverlapIsExact(s: State, schedule: seq<Action>)
    requires Init(s) && Run(s, schedule).Some? && Quiet(Run(s, schedule).value) && Untorn(s, schedule)
    ensures Apart(s, schedule) <==> forall i :: 0 <= i <= |schedule| ==> SafeAt(s, schedule, i)
  {
    var n := |schedule|;
    assert schedule[..n] == schedule;
    if Apart(s, schedule) {
      forall i | 0 <= i <= n
        ensures SafeAt(s, schedule, i)
      {
        InvAt(s, schedule, i);
        InvInOrder(At(s, schedule, i));
      }
    } else {
      var k := FirstCareless(s, schedule, n);
      InvAt(s, schedule, k);
      OverlapHarms(s, schedule, k);
    }
  }
}
