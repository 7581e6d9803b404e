/**
 * Two runs of the log as it is written in which a publish comes too late: an entry starting
 * with 0x7f, for which no position is published, reaches the file before it is filled; and a
 * stale store to _allocate_lsn drives ready_lsn below the persistent position.
 */
module LogLate {
  import opened Wrappers
  import opened Log
  import opened LogProof

  /** A property that every action of the log preserves. */
  ghost predicate Closed(reached: State -> bool) {
    forall m: State, a: Action {:trigger Apply(m, a)} :: reached(m) && Enabled(m, a) ==> reached(Apply(m, a))
  }

  const CFG := Config(2048, 2, 512, 512)
  const QUIET := Writer(None, 0, Idle)

  /** A ring whose first `n` bytes are 1. */
  function Ring(n: nat): seq<Byte> { seq(2048, i => if i < n then 1 else 0) }

  function Ones(n: nat): seq<Byte> { seq(n, i => 1) }

  const START := State(CFG, 0, 0, Ring(0), [], [QUIET, QUIET], Sleeping, [])

  ghost predicate Reached(m: State) {
    exists schedule :: Run(START, schedule) == Some(m)
  }

  lemma ReachedClosed()
    ensures Closed((m: State) => Reached(m)) && Reached(START)
  {
    forall m: State, a: Action | Reached(m) && Enabled(m, a)
      ensures Reached(Apply(m, a))
    {
      var p :| Run(START, p) == Some(m);
      assert (p + [a])[..|p + [a]| - 1] == p;
      assert Run(START, p + [a]) == Some(Apply(m, a));
    }
    assert Run(START, []) == Some(START);
  }

  // ----- no store: the entry starts with 0x7f

  const MARKED: seq<Byte> := seq(512, i => 0x7f)

  /** Reserved, nothing copied yet. */
  const UNFILLED := State(CFG, 512, 0, Ring(0), [], [Writer(None, 0, Filling(MARKED, 0, 0, 0)), QUIET], Sleeping, [Rec(0, MARKED)])

  lemma RunMarked(reached: State -> bool)
    requires Closed(reached) && reached(START)
    ensures reached(UNFILLED)
  {
    assert reached(Apply(START, Guard(0, MARKED)));
    var s1 := Apply(START, Guard(0, MARKED));
    assert reached(Apply(s1, SkipStore(0)));
    var s2 := Apply(s1, SkipStore(0));
    assert reached(Apply(s2, Reserve(0)));
    assert Apply(s2, Reserve(0)) == UNFILLED;
  }

  /** A scan that reads, for both writers, nothing that holds it back. */
  lemma RunFreeScan(reached: State -> bool, s: State) returns (s': State)
    requires Closed(reached) && reached(s) && s.fl == Sleeping && |s.ws| == 2
    requires forall w :: 0 <= w < 2 ==> s.ws[w].alloc.None? || s.ws[w].alloc.value < s.ws[w].filled
    ensures reached(s') && s' == s.(fl := Scan(2, s.lsn))
  {
    assert reached(Apply(s, StartScan));
    var s1 := Apply(s, StartScan);
    assert reached(Apply(s1, ReadFilled));
    var s2 := Apply(s1, ReadFilled);
    assert reached(Apply(s2, ReadAlloc));
    var s3 := Apply(s2, ReadAlloc);
    assert reached(Apply(s3, ReadFilled));
    var s4 := Apply(s3, ReadFilled);
    assert reached(Apply(s4, ReadAlloc));
    s' := Apply(s4, ReadAlloc);
  }

  /** One byte of the ring is in the file, and the writer has copied nothing. */
  const EARLY := UNFILLED.(fl := Flushing(512, 1), file := [0])

  lemma RunEarly(reached: State -> bool)
    requires Closed(reached) && reached(UNFILLED)
    ensures reached(EARLY)
  {
    var s1 := RunFreeScan(reached, UNFILLED);
    assert EndLsn(CFG, 0, 512) == 512;
    assert reached(Apply(s1, StartFlush));
    var s2 := UNFILLED.(fl := Flushing(512, 0));
    assert Apply(s1, StartFlush) == s2;
    assert reached(Apply(s2, FlushByte));
    assert Apply(s2, FlushByte) == EARLY;
  }

  lemma EarlyNotCopied()
    ensures !Copied(EARLY, 0, 0) && EARLY.file[0] != MARKED[0] && EARLY.recs == [Rec(0, MARKED)]
  {
    assert EARLY.ws[0].pc == Filling(MARKED, 0, 0, 0);
  }

  /** The first byte in the file is not the entry's, and its writer has not copied it. */
  lemma UnfilledByteFlushed()
    ensures Init(START)
    ensures exists schedule :: Run(START, schedule).Some? && (var f := Run(START, schedule).value;
      f.recs == [Rec(0, MARKED)] && |f.file| == 1 && f.file[0] != MARKED[0] && !Copied(f, 0, 0))
  {
    ReachedClosed();
    var reached := (m: State) => Reached(m);
    RunMarked(reached);
    RunEarly(reached);
    EarlyNotCopied();
    var schedule :| Run(START, schedule) == Some(EARLY);
  }

  // ----- a stale store

  const PLAIN: seq<Byte> := Ones(512)

  /** Writer 0 has loaded position 0; writer 1 has copied `k` bytes of its entry. */
  function Copying(k: nat): State {
    State(CFG, 512, 0, Ring(k), [], [Writer(None, 0, Loaded(PLAIN, 0)), Writer(Some(0), 0, Filling(PLAIN, 0, k, 0))],
        Sleeping, [Rec(0, PLAIN)])
  }

  lemma RunLoads(reached: State -> bool)
    requires Closed(reached) && reached(START)
    ensures reached(Copying(0))
  {
    assert reached(Apply(START, Guard(0, PLAIN)));
    var s1 := Apply(START, Guard(0, PLAIN));
    assert reached(Apply(s1, Load(0)));
    var s2 := Apply(s1, Load(0));
    assert reached(Apply(s2, Guard(1, PLAIN)));
    var s3 := Apply(s2, Guard(1, PLAIN));
    assert reached(Apply(s3, Load(1)));
    var s4 := Apply(s3, Load(1));
    assert reached(Apply(s4, Store(1)));
    var s5 := Apply(s4, Store(1));
    assert s5.ws == [Writer(None, 0, Loaded(PLAIN, 0)), Writer(Some(0), 0, Published(PLAIN))];
    assert reached(Apply(s5, Reserve(1)));
    assert Apply(s5, Reserve(1)) == Copying(0);
  }

  lemma {:induction false} RunCopies(reached: State -> bool, k: nat)
    requires Closed(reached) && reached(START) && k <= 512
    ensures reached(Copying(k))
  {
    if k == 0 {
      RunLoads(reached);
    } else {
      RunCopies(reached, k - 1);
      assert reached(Apply(Copying(k - 1), CopyByte(1)));
      assert Ring(k - 1)[k - 1 := 1] == Ring(k);
      assert Apply(Copying(k - 1), CopyByte(1)) == Copying(k);
    }
  }

  /** Both entries done as far as the flusher can see; `k` bytes flushed. */
  function Draining(k: nat): State {
    State(CFG, 512, 0, Ring(512), Ones(k), [Writer(None, 0, Loaded(PLAIN, 0)), Writer(Some(0), 512, Idle)],
        Flushing(512, k), [Rec(0, PLAIN)])
  }

  lemma {:induction false} RunDrain(reached: State -> bool, k: nat)
    requires Closed(reached) && reached(START) && k <= 512
    ensures reached(Draining(k))
  {
    if k == 0 {
      RunCopies(reached, 512);
      assert reached(Apply(Copying(512), SetFilled(1)));
      var s1 := Apply(Copying(512), SetFilled(1));
      var s2 := RunFreeScan(reached, s1);
      assert reached(Apply(s2, StartFlush));
      assert Apply(s2, StartFlush) == Draining(0);
    } else {
      RunDrain(reached, k - 1);
      assert reached(Apply(Draining(k - 1), FlushByte));
      assert Ring(512)[k - 1] == 1;
      assert Ones(k - 1) + [1] == Ones(k);
      assert Apply(Draining(k - 1), FlushByte) == Draining(k);
    }
  }

  /** Writer 0 stores the position 0 that it loaded before 512 bytes became persistent. */
  const STALE := State(CFG, 512, 512, Ring(512), Ones(512),
      [Writer(Some(0), 0, Published(PLAIN)), Writer(Some(0), 512, Idle)], Sleeping, [Rec(0, PLAIN)])

  lemma RunStale(reached: State -> bool)
    requires Closed(reached) && reached(START)
    ensures reached(STALE)
  {
    RunDrain(reached, 512);
    assert reached(Apply(Draining(512), Persist));
    var s1 := Apply(Draining(512), Persist);
    assert reached(Apply(s1, Store(0)));
    assert Late(s1, Store(0));
    assert Apply(s1, Store(0)) == STALE;
  }

  lemma RunLowScan(reached: State -> bool) returns (f: State)
    requires Closed(reached) && reached(START)
    ensures reached(f) && f == STALE.(fl := Scan(2, 0))
  {
    RunStale(reached);
    assert reached(Apply(STALE, StartScan));
    var s1 := Apply(STALE, StartScan);
    assert reached(Apply(s1, ReadFilled));
    var s2 := Apply(s1, ReadFilled);
    assert reached(Apply(s2, ReadAlloc));
    var s3 := Apply(s2, ReadAlloc);
    assert s3.fl == Scan(1, 0);
    assert reached(Apply(s3, ReadFilled));
    var s4 := Apply(s3, ReadFilled);
    assert reached(Apply(s4, ReadAlloc));
    f := Apply(s4, ReadAlloc);
  }

  /** The scan that follows ends at 0, below the persistent position 512: the assertion of tryFlush() fires. */
  lemma ReadyBelowPersistent()
    ensures Init(START)
    ensures exists schedule :: Run(START, schedule).Some? && (var f := Run(START, schedule).value;
      f.fl == Scan(2, 0) && |f.ws| == 2 && f.pers == 512)
  {
    ReachedClosed();
    var f := RunLowScan((m: State) => Reached(m));
    var schedule :| Run(START, schedule) == Some(f);
  }
}
