/**
 * The circular log is durable: what lies below the persistent position is in the file, intact.
 */
module LogProof {
  import opened Log

  // ----- what must not happen

  /** A writer between publishing and completing an entry holds the flusher back. */
  predicate Holding(w: Writer) {
    w.pc.Published? || w.pc.Filling?
  }

  /** The flusher does not pass the position `w` has published. */
  predicate HeldBack(w: Writer, h: nat) {
    Holding(w) ==> w.alloc.Some? && h <= w.alloc.value
  }

  /** How far the flusher may already go as far as writer `w` is concerned. */
  function Horizon(s: State, w: nat): nat {
    match s.fl
    case Sleeping => s.pers
    case Scan(i, ready) => if w < i && s.pers <= ready then EndLsn(s.cfg, s.pers, ready) else s.pers
    case HaveFilled(i, ready, f) => if w < i && s.pers <= ready then EndLsn(s.cfg, s.pers, ready) else s.pers
    case Flushing(end, k) => if s.pers <= end then end else s.pers
  }

  /**
   * The two ways in which the publishing of _allocate_lsn can come too late: a store of a value
   * that the flusher has passed since it was loaded, or no store at all (entries starting 0x7f).
   */
  predicate Late(s: State, a: Action) {
    a.SkipStore? || (a.Store? && Enabled(s, a) && s.ws[a.w].pc.v < Horizon(s, a.w))
  }

  // ----- the invariant

  function Ask(w: Writer): nat {
    if w.pc.Guarded? || w.pc.Loaded? || w.pc.Published? then Aligned(|w.pc.entry|) else 0
  }

  /** Bytes that writers past the guard have yet to reserve. */
  function Pending(ws: seq<Writer>): nat {
    if ws == [] then 0 else Pending(ws[..|ws| - 1]) + Ask(ws[|ws| - 1])
  }

  predicate WriterOK(s: State, i: nat)
    requires i < |s.ws|
  {
    var w := s.ws[i];
    && w.filled <= s.lsn
    && (w.alloc.Some? ==> w.alloc.value <= s.lsn)
    && (Holding(w) ==> w.alloc.Some? && w.filled <= w.alloc.value && s.pers <= w.alloc.value)
    && (!Holding(w) && w.alloc.Some? ==> w.alloc.value < w.filled)
    && match w.pc
       case Idle => true
       case Guarded(e) => 0 < |e| <= s.cfg.maxEntry
       case Loaded(e, v) => 0 < |e| <= s.cfg.maxEntry && w.filled <= v <= s.lsn
       case Published(e) => 0 < |e| <= s.cfg.maxEntry
       case Filling(e, at, k, j) => j < |s.recs| && s.recs[j] == Rec(at, e) && k <= |e| && w.alloc.value <= at
  }

  predicate FlusherOK(s: State) {
    match s.fl
    case Sleeping => |s.file| == s.pers
    case Scan(i, ready) =>
      && |s.file| == s.pers <= ready <= s.lsn && i <= |s.ws|
      && forall j :: 0 <= j < i ==> HeldBack(s.ws[j], EndLsn(s.cfg, s.pers, ready))
    case HaveFilled(i, ready, f) =>
      && |s.file| == s.pers <= ready <= s.lsn && i < |s.ws| && (forall j :: 0 <= j < i ==> HeldBack(s.ws[j], EndLsn(s.cfg, s.pers, ready)))
      && f <= s.ws[i].filled
      && (s.ws[i].alloc.Some? && s.ws[i].alloc.value >= f ==> s.pers <= s.ws[i].alloc.value)
    case Flushing(end, k) =>
      && s.pers + k <= end <= s.lsn && end % 512 == 0 && |s.file| == s.pers + k
      && forall j :: 0 <= j < |s.ws| ==> HeldBack(s.ws[j], end)
  }

  /** Entries lie one after the other below the reserved position. */
  predicate RecsOK(s: State) {
    && (forall j :: 0 <= j < |s.recs| ==> |s.recs[j].data| > 0 && s.recs[j].at + Aligned(|s.recs[j].data|) <= s.lsn)
    && (forall i, j :: 0 <= i < j < |s.recs| ==> s.recs[i].at + Aligned(|s.recs[i].data|) <= s.recs[j].at)
  }

  predicate OneFiller(s: State) {
    forall i, j :: 0 <= i < j < |s.ws| && s.ws[i].pc.Filling? && s.ws[j].pc.Filling? ==> s.ws[i].pc.rec != s.ws[j].pc.rec
  }

  /** Byte `o` of entry `j` has been copied into the ring. */
  predicate Copied(s: State, j: nat, o: nat) {
    forall w :: 0 <= w < |s.ws| && s.ws[w].pc.Filling? && s.ws[w].pc.rec == j ==> o < s.ws[w].pc.copied
  }

  /** In the file once flushed, and only after it was copied; in the ring before. */
  predicate ByteOK(s: State, j: nat, o: nat)
    requires j < |s.recs| && o < |s.recs[j].data| && |s.buf| > 0
  {
    var x := s.recs[j].at + o;
    if x < |s.file| then Copied(s, j, o) && s.file[x] == s.recs[j].data[o]
    else Copied(s, j, o) ==> s.buf[x % |s.buf|] == s.recs[j].data[o]
  }

  predicate BytesOK(s: State)
    requires |s.buf| > 0
  {
    forall j, o :: 0 <= j < |s.recs| && 0 <= o < |s.recs[j].data| ==> ByteOK(s, j, o)
  }

  predicate Inv(s: State) {
    && ValidConfig(s.cfg) && |s.buf| == s.cfg.size && |s.ws| == s.cfg.threads
    && s.pers <= s.lsn && s.pers % 512 == 0
    && s.lsn + Pending(s.ws) <= s.pers + s.cfg.size
    && RecsOK(s) && OneFiller(s) && FlusherOK(s) && BytesOK(s)
    && forall i :: 0 <= i < |s.ws| ==> WriterOK(s, i)
  }

  lemma {:induction false} PendingIdle(ws: seq<Writer>)
    requires forall w :: 0 <= w < |ws| ==> ws[w].pc.Idle?
    ensures Pending(ws) == 0
  {
    if ws != [] {
      PendingIdle(ws[..|ws| - 1]);
    }
  }

  lemma InitInv(s: State)
    requires Init(s)
    ensures Inv(s)
  {
    PendingIdle(s.ws);
  }

  lemma {:induction false} PendingUpdate(ws: seq<Writer>, i: nat, w: Writer)
    requires i < |ws|
    ensures Pending(ws[i := w]) + Ask(ws[i]) == Pending(ws) + Ask(w)
  {
    var n := |ws| - 1;
    if i == n {
      assert ws[i := w][..n] == ws[..n];
    } else {
      assert ws[i := w][..n] == ws[..n][i := w];
      PendingUpdate(ws[..n], i, w);
    }
  }

  /** With every entry at most M aligned bytes, T writers have at most T * M outstanding. */
  lemma {:induction false} PendingBound(ws: seq<Writer>, m: nat)
    requires m % 64 == 0
    requires forall i :: 0 <= i < |ws| && (ws[i].pc.Guarded? || ws[i].pc.Loaded? || ws[i].pc.Published?) ==> |ws[i].pc.entry| <= m
    ensures Pending(ws) <= m * |ws|
  {
    if ws != [] {
      var n := |ws| - 1;
      PendingBound(ws[..n], m);
      assert Ask(ws[n]) <= m;
      assert m * |ws| == m * n + m;
    }
  }

  // ----- the writers

  /** Bytes stay where they are as long as nobody starts, continues or ends copying. */
  lemma SameBytes(s: State, s': State)
    requires |s.buf| > 0 && s'.buf == s.buf && s'.file == s.file && s'.recs == s.recs && |s'.ws| == |s.ws|
    requires BytesOK(s)
    requires forall j, o :: 0 <= j < |s.recs| && 0 <= o < |s.recs[j].data| ==> Copied(s', j, o) == Copied(s, j, o)
    ensures BytesOK(s')
  {
    forall j, o | 0 <= j < |s'.recs| && 0 <= o < |s'.recs[j].data|
      ensures ByteOK(s', j, o)
    {
      assert ByteOK(s, j, o);
      assert Copied(s', j, o) == Copied(s, j, o);
    }
  }

  lemma SameFillers(s: State, s': State, j: nat, o: nat)
    requires |s'.ws| == |s.ws|
    requires forall w :: 0 <= w < |s.ws| ==> s'.ws[w].pc == s.ws[w].pc || (!s.ws[w].pc.Filling? && !s'.ws[w].pc.Filling?)
    ensures Copied(s', j, o) == Copied(s, j, o)
  {
    if !Copied(s, j, o) {
      var w :| 0 <= w < |s.ws| && s.ws[w].pc.Filling? && s.ws[w].pc.rec == j && !(o < s.ws[w].pc.copied);
      assert s'.ws[w].pc == s.ws[w].pc;
    }
  }

  lemma KeepGuard(s: State, w: nat, entry: seq<Byte>)
    requires Inv(s) && Enabled(s, Guard(w, entry))
    ensures Inv(Apply(s, Guard(w, entry)))
  {
    var s' := Apply(s, Guard(w, entry));
    assert WriterOK(s, w);
    forall i | 0 <= i < |s'.ws| ensures WriterOK(s', i) { assert WriterOK(s, i); }
    forall i | 0 <= i < |s'.ws| && (s'.ws[i].pc.Guarded? || s'.ws[i].pc.Loaded? || s'.ws[i].pc.Published?)
      ensures |s'.ws[i].pc.entry| <= s.cfg.maxEntry
    {
      assert WriterOK(s', i);
    }
    PendingBound(s'.ws, s.cfg.maxEntry);
    forall j, o | 0 <= j < |s.recs| && 0 <= o < |s.recs[j].data| ensures Copied(s', j, o) == Copied(s, j, o) { SameFillers(s, s', j, o); }
    SameBytes(s, s');
  }

  lemma KeepLoad(s: State, w: nat)
    requires Inv(s) && Enabled(s, Load(w))
    ensures Inv(Apply(s, Load(w)))
  {
    var s' := Apply(s, Load(w));
    forall i | 0 <= i < |s'.ws| ensures WriterOK(s', i) { assert WriterOK(s, i); }
    PendingUpdate(s.ws, w, s'.ws[w]);
    forall j, o | 0 <= j < |s.recs| && 0 <= o < |s.recs[j].data| ensures Copied(s', j, o) == Copied(s, j, o) { SameFillers(s, s', j, o); }
    SameBytes(s, s');
  }

  lemma StoreKeepsFlusher(s: State, w: nat)
    requires Enabled(s, Store(w)) && !Late(s, Store(w)) && FlusherOK(s) && WriterOK(s, w) && ValidConfig(s.cfg) && s.pers % 512 == 0
    ensures FlusherOK(Apply(s, Store(w))) && s.pers <= s.ws[w].pc.v
  {
    if s.fl.Scan? || s.fl.HaveFilled? { EndOfFlush(s.cfg, s.pers, s.fl.ready); }
    assert s.pers <= Horizon(s, w);
  }

  lemma KeepStore(s: State, w: nat)
    requires Inv(s) && Enabled(s, Store(w)) && !Late(s, Store(w))
    ensures Inv(Apply(s, Store(w)))
  {
    var s' := Apply(s, Store(w));
    assert WriterOK(s, w);
    StoreKeepsFlusher(s, w);
    forall i | 0 <= i < |s'.ws| ensures WriterOK(s', i) { assert WriterOK(s, i); }
    PendingUpdate(s.ws, w, s'.ws[w]);
    forall j, o | 0 <= j < |s.recs| && 0 <= o < |s.recs[j].data| ensures Copied(s', j, o) == Copied(s, j, o) { SameFillers(s, s', j, o); }
    SameBytes(s, s');
  }

  /** The condition is exact: a store keeps the invariant just when it is not late. */
  lemma StoreExact(s: State, w: nat)
    requires Inv(s) && Enabled(s, Store(w))
    ensures Inv(Apply(s, Store(w))) <==> !Late(s, Store(w))
  {
    if Late(s, Store(w)) {
      var s' := Apply(s, Store(w));
      assert WriterOK(s, w);
      assert Inv(s') ==> WriterOK(s', w) && FlusherOK(s');
      assert Inv(s') && s'.fl.Scan? && w < s'.fl.i ==> HeldBack(s'.ws[w], EndLsn(s'.cfg, s'.pers, s'.fl.ready));
    } else {
      KeepStore(s, w);
    }
  }

  /** Publishing nothing never keeps it. */
  lemma SkipStoreBreaks(s: State, w: nat)
    requires Inv(s) && Enabled(s, SkipStore(w))
    ensures !Inv(Apply(s, SkipStore(w)))
  {
    var s' := Apply(s, SkipStore(w));
    assert WriterOK(s, w);
    assert Inv(s') ==> WriterOK(s', w);
  }

  /** A publish in one step is never late. */
  lemma AtomicStoreOnTime(s: State, w: nat)
    requires Inv(s) && Enabled(s, Load(w))
    ensures Enabled(Apply(s, Load(w)), Store(w)) && !Late(Apply(s, Load(w)), Store(w))
  {
  }

  lemma KeepReserve(s: State, w: nat)
    requires Inv(s) && Enabled(s, Reserve(w))
    ensures Inv(DoReserve(s, w))
  {
    var s' := DoReserve(s, w);
    assert WriterOK(s, w);
    forall i | 0 <= i < |s'.ws| ensures WriterOK(s', i) { assert WriterOK(s, i); }
    PendingUpdate(s.ws, w, s'.ws[w]);
    assert |s.file| <= s.lsn;
    assert OneFiller(s') by {
      forall i | 0 <= i < |s.ws| && i != w && s.ws[i].pc.Filling? ensures s.ws[i].pc.rec < |s.recs| { assert WriterOK(s, i); }
    }
    ReservedBytes(s, w);
  }

  lemma ReservedBytes(s: State, w: nat)
    requires Inv(s) && Enabled(s, Reserve(w)) && |s.file| <= s.lsn
    ensures BytesOK(DoReserve(s, w))
  {
    var s', n := DoReserve(s, w), |s.recs|;
    forall j, o | 0 <= j < |s'.recs| && 0 <= o < |s'.recs[j].data|
      ensures ByteOK(s', j, o)
    {
      if j < n {
        assert ByteOK(s, j, o);
        SameCopied(s, s', w, j, o);
      } else {
        assert s'.ws[w].pc.rec == j && !(o < s'.ws[w].pc.copied);
        assert !Copied(s', j, o);
      }
    }
  }

  /** A writer that works on another entry does not matter. */
  lemma SameCopied(s: State, s': State, w: nat, j: nat, o: nat)
    requires |s'.ws| == |s.ws| && w < |s.ws|
    requires forall i :: 0 <= i < |s.ws| && i != w ==> s'.ws[i] == s.ws[i]
    requires s.ws[w].pc.Filling? ==> s.ws[w].pc.rec != j
    requires s'.ws[w].pc.Filling? ==> s'.ws[w].pc.rec != j
    ensures Copied(s', j, o) == Copied(s, j, o)
  {
    if !Copied(s, j, o) {
      var i :| 0 <= i < |s.ws| && s.ws[i].pc.Filling? && s.ws[i].pc.rec == j && !(o < s.ws[i].pc.copied);
      assert s'.ws[i] == s.ws[i];
    }
  }

  /** The writer of an entry decides how much of it is copied. */
  lemma CopiedBy(s: State, w: nat, o: nat)
    requires OneFiller(s) && w < |s.ws| && s.ws[w].pc.Filling?
    ensures Copied(s, s.ws[w].pc.rec, o) <==> o < s.ws[w].pc.copied
  {
  }

  lemma KeepSetFilled(s: State, w: nat)
    requires Inv(s) && Enabled(s, SetFilled(w))
    ensures Inv(Apply(s, SetFilled(w)))
  {
    var s' := Apply(s, SetFilled(w));
    assert WriterOK(s, w);
    forall i | 0 <= i < |s'.ws| ensures WriterOK(s', i) { assert WriterOK(s, i); }
    PendingUpdate(s.ws, w, s'.ws[w]);
    forall j, o | 0 <= j < |s.recs| && 0 <= o < |s.recs[j].data|
      ensures Copied(s', j, o) == Copied(s, j, o)
    {
      if s.ws[w].pc.rec == j {
        CopiedBy(s, w, o);
      } else {
        SameCopied(s, s', w, j, o);
      }
    }
    SameBytes(s, s');
  }

  lemma MultipleSize(n: nat, k: int)
    requires n > 0
    ensures k >= 1 ==> n * k >= n
    ensures k <= 0 ==> n * k <= 0
  {
  }

  /** Two positions less than a ring apart have different places in the ring. */
  lemma RingPlaces(x: nat, y: nat, n: nat)
    requires n > 0 && y < x < y + n
    ensures x % n != y % n
  {
    var qx, qy := x / n, y / n;
    assert x == n * qx + x % n;
    assert y == n * qy + y % n;
    assert n * qx - n * qy == n * (qx - qy);
    MultipleSize(n, qx - qy);
  }

  lemma KeepCopyByte(s: State, w: nat)
    requires Inv(s) && Enabled(s, CopyByte(w))
    ensures Inv(DoCopyByte(s, w))
  {
    var s' := DoCopyByte(s, w);
    assert WriterOK(s, w);
    forall i | 0 <= i < |s'.ws| ensures WriterOK(s', i) { assert WriterOK(s, i); }
    PendingUpdate(s.ws, w, s'.ws[w]);
    forall j, o | 0 <= j < |s'.recs| && 0 <= o < |s'.recs[j].data|
      ensures ByteOK(s', j, o)
    {
      CopiedByte(s, w, j, o);
    }
  }

  lemma CopiedByte(s: State, w: nat, j: nat, o: nat)
    requires Inv(s) && Enabled(s, CopyByte(w)) && j < |s.recs| && o < |s.recs[j].data|
    ensures ByteOK(DoCopyByte(s, w), j, o)
  {
    var s', p := DoCopyByte(s, w), s.ws[w].pc;
    assert WriterOK(s, w);
    var x, y := p.at + p.copied, s.recs[j].at + o;
    assert ByteOK(s, p.rec, p.copied) && ByteOK(s, j, o);
    CopiedBy(s, w, p.copied);
    assert |s.file| <= x < s.lsn && y < s.lsn;
    if j == p.rec {
      CopiedBy(s, w, o);
      CopiedBy(s', w, o);
      assert x == y <==> o == p.copied;
    } else {
      SameCopied(s, s', w, j, o);
      OtherEntry(s, p.rec, j, p.copied, o);
    }
    if |s.file| <= y < x {
      RingPlaces(x, y, |s.buf|);
    } else if x < y {
      RingPlaces(y, x, |s.buf|);
    }
  }

  lemma OtherEntry(s: State, i: nat, j: nat, o: nat, q: nat)
    requires RecsOK(s) && i < |s.recs| && j < |s.recs| && i != j && o < |s.recs[i].data| && q < |s.recs[j].data|
    ensures s.recs[i].at + o != s.recs[j].at + q
  {
    if i < j {
      assert s.recs[i].at + Aligned(|s.recs[i].data|) <= s.recs[j].at;
    } else {
      assert s.recs[j].at + Aligned(|s.recs[j].data|) <= s.recs[i].at;
    }
  }

  // ----- the flusher

  lemma KeepScan(s: State, a: Action)
    requires Inv(s) && Enabled(s, a) && (a.StartScan? || a.ReadFilled? || a.ReadAlloc? || a.GiveUp? || a.StartFlush?)
    ensures Inv(Apply(s, a))
  {
    var s' := Apply(s, a);
    forall i | 0 <= i < |s'.ws| ensures WriterOK(s', i) { assert WriterOK(s, i); }
    forall j, o | 0 <= j < |s.recs| && 0 <= o < |s.recs[j].data| ensures Copied(s', j, o) == Copied(s, j, o) { SameFillers(s, s', j, o); }
    SameBytes(s, s');
    if a.ReadFilled? || a.ReadAlloc? {
      assert WriterOK(s, s.fl.i);
    }
    if a.ReadAlloc? {
      EndOfFlush(s.cfg, s.pers, s'.fl.ready);
      EndMonotone(s.cfg, s.pers, s'.fl.ready, s.fl.ready);
    }
    if a.StartFlush? {
      EndOfFlush(s.cfg, s.pers, s.fl.ready);
    }
  }

  lemma EndOfFlush(c: Config, pers: nat, ready: nat)
    requires ValidConfig(c) && pers % 512 == 0 && pers <= ready
    ensures pers <= EndLsn(c, pers, ready) <= ready && EndLsn(c, pers, ready) % 512 == 0
    ensures EndLsn(c, pers, ready) - pers <= c.block < c.size
  {
  }

  lemma EndMonotone(c: Config, pers: nat, ready: nat, later: nat)
    requires ValidConfig(c) && pers % 512 == 0 && pers <= ready <= later
    ensures EndLsn(c, pers, ready) <= EndLsn(c, pers, later)
  {
    assert ready - ready % 512 == 512 * (ready / 512) <= 512 * (later / 512) == later - later % 512;
  }

  /** Below the end of a flush no entry is being filled. */
  lemma NobodyFills(s: State, j: nat, o: nat)
    requires Inv(s) && s.fl.Flushing? && j < |s.recs| && o < |s.recs[j].data| && s.recs[j].at + o < s.fl.end
    ensures Copied(s, j, o)
  {
    assert forall w :: 0 <= w < |s.ws| ==> WriterOK(s, w) && HeldBack(s.ws[w], s.fl.end);
  }

  lemma KeepFlushByte(s: State)
    requires Inv(s) && Enabled(s, FlushByte)
    ensures Inv(Apply(s, FlushByte))
  {
    var s' := Apply(s, FlushByte);
    forall i | 0 <= i < |s'.ws| ensures WriterOK(s', i) { assert WriterOK(s, i); }
    forall j, o | 0 <= j < |s'.recs| && 0 <= o < |s'.recs[j].data|
      ensures ByteOK(s', j, o)
    {
      assert ByteOK(s, j, o);
      SameFillers(s, s', j, o);
      if s.recs[j].at + o == |s.file| {
        NobodyFills(s, j, o);
      }
    }
  }

  lemma KeepPersist(s: State)
    requires Inv(s) && Enabled(s, Persist)
    ensures Inv(Apply(s, Persist))
  {
    var s' := Apply(s, Persist);
    forall i | 0 <= i < |s'.ws| ensures WriterOK(s', i) { assert WriterOK(s, i) && HeldBack(s.ws[i], s.fl.end); }
    forall j, o | 0 <= j < |s.recs| && 0 <= o < |s.recs[j].data| ensures Copied(s', j, o) == Copied(s, j, o) { SameFillers(s, s', j, o); }
    SameBytes(s, s');
  }

  lemma KeepInv(s: State, a: Action)
    requires Inv(s) && Enabled(s, a) && !Late(s, a)
    ensures Inv(Apply(s, a))
  {
    match a
    case Guard(w, e) => KeepGuard(s, w, e);
    case Load(w) => KeepLoad(s, w);
    case Store(w) => KeepStore(s, w);
    case Reserve(w) => KeepReserve(s, w);
    case CopyByte(w) => KeepCopyByte(s, w);
    case SetFilled(w) => KeepSetFilled(s, w);
    case FlushByte => KeepFlushByte(s);
    case Persist => KeepPersist(s);
    case _ => KeepScan(s, a);
  }

  // ----- whole runs

  /** No publish of the run comes too late. */
  predicate OnTime(s: State, schedule: seq<Action>) {
    if schedule == [] then true
    else
      var before := schedule[..|schedule| - 1];
      OnTime(s, before) && (Run(s, before).Some? ==> !Late(Run(s, before).value, schedule[|schedule| - 1]))
  }

  lemma {:induction false} RunInv(s: State, schedule: seq<Action>)
    requires Init(s) && OnTime(s, schedule) && Run(s, schedule).Some?
    ensures Inv(Run(s, schedule).value)
  {
    if schedule == [] {
      InitInv(s);
    } else {
      RunInv(s, schedule[..|schedule| - 1]);
      KeepInv(Run(s, schedule[..|schedule| - 1]).value, schedule[|schedule| - 1]);
    }
  }

  /** At `i` nothing is left unpublished, and a store directly follows its load. */
  predicate PublishesAt(schedule: seq<Action>, i: nat)
    requires i < |schedule|
  {
    !schedule[i].SkipStore? && (schedule[i].Store? ==> 0 < i && schedule[i - 1] == Load(schedule[i].w))
  }

  /** Every entry is published, in one step. */
  predicate AtomicPublish(schedule: seq<Action>) {
    forall i :: 0 <= i < |schedule| ==> PublishesAt(schedule, i)
  }

  /** Such runs are on time, whatever the flusher does. */
  lemma {:induction false} AtomicIsOnTime(s: State, schedule: seq<Action>)
    requires Init(s) && AtomicPublish(schedule)
    ensures OnTime(s, schedule)
  {
    if schedule != [] {
      var n := |schedule| - 1;
      var before, a := schedule[..n], schedule[n];
      forall i | 0 <= i < |before|
        ensures PublishesAt(before, i)
      {
        assert PublishesAt(schedule, i);
      }
      AtomicIsOnTime(s, before);
      assert PublishesAt(schedule, n);
      if a.Store? && Run(s, before).Some? {
        RunInv(s, before[..n - 1]);
        AtomicStoreOnTime(Run(s, before[..n - 1]).value, a.w);
      }
    }
  }

  lemma EntryInFile(s: State, j: nat)
    requires Inv(s) && j < |s.recs| && s.recs[j].at + |s.recs[j].data| <= s.pers
    ensures |s.file| >= s.pers && s.file[s.recs[j].at..s.recs[j].at + |s.recs[j].data|] == s.recs[j].data
  {
    var e := s.recs[j];
    forall o | 0 <= o < |e.data|
      ensures s.file[e.at + o] == e.data[o]
    {
      assert ByteOK(s, j, o);
    }
  }

  /** Every entry below the persistent position is in the file at its position, byte for byte. */
  lemma Durable(s: State, schedule: seq<Action>, j: nat)
    requires Init(s) && OnTime(s, schedule) && Run(s, schedule).Some?
    requires j < |Run(s, schedule).value.recs|
    requires var e := Run(s, schedule).value.recs[j]; e.at + |e.data| <= Run(s, schedule).value.pers
    ensures var f := Run(s, schedule).value;
            |f.file| >= f.pers && f.file[f.recs[j].at..f.recs[j].at + |f.recs[j].data|] == f.recs[j].data
  {
    RunInv(s, schedule);
    EntryInFile(Run(s, schedule).value, j);
  }

  /** No byte reaches the file before its writer has put it into the ring. */
  lemma NothingUnfilled(s: State, schedule: seq<Action>, j: nat, o: nat)
    requires Init(s) && OnTime(s, schedule) && Run(s, schedule).Some?
    requires j < |Run(s, schedule).value.recs| && o < |Run(s, schedule).value.recs[j].data|
    requires Run(s, schedule).value.recs[j].at + o < |Run(s, schedule).value.file|
    ensures Copied(Run(s, schedule).value, j, o)
  {
    RunInv(s, schedule);
    assert ByteOK(Run(s, schedule).value, j, o);
  }

  /** The assertion of tryFlush(): a finished scan never ends below the persistent position. */
  lemma ReadyAssertion(s: State, schedule: seq<Action>)
    requires Init(s) && OnTime(s, schedule) && Run(s, schedule).Some?
    requires Run(s, schedule).value.fl.Scan? && Run(s, schedule).value.fl.i == |Run(s, schedule).value.ws|
    ensures var f := Run(s, schedule).value;
            f.pers <= f.fl.ready && Enabled(f, StartFlush) && EndLsn(f.cfg, f.pers, f.fl.ready) - f.pers < f.cfg.size
  {
    RunInv(s, schedule);
    var f := Run(s, schedule).value;
    EndOfFlush(f.cfg, f.pers, f.fl.ready);
  }

  /** With atomic publishes all three hold in every interleaving, without a word about the flusher. */
  lemma AtomicLog(s: State, schedule: seq<Action>)
    requires Init(s) && AtomicPublish(schedule) && Run(s, schedule).Some?
    ensures var f := Run(s, schedule).value;
            && (forall j :: 0 <= j < |f.recs| && f.recs[j].at + |f.recs[j].data| <= f.pers ==>
                  |f.file| >= f.pers && f.file[f.recs[j].at..f.recs[j].at + |f.recs[j].data|] == f.recs[j].data)
            && (forall j, o :: 0 <= j < |f.recs| && 0 <= o < |f.recs[j].data| && f.recs[j].at + o < |f.file| ==> Copied(f, j, o))
            && (f.fl.Scan? && f.fl.i == |f.ws| ==> f.pers <= f.fl.ready)
  {
    AtomicIsOnTime(s, schedule);
    var f := Run(s, schedule).value;
    forall j | 0 <= j < |f.recs| && f.recs[j].at + |f.recs[j].data| <= f.pers
      ensures |f.file| >= f.pers && f.file[f.recs[j].at..f.recs[j].at + |f.recs[j].data|] == f.recs[j].data
    {
      Durable(s, schedule, j);
    }
    forall j, o | 0 <= j < |f.recs| && 0 <= o < |f.recs[j].data| && f.recs[j].at + o < |f.file|
      ensures Copied(f, j, o)
    {
      NothingUnfilled(s, schedule, j, o);
    }
    if f.fl.Scan? && f.fl.i == |f.ws| {
      ReadyAssertion(s, schedule);
    }
  }
}
