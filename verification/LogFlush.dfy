/**
 * How far a flush goes, what the log holds, and that it can always be drained
 * (untrusted/system/logger.cpp:367-411 and 449-529).
 */
module LogFlush {
  import opened Wrappers
  import opened Log
  import opened LogProof
  import opened LogHarm

  // ----- the end of a flush

  /** A place where a flush from `pers` with everything ready up to `ready` may end. */
  predicate MayEnd(c: Config, pers: nat, ready: nat, end: nat) {
    end % 512 == 0 && end <= ready && end <= pers + c.block
  }

  /** The largest one. */
  ghost predicate IsFlushEnd(c: Config, pers: nat, ready: nat, end: nat) {
    MayEnd(c, pers, ready, end) && forall x: nat :: MayEnd(c, pers, ready, x) ==> x <= end
  }

  lemma RoundedDown(x: nat, y: nat)
    requires y % 512 == 0 && y <= x
    ensures y <= x - x % 512 && (x - x % 512) % 512 == 0
  {
    assert y == 512 * (y / 512) && x - x % 512 == 512 * (x / 512) && y / 512 <= x / 512;
  }

  lemma EndIsLargest(c: Config, pers: nat, ready: nat)
    requires c.block % 512 == 0 && pers % 512 == 0 && pers <= EndLsn(c, pers, ready)
    ensures IsFlushEnd(c, pers, ready, EndLsn(c, pers, ready))
  {
    RoundedDown(ready, 0);
    forall x: nat | MayEnd(c, pers, ready, x)
      ensures x <= EndLsn(c, pers, ready)
    {
      RoundedDown(ready, x);
    }
  }

  predicate BlockAligned(s: State) {
    s.cfg.block % 512 == 0 && s.pers % 512 == 0 && (s.fl.Flushing? ==> s.fl.end % 512 == 0)
  }

  lemma StepAligned(s: State, a: Action)
    requires BlockAligned(s) && Enabled(s, a)
    ensures BlockAligned(Apply(s, a))
  {
    if a.StartFlush? { EndIsLargest(s.cfg, s.pers, s.fl.ready); }
  }

  lemma {:induction false} RunAligned(s: State, schedule: seq<Action>)
    requires Init(s) && Run(s, schedule).Some?
    ensures BlockAligned(Run(s, schedule).value)
  {
    if schedule != [] {
      RunAligned(s, schedule[..|schedule| - 1]);
      StepAligned(Run(s, schedule[..|schedule| - 1]).value, schedule[|schedule| - 1]);
    }
  }

  /** While a flush is under way, only its bytes are added to the file. */
  predicate Flushes(m: State, f: State, end: nat) {
    && f.fl.Flushing? && f.fl.end == end && f.pers == m.pers && f.cfg == m.cfg
    && |f.file| == |m.file| + f.fl.k
  }

  lemma FlushStep(m: State, f: State, a: Action, end: nat)
    requires Flushes(m, f, end) && Enabled(f, a) && !a.Persist?
    ensures Flushes(m, Apply(f, a), end)
  {
  }

  lemma RunLast(s: State, h: seq<Action>, a: Action)
    requires Run(s, h + [a]).Some?
    ensures Run(s, h).Some? && Enabled(Run(s, h).value, a) && Run(s, h + [a]) == Some(Apply(Run(s, h).value, a))
  {
    assert (h + [a])[..|h|] == h;
  }

  lemma {:induction false} FlushGoesOn(s: State, before: seq<Action>, middle: seq<Action>, m: State)
    requires Run(s, before) == Some(m) && Enabled(m, StartFlush) && Run(s, before + [StartFlush] + middle).Some?
    requires Persist !in middle
    ensures Flushes(m, Run(s, before + [StartFlush] + middle).value, EndLsn(m.cfg, m.pers, m.fl.ready))
    decreases |middle|
  {
    var start, end := before + [StartFlush], EndLsn(m.cfg, m.pers, m.fl.ready);
    if middle == [] {
      assert start + middle == start;
      RunLast(s, before, StartFlush);
    } else {
      var n := |middle| - 1;
      assert start + middle == start + middle[..n] + [middle[n]];
      RunLast(s, start + middle[..n], middle[n]);
      FlushGoesOn(s, before, middle[..n], m);
      FlushStep(m, Run(s, start + middle[..n]).value, middle[n], end);
    }
  }

  /**
   * In every run, a flush begun when a scan was over at `ready` moves the persistent position to
   * the largest multiple of 512 that is at most `ready` and at most one block away, and adds as
   * many bytes to the file.
   */
  lemma FlushReaches(s: State, before: seq<Action>, middle: seq<Action>)
    requires Init(s) && Run(s, before).Some? && Enabled(Run(s, before).value, StartFlush)
    requires Persist !in middle && Run(s, before + [StartFlush] + middle + [Persist]).Some?
    ensures var m, f := Run(s, before).value, Run(s, before + [StartFlush] + middle + [Persist]).value;
      IsFlushEnd(m.cfg, m.pers, m.fl.ready, f.pers) && f.pers >= m.pers && |f.file| == |m.file| + (f.pers - m.pers)
  {
    var all := before + [StartFlush] + middle + [Persist];
    assert all[..|all| - 1] == before + [StartFlush] + middle;
    var m := Run(s, before).value;
    FlushGoesOn(s, before, middle, m);
    RunAligned(s, before);
    EndIsLargest(m.cfg, m.pers, m.fl.ready);
  }

  // ----- what is logged

  /** The log as the calls tell it: entries on the way, entries reserved, next position. */
  datatype Calls = Calls(pending: map<nat, seq<Byte>>, recs: seq<Rec>, next: nat)

  /** Entries are reserved one behind the other, each as its writer handed it over. */
  function Called(schedule: seq<Action>): Calls {
    if schedule == [] then Calls(map[], [], 0)
    else
      var c := Called(schedule[..|schedule| - 1]);
      match schedule[|schedule| - 1]
      case Guard(w, entry) => c.(pending := c.pending[w := entry])
      case Reserve(w) =>
        if w in c.pending then c.(recs := c.recs + [Rec(c.next, c.pending[w])], next := c.next + Aligned(|c.pending[w]|)) else c
      case _ => c
  }

  predicate OnTheWay(s: State, c: Calls, w: nat)
    requires w < |s.ws|
  {
    !s.ws[w].pc.Idle? ==> w in c.pending && c.pending[w] == s.ws[w].pc.entry
  }

  predicate AsCalled(s: State, c: Calls) {
    s.recs == c.recs && s.lsn == c.next && forall w :: 0 <= w < |s.ws| ==> OnTheWay(s, c, w)
  }

  lemma StepCalled(s: State, before: seq<Action>, a: Action)
    requires AsCalled(s, Called(before)) && Enabled(s, a)
    ensures AsCalled(Apply(s, a), Called(before + [a]))
  {
    assert (before + [a])[..|before|] == before;
    var s', c, c' := Apply(s, a), Called(before), Called(before + [a]);
    assert |s'.ws| == |s.ws|;
    if a.Reserve? { assert OnTheWay(s, c, a.w); }
    forall w | 0 <= w < |s'.ws|
      ensures OnTheWay(s', c', w)
    {
      assert OnTheWay(s, c, w);
    }
  }

  /** Every run logs exactly the entries handed over, in the order of reservation, back to back. */
  lemma {:induction false} RunCalled(s: State, schedule: seq<Action>)
    requires Init(s) && Run(s, schedule).Some?
    ensures AsCalled(Run(s, schedule).value, Called(schedule))
  {
    if schedule != [] {
      var n := |schedule| - 1;
      RunCalled(s, schedule[..n]);
      StepCalled(Run(s, schedule[..n]).value, schedule[..n], schedule[n]);
      assert schedule == schedule[..n] + [schedule[n]];
    }
  }

  // ----- draining

  /** Nobody is at work. */
  predicate AllIdle(s: State) {
    forall w :: 0 <= w < |s.ws| ==> s.ws[w].pc.Idle?
  }

  /** A step of the flusher. */
  lemma Flusher(s: State, h: seq<Action>, m: State, a: Action) returns (h': seq<Action>, m': State)
    requires Run(s, h) == Some(m) && Enabled(m, a) && Inv(m) && !a.Store? && !a.SkipStore?
    ensures h' == h + [a] && m' == Apply(m, a) && Run(s, h') == Some(m') && Inv(m')
  {
    Extend(s, h, m, a);
    KeepInv(m, a);
    h', m' := h + [a], Apply(m, a);
  }

  lemma {:induction false} ScanAll(s: State, h: seq<Action>, m: State) returns (h': seq<Action>, m': State)
    requires Run(s, h) == Some(m) && Inv(m) && AllIdle(m) && m.fl.Scan?
    ensures Run(s, h') == Some(m') && Inv(m') && m' == m.(fl := Scan(|m.ws|, m.fl.ready))
    decreases |m.ws| - m.fl.i
  {
    h', m' := h, m;
    if m.fl.i < |m.ws| {
      assert WriterOK(m, m.fl.i);
      h', m' := Flusher(s, h', m', ReadFilled);
      h', m' := Flusher(s, h', m', ReadAlloc);
      h', m' := ScanAll(s, h', m');
    }
  }

  lemma {:induction false} FlushOut(s: State, h: seq<Action>, m: State) returns (h': seq<Action>, m': State)
    requires Run(s, h) == Some(m) && Inv(m) && m.fl.Flushing?
    ensures Run(s, h') == Some(m') && Inv(m') && m' == m.(fl := Sleeping, pers := m.fl.end, file := m'.file)
    decreases m.fl.end - m.pers - m.fl.k
  {
    if m.pers + m.fl.k == m.fl.end {
      h', m' := Flusher(s, h, m, Persist);
    } else {
      h', m' := Flusher(s, h, m, FlushByte);
      h', m' := FlushOut(s, h', m');
    }
  }

  /** One round of the flusher: a scan and a flush, which goes as far as it may. */
  lemma FlushRound(s: State, h: seq<Action>, m: State) returns (h': seq<Action>, m': State)
    requires Run(s, h) == Some(m) && Inv(m) && AllIdle(m) && m.fl.Sleeping?
    ensures Run(s, h') == Some(m') && Inv(m') && m' == m.(pers := m'.pers, file := m'.file)
    ensures IsFlushEnd(m.cfg, m.pers, m.lsn, m'.pers)
  {
    h', m' := Flusher(s, h, m, StartScan);
    h', m' := ScanAll(s, h', m');
    RoundedDown(m.lsn, m.pers);
    EndIsLargest(m.cfg, m.pers, m.lsn);
    h', m' := Flusher(s, h', m', StartFlush);
    h', m' := FlushOut(s, h', m');
  }

  lemma {:induction false} DrainFrom(s: State, h: seq<Action>, m: State) returns (h': seq<Action>, m': State)
    requires Run(s, h) == Some(m) && Inv(m) && AllIdle(m) && m.fl.Sleeping?
    ensures Run(s, h') == Some(m') && Inv(m') && m' == m.(pers := m.lsn - m.lsn % 512, file := m'.file)
    decreases m.lsn - m.pers
  {
    h', m' := FlushRound(s, h, m);
    OneBlockOn(m.cfg, m.pers, m.lsn, m'.pers);
    if m'.pers != m.lsn - m.lsn % 512 {
      h', m' := DrainFrom(s, h', m');
    }
  }

  /** A flush that does not reach the end of the full blocks goes one block on. */
  lemma OneBlockOn(c: Config, pers: nat, lsn: nat, end: nat)
    requires c.block > 0 && c.block % 512 == 0 && pers % 512 == 0 && pers <= lsn && IsFlushEnd(c, pers, lsn, end)
    ensures end == lsn - lsn % 512 || end == pers + c.block
  {
    var top := lsn - lsn % 512;
    RoundedDown(lsn, end);
    if top <= pers + c.block {
      assert MayEnd(c, pers, lsn, top);
    } else {
      assert (pers + c.block) % 512 == 0;
      assert MayEnd(c, pers, lsn, pers + c.block);
    }
  }

  /**
   * When the writers are done, whatever the run was so far, the flusher can bring all full
   * blocks into the file, and with them every entry that ends there.
   */
  lemma Drains(s: State, schedule: seq<Action>) returns (more: seq<Action>, f: State)
    requires Init(s) && OnTime(s, schedule) && Run(s, schedule).Some?
    requires var m := Run(s, schedule).value; m.fl.Sleeping? && AllIdle(m)
    ensures Run(Run(s, schedule).value, more) == Some(f)
    ensures var m := Run(s, schedule).value; f.recs == m.recs && f.pers == m.lsn - m.lsn % 512 <= |f.file|
    ensures forall j :: 0 <= j < |f.recs| && f.recs[j].at + |f.recs[j].data| <= f.pers ==>
      f.file[f.recs[j].at..f.recs[j].at + |f.recs[j].data|] == f.recs[j].data
  {
    RunInv(s, schedule);
    var m := Run(s, schedule).value;
    assert Run(m, []) == Some(m);
    more, f := DrainFrom(m, [], m);
    forall j | 0 <= j < |f.recs| && f.recs[j].at + |f.recs[j].data| <= f.pers
      ensures f.file[f.recs[j].at..f.recs[j].at + |f.recs[j].data|] == f.recs[j].data
    {
      EntryInFile(f, j);
    }
  }

  // ----- logging

  lemma {:induction false} CopyAll(s: State, h: seq<Action>, m: State, w: nat) returns (h': seq<Action>, m': State)
    requires Run(s, h) == Some(m) && w < |m.ws| && m.ws[w].pc.Filling? && m.ws[w].pc.copied <= |m.ws[w].pc.entry| && |m.buf| > 0
    ensures Run(s, h') == Some(m') && m'.recs == m.recs && m'.lsn == m.lsn && m'.pers == m.pers && |m'.ws| == |m.ws|
    ensures m'.ws[w] == m.ws[w].(pc := m.ws[w].pc.(copied := |m.ws[w].pc.entry|))
    decreases |m.ws[w].pc.entry| - m.ws[w].pc.copied
  {
    h', m' := h, m;
    if m.ws[w].pc.copied < |m.ws[w].pc.entry| {
      Extend(s, h, m, CopyByte(w));
      h', m' := CopyAll(s, h + [CopyByte(w)], Apply(m, CopyByte(w)), w);
    }
  }

  /** An entry that fits is logged: from any state, its writer can go through and is idle again. */
  lemma LogsEntry(s: State, w: nat, entry: seq<Byte>) returns (h: seq<Action>, m: State)
    requires w < |s.ws| && s.ws[w].pc.Idle? && |s.buf| > 0 && 0 < |entry| <= s.cfg.maxEntry
    requires s.lsn + |entry| + s.cfg.maxEntry * s.cfg.threads < s.pers + s.cfg.size
    ensures Run(s, h) == Some(m) && m.recs == s.recs + [Rec(s.lsn, entry)] && m.lsn == s.lsn + Aligned(|entry|)
    ensures w < |m.ws| && m.ws[w].pc.Idle? && m.ws[w].filled == m.lsn
  {
    h, m := Publishes(s, w, entry);
    Extend(s, h, m, Reserve(w));
    h, m := CopyAll(s, h + [Reserve(w)], Apply(m, Reserve(w)), w);
    Extend(s, h, m, SetFilled(w));
    h, m := h + [SetFilled(w)], Apply(m, SetFilled(w));
  }

  lemma Publishes(s: State, w: nat, entry: seq<Byte>) returns (h: seq<Action>, m: State)
    requires w < |s.ws| && s.ws[w].pc.Idle? && |s.buf| > 0 && 0 < |entry| <= s.cfg.maxEntry
    requires s.lsn + |entry| + s.cfg.maxEntry * s.cfg.threads < s.pers + s.cfg.size
    ensures Run(s, h) == Some(m) && m == s.(ws := m.ws) && |m.ws| == |s.ws| && m.ws[w].pc == Published(entry)
    ensures entry[0] != 0x7f ==> m.ws[w].alloc == Some(s.lsn)
  {
    assert Run(s, []) == Some(s);
    Extend(s, [], s, Guard(w, entry));
    h, m := [] + [Guard(w, entry)], Apply(s, Guard(w, entry));
    if entry[0] == 0x7f {
      Extend(s, h, m, SkipStore(w));
      h, m := h + [SkipStore(w)], Apply(m, SkipStore(w));
    } else {
      Extend(s, h, m, Load(w));
      h, m := h + [Load(w)], Apply(m, Load(w));
      Extend(s, h, m, Store(w));
      h, m := h + [Store(w)], Apply(m, Store(w));
    }
  }
}
