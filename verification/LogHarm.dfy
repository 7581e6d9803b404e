/**
 * Why a late store of _allocate_lsn is late (untrusted/system/logger.cpp): there is a way to go on
 * in which the assertion of tryFlush() fails, because a scan ends below the persistent position.
 */
module LogHarm {
  import opened Wrappers
  import opened Log
  import opened LogProof

  lemma Extend(s: State, h: seq<Action>, m: State, a: Action)
    requires Run(s, h) == Some(m) && Enabled(m, a)
    ensures Run(s, h + [a]) == Some(Apply(m, a))
  {
    assert (h + [a])[..|h|] == h;
  }

  /** `w` has published `v` and is not done with its entry. */
  predicate Stuck(s: State, w: nat, v: nat) {
    w < |s.ws| && s.ws[w].alloc == Some(v) && s.ws[w].filled <= v
  }

  /** A scan that is still to come to `w` ends at `v` or below; another one ends as well. */
  lemma {:induction false} ScanEnds(s: State, h: seq<Action>, m: State, w: nat, v: nat) returns (h': seq<Action>, m': State)
    requires Run(s, h) == Some(m) && Stuck(m, w, v) && m.fl.Scan? && m.fl.i <= |m.ws|
    ensures Run(s, h') == Some(m') && m' == m.(fl := m'.fl)
    ensures m'.fl.Scan? && m'.fl.i == |m.ws| && m'.fl.ready <= m.fl.ready && (m.fl.i <= w ==> m'.fl.ready <= v)
    decreases |m.ws| - m.fl.i
  {
    if m.fl.i == |m.ws| {
      h', m' := h, m;
    } else {
      Extend(s, h, m, ReadFilled);
      var m1 := Apply(m, ReadFilled);
      Extend(s, h + [ReadFilled], m1, ReadAlloc);
      h', m' := ScanEnds(s, h + [ReadFilled] + [ReadAlloc], Apply(m1, ReadAlloc), w, v);
    }
  }

  lemma {:induction false} FlushEnds(s: State, h: seq<Action>, m: State) returns (h': seq<Action>, m': State)
    requires Run(s, h) == Some(m) && m.fl.Flushing? && m.pers + m.fl.k <= m.fl.end && |m.buf| > 0
    ensures Run(s, h') == Some(m') && m'.ws == m.ws && m'.fl.Sleeping? && m'.pers == m.fl.end
    decreases m.fl.end - m.pers - m.fl.k
  {
    if m.pers + m.fl.k == m.fl.end {
      Extend(s, h, m, Persist);
      h', m' := h + [Persist], Apply(m, Persist);
    } else {
      Extend(s, h, m, FlushByte);
      h', m' := FlushEnds(s, h + [FlushByte], Apply(m, FlushByte));
    }
  }

  /** A scan has ended below the persistent position: the assertion of tryFlush() fails. */
  predicate ScanBelow(s: State) {
    s.fl.Scan? && s.fl.i == |s.ws| && s.fl.ready < s.pers
  }

  lemma SleepHarms(s: State, h: seq<Action>, m: State, w: nat, v: nat) returns (h': seq<Action>, m': State)
    requires Run(s, h) == Some(m) && Stuck(m, w, v) && m.fl.Sleeping? && v < m.pers
    ensures Run(s, h') == Some(m') && ScanBelow(m')
  {
    Extend(s, h, m, StartScan);
    h', m' := ScanEnds(s, h + [StartScan], Apply(m, StartScan), w, v);
  }

  lemma ScanHarms(s: State, h: seq<Action>, m: State, w: nat, v: nat) returns (h': seq<Action>, m': State)
    requires Run(s, h) == Some(m) && Stuck(m, w, v) && m.fl.Scan? && m.fl.i <= |m.ws| && v < m.pers
    ensures Run(s, h') == Some(m') && ScanBelow(m')
  {
    h', m' := ScanEnds(s, h, m, w, v);
    if !ScanBelow(m') {
      Extend(s, h', m', GiveUp);
      h', m' := SleepHarms(s, h' + [GiveUp], Apply(m', GiveUp), w, v);
    }
  }

  lemma FlushHarms(s: State, h: seq<Action>, m: State, w: nat, v: nat) returns (h': seq<Action>, m': State)
    requires Run(s, h) == Some(m) && Stuck(m, w, v) && m.fl.Flushing? && m.pers + m.fl.k <= m.fl.end && |m.buf| > 0 && v < m.fl.end
    ensures Run(s, h') == Some(m') && ScanBelow(m')
  {
    h', m' := FlushEnds(s, h, m);
    h', m' := SleepHarms(s, h', m', w, v);
  }

  /** The flusher is still reading the writers' positions and has read that of `w`. */
  predicate PassedBy(s: State, w: nat) {
    (s.fl.Scan? && w < s.fl.i < |s.ws|) || (s.fl.HaveFilled? && w < s.fl.i)
  }

  /**
   * A late store can be followed by a scan that ends below the persistent position. Only when
   * the scan under way has passed the writer does that depend on the other writers, unless the
   * value lies below the persistent position already.
   */
  lemma LateStoreHarms(s: State, w: nat) returns (h: seq<Action>, m: State)
    requires Inv(s) && Enabled(s, Store(w)) && Late(s, Store(w))
    requires PassedBy(s, w) ==> s.ws[w].pc.v < s.pers
    ensures Run(Apply(s, Store(w)), h) == Some(m) && ScanBelow(m)
  {
    var v, s' := s.ws[w].pc.v, Apply(s, Store(w));
    assert WriterOK(s, w);
    assert Stuck(s', w, v) && Run(s', []) == Some(s');
    match s.fl
    case Sleeping => h, m := SleepHarms(s', [], s', w, v);
    case Scan(_, _) =>
      if v < s.pers {
        h, m := ScanHarms(s', [], s', w, v);
      } else {
        EndOfFlush(s.cfg, s.pers, s.fl.ready);
        Extend(s', [], s', StartFlush);
        h, m := FlushHarms(s', [] + [StartFlush], Apply(s', StartFlush), w, v);
      }
    case HaveFilled(_, _, _) =>
      Extend(s', [], s', ReadAlloc);
      h, m := ScanHarms(s', [] + [ReadAlloc], Apply(s', ReadAlloc), w, v);
    case Flushing(_, _) => h, m := FlushHarms(s', [], s', w, v);
  }
}
