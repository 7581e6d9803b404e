/**
 * The ring of the log is never overrun (untrusted/system/logger.cpp:367-384), in every run: the
 * bound rests on the guard and the reservations, not on when positions are published. The slack
 * in the guard is a parameter here, so that the least one can be told.
 */
module LogBound {
  import opened Wrappers
  import opened Log
  import opened LogProof

  // ----- the log with any slack

  predicate EnabledWith(s: State, a: Action, slack: nat) {
    if a.Guard? then
      && a.w < |s.ws| && s.ws[a.w].pc.Idle? && 0 < |a.entry| <= s.cfg.maxEntry
      && s.lsn + |a.entry| + slack < s.pers + s.cfg.size
    else Enabled(s, a)
  }

  function ApplyWith(s: State, a: Action, slack: nat): State
    requires EnabledWith(s, a, slack)
  {
    if a.Guard? then SetPc(s, a.w, Guarded(a.entry)) else Apply(s, a)
  }

  function RunWith(s: State, schedule: seq<Action>, slack: nat): Option<State> {
    if schedule == [] then Some(s)
    else
      match RunWith(s, schedule[..|schedule| - 1], slack)
      case None => None
      case Some(m) =>
        var a := schedule[|schedule| - 1];
        if EnabledWith(m, a, slack) then Some(ApplyWith(m, a, slack)) else None
  }

  /** The code's slack is the largest entry times the number of threads. */
  lemma {:induction false} RunWithCode(s: State, schedule: seq<Action>)
    ensures Run(s, schedule).Some? ==>
              Run(s, schedule) == RunWith(s, schedule, s.cfg.maxEntry * s.cfg.threads) && Run(s, schedule).value.cfg == s.cfg
  {
    if schedule != [] {
      RunWithCode(s, schedule[..|schedule| - 1]);
    }
  }

  // ----- enough slack

  predicate PastGuard(w: Writer) {
    w.pc.Guarded? || w.pc.Loaded? || w.pc.Published?
  }

  predicate RingInv(s: State) {
    && ValidConfig(s.cfg) && |s.ws| == s.cfg.threads && s.lsn % 64 == 0 && s.pers % 64 == 0
    && (forall i :: 0 <= i < |s.ws| && PastGuard(s.ws[i]) ==> |s.ws[i].pc.entry| <= s.cfg.maxEntry)
    && (s.fl.Flushing? ==> s.pers <= s.fl.end && s.fl.end % 64 == 0)
    && s.lsn + Pending(s.ws) <= s.pers + s.cfg.size
  }

  /** All writers but one past the guard have at most (T - 1) * M bytes outstanding. */
  lemma {:induction false} OthersBound(ws: seq<Writer>, m: nat, w: nat)
    requires m % 64 == 0 && w < |ws| && Ask(ws[w]) == 0
    requires forall i :: 0 <= i < |ws| && PastGuard(ws[i]) ==> |ws[i].pc.entry| <= m
    ensures Pending(ws) <= m * (|ws| - 1)
  {
    var n := |ws| - 1;
    if w == n {
      PendingBound(ws[..n], m);
    } else {
      OthersBound(ws[..n], m, w);
      assert Ask(ws[n]) <= m;
      assert m * n == m * (n - 1) + m;
    }
  }

  /** What the other writers may have outstanding. */
  function Others(c: Config): nat
    requires c.threads > 0
  {
    c.maxEntry * (c.threads - 1)
  }

  predicate Enough(c: Config, slack: nat) {
    c.threads > 0 && Others(c) <= slack + 1
  }

  /** An entry that passes the guard has room even after its alignment. */
  lemma GuardAligns(lsn: nat, size: nat, slack: nat, others: nat, end: nat)
    requires lsn % 64 == 0 && end % 64 == 0 && others % 64 == 0 && others <= slack + 1 && lsn + size + slack < end
    ensures lsn + Aligned(size) + others <= end
  {
    var room := end - others - lsn;
    assert room % 64 == 0 && size <= room;
  }

  lemma KeepGuardRing(s: State, a: Action, slack: nat)
    requires RingInv(s) && EnabledWith(s, a, slack) && a.Guard? && Enough(s.cfg, slack)
    ensures RingInv(ApplyWith(s, a, slack))
  {
    var s' := ApplyWith(s, a, slack);
    OthersBound(s.ws, s.cfg.maxEntry, a.w);
    PendingUpdate(s.ws, a.w, s'.ws[a.w]);
    MultipleOf64(s.cfg.maxEntry, s.cfg.threads - 1);
    assert (s.pers + s.cfg.size) % 64 == 0 by { Sum64(s.pers, s.cfg.size); }
    GuardAligns(s.lsn, |a.entry|, slack, Others(s.cfg), s.pers + s.cfg.size);
  }

  lemma Sum64(a: nat, b: nat)
    requires a % 64 == 0 && (b % 64 == 0 || b % 512 == 0)
    ensures (a + b) % 64 == 0
  {
  }

  lemma {:induction false} MultipleOf64(m: nat, k: nat)
    requires m % 64 == 0
    ensures (m * k) % 64 == 0
  {
    if k > 0 {
      MultipleOf64(m, k - 1);
      assert m * k == m * (k - 1) + m;
      Sum64(m * (k - 1), m);
    }
  }

  lemma KeepWriterRing(s: State, a: Action)
    requires RingInv(s) && Enabled(s, a) && (a.Load? || a.Store? || a.SkipStore? || a.Reserve? || a.CopyByte? || a.SetFilled?)
    ensures RingInv(Apply(s, a))
  {
    var s' := Apply(s, a);
    PendingUpdate(s.ws, a.w, s'.ws[a.w]);
    assert s'.ws == s.ws[a.w := s'.ws[a.w]];
    if a.Reserve? {
      Sum64(s.lsn, Aligned(|s.ws[a.w].pc.entry|));
    }
  }

  lemma KeepFlusherRing(s: State, a: Action)
    requires RingInv(s) && Enabled(s, a) && !a.Guard? && !(a.Load? || a.Store? || a.SkipStore? || a.Reserve? || a.CopyByte? || a.SetFilled?)
    ensures RingInv(Apply(s, a))
  {
    if a.StartFlush? {
      var e := s.fl.ready - s.fl.ready % 512;
      assert e % 512 == 0;
      Sum64(0, e);
      Sum64(s.pers, s.cfg.block);
    }
  }

  lemma KeepRing(s: State, a: Action, slack: nat)
    requires RingInv(s) && EnabledWith(s, a, slack) && Enough(s.cfg, slack)
    ensures RingInv(ApplyWith(s, a, slack)) && ApplyWith(s, a, slack).cfg == s.cfg
  {
    if a.Guard? {
      KeepGuardRing(s, a, slack);
    } else if a.Load? || a.Store? || a.SkipStore? || a.Reserve? || a.CopyByte? || a.SetFilled? {
      KeepWriterRing(s, a);
    } else {
      KeepFlusherRing(s, a);
    }
  }

  lemma {:induction false} RunRing(s: State, schedule: seq<Action>, slack: nat)
    requires Init(s) && RunWith(s, schedule, slack).Some? && Enough(s.cfg, slack)
    ensures RingInv(RunWith(s, schedule, slack).value) && RunWith(s, schedule, slack).value.cfg == s.cfg
  {
    if schedule == [] {
      PendingIdle(s.ws);
    } else {
      RunRing(s, schedule[..|schedule| - 1], slack);
      KeepRing(RunWith(s, schedule[..|schedule| - 1], slack).value, schedule[|schedule| - 1], slack);
    }
  }

  /** In every run of the log, reserved and outstanding bytes never pass one ring beyond the persistent position. */
  lemma RingNeverOverrun(s: State, schedule: seq<Action>)
    requires Init(s) && Run(s, schedule).Some?
    ensures var f := Run(s, schedule).value; f.lsn + Pending(f.ws) <= f.pers + f.cfg.size
  {
    RunWithCode(s, schedule);
    CodeSlack(s.cfg);
    RunRing(s, schedule, s.cfg.maxEntry * s.cfg.threads);
  }

  lemma AllIsOthers(c: Config)
    requires c.threads > 0
    ensures c.maxEntry * c.threads == Others(c) + c.maxEntry
  {
  }

  lemma CodeSlack(c: Config)
    requires ValidConfig(c)
    ensures Enough(c, c.maxEntry * c.threads)
  {
    assert c.maxEntry * c.threads == c.maxEntry * (c.threads - 1) + c.maxEntry;
  }

  // ----- too little slack: all writers pass the guard before any of them reserves

  /** A state with nobody at work, nothing persistent and `lsn` reserved. */
  predicate Quiet(s: State, c: Config, lsn: nat) {
    && s.cfg == c && s.lsn == lsn && s.pers == 0 && |s.buf| > 0 && |s.ws| == c.threads
    && forall i :: 0 <= i < |s.ws| ==> s.ws[i].pc.Idle?
  }

  ghost predicate Reaches(s: State, f: State, slack: nat) {
    exists schedule :: RunWith(s, schedule, slack) == Some(f)
  }

  lemma ReachesStep(s: State, m: State, a: Action, slack: nat)
    requires Reaches(s, m, slack) && EnabledWith(m, a, slack)
    ensures Reaches(s, ApplyWith(m, a, slack), slack)
  {
    var p :| RunWith(s, p, slack) == Some(m);
    assert (p + [a])[..|p + [a]| - 1] == p;
    assert RunWith(s, p + [a], slack) == Some(ApplyWith(m, a, slack));
  }

  /** The first writer logs one byte. */
  lemma LogOne(s: State, m: State, c: Config, lsn: nat, slack: nat) returns (f: State)
    requires Reaches(s, m, slack) && Quiet(m, c, lsn) && ValidConfig(c) && lsn + 1 + slack < c.size
    ensures Reaches(s, f, slack) && Quiet(f, c, lsn + 64)
  {
    var one: seq<Byte> := [0];
    ReachesStep(s, m, Guard(0, one), slack);
    var m1 := ApplyWith(m, Guard(0, one), slack);
    ReachesStep(s, m1, Load(0), slack);
    var m2 := ApplyWith(m1, Load(0), slack);
    ReachesStep(s, m2, Store(0), slack);
    var m3 := ApplyWith(m2, Store(0), slack);
    ReachesStep(s, m3, Reserve(0), slack);
    var m4 := ApplyWith(m3, Reserve(0), slack);
    ReachesStep(s, m4, CopyByte(0), slack);
    var m5 := ApplyWith(m4, CopyByte(0), slack);
    ReachesStep(s, m5, SetFilled(0), slack);
    f := ApplyWith(m5, SetFilled(0), slack);
  }

  lemma {:induction false} LogMany(s: State, c: Config, k: nat, slack: nat) returns (f: State)
    requires Init(s) && s.cfg == c && 64 * k + slack < c.size + 63
    ensures Reaches(s, f, slack) && Quiet(f, c, 64 * k)
  {
    if k == 0 {
      assert RunWith(s, [], slack) == Some(s);
      f := s;
    } else {
      var m := LogMany(s, c, k - 1, slack);
      f := LogOne(s, m, c, 64 * (k - 1), slack);
    }
  }

  /** The first `k` writers have passed the guard with `e`. */
  predicate Waiting(s: State, c: Config, lsn: nat, k: nat, e: seq<Byte>) {
    && s.cfg == c && s.lsn == lsn && s.pers == 0 && k <= |s.ws| == c.threads
    && forall i :: 0 <= i < |s.ws| ==> s.ws[i].pc == if i < k then Guarded(e) else Idle
  }

  lemma {:induction false} AllPass(s: State, m: State, c: Config, lsn: nat, k: nat, e: seq<Byte>, slack: nat) returns (f: State)
    requires Reaches(s, m, slack) && Quiet(m, c, lsn) && k <= c.threads
    requires 0 < |e| <= c.maxEntry && lsn + |e| + slack < c.size
    ensures Reaches(s, f, slack) && Waiting(f, c, lsn, k, e)
  {
    if k == 0 {
      f := m;
    } else {
      var p := AllPass(s, m, c, lsn, k - 1, e, slack);
      ReachesStep(s, p, Guard(k - 1, e), slack);
      f := ApplyWith(p, Guard(k - 1, e), slack);
    }
  }

  lemma {:induction false} PendingAll(ws: seq<Writer>, e: seq<Byte>)
    requires forall i :: 0 <= i < |ws| ==> ws[i].pc == Guarded(e)
    ensures Pending(ws) == Aligned(|e|) * |ws|
  {
    if ws != [] {
      PendingAll(ws[..|ws| - 1], e);
      assert Aligned(|e|) * |ws| == Aligned(|e|) * (|ws| - 1) + Aligned(|e|);
    }
  }

  /** How far to fill the ring so that the last entries of all writers pass the guard and do not fit. */
  lemma Overfill(size: nat, all: nat, others: nat, max: nat, slack: nat) returns (k: nat)
    requires size % 512 == 0 && all % 64 == 0 && all < size && all == others + max && max >= 64 && slack + 1 < others
    ensures 64 * k == size - all + 64 && 64 * k + slack < size + 63 && 64 * k + (max - 63) + slack < size
  {
    k := (size - all) / 64 + 1;
  }

  lemma AlignedUp(max: nat)
    requires max % 64 == 0 && max >= 64
    ensures Aligned(max - 63) == max
  {
  }

  lemma FillAll(c: Config, slack: nat) returns (k: nat)
    requires ValidConfig(c) && !Enough(c, slack)
    ensures 64 * k + c.maxEntry * c.threads == c.size + 64
    ensures 64 * k + slack < c.size + 63 && 64 * k + (c.maxEntry - 63) + slack < c.size && c.maxEntry >= 64
  {
    MultipleOf64(c.maxEntry, c.threads);
    AllIsOthers(c);
    k := Overfill(c.size, c.maxEntry * c.threads, Others(c), c.maxEntry, slack);
  }

  /** With less slack a run overruns the ring. */
  lemma TooLittle(s: State, slack: nat) returns (f: State)
    requires Init(s) && !Enough(s.cfg, slack)
    ensures Reaches(s, f, slack) && f.lsn + Pending(f.ws) > f.pers + f.cfg.size
  {
    var k := FillAll(s.cfg, slack);
    f := OverrunAt(s, k, slack);
    OverrunSum(s.cfg, k, f.lsn, Pending(f.ws));
  }

  lemma OverrunAt(s: State, k: nat, slack: nat) returns (f: State)
    requires Init(s) && s.cfg.maxEntry >= 64 && 64 * k + slack < s.cfg.size + 63 && 64 * k + (s.cfg.maxEntry - 63) + slack < s.cfg.size
    ensures Reaches(s, f, slack) && f.lsn == 64 * k && f.pers == 0 && f.cfg == s.cfg
        && Pending(f.ws) == Aligned(s.cfg.maxEntry - 63) * s.cfg.threads
  {
    var m := LogMany(s, s.cfg, k, slack);
    var e: seq<Byte> := seq(s.cfg.maxEntry - 63, _ => 0);
    f := Overrun(s, m, k, e, slack);
  }

  lemma OverrunSum(c: Config, k: nat, lsn: nat, pending: nat)
    requires c.maxEntry % 64 == 0 && c.maxEntry >= 64 && 64 * k + c.maxEntry * c.threads == c.size + 64
    requires lsn == 64 * k && pending == Aligned(c.maxEntry - 63) * c.threads
    ensures lsn + pending > c.size
  {
    AlignedUp(c.maxEntry);
  }

  lemma Overrun(s: State, m: State, k: nat, e: seq<Byte>, slack: nat) returns (f: State)
    requires Reaches(s, m, slack) && Quiet(m, s.cfg, 64 * k)
    requires 0 < |e| <= s.cfg.maxEntry && 64 * k + |e| + slack < s.cfg.size
    ensures Reaches(s, f, slack) && f.lsn == 64 * k && f.pers == 0 && f.cfg == s.cfg && Pending(f.ws) == Aligned(|e|) * s.cfg.threads
  {
    f := AllPass(s, m, s.cfg, 64 * k, s.cfg.threads, e, slack);
    PendingAll(f.ws, e);
  }

  /** The least slack: the ring is never overrun, in any run, exactly when it is within one byte of (T - 1) * M. */
  lemma LeastSlack(s: State, slack: nat)
    requires Init(s)
    ensures (forall f :: Reaches(s, f, slack) ==> f.lsn + Pending(f.ws) <= f.pers + f.cfg.size) <==> Others(s.cfg) <= slack + 1
  {
    if Enough(s.cfg, slack) {
      forall f | Reaches(s, f, slack)
        ensures f.lsn + Pending(f.ws) <= f.pers + f.cfg.size
      {
        var p :| RunWith(s, p, slack) == Some(f);
        RunRing(s, p, slack);
      }
    } else {
      var f := TooLittle(s, slack);
    }
  }
}
