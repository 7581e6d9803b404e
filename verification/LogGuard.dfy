/**
 * The guard of the log (untrusted/system/logger.cpp:367-368) reads the reserved and the persistent
 * position one after the other, and both may move on before it decides. The ring is not overrun
 * all the same, with the slack that is needed when the guard is one step. Only positions are
 * modelled here, not the bytes.
 */
module LogGuard {
  import opened Wrappers
  import opened Log
  import opened LogBound

  datatype Phase =
    | Out
    | Read(size: nat, v: nat, n: nat)    // reserved position read, by the n-th read
    | Passed(size: nat, n: nat)          // guard passed, nothing reserved yet

  /** Reads are numbered; `base` is the last one with which a writer has passed the guard. */
  datatype Ring = Ring(lsn: nat, pers: nat, ws: seq<Phase>, count: nat, base: nat)

  datatype Move =
    | ReadLsn(w: nat, size: nat)
    | Decide(w: nat, p: nat)       // with a persistent position `p` read before
    | Take(w: nat)
    | Persisted(to: nat)

  predicate Fits(c: Config, slack: nat, v: nat, size: nat, p: nat) {
    v + size + slack < p + c.size
  }

  predicate CanMove(c: Config, s: Ring, a: Move) {
    match a
    case ReadLsn(w, size) => w < |s.ws| && s.ws[w].Out? && 0 < size <= c.maxEntry
    case Decide(w, p) => w < |s.ws| && s.ws[w].Read? && p <= s.pers && p % 64 == 0
    case Take(w) => w < |s.ws| && s.ws[w].Passed?
    case Persisted(to) => s.pers <= to <= s.lsn && to % 64 == 0
  }

  function After(c: Config, slack: nat, s: Ring, a: Move): Ring
    requires CanMove(c, s, a)
  {
    match a
    case ReadLsn(w, size) => s.(ws := s.ws[w := Read(size, s.lsn, s.count + 1)], count := s.count + 1)
    case Decide(w, p) =>
      var size, v := s.ws[w].size, s.ws[w].v;
      if Fits(c, slack, v, size, p) then
        s.(ws := s.ws[w := Passed(size, s.ws[w].n)], base := if s.base < s.ws[w].n then s.ws[w].n else s.base)
      else s.(ws := s.ws[w := Out])
    case Take(w) => s.(ws := s.ws[w := Out], lsn := s.lsn + Aligned(s.ws[w].size))
    case Persisted(to) => s.(pers := to)
  }

  function RunMoves(c: Config, slack: nat, s: Ring, moves: seq<Move>): Option<Ring> {
    if moves == [] then Some(s)
    else
      match RunMoves(c, slack, s, moves[..|moves| - 1])
      case None => None
      case Some(m) =>
        var a := moves[|moves| - 1];
        if CanMove(c, m, a) then Some(After(c, slack, m, a)) else None
  }

  predicate Start(c: Config, s: Ring) {
    ValidConfig(c) && s.lsn == s.pers == s.count == s.base == 0 && |s.ws| == c.threads && forall w :: 0 <= w < |s.ws| ==> s.ws[w].Out?
  }

  /** Bytes that writers past the guard have yet to reserve. */
  function Outstanding(ws: seq<Phase>): nat {
    if ws == [] then 0
    else
      var w := ws[|ws| - 1];
      Outstanding(ws[..|ws| - 1]) + if w.Passed? then Aligned(w.size) else 0
  }

  // ----- the invariant

  /** What a writer may yet reserve if its read was the `x`-th or one before. */
  function Share(w: Phase, x: nat): nat {
    if !w.Out? && w.n <= x then Aligned(w.size) else 0
  }

  function Shares(ws: seq<Phase>, x: nat): nat {
    if ws == [] then 0 else Shares(ws[..|ws| - 1], x) + Share(ws[|ws| - 1], x)
  }

  predicate PhaseOK(c: Config, s: Ring, w: nat)
    requires w < |s.ws| && c.threads > 0
  {
    var a := s.ws[w];
    && (!a.Out? ==> a.size <= c.maxEntry && a.n <= s.count)
    && (a.Passed? ==> a.n <= s.base)
    && (a.Read? ==> a.v % 64 == 0)
    && (a.Read? && a.n >= s.base ==> s.lsn + Shares(s.ws, a.n) <= a.v + Others(c) + Aligned(a.size))
  }

  predicate GuardInv(c: Config, s: Ring) {
    && ValidConfig(c) && |s.ws| == c.threads && s.lsn % 64 == 0 && s.pers % 64 == 0 && s.base <= s.count
    && s.lsn + Shares(s.ws, s.base) <= s.pers + c.size
    && forall w :: 0 <= w < |s.ws| ==> PhaseOK(c, s, w)
  }

  lemma {:induction false} SharesUpdate(ws: seq<Phase>, w: nat, a: Phase, x: nat)
    requires w < |ws|
    ensures Shares(ws[w := a], x) + Share(ws[w], x) == Shares(ws, x) + Share(a, x)
    decreases |ws|
  {
    var n := |ws| - 1;
    if w == n {
      assert ws[w := a][..n] == ws[..n];
    } else {
      assert ws[w := a][..n] == ws[..n][w := a];
      SharesUpdate(ws[..n], w, a, x);
    }
  }

  lemma {:induction false} SharesBound(ws: seq<Phase>, m: nat, x: nat)
    requires m % 64 == 0 && forall i :: 0 <= i < |ws| && !ws[i].Out? ==> ws[i].size <= m
    ensures Shares(ws, x) <= m * |ws|
    decreases |ws|
  {
    if ws != [] {
      var n := |ws| - 1;
      SharesBound(ws[..n], m, x);
      assert Share(ws[n], x) <= m;
      assert m * |ws| == m * n + m;
    }
  }

  lemma {:induction false} OtherShares(ws: seq<Phase>, m: nat, w: nat, x: nat)
    requires m % 64 == 0 && w < |ws| && ws[w].Out? && forall i :: 0 <= i < |ws| && !ws[i].Out? ==> ws[i].size <= m
    ensures Shares(ws, x) <= m * (|ws| - 1)
    decreases |ws|
  {
    var n := |ws| - 1;
    if w == n {
      SharesBound(ws[..n], m, x);
    } else {
      OtherShares(ws[..n], m, w, x);
      assert Share(ws[n], x) <= m;
      assert m * n == m * (n - 1) + m;
    }
  }

  lemma {:induction false} OutstandingShares(ws: seq<Phase>, x: nat)
    requires forall i :: 0 <= i < |ws| && ws[i].Passed? ==> ws[i].n <= x
    ensures Outstanding(ws) <= Shares(ws, x)
    decreases |ws|
  {
    if ws != [] { OutstandingShares(ws[..|ws| - 1], x); }
  }

  // ----- what each step keeps

  ghost predicate Small(c: Config, ws: seq<Phase>) {
    forall i :: 0 <= i < |ws| && !ws[i].Out? ==> ws[i].size <= c.maxEntry
  }

  /** A writer that has just read shares the ring with at most the largest entries of the others. */
  lemma ReadBound(c: Config, ws: seq<Phase>, w: nat, a: Phase)
    requires ValidConfig(c) && Small(c, ws) && |ws| == c.threads && w < |ws| && ws[w].Out? && a.Read?
    ensures Shares(ws[w := a], a.n) <= Others(c) + Aligned(a.size)
  {
    SharesUpdate(ws, w, a, a.n);
    OtherShares(ws, c.maxEntry, w, a.n);
  }

  lemma KeepReadLsn(c: Config, slack: nat, s: Ring, w: nat, size: nat)
    requires GuardInv(c, s) && CanMove(c, s, ReadLsn(w, size))
    ensures GuardInv(c, After(c, slack, s, ReadLsn(w, size)))
  {
    var s', a := After(c, slack, s, ReadLsn(w, size)), Read(size, s.lsn, s.count + 1);
    forall i | 0 <= i < |s.ws| && !s.ws[i].Out? ensures s.ws[i].size <= c.maxEntry { assert PhaseOK(c, s, i); }
    SharesUpdate(s.ws, w, a, s.base);
    forall i | 0 <= i < |s'.ws|
      ensures PhaseOK(c, s', i)
    {
      assert PhaseOK(c, s, i);
      if i == w {
        ReadBound(c, s.ws, w, a);
      } else if s.ws[i].Read? {
        SharesUpdate(s.ws, w, a, s.ws[i].n);
      }
    }
  }

  /** The writer that passes with the latest read brings the bound with it. */
  lemma PassBrings(c: Config, slack: nat, s: Ring, w: nat, p: nat)
    requires GuardInv(c, s) && CanMove(c, s, Decide(w, p)) && Enough(c, slack)
    requires s.ws[w].n >= s.base && Fits(c, slack, s.ws[w].v, s.ws[w].size, p)
    ensures s.lsn + Shares(s.ws, s.ws[w].n) <= s.pers + c.size
  {
    assert PhaseOK(c, s, w);
    MultipleOf64(c.maxEntry, c.threads - 1);
    Sum64(p, c.size);
    GuardAligns(s.ws[w].v, s.ws[w].size, slack, Others(c), p + c.size);
  }

  lemma KeepDecide(c: Config, slack: nat, s: Ring, w: nat, p: nat)
    requires GuardInv(c, s) && CanMove(c, s, Decide(w, p)) && Enough(c, slack)
    ensures GuardInv(c, After(c, slack, s, Decide(w, p)))
  {
    var s' := After(c, slack, s, Decide(w, p));
    assert PhaseOK(c, s, w);
    SharesUpdate(s.ws, w, s'.ws[w], s'.base);
    if s'.base != s.base { PassBrings(c, slack, s, w, p); }
    forall i | 0 <= i < |s'.ws|
      ensures PhaseOK(c, s', i)
    {
      assert PhaseOK(c, s, i);
      if i != w && s.ws[i].Read? { SharesUpdate(s.ws, w, s'.ws[w], s.ws[i].n); }
    }
  }

  lemma KeepTake(c: Config, slack: nat, s: Ring, w: nat)
    requires GuardInv(c, s) && CanMove(c, s, Take(w))
    ensures GuardInv(c, After(c, slack, s, Take(w)))
  {
    var s' := After(c, slack, s, Take(w));
    assert PhaseOK(c, s, w);
    SharesUpdate(s.ws, w, Phase.Out, s.base);
    Sum64(s.lsn, Aligned(s.ws[w].size));
    forall i | 0 <= i < |s'.ws|
      ensures PhaseOK(c, s', i)
    {
      assert PhaseOK(c, s, i);
      if i != w && s.ws[i].Read? { SharesUpdate(s.ws, w, Phase.Out, s.ws[i].n); }
    }
  }

  lemma KeepGuardInv(c: Config, slack: nat, s: Ring, a: Move)
    requires GuardInv(c, s) && CanMove(c, s, a) && Enough(c, slack)
    ensures GuardInv(c, After(c, slack, s, a))
  {
    match a
    case ReadLsn(w, size) => KeepReadLsn(c, slack, s, w, size);
    case Decide(w, p) => KeepDecide(c, slack, s, w, p);
    case Take(w) => KeepTake(c, slack, s, w);
    case Persisted(to) =>
      var s' := After(c, slack, s, a);
      forall i | 0 <= i < |s'.ws| ensures PhaseOK(c, s', i) { assert PhaseOK(c, s, i); }
  }

  lemma {:induction false} RunGuard(c: Config, slack: nat, s: Ring, moves: seq<Move>)
    requires Start(c, s) && RunMoves(c, slack, s, moves).Some? && Enough(c, slack)
    ensures GuardInv(c, RunMoves(c, slack, s, moves).value)
  {
    if moves == [] {
      assert Shares(s.ws, 0) <= c.maxEntry * c.threads by { SharesBound(s.ws, c.maxEntry, 0); }
    } else {
      RunGuard(c, slack, s, moves[..|moves| - 1]);
      KeepGuardInv(c, slack, RunMoves(c, slack, s, moves[..|moves| - 1]).value, moves[|moves| - 1]);
    }
  }

  /**
   * Whatever the guard's two reads have missed, reserved and outstanding bytes never pass one
   * ring beyond the persistent position.
   */
  lemma SplitGuardHolds(c: Config, slack: nat, s: Ring, moves: seq<Move>)
    requires Start(c, s) && RunMoves(c, slack, s, moves).Some? && Enough(c, slack)
    ensures var f := RunMoves(c, slack, s, moves).value; f.lsn + Outstanding(f.ws) <= f.pers + c.size
  {
    RunGuard(c, slack, s, moves);
    var f := RunMoves(c, slack, s, moves).value;
    forall i | 0 <= i < |f.ws| && f.ws[i].Passed? ensures f.ws[i].n <= f.base { assert PhaseOK(c, f, i); }
    OutstandingShares(f.ws, f.base);
  }
}
