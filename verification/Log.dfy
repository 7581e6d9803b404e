/**
 * The circular log (untrusted/system/logger.cpp): many writers reserve and fill entries while
 * one flusher drains the ring to the file.
 *
 * Every access to a shared variable is one action: the guard, the load and the store of
 * `*_allocate_lsn[thd_id] = *_lsn`, the fetch-add, every byte copied into or out of the ring,
 * and the flusher's separate reads of a writer's filled and allocated positions.
 */
module Log {
  import opened Wrappers

  /** Ring size, writers, largest entry, largest flush. */
  datatype Config = Config(size: nat, threads: nat, maxEntry: nat, block: nat)

  predicate ValidConfig(c: Config) {
    && c.threads > 0 && c.maxEntry > 0 && c.maxEntry % 64 == 0
    && c.maxEntry * c.threads < c.size && c.size % 512 == 0
    && 0 < c.block < c.size && c.block % 512 == 0
  }

  type Byte = x: int | 0 <= x < 256

  /** size_aligned */
  function Aligned(size: nat): (a: nat)
    ensures size <= a < size + 64 && a % 64 == 0
  {
    if size % 64 == 0 then size else size + 64 - size % 64
  }

  /** A reserved entry. */
  datatype Rec = Rec(at: nat, data: seq<Byte>)

  datatype Pc =
    | Idle
    | Guarded(entry: seq<Byte>)
    | Loaded(entry: seq<Byte>, v: nat)                            // *_lsn read, not yet stored
    | Published(entry: seq<Byte>)                                 // _allocate_lsn stored
    | Filling(entry: seq<Byte>, at: nat, copied: nat, rec: nat)   // reserved, bytes being copied

  /** `alloc` is None for the initial (uint64_t) -1. */
  datatype Writer = Writer(alloc: Option<nat>, filled: nat, pc: Pc)

  datatype Flusher =
    | Sleeping
    | Scan(i: nat, ready: nat)
    | HaveFilled(i: nat, ready: nat, f: nat)
    | Flushing(end: nat, k: nat)

  datatype State = State(cfg: Config, lsn: nat, pers: nat, buf: seq<Byte>, file: seq<Byte>, ws: seq<Writer>, fl: Flusher, recs: seq<Rec>)

  datatype Action =
    | Guard(w: nat, entry: seq<Byte>)
    | Load(w: nat)
    | Store(w: nat)
    | SkipStore(w: nat)
    | Reserve(w: nat)
    | CopyByte(w: nat)
    | SetFilled(w: nat)
    | StartScan
    | ReadFilled
    | ReadAlloc
    | GiveUp
    | StartFlush
    | FlushByte
    | Persist

  function SetPc(s: State, w: nat, pc: Pc): State
    requires w < |s.ws|
  {
    s.(ws := s.ws[w := s.ws[w].(pc := pc)])
  }

  /** end_lsn: ready_lsn rounded down, at most one block after the persistent position. */
  function EndLsn(c: Config, pers: nat, ready: nat): nat {
    var e := ready - ready % 512;
    if e - pers > c.block then pers + c.block else e
  }

  predicate Enabled(s: State, a: Action) {
    match a
    case Guard(w, entry) =>
      && w < |s.ws| && s.ws[w].pc.Idle? && 0 < |entry| <= s.cfg.maxEntry
      && s.lsn + |entry| + s.cfg.maxEntry * s.cfg.threads < s.pers + s.cfg.size
    case Load(w) => w < |s.ws| && s.ws[w].pc.Guarded? && |s.ws[w].pc.entry| > 0 && s.ws[w].pc.entry[0] != 0x7f
    case Store(w) => w < |s.ws| && s.ws[w].pc.Loaded?
    case SkipStore(w) => w < |s.ws| && s.ws[w].pc.Guarded? && |s.ws[w].pc.entry| > 0 && s.ws[w].pc.entry[0] == 0x7f
    case Reserve(w) => w < |s.ws| && s.ws[w].pc.Published?
    case CopyByte(w) => w < |s.ws| && s.ws[w].pc.Filling? && s.ws[w].pc.copied < |s.ws[w].pc.entry| && |s.buf| > 0
    case SetFilled(w) => w < |s.ws| && s.ws[w].pc.Filling? && s.ws[w].pc.copied == |s.ws[w].pc.entry|
    case StartScan => s.fl.Sleeping?
    case ReadFilled => s.fl.Scan? && s.fl.i < |s.ws|
    case ReadAlloc => s.fl.HaveFilled? && s.fl.i < |s.ws|
    case GiveUp => s.fl.Scan? && s.fl.i == |s.ws|
    case StartFlush => s.fl.Scan? && s.fl.i == |s.ws| && s.pers <= EndLsn(s.cfg, s.pers, s.fl.ready)
    case FlushByte => s.fl.Flushing? && s.pers + s.fl.k < s.fl.end && |s.buf| > 0
    case Persist => s.fl.Flushing? && s.pers + s.fl.k == s.fl.end
  }

  function DoReserve(s: State, w: nat): State
    requires Enabled(s, Reserve(w))
  {
    var e := s.ws[w].pc.entry;
    SetPc(s, w, Filling(e, s.lsn, 0, |s.recs|)).(lsn := s.lsn + Aligned(|e|), recs := s.recs + [Rec(s.lsn, e)])
  }

  function DoCopyByte(s: State, w: nat): State
    requires Enabled(s, CopyByte(w))
  {
    var p := s.ws[w].pc;
    SetPc(s, w, p.(copied := p.copied + 1)).(buf := s.buf[(p.at + p.copied) % |s.buf| := p.entry[p.copied]])
  }

  function DoReadAlloc(s: State): State
    requires Enabled(s, ReadAlloc)
  {
    var a := s.ws[s.fl.i].alloc;
    var ready := if a.Some? && a.value >= s.fl.f && s.fl.ready > a.value then a.value else s.fl.ready;
    s.(fl := Scan(s.fl.i + 1, ready))
  }

  function Apply(s: State, a: Action): State
    requires Enabled(s, a)
  {
    match a
    case Guard(w, entry) => SetPc(s, w, Guarded(entry))
    case Load(w) => SetPc(s, w, Loaded(s.ws[w].pc.entry, s.lsn))
    case Store(w) => s.(ws := s.ws[w := s.ws[w].(alloc := Some(s.ws[w].pc.v), pc := Published(s.ws[w].pc.entry))])
    case SkipStore(w) => SetPc(s, w, Published(s.ws[w].pc.entry))
    case Reserve(w) => DoReserve(s, w)
    case CopyByte(w) => DoCopyByte(s, w)
    case SetFilled(w) => s.(ws := s.ws[w := s.ws[w].(filled := s.ws[w].pc.at + Aligned(|s.ws[w].pc.entry|), pc := Idle)])
    case StartScan => s.(fl := Scan(0, s.lsn))
    case ReadFilled => s.(fl := HaveFilled(s.fl.i, s.fl.ready, s.ws[s.fl.i].filled))
    case ReadAlloc => DoReadAlloc(s)
    case GiveUp => s.(fl := Sleeping)
    case StartFlush => s.(fl := Flushing(EndLsn(s.cfg, s.pers, s.fl.ready), 0))
    case FlushByte => s.(file := s.file + [s.buf[(s.pers + s.fl.k) % |s.buf|]], fl := Flushing(s.fl.end, s.fl.k + 1))
    case Persist => s.(pers := s.fl.end, fl := Sleeping)
  }

  /** An empty log: nothing reserved, nothing filled, any bytes in the ring. */
  predicate Init(s: State) {
    && ValidConfig(s.cfg) && s.lsn == 0 && s.pers == 0 && |s.buf| == s.cfg.size && s.file == [] && s.recs == []
    && s.fl == Sleeping && |s.ws| == s.cfg.threads
    && forall w :: 0 <= w < |s.ws| ==> s.ws[w] == Writer(None, 0, Idle)
  }

  function Run(s: State, schedule: seq<Action>): Option<State> {
    if schedule == [] then Some(s)
    else
      match Run(s, schedule[..|schedule| - 1])
      case None => None
      case Some(m) =>
        var a := schedule[|schedule| - 1];
        if Enabled(m, a) then Some(Apply(m, a)) else None
  }
}
