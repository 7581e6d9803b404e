/**
 * Many operations on the latch words of many nodes (common/index_btree.h:63-132), interleaved
 * latch by latch: an exclusive holder of a node is always its only holder.
 */
module BTreeLatchRuns {
  import opened Wrappers
  import opened BTreeLatch

  datatype Word = Word(kind: Kind, share: nat)

  /** Per node its word, and who holds it how. */
  datatype State = State(words: seq<Word>, holders: seq<map<nat, Kind>>)

  datatype Action =
    | Latch(me: nat, n: nat, want: Kind)
    | Unlatch(me: nat, n: nat)
    | Upgrade(me: nat, n: nat)

  /** Operations release what they hold, upgrade what they share and do not latch twice. */
  predicate Enabled(s: State, a: Action) {
    && a.n < |s.words| == |s.holders|
    && match a
       case Latch(me, n, want) => me !in s.holders[n] && want != Free
       case Unlatch(me, n) => me in s.holders[n]
       case Upgrade(me, n) => me in s.holders[n] && s.holders[n][me] == Shared
  }

  predicate Granted(w: Word, a: Action) {
    match a
    case Latch(_, _, want) => w.kind == Free || (w.kind == Shared && want == Shared)
    case Unlatch(_, _) => true
    case Upgrade(_, _) => w.share <= 1
  }

  /** latch_node, release_latch and upgrade_latch on the word alone. */
  function NewWord(w: Word, a: Action): Word {
    if !Granted(w, a) then w
    else
      match a
      case Latch(_, _, want) => Word(want, if want == Shared then w.share + 1 else w.share)
      case Unlatch(_, _) =>
        if w.kind == Exclusive then Word(Free, w.share)
        else if w.kind == Shared && w.share > 0 then Word(if w.share == 1 then Free else Shared, w.share - 1)
        else w
      case Upgrade(_, _) => Word(Exclusive, 0)
  }

  function NewHolders(h: map<nat, Kind>, w: Word, a: Action): map<nat, Kind> {
    if !Granted(w, a) then h
    else
      match a
      case Latch(me, _, want) => h[me := want]
      case Unlatch(me, _) => h - {me}
      case Upgrade(me, _) => h[me := Exclusive]
  }

  function Apply(s: State, a: Action): State
    requires Enabled(s, a)
  {
    State(s.words[a.n := NewWord(s.words[a.n], a)], s.holders[a.n := NewHolders(s.holders[a.n], s.words[a.n], a)])
  }

  predicate Init(s: State) {
    |s.words| == |s.holders| && forall n :: 0 <= n < |s.words| ==> s.words[n] == Word(Free, 0) && s.holders[n] == map[]
  }

  function Run(s: State, schedule: seq<Action>): Option<State> {
    if schedule == [] then Some(s)
    else
      match Run(s, schedule[..|schedule| - 1])
      case None => None
      case Some(m) =>
        var a := schedule[|schedule| - 1];
        if Enabled(m, a) then Some(Apply(m, a)) else None
  }

  /** The word tells the holders: nobody, readers only and how many, or one writer. */
  ghost predicate WordOK(w: Word, h: map<nat, Kind>) {
    match w.kind
    case Free => h == map[] && w.share == 0
    case Shared => h != map[] && w.share == |h| && forall me :: me in h ==> h[me] == Shared
    case Exclusive => w.share == 0 && exists me :: h == map[me := Exclusive]
  }

  lemma DropOne(h: map<nat, Kind>, me: nat)
    requires me in h
    ensures |h - {me}| == |h| - 1 && (|h| == 1 ==> h - {me} == map[])
  {
    assert (h - {me}).Keys == h.Keys - {me};
    assert |h.Keys| == |h| && |(h - {me}).Keys| == |h - {me}|;
    if |h| == 1 {
      assert |(h - {me}).Keys| == 0;
      assert (h - {me}).Keys == {};
    }
  }

  lemma AddOne(h: map<nat, Kind>, me: nat, k: Kind)
    requires me !in h
    ensures |h[me := k]| == |h| + 1
  {
    assert h[me := k].Keys == h.Keys + {me};
    assert |h.Keys| == |h| && |h[me := k].Keys| == |h[me := k]|;
  }

  lemma OnlyReader(h: map<nat, Kind>, me: nat)
    requires me in h && |h| <= 1
    ensures h[me := Exclusive] == map[me := Exclusive]
  {
    DropOne(h, me);
    assert forall k :: k in h && k != me ==> k in h - {me};
  }

  lemma LatchOK(w: Word, h: map<nat, Kind>, a: Action)
    requires WordOK(w, h) && a.Latch? && a.me !in h && a.want != Free
    ensures WordOK(NewWord(w, a), NewHolders(h, w, a))
  {
    if Granted(w, a) {
      AddOne(h, a.me, a.want);
      if a.want == Exclusive {
        assert h[a.me := Exclusive] == map[a.me := Exclusive];
      }
    }
  }

  lemma UnlatchOK(w: Word, h: map<nat, Kind>, a: Action)
    requires WordOK(w, h) && a.Unlatch? && a.me in h
    ensures WordOK(NewWord(w, a), NewHolders(h, w, a))
  {
    DropOne(h, a.me);
    if w.kind == Exclusive {
      var me :| h == map[me := Exclusive];
      assert me == a.me && h - {me} == map[];
    }
  }

  lemma UpgradeOK(w: Word, h: map<nat, Kind>, a: Action)
    requires WordOK(w, h) && a.Upgrade? && a.me in h && h[a.me] == Shared
    ensures WordOK(NewWord(w, a), NewHolders(h, w, a))
  {
    if w.kind == Shared && Granted(w, a) {
      OnlyReader(h, a.me);
    }
  }

  ghost predicate Inv(s: State) {
    |s.words| == |s.holders| && forall n :: 0 <= n < |s.words| ==> WordOK(s.words[n], s.holders[n])
  }

  lemma KeepInv(s: State, a: Action)
    requires Inv(s) && Enabled(s, a)
    ensures Inv(Apply(s, a))
  {
    var w, h := s.words[a.n], s.holders[a.n];
    assert WordOK(w, h);
    match a
    case Latch(_, _, _) => LatchOK(w, h, a);
    case Unlatch(_, _) => UnlatchOK(w, h, a);
    case Upgrade(_, _) => UpgradeOK(w, h, a);
  }

  lemma {:induction false} RunInv(s: State, schedule: seq<Action>)
    requires Init(s) && Run(s, schedule).Some?
    ensures Inv(Run(s, schedule).value)
  {
    if schedule != [] {
      RunInv(s, schedule[..|schedule| - 1]);
      KeepInv(Run(s, schedule[..|schedule| - 1]).value, schedule[|schedule| - 1]);
    }
  }

  /** In every run the nodes held exclusively by one operation are held by no other. */
  lemma ExclusiveAlone(s: State, schedule: seq<Action>, n: nat, me: nat, other: nat)
    requires Init(s) && Run(s, schedule).Some? && n < |Run(s, schedule).value.holders|
    requires var h := Run(s, schedule).value.holders[n]; me in h && h[me] == Exclusive && other in h
    ensures me == other
  {
    RunInv(s, schedule);
    var f := Run(s, schedule).value;
    assert WordOK(f.words[n], f.holders[n]);
  }
}
