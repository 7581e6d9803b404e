/**
 * The packed 64-bit word of a TicToc row (trusted/concurrency_control/row_tictoc.h, row_tictoc.cpp):
 * bit 63 is the lock, bits 48..62 the lease length, bits 0..47 the write timestamp. Masking with
 * the low bits is written as %, masking and shifting a field out as / and %.
 */
module RowTicToc {
  import opened Wrappers
  import opened Serial
  import opened TicToc

  /** 1 << WTS_LEN */
  const WTS_MOD: nat := 0x1_0000_0000_0000
  /** 1 << 63 */
  const LOCK_BIT: nat := 0x8000_0000_0000_0000

  predicate IsWord(v: nat) { v < 2 * LOCK_BIT }

  function Wts(v: nat): nat { v % WTS_MOD }

  function Len(v: nat): nat { v / WTS_MOD % LEASES }

  predicate Locked(v: nat) { v >= LOCK_BIT }

  function Pack(locked: bool, w: Word): nat {
    (if locked then LOCK_BIT else 0) + w.len * WTS_MOD + w.wts
  }

  /** The abstract lease a word stands for. */
  function View(v: nat): Word { Word(Wts(v), Len(v)) }

  /** Packing loses nothing: fields in range come back, and every 64-bit word is the packing of its fields. */
  lemma PackView(locked: bool, w: Word, v: nat)
    requires w.wts < WTS_MOD && w.len < LEASES && IsWord(v)
    ensures IsWord(Pack(locked, w)) && View(Pack(locked, w)) == w && (Locked(Pack(locked, w)) <==> locked)
    ensures Pack(Locked(v), View(v)) == v
  {
    var p := w.len * WTS_MOD + w.wts;
    assert p / WTS_MOD == w.len;
    assert LOCK_BIT == LEASES * WTS_MOD;
    assert (p + LEASES * WTS_MOD) / WTS_MOD == w.len + LEASES;
    assert v == v / WTS_MOD * WTS_MOD + v % WTS_MOD;
    assert v / WTS_MOD < 2 * LEASES;
  }

  class Row {
    var word: nat
    var data: Value

    constructor (init: Value)
      ensures word == 0 && data == init
    {
      word, data := 0, init;
    }

    /**
     * try_lock(): sets the lock bit of an unlocked word and nothing else. `other` is a word that
     * another transaction stores between the read and the compare-and-swap, if any.
     */
    method TryLock(other: Option<nat>) returns (ok: bool)
      requires IsWord(word) && (other.Some? ==> IsWord(other.value))
      modifies this`word
      ensures IsWord(word)
      ensures ok <==> !Locked(old(word)) && (other.Some? ==> other.value == old(word))
      ensures ok ==> Locked(word) && View(word) == View(old(word))
      ensures !ok ==> word == if other.Some? then other.value else old(word)
    {
      var v := word;
      if other.Some? {
        word := other.value;
      }
      if Locked(v) {
        return false;
      }
      ok := word == v;
      if ok {
        PackView(false, View(word), word);
        PackView(true, View(word), word);
        word := word + LOCK_BIT;
      }
    }

    /** release(): clears the lock bit and nothing else. */
    method Release()
      requires IsWord(word)
      modifies this`word
      ensures IsWord(word) && !Locked(word) && View(word) == View(old(word))
    {
      if Locked(word) {
        PackView(true, View(word), word);
        PackView(false, View(word), word);
        word := word - LOCK_BIT;
      }
    }

    /**
     * write_data(): a new version with an empty lease; the lock bit stays. A timestamp that needs
     * more than 48 bits spills into the lease and the lock bit.
     */
    method WriteData(newData: Value, wts: nat)
      requires IsWord(word) && IsWord(wts)
      modifies this
      ensures IsWord(word) && data == newData
      ensures View(word) == View(wts) && (Locked(word) <==> Locked(old(word)) || Locked(wts))
      ensures View(word) == Word(wts, 0) <==> wts < WTS_MOD
      ensures wts < WTS_MOD ==> Locked(word) == Locked(old(word))
    {
      PackView(Locked(wts), View(wts), wts);
      PackView(Locked(word) || Locked(wts), View(wts), wts);
      word := if Locked(word) && !Locked(wts) then LOCK_BIT + wts else wts;
      data := newData;
    }

    /** get_ts_word(). */
    method GetTsWord() returns (lock: bool, rts: nat, wts: nat)
      requires IsWord(word)
      ensures lock == Locked(word) && wts == View(word).wts && rts == View(word).Rts()
    {
      lock, wts := Locked(word), Wts(word);
      rts := Len(word) + Wts(word);
    }

    /**
     * try_renew(): `others` are the words that concurrent transactions leave in memory before the
     * successive compare-and-swaps. `met` is the word in memory at the moment that decided.
     */
    method TryRenew(wts: nat, rts: nat, others: seq<nat>, byLength: bool) returns (ok: bool, met: nat)
      requires IsWord(word) && wts <= rts < WTS_MOD
      requires forall i :: 0 <= i < |others| ==> IsWord(others[i])
      modifies this`word
      ensures IsWord(word) && IsWord(met)
      // success means the version that was read is valid up to rts
      ensures ok ==> Wts(met) == wts
      ensures ok && word == met ==> rts <= View(met).Rts()
      // a store happens only over an unlocked word of that version, and ends exactly at rts, rebased or not
      ensures word != met ==> ok && !Locked(met) && !Locked(word) && View(word) == Renewed(wts, rts) && View(word).Rts() == rts
      // the stored lease is at least as long as the one it replaces exactly when that one was short
      ensures word != met ==> (View(met).Rts() <= View(word).Rts() <==> Len(met) <= rts - wts)
      ensures word != met && byLength ==> Len(met) <= rts - wts
      // a failure has one of three causes: the word is locked, holds another version, or a rebase lost its race
      ensures !ok ==> word == met && (Locked(met) || Wts(met) != wts || (rts - wts >= LEASES && met in others))
      // without interference it succeeds exactly on the version read, unlocked or with a lease that is long enough
      ensures others == [] ==> (ok <==> Wts(old(word)) == wts && (!Locked(old(word)) || Len(old(word)) >= rts - wts))
    {
      var v := word;
      met := v;
      if Wts(v) == wts && Len(v) >= rts - wts {
        return true, v;
      }
      if Locked(v) || Wts(v) != wts {
        return false, v;
      }
      var target := Renewed(wts, rts);
      assert target.Rts() == rts;
      PackView(false, target, v);
      var v2 := Pack(false, target);
      var k := 0;
      while true
        invariant 0 <= k <= |others| && IsWord(word) && IsWord(v)
        invariant !Locked(v) && Wts(v) == wts
        invariant word == v
        invariant byLength ==> Len(v) <= rts - wts
        invariant target == Renewed(wts, rts) && v2 == Pack(false, target) && View(v2) == target && IsWord(v2) && !Locked(v2)
        decreases |others| - k
      {
        if k < |others| {
          word := others[k];
        }
        met := word;
        if word == v {
          word := v2;
          return true, met;
        }
        v := word;
        k := k + 1;
        if rts - wts >= LEASES || Locked(v) || Wts(v) != wts {
          return false, met;
        }
        if LongEnough(byLength, wts, rts, Len(v)) {
          return true, met;
        }
      }
    }
  }
}
