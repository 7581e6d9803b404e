/**
 * The copies in and out of the ring (untrusted/system/logger.cpp): at most two memcpy or write
 * calls, which amount to one byte after the other at its position modulo the ring size.
 */
module LogRing {
  import opened Log
  import opened LogProof

  /** The first `k` bytes of `entry` at their places in the ring, byte by byte as the machine copies them. */
  function Written(buf: seq<Byte>, lsn: nat, entry: seq<Byte>, k: nat): (r: seq<Byte>)
    requires |buf| > 0 && k <= |entry|
    ensures |r| == |buf|
  {
    if k == 0 then buf else Written(buf, lsn, entry, k - 1)[(lsn + k - 1) % |buf| := entry[k - 1]]
  }

  /** Positions in the ring without and with wrap-around, and the test the code makes for it. */
  lemma Places(lsn: nat, k: nat, n: nat)
    requires n > 0 && k <= n
    ensures lsn % n + k < n ==> (lsn + k) % n == lsn % n + k && (lsn + k) / n == lsn / n
    ensures lsn % n + k >= n ==> (lsn + k) % n == lsn % n + k - n && lsn / n < (lsn + k) / n
  {
    var q, r, x := lsn / n, lsn % n, lsn + k;
    assert lsn == n * q + r && x == n * (x / n) + x % n;
    var d := x / n - q;
    assert n * (x / n) - n * q == n * d;
    MultipleSize(n, d);
    MultipleSize(n, d - 1);
    MultipleSize(n, d - 2);
    assert n * (d - 1) == n * d - n && n * (d - 2) == n * d - 2 * n;
  }

  lemma PlaceOf(lsn: nat, from: nat, k: nat, n: nat, pos: nat)
    requires n > 0 && from <= k < from + n && pos == (lsn + from) % n && pos + (k - from) < n
    ensures (lsn + k) % n == pos + (k - from)
  {
    Places(lsn + from, k - from, n);
    assert lsn + from + (k - from) == lsn + k;
  }

  /** memcpy of part of an entry to consecutive places. */
  method Memcpy(buffer: array<Byte>, ghost buf: seq<Byte>, lsn: nat, entry: seq<Byte>, from: nat, to: nat, pos: nat)
    requires from <= to <= |entry| <= buffer.Length && buffer.Length > 0 && |buf| == buffer.Length
    requires pos == (lsn + from) % buffer.Length && pos + (to - from) <= buffer.Length
    requires buffer[..] == Written(buf, lsn, entry, from)
    modifies buffer
    ensures buffer[..] == Written(buf, lsn, entry, to)
  {
    var k := from;
    while k < to
      invariant from <= k <= to && buffer[..] == Written(buf, lsn, entry, k)
    {
      PlaceOf(lsn, from, k, buffer.Length, pos);
      buffer[pos + (k - from)] := entry[k];
      k := k + 1;
    }
  }

  /** The copy of an entry into the ring, in two steps where it passes the end. */
  method CopyIn(buffer: array<Byte>, lsn: nat, entry: seq<Byte>)
    requires |entry| <= buffer.Length && buffer.Length > 0
    modifies buffer
    ensures buffer[..] == Written(old(buffer[..]), lsn, entry, |entry|)
  {
    var n := buffer.Length;
    ghost var buf := buffer[..];
    Places(lsn, |entry|, n);
    if lsn / n < (lsn + |entry|) / n {
      var tail := n - lsn % n;
      Places(lsn, tail, n);
      Memcpy(buffer, buf, lsn, entry, 0, tail, lsn % n);
      Memcpy(buffer, buf, lsn, entry, tail, |entry|, 0);
    } else {
      Memcpy(buffer, buf, lsn, entry, 0, |entry|, lsn % n);
    }
  }

  /** What the ring holds after the copy: the entry at its places, everything else untouched. */
  lemma {:induction false} WrittenAt(buf: seq<Byte>, lsn: nat, entry: seq<Byte>, k: nat, x: nat)
    requires |buf| > 0 && k <= |entry| <= |buf| && lsn <= x < lsn + |buf|
    ensures Written(buf, lsn, entry, k)[x % |buf|] == if x < lsn + k then entry[x - lsn] else buf[x % |buf|]
  {
    if k > 0 {
      WrittenAt(buf, lsn, entry, k - 1, x);
      var y := lsn + k - 1;
      if y < x {
        RingPlaces(x, y, |buf|);
      } else if x < y {
        RingPlaces(y, x, |buf|);
      }
    }
  }

  /** flush(): the bytes written to the file are those at the positions start..end, in order. */
  method Flush(buffer: array<Byte>, start: nat, end: nat) returns (out: seq<Byte>)
    requires buffer.Length > 0 && start <= end && end - start < buffer.Length
    ensures |out| == end - start && forall k :: 0 <= k < end - start ==> out[k] == buffer[(start + k) % buffer.Length]
  {
    var n := buffer.Length;
    if start == end {
      return [];
    }
    Places(start, end - start, n);
    if start / n < end / n {
      var tail := n - start % n;
      out := buffer[start % n..start % n + tail] + buffer[..end % n];
    } else {
      out := buffer[start % n..start % n + (end - start)];
    }
    forall k | 0 <= k < end - start
      ensures out[k] == buffer[(start + k) % n]
    {
      Places(start, k, n);
    }
  }
}
