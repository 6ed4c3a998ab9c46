/** 32-bit serial-number arithmetic (section 3.2 of RFC 1982) over unwrapped positions.
    A position is an unbounded natural number; the wire carries it modulo 2^32. */
module Serial {
  const M32: nat := 0x1_0000_0000
  const HALF: int := 0x8000_0000
  const M64: nat := 0x1_0000_0000_0000_0000

  /** The wire number of a position. */
  function Wire(pos: nat): (sn: nat)
    ensures sn < M32
  {
    pos % M32
  }

  /** The signed 32-bit difference `(int32_t)(sn - base)`. */
  function SeqDelta(sn: nat, base: nat): (d: int)
    ensures -HALF <= d < HALF
  {
    var d := (sn - base) % M32;
    if d < HALF then d else d - M32
  }

  /** The unsigned 64-bit difference of two time stamps, which wraps like the source's. */
  function Elapsed(now: nat, since: nat): (t: nat)
    ensures since <= now < M64 ==> t == now - since
  {
    (now - since) % M64
  }

  /** Moving a position by the serial difference lands on the wire number it was computed from. */
  lemma SeqDeltaLands(sn: nat, pos: nat)
    requires sn < M32
    ensures 0 <= pos + SeqDelta(sn, Wire(pos)) ==> Wire(pos + SeqDelta(sn, Wire(pos))) == sn
    ensures Wire(pos + SeqDelta(sn, Wire(pos)) + M32) == sn
  {
  }

  /** Positions less than half the number space apart are compared exactly, wrap-around or not. */
  lemma SeqDeltaExact(p: nat, q: nat)
    requires -HALF <= p - q < HALF
    ensures SeqDelta(Wire(p), Wire(q)) == p - q
  {
  }

  lemma WireSmall(pos: nat)
    requires pos < M32
    ensures Wire(pos) == pos
  {
  }

  lemma WirePeriod(pos: nat)
    ensures Wire(pos + M32) == Wire(pos)
  {
  }

  /** Advancing the base moves the difference down by as much. */
  lemma SeqDeltaShift(sn: nat, pos: nat, k: nat)
    requires sn < M32
    requires -HALF <= SeqDelta(sn, Wire(pos)) - k
    ensures SeqDelta(sn, Wire(pos + k)) == SeqDelta(sn, Wire(pos)) - k
  {
    hide Wire, SeqDelta;
    var p: nat := pos + SeqDelta(sn, Wire(pos)) + M32;
    SeqDeltaLands(sn, pos);
    SeqDeltaExact(p, pos + k + M32);
    WirePeriod(pos + k);
  }

  /** `next_seq++` and `next_seq = seq` agree with the unwrapped position. */
  lemma WrapAdd(pos: nat, k: nat)
    ensures Wire(Wire(pos) + k) == Wire(pos + k)
  {
  }

  lemma MulAtLeast(k: int, n: int)
    requires k >= 1 && n >= 1
    ensures k * n >= n
  {
    assert (k - 1) * n >= 0;
  }

  /** A remainder is determined by any decomposition with a small rest. */
  lemma ModUnique(x: int, n: int, a: int, r: int)
    requires n > 0 && 0 <= r < n && x == a * n + r
    ensures x % n == r
  {
    var q, m := x / n, x % n;
    assert x == q * n + m;
    if a > q {
      MulAtLeast(a - q, n);
    } else if a < q {
      MulAtLeast(q - a, n);
    }
  }
}
