/** The packet ring: a power-of-two buffer over wrapping 32-bit counters, as a FIFO queue. */
module Ring {
  import opened Helpers
  import opened Serial

  /** What initialization accepts: a power of two that fits 32 bits, so that it divides 2^32. */
  predicate CapOk(cap: nat) {
    0 < cap <= 0x8000_0000 && M32 % cap == 0
  }

  predicate IsPower(n: bv32) {
    || n == 0x1 || n == 0x2 || n == 0x4 || n == 0x8 || n == 0x10 || n == 0x20 || n == 0x40 || n == 0x80
    || n == 0x100 || n == 0x200 || n == 0x400 || n == 0x800 || n == 0x1000 || n == 0x2000 || n == 0x4000 || n == 0x8000
    || n == 0x1_0000 || n == 0x2_0000 || n == 0x4_0000 || n == 0x8_0000
    || n == 0x10_0000 || n == 0x20_0000 || n == 0x40_0000 || n == 0x80_0000
    || n == 0x100_0000 || n == 0x200_0000 || n == 0x400_0000 || n == 0x800_0000
    || n == 0x1000_0000 || n == 0x2000_0000 || n == 0x4000_0000 || n == 0x8000_0000
  }

  /** The bit test of initialization accepts exactly the 32 powers of two. */
  lemma BitTest(n: bv32)
    ensures n != 0 && n & (n - 1) == 0 <==> IsPower(n)
  {
  }

  lemma PowerFits(n: bv32)
    requires IsPower(n)
    ensures CapOk(n as nat)
  {
  }

  /** `ne_ring_init`: refused exactly for a capacity that is no power of two. */
  method InitRing<T(0)>(n: bv32) returns (q: Option<Queue<T>>)
    ensures q.Some? <==> IsPower(n)
    ensures q.Some? ==> fresh(q.value) && q.value.Valid() && q.value.cap == n as nat && q.value.Contents() == []
  {
    hide CapOk, IsPower;
    BitTest(n);
    if n == 0 || n & (n - 1) != 0 {
      return None;
    }
    PowerFits(n);
    var r := new Queue<T>(n as nat);
    q := Some(r);
  }

  function Slot(pos: nat, cap: nat): (i: nat)
    requires cap > 0
    ensures i < cap
  {
    pos % cap
  }

  /** Masking the wrapped counter selects the same slot as the unwrapped position. */
  lemma SlotOfWire(pos: nat, cap: nat)
    requires CapOk(cap)
    ensures Slot(Wire(pos), cap) == Slot(pos, cap)
  {
    var k := M32 / cap;
    assert M32 == k * cap;
    var q, r := pos / M32, pos % M32;
    var q2, j := r / cap, r % cap;
    assert pos == q * M32 + r && r == q2 * cap + j;
    assert q * M32 == (q * k) * cap by { assert q * (k * cap) == (q * k) * cap; }
    assert (q * k) * cap + q2 * cap == (q * k + q2) * cap;
    ModUnique(pos, cap, q * k + q2, j);
  }

  lemma SlotsApart(p: nat, q: nat, cap: nat)
    requires cap > 0 && p < q < p + cap
    ensures Slot(p, cap) != Slot(q, cap)
  {
    var a, r := p / cap, p % cap;
    assert p == a * cap + r;
    if r + (q - p) < cap {
      ModUnique(q, cap, a, r + (q - p));
    } else {
      assert (a + 1) * cap == a * cap + cap;
      ModUnique(q, cap, a + 1, r + (q - p) - cap);
    }
  }

  /** The unsigned difference of two wrapped counters less than 2^32 apart. */
  function Diff(head: nat, tail: nat): (d: nat)
    ensures d < M32
  {
    (head - tail) % M32
  }

  lemma DiffExact(h: nat, t: nat)
    requires t <= h < t + M32
    ensures Diff(Wire(h), Wire(t)) == h - t
  {
  }

  /** `cap - 2u`, which wraps for a ring of one slot. */
  function PairLimit(cap: nat): nat {
    (cap - 2) % M32
  }

  class Queue<T(0)> {
    const buf: array<T>
    const cap: nat
    var head: nat
    var tail: nat
    ghost var h: nat
    ghost var t: nat

    ghost predicate Valid()
      reads this, buf
    {
      && CapOk(cap) && buf.Length == cap
      && head == Wire(h) && tail == Wire(t)
      && t <= h <= t + cap
    }

    /** The packets in the ring, oldest first. */
    ghost function Contents(): (c: seq<T>)
      requires Valid()
      reads this, buf
      ensures |c| == h - t
      ensures forall i :: 0 <= i < |c| ==> c[i] == buf[Slot(t + i, cap)]
    {
      seq(h - t, i requires 0 <= i < h - t && CapOk(cap) && buf.Length == cap reads this, buf => buf[Slot(t + i, cap)])
    }

    constructor (n: nat)
      requires CapOk(n)
      ensures Valid() && cap == n && Contents() == [] && fresh(buf)
    {
      buf := new T[n];
      cap := n;
      head, tail, h, t := 0, 0, 0, 0;
    }

    /** Number of queued packets. */
    method Count() returns (n: nat)
      requires Valid()
      ensures n == |Contents()| <= cap
    {
      DiffExact(h, t);
      n := Diff(head, tail);
    }

    /** Append a packet; fails exactly when the ring is full. */
    method TryPush(x: T) returns (ok: bool)
      requires Valid()
      modifies this, buf
      ensures Valid()
      ensures ok == (|old(Contents())| < cap)
      ensures Contents() == if ok then old(Contents()) + [x] else old(Contents())
    {
      hide Wire, Slot, Diff;
      DiffExact(h, t);
      if Diff(head, tail) >= cap {
        return false;
      }
      SlotOfWire(h, cap);
      KeepsOthers(h, 1);
      buf[Slot(head, cap)] := x;
      WrapAdd(h, 1);
      head := Wire(head + 1);
      h := h + 1;
      ok := true;
    }

    /** Append two packets together. In a ring of at least two slots it fails exactly when fewer than
        two are free; the two packets are adjacent and become visible at once. A ring of one slot
        accepts every pair and keeps only the second packet. */
    method TryPushPair(x: T, y: T) returns (ok: bool)
      requires Valid()
      modifies this, buf
      ensures cap >= 2 ==> Valid() && ok == (|old(Contents())| + 2 <= cap)
      ensures cap >= 2 ==> Contents() == if ok then old(Contents()) + [x, y] else old(Contents())
      ensures cap == 1 ==> ok && buf[0] == y && h == old(h) + 2 && !Valid()
    {
      hide Wire, Slot, Diff;
      DiffExact(h, t);
      if PairRefused(Diff(head, tail), cap) {
        PairGuardIff(cap);
        return false;
      }
      PairGuardIff(cap);
      SlotOfWire(h, cap);
      SlotOfWire(h + 1, cap);
      WrapAdd(h, 1);
      WrapAdd(h, 2);
      if cap >= 2 {
        KeepsOthers(h, 2);
        KeepsOthers(h + 1, 2);
        SlotsApart(h, h + 1, cap);
      }
      buf[Slot(head, cap)] := x;
      buf[Slot(Wire(head + 1), cap)] := y;
      head := Wire(head + 2);
      h := h + 2;
      ok := true;
    }

    /** A slot ahead of the queue is no slot of a queued packet. */
    lemma KeepsOthers(p: nat, n: nat)
      requires Valid() && h <= p < h + n && h - t + n <= cap
      ensures forall q :: t <= q < h ==> Slot(q, cap) != Slot(p, cap)
    {
      hide Slot, Wire;
      forall q | t <= q < h ensures Slot(q, cap) != Slot(p, cap) {
        SlotsApart(q, p, cap);
      }
    }

    /** Remove the oldest packet; fails exactly when the ring is empty. */
    method TryPop() returns (ok: bool, x: T)
      requires Valid()
      modifies this
      ensures Valid()
      ensures ok == (|old(Contents())| > 0)
      ensures ok ==> x == old(Contents())[0] && Contents() == old(Contents())[1..]
      ensures !ok ==> Contents() == old(Contents())
    {
      hide Wire, Slot, Diff;
      x := buf[Slot(tail, cap)];
      SlotOfWire(t, cap);
      DiffExact(h, t);
      DiffSame(head, tail);
      if tail == head {
        return false, x;
      }
      WrapAdd(t, 1);
      tail := Wire(tail + 1);
      t := t + 1;
      ok := true;
      assert Contents() == old(Contents())[1..];
    }
  }

  lemma DiffSame(head: nat, tail: nat)
    ensures head == tail ==> Diff(head, tail) == 0
    ensures Diff(head, tail) == 0 && head < M32 && tail < M32 ==> head == tail
  {
  }

  /** The fullness test of the pair push. */
  predicate PairRefused(n: nat, cap: nat) {
    n > PairLimit(cap)
  }

  /** The pair push refuses exactly when fewer than two slots are free, if and only if the ring has at
      least two slots. In a one-slot ring the limit wraps around, so nothing is ever refused. */
  lemma PairGuardIff(cap: nat)
    requires CapOk(cap)
    ensures (forall n: nat :: n <= cap ==> (PairRefused(n, cap) <==> n + 2 > cap)) <==> cap >= 2
    ensures cap == 1 ==> forall n: nat :: n < M32 ==> !PairRefused(n, cap)
  {
    if cap == 1 {
      assert PairLimit(1) == M32 - 1;
      assert !PairRefused(1, cap);
    } else {
      assert PairLimit(cap) == cap - 2;
    }
  }
}
