/** The pool of idle frames: the same wrapping-counter buffer as the ring, moved in batches. */
module FramePool {
  import opened Serial
  import opened Ring

  class Pool {
    const buf: array<nat>
    const cap: nat
    var head: nat
    var tail: nat
    ghost var h: nat
    ghost var t: nat

    ghost predicate Valid()
      reads this, buf
    {
      && CapOk(cap) && buf.Length == cap
      && head == Wire(h) && tail == Wire(t)
      && t <= h <= t + cap
    }

    /** The idle frames, oldest first. */
    ghost function Contents(): (c: seq<nat>)
      requires Valid()
      reads this, buf
      ensures |c| == h - t
      ensures forall i :: 0 <= i < |c| ==> c[i] == buf[Slot(t + i, cap)]
    {
      seq(h - t, i requires 0 <= i < h - t && CapOk(cap) && buf.Length == cap reads this, buf => buf[Slot(t + i, cap)])
    }

    constructor (n: nat)
      requires CapOk(n)
      ensures Valid() && cap == n && Contents() == [] && fresh(buf)
    {
      buf := new nat[n];
      cap := n;
      head, tail, h, t := 0, 0, 0, 0;
    }

    /** Give frames back. Those that do not fit are silently not taken. */
    method Push(addrs: seq<nat>) returns (put: nat)
      requires Valid() && |addrs| < M32
      modifies this, buf
      ensures Valid()
      ensures put == if |addrs| <= cap - |old(Contents())| then |addrs| else cap - |old(Contents())|
      ensures Contents() == old(Contents()) + addrs[..put]
    {
      hide Wire, Slot, Diff;
      DiffExact(h, t);
      var room := cap - Diff(head, tail);
      put := if |addrs| < room then |addrs| else room;
      for i := 0 to put
        modifies buf
        invariant forall q :: t <= q < h ==> buf[Slot(q, cap)] == old(buf[Slot(q, cap)])
        invariant forall q :: h <= q < h + i ==> buf[Slot(q, cap)] == addrs[q - h]
      {
        WrapAdd(h, i);
        SlotOfWire(h + i, cap);
        forall q | t <= q < h + i ensures Slot(q, cap) != Slot(h + i, cap) {
          SlotsApart(q, h + i, cap);
        }
        buf[Slot(Wire(head + i), cap)] := addrs[i];
      }
      WrapAdd(h, put);
      head := Wire(head + put);
      h := h + put;
    }

    /** Take up to `n` of the oldest idle frames. */
    method Pop(n: nat) returns (got: seq<nat>)
      requires Valid()
      modifies this
      ensures Valid()
      ensures var k := if n <= |old(Contents())| then n else |old(Contents())|;
              got == old(Contents())[..k] && Contents() == old(Contents())[k..]
    {
      hide Wire, Slot, Diff;
      DiffExact(h, t);
      var avail := Diff(head, tail);
      var k := if n < avail then n else avail;
      got := [];
      for i := 0 to k
        modifies {}
        invariant |got| == i && forall j :: 0 <= j < i ==> got[j] == Contents()[j]
      {
        WrapAdd(t, i);
        SlotOfWire(t + i, cap);
        got := got + [buf[Slot(Wire(tail + i), cap)]];
      }
      WrapAdd(t, k);
      tail := Wire(tail + k);
      t := t + k;
    }

    /** Refill the pool with every frame of the packet memory; fails exactly when there are none or
        more than it can hold. */
    method ResetFull(frames: nat, frameSize: nat) returns (ok: bool)
      requires Valid()
      modifies this, buf
      ensures Valid()
      ensures ok == (0 < frames <= cap)
      ensures ok ==> |Contents()| == frames && forall i :: 0 <= i < frames ==> Contents()[i] == i * frameSize
    {
      hide Wire, Slot, Diff;
      if frames == 0 {
        return false;
      }
      head, tail := 0, 0;
      h, t := 0, 0;
      WireSmall(0);
      var i := 0;
      while i < frames
        invariant Valid() && i <= frames && |Contents()| == i <= cap
        invariant forall j :: 0 <= j < i ==> Contents()[j] == j * frameSize
      {
        var put := Push([i * frameSize]);
        if put != 1 {
          return false;
        }
        i := i + 1;
      }
      ok := true;
    }
  }

}
