/** The per-worker UDP reorder buffer as functions on values.

    The model keeps the next expected number of a flow as an unwrapped position; the
    source keeps it modulo 2^32. Every call of the `emit` and `drop` callbacks is an
    event of `trace`, and `Env.accepts` says of the k-th event whether `emit` took it. */
module ReorderModel {
  import opened Serial

  const WINDOW: nat := 256
  const WAYS: nat := 4
  const SETS: nat := 128
  const FLOW_CAP: nat := 512
  const START_BACKTRACK: nat := 32
  const GC_SLICE: nat := 16
  const FLOW_IDLE_NS: nat := 60_000_000_000
  const NO_DELTA: int := 0x7fff_ffff

  datatype Key = Key(srcIp: nat, dstIp: nat, srcPort: nat, dstPort: nat)
  datatype Item = Item(addr: nat, len: nat, profile: int, ingressWan: int)

  /** One call of submit: the flow, the sender's epoch, the wire number and the packet. */
  datatype Datagram = Datagram(key: Key, epoch: nat, sn: nat, item: Item)

  /** A class of datagrams to keep count of: a single one, all of one flow, all on one frame. */
  type Mark = Datagram -> bool

  const ANY: Mark := (d: Datagram) => true

  datatype Slot = Empty | Held(d: Datagram)
  datatype Flow = Flow(valid: bool, key: Key, epoch: nat, next: nat, gapSince: nat,
                       lastSeen: nat, stamp: nat, held: nat)
  datatype Entry = Entry(flow: Flow, win: seq<Slot>)

  /** `Emit` and `Pass` are calls of the emit callback, which is followed by a call of the drop
      callback when `ok` is false; `Drop` is a call of the drop callback alone; `Reset` marks
      the start of a new life of a table entry, for flow `key` at position `start`. */
  datatype Event =
    | Emit(idx: nat, pos: nat, d: Datagram, ok: bool)
    | Pass(d: Datagram, ok: bool)
    | Drop(d: Datagram)
    | Reset(idx: nat, key: Key, start: nat)

  /** What the worker does not control: configuration, the hash, and the callback's answers. */
  datatype Env = Env(enabled: bool, cap: nat, hold: nat, hash: Key -> nat, accepts: nat -> bool)

  /** One entry, the worker's held counter and the trace: all that a per-flow step can change. */
  datatype Ctx = Ctx(e: Entry, total: nat, trace: seq<Event>)

  datatype Worker = Worker(entries: seq<Entry>, total: nat, cursor: nat, clock: nat, trace: seq<Event>)

  /** A call either returns or, in the room loop, never does. */
  datatype Outcome<T> = Returns(v: T) | Hangs

  function Pred(n: nat): nat {
    if n > 0 then n - 1 else 0
  }

  /* ---- windows ---- */

  function SlotOf(n: nat): (i: nat)
    ensures i < WINDOW
  {
    n % WINDOW
  }

  predicate Aligned(win: seq<Slot>) {
    && |win| == WINDOW
    && forall i :: 0 <= i < WINDOW && win[i].Held? ==> win[i].d.sn < M32 && SlotOf(win[i].d.sn) == i
  }

  /** How many slots are occupied. */
  function HeldCount(win: seq<Slot>): nat {
    if |win| == 0 then 0 else HeldCount(win[..|win| - 1]) + (if win[|win| - 1].Held? then 1 else 0)
  }

  /** How many slots hold a datagram of class `x`. */
  function HeldCopies(win: seq<Slot>, x: Mark): nat {
    if |win| == 0 then 0
    else HeldCopies(win[..|win| - 1], x) + (if win[|win| - 1].Held? && x(win[|win| - 1].d) then 1 else 0)
  }

  lemma {:induction false} HeldCountUpdate(win: seq<Slot>, i: nat, s: Slot)
    requires i < |win|
    ensures HeldCount(win[i := s]) + (if win[i].Held? then 1 else 0) == HeldCount(win) + (if s.Held? then 1 else 0)
  {
    var n := |win| - 1;
    if i == n {
      assert win[i := s][..n] == win[..n];
    } else {
      assert win[i := s][..n] == win[..n][i := s];
      HeldCountUpdate(win[..n], i, s);
    }
  }

  lemma {:induction false} HeldCopiesUpdate(win: seq<Slot>, i: nat, s: Slot, x: Mark)
    requires i < |win|
    ensures HeldCopies(win[i := s], x) + (if win[i].Held? && x(win[i].d) then 1 else 0)
         == HeldCopies(win, x) + (if s.Held? && x(s.d) then 1 else 0)
  {
    var n := |win| - 1;
    if i == n {
      assert win[i := s][..n] == win[..n];
    } else {
      assert win[i := s][..n] == win[..n][i := s];
      HeldCopiesUpdate(win[..n], i, s, x);
    }
  }

  lemma {:induction false} HeldCountZero(win: seq<Slot>)
    ensures HeldCount(win) == 0 <==> forall i :: 0 <= i < |win| ==> win[i].Empty?
  {
    if |win| > 0 {
      var n := |win| - 1;
      HeldCountZero(win[..n]);
      if forall i :: 0 <= i < n ==> win[i].Empty? {
        assert forall i :: 0 <= i < n ==> win[..n][i].Empty?;
      } else {
        var i :| 0 <= i < n && !win[i].Empty?;
        assert !win[..n][i].Empty?;
      }
    }
  }

  /* ---- per-flow steps ---- */

  function EmitSlot(env: Env, idx: nat, c: Ctx): Ctx
    requires Aligned(c.e.win) && c.e.win[SlotOf(c.e.flow.next)].Held?
  {
    var f := c.e.flow;
    var i := SlotOf(f.next);
    Ctx(Entry(f.(next := f.next + 1, held := Pred(f.held)), c.e.win[i := Empty]),
        Pred(c.total),
        c.trace + [Emit(idx, f.next, c.e.win[i].d, env.accepts(|c.trace|))])
  }

  predicate NextIsHeld(e: Entry)
    requires Aligned(e.win)
  {
    var s := e.win[SlotOf(e.flow.next)];
    s.Held? && s.d.sn == Wire(e.flow.next)
  }

  /** Release every held datagram that continues the sequence at `next`. */
  function Flush(env: Env, idx: nat, c: Ctx): (r: Ctx)
    requires Aligned(c.e.win)
    ensures Aligned(r.e.win)
    decreases HeldCount(c.e.win)
  {
    if NextIsHeld(c.e) then
      var i := SlotOf(c.e.flow.next);
      HeldCountUpdate(c.e.win, i, Empty);
      Flush(env, idx, EmitSlot(env, idx, c))
    else
      var f := c.e.flow;
      c.(e := c.e.(flow := f.(gapSince := if f.held != 0 then f.gapSince else 0)))
  }

  /** The least non-negative distance from `base` to a held number, or NO_DELTA. */
  function SmallestAhead(win: seq<Slot>, base: nat): (d: int)
    ensures 0 <= d <= NO_DELTA
  {
    if |win| == 0 then NO_DELTA
    else
      var best := SmallestAhead(win[..|win| - 1], base);
      var s := win[|win| - 1];
      if s.Held? && 0 <= SeqDelta(s.d.sn, base) < best then SeqDelta(s.d.sn, base) else best
  }

  function SkipGap(env: Env, idx: nat, c: Ctx): (r: Ctx)
    requires Aligned(c.e.win)
    ensures Aligned(r.e.win)
  {
    var f := c.e.flow;
    var d := SmallestAhead(c.e.win, Wire(f.next));
    if d == NO_DELTA then
      c.(e := c.e.(flow := f.(gapSince := 0)))
    else
      var r := Flush(env, idx, c.(e := c.e.(flow := f.(next := f.next + d))));
      if r.e.flow.held != 0
      then r.(e := r.e.(flow := r.e.flow.(gapSince := r.e.flow.lastSeen)))
      else r
  }

  predicate RoomGuard(c: Ctx, sn: nat) {
    c.e.flow.held != 0 && SeqDelta(sn, Wire(c.e.flow.next)) >= WINDOW
  }

  /** The room loop. It never exits once its guard holds and nothing held is ahead of `next`. */
  function MakeRoom(env: Env, idx: nat, c: Ctx, sn: nat): (r: Outcome<Ctx>)
    requires Aligned(c.e.win)
    ensures r.Returns? ==> Aligned(r.v.e.win)
    decreases HeldCount(c.e.win)
  {
    var f := c.e.flow;
    var delta := SeqDelta(sn, Wire(f.next));
    if RoomGuard(c, sn) then
      if SmallestAhead(c.e.win, Wire(f.next)) == NO_DELTA then Hangs
      else
        SkipGapReleases(env, idx, c);
        MakeRoom(env, idx, SkipGap(env, idx, c), sn)
    else if delta >= WINDOW then
      Returns(c.(e := c.e.(flow := f.(next := f.next + delta - (WINDOW - 1)))))
    else
      Returns(c)
  }

  function DropNew(c: Ctx, d: Datagram): Ctx {
    c.(trace := c.trace + [Drop(d)])
  }

  function EmitNew(env: Env, idx: nat, c: Ctx, d: Datagram): Ctx {
    var f := c.e.flow;
    c.(e := c.e.(flow := f.(next := f.next + 1)),
       trace := c.trace + [Emit(idx, f.next, d, env.accepts(|c.trace|))])
  }

  function Store(c: Ctx, d: Datagram, now: nat): (r: Ctx)
    requires Aligned(c.e.win) && d.sn < M32
    ensures Aligned(r.e.win)
  {
    var f := c.e.flow;
    var i := SlotOf(d.sn);
    var s := c.e.win[i];
    var gap := if f.gapSince == 0 then now else f.gapSince;
    if s.Held? && s.d.sn == d.sn then DropNew(c, d)
    else if s.Held? then
      Ctx(Entry(f.(gapSince := gap), c.e.win[i := Held(d)]), c.total, c.trace + [Drop(s.d)])
    else
      Ctx(Entry(f.(gapSince := gap, held := f.held + 1), c.e.win[i := Held(d)]), c.total + 1, c.trace)
  }

  /** Hold a datagram ahead of `next`; at the worker's cap, first skip the gap of this flow. */
  function Place(env: Env, idx: nat, c: Ctx, d: Datagram, now: nat): (r: Ctx)
    requires Aligned(c.e.win) && d.sn < M32
    ensures Aligned(r.e.win)
  {
    if c.total >= env.cap then
      var s := SkipGap(env, idx, c);
      if s.total >= env.cap then DropNew(s, d) else Store(s, d, now)
    else
      Store(c, d, now)
  }

  predicate Expired(env: Env, f: Flow, now: nat) {
    f.held != 0 && f.gapSince != 0 && Elapsed(now, f.gapSince) >= env.hold
  }

  /** Submit after the flow's entry has been found. */
  function Arrive(env: Env, idx: nat, c: Ctx, d: Datagram, now: nat): (r: Outcome<Ctx>)
    requires Aligned(c.e.win) && d.sn < M32
    ensures r.Returns? ==> Aligned(r.v.e.win)
  {
    var c0 := if Expired(env, c.e.flow, now) then SkipGap(env, idx, c) else c;
    var delta := SeqDelta(d.sn, Wire(c0.e.flow.next));
    if delta < 0 then Returns(DropNew(c0, d))
    else if delta == 0 then Returns(Flush(env, idx, EmitNew(env, idx, c0, d)))
    else
      match MakeRoom(env, idx, c0, d.sn)
      case Hangs => Hangs
      case Returns(c1) =>
        var delta1 := SeqDelta(d.sn, Wire(c1.e.flow.next));
        if delta1 < 0 then Returns(DropNew(c1, d))
        else if delta1 == 0 then Returns(Flush(env, idx, EmitNew(env, idx, c1, d)))
        else Returns(Place(env, idx, c1, d, now))
  }

  /** The window divides the number space: a slot index can be computed before or after the wrap. */
  lemma WindowOfWire(pos: nat)
    ensures SlotOf(Wire(pos)) == SlotOf(pos)
  {
  }

  /* ---- what a scan for the smallest held number ahead finds ---- */

  lemma {:induction false} SmallestAheadBound(win: seq<Slot>, base: nat, i: nat)
    requires i < |win| && win[i].Held? && SeqDelta(win[i].d.sn, base) >= 0
    ensures SmallestAhead(win, base) <= SeqDelta(win[i].d.sn, base)
  {
    hide Wire, SlotOf, SeqDelta;
    var n := |win| - 1;
    if i < n {
      SmallestAheadBound(win[..n], base, i);
    }
  }

  lemma {:induction false} SmallestAheadWitness(win: seq<Slot>, base: nat) returns (i: nat)
    requires SmallestAhead(win, base) != NO_DELTA
    ensures i < |win| && win[i].Held? && SeqDelta(win[i].d.sn, base) == SmallestAhead(win, base)
  {
    hide Wire, SlotOf, SeqDelta;
    var n := |win| - 1;
    var s := win[n];
    if s.Held? && SeqDelta(s.d.sn, base) == SmallestAhead(win, base) {
      i := n;
    } else {
      i := SmallestAheadWitness(win[..n], base);
    }
  }

  /** The number a skip moves to is held in the slot that the flush looks at first. */
  lemma SkipTargetHeld(c: Ctx)
    requires Aligned(c.e.win)
    requires SmallestAhead(c.e.win, Wire(c.e.flow.next)) != NO_DELTA
    ensures var d := SmallestAhead(c.e.win, Wire(c.e.flow.next));
            NextIsHeld(c.e.(flow := c.e.flow.(next := c.e.flow.next + d)))
  {
    hide Wire, SlotOf, SeqDelta;
    var next := c.e.flow.next;
    var i := SmallestAheadWitness(c.e.win, Wire(next));
    SeqDeltaLands(c.e.win[i].d.sn, next);
    WindowOfWire(next + SmallestAhead(c.e.win, Wire(next)));
  }

  lemma {:induction false} FlushShrinks(env: Env, idx: nat, c: Ctx)
    requires Aligned(c.e.win)
    ensures HeldCount(Flush(env, idx, c).e.win) <= HeldCount(c.e.win)
    ensures NextIsHeld(c.e) ==> HeldCount(Flush(env, idx, c).e.win) < HeldCount(c.e.win)
    decreases HeldCount(c.e.win)
  {
    hide Wire, SlotOf, SeqDelta;
    if NextIsHeld(c.e) {
      var i := SlotOf(c.e.flow.next);
      HeldCountUpdate(c.e.win, i, Empty);
      FlushShrinks(env, idx, EmitSlot(env, idx, c));
    }
  }

  /** A gap skip that finds something ahead releases at least one held datagram. */
  lemma SkipGapReleases(env: Env, idx: nat, c: Ctx)
    requires Aligned(c.e.win)
    requires SmallestAhead(c.e.win, Wire(c.e.flow.next)) != NO_DELTA
    ensures HeldCount(SkipGap(env, idx, c).e.win) < HeldCount(c.e.win)
  {
    hide Wire, SlotOf, SeqDelta;
    SkipTargetHeld(c);
    var f := c.e.flow;
    var d := SmallestAhead(c.e.win, Wire(f.next));
    FlushShrinks(env, idx, c.(e := c.e.(flow := f.(next := f.next + d))));
  }
}
