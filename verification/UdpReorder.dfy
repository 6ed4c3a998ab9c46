/** The reorder buffer as the program keeps it: arrays of flow records and slot windows updated in
    place, with 32-bit numbers. Every method is proved against the model on unwrapped positions. */
module UdpReorder {
  import opened Serial
  import M = ReorderModel
  import T = ReorderTable
  import opened ReorderModel

  /** A flow record; `nextSeq` is the 32-bit number. */
  datatype Record = Record(valid: bool, key: Key, epoch: nat, nextSeq: nat, gapSince: nat,
                           lastSeen: nat, stamp: nat, held: nat)

  const NO_RECORD := Record(false, T.NO_KEY, 0, 0, 0, 0, 0, 0)

  function Unwrapped(f: Record, p: nat): Flow {
    Flow(f.valid, f.key, f.epoch, p, f.gapSince, f.lastSeen, f.stamp, f.held)
  }

  /** The entries that parallel arrays of records, windows and positions stand for. */
  ghost function Zip(fs: seq<Record>, ws: seq<seq<Slot>>, ps: seq<nat>): (es: seq<Entry>)
    requires |fs| == |ws| == |ps|
    ensures |es| == |fs|
    ensures forall i :: 0 <= i < |fs| ==> es[i] == Entry(Unwrapped(fs[i], ps[i]), ws[i])
  {
    seq(|fs|, i requires 0 <= i < |fs| => Entry(Unwrapped(fs[i], ps[i]), ws[i]))
  }

  lemma CloseClose(w: Worker, idx: nat, a: Ctx, b: Ctx)
    requires idx < |w.entries|
    ensures T.Close(T.Close(w, idx, a), idx, b) == T.Close(w, idx, b)
  {
    assert w.entries[idx := a.e][idx := b.e] == w.entries[idx := b.e];
  }

  class Buffer {
    const env: Env
    const flows: array<Record>
    const windows: array<seq<Slot>>
    var heldTotal: nat
    var gcCursor: nat
    var clock: nat
    ghost var pos: seq<nat>
    ghost var trace: seq<Event>

    ghost predicate Valid()
      reads this, flows, windows
    {
      && flows.Length == FLOW_CAP && windows.Length == FLOW_CAP && |pos| == FLOW_CAP
      && flows as object != windows as object
      && (forall i :: 0 <= i < FLOW_CAP ==> Aligned(windows[i]))
      && (forall i :: 0 <= i < FLOW_CAP ==> flows[i].nextSeq == Wire(pos[i]))
    }

    /** The worker this object represents. */
    ghost function Abs(): (w: Worker)
      requires Valid()
      reads this, flows, windows
      ensures T.TableShape(w)
      ensures forall i :: 0 <= i < FLOW_CAP ==> w.entries[i] == Entry(Unwrapped(flows[i], pos[i]), windows[i])
    {
      Worker(Zip(flows[..], windows[..], pos), heldTotal, gcCursor, clock, trace)
    }

    constructor (e: Env)
      ensures Valid() && Abs() == T.Start() && env == e && fresh(flows) && fresh(windows)
    {
      env := e;
      flows := new Record[FLOW_CAP](i => NO_RECORD);
      windows := new seq<Slot>[FLOW_CAP](i => seq(WINDOW, j => Empty));
      heldTotal, gcCursor, clock := 0, 0, 0;
      pos := seq(FLOW_CAP, i => 0);
      trace := [];
      new;
      assert Abs().entries == T.Start().entries;
    }

    /** Write one flow record with its window, the worker's counter and the trace. */
    method Put(idx: nat, f: Record, win: seq<Slot>, total: nat, ghost p: nat, ghost t: seq<Event>)
      requires Valid() && idx < FLOW_CAP && Aligned(win) && f.nextSeq == Wire(p)
      modifies this`heldTotal, this`pos, this`trace, flows, windows
      ensures Valid() && clock == old(clock)
      ensures Abs() == T.Close(old(Abs()), idx, Ctx(Entry(Unwrapped(f, p), win), total, t))
      ensures flows[idx] == f && windows[idx] == win && pos[idx] == p
    {
      hide Aligned;
      flows[idx] := f;
      windows[idx] := win;
      heldTotal := total;
      pos := pos[idx := p];
      trace := t;
      assert Abs().entries == old(Abs()).entries[idx := Entry(Unwrapped(f, p), win)];
    }

    method FlowFlushContiguous(idx: nat)
      requires Valid() && idx < FLOW_CAP
      modifies this`heldTotal, this`pos, this`trace, flows, windows
      ensures Valid() && clock == old(clock)
      ensures Abs() == T.Close(old(Abs()), idx, M.Flush(env, idx, T.Open(old(Abs()), idx)))
    {
      hide Wire, SlotOf, Aligned, HeldCount;
      ghost var w := Abs();
      WindowOfWire(pos[idx]);
      LengthOf(windows[idx]);
      while windows[idx][SlotOf(flows[idx].nextSeq)].Held?
            && windows[idx][SlotOf(flows[idx].nextSeq)].d.sn == flows[idx].nextSeq
        invariant Valid() && clock == old(clock)
        invariant Abs() == T.Close(w, idx, T.Open(Abs(), idx))
        invariant M.Flush(env, idx, T.Open(Abs(), idx)) == M.Flush(env, idx, T.Open(w, idx))
        invariant SlotOf(flows[idx].nextSeq) == SlotOf(pos[idx]) && |windows[idx]| == WINDOW
        decreases HeldCount(windows[idx])
      {
        var f := flows[idx];
        var i := SlotOf(f.nextSeq);
        ghost var c := T.Open(Abs(), idx);
        assert NextIsHeld(c.e);
        HeldCountUpdate(windows[idx], i, Empty);
        WrapAdd(pos[idx], 1);
        EmptyAligned(windows[idx], i);
        Put(idx, f.(nextSeq := Wire(f.nextSeq + 1), held := Pred(f.held)), windows[idx][i := Empty],
            Pred(heldTotal), pos[idx] + 1, M.EmitSlot(env, idx, c).trace);
        assert T.Open(Abs(), idx) == M.EmitSlot(env, idx, c);
        WindowOfWire(pos[idx]);
      }
      var f := flows[idx];
      assert !NextIsHeld(T.Open(Abs(), idx).e);
      Put(idx, f.(gapSince := if f.held != 0 then f.gapSince else 0), windows[idx], heldTotal, pos[idx], trace);
    }

    /** The distance to the smallest held number at or ahead of the next one, or -1. */
    method FlowSmallestAhead(idx: nat) returns (delta: int, sn: nat)
      requires Valid() && idx < FLOW_CAP
      ensures var d := SmallestAhead(windows[idx], Wire(pos[idx]));
              if d == NO_DELTA then delta == -1 else delta == d && sn == Wire(pos[idx] + d)
    {
      hide Wire, SlotOf, SeqDelta;
      var best: int := NO_DELTA;
      sn := 0;
      var win := windows[idx];
      for i := 0 to WINDOW
        invariant best == SmallestAhead(win[..i], flows[idx].nextSeq)
        invariant best != NO_DELTA ==> sn == Wire(pos[idx] + best)
      {
        assert win[..i + 1][..i] == win[..i];
        if win[i].Held? {
          var d := SeqDelta(win[i].d.sn, flows[idx].nextSeq);
          if 0 <= d < best {
            best := d;
            sn := win[i].d.sn;
            SeqDeltaLands(sn, pos[idx]);
          }
        }
      }
      assert win[..WINDOW] == win;
      delta := if best == NO_DELTA then -1 else best;
    }

    method FlowSkipGap(idx: nat)
      requires Valid() && idx < FLOW_CAP
      modifies this`heldTotal, this`pos, this`trace, flows, windows
      ensures Valid() && clock == old(clock)
      ensures Abs() == T.Close(old(Abs()), idx, M.SkipGap(env, idx, T.Open(old(Abs()), idx)))
    {
      hide Wire, SlotOf, Aligned, SmallestAhead, Flush;
      ghost var w := Abs();
      var delta, sn := FlowSmallestAhead(idx);
      if delta < 0 {
        Put(idx, flows[idx].(gapSince := 0), windows[idx], heldTotal, pos[idx], trace);
        return;
      }
      if delta > 0 {
        Put(idx, flows[idx].(nextSeq := sn), windows[idx], heldTotal, pos[idx] + delta, trace);
      }
      ghost var m := T.Open(Abs(), idx);
      FlowFlushContiguous(idx);
      ghost var r := M.Flush(env, idx, m);
      CloseClose(w, idx, m, r);
      assert Abs() == T.Close(w, idx, r);
      if flows[idx].held != 0 {
        CloseClose(w, idx, r, r.(e := r.e.(flow := r.e.flow.(gapSince := r.e.flow.lastSeen))));
        Put(idx, flows[idx].(gapSince := flows[idx].lastSeen), windows[idx], heldTotal, pos[idx], trace);
      }
    }

    /** Returns true when the loop of the source would never exit. */
    method FlowMakeWindowRoom(idx: nat, sn: nat) returns (hangs: bool)
      requires Valid() && idx < FLOW_CAP && sn < M32
      modifies this`heldTotal, this`pos, this`trace, flows, windows
      ensures Valid() && clock == old(clock)
      ensures var m := M.MakeRoom(env, idx, T.Open(old(Abs()), idx), sn);
              hangs == m.Hangs? && (m.Returns? ==> Abs() == T.Close(old(Abs()), idx, m.v))
    {
      hide Wire, SlotOf, Aligned, SmallestAhead, Flush, SkipGap, SeqDelta, HeldCount;
      ghost var w := Abs();
      while flows[idx].held != 0 && SeqDelta(sn, flows[idx].nextSeq) >= WINDOW
        invariant Valid() && clock == old(clock)
        invariant Abs() == T.Close(w, idx, T.Open(Abs(), idx))
        invariant M.MakeRoom(env, idx, T.Open(Abs(), idx), sn) == M.MakeRoom(env, idx, T.Open(w, idx), sn)
        decreases HeldCount(windows[idx])
      {
        ghost var c := T.Open(Abs(), idx);
        var delta, _ := FlowSmallestAhead(idx);
        if delta < 0 {
          return true;
        }
        SkipGapReleases(env, idx, c);
        FlowSkipGap(idx);
        assert T.Open(Abs(), idx) == M.SkipGap(env, idx, c);
      }
      var d := SeqDelta(sn, flows[idx].nextSeq);
      if d >= WINDOW {
        SeqDeltaLands(sn, pos[idx]);
        BackOff(pos[idx] + d, WINDOW - 1);
        Put(idx, flows[idx].(nextSeq := (sn + M32 - (WINDOW - 1)) % M32), windows[idx], heldTotal,
            pos[idx] + d - (WINDOW - 1), trace);
      }
      hangs := false;
    }

    method FlowDropSlots(idx: nat)
      requires Valid() && idx < FLOW_CAP
      modifies this`heldTotal, this`pos, this`trace, flows, windows
      ensures Valid() && clock == old(clock)
      ensures Abs() == T.Close(old(Abs()), idx, T.DropFrom(T.Open(old(Abs()), idx), 0))
    {
      hide Wire, SlotOf, Aligned, HeldCount;
      ghost var w := Abs();
      for i := 0 to WINDOW
        invariant Valid() && clock == old(clock)
        invariant Abs() == T.Close(w, idx, T.Open(Abs(), idx))
        invariant T.DropFrom(T.Open(Abs(), idx), i) == T.DropFrom(T.Open(w, idx), 0)
      {
        LengthOf(windows[idx]);
        if windows[idx][i].Held? {
          EmptyAligned(windows[idx], i);
          Put(idx, flows[idx], windows[idx][i := Empty], Pred(heldTotal), pos[idx],
              trace + [Drop(windows[idx][i].d)]);
        }
      }
      Put(idx, flows[idx].(held := 0, gapSince := 0), windows[idx], heldTotal, pos[idx], trace);
    }

    method Tick()
      requires Valid()
      modifies this`clock
      ensures Valid() && Abs() == old(Abs()).(clock := old(clock) + 1)
    {
      hide Wire, Aligned;
      clock := clock + 1;
    }

    method FlowReset(idx: nat, d: Datagram, now: nat)
      requires Valid() && idx < FLOW_CAP && d.sn < M32
      modifies this`heldTotal, this`pos, this`trace, this`clock, flows, windows
      ensures Valid()
      ensures Abs() == T.ResetEntry(old(Abs()), idx, d, now)
    {
      hide Wire, SlotOf, Aligned, HeldCount, Zip, T.DropFrom;
      ghost var w := Abs();
      var back := if d.sn < START_BACKTRACK then d.sn else START_BACKTRACK;
      if flows[idx].valid {
        FlowDropSlots(idx);
      }
      ghost var m := T.Open(Abs(), idx);
      assert Abs() == T.Close(w, idx, m);
      Tick();
      WireSmall(d.sn - back);
      Put(idx, Record(true, d.key, d.epoch, d.sn - back, if back > 0 then now else 0, now, clock, 0),
          windows[idx], heldTotal, d.sn - back, trace + [Reset(idx, d.key, d.sn - back)]);
      CloseClose(w, idx, m, T.Open(Abs(), idx));
    }

    /** The flow's own entry was found: restart it on a new epoch, and mark it used. */
    method Renew(idx: nat, d: Datagram, now: nat)
      requires Valid() && idx < FLOW_CAP && d.sn < M32
      modifies this`heldTotal, this`pos, this`trace, this`clock, flows, windows
      ensures Valid()
      ensures var w := old(Abs());
              var m := if w.entries[idx].flow.epoch != d.epoch then T.ResetEntry(w, idx, d, now) else w;
              Abs() == T.Touch(m, idx, now)
    {
      hide Wire, SlotOf, Aligned, HeldCount, Zip, T.ResetEntry;
      if flows[idx].epoch != d.epoch {
        FlowReset(idx, d, now);
      }
      Tick();
      Put(idx, flows[idx].(lastSeen := now, stamp := clock), windows[idx], heldTotal, pos[idx], trace);
    }

    /** Scan the key's set for its entry or, failing that, the way to take over. */
    method FindEntry(key: Key) returns (hit: bool, idx: nat)
      requires Valid()
      ensures T.Find(env, Abs(), key) == if hit then T.Hit(idx) else T.Victim(idx)
    {
      hide Wire, Aligned, T.SetBase, Zip;
      ghost var es := Abs().entries;
      var base := T.SetBase(env, key);
      idx := base;
      for way := 0 to WAYS
        invariant base <= idx < base + WAYS
        invariant T.Scan(es, base, way, idx, key) == T.Scan(es, base, 0, base, key)
      {
        var f := flows[base + way];
        if f.valid && f.key == key {
          return true, base + way;
        }
        if !f.valid {
          return false, base + way;
        }
        if f.stamp < flows[idx].stamp {
          idx := base + way;
        }
      }
      hit := false;
    }

    /** The index of the datagram's entry, found, renewed or taken over. */
    method FlowLookup(d: Datagram, now: nat) returns (idx: nat)
      requires Valid() && d.sn < M32
      modifies this`heldTotal, this`pos, this`trace, this`clock, flows, windows
      ensures Valid()
      ensures idx == T.Find(env, old(Abs()), d.key).idx < FLOW_CAP
      ensures Abs() == T.Lookup(env, old(Abs()), d, now)
    {
      hide Wire, Aligned, T.Find, T.ResetEntry, T.Touch;
      var hit;
      hit, idx := FindEntry(d.key);
      if hit {
        Renew(idx, d, now);
      } else {
        FlowReset(idx, d, now);
      }
    }

    /** Emit the arriving datagram and everything held that follows it. */
    method EmitAndFlush(idx: nat, d: Datagram)
      requires Valid() && idx < FLOW_CAP
      modifies this`heldTotal, this`pos, this`trace, flows, windows
      ensures Valid() && clock == old(clock)
      ensures var c := T.Open(old(Abs()), idx);
              Abs() == T.Close(old(Abs()), idx, M.Flush(env, idx, M.EmitNew(env, idx, c, d)))
    {
      hide Wire, SlotOf, Aligned, HeldCount, Flush;
      ghost var c := T.Open(Abs(), idx);
      WrapAdd(pos[idx], 1);
      Put(idx, flows[idx].(nextSeq := Wire(flows[idx].nextSeq + 1)), windows[idx], heldTotal, pos[idx] + 1,
          M.EmitNew(env, idx, c, d).trace);
      FlowFlushContiguous(idx);
    }

    /** Hold the arriving datagram in its slot. */
    method StoreInSlot(idx: nat, d: Datagram, now: nat)
      requires Valid() && idx < FLOW_CAP && d.sn < M32
      modifies this`heldTotal, this`pos, this`trace, flows, windows
      ensures Valid() && clock == old(clock)
      ensures Abs() == T.Close(old(Abs()), idx, M.Store(T.Open(old(Abs()), idx), d, now))
    {
      hide Wire, SlotOf, HeldCount;
      var i := SlotOf(d.sn);
      var f, win := flows[idx], windows[idx];
      var gap := if f.gapSince == 0 then now else f.gapSince;
      if win[i].Held? {
        if win[i].d.sn == d.sn {
          Put(idx, f, win, heldTotal, pos[idx], trace + [Drop(d)]);
          return;
        }
        Put(idx, f.(gapSince := gap), win[i := Held(d)], heldTotal, pos[idx], trace + [Drop(win[i].d)]);
      } else {
        Put(idx, f.(gapSince := gap, held := f.held + 1), win[i := Held(d)], heldTotal + 1, pos[idx], trace);
      }
    }

    /** Submit one datagram. Returns true when the call of the source would never return. */
    method Submit(d: Datagram, now: nat) returns (hangs: bool)
      requires Valid() && d.sn < M32
      modifies this`heldTotal, this`pos, this`trace, this`clock, flows, windows
      ensures Valid()
      ensures var r := T.Submit(env, old(Abs()), d, now);
              hangs == r.Hangs? && (r.Returns? ==> Abs() == r.v)
    {
      hide Wire, SlotOf, Aligned, HeldCount, T.Lookup, T.Find, Flush, SkipGap, MakeRoom, SeqDelta, Store;
      if !env.enabled {
        trace := trace + [Pass(d, env.accepts(|trace|))];
        assert Abs().entries == old(Abs()).entries;
        return false;
      }
      var idx := FlowLookup(d, now);
      ghost var m := Abs();
      if flows[idx].held != 0 && flows[idx].gapSince != 0 && Elapsed(now, flows[idx].gapSince) >= env.hold {
        FlowSkipGap(idx);
      }
      ghost var c0 := T.Open(Abs(), idx);
      assert Abs() == T.Close(m, idx, c0);
      var delta := SeqDelta(d.sn, flows[idx].nextSeq);
      if delta < 0 {
        Put(idx, flows[idx], windows[idx], heldTotal, pos[idx], trace + [Drop(d)]);
        return false;
      }
      if delta == 0 {
        EmitAndFlush(idx, d);
        return false;
      }
      hangs := FlowMakeWindowRoom(idx, d.sn);
      if hangs {
        return;
      }
      Place(idx, d, now);
    }

    /** The rest of submit, after the room loop. */
    method Place(idx: nat, d: Datagram, now: nat)
      requires Valid() && idx < FLOW_CAP && d.sn < M32
      modifies this`heldTotal, this`pos, this`trace, flows, windows
      ensures Valid() && clock == old(clock)
      ensures var c := T.Open(old(Abs()), idx);
              var delta := SeqDelta(d.sn, Wire(c.e.flow.next));
              Abs() == T.Close(old(Abs()), idx,
                               if delta < 0 then M.DropNew(c, d)
                               else if delta == 0 then M.Flush(env, idx, M.EmitNew(env, idx, c, d))
                               else M.Place(env, idx, c, d, now))
    {
      hide Wire, SlotOf, Aligned, HeldCount, Flush, SkipGap, SeqDelta, Store;
      var delta := SeqDelta(d.sn, flows[idx].nextSeq);
      if delta < 0 {
        Put(idx, flows[idx], windows[idx], heldTotal, pos[idx], trace + [Drop(d)]);
        return;
      }
      if delta == 0 {
        EmitAndFlush(idx, d);
        return;
      }
      if heldTotal >= env.cap {
        FlowSkipGap(idx);
        if heldTotal >= env.cap {
          Put(idx, flows[idx], windows[idx], heldTotal, pos[idx], trace + [Drop(d)]);
          return;
        }
      }
      StoreInSlot(idx, d, now);
    }

    method Gc(now: nat)
      requires Valid()
      modifies this`heldTotal, this`pos, this`trace, this`gcCursor, flows, windows
      ensures Valid()
      ensures Abs() == T.Gc(env, old(Abs()), now)
    {
      hide Wire, SlotOf, Aligned, HeldCount, SkipGap, T.GcVisit;
      ghost var w := Abs();
      var cursor := gcCursor;
      for n := 0 to GC_SLICE
        invariant Valid() && gcCursor == cursor == w.cursor
        invariant T.GcFrom(env, Abs(), now, n) == T.GcFrom(env, w, now, 0)
      {
        var idx := (cursor + n) % FLOW_CAP;
        GcEntry(idx, now);
      }
      gcCursor := (cursor + GC_SLICE) % FLOW_CAP;
      assert Abs().entries == T.GcFrom(env, w, now, 0).entries;
    }

    method GcEntry(idx: nat, now: nat)
      requires Valid() && idx < FLOW_CAP
      modifies this`heldTotal, this`pos, this`trace, flows, windows
      ensures Valid() && clock == old(clock)
      ensures Abs() == T.GcVisit(env, old(Abs()), idx, now)
    {
      hide SlotOf, Aligned, HeldCount, SkipGap, Elapsed;
      if !flows[idx].valid {
        return;
      }
      if flows[idx].held != 0 && flows[idx].gapSince != 0 && Elapsed(now, flows[idx].gapSince) >= env.hold {
        FlowSkipGap(idx);
      }
      if flows[idx].held == 0 && Elapsed(now, flows[idx].lastSeen) > FLOW_IDLE_NS {
        Put(idx, NO_RECORD, windows[idx], heldTotal, 0, trace);
      }
      assert Abs().entries == T.GcVisit(env, old(Abs()), idx, now).entries;
    }

    method ClearSlot(idx: nat)
      requires Valid() && idx < FLOW_CAP
      modifies this`heldTotal, this`pos, this`trace, flows, windows
      ensures Valid() && clock == old(clock)
      ensures Abs() == T.ClearEntry(old(Abs()), idx)
    {
      hide SlotOf, Aligned, HeldCount, T.DropFrom;
      if flows[idx].valid {
        FlowDropSlots(idx);
      }
      Put(idx, NO_RECORD, windows[idx], heldTotal, 0, trace);
      assert Abs().entries == T.ClearEntry(old(Abs()), idx).entries;
    }

    method ResetWorker()
      requires Valid()
      modifies this`heldTotal, this`pos, this`trace, this`gcCursor, flows, windows
      ensures Valid()
      ensures Abs() == T.ResetWorker(old(Abs()))
    {
      hide SlotOf, Aligned, HeldCount, T.DropFrom, T.ClearEntry, Zip;
      ghost var w := Abs();
      for idx := 0 to FLOW_CAP
        invariant Valid() && gcCursor == w.cursor
        invariant T.ClearFrom(Abs(), idx) == T.ClearFrom(w, 0)
      {
        ClearSlot(idx);
      }
      heldTotal := 0;
      gcCursor := 0;
      assert Abs().entries == T.ClearFrom(w, 0).entries;
    }
  }

  lemma EmptyAligned(win: seq<Slot>, i: nat)
    requires Aligned(win) && i < WINDOW
    ensures Aligned(win[i := Empty])
  {
    hide SlotOf;
  }

  lemma LengthOf(win: seq<Slot>)
    requires Aligned(win)
    ensures |win| == WINDOW
  {
  }

  /** Stepping a wire number back stays on the wire number of the position stepped back. */
  lemma BackOff(p: nat, k: nat)
    requires k <= p && k < M32
    ensures (Wire(p) + M32 - k) % M32 == Wire(p - k)
  {
  }
}
