/** What every per-flow step of the reorder buffer keeps, in every run: conservation of the
    datagrams, the counters, and the order in which one entry hands datagrams to `emit`. */
module ReorderEntry {
  import opened Serial
  import opened ReorderModel

  /* ---- reading a trace ---- */

  /** Does the event hand a datagram of class `x` to a callback? */
  predicate Disposes(ev: Event, x: Mark) {
    !ev.Reset? && x(ev.d)
  }

  /** Does the event start a new life of entry `idx`? */
  predicate Restarts(ev: Event, idx: nat) {
    ev.Reset? && ev.idx == idx
  }

  predicate Accepted(ev: Event) {
    (ev.Emit? || ev.Pass?) && ev.ok
  }

  /** How many datagrams of class `x` were disposed of: taken by `emit` or given to `drop`. */
  function Disposed(t: seq<Event>, x: Mark): nat {
    if |t| == 0 then 0
    else Disposed(t[..|t| - 1], x) + (if Disposes(t[|t| - 1], x) then 1 else 0)
  }

  /** How many of class `x` `emit` took. */
  function Delivered(t: seq<Event>, x: Mark): nat {
    if |t| == 0 then 0
    else Delivered(t[..|t| - 1], x) + (if Disposes(t[|t| - 1], x) && Accepted(t[|t| - 1]) then 1 else 0)
  }

  /** How many of class `x` `drop` took. */
  function Dropped(t: seq<Event>, x: Mark): nat {
    if |t| == 0 then 0
    else Dropped(t[..|t| - 1], x) + (if Disposes(t[|t| - 1], x) && !Accepted(t[|t| - 1]) then 1 else 0)
  }

  /** The emit calls of entry `idx` since its last reset, oldest first. */
  function Outs(t: seq<Event>, idx: nat): (o: seq<Event>)
    ensures forall k :: 0 <= k < |o| ==> o[k].Emit? && o[k].idx == idx
  {
    if |t| == 0 then []
    else OutsStep(Outs(t[..|t| - 1], idx), t[|t| - 1], idx)
  }

  function OutsStep(o: seq<Event>, ev: Event, idx: nat): seq<Event> {
    if Restarts(ev, idx) then []
    else if ev.Emit? && ev.idx == idx then o + [ev]
    else o
  }

  /** An emit call comes after every earlier one of the same life: its position is larger, its flow
      and epoch are the same, and it carries the wire number of its position. */
  ghost predicate Continues(o: seq<Event>, ev: Event) {
    ev.Emit? ==>
      && ev.d.sn == Wire(ev.pos)
      && forall k :: 0 <= k < |o| ==> o[k].Emit? && o[k].pos < ev.pos && o[k].d.key == ev.d.key
                                      && o[k].d.epoch == ev.d.epoch
  }

  ghost predicate LivesOk(t: seq<Event>) {
    |t| == 0 ||
    var init, ev := t[..|t| - 1], t[|t| - 1];
    LivesOk(init) && (ev.Emit? ==> Continues(Outs(init, ev.idx), ev))
  }

  lemma TraceAppend(t: seq<Event>, ev: Event, x: Mark)
    ensures Disposed(t + [ev], x) == Disposed(t, x) + (if Disposes(ev, x) then 1 else 0)
    ensures forall j: nat :: Outs(t + [ev], j) == OutsStep(Outs(t, j), ev, j)
    ensures LivesOk(t + [ev]) <==> LivesOk(t) && (ev.Emit? ==> Continues(Outs(t, ev.idx), ev))
  {
    assert (t + [ev])[..|t|] == t;
  }

  /** An emit call that no later reset of its entry hides is among the entry's outputs. */
  lemma {:induction false} OutsMember(t: seq<Event>, j: nat)
    requires j < |t| && t[j].Emit?
    requires forall m :: j < m < |t| ==> !Restarts(t[m], t[j].idx)
    ensures t[j] in Outs(t, t[j].idx)
  {
    var init := t[..|t| - 1];
    if j < |t| - 1 {
      assert init[j] == t[j];
      OutsMember(init, j);
      assert !Restarts(t[|t| - 1], t[j].idx);
      var o := Outs(init, t[j].idx);
      var k :| 0 <= k < |o| && o[k] == t[j];
      assert OutsStep(o, t[|t| - 1], t[j].idx)[k] == t[j];
    } else {
      assert Outs(t, t[j].idx)[|Outs(t, t[j].idx)| - 1] == t[j];
    }
  }

  /** Between two resets an entry emits one flow's datagrams of one epoch, at strictly increasing
      positions. */
  lemma {:induction false} LivesOrdered(t: seq<Event>, j: nat, k: nat)
    requires LivesOk(t)
    requires j < k < |t| && t[j].Emit? && t[k].Emit? && t[j].idx == t[k].idx
    requires forall m :: j < m < k ==> !Restarts(t[m], t[j].idx)
    ensures t[j].pos < t[k].pos && t[j].d.key == t[k].d.key && t[j].d.epoch == t[k].d.epoch
    ensures t[j].d.sn == Wire(t[j].pos)
  {
    hide Wire;
    var init := t[..|t| - 1];
    if k < |t| - 1 {
      assert init[j] == t[j] && init[k] == t[k];
      LivesOrdered(init, j, k);
    } else {
      assert init[j] == t[j];
      OutsMember(init, j);
      LivesWire(t, j);
    }
  }

  lemma {:induction false} LivesWire(t: seq<Event>, j: nat)
    requires LivesOk(t) && j < |t| && t[j].Emit?
    ensures t[j].d.sn == Wire(t[j].pos)
  {
    hide Wire;
    if j < |t| - 1 {
      assert t[..|t| - 1][j] == t[j];
      LivesWire(t[..|t| - 1], j);
    }
  }

  lemma {:induction false} DisposedSplit(t: seq<Event>, x: Mark)
    ensures Disposed(t, x) == Delivered(t, x) + Dropped(t, x)
  {
    if |t| > 0 {
      DisposedSplit(t[..|t| - 1], x);
    }
  }

  /* ---- invariants of one entry ---- */

  /** The datagrams an entry handed to `emit` since its reset are of its own flow and epoch, carry
      the wire number of their position, and their positions strictly increase and lie below `next`. */
  ghost predicate InOrder(o: seq<Event>, f: Flow) {
    && (forall k :: 0 <= k < |o| ==> o[k].Emit? && o[k].pos < f.next && Belongs(o[k].d, f)
                                     && o[k].d.sn == Wire(o[k].pos))
    && (forall j, k :: 0 <= j < k < |o| ==> o[j].Emit? && o[k].Emit? && o[j].pos < o[k].pos)
  }

  predicate Belongs(d: Datagram, f: Flow) {
    d.key == f.key && d.epoch == f.epoch
  }

  ghost predicate EntryOk(e: Entry, o: seq<Event>) {
    && Aligned(e.win)
    && e.flow.held == HeldCount(e.win)
    && (!e.flow.valid ==> e.flow.held == 0)
    && (forall i :: 0 <= i < WINDOW && e.win[i].Held? ==> Belongs(e.win[i].d, e.flow))
    && (e.flow.valid ==> InOrder(o, e.flow))
  }

  ghost predicate CtxOk(idx: nat, c: Ctx) {
    && c.e.flow.valid
    && EntryOk(c.e, Outs(c.trace, idx))
    && HeldCount(c.e.win) <= c.total
    && LivesOk(c.trace)
  }

  /** The datagrams of class `x` accounted for: disposed of or held in this window. */
  function Copies(c: Ctx, x: Mark): nat {
    Disposed(c.trace, x) + HeldCopies(c.e.win, x)
  }

  predicate SameFlow(f: Flow, g: Flow) {
    g.valid == f.valid && g.key == f.key && g.epoch == f.epoch && g.lastSeen == f.lastSeen && g.stamp == f.stamp
  }

  /** A step from `c` to `r` that takes in `n` datagrams of class `x`: none is lost or doubled, the worker's
      counter moves with the window, the flow keeps its identity, other entries' outputs stay. */
  ghost predicate Moves(idx: nat, c: Ctx, r: Ctx, x: Mark, n: nat) {
    && Copies(r, x) == Copies(c, x) + n
    && r.total - HeldCount(r.e.win) == c.total - HeldCount(c.e.win)
    && c.e.flow.next <= r.e.flow.next
    && SameFlow(c.e.flow, r.e.flow)
    && c.trace <= r.trace
    && forall j: nat :: j != idx ==> Outs(r.trace, j) == Outs(c.trace, j)
  }

  function One(d: Datagram, x: Mark): nat {
    if x(d) then 1 else 0
  }

  lemma EmitSlotKeeps(env: Env, idx: nat, c: Ctx, x: Mark)
    requires CtxOk(idx, c) && NextIsHeld(c.e)
    ensures CtxOk(idx, EmitSlot(env, idx, c))
    ensures Moves(idx, c, EmitSlot(env, idx, c), x, 0)
    ensures HeldCount(EmitSlot(env, idx, c).e.win) < HeldCount(c.e.win)
  {
    hide Wire, SlotOf, SeqDelta, HeldCount, HeldCopies, Disposed, Outs, LivesOk;
    var i := SlotOf(c.e.flow.next);
    HeldCountUpdate(c.e.win, i, Empty);
    HeldCopiesUpdate(c.e.win, i, Empty, x);
    TraceAppend(c.trace, Emit(idx, c.e.flow.next, c.e.win[i].d, env.accepts(|c.trace|)), x);
  }

  lemma {:induction false} FlushKeeps(env: Env, idx: nat, c: Ctx, x: Mark)
    requires CtxOk(idx, c)
    ensures CtxOk(idx, Flush(env, idx, c))
    ensures Moves(idx, c, Flush(env, idx, c), x, 0)
    decreases HeldCount(c.e.win)
  {
    hide Wire, SlotOf, SeqDelta, HeldCount, HeldCopies, Disposed, Outs, LivesOk;
    if NextIsHeld(c.e) {
      EmitSlotKeeps(env, idx, c, x);
      FlushKeeps(env, idx, EmitSlot(env, idx, c), x);
    }
  }

  lemma SkipGapKeeps(env: Env, idx: nat, c: Ctx, x: Mark)
    requires CtxOk(idx, c)
    ensures CtxOk(idx, SkipGap(env, idx, c))
    ensures Moves(idx, c, SkipGap(env, idx, c), x, 0)
    ensures HeldCount(SkipGap(env, idx, c).e.win) <= HeldCount(c.e.win)
  {
    hide Wire, SlotOf, SeqDelta, HeldCount, HeldCopies, Disposed, Outs, LivesOk;
    var f := c.e.flow;
    var d := SmallestAhead(c.e.win, Wire(f.next));
    if d != NO_DELTA {
      SkipGapReleases(env, idx, c);
      FlushKeeps(env, idx, c.(e := c.e.(flow := f.(next := f.next + d))), x);
    }
  }

  lemma {:induction false} MakeRoomKeeps(env: Env, idx: nat, c: Ctx, sn: nat, x: Mark)
    requires CtxOk(idx, c)
    ensures var r := MakeRoom(env, idx, c, sn);
            r.Returns? ==> CtxOk(idx, r.v) && Moves(idx, c, r.v, x, 0) && r.v.total <= c.total
    decreases HeldCount(c.e.win)
  {
    hide Wire, SlotOf, SeqDelta, HeldCount, HeldCopies, Disposed, Outs, LivesOk;
    if RoomGuard(c, sn) && SmallestAhead(c.e.win, Wire(c.e.flow.next)) != NO_DELTA {
      SkipGapKeeps(env, idx, c, x);
      SkipGapReleases(env, idx, c);
      MakeRoomKeeps(env, idx, SkipGap(env, idx, c), sn, x);
    }
  }

  lemma DropNewKeeps(idx: nat, c: Ctx, d: Datagram, x: Mark)
    requires CtxOk(idx, c)
    ensures CtxOk(idx, DropNew(c, d)) && Moves(idx, c, DropNew(c, d), x, One(d, x))
  {
    hide Wire, SlotOf, SeqDelta, HeldCount, HeldCopies, Disposed, Outs, LivesOk;
    TraceAppend(c.trace, Drop(d), x);
  }

  lemma EmitNewKeeps(env: Env, idx: nat, c: Ctx, d: Datagram, x: Mark)
    requires CtxOk(idx, c) && Belongs(d, c.e.flow) && d.sn < M32
    requires SeqDelta(d.sn, Wire(c.e.flow.next)) == 0
    ensures var r := Flush(env, idx, EmitNew(env, idx, c, d));
            CtxOk(idx, r) && Moves(idx, c, r, x, One(d, x)) && r.total <= c.total
  {
    hide Wire, SlotOf, SeqDelta, HeldCount, HeldCopies, Disposed, Outs, LivesOk;
    var m := EmitNew(env, idx, c, d);
    TraceAppend(c.trace, Emit(idx, c.e.flow.next, d, env.accepts(|c.trace|)), x);
    SeqDeltaLands(d.sn, c.e.flow.next);
    FlushKeeps(env, idx, m, x);
    FlushShrinks(env, idx, m);
  }

  lemma StoreKeeps(idx: nat, c: Ctx, d: Datagram, now: nat, x: Mark)
    requires CtxOk(idx, c) && Belongs(d, c.e.flow) && d.sn < M32
    ensures var r := Store(c, d, now);
            CtxOk(idx, r) && Moves(idx, c, r, x, One(d, x)) && r.total <= c.total + 1
  {
    hide Wire, SlotOf, SeqDelta, HeldCount, HeldCopies, Disposed, Outs, LivesOk;
    var i := SlotOf(d.sn);
    var s := c.e.win[i];
    if s.Held? {
      TraceAppend(c.trace, Drop(if s.d.sn == d.sn then d else s.d), x);
    }
    HeldCountUpdate(c.e.win, i, Held(d));
    HeldCopiesUpdate(c.e.win, i, Held(d), x);
  }

  lemma PlaceKeeps(env: Env, idx: nat, c: Ctx, d: Datagram, now: nat, x: Mark)
    requires CtxOk(idx, c) && Belongs(d, c.e.flow) && d.sn < M32
    ensures var r := Place(env, idx, c, d, now);
            CtxOk(idx, r) && Moves(idx, c, r, x, One(d, x)) && (c.total <= env.cap ==> r.total <= env.cap)
  {
    hide Wire, SlotOf, SeqDelta, HeldCount, HeldCopies, Disposed, Outs, LivesOk;
    if c.total >= env.cap {
      var s := SkipGap(env, idx, c);
      SkipGapKeeps(env, idx, c, x);
      if s.total >= env.cap {
        DropNewKeeps(idx, s, d, x);
      } else {
        StoreKeeps(idx, s, d, now, x);
      }
    } else {
      StoreKeeps(idx, c, d, now, x);
    }
  }

  /** Submitting to an entry: for every state and every arrival, either the call never returns or the
      datagram ends up emitted, dropped or held exactly once, the entry stays well-formed and ordered,
      other entries' outputs are untouched, and the held cap is respected. */
  lemma ArriveKeeps(env: Env, idx: nat, c: Ctx, d: Datagram, now: nat, x: Mark)
    requires CtxOk(idx, c) && Belongs(d, c.e.flow) && d.sn < M32
    ensures var r := Arrive(env, idx, c, d, now);
            r.Returns? ==> CtxOk(idx, r.v) && Moves(idx, c, r.v, x, One(d, x))
                           && (c.total <= env.cap ==> r.v.total <= env.cap)
  {
    hide Wire, SlotOf, SeqDelta, HeldCount, HeldCopies, Disposed, Outs, LivesOk, InOrder, SkipGap, MakeRoom,
         Place, Flush, EmitNew;
    var c0 := if Expired(env, c.e.flow, now) then SkipGap(env, idx, c) else c;
    SkipGapKeeps(env, idx, c, x);
    var delta := SeqDelta(d.sn, Wire(c0.e.flow.next));
    if delta < 0 {
      DropNewKeeps(idx, c0, d, x);
    } else if delta == 0 {
      EmitNewKeeps(env, idx, c0, d, x);
    } else {
      var m := MakeRoom(env, idx, c0, d.sn);
      MakeRoomKeeps(env, idx, c0, d.sn, x);
      if m.Returns? {
        var delta1 := SeqDelta(d.sn, Wire(m.v.e.flow.next));
        if delta1 < 0 {
          DropNewKeeps(idx, m.v, d, x);
        } else if delta1 == 0 {
          EmitNewKeeps(env, idx, m.v, d, x);
        } else {
          PlaceKeeps(env, idx, m.v, d, now, x);
        }
      }
    }
  }
}
