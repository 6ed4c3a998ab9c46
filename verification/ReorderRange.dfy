/** How far held datagrams can be from the next expected one, in every run, held-cap branch included. */
module ReorderRange {
  import opened Serial
  import opened ReorderModel
  import opened ReorderEntry
  import opened ReorderTable
  import opened ReorderRuns
  import opened ReorderWindow
  import opened ReorderFlows
  import opened ReorderHang
  import opened ReorderLoop

  /** The position at which the present life of an entry began. */
  function LifeStart(t: seq<Event>, idx: nat): nat {
    if |t| == 0 then 0
    else if Restarts(t[|t| - 1], idx) then t[|t| - 1].start
    else LifeStart(t[..|t| - 1], idx)
  }

  lemma {:induction false} AddsLife(t: seq<Event>, t': seq<Event>, idx: nat, key: Key, i: nat)
    requires Adds(t, t', idx, key)
    ensures LifeStart(t', i) == LifeStart(t, i)
    decreases |t'|
  {
    if |t'| == |t| {
      assert t' == t;
    } else {
      AddsLife(t, t'[..|t'| - 1], idx, key, i);
    }
  }

  /** The wire number belongs to a position from `base` on, less than a window ahead of `next`. */
  ghost predicate InLife(sn: nat, base: nat, next: nat) {
    exists q: nat :: base <= q < next + WINDOW && Wire(q) == sn
  }

  /** What an entry holds was numbered within its life and less than a window ahead of `next`. */
  ghost predicate Spans(e: Entry, base: nat) {
    base <= e.flow.next
    && forall i :: 0 <= i < |e.win| && e.win[i].Held? ==> InLife(e.win[i].d.sn, base, e.flow.next)
  }

  /** A step that only releases and only moves forward. */
  ghost predicate Slim(e: Entry, r: Entry) {
    && e.flow.next <= r.flow.next && |e.win| == |r.win|
    && forall i :: 0 <= i < |e.win| && r.win[i].Held? ==> r.win[i] == e.win[i]
  }

  lemma SlimSpans(e: Entry, r: Entry, base: nat)
    requires Slim(e, r) && Spans(e, base)
    ensures Spans(r, base)
  {
    hide Wire;
    forall i | 0 <= i < |r.win| && r.win[i].Held? ensures InLife(r.win[i].d.sn, base, r.flow.next) {
      var q: nat :| base <= q < e.flow.next + WINDOW && Wire(q) == e.win[i].d.sn;
    }
  }

  lemma {:induction false} FlushSlim(env: Env, idx: nat, c: Ctx)
    requires Aligned(c.e.win)
    ensures Slim(c.e, Flush(env, idx, c).e)
    decreases HeldCount(c.e.win)
  {
    hide Wire, SlotOf, HeldCount;
    if NextIsHeld(c.e) {
      HeldCountUpdate(c.e.win, SlotOf(c.e.flow.next), Empty);
      FlushSlim(env, idx, EmitSlot(env, idx, c));
    }
  }

  lemma SkipGapSlim(env: Env, idx: nat, c: Ctx)
    requires Aligned(c.e.win)
    ensures Slim(c.e, SkipGap(env, idx, c).e)
  {
    hide Wire, SlotOf, SmallestAhead, Flush;
    var f := c.e.flow;
    var d := SmallestAhead(c.e.win, Wire(f.next));
    FlushSlim(env, idx, c.(e := c.e.(flow := f.(next := f.next + d))));
  }

  /** The room loop only releases, and leaves the arrival less than a window ahead. */
  lemma {:induction false} MakeRoomSlim(env: Env, idx: nat, c: Ctx, sn: nat)
    requires Aligned(c.e.win) && sn < M32
    ensures var r := MakeRoom(env, idx, c, sn);
            r.Returns? ==> Slim(c.e, r.v.e) && SeqDelta(sn, Wire(r.v.e.flow.next)) < WINDOW
    decreases HeldCount(c.e.win)
  {
    hide Wire, SlotOf, HeldCount, SmallestAhead, SkipGap, SeqDelta;
    var next := c.e.flow.next;
    if RoomGuard(c, sn) {
      if SmallestAhead(c.e.win, Wire(next)) != NO_DELTA {
        SkipGapReleases(env, idx, c);
        SkipGapSlim(env, idx, c);
        MakeRoomSlim(env, idx, SkipGap(env, idx, c), sn);
      }
    } else if SeqDelta(sn, Wire(next)) >= WINDOW {
      SeqDeltaShift(sn, next, SeqDelta(sn, Wire(next)) - (WINDOW - 1));
    }
  }

  lemma StoreSpans(c: Ctx, d: Datagram, now: nat, base: nat, q: nat)
    requires Aligned(c.e.win) && d.sn < M32 && Spans(c.e, base)
    requires base <= q < c.e.flow.next + WINDOW && Wire(q) == d.sn
    ensures Spans(Store(c, d, now).e, base)
  {
    hide Wire, SlotOf;
    assert InLife(d.sn, base, c.e.flow.next);
  }

  lemma PlaceSpans(env: Env, idx: nat, c: Ctx, d: Datagram, now: nat, base: nat)
    requires Aligned(c.e.win) && d.sn < M32 && Spans(c.e, base) && 0 <= SeqDelta(d.sn, Wire(c.e.flow.next)) < WINDOW
    ensures Spans(Place(env, idx, c, d, now).e, base)
  {
    hide Wire, SlotOf, SeqDelta, SkipGap, Spans, Slim, Store;
    var q := c.e.flow.next + SeqDelta(d.sn, Wire(c.e.flow.next));
    SeqDeltaLands(d.sn, c.e.flow.next);
    SpansBase(c.e, base);
    var s := SkipGap(env, idx, c);
    SkipGapSlim(env, idx, c);
    SlimSpans(c.e, s.e, base);
    SlimNext(c.e, s.e);
    StoreSpans(c, d, now, base, q);
    StoreSpans(s, d, now, base, q);
  }

  lemma SpansBase(e: Entry, base: nat)
    requires Spans(e, base)
    ensures base <= e.flow.next
  {
  }

  lemma SlimNext(e: Entry, r: Entry)
    requires Slim(e, r)
    ensures e.flow.next <= r.flow.next
  {
  }

  lemma EmitNewSpans(env: Env, idx: nat, c: Ctx, d: Datagram, base: nat)
    requires Aligned(c.e.win) && Spans(c.e, base)
    ensures Spans(Flush(env, idx, EmitNew(env, idx, c, d)).e, base)
  {
    hide Wire, SlotOf, Spans, Flush;
    var m := EmitNew(env, idx, c, d);
    SlimSpans(c.e, m.e, base);
    FlushSlim(env, idx, m);
    SlimSpans(m.e, Flush(env, idx, m).e, base);
  }

  lemma ArriveSpans(env: Env, idx: nat, c: Ctx, d: Datagram, now: nat, base: nat)
    requires Aligned(c.e.win) && d.sn < M32 && Spans(c.e, base)
    ensures var r := Arrive(env, idx, c, d, now); r.Returns? ==> Spans(r.v.e, base)
  {
    hide Wire, SlotOf, Spans, Slim, SkipGap, SeqDelta, Flush, MakeRoom, Place, EmitNew;
    SkipGapSlim(env, idx, c);
    SlimSpans(c.e, SkipGap(env, idx, c).e, base);
    var c0 := if Expired(env, c.e.flow, now) then SkipGap(env, idx, c) else c;
    EmitNewSpans(env, idx, c0, d, base);
    var m := MakeRoom(env, idx, c0, d.sn);
    if m.Returns? {
      MakeRoomSlim(env, idx, c0, d.sn);
      SlimSpans(c0.e, m.v.e, base);
      EmitNewSpans(env, idx, m.v, d, base);
      if SeqDelta(d.sn, Wire(m.v.e.flow.next)) > 0 {
        PlaceSpans(env, idx, m.v, d, now, base);
      }
    }
  }

  /* ---- the whole table ---- */

  /** Every entry in use holds only what was numbered within its life. */
  ghost predicate Ranged(w: Worker) {
    forall i: nat :: i < |w.entries| && w.entries[i].flow.valid ==> Spans(w.entries[i], LifeStart(w.trace, i))
  }

  lemma CloseRanged(w: Worker, idx: nat, c: Ctx, key: Key)
    requires Ranged(w) && idx < |w.entries| && Adds(w.trace, c.trace, idx, key)
    requires c.e.flow.valid ==> Spans(c.e, LifeStart(w.trace, idx))
    ensures Ranged(Close(w, idx, c))
  {
    hide Spans, LifeStart, Adds;
    var r := Close(w, idx, c);
    forall i: nat | i < |r.entries| && r.entries[i].flow.valid ensures Spans(r.entries[i], LifeStart(r.trace, i)) {
      AddsLife(w.trace, c.trace, idx, key, i);
    }
  }

  lemma ResetEntryRanged(w: Worker, idx: nat, d: Datagram, now: nat)
    requires WorkerOk(w) && TableShape(w) && Ranged(w) && idx < FLOW_CAP
    ensures Ranged(ResetEntry(w, idx, d, now))
  {
    hide LifeStart, DropFrom, WorkerOk, HeldCount, InLife;
    var c := Open(w, idx);
    var m := if c.e.flow.valid then DropFrom(c, 0) else c;
    DropFromAdds(c, 0, idx, d.key);
    var r := ResetEntry(w, idx, d, now);
    VacateKeeps(w, idx, m, ANY);
    forall i: nat | i < |r.entries| && r.entries[i].flow.valid ensures Spans(r.entries[i], LifeStart(r.trace, i)) {
      LifeAppend(m.trace, r.trace[|r.trace| - 1], i);
      assert r.trace == m.trace + [r.trace[|r.trace| - 1]];
      AddsLife(w.trace, m.trace, idx, d.key, i);
    }
  }

  lemma LifeAppend(t: seq<Event>, ev: Event, i: nat)
    ensures LifeStart(t + [ev], i) == if Restarts(ev, i) then ev.start else LifeStart(t, i)
  {
    assert (t + [ev])[..|t|] == t;
  }

  lemma LookupRanged(env: Env, w: Worker, d: Datagram, now: nat)
    requires WorkerOk(w) && TableShape(w) && Ranged(w)
    ensures Ranged(Lookup(env, w, d, now))
  {
    hide LifeStart, ResetEntry, WorkerOk, InLife, Scan, SetBase;
    var i := Find(env, w, d.key).idx;
    ResetEntryRanged(w, i, d, now);
  }

  lemma SubmitRanged(env: Env, w: Worker, d: Datagram, now: nat)
    requires WorkerOk(w) && TableShape(w) && Ranged(w) && d.sn < M32
    ensures var r := Submit(env, w, d, now); r.Returns? ==> Ranged(r.v)
  {
    hide LifeStart, WorkerOk, Spans, Find, Lookup, Arrive;
    if env.enabled {
      var idx, m := Find(env, w, d.key).idx, Lookup(env, w, d, now);
      LookupRanged(env, w, d, now);
      LookupKeeps(env, w, d, now, ANY);
      OpenOk(m, idx);
      var c := Open(m, idx);
      ArriveAdds(env, idx, c, d, now);
      ArriveSpans(env, idx, c, d, now, LifeStart(m.trace, idx));
      var r := Arrive(env, idx, c, d, now);
      if r.Returns? {
        CloseRanged(m, idx, r.v, c.e.flow.key);
      }
    } else {
      var t := w.trace + [Pass(d, env.accepts(|w.trace|))];
      forall i: nat ensures LifeStart(t, i) == LifeStart(w.trace, i) {
        LifeAppend(w.trace, Pass(d, env.accepts(|w.trace|)), i);
      }
    }
  }

  lemma GcVisitRanged(env: Env, w: Worker, idx: nat, now: nat)
    requires WorkerOk(w) && TableShape(w) && Ranged(w) && idx < FLOW_CAP
    ensures Ranged(GcVisit(env, w, idx, now))
  {
    hide LifeStart, WorkerOk, Spans, SkipGap, Adds, Slim, Elapsed;
    var c := Open(w, idx);
    if c.e.flow.valid {
      OpenOk(w, idx);
      SkipGapAdds(env, idx, c);
      SkipGapSlim(env, idx, c);
      var m := if Expired(env, c.e.flow, now) then SkipGap(env, idx, c) else c;
      NoAdds(c.trace, idx, c.e.flow.key);
      SlimSpans(c.e, SkipGap(env, idx, c).e, LifeStart(w.trace, idx));
      CloseRanged(w, idx, m, c.e.flow.key);
      CloseRanged(w, idx, m.(e := m.e.(flow := FREE)), c.e.flow.key);
    }
  }

  lemma NoAdds(t: seq<Event>, idx: nat, key: Key)
    ensures Adds(t, t, idx, key)
  {
  }

  lemma {:induction false} GcFromRanged(env: Env, w: Worker, now: nat, n: nat)
    requires WorkerOk(w) && TableShape(w) && n <= GC_SLICE && Ranged(w)
    ensures Ranged(GcFrom(env, w, now, n))
    decreases GC_SLICE - n
  {
    hide WorkerOk, GcVisit, Ranged;
    if n < GC_SLICE {
      var i := (w.cursor + n) % FLOW_CAP;
      GcVisitRanged(env, w, i, now);
      GcVisitKeeps(env, w, i, now, ANY);
      GcFromRanged(env, GcVisit(env, w, i, now), now, n + 1);
    }
  }

  lemma {:induction false} ClearFromRanged(w: Worker, idx: nat)
    requires TableShape(w) && idx <= FLOW_CAP && Ranged(w)
    ensures Ranged(ClearFrom(w, idx))
    decreases FLOW_CAP - idx
  {
    hide Spans, DropFrom, LifeStart, Adds;
    if idx < FLOW_CAP {
      var c := Open(w, idx);
      var m := if c.e.flow.valid then DropFrom(c, 0) else c;
      DropFromAdds(c, 0, idx, NO_KEY);
      NoAdds(c.trace, idx, NO_KEY);
      CloseRanged(w, idx, m.(e := m.e.(flow := FREE)), NO_KEY);
      ClearFromRanged(ClearEntry(w, idx), idx + 1);
    }
  }

  /** In every run, held-cap branch included, an entry holds only datagrams that were numbered within its
      present life and less than a window ahead of the next expected one. */
  lemma {:induction false} RunRanged(env: Env, ops: seq<Op>)
    requires OpsOk(ops)
    ensures var r := Run(env, ops); r.Returns? ==> Ranged(r.v)
  {
    hide Submit, GcFrom, ClearFrom, Start, WorkerOk, Spans, LifeStart;
    if |ops| == 0 {
      StartRanged();
    } else {
      var init, op := ops[..|ops| - 1], ops[|ops| - 1];
      RunRanged(env, init);
      RunBooks(env, init, ANY);
      if Run(env, init).Returns? {
        var w := Run(env, init).v;
        match op
        case OpSubmit(d, now) => SubmitRanged(env, w, d, now);
        case OpGc(now) => GcFromRanged(env, w, now, 0);
        case OpReset => ClearFromRanged(w, 0);
      }
    }
  }

  lemma StartRanged()
    ensures Ranged(Start())
  {
  }

  /* ---- hanging ---- */

  /** A life of less than 2^31 numbers, less a window: all that is held is compared exactly. */
  lemma SpansNear(e: Entry, base: nat)
    requires Spans(e, base) && e.flow.next - base <= HALF - WINDOW
    ensures Near(e, WINDOW - HALF, WINDOW)
  {
    hide Wire, SeqDelta;
    forall i | 0 <= i < |e.win| && e.win[i].Held?
      ensures WINDOW - HALF <= SeqDelta(e.win[i].d.sn, Wire(e.flow.next)) < WINDOW
    {
      var q: nat :| base <= q < e.flow.next + WINDOW && Wire(q) == e.win[i].d.sn;
      SeqDeltaExact(q, e.flow.next);
    }
  }

  /** In every state of every run, while the life of an entry is shorter than 2^31 numbers less a window, the
      condition under which the room loop never exits is the simple one: the arrival is stranded. */
  lemma RunStranded(env: Env, ops: seq<Op>, idx: nat, sn: nat)
    requires OpsOk(ops) && Run(env, ops).Returns? && idx < FLOW_CAP && sn < M32
    requires var w := Run(env, ops).v;
             |w.entries| == FLOW_CAP && w.entries[idx].flow.valid
             && w.entries[idx].flow.next - LifeStart(w.trace, idx) <= HALF - WINDOW
    ensures var e := Run(env, ops).v.entries[idx]; Exhausted(e, sn) <==> Stranded(e, sn)
  {
    hide Run, WorkerOk, Stranded, Exhausted, Spans, LifeStart;
    var w := Run(env, ops).v;
    RunRanged(env, ops);
    SpansNear(w.entries[idx], LifeStart(w.trace, idx));
    ExhaustedStranded(w.entries[idx], sn);
  }
}
