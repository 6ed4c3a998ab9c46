/** Clocks of the reorder buffer and visits of its collector: a flow with held datagrams always has a running
    gap clock, and a collector call visits exactly sixteen entries. */
module ReorderProgress {
  import opened Serial
  import opened ReorderModel
  import opened ReorderEntry
  import opened ReorderTable
  import opened ReorderRuns
  import opened ReorderWindow

  /** The gap clock runs exactly while something is held, and then the flow was seen at a positive time. */
  predicate ClockOk(f: Flow) {
    (f.held > 0 <==> f.gapSince > 0) && (f.held > 0 ==> f.lastSeen > 0)
  }

  /** The same in the middle of a submit: a life that opens behind its first datagram has its clock set before
      that datagram is held. */
  predicate ClockOpen(f: Flow, sn: nat, now: nat) {
    ClockOk(f) || (f.held == 0 && f.gapSince == now && 0 < SeqDelta(sn, Wire(f.next)) < WINDOW)
  }

  predicate ClocksOk(w: Worker) {
    forall i :: 0 <= i < |w.entries| ==> ClockOk(w.entries[i].flow)
  }

  lemma {:induction false} FlushClock(env: Env, idx: nat, c: Ctx)
    requires Aligned(c.e.win)
    ensures var f := Flush(env, idx, c).e.flow;
            f.held <= c.e.flow.held && f.lastSeen == c.e.flow.lastSeen
            && f.gapSince == if f.held != 0 then c.e.flow.gapSince else 0
    decreases HeldCount(c.e.win)
  {
    hide Wire, SlotOf, HeldCount;
    if NextIsHeld(c.e) {
      HeldCountUpdate(c.e.win, SlotOf(c.e.flow.next), Empty);
      FlushClock(env, idx, EmitSlot(env, idx, c));
    }
  }

  /** A skip restarts the gap clock at the time the flow was last seen. */
  lemma SkipGapClock(env: Env, idx: nat, c: Ctx)
    requires Aligned(c.e.win) && WindowOk(c.e) && c.e.flow.held == HeldCount(c.e.win) <= c.total
    ensures var r := SkipGap(env, idx, c);
            && r.e.flow.lastSeen == c.e.flow.lastSeen
            && r.e.flow.gapSince == (if r.e.flow.held > 0 then r.e.flow.lastSeen else 0)
            && (c.e.flow.held > 0 ==> r.e.flow.held < c.e.flow.held)
            && (c.e.flow.held == 0 ==> r.e.flow.held == 0)
  {
    hide Wire, SlotOf, SeqDelta, HeldCount, SmallestAhead, Near;
    SmallestAheadNear(c.e);
    SkipGapHeld(env, idx, c);
    var d := SmallestAhead(c.e.win, Wire(c.e.flow.next));
    if d != NO_DELTA {
      SkipGapReleases(env, idx, c);
      FlushClock(env, idx, c.(e := c.e.(flow := c.e.flow.(next := c.e.flow.next + d))));
    }
  }

  lemma {:induction false} MakeRoomClock(env: Env, idx: nat, c: Ctx, sn: nat)
    requires Aligned(c.e.win) && WindowOk(c.e) && c.e.flow.held == HeldCount(c.e.win) <= c.total
    requires ClockOk(c.e.flow) && c.e.flow.lastSeen > 0
    ensures var r := MakeRoom(env, idx, c, sn);
            r.Returns? ==> ClockOk(r.v.e.flow) && r.v.e.flow.lastSeen == c.e.flow.lastSeen
    decreases HeldCount(c.e.win)
  {
    hide Wire, SlotOf, SeqDelta, HeldCount, SmallestAhead, SkipGap, Near;
    if RoomGuard(c, sn) && SmallestAhead(c.e.win, Wire(c.e.flow.next)) != NO_DELTA {
      SkipGapClock(env, idx, c);
      SkipGapHeld(env, idx, c);
      WindowAhead(c.e);
      SkipGapNear(env, idx, c);
      SkipGapAligned(env, idx, c);
      MakeRoomClock(env, idx, SkipGap(env, idx, c), sn);
    }
  }

  lemma ArriveClock(env: Env, idx: nat, c: Ctx, d: Datagram, now: nat)
    requires CtxOk(idx, c) && Belongs(d, c.e.flow) && d.sn < M32 && WindowOk(c.e) && c.total <= env.cap
    requires ClockOpen(c.e.flow, d.sn, now) && c.e.flow.lastSeen > 0 && now > 0
    ensures var r := Arrive(env, idx, c, d, now); r.Returns? ==> ClockOk(r.v.e.flow)
  {
    hide Wire, SlotOf, SeqDelta, HeldCount, SmallestAhead, SkipGap, MakeRoom, Flush, Place, Near, InOrder, Outs,
         LivesOk, HeldCopies, Disposed;
    var c0 := if Expired(env, c.e.flow, now) then SkipGap(env, idx, c) else c;
    SkipGapClock(env, idx, c);
    SkipGapKeeps(env, idx, c, ANY);
    WindowAhead(c.e);
    SkipGapNear(env, idx, c);
    if SeqDelta(d.sn, Wire(c0.e.flow.next)) == 0 {
      FlushClock(env, idx, EmitNew(env, idx, c0, d));
    } else if SeqDelta(d.sn, Wire(c0.e.flow.next)) > 0 {
      MakeRoomReturns(env, idx, c0, d.sn);
      MakeRoomKeeps(env, idx, c0, d.sn, ANY);
      if ClockOk(c0.e.flow) {
        MakeRoomClock(env, idx, c0, d.sn);
      } else {
        NoRoomNeeded(env, idx, c0, d.sn);
      }
      var c1 := MakeRoom(env, idx, c0, d.sn).v;
      FlushClock(env, idx, EmitNew(env, idx, c1, d));
      PlaceClock(env, idx, c1, d, now);
    }
  }

  lemma PlaceClock(env: Env, idx: nat, c: Ctx, d: Datagram, now: nat)
    requires Aligned(c.e.win) && WindowOk(c.e) && c.e.flow.held == HeldCount(c.e.win) <= c.total
    requires ClockOpen(c.e.flow, d.sn, now) && c.e.flow.lastSeen > 0 && now > 0 && d.sn < M32
    ensures ClockOk(Place(env, idx, c, d, now).e.flow)
  {
    hide Wire, SlotOf, SeqDelta, HeldCount, SmallestAhead, SkipGap, Near;
    SkipGapHeld(env, idx, c);
    HeldCountZero(c.e.win);
    HeldCountZero(SkipGap(env, idx, c).e.win);
    SkipGapClock(env, idx, c);
  }

  lemma SubmitClocks(env: Env, w: Worker, d: Datagram, now: nat)
    requires WorkerOk(w) && TableShape(w) && WindowsOk(w) && d.sn < M32 && w.total <= env.cap
    requires ClocksOk(w) && now > 0
    ensures var r := Submit(env, w, d, now); r.Returns? ==> ClocksOk(r.v)
  {
    hide EntryOk, SumHeld, HeldCount, Outs, LivesOk, Near, Find, Lookup, Arrive, CtxOk, ClockOk;
    if env.enabled {
      var idx := Find(env, w, d.key).idx;
      var m := Lookup(env, w, d, now);
      LookupKeeps(env, w, d, now, ANY);
      LookupWindows(env, w, d, now);
      LookupClocks(env, w, d, now);
      OpenOk(m, idx);
      ArriveClock(env, idx, Open(m, idx), d, now);
    }
  }

  lemma LookupClocks(env: Env, w: Worker, d: Datagram, now: nat)
    requires TableShape(w) && ClocksOk(w) && now > 0 && d.sn < M32
    ensures var r, idx := Lookup(env, w, d, now), Find(env, w, d.key).idx;
            && (forall i :: 0 <= i < FLOW_CAP && i != idx ==> ClockOk(r.entries[i].flow))
            && ClockOpen(r.entries[idx].flow, d.sn, now) && r.entries[idx].flow.lastSeen == now
  {
    hide Scan, SetBase, DropFrom, SeqDelta, Wire;
    OpeningClock(d, now, w.clock + 1);
  }

  lemma OpeningClock(d: Datagram, now: nat, stamp: nat)
    requires d.sn < M32 && now > 0
    ensures var f := NewFlow(d.key, d.epoch, d.sn, now, stamp); ClockOpen(f, d.sn, now) && f.lastSeen == now
    ensures ClockOpen(NewFlow(d.key, d.epoch, d.sn, now, stamp).(lastSeen := now, stamp := stamp + 1), d.sn, now)
  {
    hide SeqDelta, Wire;
    var f := NewFlow(d.key, d.epoch, d.sn, now, stamp);
    WireSmall(d.sn);
    SeqDeltaExact(d.sn, f.next);
  }

  /** One visit of the collector to an entry: an expired gap releases at least one datagram. */
  predicate Visited(env: Env, e: Entry, e': Entry, now: nat) {
    && e'.flow.held <= e.flow.held
    && (Expired(env, e.flow, now) ==> e'.flow.held < e.flow.held)
    && (e'.flow.held > 0 ==> e'.flow.lastSeen == e.flow.lastSeen
                             && (e'.flow.gapSince == e.flow.gapSince || e'.flow.gapSince == e.flow.lastSeen))
  }

  lemma GcVisitEntry(env: Env, w: Worker, idx: nat, now: nat)
    requires WorkerOk(w) && TableShape(w) && WindowsOk(w) && idx < FLOW_CAP
    ensures var r := GcVisit(env, w, idx, now);
            && Visited(env, w.entries[idx], r.entries[idx], now)
            && (forall j :: 0 <= j < FLOW_CAP && j != idx ==> r.entries[j] == w.entries[j])
            && (ClocksOk(w) ==> ClocksOk(r))
  {
    hide SumHeld, HeldCount, Outs, LivesOk, SkipGap, InOrder, Near;
    assert EntryOk(w.entries[idx], Outs(w.trace, idx));
    var c := Open(w, idx);
    if c.e.flow.valid {
      OpenOk(w, idx);
      SkipGapClock(env, idx, c);
    }
  }

  /** How far the collector's cursor is from an entry. */
  function Ahead(cursor: nat, idx: nat): nat
    requires cursor < FLOW_CAP && idx < FLOW_CAP
  {
    (idx - cursor) % FLOW_CAP
  }

  /** The rounds until the next visit. */
  function Rounds(cursor: nat, idx: nat): nat
    requires cursor < FLOW_CAP && idx < FLOW_CAP
  {
    Ahead(cursor, idx) / GC_SLICE
  }

  /** The n-th visit of a call is to the entry n ahead of the cursor. */
  lemma VisitOffset(cursor: nat, n: nat, idx: nat)
    requires cursor < FLOW_CAP && n < FLOW_CAP && idx < FLOW_CAP
    ensures (cursor + n) % FLOW_CAP == idx <==> Ahead(cursor, idx) == n
  {
  }

  lemma {:induction false} GcFromEntry(env: Env, w: Worker, now: nat, n: nat, idx: nat)
    requires WorkerOk(w) && TableShape(w) && WindowsOk(w) && n <= GC_SLICE && idx < FLOW_CAP
    ensures var r := GcFrom(env, w, now, n);
            && (n <= Ahead(w.cursor, idx) < GC_SLICE ==> Visited(env, w.entries[idx], r.entries[idx], now))
            && (!(n <= Ahead(w.cursor, idx) < GC_SLICE) ==> r.entries[idx] == w.entries[idx])
            && (ClocksOk(w) ==> ClocksOk(r))
    decreases GC_SLICE - n
  {
    hide EntryOk, SumHeld, Outs, LivesOk, WindowsOk, GcVisit, ClocksOk, Ahead;
    if n < GC_SLICE {
      var i := (w.cursor + n) % FLOW_CAP;
      VisitOffset(w.cursor, n, idx);
      GcVisitEntry(env, w, i, now);
      GcVisitWindows(env, w, i, now);
      GcVisitKeeps(env, w, i, now, ANY);
      var m := GcVisit(env, w, i, now);
      assert m.cursor == w.cursor by { GcVisitCursor(env, w, i, now); }
      GcFromEntry(env, m, now, n + 1, idx);
    }
  }

  lemma GcVisitCursor(env: Env, w: Worker, idx: nat, now: nat)
    requires TableShape(w) && idx < FLOW_CAP
    ensures GcVisit(env, w, idx, now).cursor == w.cursor
  {
  }

  /** What a visit makes of an entry. */
  function AfterVisit(env: Env, e: Entry, now: nat): (r: Entry)
    requires Aligned(e.win)
    ensures Aligned(r.win)
  {
    if !e.flow.valid then e
    else
      var m := if Expired(env, e.flow, now) then SkipGap(env, 0, Ctx(e, 0, [])).e else e;
      if m.flow.held == 0 && Elapsed(now, m.flow.lastSeen) > FLOW_IDLE_NS then m.(flow := FREE) else m
  }

  lemma {:induction false} FlushEntry(env: Env, idx: nat, c: Ctx, idx': nat, c': Ctx)
    requires Aligned(c.e.win) && c'.e == c.e
    ensures Flush(env, idx, c).e == Flush(env, idx', c').e
    decreases HeldCount(c.e.win)
  {
    hide Wire, SlotOf, HeldCount;
    if NextIsHeld(c.e) {
      HeldCountUpdate(c.e.win, SlotOf(c.e.flow.next), Empty);
      FlushEntry(env, idx, EmitSlot(env, idx, c), idx', EmitSlot(env, idx', c'));
    }
  }

  lemma SkipGapEntry(env: Env, idx: nat, c: Ctx, idx': nat, c': Ctx)
    requires Aligned(c.e.win) && c'.e == c.e
    ensures SkipGap(env, idx, c).e == SkipGap(env, idx', c').e
  {
    hide Wire, SlotOf, SmallestAhead, Flush;
    var f := c.e.flow;
    var d := SmallestAhead(c.e.win, Wire(f.next));
    var e := c.e.(flow := f.(next := f.next + d));
    FlushEntry(env, idx, c.(e := e), idx', c'.(e := e));
  }

  lemma GcVisitExact(env: Env, w: Worker, i: nat, now: nat, idx: nat)
    requires TableShape(w) && i < FLOW_CAP && idx < FLOW_CAP
    ensures GcVisit(env, w, i, now).entries[idx]
         == if i == idx then AfterVisit(env, w.entries[idx], now) else w.entries[idx]
  {
    hide SkipGap, Elapsed;
    SkipGapEntry(env, i, Open(w, i), 0, Ctx(w.entries[i], 0, []));
  }

  /** One call visits the sixteen entries from the cursor on, and no other. */
  lemma {:induction false} GcFromExact(env: Env, w: Worker, now: nat, n: nat, idx: nat)
    requires TableShape(w) && w.cursor < FLOW_CAP && n <= GC_SLICE && idx < FLOW_CAP
    ensures GcFrom(env, w, now, n).entries[idx]
         == if n <= Ahead(w.cursor, idx) < GC_SLICE then AfterVisit(env, w.entries[idx], now) else w.entries[idx]
    decreases GC_SLICE - n
  {
    hide GcVisit, AfterVisit, Ahead;
    if n < GC_SLICE {
      var i := (w.cursor + n) % FLOW_CAP;
      VisitOffset(w.cursor, n, idx);
      GcVisitExact(env, w, i, now, idx);
      GcVisitCursor(env, w, i, now);
      GcFromExact(env, GcVisit(env, w, i, now), now, n + 1, idx);
    }
  }

  /** The calls of a run happen at positive times. */
  predicate Positive(ops: seq<Op>) {
    forall i :: 0 <= i < |ops| && ops[i].OpSubmit? ==> ops[i].now > 0
  }

  /** In every run without an overtaking held-cap skip, a flow that holds anything has a gap clock. */
  lemma {:induction false} RunClocks(env: Env, ops: seq<Op>)
    requires OpsOk(ops) && NeverOvertakes(env, ops) && Positive(ops)
    ensures Run(env, ops).Returns? && ClocksOk(Run(env, ops).v)
  {
    hide WorkerOk, WindowsOk, SubmitOvertakes, Submit, Gc, ResetWorker, ClockOk;
    RunWindows(env, ops);
    if |ops| == 0 {
      StartClocks();
    } else {
      var init, op := ops[..|ops| - 1], ops[|ops| - 1];
      RunClocks(env, init);
      RunWindows(env, init);
      RunBooks(env, init, ANY);
      var w := Run(env, init).v;
      match op
      case OpSubmit(d, now) => SubmitClocks(env, w, d, now);
      case OpGc(now) => GcClocks(env, w, now);
      case OpReset => ResetClocks(w);
    }
  }

  lemma StartClocks()
    ensures ClocksOk(Start())
  {
  }

  lemma GcClocks(env: Env, w: Worker, now: nat)
    requires WorkerOk(w) && TableShape(w) && WindowsOk(w) && ClocksOk(w)
    ensures ClocksOk(Gc(env, w, now))
  {
    hide EntryOk, SumHeld, Outs, LivesOk, WindowsOk, ClockOk, GcFrom;
    GcFromEntry(env, w, now, 0, 0);
  }

  lemma {:induction false} ClearFromFree(w: Worker, idx: nat)
    requires TableShape(w) && idx <= FLOW_CAP
    requires forall j :: 0 <= j < idx ==> w.entries[j].flow == FREE
    ensures forall j :: 0 <= j < FLOW_CAP ==> ClearFrom(w, idx).entries[j].flow == FREE
    decreases FLOW_CAP - idx
  {
    hide DropFrom, Aligned;
    if idx < FLOW_CAP {
      ClearFromFree(ClearEntry(w, idx), idx + 1);
    }
  }

  lemma ResetClocks(w: Worker)
    requires TableShape(w)
    ensures ClocksOk(ResetWorker(w))
  {
    hide ClearFrom, Aligned;
    ClearFromFree(w, 0);
  }

  lemma AheadStep(cursor: nat, idx: nat)
    requires cursor < FLOW_CAP && idx < FLOW_CAP
    ensures Ahead(cursor, idx) < FLOW_CAP
    ensures var a := Ahead(cursor, idx);
            Ahead((cursor + GC_SLICE) % FLOW_CAP, idx)
              == if a >= GC_SLICE then a - GC_SLICE else a - GC_SLICE + FLOW_CAP
  {
  }

  lemma RoundsStep(cursor: nat, idx: nat)
    requires cursor < FLOW_CAP && idx < FLOW_CAP
    ensures Rounds(cursor, idx) < 32
    ensures Rounds(cursor, idx) == 0 <==> Ahead(cursor, idx) < GC_SLICE
    ensures Rounds(cursor, idx) > 0 ==> Rounds((cursor + GC_SLICE) % FLOW_CAP, idx) == Rounds(cursor, idx) - 1
    ensures Rounds((cursor + GC_SLICE) % FLOW_CAP, idx) < 32
  {
    hide Ahead;
    AheadStep(cursor, idx);
  }
}
