/** How far a call of submit moves the next expected number, when it moves a gap clock, and which entries the
    collector frees. */
module ReorderGaps {
  import opened Serial
  import opened ReorderModel
  import opened ReorderEntry
  import opened ReorderTable
  import opened ReorderRuns
  import opened ReorderWindow
  import opened ReorderProgress
  import opened ReorderStamps

  /** A run of held positions ends before `n`. */
  ghost predicate RunEnd(e: Entry, n: nat)
    requires |e.win| == WINDOW
  {
    e.flow.next < n <= e.flow.next + WINDOW && HeldAt(e, n - 1) && !HeldAt(e, n)
  }

  /** Nothing is held at a position beyond all held ones. */
  lemma NotHeldBeyond(e: Entry, hi: int, p: nat)
    requires Aligned(e.win) && Near(e, 0, hi) && 0 <= hi
    requires e.flow.next + hi <= p < e.flow.next + HALF
    ensures !HeldAt(e, p)
  {
    hide Wire, SlotOf, SeqDelta;
    SeqDeltaExact(p, e.flow.next);
  }

  /** Nothing is held between `next` and what a scan finds. */
  lemma NotHeldBefore(e: Entry, p: nat)
    requires Aligned(e.win) && WindowOk(e)
    requires e.flow.next <= p < e.flow.next + WINDOW && p < e.flow.next + SmallestAhead(e.win, Wire(e.flow.next))
    ensures !HeldAt(e, p)
  {
    hide Wire, SlotOf, SeqDelta, SmallestAhead;
    if HeldAt(e, p) {
      HeldDelta(e, p);
      SmallestAheadBound(e.win, Wire(e.flow.next), SlotOf(p));
    }
  }

  /** A skip moves to the end of the first held run, and leaves the rest as it is. */
  lemma SkipToRunEnd(env: Env, idx: nat, c: Ctx)
    requires Aligned(c.e.win) && WindowOk(c.e) && HeldCount(c.e.win) > 0
    ensures var r := SkipGap(env, idx, c).e;
            && Aligned(r.win) && RunEnd(c.e, r.flow.next)
            && c.e.flow.next + SmallestAhead(c.e.win, Wire(c.e.flow.next)) < r.flow.next
            && (forall n: nat :: n < r.flow.next ==> !RunEnd(c.e, n))
            && (forall n: nat :: r.flow.next < n ==> (RunEnd(r, n) <==> RunEnd(c.e, n)))
  {
    hide Wire, SlotOf, SeqDelta, HeldCount, SmallestAhead, SkipGap, Near;
    var next, d := c.e.flow.next, SmallestAhead(c.e.win, Wire(c.e.flow.next));
    WindowAhead(c.e);
    SmallestAheadNear(c.e);
    SkipGapExact(env, idx, c);
    SkipGapAligned(env, idx, c);
    var r := SkipGap(env, idx, c).e;
    SkipReach(env, idx, c);
    HeldSame(c.e, r, r.flow.next);
    forall n: nat | r.flow.next < n ensures RunEnd(r, n) <==> RunEnd(c.e, n) {
      if n <= r.flow.next + WINDOW {
        HeldSame(c.e, r, n - 1);
        HeldSame(c.e, r, n);
        if n > next + WINDOW {
          NotHeldBeyond(r, next + WINDOW - r.flow.next, n - 1);
        }
      }
    }
    forall n: nat | n < r.flow.next ensures !RunEnd(c.e, n) {
      if next < n <= next + d {
        NotHeldBefore(c.e, n - 1);
      }
    }
  }

  /** Two windows that agree up to a position beyond which both hold nothing hold the same positions. */
  lemma HeldSame(e: Entry, r: Entry, p: nat)
    requires Aligned(e.win) && Aligned(r.win) && e.flow.next <= r.flow.next <= e.flow.next + WINDOW
    requires Near(e, 0, WINDOW) && Near(r, 0, e.flow.next + WINDOW - r.flow.next)
    requires forall p :: r.flow.next <= p < e.flow.next + WINDOW ==> r.win[SlotOf(p)] == e.win[SlotOf(p)]
    requires r.flow.next <= p <= r.flow.next + WINDOW
    ensures HeldAt(r, p) <==> HeldAt(e, p)
  {
    hide Wire, SlotOf, SeqDelta, Near;
    if p >= e.flow.next + WINDOW {
      NotHeldBeyond(e, WINDOW, p);
      NotHeldBeyond(r, e.flow.next + WINDOW - r.flow.next, p);
    }
  }

  lemma NoRuns(e: Entry)
    requires |e.win| == WINDOW && HeldCount(e.win) == 0
    ensures forall n: nat :: !RunEnd(e, n)
  {
    hide Wire, SlotOf, HeldCount;
    HeldCountZero(e.win);
  }

  lemma SkipReach(env: Env, idx: nat, c: Ctx)
    requires Aligned(c.e.win) && AheadOk(c.e) && HeldCount(c.e.win) > 0
    requires WindowOk(SkipGap(env, idx, c).e)
    ensures var r := SkipGap(env, idx, c).e; Near(r, 0, c.e.flow.next + WINDOW - r.flow.next)
  {
    hide Wire, SlotOf, SeqDelta, HeldCount, SkipGap;
    var r := SkipGap(env, idx, c).e;
    SkipGapAligned(env, idx, c);
    forall i | 0 <= i < |r.win| && r.win[i].Held?
      ensures 0 <= SeqDelta(r.win[i].d.sn, Wire(r.flow.next)) < c.e.flow.next + WINDOW - r.flow.next
    {
      SkipGapReach(env, idx, c, i);
    }
  }

  /** How far the room loop moves `next` for an arrival too far ahead: not at all if the arrival is inside the
      window; else to the first end of a held run that brings it inside, or, if there is none, exactly so far
      that the arrival is the last number of the window. */
  lemma {:induction false} RoomExact(env: Env, idx: nat, c: Ctx, sn: nat)
    requires Aligned(c.e.win) && WindowOk(c.e) && sn < M32
    requires c.e.flow.held == HeldCount(c.e.win) <= c.total
    requires SeqDelta(sn, Wire(c.e.flow.next)) >= WINDOW
    ensures var r, t := MakeRoom(env, idx, c, sn), c.e.flow.next + SeqDelta(sn, Wire(c.e.flow.next)) - (WINDOW - 1);
            && r.Returns? && r.v.e.flow.next >= t
            && (forall n: nat :: t <= n < r.v.e.flow.next ==> !RunEnd(c.e, n))
            && (RunEnd(c.e, r.v.e.flow.next)
                || (r.v.e.flow.next == t && forall n: nat :: t <= n ==> !RunEnd(c.e, n)))
    decreases HeldCount(c.e.win)
  {
    hide Wire, SlotOf, SeqDelta, HeldCount, SmallestAhead, SkipGap, Near, HeldAt;
    var f := c.e.flow;
    if RoomGuard(c, sn) {
      SmallestAheadNear(c.e);
      SkipToRunEnd(env, idx, c);
      var s := SkipGap(env, idx, c);
      SkipGapHeld(env, idx, c);
      WindowAhead(c.e);
      SkipGapNear(env, idx, c);
      SkipGapReleases(env, idx, c);
      SeqDeltaShift(sn, f.next, s.e.flow.next - f.next);
      if SeqDelta(sn, Wire(s.e.flow.next)) < WINDOW {
        NoRoomNeeded(env, idx, s, sn);
      } else {
        RoomExact(env, idx, s, sn);
      }
    } else {
      NoRuns(c.e);
    }
  }

  /* ---- gap clocks ---- */

  /** A flow's gap has been open for the hold time or longer. */
  predicate GapTooOld(env: Env, f: Flow, now: nat) {
    f.held > 0 && Elapsed(now, f.gapSince) >= env.hold
  }

  /** How an arrival may move an entry's `next` and its gap clock. */
  ghost predicate GapMoves(f: Flow, r: Flow, now: nat) {
    && f.next <= r.next
    && (r.next == f.next && f.held > 0 ==> r.held > 0 && r.gapSince == f.gapSince)
    && (r.held > 0 ==> r.gapSince == now || (f.held > 0 && r.gapSince == f.gapSince))
  }

  /** Is this number late, or one that finds room in the window and the worker? */
  predicate Rests(env: Env, c: Ctx, sn: nat) {
    var delta := SeqDelta(sn, Wire(c.e.flow.next));
    delta < 0 || (0 < delta < WINDOW && (c.e.flow.held > 0 ==> c.total < env.cap))
  }

  lemma MovesOn(f: Flow, m: Flow, r: Flow, now: nat)
    requires GapMoves(f, m, now) && GapMoves(m, r, now)
    ensures GapMoves(f, r, now)
  {
  }

  lemma SkipMoves(env: Env, idx: nat, c: Ctx)
    requires Aligned(c.e.win) && WindowOk(c.e) && c.e.flow.held == HeldCount(c.e.win) <= c.total
    ensures var f, r := c.e.flow, SkipGap(env, idx, c).e.flow;
            && GapMoves(f, r, f.lastSeen) && r.lastSeen == f.lastSeen
            && (f.held > 0 ==> r.next > f.next + SmallestAhead(c.e.win, Wire(f.next)))
            && (f.held == 0 ==> r.next == f.next)
  {
    hide Wire, SlotOf, SeqDelta, HeldCount, SmallestAhead, SkipGap, Near;
    SkipGapClock(env, idx, c);
    if c.e.flow.held > 0 {
      SkipToRunEnd(env, idx, c);
    } else {
      SkipGapIdle(env, idx, c);
    }
  }

  lemma EmitMoves(env: Env, idx: nat, c: Ctx, d: Datagram, now: nat)
    requires Aligned(c.e.win) && WindowOk(c.e) && c.e.flow.held == HeldCount(c.e.win)
    ensures var r := Flush(env, idx, EmitNew(env, idx, c, d)).e.flow;
            GapMoves(c.e.flow, r, now) && r.next > c.e.flow.next
  {
    hide Wire, SlotOf, SeqDelta, HeldCount, Flush;
    var m := EmitNew(env, idx, c, d);
    JumpNear(c.e, 1, WINDOW);
    FlushExact(env, idx, m, WINDOW - 1);
    FlushClock(env, idx, m);
  }

  lemma {:induction false} RoomMoves(env: Env, idx: nat, c: Ctx, sn: nat)
    requires Aligned(c.e.win) && WindowOk(c.e) && sn < M32
    requires c.e.flow.held == HeldCount(c.e.win) <= c.total
    requires SeqDelta(sn, Wire(c.e.flow.next)) >= 0
    ensures var f, r := c.e.flow, MakeRoom(env, idx, c, sn);
            && r.Returns? && GapMoves(f, r.v.e.flow, f.lastSeen) && r.v.e.flow.lastSeen == f.lastSeen
            && (SeqDelta(sn, Wire(f.next)) >= WINDOW ==> r.v.e.flow.next > f.next)
    decreases HeldCount(c.e.win)
  {
    hide Wire, SlotOf, SeqDelta, HeldCount, SmallestAhead, SkipGap, Near;
    var f := c.e.flow;
    if RoomGuard(c, sn) {
      SmallestAheadNear(c.e);
      SkipMoves(env, idx, c);
      WindowAhead(c.e);
      SkipGapExact(env, idx, c);
      SkipGapHeld(env, idx, c);
      SkipGapReleases(env, idx, c);
      var s := SkipGap(env, idx, c);
      SeqDeltaShift(sn, f.next, s.e.flow.next - f.next);
      RoomMoves(env, idx, s, sn);
      MovesOn(f, s.e.flow, MakeRoom(env, idx, s, sn).v.e.flow, f.lastSeen);
    }
  }

  lemma PlaceMoves(env: Env, idx: nat, c: Ctx, d: Datagram, now: nat)
    requires Aligned(c.e.win) && WindowOk(c.e) && c.e.flow.held == HeldCount(c.e.win) <= c.total
    requires ClockOpen(c.e.flow, d.sn, now) && c.e.flow.lastSeen == now > 0 && d.sn < M32
    ensures var f, r := c.e.flow, Place(env, idx, c, d, now).e.flow;
            && GapMoves(f, r, now)
            && (r.next == f.next <==> (f.held > 0 ==> c.total < env.cap))
  {
    hide Wire, SlotOf, SeqDelta, HeldCount, SmallestAhead, SkipGap, Near;
    SkipMoves(env, idx, c);
    SkipGapClock(env, idx, c);
  }

  /** The part of an arrival behind the test of the gap's age. */
  lemma ArriveRest(env: Env, idx: nat, c: Ctx, c0: Ctx, d: Datagram, now: nat)
    requires Aligned(c.e.win) && c0 == if Expired(env, c.e.flow, now) then SkipGap(env, idx, c) else c
    requires CtxOk(idx, c0) && Belongs(d, c0.e.flow) && d.sn < M32 && WindowOk(c0.e)
    requires ClockOpen(c0.e.flow, d.sn, now) && c0.e.flow.lastSeen == now > 0
    ensures var f, r := c0.e.flow, Arrive(env, idx, c, d, now);
            && r.Returns? && GapMoves(f, r.v.e.flow, now)
            && (r.v.e.flow.next == f.next <==> Rests(env, c0, d.sn))
  {
    hide Wire, SlotOf, SeqDelta, HeldCount, SmallestAhead, SkipGap, MakeRoom, Flush, Place, Near, InOrder, Outs,
         LivesOk, HeldCopies, Disposed, Elapsed, GapMoves;
    var f, delta := c0.e.flow, SeqDelta(d.sn, Wire(c0.e.flow.next));
    if delta < 0 {
      StayMoves(f, now);
    } else if delta == 0 {
      EmitMoves(env, idx, c0, d, now);
    } else {
      RoomMoves(env, idx, c0, d.sn);
      MakeRoomReturns(env, idx, c0, d.sn);
      MakeRoomKeeps(env, idx, c0, d.sn, ANY);
      if ClockOk(c0.e.flow) {
        MakeRoomClock(env, idx, c0, d.sn);
      } else {
        NoRoomNeeded(env, idx, c0, d.sn);
      }
      var c1 := MakeRoom(env, idx, c0, d.sn).v;
      if delta < WINDOW {
        NoRoomNeeded(env, idx, c0, d.sn);
      }
      var r := Arrive(env, idx, c, d, now).v.e.flow;
      if SeqDelta(d.sn, Wire(c1.e.flow.next)) == 0 {
        EmitMoves(env, idx, c1, d, now);
      } else {
        PlaceMoves(env, idx, c1, d, now);
      }
      MovesOn(f, c1.e.flow, r, now);
      MovesUp(f, c1.e.flow, now);
      MovesUp(c1.e.flow, r, now);
    }
  }

  lemma StayMoves(f: Flow, now: nat)
    ensures GapMoves(f, f, now)
  {
  }

  lemma MovesUp(f: Flow, r: Flow, now: nat)
    requires GapMoves(f, r, now)
    ensures f.next <= r.next
  {
  }

  /** One arrival, with nothing held behind `next`. `next` never goes back, and it stays where it is exactly
      for a late, repeated or waiting datagram. A gap that has been open for the hold time is given up at
      once, up to the first held datagram at least. As long as the flow waits for the same number its gap clock
      is not touched; a clock that is started or restarted shows the time of the arrival. */
  lemma ArriveMoves(env: Env, idx: nat, c: Ctx, d: Datagram, now: nat)
    requires CtxOk(idx, c) && Belongs(d, c.e.flow) && d.sn < M32 && WindowOk(c.e) && c.total <= env.cap
    requires ClockOpen(c.e.flow, d.sn, now) && c.e.flow.lastSeen == now > 0
    ensures var f, r := c.e.flow, Arrive(env, idx, c, d, now);
            && r.Returns? && GapMoves(f, r.v.e.flow, now)
            && (r.v.e.flow.next == f.next <==> !GapTooOld(env, f, now) && Rests(env, c, d.sn))
            && (GapTooOld(env, f, now) ==> r.v.e.flow.next > f.next + SmallestAhead(c.e.win, Wire(f.next)))
  {
    hide Wire, SlotOf, SeqDelta, HeldCount, SmallestAhead, SkipGap, MakeRoom, Flush, Place, Near, InOrder, Outs,
         LivesOk, HeldCopies, Disposed, Elapsed, GapMoves, Arrive;
    var c0 := if Expired(env, c.e.flow, now) then SkipGap(env, idx, c) else c;
    SkipMoves(env, idx, c);
    SkipGapKeeps(env, idx, c, ANY);
    SkipGapClock(env, idx, c);
    WindowAhead(c.e);
    SkipGapNear(env, idx, c);
    StayMoves(c.e.flow, now);
    ArriveRest(env, idx, c, c0, d, now);
    var r := Arrive(env, idx, c, d, now).v.e.flow;
    MovesOn(c.e.flow, c0.e.flow, r, now);
    MovesUp(c0.e.flow, r, now);
  }

  /* ---- the collector ---- */

  /** In every run, a collector call frees an entry in use if and only if it is one of the sixteen from the cursor
      on, the last submit that arrived at it is more than a minute before, and nothing is left held. */
  lemma FreedIff(env: Env, ops: seq<Op>, now: nat, i: nat)
    requires OpsOk(ops) && Run(env, ops).Returns? && i < FLOW_CAP
    requires TableShape(Run(env, ops).v) && Run(env, ops).v.entries[i].flow.valid
    ensures var w, k := Run(env, ops).v, LastMet(env, ops, i);
            var r := Gc(env, w, now).entries[i].flow;
            && w.cursor < FLOW_CAP && 0 < k && ops[k - 1].OpSubmit?
            && (!r.valid <==> Ahead(w.cursor, i) < 16 && Elapsed(now, ops[k - 1].now) > 60_000_000_000 && r.held == 0)
  {
    hide Run, Stamped, SkipGap, EntryOk, SumHeld, LivesOk, LastMet, Find, GcFrom, Ahead, Elapsed;
    RunBooks(env, ops, ANY);
    var w := Run(env, ops).v;
    RunStamped(env, ops);
    StampedMet(env, ops, w, i);
    GcFromExact(env, w, now, 0, i);
    SkipGapFlow(env, w, i);
  }

  lemma StampedMet(env: Env, ops: seq<Op>, w: Worker, i: nat)
    requires OpsOk(ops) && Stamped(env, ops, w) && i < FLOW_CAP && w.entries[i].flow.valid
    ensures MetBy(env, ops, w, i)
  {
    hide MetBy;
  }

  lemma SkipGapFlow(env: Env, w: Worker, i: nat)
    requires WorkerOk(w) && TableShape(w) && i < FLOW_CAP && w.entries[i].flow.valid
    ensures SameFlow(w.entries[i].flow, SkipGap(env, 0, Ctx(w.entries[i], 0, [])).e.flow)
  {
    hide SkipGap, EntryOk, Outs, LivesOk, HeldCount, HeldCopies, Disposed, SumHeld;
    OpenOk(w, i);
    SkipGapKeeps(env, i, Open(w, i), ANY);
    SkipGapEntry(env, i, Open(w, i), 0, Ctx(w.entries[i], 0, []));
  }
}
