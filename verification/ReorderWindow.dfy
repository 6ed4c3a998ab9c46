/** The window invariant of the reorder buffer, exactly when submit keeps it, and termination of the
    room loop. */
module ReorderWindow {
  import opened Serial
  import opened ReorderModel
  import opened ReorderEntry
  import opened ReorderTable
  import opened ReorderRuns

  /** Every held datagram is between `lo` and `hi` ahead of the next expected one. */
  ghost predicate Near(e: Entry, lo: int, hi: int) {
    forall i :: 0 <= i < |e.win| && e.win[i].Held? ==> lo <= SeqDelta(e.win[i].d.sn, Wire(e.flow.next)) < hi
  }

  ghost predicate WindowOk(e: Entry) {
    Near(e, 1, WINDOW)
  }

  /** The datagram at position `p` is held. */
  predicate HeldAt(e: Entry, p: nat)
    requires |e.win| == WINDOW
  {
    e.win[SlotOf(p)].Held? && e.win[SlotOf(p)].d.sn == Wire(p)
  }

  /* ---- positions and slots ---- */

  lemma SlotsDistinct(p: nat, q: nat)
    requires p < q < p + WINDOW
    ensures SlotOf(p) != SlotOf(q)
  {
  }

  /** In an aligned window the position of a held datagram tells its slot. */
  lemma PositionOf(e: Entry, i: nat) returns (p: nat)
    requires Aligned(e.win) && i < WINDOW && e.win[i].Held?
    requires SeqDelta(e.win[i].d.sn, Wire(e.flow.next)) >= 0
    ensures p == e.flow.next + SeqDelta(e.win[i].d.sn, Wire(e.flow.next))
    ensures SlotOf(p) == i && Wire(p) == e.win[i].d.sn && HeldAt(e, p)
  {
    hide Wire, SlotOf, SeqDelta;
    var sn := e.win[i].d.sn;
    p := e.flow.next + SeqDelta(sn, Wire(e.flow.next));
    SeqDeltaLands(sn, e.flow.next);
    WindowOfWire(p);
  }

  /** A held position in the window is the position of its slot. */
  lemma HeldDelta(e: Entry, p: nat)
    requires |e.win| == WINDOW && HeldAt(e, p) && e.flow.next <= p < e.flow.next + WINDOW
    ensures SeqDelta(e.win[SlotOf(p)].d.sn, Wire(e.flow.next)) == p - e.flow.next
  {
    hide Wire, SlotOf, SeqDelta;
    SeqDeltaExact(p, e.flow.next);
  }

  /* ---- flush ---- */

  lemma EmitSlotNear(env: Env, idx: nat, c: Ctx, hi: int)
    requires Aligned(c.e.win) && NextIsHeld(c.e) && Near(c.e, 0, hi)
    ensures hi >= 1 && Near(EmitSlot(env, idx, c).e, 0, hi - 1)
  {
    hide Wire, SlotOf, SeqDelta;
    var r := EmitSlot(env, idx, c);
    var next := c.e.flow.next;
    forall i | 0 <= i < WINDOW && r.e.win[i].Held?
      ensures 0 <= SeqDelta(r.e.win[i].d.sn, Wire(r.e.flow.next)) < hi - 1
    {
      var sn := c.e.win[i].d.sn;
      assert 0 <= SeqDelta(sn, Wire(next)) < hi;
      if SeqDelta(sn, Wire(next)) == 0 {
        var p := PositionOf(c.e, i);
        assert false;
      }
      SeqDeltaShift(sn, next, 1);
    }
    assert SeqDelta(c.e.win[SlotOf(next)].d.sn, Wire(next)) < hi;
  }

  /** What a flush does to a window whose datagrams are all ahead: it releases exactly the held run
      that starts at `next`, touches nothing else, and leaves the window invariant. */
  lemma {:induction false} FlushExact(env: Env, idx: nat, c: Ctx, hi: int)
    requires Aligned(c.e.win) && Near(c.e, 0, hi) && 0 <= hi <= WINDOW
    ensures var r := Flush(env, idx, c);
            && c.e.flow.next <= r.e.flow.next <= c.e.flow.next + hi
            && Near(r.e, 1, hi - (r.e.flow.next - c.e.flow.next))
            && !HeldAt(r.e, r.e.flow.next)
            && (forall p :: c.e.flow.next <= p < r.e.flow.next ==> HeldAt(c.e, p))
            && (forall p :: r.e.flow.next <= p < c.e.flow.next + WINDOW ==> r.e.win[SlotOf(p)] == c.e.win[SlotOf(p)])
    decreases HeldCount(c.e.win)
  {
    hide Wire, SlotOf, SeqDelta, HeldCount;
    var next := c.e.flow.next;
    var r := Flush(env, idx, c);
    if NextIsHeld(c.e) {
      var m := EmitSlot(env, idx, c);
      EmitSlotNear(env, idx, c, hi);
      HeldCountUpdate(c.e.win, SlotOf(next), Empty);
      FlushExact(env, idx, m, hi - 1);
      forall p | next < p < next + WINDOW ensures c.e.win[SlotOf(p)] == m.e.win[SlotOf(p)] {
        SlotsDistinct(next, p);
      }
      forall p | next <= p < r.e.flow.next ensures HeldAt(c.e, p) {
        assert p > next ==> HeldAt(m.e, p);
      }
    } else {
      forall i | 0 <= i < WINDOW && r.e.win[i].Held?
        ensures 1 <= SeqDelta(r.e.win[i].d.sn, Wire(r.e.flow.next)) < hi
      {
        assert 0 <= SeqDelta(c.e.win[i].d.sn, Wire(next)) < hi;
        if SeqDelta(c.e.win[i].d.sn, Wire(next)) == 0 {
          var p := PositionOf(c.e, i);
          assert false;
        }
      }
    }
  }

  /* ---- skipping a gap ---- */

  lemma JumpNear(e: Entry, d: int, hi: int)
    requires Near(e, 0, hi) && Aligned(e.win) && 0 <= d
    requires forall i :: 0 <= i < WINDOW && e.win[i].Held? ==> d <= SeqDelta(e.win[i].d.sn, Wire(e.flow.next))
    ensures Near(e.(flow := e.flow.(next := e.flow.next + d)), 0, hi - d)
  {
    hide Wire, SlotOf, SeqDelta;
    forall i | 0 <= i < WINDOW && e.win[i].Held?
      ensures 0 <= SeqDelta(e.win[i].d.sn, Wire(e.flow.next + d)) < hi - d
    {
      SeqDeltaShift(e.win[i].d.sn, e.flow.next, d);
    }
  }

  /** Under the window invariant something is ahead exactly when something is held. */
  lemma SmallestAheadNear(e: Entry)
    requires Aligned(e.win) && WindowOk(e)
    ensures HeldCount(e.win) > 0 <==> SmallestAhead(e.win, Wire(e.flow.next)) != NO_DELTA
    ensures HeldCount(e.win) > 0 ==> 1 <= SmallestAhead(e.win, Wire(e.flow.next)) < WINDOW
  {
    hide Wire, SlotOf, SeqDelta, HeldCount, SmallestAhead;
    HeldCountZero(e.win);
    if HeldCount(e.win) > 0 {
      var i :| 0 <= i < WINDOW && !e.win[i].Empty?;
      SmallestAheadBound(e.win, Wire(e.flow.next), i);
    }
    if SmallestAhead(e.win, Wire(e.flow.next)) != NO_DELTA {
      var i := SmallestAheadWitness(e.win, Wire(e.flow.next));
    }
  }

  /** Nothing is held behind `next`, though the number at `next` itself may be. */
  ghost predicate AheadOk(e: Entry) {
    Near(e, 0, WINDOW)
  }

  lemma WindowAhead(e: Entry)
    requires WindowOk(e)
    ensures AheadOk(e)
  {
    hide SeqDelta, Wire;
  }

  lemma SmallestAheadAny(e: Entry)
    requires Aligned(e.win) && AheadOk(e)
    ensures HeldCount(e.win) > 0 <==> SmallestAhead(e.win, Wire(e.flow.next)) != NO_DELTA
    ensures HeldCount(e.win) > 0 ==> 0 <= SmallestAhead(e.win, Wire(e.flow.next)) < WINDOW
  {
    hide Wire, SlotOf, SeqDelta, HeldCount, SmallestAhead;
    HeldCountZero(e.win);
    if HeldCount(e.win) > 0 {
      var i :| 0 <= i < WINDOW && !e.win[i].Empty?;
      SmallestAheadBound(e.win, Wire(e.flow.next), i);
    }
    if SmallestAhead(e.win, Wire(e.flow.next)) != NO_DELTA {
      var i := SmallestAheadWitness(e.win, Wire(e.flow.next));
    }
  }

  /** A gap skip with nothing held behind `next`: it jumps to the smallest held position, releases the held
      run that starts there, stays inside the window, and establishes the invariant. */
  lemma SkipGapExact(env: Env, idx: nat, c: Ctx)
    requires Aligned(c.e.win) && AheadOk(c.e) && HeldCount(c.e.win) > 0
    ensures var r, m := SkipGap(env, idx, c), c.e.flow.next + SmallestAhead(c.e.win, Wire(c.e.flow.next));
            && WindowOk(r.e)
            && m < r.e.flow.next <= c.e.flow.next + WINDOW
            && (forall p :: m <= p < r.e.flow.next ==> HeldAt(c.e, p))
            && !HeldAt(r.e, r.e.flow.next)
            && (forall p :: r.e.flow.next <= p < c.e.flow.next + WINDOW ==> r.e.win[SlotOf(p)] == c.e.win[SlotOf(p)])
            && HeldCount(r.e.win) < HeldCount(c.e.win)
  {
    hide Wire, SlotOf, SeqDelta, HeldCount, SmallestAhead;
    var base := Wire(c.e.flow.next);
    var d := SmallestAhead(c.e.win, base);
    SmallestAheadAny(c.e);
    forall i | 0 <= i < WINDOW && c.e.win[i].Held? ensures d <= SeqDelta(c.e.win[i].d.sn, base) {
      SmallestAheadBound(c.e.win, base, i);
    }
    JumpNear(c.e, d, WINDOW);
    var m := c.(e := c.e.(flow := c.e.flow.(next := c.e.flow.next + d)));
    FlushExact(env, idx, m, WINDOW - d);
    SkipGapReleases(env, idx, c);
    SkipTargetHeld(c);
    assert HeldAt(m.e, m.e.flow.next);
    var f := Flush(env, idx, m);
    forall p | m.e.flow.next <= p < f.e.flow.next ensures HeldAt(c.e, p) {
      assert HeldAt(m.e, p);
    }
  }

  /** An arrival inside the window needs no room. */
  lemma NoRoomNeeded(env: Env, idx: nat, c: Ctx, sn: nat)
    requires Aligned(c.e.win) && SeqDelta(sn, Wire(c.e.flow.next)) < WINDOW
    ensures MakeRoom(env, idx, c, sn) == Returns(c)
  {
  }

  /** The scan of the whole window and the position after the skip, when nothing is held. */
  lemma SkipGapIdle(env: Env, idx: nat, c: Ctx)
    requires Aligned(c.e.win) && HeldCount(c.e.win) == 0
    ensures var r := SkipGap(env, idx, c); r == c.(e := c.e.(flow := c.e.flow.(gapSince := 0))) && WindowOk(r.e)
  {
    hide Wire, SlotOf, SeqDelta, HeldCount, SmallestAhead, Near;
    EmptyWindowOk(c.e);
    EmptyWindowOk(c.e.(flow := c.e.flow.(gapSince := 0)));
    WindowAhead(c.e);
    SmallestAheadAny(c.e);
  }

  lemma SkipGapNear(env: Env, idx: nat, c: Ctx)
    requires Aligned(c.e.win) && AheadOk(c.e)
    ensures WindowOk(SkipGap(env, idx, c).e)
  {
    hide SkipGap, Near;
    if HeldCount(c.e.win) > 0 { SkipGapExact(env, idx, c); } else { SkipGapIdle(env, idx, c); }
  }

  /* ---- the room loop ---- */

  /** Under the window invariant the room loop always exits, never passes the arriving number, and
      leaves it inside the window. The late test behind the loop can therefore never fire. */
  lemma {:induction false} MakeRoomReturns(env: Env, idx: nat, c: Ctx, sn: nat)
    requires Aligned(c.e.win) && WindowOk(c.e) && sn < M32
    requires c.e.flow.held == HeldCount(c.e.win) <= c.total
    requires SeqDelta(sn, Wire(c.e.flow.next)) >= 0
    ensures var r := MakeRoom(env, idx, c, sn);
            r.Returns? && WindowOk(r.v.e) && 0 <= SeqDelta(sn, Wire(r.v.e.flow.next)) < WINDOW
    decreases HeldCount(c.e.win)
  {
    hide Wire, SlotOf, SeqDelta, HeldCount, SmallestAhead, SkipGap;
    var f := c.e.flow;
    var delta := SeqDelta(sn, Wire(f.next));
    if RoomGuard(c, sn) {
      SmallestAheadNear(c.e);
      SkipGapExact(env, idx, c);
      var s := SkipGap(env, idx, c);
      SkipGapHeld(env, idx, c);
      SeqDeltaShift(sn, f.next, s.e.flow.next - f.next);
      MakeRoomReturns(env, idx, s, sn);
    } else if delta >= WINDOW {
      HeldCountZero(c.e.win);
      SeqDeltaShift(sn, f.next, delta - (WINDOW - 1));
    }
  }

  /** The flow's counter follows its window through a skip. */
  lemma SkipGapHeld(env: Env, idx: nat, c: Ctx)
    requires Aligned(c.e.win) && c.e.flow.held == HeldCount(c.e.win) <= c.total
    ensures var r := SkipGap(env, idx, c);
            r.e.flow.held == HeldCount(r.e.win) <= r.total
            && r.total - HeldCount(r.e.win) == c.total - HeldCount(c.e.win)
            && SameFlow(c.e.flow, r.e.flow)
  {
    hide Wire, SlotOf, SeqDelta, HeldCount, SmallestAhead;
    var f := c.e.flow;
    var d := SmallestAhead(c.e.win, Wire(f.next));
    if d != NO_DELTA {
      FlushHeld(env, idx, c.(e := c.e.(flow := f.(next := f.next + d))));
    }
  }

  lemma {:induction false} FlushHeld(env: Env, idx: nat, c: Ctx)
    requires Aligned(c.e.win) && c.e.flow.held == HeldCount(c.e.win) <= c.total
    ensures var r := Flush(env, idx, c);
            r.e.flow.held == HeldCount(r.e.win) <= r.total
            && r.total - HeldCount(r.e.win) == c.total - HeldCount(c.e.win)
            && SameFlow(c.e.flow, r.e.flow)
    decreases HeldCount(c.e.win)
  {
    hide Wire, SlotOf, SeqDelta, HeldCount;
    if NextIsHeld(c.e) {
      HeldCountUpdate(c.e.win, SlotOf(c.e.flow.next), Empty);
      FlushHeld(env, idx, EmitSlot(env, idx, c));
    }
  }

  /* ---- holding a datagram ---- */

  /** Inside the window the slot of an arriving number is free or already holds that very number:
      the overwrite branch is unreachable. */
  lemma SlotFreeOrSame(e: Entry, sn: nat)
    requires Aligned(e.win) && AheadOk(e) && sn < M32
    requires 0 < SeqDelta(sn, Wire(e.flow.next)) < WINDOW
    ensures e.win[SlotOf(sn)].Held? ==> e.win[SlotOf(sn)].d.sn == sn
  {
    hide Wire, SlotOf, SeqDelta;
    var i := SlotOf(sn);
    if e.win[i].Held? {
      var p := PositionOf(e, i);
      var q := e.flow.next + SeqDelta(sn, Wire(e.flow.next));
      SeqDeltaLands(sn, e.flow.next);
      WindowOfWire(q);
      if p < q {
        SlotsDistinct(p, q);
      } else if q < p {
        SlotsDistinct(q, p);
      }
    }
  }

  lemma StoreNear(c: Ctx, d: Datagram, now: nat)
    requires Aligned(c.e.win) && WindowOk(c.e) && d.sn < M32
    requires 0 < SeqDelta(d.sn, Wire(c.e.flow.next)) < WINDOW
    ensures WindowOk(Store(c, d, now).e)
  {
    hide Wire, SlotOf, SeqDelta, HeldCount;
    SlotFreeOrSame(c.e, d.sn);
  }

  /** Storing a datagram that is not ahead of `next` breaks the invariant at once. */
  lemma StoreBreaks(c: Ctx, d: Datagram, now: nat)
    requires Aligned(c.e.win) && d.sn < M32
    requires SeqDelta(d.sn, Wire(c.e.flow.next)) <= 0
    requires c.e.win[SlotOf(d.sn)].Empty?
    ensures !WindowOk(Store(c, d, now).e)
  {
    hide Wire, SlotOf, SeqDelta, HeldCount;
    assert Store(c, d, now).e.win[SlotOf(d.sn)] == Held(d);
  }

  /** A gap skip would overtake the arriving number: everything from the smallest held position up
      to it is held, so the released run reaches it or starts beyond it. */
  ghost predicate Overtaken(e: Entry, sn: nat)
    requires |e.win| == WINDOW
  {
    var lo := e.flow.next + SmallestAhead(e.win, Wire(e.flow.next));
    var hi := e.flow.next + SeqDelta(sn, Wire(e.flow.next));
    forall p :: lo <= p < hi ==> HeldAt(e, p)
  }

  /** The guard under which the held-cap branch stores a datagram behind `next`. */
  ghost predicate CapOvertakes(env: Env, c: Ctx, sn: nat)
    requires |c.e.win| == WINDOW
  {
    c.total >= env.cap && c.e.flow.held > 0 && Overtaken(c.e, sn)
  }

  lemma OvertakenIff(env: Env, idx: nat, c: Ctx, sn: nat)
    requires Aligned(c.e.win) && AheadOk(c.e) && sn < M32 && HeldCount(c.e.win) > 0
    requires 0 < SeqDelta(sn, Wire(c.e.flow.next)) < WINDOW
    ensures var r := SkipGap(env, idx, c);
            var delta := SeqDelta(sn, Wire(r.e.flow.next));
            && delta == SeqDelta(sn, Wire(c.e.flow.next)) - (r.e.flow.next - c.e.flow.next)
            && (Overtaken(c.e, sn) <==> delta <= 0)
            && (delta <= 0 ==> r.e.win[SlotOf(sn)].Empty?)
  {
    hide Wire, SlotOf, SeqDelta, HeldCount, SmallestAhead, SkipGap;
    var r := SkipGap(env, idx, c);
    SkipGapExact(env, idx, c);
    var next, next' := c.e.flow.next, r.e.flow.next;
    SeqDeltaShift(sn, next, next' - next);
    var q := next + SeqDelta(sn, Wire(next));
    if q > next' {
      assert r.e.win[SlotOf(next')] == c.e.win[SlotOf(next')];
      assert !HeldAt(c.e, next');
    } else if r.e.win[SlotOf(sn)].Held? {
      SkipGapAligned(env, idx, c);
      var p := PositionOf(r.e, SlotOf(sn));
      SeqDeltaLands(sn, next);
      WindowOfWire(q);
      SkipGapReach(env, idx, c, SlotOf(sn));
      SlotsDistinct(q, p);
    }
  }

  lemma SkipGapAligned(env: Env, idx: nat, c: Ctx)
    requires Aligned(c.e.win)
    ensures Aligned(SkipGap(env, idx, c).e.win)
  {
  }

  /** What is still held after a skip is still inside the window the skip started from. */
  lemma SkipGapReach(env: Env, idx: nat, c: Ctx, i: nat)
    requires Aligned(c.e.win) && AheadOk(c.e) && HeldCount(c.e.win) > 0 && i < WINDOW
    requires var r := SkipGap(env, idx, c); r.e.win[i].Held?
    ensures var r := SkipGap(env, idx, c);
            r.e.flow.next + SeqDelta(r.e.win[i].d.sn, Wire(r.e.flow.next)) < c.e.flow.next + WINDOW
  {
    hide Wire, SlotOf, SeqDelta, HeldCount, SmallestAhead;
    var base := Wire(c.e.flow.next);
    var d := SmallestAhead(c.e.win, base);
    SmallestAheadAny(c.e);
    forall i | 0 <= i < WINDOW && c.e.win[i].Held? ensures d <= SeqDelta(c.e.win[i].d.sn, base) {
      SmallestAheadBound(c.e.win, base, i);
    }
    JumpNear(c.e, d, WINDOW);
    FlushExact(env, idx, c.(e := c.e.(flow := c.e.flow.(next := c.e.flow.next + d))), WINDOW - d);
  }

  /** Exactly when the last part of submit keeps the window invariant. */
  lemma PlaceKeepsWindowIff(env: Env, idx: nat, c: Ctx, d: Datagram, now: nat)
    requires Aligned(c.e.win) && WindowOk(c.e) && d.sn < M32
    requires c.e.flow.held == HeldCount(c.e.win) <= c.total <= env.cap
    requires 0 < SeqDelta(d.sn, Wire(c.e.flow.next)) < WINDOW
    ensures WindowOk(Place(env, idx, c, d, now).e) <==> !CapOvertakes(env, c, d.sn)
  {
    hide Wire, SlotOf, SeqDelta, HeldCount, SmallestAhead, SkipGap, Overtaken, Near, Store;
    WindowAhead(c.e);
    if c.total < env.cap {
      StoreNear(c, d, now);
    } else {
      var s := SkipGap(env, idx, c);
      SkipGapHeld(env, idx, c);
      SkipGapNear(env, idx, c);
      SkipGapAligned(env, idx, c);
      if HeldCount(c.e.win) == 0 {
        SkipGapIdle(env, idx, c);
      } else {
        SkipGapExact(env, idx, c);
        OvertakenIff(env, idx, c, d.sn);
        if Overtaken(c.e, d.sn) {
          StoreBreaks(s, d, now);
        } else {
          StoreNear(s, d, now);
        }
      }
    }
  }

  /* ---- submit as a whole ---- */

  /** Does this arrival take the held-cap branch with a skip that overtakes it? */
  ghost predicate ArriveOvertakes(env: Env, idx: nat, c: Ctx, d: Datagram, now: nat)
    requires Aligned(c.e.win) && d.sn < M32
  {
    var c0 := if Expired(env, c.e.flow, now) then SkipGap(env, idx, c) else c;
    && SeqDelta(d.sn, Wire(c0.e.flow.next)) > 0
    && var m := MakeRoom(env, idx, c0, d.sn);
    && m.Returns?
    && SeqDelta(d.sn, Wire(m.v.e.flow.next)) > 0
    && CapOvertakes(env, m.v, d.sn)
  }

  /** An arrival under the window invariant always returns, and keeps the invariant exactly when the
      held-cap branch does not skip past it. */
  lemma ArriveWindowIff(env: Env, idx: nat, c: Ctx, d: Datagram, now: nat)
    requires CtxOk(idx, c) && Belongs(d, c.e.flow) && d.sn < M32 && WindowOk(c.e) && c.total <= env.cap
    ensures var r := Arrive(env, idx, c, d, now);
            r.Returns? && (WindowOk(r.v.e) <==> !ArriveOvertakes(env, idx, c, d, now))
  {
    hide Wire, SlotOf, SeqDelta, HeldCount, SmallestAhead, SkipGap, MakeRoom, Flush, Place, CapOvertakes, Near, InOrder,
         Outs, LivesOk, HeldCopies, Disposed;
    var c0 := if Expired(env, c.e.flow, now) then SkipGap(env, idx, c) else c;
    SkipGapKeeps(env, idx, c, ANY);
    WindowAhead(c.e);
    SkipGapNear(env, idx, c);
    if SeqDelta(d.sn, Wire(c0.e.flow.next)) == 0 {
      EmitNewNear(env, idx, c0, d);
    } else if SeqDelta(d.sn, Wire(c0.e.flow.next)) > 0 {
      MakeRoomReturns(env, idx, c0, d.sn);
      MakeRoomKeeps(env, idx, c0, d.sn, ANY);
      var c1 := MakeRoom(env, idx, c0, d.sn).v;
      if SeqDelta(d.sn, Wire(c1.e.flow.next)) == 0 {
        EmitNewNear(env, idx, c1, d);
      } else {
        PlaceKeepsWindowIff(env, idx, c1, d, now);
      }
    }
  }

  lemma EmitNewNear(env: Env, idx: nat, c: Ctx, d: Datagram)
    requires Aligned(c.e.win) && WindowOk(c.e)
    ensures WindowOk(Flush(env, idx, EmitNew(env, idx, c, d)).e)
  {
    hide Wire, SlotOf, SeqDelta, HeldCount, Flush;
    JumpNear(c.e, 1, WINDOW);
    FlushExact(env, idx, EmitNew(env, idx, c, d), WINDOW - 1);
  }

  /** The window invariant of the whole table. */
  ghost predicate WindowsOk(w: Worker) {
    forall i :: 0 <= i < |w.entries| ==> WindowOk(w.entries[i])
  }

  ghost predicate SubmitOvertakes(env: Env, w: Worker, d: Datagram, now: nat)
    requires TableShape(w) && d.sn < M32
  {
    env.enabled &&
    var idx := Find(env, w, d.key).idx;
    ArriveOvertakes(env, idx, Open(Lookup(env, w, d, now), idx), d, now)
  }

  lemma EmptyWindowOk(e: Entry)
    requires HeldCount(e.win) == 0
    ensures WindowOk(e)
  {
    hide Wire, SeqDelta, HeldCount;
    HeldCountZero(e.win);
  }

  lemma ResetEntryWindows(w: Worker, idx: nat, d: Datagram, now: nat)
    requires WorkerOk(w) && TableShape(w) && WindowsOk(w) && idx < FLOW_CAP
    ensures WindowsOk(ResetEntry(w, idx, d, now))
  {
    hide Near, EntryOk, SumHeld, HeldCount, Outs, LivesOk, DropFrom;
    ResetEntryKeeps(w, idx, d, now, ANY);
    EmptyWindowOk(ResetEntry(w, idx, d, now).entries[idx]);
  }

  lemma LookupWindows(env: Env, w: Worker, d: Datagram, now: nat)
    requires WorkerOk(w) && TableShape(w) && WindowsOk(w)
    ensures WindowsOk(Lookup(env, w, d, now))
  {
    hide EntryOk, SumHeld, HeldCount, Outs, LivesOk, ResetEntry, SeqDelta, Wire, SetBase, Scan;
    var i := Find(env, w, d.key).idx;
    ResetEntryWindows(w, i, d, now);
    ResetEntryKeeps(w, i, d, now, ANY);
  }

  /** Main window theorem for one call, for every reachable worker: submit returns, and the invariant
      survives if and only if the held-cap branch does not skip past the arriving datagram. */
  lemma SubmitWindowIff(env: Env, w: Worker, d: Datagram, now: nat)
    requires WorkerOk(w) && TableShape(w) && WindowsOk(w) && d.sn < M32 && w.total <= env.cap
    ensures var r := Submit(env, w, d, now);
            r.Returns? && (WindowsOk(r.v) <==> !SubmitOvertakes(env, w, d, now))
  {
    hide EntryOk, SumHeld, HeldCount, Outs, LivesOk, Near, Find, Lookup, Arrive, ArriveOvertakes, CtxOk;
    if env.enabled {
      var idx := Find(env, w, d.key).idx;
      var m := Lookup(env, w, d, now);
      LookupKeeps(env, w, d, now, ANY);
      LookupWindows(env, w, d, now);
      OpenOk(m, idx);
      ArriveWindowIff(env, idx, Open(m, idx), d, now);
      var c := Arrive(env, idx, Open(m, idx), d, now).v;
      assert Close(m, idx, c).entries[idx] == c.e;
    }
  }

  lemma GcVisitWindows(env: Env, w: Worker, idx: nat, now: nat)
    requires WorkerOk(w) && TableShape(w) && WindowsOk(w) && idx < FLOW_CAP
    ensures WindowsOk(GcVisit(env, w, idx, now))
  {
    hide SumHeld, HeldCount, Outs, LivesOk, SkipGap, SeqDelta, Wire, InOrder;
    var c := Open(w, idx);
    if c.e.flow.valid {
      OpenOk(w, idx);
      SkipGapKeeps(env, idx, c, ANY);
      SkipGapNear(env, idx, c);
      var m := if Expired(env, c.e.flow, now) then SkipGap(env, idx, c) else c;
      if m.e.flow.held == 0 {
        EmptyWindowOk(m.e.(flow := FREE));
      }
    }
  }

  lemma {:induction false} GcFromWindows(env: Env, w: Worker, now: nat, n: nat)
    requires WorkerOk(w) && TableShape(w) && WindowsOk(w) && n <= GC_SLICE
    ensures WindowsOk(GcFrom(env, w, now, n))
    decreases GC_SLICE - n
  {
    hide WorkerOk, WindowsOk, GcVisit;
    if n < GC_SLICE {
      var i := (w.cursor + n) % FLOW_CAP;
      GcVisitWindows(env, w, i, now);
      GcVisitKeeps(env, w, i, now, ANY);
      GcFromWindows(env, GcVisit(env, w, i, now), now, n + 1);
    }
  }

  /** No call of the run takes the held-cap branch with an overtaking skip. */
  ghost predicate NeverOvertakes(env: Env, ops: seq<Op>)
    requires OpsOk(ops)
  {
    |ops| == 0 ||
    var init, op := ops[..|ops| - 1], ops[|ops| - 1];
    NeverOvertakes(env, init) &&
    var p := Run(env, init);
    p.Returns? && op.OpSubmit? ==> !SubmitOvertakes(env, p.v, op.d, op.now)
  }

  /** Main window theorem for runs: without an overtaking held-cap skip every call returns and the
      window invariant holds throughout. */
  lemma {:induction false} RunWindows(env: Env, ops: seq<Op>)
    requires OpsOk(ops) && NeverOvertakes(env, ops)
    ensures Run(env, ops).Returns? && WindowsOk(Run(env, ops).v)
  {
    hide WorkerOk, WindowsOk, SubmitOvertakes, Submit, Gc, ResetWorker;
    var x := ANY;
    if |ops| == 0 {
      StartWindows();
    } else {
      var init, op := ops[..|ops| - 1], ops[|ops| - 1];
      RunWindows(env, init);
      RunBooks(env, init, x);
      var w := Run(env, init).v;
      match op
      case OpSubmit(d, now) => SubmitWindowIff(env, w, d, now);
      case OpGc(now) => GcWindows(env, w, now);
      case OpReset => ResetWorkerWindows(w);
    }
  }

  lemma StartWindows()
    ensures WindowsOk(Start())
  {
  }

  lemma GcWindows(env: Env, w: Worker, now: nat)
    requires WorkerOk(w) && TableShape(w) && WindowsOk(w)
    ensures WindowsOk(Gc(env, w, now))
  {
    hide WorkerOk, WindowOk, GcFrom;
    GcFromWindows(env, w, now, 0);
  }

  lemma ResetWorkerWindows(w: Worker)
    requires WorkerOk(w) && TableShape(w)
    ensures WindowsOk(ResetWorker(w))
  {
    hide WorkerOk, WindowOk, ResetWorker, HeldCount;
    ResetWorkerKeeps(w, ANY);
    var r := ResetWorker(w);
    forall i | 0 <= i < FLOW_CAP ensures WindowOk(r.entries[i]) {
      EmptyWindowOk(r.entries[i]);
    }
  }
}
