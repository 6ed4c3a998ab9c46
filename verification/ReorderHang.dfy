/** When the room loop of submit never exits. The window invariant rules it out; a held-cap skip that
    overtakes the arriving datagram makes it possible. */
module ReorderHang {
  import opened Serial
  import opened ReorderModel
  import opened ReorderEntry
  import opened ReorderTable
  import opened ReorderWindow

  function Skips(env: Env, idx: nat, c: Ctx, n: nat): (r: Ctx)
    requires Aligned(c.e.win)
    ensures Aligned(r.e.win)
  {
    if n == 0 then c else SkipGap(env, idx, Skips(env, idx, c, n - 1))
  }

  /** `Hangs` is meant literally: once the guard holds and nothing held is ahead, the guard holds
      after every number of iterations. */
  lemma {:induction false} RoomLoopForever(env: Env, idx: nat, c: Ctx, sn: nat, n: nat)
    requires Aligned(c.e.win) && RoomGuard(c, sn)
    requires SmallestAhead(c.e.win, Wire(c.e.flow.next)) == NO_DELTA
    ensures var r := Skips(env, idx, c, n);
            RoomGuard(r, sn) && r.e.win == c.e.win && r.e.flow.next == c.e.flow.next
            && r.e.flow.held == c.e.flow.held && r.trace == c.trace
  {
    hide Wire, SlotOf, SeqDelta, SmallestAhead;
    if n > 0 {
      RoomLoopForever(env, idx, c, sn, n - 1);
    }
  }

  /** A stale datagram is held and the arrival is a full window beyond `next` and more than a window
      beyond everything held ahead. */
  ghost predicate Stranded(e: Entry, sn: nat) {
    var base := Wire(e.flow.next);
    && SeqDelta(sn, base) >= WINDOW
    && (exists i :: 0 <= i < |e.win| && e.win[i].Held? && SeqDelta(e.win[i].d.sn, base) < 0)
    && (forall i :: 0 <= i < |e.win| && e.win[i].Held? && SeqDelta(e.win[i].d.sn, base) >= 0
          ==> SeqDelta(sn, base) - SeqDelta(e.win[i].d.sn, base) > WINDOW)
  }

  /** The window with the datagrams less than `k` ahead taken out. */
  ghost predicate Released(e: Entry, win: seq<Slot>, k: int) {
    && |win| == |e.win|
    && forall i :: 0 <= i < |win| ==>
         win[i] == if e.win[i].Held? && 0 <= SeqDelta(e.win[i].d.sn, Wire(e.flow.next)) < k then Empty else e.win[i]
  }

  lemma {:induction false} FlushReleases(env: Env, idx: nat, c: Ctx, hi: int)
    requires Aligned(c.e.win) && Near(c.e, hi - HALF, hi) && 0 <= hi <= WINDOW
    ensures var r := Flush(env, idx, c);
            var k := r.e.flow.next - c.e.flow.next;
            && 0 <= k <= hi && Released(c.e, r.e.win, k)
            && (NextIsHeld(c.e) ==> k >= 1)
            && (k >= 1 ==> HeldAt(c.e, r.e.flow.next - 1))
    decreases HeldCount(c.e.win)
  {
    hide Wire, SlotOf, SeqDelta, HeldCount;
    var next := c.e.flow.next;
    if NextIsHeld(c.e) {
      var m := EmitSlot(env, idx, c);
      SeqDeltaExact(next, next);
      HeldCountUpdate(c.e.win, SlotOf(next), Empty);
      EmitSlotFar(env, idx, c, hi);
      FlushReleases(env, idx, m, hi - 1);
      var r := Flush(env, idx, c);
      var k := r.e.flow.next - next;
      forall i | 0 <= i < WINDOW
        ensures r.e.win[i] == if c.e.win[i].Held? && 0 <= SeqDelta(c.e.win[i].d.sn, Wire(next)) < k then Empty
                              else c.e.win[i]
      {
        if i != SlotOf(next) && c.e.win[i].Held? {
          assert m.e.win[i] == c.e.win[i];
          SeqDeltaShift(c.e.win[i].d.sn, next, 1);
          if SeqDelta(c.e.win[i].d.sn, Wire(next)) == 0 {
            var p := PositionOf(c.e, i);
          }
        }
      }
      if k >= 2 {
        SlotsDistinct(next, r.e.flow.next - 1);
      }
    }
  }

  lemma EmitSlotFar(env: Env, idx: nat, c: Ctx, hi: int)
    requires Aligned(c.e.win) && NextIsHeld(c.e) && Near(c.e, hi - HALF, hi) && hi <= WINDOW
    ensures hi >= 1 && Near(EmitSlot(env, idx, c).e, hi - 1 - HALF, hi - 1)
  {
    hide Wire, SlotOf, SeqDelta;
    var next := c.e.flow.next;
    SeqDeltaExact(next, next);
    assert SeqDelta(c.e.win[SlotOf(next)].d.sn, Wire(next)) < hi;
    var r := EmitSlot(env, idx, c);
    forall i | 0 <= i < WINDOW && r.e.win[i].Held?
      ensures hi - 1 - HALF <= SeqDelta(r.e.win[i].d.sn, Wire(next + 1)) < hi - 1
    {
      assert c.e.win[i] == r.e.win[i];
      SeqDeltaShift(c.e.win[i].d.sn, next, 1);
    }
  }

  lemma SkipReleases(env: Env, idx: nat, c: Ctx, hi: int)
    requires Aligned(c.e.win) && Near(c.e, hi - HALF, hi) && 0 <= hi <= WINDOW
    requires SmallestAhead(c.e.win, Wire(c.e.flow.next)) != NO_DELTA
    ensures var r := SkipGap(env, idx, c);
            var k := r.e.flow.next - c.e.flow.next;
            && 1 <= k <= hi && Released(c.e, r.e.win, k) && HeldAt(c.e, r.e.flow.next - 1)
  {
    hide Wire, SlotOf, SeqDelta, HeldCount, SmallestAhead;
    var next := c.e.flow.next;
    var d := SmallestAhead(c.e.win, Wire(next));
    var i0 := SmallestAheadWitness(c.e.win, Wire(next));
    var m := c.(e := c.e.(flow := c.e.flow.(next := next + d)));
    forall i | 0 <= i < WINDOW && c.e.win[i].Held?
      ensures SeqDelta(c.e.win[i].d.sn, Wire(next + d)) == SeqDelta(c.e.win[i].d.sn, Wire(next)) - d
    {
      SeqDeltaShift(c.e.win[i].d.sn, next, d);
    }
    SkipTargetHeld(c);
    FlushReleases(env, idx, m, hi - d);
    var r := SkipGap(env, idx, c);
    forall i | 0 <= i < WINDOW && c.e.win[i].Held? && 0 <= SeqDelta(c.e.win[i].d.sn, Wire(next))
      ensures d <= SeqDelta(c.e.win[i].d.sn, Wire(next))
    {
      SmallestAheadBound(c.e.win, Wire(next), i);
    }
    assert HeldAt(m.e, r.e.flow.next - 1);
  }

  /** A skip does not change whether the arrival is stranded. */
  lemma SkipStranded(env: Env, idx: nat, c: Ctx, sn: nat, hi: int)
    requires Aligned(c.e.win) && Near(c.e, hi - HALF, hi) && 0 <= hi <= WINDOW && sn < M32
    requires SmallestAhead(c.e.win, Wire(c.e.flow.next)) != NO_DELTA
    requires SeqDelta(sn, Wire(c.e.flow.next)) >= WINDOW
    ensures var s := SkipGap(env, idx, c);
            var k := s.e.flow.next - c.e.flow.next;
            && 1 <= k <= hi && Near(s.e, hi - k - HALF, hi - k)
            && (Stranded(s.e, sn) <==> Stranded(c.e, sn))
  {
    hide Wire, SlotOf, SeqDelta, HeldCount, SmallestAhead, SkipGap;
    var s := SkipGap(env, idx, c);
    SkipReleases(env, idx, c, hi);
    var next, k := c.e.flow.next, s.e.flow.next - c.e.flow.next;
    SeqDeltaShift(sn, next, k);
    forall i | 0 <= i < WINDOW && c.e.win[i].Held?
      ensures SeqDelta(c.e.win[i].d.sn, Wire(next + k)) == SeqDelta(c.e.win[i].d.sn, Wire(next)) - k
    {
      SeqDeltaShift(c.e.win[i].d.sn, next, k);
    }
    HeldDelta(c.e, next + k - 1);
    StrandedAfter(c.e, s.e, sn, k);
  }

  lemma StrandedAfter(e: Entry, s: Entry, sn: nat, k: int)
    requires |e.win| == WINDOW && 1 <= k && Released(e, s.win, k) && s.flow.next == e.flow.next + k
    requires SeqDelta(sn, Wire(s.flow.next)) == SeqDelta(sn, Wire(e.flow.next)) - k
    requires forall i :: 0 <= i < WINDOW && e.win[i].Held? ==>
               SeqDelta(e.win[i].d.sn, Wire(s.flow.next)) == SeqDelta(e.win[i].d.sn, Wire(e.flow.next)) - k
    requires exists i :: 0 <= i < WINDOW && e.win[i].Held? && SeqDelta(e.win[i].d.sn, Wire(e.flow.next)) == k - 1
    requires SeqDelta(sn, Wire(e.flow.next)) >= WINDOW
    ensures Stranded(s, sn) <==> Stranded(e, sn)
  {
    hide Wire, SlotOf, SeqDelta, HeldCount, SmallestAhead, SkipGap;
    if Stranded(e, sn) {
      var i :| 0 <= i < WINDOW && e.win[i].Held? && SeqDelta(e.win[i].d.sn, Wire(e.flow.next)) < 0;
      assert s.win[i] == e.win[i];
    }
    if Stranded(s, sn) {
      var i :| 0 <= i < WINDOW && s.win[i].Held? && SeqDelta(s.win[i].d.sn, Wire(s.flow.next)) < 0;
      assert s.win[i] == e.win[i];
      forall j | 0 <= j < WINDOW && e.win[j].Held? && SeqDelta(e.win[j].d.sn, Wire(e.flow.next)) >= 0
        ensures SeqDelta(sn, Wire(e.flow.next)) - SeqDelta(e.win[j].d.sn, Wire(e.flow.next)) > WINDOW
      {
        if SeqDelta(e.win[j].d.sn, Wire(e.flow.next)) >= k {
          assert s.win[j] == e.win[j];
        }
      }
    }
  }

  /** Exactly when the room loop never exits: the arrival is stranded. It holds for every entry whose
      held datagrams are within half the number space of `next`, window invariant or not. */
  lemma {:induction false} MakeRoomHangsIff(env: Env, idx: nat, c: Ctx, sn: nat, hi: int)
    requires Aligned(c.e.win) && Near(c.e, hi - HALF, hi) && 0 <= hi <= WINDOW && sn < M32
    requires c.e.flow.held == HeldCount(c.e.win) <= c.total
    ensures MakeRoom(env, idx, c, sn).Hangs? <==> Stranded(c.e, sn)
    decreases HeldCount(c.e.win)
  {
    hide Wire, SlotOf, SeqDelta, HeldCount, SmallestAhead, SkipGap;
    var base := Wire(c.e.flow.next);
    HeldCountZero(c.e.win);
    if RoomGuard(c, sn) {
      if SmallestAhead(c.e.win, base) == NO_DELTA {
        var i :| 0 <= i < WINDOW && !c.e.win[i].Empty?;
        forall j | 0 <= j < WINDOW && c.e.win[j].Held? ensures SeqDelta(c.e.win[j].d.sn, base) < 0 {
          if SeqDelta(c.e.win[j].d.sn, base) >= 0 {
            SmallestAheadBound(c.e.win, base, j);
          }
        }
        assert Stranded(c.e, sn);
      } else {
        SkipStranded(env, idx, c, sn, hi);
        SkipGapHeld(env, idx, c);
        SkipGapReleases(env, idx, c);
        var s := SkipGap(env, idx, c);
        MakeRoomHangsIff(env, idx, s, sn, hi - (s.e.flow.next - c.e.flow.next));
      }
    }
  }

  /* ---- which stores make a hang possible ---- */

  /** A gap skip would go beyond the arriving number: everything from the smallest held position up to
      and including it is held. It is so when the arrival is behind everything held, or held already. */
  ghost predicate Passed(e: Entry, sn: nat)
    requires |e.win| == WINDOW
  {
    var lo := e.flow.next + SmallestAhead(e.win, Wire(e.flow.next));
    var hi := e.flow.next + SeqDelta(sn, Wire(e.flow.next));
    forall p :: lo <= p <= hi ==> HeldAt(e, p)
  }

  lemma PassedIff(env: Env, idx: nat, c: Ctx, sn: nat)
    requires Aligned(c.e.win) && AheadOk(c.e) && sn < M32 && HeldCount(c.e.win) > 0
    requires 0 < SeqDelta(sn, Wire(c.e.flow.next)) < WINDOW
    ensures Passed(c.e, sn) <==> SeqDelta(sn, Wire(SkipGap(env, idx, c).e.flow.next)) < 0
  {
    hide Wire, SlotOf, SeqDelta, HeldCount, SmallestAhead, SkipGap;
    SkipGapExact(env, idx, c);
    OvertakenIff(env, idx, c, sn);
    var r := SkipGap(env, idx, c);
    var next := r.e.flow.next;
    assert SeqDelta(sn, Wire(next)) >= 0 ==> !HeldAt(c.e, next);
  }

  /** The counter of the flow follows its window through the store. */
  lemma PlaceHeld(env: Env, idx: nat, c: Ctx, d: Datagram, now: nat)
    requires Aligned(c.e.win) && d.sn < M32 && c.e.flow.held == HeldCount(c.e.win) <= c.total
    ensures var r := Place(env, idx, c, d, now); r.e.flow.held == HeldCount(r.e.win) <= r.total
  {
    hide Wire, SlotOf, HeldCount, SkipGap;
    SkipGapHeld(env, idx, c);
    var s := SkipGap(env, idx, c);
    HeldCountUpdate(c.e.win, SlotOf(d.sn), Held(d));
    HeldCountUpdate(s.e.win, SlotOf(d.sn), Held(d));
  }

  /** At the held cap with something held in this flow, the store is preceded by a skip. */
  lemma PlaceAtCap(env: Env, idx: nat, c: Ctx, d: Datagram, now: nat)
    requires Aligned(c.e.win) && AheadOk(c.e) && d.sn < M32
    requires c.e.flow.held == HeldCount(c.e.win) <= c.total == env.cap && c.e.flow.held > 0
    ensures Place(env, idx, c, d, now) == Store(SkipGap(env, idx, c), d, now)
  {
    hide Wire, SlotOf, SeqDelta, HeldCount, SmallestAhead, SkipGap, Store;
    SkipGapExact(env, idx, c);
    SkipGapHeld(env, idx, c);
  }

  lemma StoreAhead(c: Ctx, d: Datagram, now: nat)
    requires Aligned(c.e.win) && AheadOk(c.e) && d.sn < M32
    requires 0 < SeqDelta(d.sn, Wire(c.e.flow.next)) < WINDOW
    ensures AheadOk(Store(c, d, now).e)
  {
    hide Wire, SlotOf, SeqDelta, HeldCount;
    SlotFreeOrSame(c.e, d.sn);
  }

  /** A store that the skip did not pass leaves nothing behind `next`. */
  lemma PlaceAhead(env: Env, idx: nat, c: Ctx, d: Datagram, now: nat)
    requires Aligned(c.e.win) && AheadOk(c.e) && d.sn < M32
    requires c.e.flow.held == HeldCount(c.e.win) <= c.total <= env.cap
    requires 0 < SeqDelta(d.sn, Wire(c.e.flow.next)) < WINDOW
    requires !(c.total >= env.cap && c.e.flow.held > 0 && Passed(c.e, d.sn))
    ensures AheadOk(Place(env, idx, c, d, now).e)
  {
    hide Wire, SlotOf, SeqDelta, HeldCount, SmallestAhead, SkipGap, Passed;
    if c.total >= env.cap && c.e.flow.held > 0 {
      PlaceAtCap(env, idx, c, d, now);
      PassedIff(env, idx, c, d.sn);
      OvertakenIff(env, idx, c, d.sn);
      SkipGapExact(env, idx, c);
    } else if c.total >= env.cap {
      SkipGapIdle(env, idx, c);
    } else {
      StoreAhead(c, d, now);
    }
  }

  /** A store that the skip has passed is held behind `next`, alone, and next to it only what is ahead. */
  lemma PlaceBehind(env: Env, idx: nat, c: Ctx, d: Datagram, now: nat)
    requires Aligned(c.e.win) && AheadOk(c.e) && d.sn < M32
    requires c.e.flow.held == HeldCount(c.e.win) <= c.total == env.cap && c.e.flow.held > 0
    requires 0 < SeqDelta(d.sn, Wire(c.e.flow.next)) < WINDOW && Passed(c.e, d.sn)
    ensures var r := Place(env, idx, c, d, now);
            && Near(r.e, -(WINDOW as int), WINDOW) && r.e.win[SlotOf(d.sn)] == Held(d)
            && SeqDelta(d.sn, Wire(r.e.flow.next)) < 0
  {
    hide Wire, SlotOf, SeqDelta, HeldCount, SmallestAhead, SkipGap, Passed;
    PlaceAtCap(env, idx, c, d, now);
    PassedIff(env, idx, c, d.sn);
    OvertakenIff(env, idx, c, d.sn);
    SkipGapExact(env, idx, c);
  }

  /** The number furthest ahead of a position. */
  function Furthest(next: nat): (sn: nat)
    ensures sn < M32
  {
    Wire(next + HALF - 1)
  }

  lemma FurthestStrands(e: Entry, i: nat)
    requires |e.win| == WINDOW && Near(e, -(WINDOW as int), WINDOW)
    requires i < WINDOW && e.win[i].Held? && SeqDelta(e.win[i].d.sn, Wire(e.flow.next)) < 0
    ensures SeqDelta(Furthest(e.flow.next), Wire(e.flow.next)) >= WINDOW && Stranded(e, Furthest(e.flow.next))
  {
    hide Wire, SeqDelta;
    SeqDeltaExact(e.flow.next + HALF - 1, e.flow.next);
  }

  lemma AheadNotStranded(e: Entry, sn: nat)
    requires AheadOk(e)
    ensures !Stranded(e, sn)
  {
    hide Wire, SeqDelta;
  }

  /** Exactly when storing a datagram makes it possible that the next one hangs the room loop: the worker is at
      its cap, the flow holds something, and the skip passes the arrival. A skip that lands exactly on the
      arrival leaves it at `next`, where it strands nothing yet. */
  lemma HangPossibleIff(env: Env, idx: nat, c: Ctx, d: Datagram, now: nat)
    requires Aligned(c.e.win) && AheadOk(c.e) && d.sn < M32
    requires c.e.flow.held == HeldCount(c.e.win) <= c.total <= env.cap
    requires 0 < SeqDelta(d.sn, Wire(c.e.flow.next)) < WINDOW
    ensures (exists later: nat :: later < M32 && MakeRoom(env, idx, Place(env, idx, c, d, now), later).Hangs?)
            <==> c.total >= env.cap && c.e.flow.held > 0 && Passed(c.e, d.sn)
  {
    hide Wire, SlotOf, SeqDelta, HeldCount, Passed, Place, MakeRoom, Stranded;
    var r := Place(env, idx, c, d, now);
    PlaceHeld(env, idx, c, d, now);
    if c.total >= env.cap && c.e.flow.held > 0 && Passed(c.e, d.sn) {
      PlaceBehind(env, idx, c, d, now);
      FurthestStrands(r.e, SlotOf(d.sn));
      MakeRoomHangsIff(env, idx, r, Furthest(r.e.flow.next), WINDOW);
    } else {
      PlaceAhead(env, idx, c, d, now);
      forall later: nat | later < M32 ensures !MakeRoom(env, idx, r, later).Hangs? {
        MakeRoomHangsIff(env, idx, r, later, WINDOW);
        AheadNotStranded(r.e, later);
      }
    }
  }

  /* ---- arrivals ---- */

  /** The entry as an arrival meets it, after an expired gap was skipped. */
  function Settled(env: Env, idx: nat, c: Ctx, now: nat): (r: Ctx)
    requires Aligned(c.e.win)
    ensures Aligned(r.e.win)
  {
    if Expired(env, c.e.flow, now) then SkipGap(env, idx, c) else c
  }

  lemma SkipFar(env: Env, idx: nat, c: Ctx, hi: int)
    requires Aligned(c.e.win) && Near(c.e, hi - HALF, hi) && 0 <= hi <= WINDOW
    requires SmallestAhead(c.e.win, Wire(c.e.flow.next)) != NO_DELTA
    ensures var s := SkipGap(env, idx, c);
            var k := s.e.flow.next - c.e.flow.next;
            1 <= k <= hi && Near(s.e, hi - k - HALF, hi - k)
  {
    hide Wire, SlotOf, SeqDelta, HeldCount, SmallestAhead, SkipGap;
    SkipReleases(env, idx, c, hi);
    var s := SkipGap(env, idx, c);
    var next, k := c.e.flow.next, s.e.flow.next - c.e.flow.next;
    forall i | 0 <= i < WINDOW && s.e.win[i].Held?
      ensures hi - k - HALF <= SeqDelta(s.e.win[i].d.sn, Wire(next + k)) < hi - k
    {
      assert s.e.win[i] == c.e.win[i];
      SeqDeltaShift(c.e.win[i].d.sn, next, k);
    }
  }

  /** Settling keeps the range and the counters. */
  lemma SettledFar(env: Env, idx: nat, c: Ctx, now: nat) returns (hi: int)
    requires Aligned(c.e.win) && Near(c.e, WINDOW - HALF, WINDOW) && c.e.flow.held == HeldCount(c.e.win) <= c.total
    ensures var s := Settled(env, idx, c, now);
            0 <= hi <= WINDOW && Near(s.e, hi - HALF, hi) && s.e.flow.held == HeldCount(s.e.win) <= s.total
  {
    hide Wire, SlotOf, SeqDelta, HeldCount, SmallestAhead, Elapsed;
    hi := WINDOW;
    if Expired(env, c.e.flow, now) {
      SkipGapHeld(env, idx, c);
      if SmallestAhead(c.e.win, Wire(c.e.flow.next)) != NO_DELTA {
        SkipFar(env, idx, c, WINDOW);
        hi := WINDOW - (SkipGap(env, idx, c).e.flow.next - c.e.flow.next);
      }
    }
  }

  lemma CtxHeld(idx: nat, c: Ctx)
    requires CtxOk(idx, c)
    ensures Aligned(c.e.win) && c.e.flow.held == HeldCount(c.e.win) <= c.total
  {
  }

  /** Exactly when an arrival never gets through: it is stranded in the entry it meets. */
  lemma ArriveHangsIff(env: Env, idx: nat, c: Ctx, d: Datagram, now: nat)
    requires Aligned(c.e.win) && Near(c.e, WINDOW - HALF, WINDOW) && c.e.flow.held == HeldCount(c.e.win) <= c.total
    requires d.sn < M32
    ensures Arrive(env, idx, c, d, now).Hangs? <==> Stranded(Settled(env, idx, c, now).e, d.sn)
  {
    hide Wire, SlotOf, SeqDelta, HeldCount, SkipGap, MakeRoom, Flush, Place, Elapsed;
    var hi := SettledFar(env, idx, c, now);
    MakeRoomHangsIff(env, idx, Settled(env, idx, c, now), d.sn, hi);
  }

  /** For an arrival that is not late, settling makes no difference: the condition can be read off the
      entry as it is. */
  lemma SettledStranded(env: Env, idx: nat, c: Ctx, now: nat, sn: nat)
    requires Aligned(c.e.win) && Near(c.e, WINDOW - HALF, WINDOW) && sn < M32
    requires SeqDelta(sn, Wire(c.e.flow.next)) >= 0
    ensures Stranded(Settled(env, idx, c, now).e, sn) <==> Stranded(c.e, sn)
  {
    hide Wire, SlotOf, SeqDelta, HeldCount, SmallestAhead, Elapsed;
    var next := c.e.flow.next;
    if Expired(env, c.e.flow, now) && SmallestAhead(c.e.win, Wire(next)) != NO_DELTA {
      if SeqDelta(sn, Wire(next)) >= WINDOW {
        SkipStranded(env, idx, c, sn, WINDOW);
      } else {
        SkipFar(env, idx, c, WINDOW);
        SeqDeltaShift(sn, next, SkipGap(env, idx, c).e.flow.next - next);
      }
    }
  }

  /* ---- from the empty window to the hang ---- */

  /** The simplest case: at the held cap, a datagram that arrives behind the only held one of its flow is
      stored behind `next`, and from then on every arrival a full window ahead makes the room loop run
      forever. */
  lemma LoneStrands(env: Env, idx: nat, c: Ctx, d: Datagram, now: nat, later: nat)
    requires Aligned(c.e.win) && WindowOk(c.e) && d.sn < M32 && later < M32
    requires c.e.flow.held == HeldCount(c.e.win) == 1 <= c.total == env.cap
    requires 0 < SeqDelta(d.sn, Wire(c.e.flow.next)) <= SmallestAhead(c.e.win, Wire(c.e.flow.next))
    ensures var r := Place(env, idx, c, d, now);
            && r.e.flow == c.e.flow.(next := c.e.flow.next + SmallestAhead(c.e.win, Wire(c.e.flow.next)) + 1,
                                     gapSince := now)
            && r.e.flow.held == HeldCount(r.e.win) <= r.total
            && Near(r.e, -HALF, 0)
            && (SeqDelta(later, Wire(r.e.flow.next)) >= WINDOW ==>
                  Stranded(r.e, later) && MakeRoom(env, idx, r, later).Hangs?)
  {
    hide Wire, SlotOf, SeqDelta, HeldCount, SmallestAhead, SkipGap, MakeRoom;
    var s := SkipGap(env, idx, c);
    SmallestAheadNear(c.e);
    SkipGapExact(env, idx, c);
    SkipGapHeld(env, idx, c);
    SkipGapLone(env, idx, c);
    OvertakenIff(env, idx, c, d.sn);
    HeldCountZero(s.e.win);
    var r := Store(s, d, now);
    HeldCountUpdate(s.e.win, SlotOf(d.sn), Held(d));
    assert r.e.win[SlotOf(d.sn)] == Held(d);
    if SeqDelta(later, Wire(r.e.flow.next)) >= WINDOW {
      assert Stranded(r.e, later);
      MakeRoomHangsIff(env, idx, r, later, 0);
    }
  }

  /** Skipping to the only held datagram releases just that one and clears the gap clock. */
  lemma SkipGapLone(env: Env, idx: nat, c: Ctx)
    requires Aligned(c.e.win) && WindowOk(c.e) && c.e.flow.held == HeldCount(c.e.win) == 1 <= c.total
    ensures var s := SkipGap(env, idx, c);
            && s.e.flow.next == c.e.flow.next + SmallestAhead(c.e.win, Wire(c.e.flow.next)) + 1
            && s.e.flow.gapSince == 0 && s.e.flow.held == 0
  {
    hide Wire, SlotOf, SeqDelta, HeldCount, SmallestAhead;
    SmallestAheadNear(c.e);
    SkipGapExact(env, idx, c);
    SkipGapHeld(env, idx, c);
    var s := SkipGap(env, idx, c);
    var m := c.e.flow.next + SmallestAhead(c.e.win, Wire(c.e.flow.next));
    if s.e.flow.next > m + 1 {
      assert HeldAt(c.e, m) && HeldAt(c.e, m + 1);
      SlotsDistinct(m, m + 1);
      HeldCountUpdate(c.e.win, SlotOf(m), Empty);
      HeldCountZero(c.e.win[SlotOf(m) := Empty]);
    }
    FlushGap(env, idx, c.(e := c.e.(flow := c.e.flow.(next := m))));
  }

  lemma {:induction false} FlushGap(env: Env, idx: nat, c: Ctx)
    requires Aligned(c.e.win)
    ensures var r := Flush(env, idx, c); r.e.flow.held == 0 ==> r.e.flow.gapSince == 0
    decreases HeldCount(c.e.win)
  {
    hide Wire, SlotOf, HeldCount;
    if NextIsHeld(c.e) {
      HeldCountUpdate(c.e.win, SlotOf(c.e.flow.next), Empty);
      FlushGap(env, idx, EmitSlot(env, idx, c));
    }
  }
}
