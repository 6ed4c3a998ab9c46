/** Exactly when a call of submit never returns, for every entry, however long its life and whatever it holds. */
module ReorderLoop {
  import opened Serial
  import opened ReorderModel
  import opened ReorderEntry
  import opened ReorderTable
  import opened ReorderRuns
  import opened ReorderWindow
  import opened ReorderHang

  /** How far a wire number is ahead of another, counted around the number space. */
  function Dist(sn: nat, base: nat): (d: nat)
    ensures d < M32
  {
    (sn - base) % M32
  }

  lemma DistDelta(sn: nat, base: nat)
    ensures SeqDelta(sn, base) == if Dist(sn, base) < HALF then Dist(sn, base) else Dist(sn, base) - M32
  {
  }

  lemma DistShift(sn: nat, pos: nat, k: nat)
    requires sn < M32 && k <= Dist(sn, Wire(pos))
    ensures Dist(sn, Wire(pos + k)) == Dist(sn, Wire(pos)) - k
  {
  }

  lemma DistExact(pos: nat, k: nat)
    requires k < M32
    ensures Dist(Wire(pos + k), Wire(pos)) == k
  {
  }

  lemma DistZero(sn: nat, pos: nat)
    requires sn < M32 && Dist(sn, Wire(pos)) == 0
    ensures sn == Wire(pos)
  {
  }

  /** How far slot `i` is ahead of the entry's `next`. */
  function Off(e: Entry, i: nat): nat
    requires i < |e.win| && e.win[i].Held?
  {
    Dist(e.win[i].d.sn, Wire(e.flow.next))
  }

  /** The window with what is less than `k` ahead taken out, `next` moved on by `k`. */
  ghost predicate Took(e: Entry, r: Entry, k: nat) {
    && r.flow.next == e.flow.next + k && |r.win| == |e.win| == WINDOW
    && (forall i :: 0 <= i < WINDOW ==> r.win[i] == if e.win[i].Held? && Off(e, i) < k then Empty else e.win[i])
    && (forall i :: 0 <= i < WINDOW && r.win[i].Held? ==> Off(r, i) == Off(e, i) - k)
  }

  ghost predicate HasOff(e: Entry, y: int) {
    exists i :: 0 <= i < |e.win| && e.win[i].Held? && Off(e, i) == y
  }

  lemma {:induction false} HeldCountBound(win: seq<Slot>)
    ensures HeldCount(win) <= |win|
  {
    if |win| > 0 {
      HeldCountBound(win[..|win| - 1]);
    }
  }

  /** A flush takes the numbers from `next` on as far as they are held, and nothing else. */
  lemma {:induction false} FlushTakes(env: Env, idx: nat, c: Ctx) returns (k: nat)
    requires Aligned(c.e.win)
    ensures Took(c.e, Flush(env, idx, c).e, k) && k <= HeldCount(c.e.win)
    ensures (forall y :: 0 <= y < k ==> HasOff(c.e, y)) && (NextIsHeld(c.e) ==> k >= 1)
    decreases HeldCount(c.e.win)
  {
    hide Wire, SlotOf, HeldCount, Dist;
    var next := c.e.flow.next;
    if NextIsHeld(c.e) {
      var s := SlotOf(next);
      var m := EmitSlot(env, idx, c);
      HeldCountUpdate(c.e.win, s, Empty);
      var k' := FlushTakes(env, idx, m);
      EmitTakes(env, idx, c);
      k := k' + 1;
      TookTwice(c.e, m.e, Flush(env, idx, c).e, 1, k');
      forall y | 0 <= y < k ensures HasOff(c.e, y) {
        if y > 0 {
          assert HasOff(m.e, y - 1);
          var i :| 0 <= i < WINDOW && m.e.win[i].Held? && Off(m.e, i) == y - 1;
          assert Off(c.e, i) == y;
        }
      }
    } else {
      k := 0;
    }
  }

  lemma EmitTakes(env: Env, idx: nat, c: Ctx)
    requires Aligned(c.e.win) && NextIsHeld(c.e)
    ensures Took(c.e, EmitSlot(env, idx, c).e, 1) && HasOff(c.e, 0)
  {
    hide Wire, SlotOf, Dist;
    var next := c.e.flow.next;
    var r := EmitSlot(env, idx, c).e;
    DistExact(next, 0);
    assert Off(c.e, SlotOf(next)) == 0;
    forall i | 0 <= i < WINDOW && c.e.win[i].Held? && i != SlotOf(next) ensures Off(c.e, i) >= 1 {
      if Off(c.e, i) == 0 {
        DistZero(c.e.win[i].d.sn, next);
        WindowOfWire(next);
      }
    }
    forall i | 0 <= i < WINDOW && r.win[i].Held? ensures Off(r, i) == Off(c.e, i) - 1 {
      DistShift(c.e.win[i].d.sn, next, 1);
    }
  }

  lemma TookTwice(a: Entry, b: Entry, c: Entry, j: nat, k: nat)
    requires Took(a, b, j) && Took(b, c, k)
    ensures Took(a, c, j + k)
  {
    hide Dist, Wire;
    forall i | 0 <= i < WINDOW
      ensures c.win[i] == if a.win[i].Held? && Off(a, i) < j + k then Empty else a.win[i]
    {
      if b.win[i].Held? {
        assert Off(b, i) == Off(a, i) - j;
      }
    }
  }

  /** A skip that sees something at distance `d` takes it and what follows it. */
  lemma SkipTakes(env: Env, idx: nat, c: Ctx) returns (d: nat, k: nat)
    requires Aligned(c.e.win) && SmallestAhead(c.e.win, Wire(c.e.flow.next)) != NO_DELTA
    ensures d == SmallestAhead(c.e.win, Wire(c.e.flow.next)) && d < k <= d + WINDOW && d < HALF - 1
    ensures Took(c.e, SkipGap(env, idx, c).e, k)
    ensures forall y :: d <= y < k ==> HasOff(c.e, y)
    ensures forall i :: 0 <= i < WINDOW && c.e.win[i].Held? ==> d <= Off(c.e, i)
  {
    hide Wire, SlotOf, HeldCount, SmallestAhead, Dist, SeqDelta, Flush;
    var next := c.e.flow.next;
    d := SmallestAhead(c.e.win, Wire(next));
    var m := c.(e := c.e.(flow := c.e.flow.(next := next + d)));
    forall i | 0 <= i < WINDOW && c.e.win[i].Held? ensures d <= Off(c.e, i) {
      DistDelta(c.e.win[i].d.sn, Wire(next));
      if SeqDelta(c.e.win[i].d.sn, Wire(next)) >= 0 {
        SmallestAheadBound(c.e.win, Wire(next), i);
      }
    }
    forall i | 0 <= i < WINDOW && c.e.win[i].Held? ensures Off(m.e, i) == Off(c.e, i) - d {
      DistShift(c.e.win[i].d.sn, next, d);
    }
    assert Took(c.e, m.e, d);
    SkipTargetHeld(c);
    HeldCountBound(c.e.win);
    var j := FlushTakes(env, idx, m);
    k := d + j;
    TookTwice(c.e, m.e, Flush(env, idx, m).e, d, j);
    SkipIsFlush(env, idx, c, m);
    forall y | d <= y < k ensures HasOff(c.e, y) {
      assert HasOff(m.e, y - d);
      var i :| 0 <= i < WINDOW && m.e.win[i].Held? && Off(m.e, i) == y - d;
      assert Off(c.e, i) == y;
    }
  }

  lemma SkipIsFlush(env: Env, idx: nat, c: Ctx, m: Ctx)
    requires Aligned(c.e.win) && SmallestAhead(c.e.win, Wire(c.e.flow.next)) != NO_DELTA
    requires m == c.(e := c.e.(flow := c.e.flow.(next := c.e.flow.next + SmallestAhead(c.e.win, Wire(c.e.flow.next)))))
    ensures var s, f := SkipGap(env, idx, c).e, Flush(env, idx, m).e; s.win == f.win && s.flow.next == f.flow.next
  {
    hide Wire, SlotOf, SmallestAhead, Flush;
  }

  /* ---- the loop ---- */

  /** The loop comes to a stop at `x` with something left that it cannot see: `x` is where it starts or just
      behind something held, nothing held is less than 2^31 - 1 beyond it, and something is further. */
  ghost predicate Blind(e: Entry, x: int) {
    && (x == 0 || HasOff(e, x - 1))
    && (forall i :: 0 <= i < |e.win| && e.win[i].Held? ==> Off(e, i) < x || x + HALF - 1 <= Off(e, i))
    && (exists i :: 0 <= i < |e.win| && e.win[i].Held? && x + HALF - 1 <= Off(e, i))
  }

  /** The loop goes blind a window or more before the arrival. */
  ghost predicate Exhausted(e: Entry, sn: nat) {
    exists x :: 0 <= x <= SeqDelta(sn, Wire(e.flow.next)) - WINDOW && Blind(e, x)
  }

  lemma BlindForward(e: Entry, s: Entry, d: nat, k: nat, x: int)
    requires Took(e, s, k) && d < k && d < HALF - 1 && 0 <= x && Blind(e, x)
    requires forall y :: d <= y < k ==> HasOff(e, y)
    requires forall i :: 0 <= i < WINDOW && e.win[i].Held? ==> d <= Off(e, i)
    ensures x >= k && Blind(s, x - k)
  {
    hide Dist, Wire;
    assert HasOff(e, d);
    assert x > 0 ==> HasOff(e, x - 1);
    assert d <= x < k ==> HasOff(e, x);
    if x > k {
      var i :| 0 <= i < WINDOW && e.win[i].Held? && Off(e, i) == x - 1;
      assert s.win[i] == e.win[i] && Off(s, i) == x - 1 - k;
      assert HasOff(s, x - k - 1);
    }
    var i :| 0 <= i < WINDOW && e.win[i].Held? && x + HALF - 1 <= Off(e, i);
    assert s.win[i] == e.win[i] && Off(s, i) == Off(e, i) - k;
    forall j | 0 <= j < WINDOW && s.win[j].Held?
      ensures Off(s, j) < x - k || x - k + HALF - 1 <= Off(s, j)
    {
      assert Off(s, j) == Off(e, j) - k;
    }
  }

  lemma BlindBackward(e: Entry, s: Entry, d: nat, k: nat, x: int)
    requires Took(e, s, k) && d < k && 0 <= x && Blind(s, x)
    requires forall y :: d <= y < k ==> HasOff(e, y)
    ensures Blind(e, x + k)
  {
    hide Dist, Wire;
    if x == 0 {
      assert HasOff(e, k - 1);
    } else {
      var i :| 0 <= i < WINDOW && s.win[i].Held? && Off(s, i) == x - 1;
      assert e.win[i] == s.win[i] && Off(e, i) == x - 1 + k;
      assert HasOff(e, x + k - 1);
    }
    var i :| 0 <= i < WINDOW && s.win[i].Held? && x + HALF - 1 <= Off(s, i);
    assert e.win[i] == s.win[i] && Off(e, i) == Off(s, i) + k;
    forall j | 0 <= j < WINDOW && e.win[j].Held?
      ensures Off(e, j) < x + k || x + k + HALF - 1 <= Off(e, j)
    {
      if Off(e, j) >= k {
        assert s.win[j] == e.win[j] && Off(s, j) == Off(e, j) - k;
      }
    }
  }

  /** A skip does not change whether the loop goes blind before the arrival. */
  lemma SkipExhausted(env: Env, idx: nat, c: Ctx, sn: nat)
    requires Aligned(c.e.win) && sn < M32 && SmallestAhead(c.e.win, Wire(c.e.flow.next)) != NO_DELTA
    requires SeqDelta(sn, Wire(c.e.flow.next)) >= WINDOW
    ensures Exhausted(SkipGap(env, idx, c).e, sn) <==> Exhausted(c.e, sn)
  {
    hide Dist, Wire, SlotOf, SmallestAhead, SkipGap, SeqDelta, Blind, Took;
    var d, k := SkipTakes(env, idx, c);
    var e, s := c.e, SkipGap(env, idx, c).e;
    TookNext(e, s, k);
    SeqDeltaShift(sn, e.flow.next, k);
    if x :| 0 <= x <= SeqDelta(sn, Wire(e.flow.next)) - WINDOW && Blind(e, x) {
      BlindForward(e, s, d, k, x);
    }
    if x :| 0 <= x <= SeqDelta(sn, Wire(s.flow.next)) - WINDOW && Blind(s, x) {
      BlindBackward(e, s, d, k, x);
    }
  }

  lemma TookNext(e: Entry, s: Entry, k: nat)
    requires Took(e, s, k)
    ensures s.flow.next == e.flow.next + k
  {
  }

  /** With nothing in sight and something held, the loop is blind from the start. */
  lemma BlindNow(e: Entry)
    requires Aligned(e.win) && SmallestAhead(e.win, Wire(e.flow.next)) == NO_DELTA && HeldCount(e.win) > 0
    ensures Blind(e, 0)
  {
    hide Dist, Wire, SlotOf, SmallestAhead, SeqDelta, HeldCount;
    HeldCountZero(e.win);
    var i :| 0 <= i < WINDOW && !e.win[i].Empty?;
    forall j | 0 <= j < WINDOW && e.win[j].Held? ensures HALF - 1 <= Off(e, j) {
      DistDelta(e.win[j].d.sn, Wire(e.flow.next));
      if SeqDelta(e.win[j].d.sn, Wire(e.flow.next)) >= 0 {
        SmallestAheadBound(e.win, Wire(e.flow.next), j);
      }
    }
    assert e.win[i].Held?;
  }

  lemma EmptyNotBlind(e: Entry, x: int)
    requires HeldCount(e.win) == 0
    ensures !Blind(e, x)
  {
    hide Dist, Wire, HeldCount;
    HeldCountZero(e.win);
  }

  /** Exactly when the room loop never exits, for every entry: it goes blind before the arrival. */
  lemma {:induction false} RoomHangsIff(env: Env, idx: nat, c: Ctx, sn: nat)
    requires Aligned(c.e.win) && sn < M32 && c.e.flow.held == HeldCount(c.e.win) <= c.total
    ensures MakeRoom(env, idx, c, sn).Hangs? <==> Exhausted(c.e, sn)
    decreases HeldCount(c.e.win)
  {
    hide Dist, Wire, SlotOf, SeqDelta, HeldCount, SmallestAhead, SkipGap, Blind;
    if RoomGuard(c, sn) {
      if SmallestAhead(c.e.win, Wire(c.e.flow.next)) == NO_DELTA {
        BlindNow(c.e);
      } else {
        SkipExhausted(env, idx, c, sn);
        SkipGapHeld(env, idx, c);
        SkipGapReleases(env, idx, c);
        RoomHangsIff(env, idx, SkipGap(env, idx, c), sn);
      }
    } else if c.e.flow.held == 0 {
      forall x ensures !Blind(c.e, x) {
        EmptyNotBlind(c.e, x);
      }
    }
  }

  lemma ArrivalHangsIff(env: Env, idx: nat, c: Ctx, d: Datagram, now: nat)
    requires Aligned(c.e.win) && d.sn < M32 && c.e.flow.held == HeldCount(c.e.win) <= c.total
    ensures Arrive(env, idx, c, d, now).Hangs? <==> Exhausted(Settled(env, idx, c, now).e, d.sn)
  {
    hide Wire, SlotOf, SeqDelta, HeldCount, SkipGap, MakeRoom, Flush, Place, Elapsed, Blind;
    SkipGapHeld(env, idx, c);
    RoomHangsIff(env, idx, Settled(env, idx, c, now), d.sn);
  }

  /** What a datagram meets: the entry found, renewed or taken over, an expired gap skipped. */
  function Meets(env: Env, w: Worker, d: Datagram, now: nat): Entry
    requires TableShape(w)
  {
    var idx := Find(env, w, d.key).idx;
    Settled(env, idx, Open(Lookup(env, w, d, now), idx), now).e
  }

  /** Main hang theorem: in every worker that satisfies the invariant of all runs, submit never returns if and
      only if the room loop, from the entry the datagram meets, goes blind a window or more before it. */
  lemma SubmitHangsIff(env: Env, w: Worker, d: Datagram, now: nat)
    requires WorkerOk(w) && TableShape(w) && d.sn < M32
    ensures Submit(env, w, d, now).Hangs? <==> env.enabled && Exhausted(Meets(env, w, d, now), d.sn)
  {
    hide WorkerOk, Find, Lookup, Arrive, Exhausted, Settled, HeldCount, CtxOk;
    var idx, m := Find(env, w, d.key).idx, Lookup(env, w, d, now);
    LookupKeeps(env, w, d, now, ANY);
    OpenOk(m, idx);
    CtxHeld(idx, Open(m, idx));
    ArrivalHangsIff(env, idx, Open(m, idx), d, now);
  }

  /** While everything held is within half the number space of `next`, going blind means being stranded. */
  lemma ExhaustedStranded(e: Entry, sn: nat)
    requires Aligned(e.win) && Near(e, WINDOW - HALF, WINDOW) && sn < M32
    ensures Exhausted(e, sn) <==> Stranded(e, sn)
  {
    hide Dist, Wire, SlotOf, SeqDelta, HeldCount, MakeRoom, Blind;
    var env := Env(true, 0, 0, (k: Key) => 0, (n: nat) => true);
    var f := e.(flow := e.flow.(held := HeldCount(e.win)));
    var c := Ctx(f, HeldCount(e.win), []);
    MakeRoomHangsIff(env, 0, c, sn, WINDOW);
    RoomHangsIff(env, 0, c, sn);
    SameWindow(e, f, sn);
  }

  lemma SameWindow(e: Entry, f: Entry, sn: nat)
    requires f.win == e.win && f.flow.next == e.flow.next
    ensures (Exhausted(f, sn) <==> Exhausted(e, sn)) && (Stranded(f, sn) <==> Stranded(e, sn))
  {
    hide Dist, Wire, SeqDelta;
    forall x ensures Blind(f, x) <==> Blind(e, x) {
      assert forall y :: HasOff(f, y) <==> HasOff(e, y);
    }
  }
}
