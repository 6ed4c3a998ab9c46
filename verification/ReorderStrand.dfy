/** Which calls of submit make the next one hang: an exact condition on the worker before the call, and whole
    runs in which every call returns. */
module ReorderStrand {
  import opened Serial
  import opened ReorderModel
  import opened ReorderEntry
  import opened ReorderTable
  import opened ReorderRuns
  import opened ReorderWindow
  import opened ReorderFlows
  import opened ReorderHang

  /** The arrival takes the held-cap branch with a skip that passes it. */
  ghost predicate ArrivePasses(env: Env, idx: nat, c: Ctx, d: Datagram, now: nat)
    requires Aligned(c.e.win) && d.sn < M32
  {
    var c0 := Settled(env, idx, c, now);
    && SeqDelta(d.sn, Wire(c0.e.flow.next)) > 0
    && var m := MakeRoom(env, idx, c0, d.sn);
    && m.Returns?
    && SeqDelta(d.sn, Wire(m.v.e.flow.next)) > 0
    && m.v.total >= env.cap && m.v.e.flow.held > 0 && Passed(m.v.e, d.sn)
  }

  /** The arrival is emitted while a copy of its number is held at `next`. */
  ghost predicate ArriveRepeats(env: Env, idx: nat, c: Ctx, d: Datagram, now: nat)
    requires Aligned(c.e.win)
  {
    var c0 := Settled(env, idx, c, now);
    SeqDelta(d.sn, Wire(c0.e.flow.next)) == 0 && NextIsHeld(c0.e)
  }

  /** With nothing held at `next` the window invariant holds. */
  lemma AheadWindow(e: Entry)
    requires Aligned(e.win) && AheadOk(e) && !NextIsHeld(e)
    ensures WindowOk(e)
  {
    hide Wire, SlotOf, SeqDelta;
    forall i | 0 <= i < WINDOW && e.win[i].Held? ensures 1 <= SeqDelta(e.win[i].d.sn, Wire(e.flow.next)) {
      if SeqDelta(e.win[i].d.sn, Wire(e.flow.next)) == 0 {
        var p := PositionOf(e, i);
      }
    }
  }

  /** Emitting a repetition of a number that is held at `next` leaves the held copy behind `next`. */
  lemma RepeatLeaves(env: Env, idx: nat, c: Ctx, d: Datagram)
    requires Aligned(c.e.win) && AheadOk(c.e) && NextIsHeld(c.e)
    requires d.sn < M32 && SeqDelta(d.sn, Wire(c.e.flow.next)) == 0
    ensures var r := Flush(env, idx, EmitNew(env, idx, c, d));
            && Near(r.e, -(WINDOW as int), WINDOW) && r.e.win[SlotOf(d.sn)].Held?
            && SeqDelta(r.e.win[SlotOf(d.sn)].d.sn, Wire(r.e.flow.next)) < 0
  {
    hide Wire, SlotOf, SeqDelta, HeldCount, Flush;
    var next := c.e.flow.next;
    SeqDeltaLands(d.sn, next);
    WindowOfWire(next);
    SeqDeltaExact(next, next);
    var m := EmitNew(env, idx, c, d);
    forall i | 0 <= i < WINDOW && c.e.win[i].Held?
      ensures SeqDelta(c.e.win[i].d.sn, Wire(next + 1)) == SeqDelta(c.e.win[i].d.sn, Wire(next)) - 1
    {
      SeqDeltaShift(c.e.win[i].d.sn, next, 1);
    }
    assert Near(m.e, -1, WINDOW - 1);
    FlushReleases(env, idx, m, WINDOW - 1);
    var r := Flush(env, idx, m);
    var k := r.e.flow.next - (next + 1);
    forall i | 0 <= i < WINDOW && r.e.win[i].Held?
      ensures SeqDelta(r.e.win[i].d.sn, Wire(r.e.flow.next)) == SeqDelta(c.e.win[i].d.sn, Wire(next)) - 1 - k
    {
      assert r.e.win[i] == c.e.win[i];
      SeqDeltaShift(c.e.win[i].d.sn, next + 1, k);
    }
    assert r.e.win[SlotOf(next)] == c.e.win[SlotOf(next)];
  }

  /** The room loop with nothing held behind `next`. */
  lemma MakeRoomAhead(env: Env, idx: nat, c: Ctx, sn: nat)
    requires Aligned(c.e.win) && AheadOk(c.e) && sn < M32 && c.e.flow.held == HeldCount(c.e.win) <= c.total
    requires SeqDelta(sn, Wire(c.e.flow.next)) > 0
    ensures var r := MakeRoom(env, idx, c, sn);
            && r.Returns? && AheadOk(r.v.e) && 0 <= SeqDelta(sn, Wire(r.v.e.flow.next)) < WINDOW
            && (SeqDelta(sn, Wire(r.v.e.flow.next)) == 0 ==> WindowOk(r.v.e))
  {
    hide Wire, SlotOf, SeqDelta, HeldCount, SmallestAhead, SkipGap, Near;
    var next := c.e.flow.next;
    if SeqDelta(sn, Wire(next)) < WINDOW {
      NoRoomNeeded(env, idx, c, sn);
    } else if c.e.flow.held != 0 {
      SmallestAheadAny(c.e);
      SkipGapExact(env, idx, c);
      SkipGapHeld(env, idx, c);
      var s := SkipGap(env, idx, c);
      SeqDeltaShift(sn, next, s.e.flow.next - next);
      MakeRoomReturns(env, idx, s, sn);
      WindowAhead(MakeRoom(env, idx, s, sn).v.e);
    } else {
      EmptyWindowOk(c.e);
      MakeRoomReturns(env, idx, c, sn);
      WindowAhead(MakeRoom(env, idx, c, sn).v.e);
    }
  }

  lemma SettledOk(env: Env, idx: nat, c: Ctx, now: nat)
    requires CtxOk(idx, c) && AheadOk(c.e)
    ensures var c0 := Settled(env, idx, c, now);
            && CtxOk(idx, c0) && AheadOk(c0.e) && SameFlow(c.e.flow, c0.e.flow) && c0.total <= c.total
            && c0.e.flow.held == HeldCount(c0.e.win) <= c0.total
  {
    hide HeldCount, SkipGap, Near, InOrder, Outs, LivesOk, HeldCopies, Disposed, Elapsed;
    SkipGapKeeps(env, idx, c, ANY);
    SkipGapNear(env, idx, c);
    WindowAhead(SkipGap(env, idx, c).e);
  }

  /** What an arrival leaves in its window, nothing having been held behind `next`: nothing behind `next` again,
      or a copy of its own number. */
  lemma ArriveLeaves(env: Env, idx: nat, c: Ctx, d: Datagram, now: nat)
    requires CtxOk(idx, c) && Belongs(d, c.e.flow) && d.sn < M32 && AheadOk(c.e) && c.total <= env.cap
    ensures var r := Arrive(env, idx, c, d, now);
            && r.Returns?
            && (if ArrivePasses(env, idx, c, d, now) || ArriveRepeats(env, idx, c, d, now) then
                  && Near(r.v.e, -(WINDOW as int), WINDOW) && r.v.e.win[SlotOf(d.sn)].Held?
                  && SeqDelta(r.v.e.win[SlotOf(d.sn)].d.sn, Wire(r.v.e.flow.next)) < 0
                else AheadOk(r.v.e))
  {
    hide Wire, SlotOf, SeqDelta, HeldCount, SkipGap, MakeRoom, Flush, Place, Near, CtxOk, Passed, Elapsed, Settled,
         NextIsHeld;
    CtxHeld(idx, c);
    var c0 := Settled(env, idx, c, now);
    SettledOk(env, idx, c, now);
    ArriveSettled(env, idx, c, d, now);
    if SeqDelta(d.sn, Wire(c0.e.flow.next)) == 0 {
      if NextIsHeld(c0.e) {
        RepeatLeaves(env, idx, c0, d);
      } else {
        AheadWindow(c0.e);
        EmitNewNear(env, idx, c0, d);
        WindowAhead(Flush(env, idx, EmitNew(env, idx, c0, d)).e);
      }
    } else if SeqDelta(d.sn, Wire(c0.e.flow.next)) > 0 {
      MakeRoomAhead(env, idx, c0, d.sn);
      MakeRoomKeeps(env, idx, c0, d.sn, ANY);
      var c1 := MakeRoom(env, idx, c0, d.sn).v;
      CtxHeld(idx, c1);
      if SeqDelta(d.sn, Wire(c1.e.flow.next)) == 0 {
        EmitNewNear(env, idx, c1, d);
        WindowAhead(Flush(env, idx, EmitNew(env, idx, c1, d)).e);
      } else if ArrivePasses(env, idx, c, d, now) {
        PlaceBehind(env, idx, c1, d, now);
      } else {
        PlaceAhead(env, idx, c1, d, now);
      }
    }
  }

  /** An arrival in terms of the entry it meets. */
  lemma ArriveSettled(env: Env, idx: nat, c: Ctx, d: Datagram, now: nat)
    requires Aligned(c.e.win) && d.sn < M32
    ensures var c0 := Settled(env, idx, c, now);
            var delta := SeqDelta(d.sn, Wire(c0.e.flow.next));
            && (delta < 0 ==> Arrive(env, idx, c, d, now) == Returns(DropNew(c0, d)))
            && (delta == 0 ==> Arrive(env, idx, c, d, now) == Returns(Flush(env, idx, EmitNew(env, idx, c0, d))))
            && (delta > 0 ==>
                  var m := MakeRoom(env, idx, c0, d.sn);
                  m.Returns? ==>
                    var delta1 := SeqDelta(d.sn, Wire(m.v.e.flow.next));
                    && (delta1 == 0 ==>
                          Arrive(env, idx, c, d, now) == Returns(Flush(env, idx, EmitNew(env, idx, m.v, d))))
                    && (delta1 > 0 ==> Arrive(env, idx, c, d, now) == Returns(Place(env, idx, m.v, d, now))))
  {
    hide Wire, SeqDelta, SkipGap, MakeRoom, Flush, Place, Elapsed;
  }

  /** Nothing in the table is held behind its flow's `next`. */
  ghost predicate AllAhead(w: Worker) {
    forall i :: 0 <= i < |w.entries| ==> AheadOk(w.entries[i])
  }

  lemma NearSame(e: Entry, r: Entry, lo: int, hi: int)
    requires Near(e, lo, hi) && r.win == e.win && r.flow.next == e.flow.next
    ensures Near(r, lo, hi)
  {
    hide SeqDelta, Wire;
  }

  lemma LookupAhead(env: Env, w: Worker, d: Datagram, now: nat)
    requires WorkerOk(w) && TableShape(w) && AllAhead(w)
    ensures AllAhead(Lookup(env, w, d, now))
  {
    hide WorkerOk, Near, ResetEntry, Scan, SetBase, HeldCount;
    var r, i := Lookup(env, w, d, now), Find(env, w, d.key).idx;
    var m := ResetEntry(w, i, d, now);
    ResetEntryKeeps(w, i, d, now, ANY);
    ResetEntryFlows(w, i, d, now);
    EmptyWindowOk(m.entries[i]);
    WindowAhead(m.entries[i]);
    if Find(env, w, d.key).Hit? {
      if w.entries[i].flow.epoch != d.epoch {
        NearSame(m.entries[i], r.entries[i], 0, WINDOW);
      } else {
        NearSame(w.entries[i], r.entries[i], 0, WINDOW);
      }
    }
  }

  lemma SettledAhead(env: Env, idx: nat, c: Ctx, now: nat)
    requires Aligned(c.e.win) && AheadOk(c.e)
    ensures AheadOk(Settled(env, idx, c, now).e)
  {
    hide Wire, SlotOf, SeqDelta, HeldCount, SmallestAhead, Elapsed;
    var next := c.e.flow.next;
    if Expired(env, c.e.flow, now) && SmallestAhead(c.e.win, Wire(next)) != NO_DELTA {
      SkipReleases(env, idx, c, WINDOW);
      var s := SkipGap(env, idx, c);
      forall i | 0 <= i < WINDOW && s.e.win[i].Held?
        ensures 0 <= SeqDelta(s.e.win[i].d.sn, Wire(s.e.flow.next)) < WINDOW
      {
        assert s.e.win[i] == c.e.win[i];
        SeqDeltaShift(c.e.win[i].d.sn, next, s.e.flow.next - next);
      }
    }
  }

  /** With nothing held behind, every call of submit returns. */
  lemma AheadReturns(env: Env, w: Worker, d: Datagram, now: nat)
    requires WorkerOk(w) && TableShape(w) && AllAhead(w) && d.sn < M32
    ensures Submit(env, w, d, now).Returns?
  {
    hide WorkerOk, Find, Lookup, Arrive, Stranded, Settled, HeldCount, CtxOk, Near;
    if env.enabled {
      var idx, m := Find(env, w, d.key).idx, Lookup(env, w, d, now);
      LookupKeeps(env, w, d, now, ANY);
      LookupAhead(env, w, d, now);
      OpenOk(m, idx);
      var c := Open(m, idx);
      CtxHeld(idx, c);
      SettledAhead(env, idx, c, now);
      AheadNotStranded(Settled(env, idx, c, now).e, d.sn);
      AheadFar(c.e, 0);
      ArriveHangsIff(env, idx, c, d, now);
    }
  }

  lemma AheadFar(e: Entry, lo: int)
    requires Near(e, lo, WINDOW) && lo >= -(WINDOW as int)
    ensures Near(e, WINDOW - HALF, WINDOW)
  {
    hide SeqDelta, Wire;
  }

  /** The submit takes the held-cap branch with a skip that passes its datagram. */
  ghost predicate SubmitPasses(env: Env, w: Worker, d: Datagram, now: nat)
    requires TableShape(w) && d.sn < M32
  {
    env.enabled &&
    var idx := Find(env, w, d.key).idx;
    ArrivePasses(env, idx, Open(Lookup(env, w, d, now), idx), d, now)
  }

  /** The submit emits a datagram while a copy of its number is held at `next`. */
  ghost predicate SubmitRepeats(env: Env, w: Worker, d: Datagram, now: nat)
    requires TableShape(w)
  {
    env.enabled &&
    var idx := Find(env, w, d.key).idx;
    ArriveRepeats(env, idx, Open(Lookup(env, w, d, now), idx), d, now)
  }

  /** Once something is held behind `next`, the number furthest ahead hangs the next call of its flow. */
  lemma StaleHangs(env: Env, v: Worker, idx: nat, d: Datagram, now: nat)
    requires WorkerOk(v) && TableShape(v) && env.enabled && idx < FLOW_CAP && d.sn < M32
    requires Find(env, v, d.key) == Hit(idx) && Belongs(d, v.entries[idx].flow)
    requires var e := v.entries[idx];
             && Near(e, -(WINDOW as int), WINDOW) && e.win[SlotOf(d.sn)].Held?
             && SeqDelta(e.win[SlotOf(d.sn)].d.sn, Wire(e.flow.next)) < 0
    ensures Submit(env, v, d.(sn := Furthest(v.entries[idx].flow.next)), now).Hangs?
  {
    hide WorkerOk, Find, Arrive, Stranded, Settled, HeldCount, CtxOk, Near, SeqDelta, Wire, SlotOf, Furthest;
    var d2 := d.(sn := Furthest(v.entries[idx].flow.next));
    var m := Touch(v, idx, now);
    assert Lookup(env, v, d2, now) == m;
    LookupKeeps(env, v, d2, now, ANY);
    OpenOk(m, idx);
    var c := Open(m, idx);
    CtxHeld(idx, c);
    NearSame(v.entries[idx], c.e, -(WINDOW as int), WINDOW);
    AheadFar(c.e, -(WINDOW as int));
    FurthestStrands(c.e, SlotOf(d.sn));
    SettledStranded(env, idx, c, now, d2.sn);
    ArriveHangsIff(env, idx, c, d2, now);
  }

  ghost predicate Strands(env: Env, w: Worker, d: Datagram, now: nat)
    requires TableShape(w) && d.sn < M32
  {
    SubmitPasses(env, w, d, now) || SubmitRepeats(env, w, d, now)
  }

  /** Main strand theorem, for every worker that holds nothing behind any flow's `next`, window invariant or
      not: submit returns, and the following are equivalent: it is passed by its held-cap skip or repeats a
      number held at `next`; it leaves something behind; some next call of submit never returns. */
  lemma SubmitStrandsIff(env: Env, w: Worker, d: Datagram, now: nat)
    requires WorkerOk(w) && TableShape(w) && AllAhead(w) && d.sn < M32 && w.total <= env.cap
    ensures var r := Submit(env, w, d, now);
            && r.Returns?
            && (AllAhead(r.v) <==> !Strands(env, w, d, now))
            && ((exists d2: Datagram, t2: nat :: d2.sn < M32 && Submit(env, r.v, d2, t2).Hangs?)
                <==> Strands(env, w, d, now))
  {
    hide WorkerOk, AheadOk, Near, Find, Lookup, Arrive, ArrivePasses, ArriveRepeats, CtxOk, SeqDelta, Wire, SlotOf;
    if !env.enabled {
      PassReturns(env, w, d, now);
    } else {
      var idx, m := Find(env, w, d.key).idx, Lookup(env, w, d, now);
      SubmitKeeps(env, w, d, now, ANY);
      LookupKeeps(env, w, d, now, ANY);
      LookupAhead(env, w, d, now);
      OpenOk(m, idx);
      ArriveLeaves(env, idx, Open(m, idx), d, now);
      var c := Arrive(env, idx, Open(m, idx), d, now).v;
      var v := Close(m, idx, c);
      if Strands(env, w, d, now) {
        LookupFlows(env, w, d, now);
        ArriveFlows(env, idx, m, d, now);
        ArriveEpoch(env, idx, Open(m, idx), d, now);
        FoundAgain(env, w, v, d.key);
        StaleHangs(env, v, idx, d, now);
        assert Submit(env, v, d.(sn := Furthest(c.e.flow.next)), now).Hangs?;
        StaleBehind(v.entries[idx], SlotOf(d.sn));
      } else {
        forall d2: Datagram, t2: nat | d2.sn < M32 ensures !Submit(env, v, d2, t2).Hangs? {
          AheadReturns(env, v, d2, t2);
        }
      }
    }
  }

  lemma StaleBehind(e: Entry, i: nat)
    requires i < |e.win| && e.win[i].Held? && SeqDelta(e.win[i].d.sn, Wire(e.flow.next)) < 0
    ensures !AheadOk(e)
  {
  }

  lemma PassReturns(env: Env, w: Worker, d: Datagram, now: nat)
    requires TableShape(w) && d.sn < M32 && !env.enabled
    ensures Submit(env, w, d, now).Returns? && Submit(env, w, d, now).v.entries == w.entries
    ensures forall d2: Datagram, t2: nat :: d2.sn < M32 ==> Submit(env, Submit(env, w, d, now).v, d2, t2).Returns?
  {
  }

  /* ---- runs ---- */

  lemma GcVisitAhead(env: Env, w: Worker, i: nat, now: nat)
    requires WorkerOk(w) && TableShape(w) && AllAhead(w) && i < FLOW_CAP
    ensures AllAhead(GcVisit(env, w, i, now))
  {
    hide EntryOk, SumHeld, HeldCount, Outs, LivesOk, Near, SkipGap, Elapsed;
    var c := Open(w, i);
    SkipGapNear(env, i, c);
    WindowAhead(SkipGap(env, i, c).e);
    if c.e.flow.valid {
      OpenOk(w, i);
      SkipGapKeeps(env, i, c, ANY);
      var m := if Expired(env, c.e.flow, now) then SkipGap(env, i, c) else c;
      CtxHeld(i, m);
      if m.e.flow.held == 0 {
        EmptyWindowOk(m.e.(flow := FREE));
        WindowAhead(m.e.(flow := FREE));
      }
    }
  }

  lemma {:induction false} GcFromAhead(env: Env, w: Worker, now: nat, n: nat)
    requires WorkerOk(w) && TableShape(w) && AllAhead(w) && n <= GC_SLICE
    ensures AllAhead(GcFrom(env, w, now, n))
    decreases GC_SLICE - n
  {
    hide WorkerOk, GcVisit, AllAhead;
    if n < GC_SLICE {
      var i := (w.cursor + n) % FLOW_CAP;
      GcVisitAhead(env, w, i, now);
      GcVisitKeeps(env, w, i, now, ANY);
      GcFromAhead(env, GcVisit(env, w, i, now), now, n + 1);
    }
  }

  lemma WindowsAhead(w: Worker)
    requires WindowsOk(w)
    ensures AllAhead(w)
  {
    hide Near;
    forall i | 0 <= i < |w.entries| ensures AheadOk(w.entries[i]) {
      WindowAhead(w.entries[i]);
    }
  }

  /** No submit of the run is passed by its held-cap skip or repeats a number held at `next`. */
  ghost predicate NeverStrands(env: Env, ops: seq<Op>)
    requires OpsOk(ops)
  {
    |ops| == 0 ||
    var init, op := ops[..|ops| - 1], ops[|ops| - 1];
    NeverStrands(env, init) &&
    var p := Run(env, init);
    p.Returns? && op.OpSubmit? ==> !Strands(env, p.v, op.d, op.now)
  }

  lemma StepAhead(env: Env, w: Worker, op: Op)
    requires WorkerOk(w) && TableShape(w) && AllAhead(w) && OpOk(op) && w.total <= env.cap
    requires op.OpSubmit? ==> !Strands(env, w, op.d, op.now)
    ensures Step(env, w, op).Returns? && AllAhead(Step(env, w, op).v)
  {
    hide WorkerOk, Submit, GcFrom, ResetWorker, AheadOk, Strands;
    match op
    case OpSubmit(d, now) => SubmitStrandsIff(env, w, d, now);
    case OpGc(now) => GcFromAhead(env, w, now, 0);
    case OpReset =>
      ResetWorkerWindows(w);
      WindowsAhead(ResetWorker(w));
  }

  lemma {:induction false} RunAhead(env: Env, ops: seq<Op>)
    requires OpsOk(ops) && NeverStrands(env, ops)
    ensures var r := Run(env, ops); r.Returns? && WorkerOk(r.v) && AllAhead(r.v) && r.v.total <= env.cap
  {
    hide WorkerOk, Step, Start, AllAhead, Strands;
    if |ops| == 0 {
      StartWindows();
      WindowsAhead(Start());
    } else {
      var init, op := ops[..|ops| - 1], ops[|ops| - 1];
      RunAhead(env, init);
      StepAhead(env, Run(env, init).v, op);
    }
    RunBooks(env, ops, ANY);
  }

  /** Main termination theorem for runs, both directions. Every call of a run free of stranding submits returns,
      and whatever is submitted next returns too; after a submit that strands, some next call does not. */
  lemma RunReturns(env: Env, ops: seq<Op>, d: Datagram, now: nat)
    requires OpsOk(ops) && NeverStrands(env, ops) && d.sn < M32
    ensures Run(env, ops).Returns?
    ensures var r := Submit(env, Run(env, ops).v, d, now);
            && r.Returns?
            && (Strands(env, Run(env, ops).v, d, now) <==>
                  exists d2: Datagram, t2: nat :: d2.sn < M32 && Submit(env, r.v, d2, t2).Hangs?)
  {
    hide Run, WorkerOk, AllAhead, Strands, Submit;
    RunAhead(env, ops);
    SubmitStrandsIff(env, Run(env, ops).v, d, now);
  }

  lemma ArriveEpoch(env: Env, idx: nat, c: Ctx, d: Datagram, now: nat)
    requires CtxOk(idx, c) && Belongs(d, c.e.flow) && d.sn < M32 && Arrive(env, idx, c, d, now).Returns?
    ensures Belongs(d, Arrive(env, idx, c, d, now).v.e.flow)
  {
    hide Arrive, CtxOk;
    ArriveKeeps(env, idx, c, d, now, ANY);
  }
}
