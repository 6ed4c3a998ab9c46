/** End-to-end delivery: the numbers 0, 1, ..., n-1 of one direction, arriving in any order inside the
    window and mixed with any other traffic, leave the receiver exactly in sending order. */
module ReorderEndToEnd {
  import opened Serial
  import opened ReorderModel
  import opened ReorderEntry
  import opened ReorderTable
  import opened ReorderRuns
  import opened ReorderWindow

  /** What the sender puts on the wire, from position `start` on: the item at position p carries p modulo
      2^32. */
  datatype Stream = Stream(key: Key, epoch: nat, start: nat, items: seq<Item>) {
    predicate Has(p: nat) {
      start <= p < start + |items|
    }

    function At(p: nat): Datagram
      requires Has(p)
    {
      Datagram(key, epoch, Wire(p), items[p - start])
    }
  }

  /** The receiving entry has emitted the positions below `next` in order and holds exactly the other
      arrived positions `s`. */
  ghost predicate Tracks(st: Stream, idx: nat, c: Ctx, s: set<nat>) {
    var f, o := c.e.flow, Outs(c.trace, idx);
    && Aligned(c.e.win) && f.valid && f.key == st.key && f.epoch == st.epoch
    && f.held == HeldCount(c.e.win) <= c.total
    && (forall p :: p in s ==> st.Has(p) && p < f.next + WINDOW)
    && st.start <= f.next && (forall p :: st.start <= p < f.next ==> p in s)
    && (forall p :: f.next <= p < f.next + WINDOW ==> (p in s <==> HeldAt(c.e, p)))
    && (forall p :: f.next <= p < f.next + WINDOW && p in s ==> c.e.win[SlotOf(p)] == Held(st.At(p)))
    && |o| == f.next - st.start
    && (forall k :: 0 <= k < |o| ==>
          st.start + k in s && o[k].Emit? && o[k].pos == st.start + k && o[k].d == st.At(st.start + k))
  }

  lemma {:induction false} FlushTracks(env: Env, st: Stream, idx: nat, c: Ctx, s: set<nat>)
    requires Tracks(st, idx, c, s) && Near(c.e, 0, WINDOW)
    ensures var r := Flush(env, idx, c); Tracks(st, idx, r, s) && WindowOk(r.e) && r.e.flow.next !in s
    decreases HeldCount(c.e.win)
  {
    hide Wire, SlotOf, SeqDelta, HeldCount, Outs;
    FlushExact(env, idx, c, WINDOW);
    var next := c.e.flow.next;
    if NextIsHeld(c.e) {
      var m := EmitSlot(env, idx, c);
      assert HeldAt(c.e, next);
      EmitSlotNear(env, idx, c, WINDOW);
      HeldCountUpdate(c.e.win, SlotOf(next), Empty);
      EmitSlotTracks(env, st, idx, c, s);
      FlushTracks(env, st, idx, m, s);
    } else {
      assert !HeldAt(c.e, next);
    }
  }

  lemma EmitSlotTracks(env: Env, st: Stream, idx: nat, c: Ctx, s: set<nat>)
    requires Tracks(st, idx, c, s) && Near(c.e, 0, WINDOW) && NextIsHeld(c.e)
    ensures Tracks(st, idx, EmitSlot(env, idx, c), s)
  {
    hide Wire, SlotOf, SeqDelta, HeldCount, Outs, Near, HeldAt;
    var next := c.e.flow.next;
    var r := EmitSlot(env, idx, c);
    EmitSlotFirst(c);
    EmitSlotNear(env, idx, c, WINDOW);
    HeldCountUpdate(c.e.win, SlotOf(next), Empty);
    TraceAppend(c.trace, Emit(idx, next, c.e.win[SlotOf(next)].d, env.accepts(|c.trace|)), ANY);
    forall p | next < p <= next + WINDOW
      ensures (p in s <==> HeldAt(r.e, p)) && (p in s ==> r.e.win[SlotOf(p)] == Held(st.At(p)))
    {
      EmitSlotHeld(env, idx, c, p);
    }
  }

  lemma EmitSlotFirst(c: Ctx)
    requires Aligned(c.e.win) && NextIsHeld(c.e)
    ensures HeldAt(c.e, c.e.flow.next)
  {
    hide Wire, SlotOf;
  }

  /** Emitting from the first slot leaves the other positions as they are, and nothing at the new end. */
  lemma EmitSlotHeld(env: Env, idx: nat, c: Ctx, p: nat)
    requires Aligned(c.e.win) && NextIsHeld(c.e) && c.e.flow.next < p <= c.e.flow.next + WINDOW
    ensures var r, next := EmitSlot(env, idx, c).e, c.e.flow.next;
            if p < next + WINDOW then
              r.win[SlotOf(p)] == c.e.win[SlotOf(p)] && (HeldAt(r, p) <==> HeldAt(c.e, p))
            else !HeldAt(r, p)
  {
    hide Wire, SlotOf;
    var next := c.e.flow.next;
    if p < next + WINDOW {
      SlotsDistinct(next, p);
    } else {
      SlotPeriod(next);
    }
  }

  lemma SlotPeriod(p: nat)
    ensures SlotOf(p + WINDOW) == SlotOf(p)
  {
  }

  /** One arrival of the stream, with nothing to disturb it. It may be a repetition that is at most half
      the number space old; only a datagram that has to be held needs room in the worker. */
  lemma ArriveTracks(env: Env, st: Stream, idx: nat, c: Ctx, s: set<nat>, p: nat, now: nat)
    requires Tracks(st, idx, c, s) && WindowOk(c.e) && c.e.flow.next !in s
    requires st.Has(p) && c.e.flow.next - HALF <= p < c.e.flow.next + WINDOW
    requires !Expired(env, c.e.flow, now) && (p <= c.e.flow.next || c.total < env.cap)
    ensures var r := Arrive(env, idx, c, st.At(p), now);
            r.Returns? && Tracks(st, idx, r.v, s + {p}) && WindowOk(r.v.e) && r.v.e.flow.next !in s + {p}
  {
    hide Wire, SlotOf, SeqDelta, HeldCount, Outs, Near, Flush, MakeRoom;
    var next := c.e.flow.next;
    var d := st.At(p);
    SeqDeltaExact(p, next);
    WindowOfWire(p);
    if p < next {
      DropTracks(st, idx, c, s, p);
    } else if p == next {
      var m := EmitNew(env, idx, c, d);
      EmitNewTracks(env, st, idx, c, s);
      EmitNewNear0(env, idx, c, d);
      FlushTracks(env, st, idx, m, s + {p});
    } else {
      NoRoomNeeded(env, idx, c, d.sn);
      if p in s {
        assert HeldAt(c.e, p);
        DropTracks(st, idx, c, s, p);
      } else {
        StoreTracks(st, idx, c, s, p, now);
        StoreNear(c, d, now);
      }
    }
  }

  /** A repetition is dropped and changes nothing. */
  lemma DropTracks(st: Stream, idx: nat, c: Ctx, s: set<nat>, p: nat)
    requires Tracks(st, idx, c, s) && p in s && st.Has(p)
    ensures Tracks(st, idx, DropNew(c, st.At(p)), s + {p}) && s + {p} == s
  {
    hide Wire, SlotOf, SeqDelta, HeldCount, Outs, HeldAt;
    TraceAppend(c.trace, Drop(st.At(p)), ANY);
  }

  lemma EmitNewNear0(env: Env, idx: nat, c: Ctx, d: Datagram)
    requires Aligned(c.e.win) && WindowOk(c.e)
    ensures Near(EmitNew(env, idx, c, d).e, 0, WINDOW)
  {
    hide Wire, SlotOf, SeqDelta;
    JumpNear(c.e, 1, WINDOW);
  }

  lemma EmitNewTracks(env: Env, st: Stream, idx: nat, c: Ctx, s: set<nat>)
    requires Tracks(st, idx, c, s) && WindowOk(c.e) && c.e.flow.next !in s && st.Has(c.e.flow.next)
    ensures Tracks(st, idx, EmitNew(env, idx, c, st.At(c.e.flow.next)), s + {c.e.flow.next})
  {
    hide Wire, SlotOf, SeqDelta, HeldCount, Outs;
    var next := c.e.flow.next;
    var d := st.At(next);
    var r := EmitNew(env, idx, c, d);
    TraceAppend(c.trace, Emit(idx, next, d, env.accepts(|c.trace|)), ANY);
    forall p | next < p <= next + WINDOW
      ensures (p in s + {next} <==> HeldAt(r.e, p)) && (p in s ==> r.e.win[SlotOf(p)] == Held(st.At(p)))
    {
      if p < next + WINDOW {
        assert HeldAt(r.e, p) <==> HeldAt(c.e, p);
      } else {
        SeqDeltaExact(p, next);
      }
    }
  }

  lemma StoreTracks(st: Stream, idx: nat, c: Ctx, s: set<nat>, p: nat, now: nat)
    requires Tracks(st, idx, c, s) && WindowOk(c.e) && c.e.flow.next !in s
    requires st.Has(p) && p !in s && c.e.flow.next < p < c.e.flow.next + WINDOW
    ensures var r := Store(c, st.At(p), now);
            Tracks(st, idx, r, s + {p}) && r.e.flow.next == c.e.flow.next
  {
    hide Wire, SlotOf, SeqDelta, HeldCount, Outs;
    var next := c.e.flow.next;
    var d := st.At(p);
    var r := Store(c, d, now);
    SeqDeltaExact(p, next);
    WindowOfWire(p);
    SlotFreeOrSame(c.e, d.sn);
    assert !HeldAt(c.e, p);
    HeldCountUpdate(c.e.win, SlotOf(p), Held(d));
    forall q | next <= q < next + WINDOW
      ensures (q in s + {p} <==> HeldAt(r.e, q)) && (q in s ==> r.e.win[SlotOf(q)] == Held(st.At(q)))
    {
      if q < p {
        SlotsDistinct(q, p);
      } else if p < q {
        SlotsDistinct(p, q);
      }
      assert q != p ==> (HeldAt(r.e, q) <==> HeldAt(c.e, q));
      assert HeldAt(r.e, p);
    }
  }

  /* ---- other traffic ---- */

  /** What the stream's entry sees of the worker. */
  ghost predicate SameView(w: Worker, r: Worker, idx: nat)
    requires idx < |w.entries| && idx < |r.entries|
  {
    r.entries[idx] == w.entries[idx] && Outs(r.trace, idx) == Outs(w.trace, idx)
  }

  lemma ResetEntryFrame(w: Worker, i: nat, d: Datagram, now: nat, idx: nat)
    requires WorkerOk(w) && TableShape(w) && i < FLOW_CAP && idx < FLOW_CAP && i != idx
    ensures SameView(w, ResetEntry(w, i, d, now), idx)
  {
    hide HeldCount, HeldCopies, Disposed, Outs, LivesOk, SumHeld, SumCopies, DropFrom, EntryOk;
    var c := Open(w, i);
    var m := if c.e.flow.valid then DropFrom(c, 0) else c;
    VacateKeeps(w, i, m, ANY);
    TraceAppend(m.trace, Reset(i, d.key, NewFlow(d.key, d.epoch, d.sn, now, w.clock + 1).next), ANY);
  }

  lemma LookupFrame(env: Env, w: Worker, d: Datagram, now: nat, idx: nat)
    requires WorkerOk(w) && TableShape(w) && idx < FLOW_CAP && Find(env, w, d.key).idx != idx
    ensures SameView(w, Lookup(env, w, d, now), idx)
  {
    hide HeldCount, Outs, LivesOk, SumHeld, EntryOk, ResetEntry, Scan, SetBase;
    ResetEntryFrame(w, Find(env, w, d.key).idx, d, now, idx);
  }

  lemma SubmitFrame(env: Env, w: Worker, d: Datagram, now: nat, idx: nat)
    requires WorkerOk(w) && TableShape(w) && d.sn < M32 && env.enabled
    requires idx < FLOW_CAP && Find(env, w, d.key).idx != idx
    ensures var r := Submit(env, w, d, now); r.Returns? ==> SameView(w, r.v, idx)
  {
    hide HeldCount, HeldCopies, Disposed, Outs, LivesOk, SumHeld, EntryOk, Find, Lookup, Arrive;
    var i := Find(env, w, d.key).idx;
    var m := Lookup(env, w, d, now);
    LookupFrame(env, w, d, now, idx);
    LookupKeeps(env, w, d, now, ANY);
    OpenOk(m, i);
    ArriveKeeps(env, i, Open(m, i), d, now, ANY);
  }

  /** The collector leaves an entry alone that is neither expired nor idle. */
  predicate LeftAlone(env: Env, f: Flow, now: nat) {
    !Expired(env, f, now) && !(f.held == 0 && Elapsed(now, f.lastSeen) > FLOW_IDLE_NS)
  }

  lemma GcVisitFrame(env: Env, w: Worker, i: nat, now: nat, idx: nat)
    requires WorkerOk(w) && TableShape(w) && i < FLOW_CAP && idx < FLOW_CAP
    requires i == idx ==> LeftAlone(env, w.entries[idx].flow, now)
    ensures SameView(w, GcVisit(env, w, i, now), idx)
  {
    hide HeldCount, HeldCopies, Disposed, Outs, LivesOk, SumHeld, EntryOk, SkipGap, Elapsed;
    var c := Open(w, i);
    if c.e.flow.valid {
      OpenOk(w, i);
      SkipGapKeeps(env, i, c, ANY);
    }
  }

  lemma {:induction false} GcFromFrame(env: Env, w: Worker, now: nat, n: nat, idx: nat)
    requires WorkerOk(w) && TableShape(w) && n <= GC_SLICE && idx < FLOW_CAP
    requires LeftAlone(env, w.entries[idx].flow, now)
    ensures SameView(w, GcFrom(env, w, now, n), idx)
    decreases GC_SLICE - n
  {
    hide WorkerOk, Outs, GcVisit, LeftAlone;
    if n < GC_SLICE {
      var i := (w.cursor + n) % FLOW_CAP;
      GcVisitFrame(env, w, i, now, idx);
      GcVisitKeeps(env, w, i, now, ANY);
      GcFromFrame(env, GcVisit(env, w, i, now), now, n + 1, idx);
    }
  }

  lemma GcFrame(env: Env, w: Worker, now: nat, idx: nat)
    requires WorkerOk(w) && TableShape(w) && idx < FLOW_CAP
    requires LeftAlone(env, w.entries[idx].flow, now)
    ensures SameView(w, Gc(env, w, now), idx)
  {
    hide WorkerOk, Outs, GcFrom, LeftAlone;
    GcFromFrame(env, w, now, 0, idx);
  }

  /* ---- the run ---- */

  /** One call at the receiver: the arrival of position `p` of the stream, or anything else. */
  datatype Call = Mine(p: nat, now: nat) | Theirs(op: Op)

  function AsOp(st: Stream, a: Call): Op
    requires a.Mine? ==> st.Has(a.p)
  {
    match a
    case Mine(p, now) => OpSubmit(st.At(p), now)
    case Theirs(op) => op
  }

  /** The positions among the calls that belong to the stream. */
  function Arrivals(calls: seq<Call>): set<nat> {
    if |calls| == 0 then {}
    else Arrivals(calls[..|calls| - 1]) + (if calls[|calls| - 1].Mine? then {calls[|calls| - 1].p} else {})
  }

  /** Everything a window or more before position `p` has arrived: it is less than a window ahead of the
      smallest missing position. It may have arrived before. */
  ghost predicate InReach(st: Stream, s: set<nat>, p: nat) {
    st.Has(p) && forall q :: st.start <= q && q + WINDOW <= p ==> q in s
  }

  /** A call that does not disturb the stream's entry `idx`: a datagram of the stream meets no gap
      timeout and, if it has to be held, no full worker, and a repetition is less than half the number
      space old; another flow's datagram does not take the entry over; the collector
      finds it neither expired nor idle; there is no worker reset. */
  ghost predicate Calm(env: Env, st: Stream, idx: nat, w: Worker, s: set<nat>, a: Call)
    requires TableShape(w) && idx < FLOW_CAP
  {
    match a
    case Mine(p, now) =>
      && InReach(st, s, p)
      && Find(env, w, st.key) == Hit(idx)
      && !Expired(env, w.entries[idx].flow, now)
      && w.entries[idx].flow.next <= p + HALF
      && (p <= w.entries[idx].flow.next || w.total < env.cap)
    case Theirs(OpSubmit(d, now)) =>
      d.sn < M32 && Find(env, w, d.key).idx != idx && Submit(env, w, d, now).Returns?
    case Theirs(OpGc(now)) => LeftAlone(env, w.entries[idx].flow, now)
    case Theirs(OpReset) => false
  }

  /** Every call of the run is calm in the state it meets. */
  ghost predicate CalmRun(env: Env, st: Stream, idx: nat, w: Worker, s: set<nat>, calls: seq<Call>)
    requires TableShape(w) && idx < FLOW_CAP
    decreases |calls|
  {
    |calls| > 0 ==>
      Calm(env, st, idx, w, s, calls[0]) &&
      var r := Step(env, w, AsOp(st, calls[0]));
      r.Returns? ==> CalmRun(env, st, idx, r.v, s + Arrivals(calls[..1]), calls[1..])
  }

  /** The state after the calls, unless one of them never returns. */
  function Play(env: Env, st: Stream, w: Worker, calls: seq<Call>): (r: Outcome<Worker>)
    requires TableShape(w)
    requires forall i :: 0 <= i < |calls| ==>
               (calls[i].Mine? ==> st.Has(calls[i].p)) && OpOk(AsOp(st, calls[i]))
    ensures r.Returns? ==> TableShape(r.v)
    decreases |calls|
  {
    if |calls| == 0 then Returns(w)
    else
      match Step(env, w, AsOp(st, calls[0]))
      case Hangs => Hangs
      case Returns(v) => Play(env, st, v, calls[1..])
  }

  ghost predicate Following(st: Stream, idx: nat, w: Worker, s: set<nat>)
    requires idx < |w.entries|
  {
    var c := Open(w, idx);
    Tracks(st, idx, c, s) && WindowOk(c.e) && c.e.flow.next !in s
  }

  lemma FollowMine(env: Env, st: Stream, idx: nat, w: Worker, s: set<nat>, p: nat, now: nat)
    requires WorkerOk(w) && TableShape(w) && env.enabled && idx < FLOW_CAP
    requires Following(st, idx, w, s) && Calm(env, st, idx, w, s, Mine(p, now))
    ensures var r := Submit(env, w, st.At(p), now); r.Returns? && Following(st, idx, r.v, s + {p})
  {
    hide WorkerOk, Outs, Arrive, Find, HeldCount, Wire, SeqDelta, SlotOf;
    var m := Touch(w, idx, now);
    var c := Open(m, idx);
    assert Lookup(env, w, st.At(p), now) == m;
    assert c.e.win == w.entries[idx].win && c.e.flow.next == w.entries[idx].flow.next;
    TouchTracks(st, idx, Open(w, idx), c, s);
    ArriveTracks(env, st, idx, c, s, p, now);
  }

  lemma TouchTracks(st: Stream, idx: nat, c: Ctx, r: Ctx, s: set<nat>)
    requires Tracks(st, idx, c, s) && WindowOk(c.e)
    requires r.e.win == c.e.win && r.total == c.total && Outs(r.trace, idx) == Outs(c.trace, idx)
    requires exists t, n :: r.e.flow == c.e.flow.(lastSeen := t, stamp := n)
    ensures Tracks(st, idx, r, s) && WindowOk(r.e)
  {
    hide Outs, HeldCount, Wire, SeqDelta, SlotOf;
    assert forall p: nat :: HeldAt(r.e, p) <==> HeldAt(c.e, p);
  }

  lemma FollowTheirs(env: Env, st: Stream, idx: nat, w: Worker, s: set<nat>, op: Op)
    requires WorkerOk(w) && TableShape(w) && env.enabled && idx < FLOW_CAP && OpOk(op)
    requires Following(st, idx, w, s) && Calm(env, st, idx, w, s, Theirs(op))
    ensures var r := Step(env, w, op); r.Returns? && Following(st, idx, r.v, s)
  {
    hide EntryOk, SumHeld, LivesOk, Outs, Submit, Gc, Find, HeldCount, Wire, SeqDelta, SlotOf;
    match op {
      case OpSubmit(d, now) => SubmitFrame(env, w, d, now, idx);
      case OpGc(now) => GcFrame(env, w, now, idx);
      case OpReset =>
    }
    StepKeeps(env, w, op, ANY);
    var r := Step(env, w, op).v;
    HeldWithinTotal(r, idx);
    TracksFrame(st, idx, w, r, s);
  }

  lemma HeldWithinTotal(w: Worker, idx: nat)
    requires WorkerOk(w) && idx < FLOW_CAP
    ensures HeldCount(w.entries[idx].win) <= w.total
  {
    hide EntryOk, SumHeld, LivesOk, Outs, HeldCount;
    SumUpdate(w.entries, idx, w.entries[idx], ANY);
  }

  lemma TracksFrame(st: Stream, idx: nat, w: Worker, r: Worker, s: set<nat>)
    requires idx < |w.entries| && idx < |r.entries| && Following(st, idx, w, s) && SameView(w, r, idx)
    requires HeldCount(r.entries[idx].win) <= r.total
    ensures Following(st, idx, r, s)
  {
    hide Outs, HeldCount, Wire, SeqDelta, SlotOf, Near;
    assert forall p: nat :: HeldAt(Open(r, idx).e, p) <==> HeldAt(Open(w, idx).e, p);
  }

  lemma ArrivalsStep(calls: seq<Call>)
    requires |calls| > 0
    ensures Arrivals(calls) == Arrivals(calls[..1]) + Arrivals(calls[1..])
  {
    if |calls| == 1 {
      assert calls[..1] == calls;
    } else {
      var n := |calls| - 1;
      ArrivalsStep(calls[..n]);
      assert calls[..n][..1] == calls[..1];
      assert calls[..n][1..] == calls[1..][..n - 1];
    }
  }

  lemma {:induction false} PlayFollows(env: Env, st: Stream, idx: nat, w: Worker, s: set<nat>, calls: seq<Call>)
    requires WorkerOk(w) && TableShape(w) && env.enabled && idx < FLOW_CAP && Following(st, idx, w, s)
    requires forall i :: 0 <= i < |calls| ==>
               (calls[i].Mine? ==> st.Has(calls[i].p)) && OpOk(AsOp(st, calls[i]))
    requires CalmRun(env, st, idx, w, s, calls)
    ensures var r := Play(env, st, w, calls); r.Returns? && Following(st, idx, r.v, s + Arrivals(calls))
    decreases |calls|
  {
    hide WorkerOk, Following, Calm, Submit, Gc, ResetWorker;
    if |calls| == 0 {
      assert s + Arrivals(calls) == s;
    } else {
      var a := calls[0];
      var s' := s + Arrivals(calls[..1]);
      if a.Mine? {
        FollowMine(env, st, idx, w, s, a.p, a.now);
        assert calls[..1][..0] == [];
        assert Arrivals(calls[..1]) == {a.p};
      } else {
        FollowTheirs(env, st, idx, w, s, a.op);
        assert calls[..1][..0] == [];
        assert Arrivals(calls[..1]) == {};
        assert s' == s;
      }
      var v := Step(env, w, AsOp(st, a)).v;
      StepKeeps(env, w, AsOp(st, a), ANY);
      PlayFollows(env, st, idx, v, s', calls[1..]);
      ArrivalsStep(calls);
      assert s' + Arrivals(calls[1..]) == s + Arrivals(calls);
    }
  }

  /** The first datagram of the stream opens entry `idx` at the stream's first position: the flow has no entry
      or one of another epoch, and the datagram is one of the first 33 of a stream from 0, or 32 after the
      first of a later one. If it has to be held, the worker has room once the entry is emptied. */
  predicate Opens(env: Env, st: Stream, idx: nat, w: Worker, p: nat)
    requires TableShape(w)
  {
    && idx < FLOW_CAP && st.Has(p) && p < M32
    && p - st.start == (if p < START_BACKTRACK then p else START_BACKTRACK)
    && (Find(env, w, st.key) == Victim(idx)
        || (Find(env, w, st.key) == Hit(idx) && w.entries[idx].flow.epoch != st.epoch))
    && (p == st.start || w.total - w.entries[idx].flow.held < env.cap)
  }

  lemma FirstArrival(env: Env, st: Stream, idx: nat, w: Worker, p: nat, now: nat)
    requires WorkerOk(w) && TableShape(w) && env.enabled && Opens(env, st, idx, w, p)
    ensures var r := Submit(env, w, st.At(p), now); r.Returns? && Following(st, idx, r.v, {p})
  {
    hide WorkerOk, Outs, Arrive, Find, HeldCount, SeqDelta, SlotOf, Near, Following;
    var d := st.At(p);
    var m := Lookup(env, w, d, now);
    OpenedTracks(env, st, idx, w, p, now);
    var c := Open(m, idx);
    ArriveTracks(env, st, idx, c, {}, p, now);
    assert {} + {p} == {p};
    var r := Arrive(env, idx, c, d, now).v;
    FollowingOf(st, idx, Close(m, idx, r), r, {p});
  }

  lemma FollowingOf(st: Stream, idx: nat, w: Worker, c: Ctx, s: set<nat>)
    requires idx < |w.entries| && Open(w, idx) == c && Tracks(st, idx, c, s) && WindowOk(c.e) && c.e.flow.next !in s
    ensures Following(st, idx, w, s)
  {
    hide Tracks, Near;
  }

  /** The entry as the first datagram meets it: fresh, at the stream's first position. */
  lemma OpenedTracks(env: Env, st: Stream, idx: nat, w: Worker, p: nat, now: nat)
    requires WorkerOk(w) && TableShape(w) && env.enabled && Opens(env, st, idx, w, p)
    ensures var m := Lookup(env, w, st.At(p), now);
            var c := Open(m, idx);
            && Find(env, w, st.key).idx == idx && Tracks(st, idx, c, {}) && WindowOk(c.e)
            && c.e.flow.next == st.start && c.e.flow.held == 0
            && (p == st.start || c.total < env.cap)
  {
    hide WorkerOk, Outs, Find, HeldCount, SeqDelta, SlotOf, ResetEntry, Near, HeldAt;
    var d := st.At(p);
    var r := ResetEntry(w, idx, d, now);
    var m := Lookup(env, w, d, now);
    ResetEntryKeeps(w, idx, d, now, ANY);
    EntryHeld(w, idx);
    EntryHeld(r, idx);
    WireSmall(p);
    var c := Open(m, idx);
    assert m == r || m == Touch(r, idx, now);
    assert c.e.win == r.entries[idx].win && c.total == r.total && c.trace == r.trace;
    HeldCountZero(c.e.win);
    EmptyTracks(st, idx, c);
    EmptyWindowOk(c.e);
  }

  lemma EmptyTracks(st: Stream, idx: nat, c: Ctx)
    requires Aligned(c.e.win) && c.e.flow.valid && c.e.flow.key == st.key && c.e.flow.epoch == st.epoch
    requires c.e.flow.next == st.start && c.e.flow.held == 0 && Outs(c.trace, idx) == []
    requires HeldCount(c.e.win) == 0 && forall i :: 0 <= i < WINDOW ==> c.e.win[i].Empty?
    ensures Tracks(st, idx, c, {})
  {
    hide Outs, HeldCount, Wire, SlotOf;
  }

  /** Main end-to-end theorem. A sender numbers the items of one direction from some position on, 0 after a
      start; they arrive in any order, each less than a window ahead of the smallest missing one,
      repetitions included, mixed with any other calls; the first opens the entry at the first position,
      also over an entry of an earlier epoch; no gap timeout, eviction or collection hits the entry, and
      the worker has room when a datagram has to be held. When all n have arrived, the entry has handed
      exactly the n items to `emit`, in sending order. There is no bound on n: the wire numbers may wrap
      around any number of times. */
  lemma EndToEnd(env: Env, st: Stream, idx: nat, w: Worker, p: nat, now: nat, calls: seq<Call>)
    requires WorkerOk(w) && TableShape(w) && env.enabled && Opens(env, st, idx, w, p)
    requires forall i :: 0 <= i < |calls| ==>
               (calls[i].Mine? ==> st.Has(calls[i].p)) && OpOk(AsOp(st, calls[i]))
    requires var r := Submit(env, w, st.At(p), now); r.Returns? ==> CalmRun(env, st, idx, r.v, {p}, calls)
    requires forall q :: st.Has(q) ==> q == p || q in Arrivals(calls)
    ensures var first := Submit(env, w, st.At(p), now);
            first.Returns? &&
            var r := Play(env, st, first.v, calls);
            r.Returns? &&
            var o := Outs(r.v.trace, idx);
            |o| == |st.items| &&
            forall k :: 0 <= k < |o| ==> o[k].Emit? && o[k].d == st.At(st.start + k) && o[k].pos == st.start + k
  {
    hide WorkerOk, Outs, Submit, Find, HeldCount, SeqDelta, SlotOf, CalmRun, Play, Near;
    FirstArrival(env, st, idx, w, p, now);
    SubmitKeeps(env, w, st.At(p), now, ANY);
    var v := Submit(env, w, st.At(p), now).v;
    PlayFollows(env, st, idx, v, {p}, calls);
    var r := Play(env, st, v, calls).v;
    var s := {p} + Arrivals(calls);
    var c := Open(r, idx);
    assert Tracks(st, idx, c, s);
    var n := c.e.flow.next;
    assert n !in s && (n > st.start ==> n - 1 in s);
  }

  lemma {:induction false} HeldIsCopies(win: seq<Slot>)
    ensures HeldCount(win) == HeldCopies(win, ANY)
  {
    if |win| > 0 {
      HeldIsCopies(win[..|win| - 1]);
    }
  }

  lemma {:induction false} SumHeldIsCopies(es: seq<Entry>)
    ensures SumHeld(es) == SumCopies(es, ANY)
  {
    hide HeldCount, HeldCopies;
    if |es| > 0 {
      SumHeldIsCopies(es[..|es| - 1]);
      HeldIsCopies(es[|es| - 1].win);
    }
  }

  /** The empty table has room for any flow, in the first way of its set. */
  lemma StartHasRoom(env: Env, key: Key)
    ensures Find(env, Start(), key) == Victim(SetBase(env, key)) && Start().total == 0
  {
    hide SetBase;
  }

  /** A flow whose entry is in the first way of its set is found there. */
  lemma FirstWayHit(env: Env, w: Worker, key: Key)
    requires TableShape(w) && Owns(w.entries[SetBase(env, key)], key)
    ensures Find(env, w, key) == Hit(SetBase(env, key))
  {
    hide SetBase;
  }

  /** The conditions of the end-to-end theorem can be met: two datagrams that overtake each other on the
      way to a worker that has seen nothing yet are emitted in sending order. */
  lemma SwappedPair(env: Env, st: Stream, w: Worker, now: nat)
    requires env.enabled && env.cap >= 2 && env.hold > 0 && st.start == 0 && |st.items| == 2 && w == Start()
    ensures var first := Submit(env, w, st.At(1), now);
            first.Returns? &&
            var r := Play(env, st, first.v, [Mine(0, now)]);
            r.Returns? &&
            var o := Outs(r.v.trace, SetBase(env, st.key));
            |o| == 2 && o[0].Emit? && o[0].d == st.At(0) && o[1].Emit? && o[1].d == st.At(1)
  {
    hide WorkerOk, TableShape, Outs, Submit, Find, Play, SetBase, Start, CalmRun, AllCopies;
    StartOk(ANY);
    StartHasRoom(env, st.key);
    PairFirst(env, st, w, now);
    PairArrivals(now);
    PairOpens(env, st, w);
    EndToEnd(env, st, SetBase(env, st.key), w, 1, now, [Mine(0, now)]);
  }

  lemma PairOpens(env: Env, st: Stream, w: Worker)
    requires TableShape(w) && w.total == 0 && env.cap >= 2 && st.start == 0 && |st.items| == 2
    requires Find(env, w, st.key) == Victim(SetBase(env, st.key))
    ensures Opens(env, st, SetBase(env, st.key), w, 1)
  {
    hide Find, SetBase;
  }

  lemma PairArrivals(now: nat)
    ensures Arrivals([Mine(0, now)]) == {0}
  {
  }

  lemma PairFirst(env: Env, st: Stream, w: Worker, now: nat)
    requires env.enabled && env.cap >= 2 && env.hold > 0 && st.start == 0 && |st.items| == 2
    requires WorkerOk(w) && TableShape(w) && AllCopies(w, ANY) == 0 && w.total == 0
    requires Find(env, w, st.key) == Victim(SetBase(env, st.key))
    ensures var r := Submit(env, w, st.At(1), now);
            r.Returns? && CalmRun(env, st, SetBase(env, st.key), r.v, {1}, [Mine(0, now)])
  {
    hide WorkerOk, Outs, Submit, Find, HeldCount, HeldAt, Near, SetBase, CalmRun, AllCopies;
    var idx := SetBase(env, st.key);
    PairOpens(env, st, w);
    FirstArrival(env, st, idx, w, 1, now);
    FirstGap(env, st, idx, w, now);
    SubmitKeeps(env, w, st.At(1), now, ANY);
    var v := Submit(env, w, st.At(1), now).v;
    FirstWayHit(env, v, st.key);
    OneHeld(v);
    PairCalm(env, st, idx, v, now);
  }

  /** The gap clock of a flow that starts with number 1 starts with it. */
  lemma FirstGap(env: Env, st: Stream, idx: nat, w: Worker, now: nat)
    requires WorkerOk(w) && TableShape(w) && env.enabled && w.total < env.cap && st.start == 0 && |st.items| == 2
    requires Find(env, w, st.key) == Victim(idx)
    ensures var r := Submit(env, w, st.At(1), now);
            r.Returns? && idx < FLOW_CAP && r.v.entries[idx].flow.gapSince == now && r.v.entries[idx].flow.next == 0
  {
    hide WorkerOk, Outs, Find, HeldCount, SlotOf, ResetEntry, MakeRoom, Flush, SkipGap, SeqDelta;
    var d := st.At(1);
    var m := ResetEntry(w, idx, d, now);
    ResetEntryKeeps(w, idx, d, now, ANY);
    WireSmall(1);
    WireSmall(0);
    SeqDeltaExact(1, 0);
    var c := Open(m, idx);
    HeldCountZero(c.e.win);
    NoRoomNeeded(env, idx, c, d.sn);
  }

  lemma OneHeld(w: Worker)
    requires WorkerOk(w) && AllCopies(w, ANY) == 1
    ensures w.total <= 1
  {
    hide SumHeld, SumCopies, Disposed;
    SumHeldIsCopies(w.entries);
  }

  lemma PairCalm(env: Env, st: Stream, idx: nat, w: Worker, now: nat)
    requires TableShape(w) && idx < FLOW_CAP && w.total < env.cap && env.hold > 0 && st.start == 0 && |st.items| == 2
    requires w.entries[idx].flow.gapSince == now && w.entries[idx].flow.next == 0
    requires Find(env, w, st.key) == Hit(idx)
    ensures CalmRun(env, st, idx, w, {1}, [Mine(0, now)])
  {
    hide Find, Step;
    var calls := [Mine(0, now)];
    assert calls[1..] == [];
  }
}
