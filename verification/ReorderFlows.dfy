/** One entry per flow: exactly when the reorder table keeps it, and what follows for the order of a
    flow's datagrams over whole runs. */
module ReorderFlows {
  import opened Serial
  import opened ReorderModel
  import opened ReorderEntry
  import opened ReorderTable
  import opened ReorderRuns

  /* ---- one entry per flow ---- */

  ghost predicate OneEntry(w: Worker) {
    forall i, j :: 0 <= i < j < |w.entries| && w.entries[i].flow.valid && w.entries[j].flow.valid ==>
      w.entries[i].flow.key != w.entries[j].flow.key
  }

  predicate InSet(env: Env, key: Key, i: int) {
    SetBase(env, key) <= i < SetBase(env, key) + WAYS
  }

  /** Every flow's entries are in the flow's set. */
  ghost predicate InSets(env: Env, w: Worker) {
    forall i :: 0 <= i < |w.entries| && w.entries[i].flow.valid ==> InSet(env, w.entries[i].flow.key, i)
  }

  /** The flow owns an entry behind a free way of its set. */
  ghost predicate Hidden(env: Env, w: Worker, key: Key)
    requires |w.entries| == FLOW_CAP
  {
    exists i, j :: InSet(env, key, i) && InSet(env, key, j) && j < i
                   && Owns(w.entries[i], key) && !w.entries[j].flow.valid
  }

  /** `r` has at most the entries of `w`, for the same flows. */
  ghost predicate Subtable(r: Worker, w: Worker) {
    && |r.entries| == |w.entries|
    && forall i :: 0 <= i < |r.entries| && r.entries[i].flow.valid ==> Owns(w.entries[i], r.entries[i].flow.key)
  }

  lemma SubtableKeeps(env: Env, r: Worker, w: Worker)
    requires Subtable(r, w)
    ensures OneEntry(w) ==> OneEntry(r)
    ensures InSets(env, w) ==> InSets(env, r)
  {
    hide SetBase;
  }

  lemma ResetEntryFlows(w: Worker, idx: nat, d: Datagram, now: nat)
    requires TableShape(w) && idx < FLOW_CAP
    ensures var r := ResetEntry(w, idx, d, now);
            && Owns(r.entries[idx], d.key)
            && forall i :: 0 <= i < FLOW_CAP && i != idx ==> r.entries[i] == w.entries[i]
  {
    hide DropFrom;
  }

  /** Which flow owns which entry after a lookup. */
  lemma LookupFlows(env: Env, w: Worker, d: Datagram, now: nat)
    requires TableShape(w)
    ensures var r, idx := Lookup(env, w, d, now), Find(env, w, d.key).idx;
            && Owns(r.entries[idx], d.key)
            && forall i :: 0 <= i < FLOW_CAP && i != idx ==> r.entries[i] == w.entries[i]
  {
    hide ResetEntry, Scan, SetBase;
    ResetEntryFlows(w, Find(env, w, d.key).idx, d, now);
  }

  /** Exactly when a lookup gives a flow a second entry: its own one is hidden behind a free way. */
  lemma LookupOneEntryIff(env: Env, w: Worker, d: Datagram, now: nat)
    requires TableShape(w) && OneEntry(w) && InSets(env, w)
    ensures InSets(env, Lookup(env, w, d, now))
    ensures OneEntry(Lookup(env, w, d, now)) <==> !Hidden(env, w, d.key)
  {
    hide Lookup, Scan, SetBase;
    var r, v := Lookup(env, w, d, now), Find(env, w, d.key).idx;
    LookupFlows(env, w, d, now);
    FindIff(env, w, d.key);
    forall i | 0 <= i < FLOW_CAP && i != v && Owns(w.entries[i], d.key) ensures Hidden(env, w, d.key) {
      assert InSet(env, d.key, i);
      var j :| SetBase(env, d.key) <= j < i && !Passes(w.entries[j], d.key);
      assert InSet(env, d.key, j);
    }
    if Hidden(env, w, d.key) {
      var i, j :| InSet(env, d.key, i) && InSet(env, d.key, j) && j < i
                  && Owns(w.entries[i], d.key) && !w.entries[j].flow.valid;
      assert i != v;
      assert Owns(r.entries[i], d.key);
      assert i < v || v < i;
    }
  }

  /** What a lookup returns, in terms of the ways of the flow's set. */
  lemma FindIff(env: Env, w: Worker, key: Key)
    requires |w.entries| == FLOW_CAP
    ensures var f, b := Find(env, w, key), SetBase(env, key);
            && InSet(env, key, f.idx)
            && (f.Hit? ==> forall j :: b <= j < f.idx ==> Passes(w.entries[j], key))
            && (f.Victim? && w.entries[f.idx].flow.valid ==>
                  forall j :: b <= j < b + WAYS ==> Passes(w.entries[j], key))
            && forall i :: InSet(env, key, i) && Owns(w.entries[i], key) && i != f.idx ==>
                 exists j :: b <= j < i && !Passes(w.entries[j], key)
  {
    hide Scan;
    var b := SetBase(env, key);
    forall i | InSet(env, key, i)
      ensures Find(env, w, key) == Hit(i) <==>
                Owns(w.entries[i], key) && forall j :: b <= j < i ==> Passes(w.entries[j], key)
    {
      FindHitIff(env, w, key, i);
    }
    ScanIff(w.entries, b, 0, b, key, Find(env, w, key).idx);
  }

  /** The entry a submit used is the one the flow is found at afterwards. */
  lemma FoundAgain(env: Env, w: Worker, v: Worker, key: Key)
    requires |w.entries| == |v.entries| == FLOW_CAP
    requires var i := Find(env, w, key).idx;
             Owns(v.entries[i], key) && forall j :: 0 <= j < FLOW_CAP && j != i ==> v.entries[j] == w.entries[j]
    ensures Find(env, v, key) == Hit(Find(env, w, key).idx)
  {
    hide Scan, SetBase;
    FindIff(env, w, key);
    FindWays(env, w, key);
    FindHitIff(env, v, key, Find(env, w, key).idx);
  }

  lemma FindWays(env: Env, w: Worker, key: Key)
    requires |w.entries| == FLOW_CAP
    ensures forall j :: SetBase(env, key) <= j < Find(env, w, key).idx ==> Passes(w.entries[j], key)
  {
    hide Scan;
    ScanIff(w.entries, SetBase(env, key), 0, SetBase(env, key), key, Find(env, w, key).idx);
  }

  lemma ArriveFlows(env: Env, idx: nat, m: Worker, d: Datagram, now: nat)
    requires WorkerOk(m) && TableShape(m) && idx < FLOW_CAP && m.entries[idx].flow.valid && d.sn < M32
    requires Belongs(d, m.entries[idx].flow)
    ensures var r := Arrive(env, idx, Open(m, idx), d, now);
            r.Returns? ==> Subtable(Close(m, idx, r.v), m) && Subtable(m, Close(m, idx, r.v))
  {
    hide Arrive, Outs, EntryOk, LivesOk, HeldCount, HeldCopies, Disposed, SumHeld;
    OpenOk(m, idx);
    ArriveKeeps(env, idx, Open(m, idx), d, now, ANY);
  }

  /** Main table theorem for one call: submit keeps one entry per flow if and only if the flow does not own
      an entry behind a free way of its set. */
  lemma SubmitOneEntryIff(env: Env, w: Worker, d: Datagram, now: nat)
    requires WorkerOk(w) && TableShape(w) && d.sn < M32 && OneEntry(w) && InSets(env, w)
    ensures var r := Submit(env, w, d, now);
            r.Returns? ==> InSets(env, r.v) && (OneEntry(r.v) <==> !(env.enabled && Hidden(env, w, d.key)))
  {
    hide Lookup, Find, Arrive, WorkerOk, SetBase, Hidden;
    if env.enabled {
      var idx, m := Find(env, w, d.key).idx, Lookup(env, w, d, now);
      LookupOneEntryIff(env, w, d, now);
      LookupKeeps(env, w, d, now, ANY);
      ArriveFlows(env, idx, m, d, now);
      var r := Arrive(env, idx, Open(m, idx), d, now);
      if r.Returns? {
        SubtableKeeps(env, Close(m, idx, r.v), m);
        SubtableKeeps(env, m, Close(m, idx, r.v));
      }
    } else {
      var r := Submit(env, w, d, now).v;
      assert Subtable(r, w);
      SubtableKeeps(env, r, w);
    }
  }

  lemma GcVisitFlows(env: Env, w: Worker, idx: nat, now: nat)
    requires WorkerOk(w) && TableShape(w) && idx < FLOW_CAP
    ensures Subtable(GcVisit(env, w, idx, now), w)
  {
    hide SkipGap, Outs, EntryOk, LivesOk, HeldCount, HeldCopies, Disposed, SumHeld, Elapsed;
    if w.entries[idx].flow.valid {
      OpenOk(w, idx);
      SkipGapKeeps(env, idx, Open(w, idx), ANY);
    }
  }

  lemma {:induction false} GcFromFlows(env: Env, w: Worker, now: nat, n: nat)
    requires WorkerOk(w) && TableShape(w) && n <= GC_SLICE
    ensures Subtable(GcFrom(env, w, now, n), w)
    decreases GC_SLICE - n
  {
    hide WorkerOk, GcVisit;
    if n < GC_SLICE {
      var i := (w.cursor + n) % FLOW_CAP;
      GcVisitFlows(env, w, i, now);
      GcVisitKeeps(env, w, i, now, ANY);
      GcFromFlows(env, GcVisit(env, w, i, now), now, n + 1);
    }
  }

  lemma {:induction false} ClearFromFlows(w: Worker, idx: nat)
    requires TableShape(w) && idx <= FLOW_CAP
    ensures Subtable(ClearFrom(w, idx), w)
    decreases FLOW_CAP - idx
  {
    hide DropFrom;
    if idx < FLOW_CAP {
      ClearFromFlows(ClearEntry(w, idx), idx + 1);
    }
  }

  /** Collection and worker reset give no flow an entry. */
  lemma OtherCallsKeep(env: Env, w: Worker, op: Op)
    requires WorkerOk(w) && TableShape(w) && !op.OpSubmit?
    ensures Step(env, w, op).Returns? && Subtable(Step(env, w, op).v, w)
    ensures OneEntry(w) ==> OneEntry(Step(env, w, op).v)
    ensures InSets(env, w) ==> InSets(env, Step(env, w, op).v)
  {
    hide WorkerOk, GcFrom, ClearFrom, InSets, OneEntry;
    match op {
      case OpGc(now) => GcFromFlows(env, w, now, 0);
      case OpReset => ClearFromFlows(w, 0);
    }
    SubtableKeeps(env, Step(env, w, op).v, w);
  }

  /** No submit of the run meets a flow whose entry is hidden. */
  ghost predicate NeverHidden(env: Env, ops: seq<Op>)
    requires OpsOk(ops)
  {
    |ops| == 0 ||
    var init, op := ops[..|ops| - 1], ops[|ops| - 1];
    NeverHidden(env, init) &&
    var p := Run(env, init);
    p.Returns? && op.OpSubmit? && env.enabled ==> !Hidden(env, p.v, op.d.key)
  }

  /* ---- what a call adds to the trace ---- */

  /** Every emit that was added is entry `idx`'s and of flow `key`, and no life was started. */
  ghost predicate Adds(t: seq<Event>, t': seq<Event>, idx: nat, key: Key) {
    && t <= t'
    && forall m :: |t| <= m < |t'| ==> !t'[m].Reset? && (t'[m].Emit? ==> t'[m].idx == idx && t'[m].d.key == key)
  }

  lemma {:induction false} FlushAdds(env: Env, idx: nat, c: Ctx)
    requires CtxOk(idx, c)
    ensures Adds(c.trace, Flush(env, idx, c).trace, idx, c.e.flow.key)
    decreases HeldCount(c.e.win)
  {
    hide Wire, SlotOf, HeldCount, Outs, LivesOk, InOrder;
    if NextIsHeld(c.e) {
      EmitSlotKeeps(env, idx, c, ANY);
      FlushAdds(env, idx, EmitSlot(env, idx, c));
    }
  }

  lemma SkipGapAdds(env: Env, idx: nat, c: Ctx)
    requires CtxOk(idx, c)
    ensures Adds(c.trace, SkipGap(env, idx, c).trace, idx, c.e.flow.key)
  {
    hide Wire, SlotOf, HeldCount, Outs, LivesOk, SmallestAhead, Flush;
    var f := c.e.flow;
    var d := SmallestAhead(c.e.win, Wire(f.next));
    if d != NO_DELTA {
      FlushAdds(env, idx, c.(e := c.e.(flow := f.(next := f.next + d))));
    }
  }

  lemma {:induction false} MakeRoomAdds(env: Env, idx: nat, c: Ctx, sn: nat)
    requires CtxOk(idx, c)
    ensures var r := MakeRoom(env, idx, c, sn); r.Returns? ==> Adds(c.trace, r.v.trace, idx, c.e.flow.key)
    decreases HeldCount(c.e.win)
  {
    hide Wire, SlotOf, HeldCount, Outs, LivesOk, EntryOk, SmallestAhead, SkipGap, SeqDelta;
    if RoomGuard(c, sn) && SmallestAhead(c.e.win, Wire(c.e.flow.next)) != NO_DELTA {
      CtxAligned(idx, c);
      SkipGapReleases(env, idx, c);
      SkipGapAdds(env, idx, c);
      SkipGapKeeps(env, idx, c, ANY);
      MakeRoomAdds(env, idx, SkipGap(env, idx, c), sn);
    }
  }

  lemma CtxAligned(idx: nat, c: Ctx)
    requires CtxOk(idx, c)
    ensures Aligned(c.e.win)
  {
  }

  lemma PlaceAdds(env: Env, idx: nat, c: Ctx, d: Datagram, now: nat)
    requires CtxOk(idx, c) && d.sn < M32
    ensures Adds(c.trace, Place(env, idx, c, d, now).trace, idx, c.e.flow.key)
  {
    hide Wire, SlotOf, HeldCount, Outs, LivesOk, SkipGap;
    SkipGapAdds(env, idx, c);
  }

  lemma EmitNewOk(env: Env, idx: nat, c: Ctx, d: Datagram)
    requires CtxOk(idx, c) && Belongs(d, c.e.flow) && d.sn < M32 && SeqDelta(d.sn, Wire(c.e.flow.next)) == 0
    ensures CtxOk(idx, EmitNew(env, idx, c, d))
  {
    hide Wire, SlotOf, SeqDelta, HeldCount, Outs, LivesOk;
    TraceAppend(c.trace, Emit(idx, c.e.flow.next, d, env.accepts(|c.trace|)), ANY);
    SeqDeltaLands(d.sn, c.e.flow.next);
  }

  lemma EmitNewAdds(env: Env, idx: nat, c: Ctx, d: Datagram)
    requires CtxOk(idx, c) && Belongs(d, c.e.flow) && d.sn < M32 && SeqDelta(d.sn, Wire(c.e.flow.next)) == 0
    ensures Adds(c.trace, Flush(env, idx, EmitNew(env, idx, c, d)).trace, idx, c.e.flow.key)
  {
    hide Wire, SlotOf, HeldCount, Outs, LivesOk, SeqDelta, Flush;
    EmitNewOk(env, idx, c, d);
    FlushAdds(env, idx, EmitNew(env, idx, c, d));
  }

  lemma ArriveAdds(env: Env, idx: nat, c: Ctx, d: Datagram, now: nat)
    requires CtxOk(idx, c) && Belongs(d, c.e.flow) && d.sn < M32
    ensures var r := Arrive(env, idx, c, d, now); r.Returns? ==> Adds(c.trace, r.v.trace, idx, c.e.flow.key)
  {
    hide Wire, CtxOk, SkipGap, SeqDelta, Flush, MakeRoom, Place;
    CtxAligned(idx, c);
    SkipGapAdds(env, idx, c);
    SkipGapKeeps(env, idx, c, ANY);
    var c0 := if Expired(env, c.e.flow, now) then SkipGap(env, idx, c) else c;
    var delta := SeqDelta(d.sn, Wire(c0.e.flow.next));
    if delta == 0 {
      EmitNewAdds(env, idx, c0, d);
    } else if delta > 0 {
      MakeRoomAdds(env, idx, c0, d.sn);
      MakeRoomKeeps(env, idx, c0, d.sn, ANY);
      var m := MakeRoom(env, idx, c0, d.sn);
      if m.Returns? {
        PlaceAdds(env, idx, m.v, d, now);
        if SeqDelta(d.sn, Wire(m.v.e.flow.next)) == 0 {
          EmitNewAdds(env, idx, m.v, d);
        }
      }
    }
  }

  lemma {:induction false} DropFromAdds(c: Ctx, i: nat, idx: nat, key: Key)
    requires Aligned(c.e.win) && i <= WINDOW
    ensures Adds(c.trace, DropFrom(c, i).trace, idx, key)
    decreases WINDOW - i
  {
    hide SlotOf;
    if i < WINDOW {
      DropFromAdds(DropSlot(c, i), i + 1, idx, key);
    }
  }

  /* ---- a flow's emits ---- */

  /** Does the event start a new life for flow `key`? */
  predicate Renews(ev: Event, key: Key) {
    ev.Reset? && ev.key == key
  }

  /** The emits of flow `key` since a life was last started for it, whichever entries they came from. */
  function Recent(t: seq<Event>, key: Key): seq<Event> {
    if |t| == 0 then [] else RecentStep(Recent(t[..|t| - 1], key), t[|t| - 1], key)
  }

  function RecentStep(o: seq<Event>, ev: Event, key: Key): seq<Event> {
    if Renews(ev, key) then []
    else if ev.Emit? && ev.d.key == key then o + [ev]
    else o
  }

  ghost predicate Within(o: seq<Event>, outs: seq<Event>) {
    forall k :: 0 <= k < |o| ==> o[k] in outs
  }

  /** Every emit comes from the entry that all recent emits of its flow came from, in the same life. */
  ghost predicate FlowsOk(t: seq<Event>) {
    |t| == 0 ||
    var init, ev := t[..|t| - 1], t[|t| - 1];
    FlowsOk(init) && (ev.Emit? ==> Within(Recent(init, ev.d.key), Outs(init, ev.idx)))
  }

  lemma RecentAppend(t: seq<Event>, ev: Event)
    ensures forall key: Key :: Recent(t + [ev], key) == RecentStep(Recent(t, key), ev, key)
    ensures FlowsOk(t + [ev]) <==> FlowsOk(t) && (ev.Emit? ==> Within(Recent(t, ev.d.key), Outs(t, ev.idx)))
  {
    assert (t + [ev])[..|t|] == t;
  }

  /** A call that only emits from the flow's own entry keeps the flow on that entry. */
  lemma {:induction false} AddsFlows(t: seq<Event>, t': seq<Event>, idx: nat, key: Key)
    requires FlowsOk(t) && Within(Recent(t, key), Outs(t, idx)) && Adds(t, t', idx, key)
    ensures FlowsOk(t') && Within(Recent(t', key), Outs(t', idx))
    ensures forall k: Key :: k != key ==> Recent(t', k) == Recent(t, k)
    ensures forall i: nat :: i != idx ==> Outs(t', i) == Outs(t, i)
    decreases |t'|
  {
    hide Recent, FlowsOk, Outs;
    if |t'| == |t| {
      assert t' == t;
    } else {
      var init, ev := t'[..|t'| - 1], t'[|t'| - 1];
      assert t' == init + [ev];
      AddsFlows(t, init, idx, key);
      RecentAppend(init, ev);
      TraceAppend(init, ev, ANY);
      if ev.Emit? {
        WithinAppend(Recent(init, key), Outs(init, idx), ev);
      }
    }
  }

  lemma WithinAppend(o: seq<Event>, outs: seq<Event>, ev: Event)
    requires Within(o, outs)
    ensures Within(o + [ev], outs + [ev])
  {
  }

  /** Every flow's recent emits came from the entry it now has. */
  ghost predicate SoloOk(w: Worker) {
    && FlowsOk(w.trace)
    && forall i: nat :: i < |w.entries| && w.entries[i].flow.valid ==>
         Within(Recent(w.trace, w.entries[i].flow.key), Outs(w.trace, i))
  }

  /** A step on one entry that leaves it with its flow, or free. */
  lemma CloseSolo(w: Worker, idx: nat, c: Ctx, key: Key)
    requires SoloOk(w) && OneEntry(w) && idx < |w.entries| && Owns(w.entries[idx], key)
    requires Adds(w.trace, c.trace, idx, key) && (c.e.flow.valid ==> c.e.flow.key == key)
    ensures SoloOk(Close(w, idx, c))
  {
    hide Recent, FlowsOk, Within, Outs;
    AddsFlows(w.trace, c.trace, idx, key);
    var r := Close(w, idx, c);
    forall i: nat | i < |r.entries| && r.entries[i].flow.valid
      ensures Within(Recent(r.trace, r.entries[i].flow.key), Outs(r.trace, i))
    {
      if i != idx {
        assert w.entries[i].flow.key != key;
      }
    }
  }

  lemma ResetEntrySolo(w: Worker, idx: nat, d: Datagram, now: nat)
    requires TableShape(w) && SoloOk(w) && OneEntry(w) && idx < FLOW_CAP && OneEntry(ResetEntry(w, idx, d, now))
    ensures SoloOk(ResetEntry(w, idx, d, now))
  {
    hide Recent, FlowsOk, DropFrom, Outs;
    var c := Open(w, idx);
    var m := if c.e.flow.valid then DropFrom(c, 0) else c;
    if c.e.flow.valid {
      DropFromAdds(c, 0, idx, c.e.flow.key);
      AddsFlows(w.trace, m.trace, idx, c.e.flow.key);
    }
    var f := NewFlow(d.key, d.epoch, d.sn, now, w.clock + 1);
    RecentAppend(m.trace, Reset(idx, d.key, f.next));
    TraceAppend(m.trace, Reset(idx, d.key, f.next), ANY);
    ResetEntryFlows(w, idx, d, now);
    var r := ResetEntry(w, idx, d, now);
    forall i: nat | i < |r.entries| && r.entries[i].flow.valid
      ensures Within(Recent(r.trace, r.entries[i].flow.key), Outs(r.trace, i))
    {
      if i != idx {
        assert r.entries[i] == w.entries[i] && r.entries[idx].flow.key == d.key && r.entries[idx].flow.valid;
        assert i < idx || idx < i;
        assert Within(Recent(w.trace, w.entries[i].flow.key), Outs(w.trace, i));
      }
    }
  }

  lemma LookupSolo(env: Env, w: Worker, d: Datagram, now: nat)
    requires TableShape(w) && SoloOk(w) && OneEntry(w) && OneEntry(Lookup(env, w, d, now))
    ensures SoloOk(Lookup(env, w, d, now))
  {
    hide Scan, SetBase, ResetEntry, Recent, FlowsOk;
    var i := Find(env, w, d.key).idx;
    var m := ResetEntry(w, i, d, now);
    ResetEntryFlows(w, i, d, now);
    if Find(env, w, d.key).Victim? || w.entries[i].flow.epoch != d.epoch {
      var r := Lookup(env, w, d, now);
      assert Subtable(m, r);
      SubtableKeeps(env, m, r);
      ResetEntrySolo(w, i, d, now);
    }
  }

  lemma SubmitSolo(env: Env, w: Worker, d: Datagram, now: nat)
    requires WorkerOk(w) && TableShape(w) && d.sn < M32 && OneEntry(w) && InSets(env, w) && SoloOk(w)
    requires env.enabled ==> !Hidden(env, w, d.key)
    ensures var r := Submit(env, w, d, now); r.Returns? ==> SoloOk(r.v)
  {
    hide Lookup, Find, Arrive, WorkerOk, SetBase, Hidden, Recent, FlowsOk, OneEntry, Within, Outs;
    if env.enabled {
      var idx, m := Find(env, w, d.key).idx, Lookup(env, w, d, now);
      LookupOneEntryIff(env, w, d, now);
      LookupSolo(env, w, d, now);
      LookupFlows(env, w, d, now);
      LookupKeeps(env, w, d, now, ANY);
      OpenOk(m, idx);
      ArriveAdds(env, idx, Open(m, idx), d, now);
      ArriveFlows(env, idx, m, d, now);
      var r := Arrive(env, idx, Open(m, idx), d, now);
      if r.Returns? {
        CloseSolo(m, idx, r.v, d.key);
      }
    } else {
      RecentAppend(w.trace, Pass(d, env.accepts(|w.trace|)));
      TraceAppend(w.trace, Pass(d, env.accepts(|w.trace|)), ANY);
    }
  }

  lemma GcVisitSolo(env: Env, w: Worker, idx: nat, now: nat)
    requires WorkerOk(w) && TableShape(w) && idx < FLOW_CAP && OneEntry(w) && SoloOk(w)
    ensures SoloOk(GcVisit(env, w, idx, now))
  {
    hide SkipGap, Outs, EntryOk, LivesOk, HeldCount, HeldCopies, Disposed, SumHeld, Elapsed, Recent,
         FlowsOk, OneEntry, Within;
    var c := Open(w, idx);
    if c.e.flow.valid {
      OpenOk(w, idx);
      SkipGapAdds(env, idx, c);
      SkipGapKeeps(env, idx, c, ANY);
      var m := if Expired(env, c.e.flow, now) then SkipGap(env, idx, c) else c;
      CloseSolo(w, idx, m, c.e.flow.key);
      CloseSolo(w, idx, m.(e := m.e.(flow := FREE)), c.e.flow.key);
    }
  }

  lemma {:induction false} GcFromSolo(env: Env, w: Worker, now: nat, n: nat)
    requires WorkerOk(w) && TableShape(w) && n <= GC_SLICE && OneEntry(w) && SoloOk(w)
    ensures SoloOk(GcFrom(env, w, now, n))
    decreases GC_SLICE - n
  {
    hide WorkerOk, GcVisit, SoloOk, OneEntry;
    if n < GC_SLICE {
      var i := (w.cursor + n) % FLOW_CAP;
      GcVisitSolo(env, w, i, now);
      GcVisitKeeps(env, w, i, now, ANY);
      GcVisitFlows(env, w, i, now);
      SubtableKeeps(env, GcVisit(env, w, i, now), w);
      GcFromSolo(env, GcVisit(env, w, i, now), now, n + 1);
    }
  }

  lemma ClearEntrySolo(w: Worker, idx: nat)
    requires TableShape(w) && idx < FLOW_CAP && OneEntry(w) && SoloOk(w)
    ensures SoloOk(ClearEntry(w, idx)) && Subtable(ClearEntry(w, idx), w)
  {
    hide DropFrom, Recent, FlowsOk, Within, Outs;
    var c := Open(w, idx);
    if c.e.flow.valid {
      DropFromAdds(c, 0, idx, c.e.flow.key);
      var m := DropFrom(c, 0);
      CloseSolo(w, idx, m.(e := m.e.(flow := FREE)), c.e.flow.key);
    }
  }

  lemma {:induction false} ClearFromSolo(env: Env, w: Worker, idx: nat)
    requires TableShape(w) && idx <= FLOW_CAP && OneEntry(w) && SoloOk(w)
    ensures SoloOk(ClearFrom(w, idx))
    decreases FLOW_CAP - idx
  {
    hide ClearEntry, SoloOk, OneEntry;
    if idx < FLOW_CAP {
      ClearEntrySolo(w, idx);
      SubtableKeeps(env, ClearEntry(w, idx), w);
      ClearFromSolo(env, ClearEntry(w, idx), idx + 1);
    }
  }

  /* ---- runs ---- */

  ghost predicate FlowState(env: Env, w: Worker) {
    OneEntry(w) && InSets(env, w) && SoloOk(w)
  }

  lemma StepFlows(env: Env, w: Worker, op: Op)
    requires WorkerOk(w) && TableShape(w) && OpOk(op) && FlowState(env, w)
    requires op.OpSubmit? && env.enabled ==> !Hidden(env, w, op.d.key)
    ensures var r := Step(env, w, op); r.Returns? ==> FlowState(env, r.v)
  {
    hide WorkerOk, Submit, GcFrom, ClearFrom, OneEntry, InSets, Hidden;
    match op {
      case OpSubmit(d, now) =>
        SubmitOneEntryIff(env, w, d, now);
        SubmitSolo(env, w, d, now);
      case OpGc(now) =>
        OtherCallsKeep(env, w, op);
        GcFromSolo(env, w, now, 0);
      case OpReset =>
        OtherCallsKeep(env, w, op);
        ClearFromSolo(env, w, 0);
    }
  }

  lemma StartFlows(env: Env)
    ensures FlowState(env, Start())
  {
    hide SetBase;
  }

  /** Without a submit that meets a hidden entry, every flow has at most one entry throughout. */
  lemma {:induction false} RunFlows(env: Env, ops: seq<Op>)
    requires OpsOk(ops) && NeverHidden(env, ops)
    ensures var r := Run(env, ops); r.Returns? ==> FlowState(env, r.v)
  {
    hide FlowState, Step, Start, WorkerOk, Hidden;
    if |ops| == 0 {
      StartFlows(env);
    } else {
      var init, op := ops[..|ops| - 1], ops[|ops| - 1];
      RunFlows(env, init);
      RunBooks(env, init, ANY);
      if Run(env, init).Returns? {
        StepFlows(env, Run(env, init).v, op);
      }
    }
  }

  lemma {:induction false} RecentMember(t: seq<Event>, j: nat, key: Key)
    requires j < |t| && t[j].Emit? && t[j].d.key == key
    requires forall m :: j < m < |t| ==> !Renews(t[m], key)
    ensures t[j] in Recent(t, key)
  {
    var init := t[..|t| - 1];
    if j < |t| - 1 {
      RecentMember(init, j, key);
      var o := Recent(init, key);
      var k :| 0 <= k < |o| && o[k] == t[j];
      assert !Renews(t[|t| - 1], key);
      assert RecentStep(o, t[|t| - 1], key)[k] == t[j];
    } else {
      assert Recent(t, key)[|Recent(t, key)| - 1] == t[j];
    }
  }

  lemma {:induction false} FlowsOrdered(t: seq<Event>, j: nat, k: nat)
    requires FlowsOk(t) && LivesOk(t)
    requires j < k < |t| && t[j].Emit? && t[k].Emit? && t[j].d.key == t[k].d.key
    requires forall m :: j < m < k ==> !Renews(t[m], t[k].d.key)
    ensures t[j].idx == t[k].idx && t[j].pos < t[k].pos && t[j].d.epoch == t[k].d.epoch
  {
    hide Recent, Outs;
    var init := t[..|t| - 1];
    assert init[j] == t[j];
    if k < |t| - 1 {
      assert init[k] == t[k];
      FlowsOrdered(init, j, k);
    } else {
      RecentMember(init, j, t[k].d.key);
      var o := Recent(init, t[k].d.key);
      var n :| 0 <= n < |o| && o[n] == t[j];
      assert t[j] in Outs(init, t[k].idx);
    }
  }

  /** Main flow theorem. In every run in which no submit meets a flow whose entry is hidden, a flow has at
      most one entry at any time, and what it hands to `emit` between two lives comes from one entry, in
      one epoch, at strictly increasing positions, each datagram carrying its position modulo 2^32. */
  lemma RunFlowOrdered(env: Env, ops: seq<Op>, j: nat, k: nat)
    requires OpsOk(ops) && Run(env, ops).Returns? && NeverHidden(env, ops)
    requires var t := Run(env, ops).v.trace;
             && j < k < |t| && t[j].Emit? && t[k].Emit? && t[j].d.key == t[k].d.key
             && forall m :: j < m < k ==> !Renews(t[m], t[k].d.key)
    ensures var t := Run(env, ops).v.trace;
            && OneEntry(Run(env, ops).v)
            && t[j].idx == t[k].idx && t[j].pos < t[k].pos && t[j].d.epoch == t[k].d.epoch
            && t[j].d.sn == Wire(t[j].pos) && t[k].d.sn == Wire(t[k].pos)
  {
    hide Run, LivesOk, EntryOk, SumHeld, Wire, FlowsOk, NeverHidden, OneEntry;
    var t := Run(env, ops).v.trace;
    RunSafe(env, ops, ANY);
    RunFlows(env, ops);
    FlowsOrdered(t, j, k);
    LivesWire(t, j);
    LivesWire(t, k);
  }
}
