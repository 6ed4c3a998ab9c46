/** Safety of the reorder buffer over whole runs: for every sequence of submit, gc and reset calls,
    every callback behaviour, every clock and every hash. */
module ReorderRuns {
  import opened Serial
  import opened ReorderModel
  import opened ReorderEntry
  import opened ReorderTable

  function SumHeld(es: seq<Entry>): nat {
    if |es| == 0 then 0 else SumHeld(es[..|es| - 1]) + HeldCount(es[|es| - 1].win)
  }

  function SumCopies(es: seq<Entry>, x: Mark): nat {
    if |es| == 0 then 0 else SumCopies(es[..|es| - 1], x) + HeldCopies(es[|es| - 1].win, x)
  }

  lemma {:induction false} SumUpdate(es: seq<Entry>, i: nat, e: Entry, x: Mark)
    requires i < |es|
    ensures SumHeld(es[i := e]) + HeldCount(es[i].win) == SumHeld(es) + HeldCount(e.win)
    ensures SumCopies(es[i := e], x) + HeldCopies(es[i].win, x) == SumCopies(es, x) + HeldCopies(e.win, x)
    ensures HeldCount(es[i].win) <= SumHeld(es)
  {
    hide HeldCount, HeldCopies;
    var n := |es| - 1;
    if i == n {
      assert es[i := e][..n] == es[..n];
    } else {
      assert es[i := e][..n] == es[..n][i := e];
      SumUpdate(es[..n], i, e, x);
    }
  }

  /** The invariant of every reachable worker: each entry is well-formed and ordered, its counter is
      the number of its occupied slots, the worker's counter is their sum, free entries own no slot. */
  ghost predicate WorkerOk(w: Worker) {
    && |w.entries| == FLOW_CAP
    && (forall i: nat :: i < FLOW_CAP ==> EntryOk(w.entries[i], Outs(w.trace, i)))
    && w.total == SumHeld(w.entries)
    && LivesOk(w.trace)
    && w.cursor < FLOW_CAP
  }

  /** The datagrams of class `x` accounted for: disposed of, or held in some slot of the worker. */
  function AllCopies(w: Worker, x: Mark): nat {
    Disposed(w.trace, x) + SumCopies(w.entries, x)
  }

  lemma OpenOk(w: Worker, idx: nat)
    requires WorkerOk(w) && idx < FLOW_CAP && w.entries[idx].flow.valid
    ensures TableShape(w) && CtxOk(idx, Open(w, idx))
  {
    hide SumHeld, HeldCount, InOrder, Outs, LivesOk;
    SumUpdate(w.entries, idx, w.entries[idx], ANY);
    ShapeOk(w);
  }

  lemma ShapeOk(w: Worker)
    requires WorkerOk(w)
    ensures TableShape(w)
  {
    hide SumHeld, HeldCount, InOrder, Outs, LivesOk;
    forall i: nat | i < FLOW_CAP ensures Aligned(w.entries[i].win) {
      assert EntryOk(w.entries[i], Outs(w.trace, i));
    }
  }

  lemma EntryHeld(w: Worker, idx: nat)
    requires WorkerOk(w) && idx < FLOW_CAP
    ensures w.entries[idx].flow.held == HeldCount(w.entries[idx].win)
  {
    hide Outs, LivesOk, SumHeld, HeldCount;
    assert EntryOk(w.entries[idx], Outs(w.trace, idx));
  }

  /** A change of one entry whose books balance. */
  ghost predicate Balanced(idx: nat, c: Ctx, r: Ctx, x: Mark, n: nat) {
    && EntryOk(r.e, Outs(r.trace, idx))
    && LivesOk(r.trace)
    && Copies(r, x) == Copies(c, x) + n
    && r.total - HeldCount(r.e.win) == c.total - HeldCount(c.e.win)
    && forall j: nat :: j != idx ==> Outs(r.trace, j) == Outs(c.trace, j)
  }

  lemma CloseOk(w: Worker, idx: nat, r: Ctx, x: Mark, n: nat)
    requires WorkerOk(w) && idx < FLOW_CAP
    requires Balanced(idx, Open(w, idx), r, x, n)
    ensures WorkerOk(Close(w, idx, r))
    ensures AllCopies(Close(w, idx, r), x) == AllCopies(w, x) + n
  {
    hide SumHeld, SumCopies, HeldCount, HeldCopies, EntryOk, Outs, LivesOk, Disposed;
    SumUpdate(w.entries, idx, r.e, x);
    var w' := Close(w, idx, r);
    forall i: nat | i < FLOW_CAP ensures EntryOk(w'.entries[i], Outs(w'.trace, i)) {
      if i != idx {
        assert EntryOk(w.entries[i], Outs(w.trace, i));
      }
    }
  }

  /* ---- dropping a whole window ---- */

  lemma {:induction false} DropFromKeeps(idx: nat, c: Ctx, i: nat, x: Mark)
    requires Aligned(c.e.win) && i <= WINDOW && HeldCount(c.e.win) <= c.total && LivesOk(c.trace)
    requires forall k :: 0 <= k < i ==> c.e.win[k].Empty?
    ensures var r := DropFrom(c, i);
            && (forall k :: 0 <= k < WINDOW ==> r.e.win[k].Empty?)
            && LivesOk(r.trace)
            && Copies(r, x) == Copies(c, x)
            && r.total - HeldCount(r.e.win) == c.total - HeldCount(c.e.win)
            && (forall j: nat :: Outs(r.trace, j) == Outs(c.trace, j))
            && c.trace <= r.trace
    decreases WINDOW - i
  {
    hide Wire, SlotOf, HeldCount, HeldCopies, Disposed, Outs, LivesOk;
    if i < WINDOW {
      if c.e.win[i].Held? {
        HeldCountUpdate(c.e.win, i, Empty);
        HeldCopiesUpdate(c.e.win, i, Empty, x);
        TraceAppend(c.trace, Drop(c.e.win[i].d), x);
      }
      DropFromKeeps(idx, DropSlot(c, i), i + 1, x);
    }
  }

  /** After dropping, or when the entry was free, its window is empty and the books balance. */
  lemma VacateKeeps(w: Worker, idx: nat, m: Ctx, x: Mark)
    requires WorkerOk(w) && idx < FLOW_CAP && TableShape(w)
    requires var c := Open(w, idx); m == if c.e.flow.valid then DropFrom(c, 0) else c
    ensures (forall k :: 0 <= k < WINDOW ==> m.e.win[k].Empty?) && HeldCount(m.e.win) == 0
    ensures LivesOk(m.trace) && Copies(m, x) == Copies(Open(w, idx), x)
    ensures m.total == w.total - HeldCount(w.entries[idx].win)
    ensures forall j: nat :: Outs(m.trace, j) == Outs(w.trace, j)
    ensures w.trace <= m.trace
  {
    hide Wire, SlotOf, HeldCount, HeldCopies, Disposed, Outs, LivesOk, InOrder, SumHeld;
    var c := Open(w, idx);
    assert EntryOk(w.entries[idx], Outs(w.trace, idx));
    if c.e.flow.valid {
      OpenOk(w, idx);
      DropFromKeeps(idx, c, 0, x);
    }
    HeldCountZero(m.e.win);
  }

  lemma ResetEntryKeeps(w: Worker, idx: nat, d: Datagram, now: nat, x: Mark)
    requires WorkerOk(w) && idx < FLOW_CAP && TableShape(w)
    ensures var r := ResetEntry(w, idx, d, now);
            WorkerOk(r) && AllCopies(r, x) == AllCopies(w, x) && w.trace <= r.trace
            && r.total == w.total - HeldCount(w.entries[idx].win)
            && r.entries[idx].flow == NewFlow(d.key, d.epoch, d.sn, now, w.clock + 1)
            && Outs(r.trace, idx) == [] && HeldCount(r.entries[idx].win) == 0
  {
    hide Wire, SlotOf, HeldCount, HeldCopies, Disposed, Outs, LivesOk, SumHeld, SumCopies, DropFrom;
    var c := Open(w, idx);
    var m := if c.e.flow.valid then DropFrom(c, 0) else c;
    VacateKeeps(w, idx, m, x);
    assert Outs(w.trace, idx) == Outs(m.trace, idx);
    var f := NewFlow(d.key, d.epoch, d.sn, now, w.clock + 1);
    var ev := Reset(idx, d.key, f.next);
    TraceAppend(m.trace, ev, x);
    var r := Ctx(Entry(f, m.e.win), m.total, m.trace + [ev]);
    CloseOk(w, idx, r, x, 0);
  }

  lemma TouchKeeps(w: Worker, idx: nat, now: nat, x: Mark)
    requires WorkerOk(w) && idx < FLOW_CAP && TableShape(w)
    ensures var r := Touch(w, idx, now);
            WorkerOk(r) && AllCopies(r, x) == AllCopies(w, x) && r.total == w.total && r.trace == w.trace
  {
    hide HeldCount, HeldCopies, Disposed, Outs, LivesOk, SumHeld, SumCopies;
    var c := Open(w, idx);
    var r := c.(e := c.e.(flow := c.e.flow.(lastSeen := now, stamp := w.clock + 1)));
    assert EntryOk(w.entries[idx], Outs(w.trace, idx));
    CloseOk(w, idx, r, x, 0);
  }

  lemma LookupKeeps(env: Env, w: Worker, d: Datagram, now: nat, x: Mark)
    requires WorkerOk(w) && TableShape(w)
    ensures var r, idx := Lookup(env, w, d, now), Find(env, w, d.key).idx;
            WorkerOk(r) && AllCopies(r, x) == AllCopies(w, x) && w.trace <= r.trace && r.total <= w.total
            && r.entries[idx].flow.valid && Belongs(d, r.entries[idx].flow)
  {
    hide EntryOk, AllCopies, SumHeld, SumCopies, Disposed, Outs, LivesOk, HeldCount, SetBase, Scan;
    match Find(env, w, d.key)
    case Hit(i) =>
      if w.entries[i].flow.epoch != d.epoch {
        ResetEntryKeeps(w, i, d, now, x);
        TouchKeeps(ResetEntry(w, i, d, now), i, now, x);
      } else {
        TouchKeeps(w, i, now, x);
      }
    case Victim(i) =>
      ResetEntryKeeps(w, i, d, now, x);
  }

  lemma SubmitKeeps(env: Env, w: Worker, d: Datagram, now: nat, x: Mark)
    requires WorkerOk(w) && TableShape(w) && d.sn < M32
    ensures var r := Submit(env, w, d, now);
            r.Returns? ==> WorkerOk(r.v) && AllCopies(r.v, x) == AllCopies(w, x) + One(d, x) && w.trace <= r.v.trace
                           && (w.total <= env.cap ==> r.v.total <= env.cap)
  {
    hide EntryOk, SumHeld, SumCopies, Disposed, Outs, LivesOk, HeldCount, HeldCopies, SetBase, Scan, Find,
         Lookup, Arrive;
    if !env.enabled {
      TraceAppend(w.trace, Pass(d, env.accepts(|w.trace|)), x);
      PassKeeps(env, w, d, x);
    } else {
      var idx := Find(env, w, d.key).idx;
      var m := Lookup(env, w, d, now);
      LookupKeeps(env, w, d, now, x);
      OpenOk(m, idx);
      ArriveKeeps(env, idx, Open(m, idx), d, now, x);
      var r := Arrive(env, idx, Open(m, idx), d, now);
      if r.Returns? {
        CloseOk(m, idx, r.v, x, One(d, x));
      }
    }
  }

  lemma PassKeeps(env: Env, w: Worker, d: Datagram, x: Mark)
    requires WorkerOk(w)
    ensures var r := w.(trace := w.trace + [Pass(d, env.accepts(|w.trace|))]);
            WorkerOk(r) && AllCopies(r, x) == AllCopies(w, x) + One(d, x) && w.trace <= r.trace
  {
    hide EntryOk, SumHeld, SumCopies, Disposed, Outs, LivesOk, HeldCount;
    var ev := Pass(d, env.accepts(|w.trace|));
    TraceAppend(w.trace, ev, x);
    forall i: nat | i < FLOW_CAP ensures EntryOk(w.entries[i], Outs(w.trace + [ev], i)) {
      assert EntryOk(w.entries[i], Outs(w.trace, i));
    }
  }

  lemma GcVisitKeeps(env: Env, w: Worker, idx: nat, now: nat, x: Mark)
    requires WorkerOk(w) && idx < FLOW_CAP && TableShape(w)
    ensures var r := GcVisit(env, w, idx, now);
            WorkerOk(r) && AllCopies(r, x) == AllCopies(w, x) && w.trace <= r.trace && r.total <= w.total
  {
    hide SumHeld, SumCopies, Disposed, Outs, LivesOk, HeldCount, HeldCopies, SkipGap, InOrder;
    var c := Open(w, idx);
    if c.e.flow.valid {
      OpenOk(w, idx);
      SkipGapKeeps(env, idx, c, x);
      var m := if Expired(env, c.e.flow, now) then SkipGap(env, idx, c) else c;
      HeldCountZero(m.e.win);
      if m.e.flow.held == 0 && Elapsed(now, m.e.flow.lastSeen) > FLOW_IDLE_NS {
        CloseOk(w, idx, m.(e := m.e.(flow := FREE)), x, 0);
      } else {
        CloseOk(w, idx, m, x, 0);
      }
    }
  }

  lemma {:induction false} GcFromKeeps(env: Env, w: Worker, now: nat, n: nat, x: Mark)
    requires WorkerOk(w) && TableShape(w) && n <= GC_SLICE
    ensures var r := GcFrom(env, w, now, n);
            WorkerOk(r) && AllCopies(r, x) == AllCopies(w, x) && w.trace <= r.trace && r.total <= w.total
    decreases GC_SLICE - n
  {
    hide WorkerOk, AllCopies, GcVisit;
    if n < GC_SLICE {
      var i := (w.cursor + n) % FLOW_CAP;
      GcVisitKeeps(env, w, i, now, x);
      GcFromKeeps(env, GcVisit(env, w, i, now), now, n + 1, x);
    }
  }

  lemma GcKeeps(env: Env, w: Worker, now: nat, x: Mark)
    requires WorkerOk(w) && TableShape(w)
    ensures var r := Gc(env, w, now);
            WorkerOk(r) && AllCopies(r, x) == AllCopies(w, x) && w.trace <= r.trace && r.total <= w.total
  {
    hide EntryOk, SumHeld, SumCopies, Disposed, Outs, LivesOk, GcFrom;
    GcFromKeeps(env, w, now, 0, x);
  }

  lemma ClearEntryKeeps(w: Worker, idx: nat, x: Mark)
    requires WorkerOk(w) && idx < FLOW_CAP && TableShape(w)
    ensures var r := ClearEntry(w, idx);
            WorkerOk(r) && AllCopies(r, x) == AllCopies(w, x) && w.trace <= r.trace && r.total <= w.total
            && HeldCount(r.entries[idx].win) == 0
            && (forall j :: 0 <= j < FLOW_CAP && j != idx ==> r.entries[j] == w.entries[j])
  {
    hide SumHeld, SumCopies, Disposed, Outs, LivesOk, HeldCount, HeldCopies, DropFrom, InOrder;
    var c := Open(w, idx);
    var m := if c.e.flow.valid then DropFrom(c, 0) else c;
    VacateKeeps(w, idx, m, x);
    CloseOk(w, idx, m.(e := m.e.(flow := FREE)), x, 0);
  }

  lemma {:induction false} ClearFromKeeps(w: Worker, idx: nat, x: Mark)
    requires WorkerOk(w) && TableShape(w) && idx <= FLOW_CAP
    requires forall j :: 0 <= j < idx ==> HeldCount(w.entries[j].win) == 0
    ensures var r := ClearFrom(w, idx);
            WorkerOk(r) && AllCopies(r, x) == AllCopies(w, x) && w.trace <= r.trace
            && forall j :: 0 <= j < FLOW_CAP ==> HeldCount(r.entries[j].win) == 0
    decreases FLOW_CAP - idx
  {
    hide WorkerOk, AllCopies, ClearEntry, HeldCount;
    if idx < FLOW_CAP {
      ClearEntryKeeps(w, idx, x);
      ClearFromKeeps(ClearEntry(w, idx), idx + 1, x);
    }
  }

  lemma {:induction false} SumZero(es: seq<Entry>)
    requires forall j :: 0 <= j < |es| ==> HeldCount(es[j].win) == 0
    ensures SumHeld(es) == 0
  {
    hide HeldCount;
    if |es| > 0 {
      SumZero(es[..|es| - 1]);
    }
  }

  lemma ResetWorkerKeeps(w: Worker, x: Mark)
    requires WorkerOk(w) && TableShape(w)
    ensures var r := ResetWorker(w);
            WorkerOk(r) && AllCopies(r, x) == AllCopies(w, x) && w.trace <= r.trace && r.total == 0
            && forall j :: 0 <= j < FLOW_CAP ==> HeldCount(r.entries[j].win) == 0
  {
    hide EntryOk, SumHeld, SumCopies, Disposed, Outs, LivesOk, HeldCount, ClearFrom;
    ClearFromKeeps(w, 0, x);
    SumZero(ClearFrom(w, 0).entries);
  }

  lemma {:induction false} SumCopiesZero(es: seq<Entry>, x: Mark)
    requires forall j :: 0 <= j < |es| ==> HeldCopies(es[j].win, x) == 0
    ensures SumCopies(es, x) == 0
  {
    hide HeldCopies;
    if |es| > 0 {
      SumCopiesZero(es[..|es| - 1], x);
    }
  }

  lemma {:induction false} EmptyCopies(win: seq<Slot>, x: Mark)
    requires forall i :: 0 <= i < |win| ==> win[i].Empty?
    ensures HeldCopies(win, x) == 0
  {
    if |win| > 0 {
      EmptyCopies(win[..|win| - 1], x);
    }
  }

  lemma StartOk(x: Mark)
    ensures WorkerOk(Start()) && AllCopies(Start(), x) == 0
  {
    hide SumHeld, SumCopies, HeldCount, HeldCopies;
    var w := Start();
    var win := seq(WINDOW, j => Empty);
    HeldCountZero(win);
    EmptyCopies(win, x);
    SumZero(w.entries);
    SumCopiesZero(w.entries, x);
  }

  lemma StepKeeps(env: Env, w: Worker, op: Op, x: Mark)
    requires WorkerOk(w) && TableShape(w) && OpOk(op)
    ensures var r := Step(env, w, op);
            r.Returns? ==> WorkerOk(r.v) && AllCopies(r.v, x) == AllCopies(w, x) + SubmittedBy(op, x)
                           && w.trace <= r.v.trace && (w.total <= env.cap ==> r.v.total <= env.cap)
  {
    hide WorkerOk, AllCopies, Submit, Gc, ResetWorker;
    match op
    case OpSubmit(d, now) => SubmitKeeps(env, w, d, now, x);
    case OpGc(now) => GcKeeps(env, w, now, x);
    case OpReset => ResetWorkerKeeps(w, x);
  }

  /** Main safety theorem. After any run, of every class `x` of datagrams (a single one, a flow, a frame)
      exactly as many have been delivered, dropped or are held as were submitted; the counters are exact;
      the held cap is kept. */
  lemma {:induction false} RunSafe(env: Env, ops: seq<Op>, x: Mark)
    requires OpsOk(ops)
    ensures var r := Run(env, ops);
            r.Returns? ==>
              && WorkerOk(r.v)
              && Delivered(r.v.trace, x) + Dropped(r.v.trace, x) + SumCopies(r.v.entries, x) == Submitted(ops, x)
              && r.v.total <= env.cap
  {
    hide WorkerOk, SumCopies, Delivered, Dropped, Disposed, Step;
    RunBooks(env, ops, x);
    if Run(env, ops).Returns? {
      DisposedSplit(Run(env, ops).v.trace, x);
    }
  }

  lemma {:induction false} RunBooks(env: Env, ops: seq<Op>, x: Mark)
    requires OpsOk(ops)
    ensures var r := Run(env, ops);
            r.Returns? ==> WorkerOk(r.v) && AllCopies(r.v, x) == Submitted(ops, x) && r.v.total <= env.cap
  {
    hide WorkerOk, AllCopies, Step, Start;
    if |ops| == 0 {
      StartOk(x);
      StartTotal();
    } else {
      RunBooks(env, ops[..|ops| - 1], x);
      var p := Run(env, ops[..|ops| - 1]);
      if p.Returns? {
        StepKeeps(env, p.v, ops[|ops| - 1], x);
      }
    }
  }

  lemma StartTotal()
    ensures Start().total == 0
  {
  }

  /** Main ordering theorem. In every run, what one entry hands to `emit` between two resets belongs
      to one flow and one epoch and comes at strictly increasing positions, each datagram carrying
      its position modulo 2^32: no reordering and no duplicate, also across wrap-around, gap
      timeouts and the held-cap branch. */
  lemma RunOrdered(env: Env, ops: seq<Op>, j: nat, k: nat)
    requires OpsOk(ops) && Run(env, ops).Returns?
    requires var t := Run(env, ops).v.trace;
             && j < k < |t| && t[j].Emit? && t[k].Emit? && t[j].idx == t[k].idx
             && forall m :: j < m < k ==> !Restarts(t[m], t[j].idx)
    ensures var t := Run(env, ops).v.trace;
            t[j].pos < t[k].pos && t[j].d.key == t[k].d.key && t[j].d.epoch == t[k].d.epoch
            && t[j].d.sn == Wire(t[j].pos) && t[k].d.sn == Wire(t[k].pos)
  {
    hide Run, LivesOk, EntryOk, SumHeld, Wire;
    var t := Run(env, ops).v.trace;
    RunSafe(env, ops, ANY);
    LivesOrdered(t, j, k);
    LivesWire(t, k);
  }
}
