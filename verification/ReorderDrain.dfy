/** Progress in a busy worker: amid any other calls the collector visits every entry once in 32 of its calls,
    and a silent flow drains completely. */
module ReorderDrain {
  import opened Serial
  import opened ReorderModel
  import opened ReorderEntry
  import opened ReorderTable
  import opened ReorderRuns
  import opened ReorderWindow
  import opened ReorderProgress
  import opened ReorderEndToEnd

  /** The state after the calls, unless one of them never returns. */
  function RunFrom(env: Env, w: Worker, ops: seq<Op>): (r: Outcome<Worker>)
    requires TableShape(w) && OpsOk(ops)
    ensures r.Returns? ==> TableShape(r.v)
    decreases |ops|
  {
    if |ops| == 0 then Returns(w)
    else
      match Step(env, w, ops[0])
      case Hangs => Hangs
      case Returns(v) => RunFrom(env, v, ops[1..])
  }

  /** The times of the collector calls among the calls. */
  function GcTimes(ops: seq<Op>): (times: seq<nat>)
    decreases |ops|
  {
    if |ops| == 0 then []
    else (if ops[0].OpGc? then [ops[0].now] else []) + GcTimes(ops[1..])
  }

  /* ---- visits ---- */

  lemma SubmitCursor(env: Env, w: Worker, d: Datagram, now: nat)
    requires TableShape(w) && d.sn < M32
    ensures var r := Submit(env, w, d, now); r.Returns? ==> r.v.cursor == w.cursor
  {
    hide Arrive, Scan, SetBase, DropFrom;
  }

  /** A collector call brings an entry one round nearer, or sends it 31 rounds away. */
  lemma RoundsNext(cursor: nat, idx: nat, k: nat)
    requires cursor < FLOW_CAP && idx < FLOW_CAP
    ensures k % 32 == Rounds((cursor + GC_SLICE) % FLOW_CAP, idx) <==> (k + 1) % 32 == Rounds(cursor, idx)
  {
    hide Ahead;
    AheadStep(cursor, idx);
    RoundsStep(cursor, idx);
  }

  /** Amid any submits, of any 32 consecutive collector calls exactly one visits an entry, whatever the state:
      the collector call that follows a run visits it exactly when the number of collector calls in the run
      is, modulo 32, the entry's distance in slices; otherwise it leaves it as it is. */
  lemma {:induction false} GcVisitsOnce(env: Env, w: Worker, ops: seq<Op>, now: nat, idx: nat)
    requires TableShape(w) && w.cursor < FLOW_CAP && idx < FLOW_CAP && OpsOk(ops)
    requires (forall i :: 0 <= i < |ops| ==> !ops[i].OpReset?) && RunFrom(env, w, ops).Returns?
    ensures Rounds(w.cursor, idx) < 32
    ensures var s := RunFrom(env, w, ops).v;
            Gc(env, s, now).entries[idx]
              == if |GcTimes(ops)| % 32 == Rounds(w.cursor, idx) then AfterVisit(env, s.entries[idx], now)
                 else s.entries[idx]
    decreases |ops|
  {
    hide GcFrom, AfterVisit, Rounds, TableShape, Submit;
    RoundsStep(w.cursor, idx);
    if |ops| == 0 {
      GcFromExact(env, w, now, 0, idx);
    } else {
      var v := Step(env, w, ops[0]).v;
      if ops[0].OpSubmit? {
        SubmitCursor(env, w, ops[0].d, ops[0].now);
      } else {
        RoundsNext(w.cursor, idx, |GcTimes(ops[1..])|);
      }
      GcVisitsOnce(env, v, ops[1..], now, idx);
    }
  }

  /* ---- draining ---- */

  /** While something is held the gap clock runs. */
  predicate Clocked(f: Flow) {
    f.held > 0 ==> f.gapSince > 0 && f.lastSeen > 0
  }

  /** An entry under the window invariant whose gap clock runs while it holds anything. */
  ghost predicate Quiet(e: Entry) {
    && Aligned(e.win) && WindowOk(e) && e.flow.held == HeldCount(e.win) && Clocked(e.flow)
  }

  /** The hold time has passed since the flow was last seen and since its gap opened. */
  predicate Silent(env: Env, f: Flow, times: seq<nat>) {
    forall i :: 0 <= i < |times| ==>
      Elapsed(times[i], f.lastSeen) >= env.hold && Elapsed(times[i], f.gapSince) >= env.hold
  }

  /** A call that does not use entry `idx`; collector calls and worker resets may come at any point. */
  ghost predicate Elsewhere(env: Env, w: Worker, idx: nat, op: Op)
    requires TableShape(w)
  {
    op.OpSubmit? && env.enabled ==> Find(env, w, op.d.key).idx != idx
  }

  /** Every call of the run is elsewhere in the state it meets. */
  ghost predicate ElsewhereRun(env: Env, w: Worker, idx: nat, ops: seq<Op>)
    requires TableShape(w) && OpsOk(ops)
    decreases |ops|
  {
    |ops| > 0 ==>
      Elsewhere(env, w, idx, ops[0]) &&
      var r := Step(env, w, ops[0]);
      r.Returns? ==> ElsewhereRun(env, r.v, idx, ops[1..])
  }

  /** An upper bound on the collector calls that still have to come. */
  function CallsLeft(w: Worker, idx: nat): nat
    requires w.cursor < FLOW_CAP && idx < FLOW_CAP && idx < |w.entries|
  {
    var h := w.entries[idx].flow.held;
    if h == 0 then 0 else 32 * (h - 1) + Rounds(w.cursor, idx) + 1
  }

  /** A visit keeps an entry quiet and, after the hold time, releases something. */
  lemma AfterVisitQuiet(env: Env, e: Entry, now: nat)
    requires Quiet(e) && (!e.flow.valid ==> e.flow.held == 0)
    ensures Quiet(AfterVisit(env, e, now)) && Visited(env, e, AfterVisit(env, e, now), now)
  {
    hide SeqDelta, Wire, SlotOf, HeldCount, SkipGap, Elapsed, Near;
    if e.flow.valid {
      var c := Ctx(e, e.flow.held, []);
      SkipGapEntry(env, 0, Ctx(e, 0, []), 0, c);
      SkipGapClock(env, 0, c);
      WindowAhead(e);
      SkipGapNear(env, 0, c);
      SkipGapHeld(env, 0, c);
      var m := if Expired(env, e.flow, now) then SkipGap(env, 0, c).e else e;
      if m.flow.held == 0 {
        EmptyWindowOk(m.(flow := FREE));
      }
    }
  }

  lemma FreeHoldsNothing(w: Worker, idx: nat)
    requires WorkerOk(w) && idx < FLOW_CAP
    ensures !w.entries[idx].flow.valid ==> w.entries[idx].flow.held == 0
  {
    hide Outs, LivesOk, SumHeld, HeldCount;
    assert EntryOk(w.entries[idx], Outs(w.trace, idx));
  }

  /** The flow of an entry after a call that leaves it silent: drained, or last seen when it was. */
  predicate StillSilent(f: Flow, f': Flow) {
    f'.held > 0 ==> f'.lastSeen == f.lastSeen && (f'.gapSince == f.gapSince || f'.gapSince == f.lastSeen)
  }

  /** Every collector call after the hold time brings a silent flow strictly closer to empty. */
  lemma GcStep(env: Env, w: Worker, idx: nat, now: nat)
    requires WorkerOk(w) && TableShape(w) && idx < FLOW_CAP && Quiet(w.entries[idx])
    requires w.entries[idx].flow.held > 0 ==> Silent(env, w.entries[idx].flow, [now])
    ensures var r := Gc(env, w, now);
            && r.cursor < FLOW_CAP && w.cursor < FLOW_CAP && Quiet(r.entries[idx])
            && StillSilent(w.entries[idx].flow, r.entries[idx].flow)
            && (CallsLeft(w, idx) > 0 ==> CallsLeft(r, idx) < CallsLeft(w, idx))
            && (CallsLeft(w, idx) == 0 ==> CallsLeft(r, idx) == 0)
  {
    hide EntryOk, SumHeld, Outs, LivesOk, GcFrom, Quiet, AfterVisit, Elapsed;
    GcFromExact(env, w, now, 0, idx);
    FreeHoldsNothing(w, idx);
    AfterVisitQuiet(env, w.entries[idx], now);
    QuietClock(w.entries[idx]);
    RoundsStep(w.cursor, idx);
    if w.entries[idx].flow.held > 0 {
      assert Elapsed([now][0], w.entries[idx].flow.gapSince) >= env.hold;
    }
  }

  lemma QuietClock(e: Entry)
    requires Quiet(e)
    ensures Clocked(e.flow)
  {
  }

  /** A call elsewhere leaves the entry alone; a worker reset empties it. */
  lemma ElsewhereStep(env: Env, w: Worker, idx: nat, op: Op)
    requires WorkerOk(w) && TableShape(w) && idx < FLOW_CAP && OpOk(op) && !op.OpGc? && Elsewhere(env, w, idx, op)
    requires Quiet(w.entries[idx])
    ensures var r := Step(env, w, op);
            r.Returns? ==>
              && Quiet(r.v.entries[idx])
              && (if op.OpReset? then r.v.entries[idx].flow.held == 0
                  else r.v.entries[idx] == w.entries[idx] && r.v.cursor == w.cursor)
  {
    hide WorkerOk, Submit, ClearFrom, Quiet, Find, HeldCount;
    match op
    case OpSubmit(d, now) =>
      SubmitCursor(env, w, d, now);
      if env.enabled {
        SubmitFrame(env, w, d, now, idx);
      } else {
        SubmitOff(env, w, d, now);
      }
    case OpReset =>
      ResetWorkerKeeps(w, ANY);
      ClearFromFree(w, 0);
      ShapeOk(ResetWorker(w));
      EmptyQuiet(ResetWorker(w).entries[idx]);
    case OpGc(_) =>
  }

  lemma SubmitOff(env: Env, w: Worker, d: Datagram, now: nat)
    requires TableShape(w) && d.sn < M32 && !env.enabled
    ensures var r := Submit(env, w, d, now); r.Returns? && r.v.entries == w.entries
  {
  }

  lemma EmptyQuiet(e: Entry)
    requires Aligned(e.win) && HeldCount(e.win) == 0 && e.flow.held == 0
    ensures Quiet(e)
  {
    hide HeldCount;
    EmptyWindowOk(e);
  }

  /** What one call does to a silent flow, wherever it is. */
  lemma DrainStep(env: Env, w: Worker, idx: nat, op: Op)
    requires WorkerOk(w) && TableShape(w) && idx < FLOW_CAP && OpOk(op) && Elsewhere(env, w, idx, op)
    requires Quiet(w.entries[idx])
    requires op.OpGc? && w.entries[idx].flow.held > 0 ==> Silent(env, w.entries[idx].flow, [op.now])
    ensures var r := Step(env, w, op);
            r.Returns? ==>
              && w.cursor < FLOW_CAP && r.v.cursor < FLOW_CAP && Quiet(r.v.entries[idx])
              && StillSilent(w.entries[idx].flow, r.v.entries[idx].flow)
              && (CallsLeft(w, idx) == 0 ==> CallsLeft(r.v, idx) == 0)
              && CallsLeft(r.v, idx) <= CallsLeft(w, idx)
              && (op.OpGc? && CallsLeft(w, idx) > 0 ==> CallsLeft(r.v, idx) < CallsLeft(w, idx))
  {
    hide EntryOk, SumHeld, Outs, LivesOk, Submit, Gc, ResetWorker, Quiet, Find, Rounds;
    StepKeeps(env, w, op, ANY);
    if op.OpGc? {
      GcStep(env, w, idx, op.now);
    } else {
      ElsewhereStep(env, w, idx, op);
    }
  }

  lemma SilentRest(env: Env, f: Flow, f': Flow, times: seq<nat>, rest: seq<nat>, k: nat)
    requires Silent(env, f, times) && StillSilent(f, f') && k <= |times| && rest == times[k..]
    ensures f'.held > 0 ==> Silent(env, f', rest)
  {
    hide Elapsed;
    assert forall i :: 0 <= i < |rest| ==> rest[i] == times[i + k];
  }

  /** Main progress theorem: in a worker that goes on serving other flows, whatever their entries look like,
      a flow whose own entry satisfies the window invariant and which stays silent drains completely: it
      holds nothing any more once the run contains 32 collector calls per held datagram, fewer for the
      first, each after the hold time. */
  lemma {:induction false} SilentFlowDrains(env: Env, w: Worker, idx: nat, ops: seq<Op>)
    requires WorkerOk(w) && TableShape(w) && w.cursor < FLOW_CAP && idx < FLOW_CAP && OpsOk(ops)
    requires Quiet(w.entries[idx]) && ElsewhereRun(env, w, idx, ops)
    requires w.entries[idx].flow.held > 0 ==> Silent(env, w.entries[idx].flow, GcTimes(ops))
    requires |GcTimes(ops)| >= CallsLeft(w, idx)
    ensures var r := RunFrom(env, w, ops); r.Returns? ==> r.v.entries[idx].flow.held == 0
    decreases |ops|
  {
    hide WorkerOk, Step, Quiet, Elsewhere, Rounds, StillSilent, Silent;
    if |ops| > 0 {
      var op, rest := ops[0], ops[1..];
      var f := w.entries[idx].flow;
      if f.held > 0 && op.OpGc? {
        SilentFirst(env, f, GcTimes(ops));
      }
      DrainStep(env, w, idx, op);
      var r := Step(env, w, op);
      if r.Returns? {
        StepKeeps(env, w, op, ANY);
        if r.v.entries[idx].flow.held > 0 {
          assert GcTimes(rest) == GcTimes(ops)[if op.OpGc? then 1 else 0..];
          SilentRest(env, f, r.v.entries[idx].flow, GcTimes(ops), GcTimes(rest), if op.OpGc? then 1 else 0);
        }
        SilentFlowDrains(env, r.v, idx, rest);
      }
    }
  }

  lemma SilentFirst(env: Env, f: Flow, times: seq<nat>)
    requires Silent(env, f, times) && |times| > 0
    ensures Silent(env, f, [times[0]])
  {
    hide Elapsed;
  }
}
