/** What the stamps and times of the reorder table's entries mean, in every run, and whom a takeover of a full
    set evicts. */
module ReorderStamps {
  import opened Serial
  import opened ReorderModel
  import opened ReorderEntry
  import opened ReorderTable
  import opened ReorderRuns
  import opened ReorderFlows

  /** The number of the last call that was a submit for which the lookup arrived at entry `i`; 0 if none was. */
  function LastMet(env: Env, ops: seq<Op>, i: nat): (k: nat)
    requires OpsOk(ops)
    ensures k <= |ops|
  {
    if |ops| == 0 then 0
    else
      var init, op := ops[..|ops| - 1], ops[|ops| - 1];
      var p := Run(env, init);
      if env.enabled && op.OpSubmit? && p.Returns? && Find(env, p.v, op.d.key).idx == i then |ops|
      else LastMet(env, init, i)
  }

  /** One submit arrives at one entry. */
  lemma {:induction false} MetApart(env: Env, ops: seq<Op>, i: nat, j: nat)
    requires OpsOk(ops) && LastMet(env, ops, i) == LastMet(env, ops, j) > 0
    ensures i == j
  {
    hide Run, Find;
    var init := ops[..|ops| - 1];
    if LastMet(env, ops, i) < |ops| {
      MetApart(env, init, i, j);
    }
  }

  /** Entry `i` is of the flow and epoch of the submit that last arrived at it, and was seen at its time. */
  ghost predicate MetBy(env: Env, ops: seq<Op>, w: Worker, i: nat)
    requires OpsOk(ops) && i < |w.entries|
  {
    var k, f := LastMet(env, ops, i), w.entries[i].flow;
    && 0 < k && ops[k - 1].OpSubmit?
    && ops[k - 1].d.key == f.key && ops[k - 1].d.epoch == f.epoch && ops[k - 1].now == f.lastSeen
  }

  /** Stamps order the entries in use by the last submit that arrived at them. */
  ghost predicate Stamped(env: Env, ops: seq<Op>, w: Worker)
    requires OpsOk(ops)
  {
    && |w.entries| == FLOW_CAP
    && (forall i: nat :: i < FLOW_CAP && w.entries[i].flow.valid ==>
          MetBy(env, ops, w, i) && w.entries[i].flow.stamp <= w.clock)
    && forall i: nat, j: nat ::
         (&& i < FLOW_CAP && j < FLOW_CAP && w.entries[i].flow.valid && w.entries[j].flow.valid
          && LastMet(env, ops, i) < LastMet(env, ops, j)) ==>
           w.entries[i].flow.stamp < w.entries[j].flow.stamp
  }

  /** The entry a submit arrives at afterwards: of the datagram's flow and epoch, seen now, with a new stamp. */
  ghost predicate Arrived(w: Worker, v: Worker, idx: nat, d: Datagram, now: nat) {
    && |v.entries| == |w.entries| == FLOW_CAP && idx < FLOW_CAP
    && (var f := v.entries[idx].flow;
        f.valid && f.key == d.key && f.epoch == d.epoch && f.lastSeen == now && w.clock < f.stamp <= v.clock)
    && forall i :: 0 <= i < FLOW_CAP && i != idx ==> v.entries[i] == w.entries[i]
  }

  lemma LookupArrives(env: Env, w: Worker, d: Datagram, now: nat)
    requires WorkerOk(w) && TableShape(w)
    ensures Arrived(w, Lookup(env, w, d, now), Find(env, w, d.key).idx, d, now)
  {
    hide WorkerOk, Scan, SetBase, DropFrom;
    LookupKeeps(env, w, d, now, ANY);
    LookupFlows(env, w, d, now);
  }

  lemma SubmitArrives(env: Env, w: Worker, d: Datagram, now: nat)
    requires WorkerOk(w) && TableShape(w) && env.enabled && d.sn < M32
    ensures var r := Submit(env, w, d, now); r.Returns? ==> Arrived(w, r.v, Find(env, w, d.key).idx, d, now)
  {
    hide WorkerOk, Find, Lookup, Arrive, CtxOk;
    var idx, m := Find(env, w, d.key).idx, Lookup(env, w, d, now);
    LookupArrives(env, w, d, now);
    LookupKeeps(env, w, d, now, ANY);
    OpenOk(m, idx);
    ArriveKeeps(env, idx, Open(m, idx), d, now, ANY);
  }

  /** Calls that arrive at no entry: what stays in use keeps its flow, time and stamp. */
  ghost predicate Keeps(w: Worker, r: Worker) {
    && |r.entries| == |w.entries| == FLOW_CAP && r.clock == w.clock
    && forall i :: 0 <= i < FLOW_CAP && r.entries[i].flow.valid ==>
         w.entries[i].flow.valid && SameFlow(w.entries[i].flow, r.entries[i].flow)
  }

  lemma GcVisitStamps(env: Env, w: Worker, i: nat, now: nat)
    requires WorkerOk(w) && TableShape(w) && i < FLOW_CAP
    ensures Keeps(w, GcVisit(env, w, i, now))
  {
    hide SkipGap, EntryOk, Outs, LivesOk, HeldCount, HeldCopies, Disposed, SumHeld, Elapsed;
    if w.entries[i].flow.valid {
      OpenOk(w, i);
      SkipGapKeeps(env, i, Open(w, i), ANY);
    }
  }

  lemma {:induction false} GcFromStamps(env: Env, w: Worker, now: nat, n: nat)
    requires WorkerOk(w) && TableShape(w) && n <= GC_SLICE
    ensures Keeps(w, GcFrom(env, w, now, n))
    decreases GC_SLICE - n
  {
    hide WorkerOk, GcVisit;
    if n < GC_SLICE {
      var i := (w.cursor + n) % FLOW_CAP;
      GcVisitStamps(env, w, i, now);
      GcVisitKeeps(env, w, i, now, ANY);
      GcFromStamps(env, GcVisit(env, w, i, now), now, n + 1);
    }
  }

  lemma {:induction false} ClearFromStamps(w: Worker, idx: nat)
    requires TableShape(w) && idx <= FLOW_CAP
    ensures Keeps(w, ClearFrom(w, idx))
    decreases FLOW_CAP - idx
  {
    hide DropFrom;
    if idx < FLOW_CAP {
      ClearFromStamps(ClearEntry(w, idx), idx + 1);
    }
  }

  lemma KeepsStamped(env: Env, ops: seq<Op>, op: Op, w: Worker, r: Worker)
    requires OpsOk(ops) && OpOk(op) && Stamped(env, ops, w) && Keeps(w, r) && (op.OpSubmit? ==> !env.enabled)
    ensures OpsOk(ops + [op]) && Stamped(env, ops + [op], r)
  {
    hide Run;
    assert (ops + [op])[..|ops|] == ops;
    forall i: nat ensures LastMet(env, ops + [op], i) == LastMet(env, ops, i) {
    }
    forall i: nat | i < FLOW_CAP && r.entries[i].flow.valid ensures MetBy(env, ops + [op], r, i) {
      assert MetBy(env, ops, w, i);
    }
  }

  lemma ArrivedStamped(env: Env, ops: seq<Op>, op: Op, w: Worker, v: Worker)
    requires OpsOk(ops) && OpOk(op) && op.OpSubmit? && env.enabled && Run(env, ops) == Returns(w)
    requires Stamped(env, ops, w) && Arrived(w, v, Find(env, w, op.d.key).idx, op.d, op.now)
    ensures OpsOk(ops + [op]) && Stamped(env, ops + [op], v)
  {
    hide Run, Find;
    var all, idx := ops + [op], Find(env, w, op.d.key).idx;
    assert all[..|ops|] == ops;
    forall i: nat ensures LastMet(env, all, i) == if i == idx then |all| else LastMet(env, ops, i) {
    }
    forall i: nat | i < FLOW_CAP && v.entries[i].flow.valid
      ensures MetBy(env, all, v, i) && v.entries[i].flow.stamp <= v.clock
    {
      if i != idx {
        assert MetBy(env, ops, w, i);
      }
    }
  }

  /** Main stamp theorem. In every run an entry in use belongs to the flow and epoch of the last submit that arrived
      at it and carries its time, and stamps order the entries in use by those submits. */
  lemma {:induction false} RunStamped(env: Env, ops: seq<Op>)
    requires OpsOk(ops)
    ensures var r := Run(env, ops); r.Returns? ==> Stamped(env, ops, r.v)
  {
    hide Stamped, Submit, GcFrom, ClearFrom, Start, WorkerOk, Find, Keeps, Arrived;
    if |ops| == 0 {
      StartStamped(env, ops);
    } else {
      var init, op := ops[..|ops| - 1], ops[|ops| - 1];
      assert init + [op] == ops;
      RunStamped(env, init);
      RunBooks(env, init, ANY);
      if Run(env, init).Returns? && Run(env, ops).Returns? {
        var w, r := Run(env, init).v, Run(env, ops).v;
        if op.OpSubmit? && env.enabled {
          SubmitArrives(env, w, op.d, op.now);
          ArrivedStamped(env, init, op, w, r);
        } else {
          match op {
            case OpSubmit(d, now) => SubmitOffKeeps(env, w, d, now);
            case OpGc(now) =>
              GcFromStamps(env, w, now, 0);
              KeepsSame(w, GcFrom(env, w, now, 0), r);
            case OpReset =>
              ClearFromStamps(w, 0);
              KeepsSame(w, ClearFrom(w, 0), r);
          }
          KeepsStamped(env, init, op, w, r);
        }
      }
    }
  }

  lemma StartStamped(env: Env, ops: seq<Op>)
    requires ops == []
    ensures Stamped(env, ops, Start())
  {
  }

  lemma SubmitOffKeeps(env: Env, w: Worker, d: Datagram, now: nat)
    requires TableShape(w) && !env.enabled && d.sn < M32
    ensures Keeps(w, Submit(env, w, d, now).v)
  {
  }

  lemma KeepsSame(w: Worker, m: Worker, r: Worker)
    requires Keeps(w, m) && r.entries == m.entries && r.clock == m.clock
    ensures Keeps(w, r)
  {
  }

  /** Main eviction theorem. In every run, when a submit takes over a way in use, its set is full of other flows,
      and of the four entries the one taken over is the one at which a submit last arrived longest ago. */
  lemma EvictsLongestAgo(env: Env, ops: seq<Op>, key: Key, i: nat)
    requires OpsOk(ops) && Run(env, ops).Returns? && |Run(env, ops).v.entries| == FLOW_CAP
    requires var w := Run(env, ops).v; Find(env, w, key).Victim? && w.entries[Find(env, w, key).idx].flow.valid
    requires InSet(env, key, i)
    ensures var w, v := Run(env, ops).v, Find(env, Run(env, ops).v, key).idx;
            && InSet(env, key, v)
            && w.entries[i].flow.valid && w.entries[i].flow.key != key
            && (i != v ==> LastMet(env, ops, v) < LastMet(env, ops, i))
  {
    hide Run, Scan, SetBase, LastMet;
    var w := Run(env, ops).v;
    var v, b := Find(env, w, key).idx, SetBase(env, key);
    RunStamped(env, ops);
    FindIff(env, w, key);
    ScanIff(w.entries, b, 0, b, key, v);
    assert Passes(w.entries[i], key) && w.entries[v].flow.stamp <= w.entries[i].flow.stamp;
    if i != v && LastMet(env, ops, v) == LastMet(env, ops, i) {
      assert MetBy(env, ops, w, i);
      MetApart(env, ops, i, v);
    }
  }

  /* ---- on the calls alone ---- */

  /** The number of the last submit of a flow among the calls; 0 if there is none. */
  function LastSubmit(ops: seq<Op>, key: Key): (k: nat)
    ensures k <= |ops|
  {
    if |ops| == 0 then 0
    else if ops[|ops| - 1].OpSubmit? && ops[|ops| - 1].d.key == key then |ops|
    else LastSubmit(ops[..|ops| - 1], key)
  }

  /** In a run in which no submit meets a hidden entry, the last submit that arrived at an entry in use is the last
      submit of its flow. */
  lemma {:induction false} MetIsSubmitted(env: Env, ops: seq<Op>, i: nat)
    requires OpsOk(ops) && NeverHidden(env, ops) && Run(env, ops).Returns? && env.enabled
    requires |Run(env, ops).v.entries| == FLOW_CAP && i < FLOW_CAP && Run(env, ops).v.entries[i].flow.valid
    ensures LastMet(env, ops, i) == LastSubmit(ops, Run(env, ops).v.entries[i].flow.key)
  {
    hide WorkerOk, Submit, GcFrom, ClearFrom, Start, Find, SetBase, Hidden, SoloOk;
    if |ops| == 0 {
      StartFree(i);
    } else {
      var init, op := ops[..|ops| - 1], ops[|ops| - 1];
      assert init + [op] == ops;
      RunBooks(env, init, ANY);
      RunFlows(env, ops);
      var w, r := Run(env, init).v, Run(env, ops).v;
      ShapeOk(w);
      if op.OpSubmit? {
        SubmitArrives(env, w, op.d, op.now);
        var idx := Find(env, w, op.d.key).idx;
        if i != idx {
          assert r.entries[i] == w.entries[i];
          assert r.entries[idx].flow.key == op.d.key && r.entries[idx].flow.valid;
          assert i < idx || idx < i;
          MetIsSubmitted(env, init, i);
        }
      } else {
        OtherKeeps(env, w, op);
        MetIsSubmitted(env, init, i);
      }
    }
  }

  lemma StartFree(i: nat)
    requires i < FLOW_CAP
    ensures !Start().entries[i].flow.valid
  {
  }

  lemma OtherKeeps(env: Env, w: Worker, op: Op)
    requires WorkerOk(w) && TableShape(w) && !op.OpSubmit?
    ensures Step(env, w, op).Returns? && Keeps(w, Step(env, w, op).v)
  {
    hide WorkerOk, GcFrom, ClearFrom, Keeps;
    match op
    case OpGc(now) =>
      GcFromStamps(env, w, now, 0);
      KeepsSame(w, GcFrom(env, w, now, 0), Step(env, w, op).v);
    case OpReset =>
      ClearFromStamps(w, 0);
      KeepsSame(w, ClearFrom(w, 0), Step(env, w, op).v);
  }

  /** The eviction theorem on the calls alone: in a run in which no submit meets a hidden entry, a takeover of a way
      in use evicts, of the four flows of its set, the one whose last submit is longest ago. */
  lemma EvictsFlowLongestAgo(env: Env, ops: seq<Op>, key: Key, i: nat)
    requires OpsOk(ops) && NeverHidden(env, ops) && Run(env, ops).Returns? && |Run(env, ops).v.entries| == FLOW_CAP
    requires var w := Run(env, ops).v; Find(env, w, key).Victim? && w.entries[Find(env, w, key).idx].flow.valid
    requires env.enabled && InSet(env, key, i) && i != Find(env, Run(env, ops).v, key).idx
    ensures var w := Run(env, ops).v;
            var f, g := w.entries[Find(env, w, key).idx].flow, w.entries[i].flow;
            g.valid && LastSubmit(ops, f.key) < LastSubmit(ops, g.key)
  {
    hide Run, Find, LastMet, LastSubmit, NeverHidden;
    EvictsLongestAgo(env, ops, key, i);
    MetIsSubmitted(env, ops, i);
    MetIsSubmitted(env, ops, Find(env, Run(env, ops).v, key).idx);
  }
}
