/** The whole worker: the set-associative flow table, submit, the sliced garbage collection and the
    worker reset, and whole runs of these calls. */
module ReorderTable {
  import opened Serial
  import opened ReorderModel

  const NO_KEY := Key(0, 0, 0, 0)
  const FREE := Flow(false, NO_KEY, 0, 0, 0, 0, 0, 0)

  predicate TableShape(w: Worker) {
    |w.entries| == FLOW_CAP && forall i :: 0 <= i < FLOW_CAP ==> Aligned(w.entries[i].win)
  }

  function Open(w: Worker, idx: nat): Ctx
    requires idx < |w.entries|
  {
    Ctx(w.entries[idx], w.total, w.trace)
  }

  function Close(w: Worker, idx: nat, c: Ctx): Worker
    requires idx < |w.entries|
  {
    w.(entries := w.entries[idx := c.e], total := c.total, trace := c.trace)
  }

  function DropSlot(c: Ctx, i: nat): Ctx
    requires i < |c.e.win|
  {
    if c.e.win[i].Held?
    then Ctx(c.e.(win := c.e.win[i := Empty]), Pred(c.total), c.trace + [Drop(c.e.win[i].d)])
    else c
  }

  /** Drop the held datagrams from slot `i` on, in slot order. */
  function DropFrom(c: Ctx, i: nat): (r: Ctx)
    requires Aligned(c.e.win) && i <= WINDOW
    ensures Aligned(r.e.win)
    decreases WINDOW - i
  {
    if i == WINDOW then c.(e := c.e.(flow := c.e.flow.(held := 0, gapSince := 0)))
    else DropFrom(DropSlot(c, i), i + 1)
  }

  function NewFlow(key: Key, epoch: nat, sn: nat, now: nat, stamp: nat): Flow {
    var back := if sn < START_BACKTRACK then sn else START_BACKTRACK;
    Flow(true, key, epoch, sn - back, if back > 0 then now else 0, now, stamp, 0)
  }

  function ResetEntry(w: Worker, idx: nat, d: Datagram, now: nat): (r: Worker)
    requires TableShape(w) && idx < FLOW_CAP
    ensures TableShape(r)
  {
    var c := Open(w, idx);
    var m := if c.e.flow.valid then DropFrom(c, 0) else c;
    var f := NewFlow(d.key, d.epoch, d.sn, now, w.clock + 1);
    Close(w, idx, Ctx(Entry(f, m.e.win), m.total, m.trace + [Reset(idx, d.key, f.next)])).(clock := w.clock + 1)
  }

  function Touch(w: Worker, idx: nat, now: nat): (r: Worker)
    requires TableShape(w) && idx < FLOW_CAP
    ensures TableShape(r)
  {
    var e := w.entries[idx];
    w.(entries := w.entries[idx := e.(flow := e.flow.(lastSeen := now, stamp := w.clock + 1))],
       clock := w.clock + 1)
  }

  function SetBase(env: Env, key: Key): (b: nat)
    ensures b + WAYS <= FLOW_CAP
  {
    (env.hash(key) % SETS) * WAYS
  }

  datatype Found = Hit(idx: nat) | Victim(idx: nat)

  /** The scan of a set: it stops at the flow's own entry or at the first invalid way, and
      otherwise remembers the least recently used way. */
  function Scan(entries: seq<Entry>, base: nat, way: nat, victim: nat, key: Key): (r: Found)
    requires base + WAYS <= |entries| && way <= WAYS && base <= victim < base + WAYS
    ensures base <= r.idx < base + WAYS
    ensures r.Hit? ==> entries[r.idx].flow.valid && entries[r.idx].flow.key == key
    decreases WAYS - way
  {
    if way == WAYS then Victim(victim)
    else
      var f := entries[base + way].flow;
      if f.valid && f.key == key then Hit(base + way)
      else if !f.valid then Victim(base + way)
      else Scan(entries, base, way + 1, if f.stamp < entries[victim].flow.stamp then base + way else victim, key)
  }

  function Find(env: Env, w: Worker, key: Key): (r: Found)
    requires |w.entries| == FLOW_CAP
    ensures r.idx < FLOW_CAP
    ensures r.Hit? ==> w.entries[r.idx].flow.valid && w.entries[r.idx].flow.key == key
  {
    var b := SetBase(env, key);
    Scan(w.entries, b, 0, b, key)
  }

  predicate Owns(e: Entry, key: Key) {
    e.flow.valid && e.flow.key == key
  }

  /** A way the scan walks past. */
  predicate Passes(e: Entry, key: Key) {
    e.flow.valid && e.flow.key != key
  }

  /** What the scan of a set returns, for every table: the flow's first entry if no free way comes before
      it; else the first free way; and only if the set is full of other flows, the least recently used
      of them, the earliest of several. */
  lemma {:induction false} ScanIff(es: seq<Entry>, base: nat, way: nat, victim: nat, key: Key, i: nat)
    requires base + WAYS <= |es| && way <= WAYS && base <= i < base + WAYS
    requires base <= victim < base + WAYS && (way > 0 ==> victim < base + way) && (way == 0 ==> victim == base)
    requires forall j :: base <= j < base + way ==> Passes(es[j], key) && es[victim].flow.stamp <= es[j].flow.stamp
    requires forall j :: base <= j < victim ==> es[victim].flow.stamp < es[j].flow.stamp
    ensures var r := Scan(es, base, way, victim, key);
            && (r == Hit(i) <==> Owns(es[i], key) && forall j :: base <= j < i ==> Passes(es[j], key))
            && (r == Victim(i) <==>
                  if es[i].flow.valid then
                    && (forall j :: base <= j < base + WAYS ==>
                          Passes(es[j], key) && es[i].flow.stamp <= es[j].flow.stamp)
                    && (forall j :: base <= j < i ==> es[i].flow.stamp < es[j].flow.stamp)
                  else forall j :: base <= j < i ==> Passes(es[j], key))
    decreases WAYS - way
  {
    if way < WAYS && Passes(es[base + way], key) {
      var f := es[base + way].flow;
      ScanIff(es, base, way + 1, if f.stamp < es[victim].flow.stamp then base + way else victim, key, i);
    }
  }

  /** An entry of a flow is found exactly when every way before it is in use by other flows. A collector
      visit that frees an earlier way therefore hides it, and the flow gets a second entry. */
  lemma FindHitIff(env: Env, w: Worker, key: Key, i: nat)
    requires |w.entries| == FLOW_CAP && SetBase(env, key) <= i < SetBase(env, key) + WAYS
    ensures Find(env, w, key) == Hit(i) <==>
              Owns(w.entries[i], key) && forall j :: SetBase(env, key) <= j < i ==> Passes(w.entries[j], key)
  {
    hide Scan;
    ScanIff(w.entries, SetBase(env, key), 0, SetBase(env, key), key, i);
  }

  /** The table with the datagram's entry found, renewed or taken over. */
  function Lookup(env: Env, w: Worker, d: Datagram, now: nat): (r: Worker)
    requires TableShape(w)
    ensures TableShape(r)
  {
    match Find(env, w, d.key)
    case Hit(i) =>
      var m := if w.entries[i].flow.epoch != d.epoch then ResetEntry(w, i, d, now) else w;
      Touch(m, i, now)
    case Victim(i) => ResetEntry(w, i, d, now)
  }

  function Submit(env: Env, w: Worker, d: Datagram, now: nat): (r: Outcome<Worker>)
    requires TableShape(w) && d.sn < M32
    ensures r.Returns? ==> TableShape(r.v)
  {
    if !env.enabled then Returns(w.(trace := w.trace + [Pass(d, env.accepts(|w.trace|))]))
    else
      var idx := Find(env, w, d.key).idx;
      var m := Lookup(env, w, d, now);
      match Arrive(env, idx, Open(m, idx), d, now)
      case Hangs => Hangs
      case Returns(c) => Returns(Close(m, idx, c))
  }

  /** One garbage-collection visit: release an expired gap, then free an idle flow. */
  function GcVisit(env: Env, w: Worker, idx: nat, now: nat): (r: Worker)
    requires TableShape(w) && idx < FLOW_CAP
    ensures TableShape(r)
  {
    var c := Open(w, idx);
    if !c.e.flow.valid then w
    else
      var m := if Expired(env, c.e.flow, now) then SkipGap(env, idx, c) else c;
      var f := m.e.flow;
      if f.held == 0 && Elapsed(now, f.lastSeen) > FLOW_IDLE_NS
      then Close(w, idx, m.(e := m.e.(flow := FREE)))
      else Close(w, idx, m)
  }

  function GcFrom(env: Env, w: Worker, now: nat, n: nat): (r: Worker)
    requires TableShape(w) && n <= GC_SLICE
    ensures TableShape(r) && r.cursor == w.cursor
    decreases GC_SLICE - n
  {
    if n == GC_SLICE then w
    else GcFrom(env, GcVisit(env, w, (w.cursor + n) % FLOW_CAP, now), now, n + 1)
  }

  function Gc(env: Env, w: Worker, now: nat): (r: Worker)
    requires TableShape(w)
    ensures TableShape(r)
  {
    GcFrom(env, w, now, 0).(cursor := (w.cursor + GC_SLICE) % FLOW_CAP)
  }

  function ClearEntry(w: Worker, idx: nat): (r: Worker)
    requires TableShape(w) && idx < FLOW_CAP
    ensures TableShape(r)
  {
    var c := Open(w, idx);
    var m := if c.e.flow.valid then DropFrom(c, 0) else c;
    Close(w, idx, m.(e := m.e.(flow := FREE)))
  }

  function ClearFrom(w: Worker, idx: nat): (r: Worker)
    requires TableShape(w) && idx <= FLOW_CAP
    ensures TableShape(r)
    decreases FLOW_CAP - idx
  {
    if idx == FLOW_CAP then w else ClearFrom(ClearEntry(w, idx), idx + 1)
  }

  function ResetWorker(w: Worker): (r: Worker)
    requires TableShape(w)
    ensures TableShape(r)
  {
    ClearFrom(w, 0).(total := 0, cursor := 0)
  }

  /* ---- runs ---- */

  datatype Op = OpSubmit(d: Datagram, now: nat) | OpGc(now: nat) | OpReset

  predicate OpOk(op: Op) {
    op.OpSubmit? ==> op.d.sn < M32
  }

  function Step(env: Env, w: Worker, op: Op): (r: Outcome<Worker>)
    requires TableShape(w) && OpOk(op)
    ensures r.Returns? ==> TableShape(r.v)
  {
    match op
    case OpSubmit(d, now) => Submit(env, w, d, now)
    case OpGc(now) => Returns(Gc(env, w, now))
    case OpReset => Returns(ResetWorker(w))
  }

  predicate OpsOk(ops: seq<Op>) {
    forall i :: 0 <= i < |ops| ==> OpOk(ops[i])
  }

  function Start(): (w: Worker)
    ensures TableShape(w)
  {
    Worker(seq(FLOW_CAP, i => Entry(FREE, seq(WINDOW, j => Empty))), 0, 0, 0, [])
  }

  /** The state after a run of calls from the empty table, unless one of them never returned. */
  function Run(env: Env, ops: seq<Op>): (r: Outcome<Worker>)
    requires OpsOk(ops)
    ensures r.Returns? ==> TableShape(r.v)
  {
    if |ops| == 0 then Returns(Start())
    else
      match Run(env, ops[..|ops| - 1])
      case Hangs => Hangs
      case Returns(w) => Step(env, w, ops[|ops| - 1])
  }

  /** How many datagrams of class `x` were submitted in a run. */
  function Submitted(ops: seq<Op>, x: Mark): nat {
    if |ops| == 0 then 0
    else Submitted(ops[..|ops| - 1], x) + SubmittedBy(ops[|ops| - 1], x)
  }

  function SubmittedBy(op: Op, x: Mark): nat {
    if op.OpSubmit? && x(op.d) then 1 else 0
  }
}
