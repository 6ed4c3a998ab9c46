/** Runs of the program's own configuration that break what one would expect: a worker at its real held cap
    that hangs, and a flow with two entries. */
module ReorderCases {
  import opened Serial
  import opened ReorderModel
  import opened ReorderEntry
  import opened ReorderTable
  import opened ReorderRuns
  import opened ReorderWindow
  import opened ReorderFlows
  import opened ReorderHang
  import opened ReorderHash
  import opened ReorderProgress
  import opened ReorderEndToEnd

  const HELD_CAP: nat := 8192

  function Numbered(key: Key, sn: nat): Datagram {
    Datagram(key, 0, sn, Item(0, 0, 0, 0))
  }

  /* ---- three datagrams that hang a worker one below its cap ---- */

  /** The flow waits for 0 and holds exactly number 2, and the worker is at its cap. */
  ghost predicate HoldsTwo(env: Env, w: Worker, idx: nat, key: Key, now: nat) {
    && TableShape(w) && idx < FLOW_CAP && Find(env, w, key) == Hit(idx) && w.total == env.cap
    && (var f := w.entries[idx].flow;
        f.valid && f.key == key && f.epoch == 0 && f.next == 0 && f.gapSince == now && f.held == 1)
    && forall i :: 0 <= i < WINDOW ==> w.entries[idx].win[i] == if i == 2 then Held(Numbered(key, 2)) else Empty
  }

  lemma FirstOfThree(env: Env, w: Worker, key: Key, now: nat) returns (v: Worker)
    requires WorkerOk(w) && TableShape(w) && env.enabled && Find(env, w, key).Victim?
    requires var idx := Find(env, w, key).idx; w.total - w.entries[idx].flow.held == env.cap - 1
    ensures Submit(env, w, Numbered(key, 2), now) == Returns(v) && HoldsTwo(env, v, Find(env, w, key).idx, key, now)
  {
    hide WorkerOk, Outs, Find, HeldCount, ResetEntry, MakeRoom, Flush, SkipGap, SeqDelta, SetBase;
    var idx, d := Find(env, w, key).idx, Numbered(key, 2);
    var m := ResetEntry(w, idx, d, now);
    ResetEntryKeeps(w, idx, d, now, ANY);
    ResetEntryFlows(w, idx, d, now);
    EntryHeld(w, idx);
    EntryHeld(m, idx);
    WireSmall(0);
    WireSmall(2);
    SeqDeltaExact(2, 0);
    var c := Open(m, idx);
    HeldCountZero(c.e.win);
    NoRoomNeeded(env, idx, c, d.sn);
    v := Close(m, idx, Store(c, d, now));
    FoundAgain(env, w, v, key);
  }

  lemma TwoWindow(e: Entry, key: Key)
    requires |e.win| == WINDOW && e.flow.next == 0
    requires forall i :: 0 <= i < WINDOW ==> e.win[i] == if i == 2 then Held(Numbered(key, 2)) else Empty
    ensures Aligned(e.win) && WindowOk(e) && HeldCount(e.win) == 1
    ensures SmallestAhead(e.win, Wire(0)) == 2
    ensures SeqDelta(1, Wire(0)) == 1
  {
    hide HeldCount;
    var none := e.win[2 := Empty];
    HeldCountZero(none);
    HeldCountUpdate(none, 2, Held(Numbered(key, 2)));
    assert none[2 := Held(Numbered(key, 2))] == e.win;
    SmallestAheadBound(e.win, Wire(0), 2);
    var i := SmallestAheadWitness(e.win, Wire(0));
  }

  lemma SecondOfThree(env: Env, w: Worker, idx: nat, key: Key, now: nat) returns (v: Worker)
    requires HoldsTwo(env, w, idx, key, now) && env.enabled && env.hold > 0 && env.cap > 0
    ensures Submit(env, w, Numbered(key, 1), now) == Returns(v) && TableShape(v) && Find(env, v, key) == Hit(idx)
    ensures var e := v.entries[idx];
            && e.flow.valid && e.flow.key == key && e.flow.epoch == 0 && e.flow.next == 3 && e.flow.gapSince == now
            && Near(e, -HALF, 0) && e.flow.held == HeldCount(e.win) == 1 <= v.total
  {
    hide SmallestAhead, HeldCount, SkipGap, Place, MakeRoom, Find, Near;
    var d := Numbered(key, 1);
    var m := Touch(w, idx, now);
    var c := Open(m, idx);
    TwoWindow(c.e, key);
    NoRoomNeeded(env, idx, c, 1);
    LoneStrands(env, idx, c, d, now, 0);
    var r := Place(env, idx, c, d, now);
    v := Close(m, idx, r);
    assert Lookup(env, w, d, now) == m;
    FoundAgain(env, w, v, key);
  }

  lemma ThirdOfThree(env: Env, v: Worker, idx: nat, key: Key, now: nat)
    requires TableShape(v) && idx < FLOW_CAP && Find(env, v, key) == Hit(idx) && env.enabled && env.hold > 0
    requires var e := v.entries[idx];
             && e.flow.valid && e.flow.key == key && e.flow.epoch == 0 && e.flow.next == 3 && e.flow.gapSince == now
             && Near(e, -HALF, 0) && e.flow.held == HeldCount(e.win) == 1 <= v.total
    ensures Submit(env, v, Numbered(key, 259), now).Hangs?
  {
    hide MakeRoom, HeldCount, SkipGap, Find, SeqDelta, Wire, Near;
    var m := Touch(v, idx, now);
    var c := Open(m, idx);
    SeqDeltaExact(259, 3);
    WireSmall(259);
    LoneStranded(v.entries[idx], c.e, 259);
    MakeRoomHangsIff(env, idx, c, 259, 0);
    assert Lookup(env, v, Numbered(key, 259), now) == m;
  }

  lemma LoneStranded(e: Entry, r: Entry, sn: nat)
    requires |e.win| == WINDOW && Near(e, -HALF, 0) && HeldCount(e.win) == 1
    requires r.win == e.win && r.flow.next == e.flow.next && SeqDelta(sn, Wire(e.flow.next)) >= WINDOW
    ensures Stranded(r, sn) && Near(r, -HALF, 0)
  {
    hide HeldCount, SeqDelta, Wire;
    HeldCountZero(e.win);
    var i :| 0 <= i < WINDOW && !e.win[i].Empty?;
    assert e.win[i].Held?;
  }

  /** In every worker that is one below its cap once the entry for a new flow is emptied, the numbers 2, 1,
      259 of that flow, at one moment, make submit run forever. */
  lemma ThreeDatagramsHang(env: Env, w: Worker, key: Key, now: nat)
    requires WorkerOk(w) && TableShape(w) && env.enabled && env.hold > 0 && env.cap > 0 && Find(env, w, key).Victim?
    requires var idx := Find(env, w, key).idx; w.total - w.entries[idx].flow.held == env.cap - 1
    ensures var r := Submit(env, w, Numbered(key, 2), now);
            r.Returns? &&
            var s := Submit(env, r.v, Numbered(key, 1), now);
            s.Returns? && Submit(env, s.v, Numbered(key, 259), now).Hangs?
  {
    hide WorkerOk, Submit, Find, Near, HeldCount;
    var idx := Find(env, w, key).idx;
    var r := FirstOfThree(env, w, key, now);
    var s := SecondOfThree(env, r, idx, key, now);
    ThirdOfThree(env, s, idx, key, now);
  }

  /* ---- reaching such a worker ---- */

  /** The flow was sent numbers 1 to `c`, at one moment, and waits for 0. */
  ghost predicate Loaded(e: Entry, key: Key, c: nat, now: nat) {
    && |e.win| == WINDOW && (forall i :: 0 <= i < WINDOW ==> (e.win[i].Held? <==> 1 <= i <= c))
    && (c == 0 ==> !e.flow.valid)
    && (c > 0 ==> e.flow.valid && e.flow.key == key && e.flow.epoch == 0 && e.flow.next == 0 && e.flow.gapSince == now)
  }

  /** Another number of a loaded flow is held. */
  lemma LoadNext(env: Env, w: Worker, idx: nat, key: Key, c: nat, now: nat) returns (v: Worker)
    requires TableShape(w) && idx < FLOW_CAP && env.enabled && env.hold > 0 && w.total < env.cap
    requires Find(env, w, key) == Hit(idx) && 0 < c < WINDOW - 1 && Loaded(w.entries[idx], key, c, now)
    ensures Submit(env, w, Numbered(key, c + 1), now) == Returns(v) && v.total == w.total + 1
    ensures TableShape(v) && Loaded(v.entries[idx], key, c + 1, now)
    ensures forall i :: 0 <= i < FLOW_CAP && i != idx ==> v.entries[i] == w.entries[i]
  {
    hide Find, HeldCount, MakeRoom, Flush, SkipGap, SeqDelta, SlotOf;
    var d := Numbered(key, c + 1);
    var m := Touch(w, idx, now);
    assert Lookup(env, w, d, now) == m;
    var x := Open(m, idx);
    WireSmall(c + 1);
    WireSmall(0);
    SeqDeltaExact(c + 1, 0);
    SmallSlot(c + 1);
    NoRoomNeeded(env, idx, x, d.sn);
    v := Close(m, idx, Store(x, d, now));
  }

  lemma SmallSlot(n: nat)
    requires n < WINDOW
    ensures SlotOf(n) == n
  {
  }

  /** The first number of a new flow is held. */
  lemma LoadFirst(env: Env, w: Worker, idx: nat, key: Key, now: nat) returns (v: Worker)
    requires TableShape(w) && idx < FLOW_CAP && env.enabled && w.total < env.cap
    requires Find(env, w, key) == Victim(idx) && Loaded(w.entries[idx], key, 0, now)
    ensures Submit(env, w, Numbered(key, 1), now) == Returns(v) && v.total == w.total + 1
    ensures TableShape(v) && Loaded(v.entries[idx], key, 1, now)
    ensures forall i :: 0 <= i < FLOW_CAP && i != idx ==> v.entries[i] == w.entries[i]
  {
    hide Find, HeldCount, MakeRoom, Flush, SkipGap, SeqDelta, SlotOf, DropFrom;
    var d := Numbered(key, 1);
    var m := ResetEntry(w, idx, d, now);
    assert Lookup(env, w, d, now) == m;
    var x := Open(m, idx);
    WireSmall(1);
    WireSmall(0);
    SeqDeltaExact(1, 0);
    SmallSlot(1);
    NoRoomNeeded(env, idx, x, d.sn);
    v := Close(m, idx, Store(x, d, now));
  }

  const PER_FLOW: nat := 255

  /** How many of the first `n` datagrams went to flow `g`. */
  function Given(n: nat, g: nat): nat {
    if n <= g * PER_FLOW then 0 else if n - g * PER_FLOW >= PER_FLOW then PER_FLOW else n - g * PER_FLOW
  }

  /** The first `n` of the datagrams 1 to 255 of each of the flows, in turn. */
  function Load(keys: seq<Key>, n: nat, now: nat): (ops: seq<Op>)
    requires n <= |keys| * PER_FLOW
    ensures |ops| == n && OpsOk(ops)
  {
    if n == 0 then [] else Load(keys, n - 1, now) + [LoadOp(keys, n - 1, now)]
  }

  function LoadOp(keys: seq<Key>, n: nat, now: nat): (op: Op)
    requires n < |keys| * PER_FLOW
    ensures OpOk(op)
  {
    OpSubmit(Numbered(keys[n / PER_FLOW], n % PER_FLOW + 1), now)
  }

  /** The flows are in different sets. */
  ghost predicate Spread(env: Env, keys: seq<Key>) {
    forall g, h :: 0 <= g < h < |keys| ==> SetBase(env, keys[g]) != SetBase(env, keys[h])
  }

  ghost predicate LoadedAll(env: Env, w: Worker, keys: seq<Key>, n: nat, now: nat) {
    && TableShape(w) && w.total == n
    && forall g :: 0 <= g < |keys| ==> Loaded(w.entries[SetBase(env, keys[g])], keys[g], Given(n, g), now)
  }

  lemma FirstWay(env: Env, w: Worker, key: Key)
    requires TableShape(w)
    ensures var b := SetBase(env, key);
            && (!w.entries[b].flow.valid ==> Find(env, w, key) == Victim(b))
            && (Owns(w.entries[b], key) ==> Find(env, w, key) == Hit(b))
  {
    hide SetBase;
  }

  lemma GivenStep(n: nat, g: nat)
    ensures Given(n + 1, g) == Given(n, g) + (if g == n / PER_FLOW then 1 else 0)
    ensures g == n / PER_FLOW ==> Given(n, g) == n % PER_FLOW
  {
    if g < n / PER_FLOW {
      assert (g + 1) * PER_FLOW <= n;
    } else if g > n / PER_FLOW {
      assert g * PER_FLOW >= n + 1;
    }
  }

  lemma LoadStep(env: Env, w: Worker, keys: seq<Key>, n: nat, now: nat) returns (v: Worker)
    requires env.enabled && env.hold > 0 && n < env.cap && n < |keys| * PER_FLOW && Spread(env, keys)
    requires LoadedAll(env, w, keys, n, now)
    ensures Step(env, w, LoadOp(keys, n, now)) == Returns(v) && LoadedAll(env, v, keys, n + 1, now)
  {
    hide Find, Submit, Loaded, SetBase, Given;
    var g, c := n / PER_FLOW, n % PER_FLOW;
    var key := keys[g];
    var idx := SetBase(env, key);
    GivenStep(n, g);
    FirstWay(env, w, key);
    LoadedOwner(w.entries[idx], key, c, now);
    if c == 0 {
      v := LoadFirst(env, w, idx, key, now);
    } else {
      v := LoadNext(env, w, idx, key, c, now);
    }
    forall h | 0 <= h < |keys| ensures Loaded(v.entries[SetBase(env, keys[h])], keys[h], Given(n + 1, h), now) {
      GivenStep(n, h);
      assert h < g || h == g || g < h;
    }
  }

  lemma LoadedOwner(e: Entry, key: Key, c: nat, now: nat)
    requires Loaded(e, key, c, now)
    ensures if c == 0 then !e.flow.valid else Owns(e, key)
  {
  }

  lemma {:induction false} LoadRun(env: Env, keys: seq<Key>, n: nat, now: nat) returns (w: Worker)
    requires env.enabled && env.hold > 0 && n <= env.cap && n <= |keys| * PER_FLOW && Spread(env, keys)
    ensures Run(env, Load(keys, n, now)) == Returns(w) && LoadedAll(env, w, keys, n, now)
  {
    hide Step, LoadedAll, Start, LoadOp, Spread;
    if n == 0 {
      w := Start();
      StartLoaded(env, w, keys, now);
    } else {
      var u := LoadRun(env, keys, n - 1, now);
      w := LoadStep(env, u, keys, n - 1, now);
      var ops := Load(keys, n, now);
      assert ops[..n - 1] == Load(keys, n - 1, now);
    }
  }

  lemma StartLoaded(env: Env, w: Worker, keys: seq<Key>, now: nat)
    requires w == Start()
    ensures LoadedAll(env, w, keys, 0, now)
  {
    hide SetBase;
  }

  /** With flows enough in different sets, the numbers 1 to 255 of each up to one below the cap and then the
      three datagrams of one flow more never return, whatever the cap. */
  lemma CapHangs(env: Env, keys: seq<Key>, now: nat)
    requires env.enabled && env.hold > 0 && Spread(env, keys)
    requires 0 < env.cap && |keys| > 0 && env.cap - 1 <= (|keys| - 1) * PER_FLOW
    ensures var key := keys[|keys| - 1];
            var ops := Load(keys, env.cap - 1, now) + [OpSubmit(Numbered(key, 2), now), OpSubmit(Numbered(key, 1), now),
                                                       OpSubmit(Numbered(key, 259), now)];
            OpsOk(ops) && Run(env, ops).Hangs?
  {
    hide Submit, Find, Loaded, SetBase, Spread, Load, WorkerOk;
    var n, key := env.cap - 1, keys[|keys| - 1];
    var ops := Load(keys, n, now);
    var w := LoadRun(env, keys, n, now);
    RunBooks(env, ops, ANY);
    FirstWay(env, w, key);
    var idx := SetBase(env, key);
    LoadedOwner(w.entries[idx], key, 0, now);
    FreeHolds(w, idx);
    ThreeDatagramsHang(env, w, key, now);
    var a, b, c := OpSubmit(Numbered(key, 2), now), OpSubmit(Numbered(key, 1), now), OpSubmit(Numbered(key, 259), now);
    ThreeMore(env, ops, a, b, c);
  }

  lemma FreeHolds(w: Worker, idx: nat)
    requires WorkerOk(w) && idx < FLOW_CAP && !w.entries[idx].flow.valid
    ensures w.entries[idx].flow.held == 0
  {
    hide Outs, LivesOk, SumHeld, HeldCount;
    assert EntryOk(w.entries[idx], Outs(w.trace, idx));
  }

  lemma ThreeMore(env: Env, ops: seq<Op>, a: Op, b: Op, c: Op)
    requires OpsOk(ops) && OpOk(a) && OpOk(b) && OpOk(c) && Run(env, ops).Returns?
    requires var r := Step(env, Run(env, ops).v, a);
             r.Returns? && var s := Step(env, r.v, b); s.Returns? && Step(env, s.v, c).Hangs?
    ensures OpsOk(ops + [a, b, c]) && Run(env, ops + [a, b, c]).Hangs?
  {
    hide Step, Run;
    RunMore(env, ops, a);
    RunMore(env, ops + [a], b);
    RunMore(env, ops + [a] + [b], c);
    assert ops + [a, b, c] == ops + [a] + [b] + [c];
  }

  lemma RunMore(env: Env, ops: seq<Op>, op: Op)
    requires OpsOk(ops) && OpOk(op) && Run(env, ops).Returns?
    ensures OpsOk(ops + [op]) && Run(env, ops + [op]) == Step(env, Run(env, ops).v, op)
  {
    hide Step;
    assert (ops + [op])[..|ops|] == ops;
  }

  /** The flows of the 34 source addresses. */
  function Flows(): seq<Key> {
    seq(34, (i: nat) => From(Source(i)))
  }

  lemma FlowsSpread(env: Env)
    requires forall k :: env.hash(k) == KeyHash(k)
    ensures Spread(env, Flows())
  {
    hide KeyHash, Source, From;
    forall g, h | 0 <= g < h < 34 ensures SetBase(env, Flows()[g]) != SetBase(env, Flows()[h]) {
      SourceHash(g);
      SourceHash(h);
    }
  }

  /** The program's own configuration, its hash, its cap of 8192 and any hold time, has a run of 8194 calls
      the last of which never returns. */
  lemma RealCapHangs(env: Env)
    requires env.enabled && env.hold > 0 && env.cap == HELD_CAP && forall k :: env.hash(k) == KeyHash(k)
    ensures exists ops :: |ops| == 8194 && OpsOk(ops) && Run(env, ops).Hangs?
  {
    hide Run, Flows, KeyHash, Spread, Load;
    FlowsSpread(env);
    var keys := Flows();
    FlowsCount();
    CapHangs(env, keys, 1);
    var key := keys[33];
    var ops := Load(keys, 8191, 1) + [OpSubmit(Numbered(key, 2), 1), OpSubmit(Numbered(key, 1), 1),
                                      OpSubmit(Numbered(key, 259), 1)];
    assert |ops| == 8194;
  }

  lemma FlowsCount()
    ensures |Flows()| == 34
  {
  }

  /* ---- a flow with two entries ---- */

  /** Number 0 of a flow without an entry is emitted at once, from the entry the flow is given. */
  lemma FirstZero(env: Env, w: Worker, idx: nat, key: Key, now: nat) returns (v: Worker)
    requires WorkerOk(w) && TableShape(w) && env.enabled && Find(env, w, key) == Victim(idx)
    ensures Submit(env, w, Numbered(key, 0), now) == Returns(v) && WorkerOk(v) && TableShape(v) && idx < FLOW_CAP
    ensures Owns(v.entries[idx], key) && v.entries[idx].flow.held == 0 && v.entries[idx].flow.lastSeen == now
    ensures EmittedZero(v, idx, key) && v.cursor == w.cursor
    ensures forall i: nat :: i < FLOW_CAP && i != idx ==> SameView(w, v, i)
  {
    hide WorkerOk, Submit, Outs, Find, SlotOf, SeqDelta, HeldCount, Near, SameView;
    var st := Stream(key, 0, 0, [Item(0, 0, 0, 0)]);
    WireSmall(0);
    assert st.At(0) == Numbered(key, 0);
    FirstArrival(env, st, idx, w, 0, now);
    v := Submit(env, w, st.At(0), now).v;
    SubmitKeeps(env, w, st.At(0), now, ANY);
    forall i: nat | i < FLOW_CAP && i != idx ensures SameView(w, v, i) {
      SubmitFrame(env, w, st.At(0), now, i);
    }
    SubmitSeen(env, w, st.At(0), now);
    ZeroHolds(st, idx, v);
  }

  /** The entry's present life has emitted exactly number 0 of the flow. */
  ghost predicate EmittedZero(w: Worker, idx: nat, key: Key) {
    var o := Outs(w.trace, idx);
    |o| == 1 && o[0].Emit? && o[0].d == Numbered(key, 0)
  }

  lemma SubmitSeen(env: Env, w: Worker, d: Datagram, now: nat)
    requires WorkerOk(w) && TableShape(w) && env.enabled && d.sn < M32 && Submit(env, w, d, now).Returns?
    ensures var v := Submit(env, w, d, now).v;
            v.entries[Find(env, w, d.key).idx].flow.lastSeen == now && v.cursor == w.cursor
  {
    hide WorkerOk, Arrive, Scan, SetBase, Outs, HeldCount;
    var idx, m := Find(env, w, d.key).idx, Lookup(env, w, d, now);
    LookupKeeps(env, w, d, now, ANY);
    OpenOk(m, idx);
    ArriveKeeps(env, idx, Open(m, idx), d, now, ANY);
    LookupSeen(env, w, d, now);
  }

  lemma LookupSeen(env: Env, w: Worker, d: Datagram, now: nat)
    requires TableShape(w)
    ensures var m := Lookup(env, w, d, now);
            m.entries[Find(env, w, d.key).idx].flow.lastSeen == now && m.cursor == w.cursor
  {
    hide DropFrom, Scan, SetBase;
  }

  lemma ZeroHolds(st: Stream, idx: nat, v: Worker)
    requires TableShape(v) && idx < FLOW_CAP && st.start == 0 && |st.items| == 1 && Following(st, idx, v, {0})
    ensures v.entries[idx].flow.held == 0 && |Outs(v.trace, idx)| == 1
  {
    hide Outs, Wire, SlotOf, SeqDelta, HeldCount;
    var e, s: set<nat> := v.entries[idx], {0};
    assert e.flow.next > 1 ==> 1 in s;
    forall i | 0 <= i < WINDOW ensures e.win[i].Empty? {
      if e.win[i].Held? {
        var p := PositionOf(e, i);
      }
    }
    HeldCountZero(e.win);
  }

  lemma SecondWay(env: Env, w: Worker, key: Key)
    requires TableShape(w) && Passes(w.entries[SetBase(env, key)], key) && !w.entries[SetBase(env, key) + 1].flow.valid
    ensures Find(env, w, key) == Victim(SetBase(env, key) + 1)
  {
    hide SetBase;
  }

  /** The collector's first call after the idle time frees the first flow's entry and keeps the second's. */
  lemma FirstIsFreed(env: Env, w: Worker, now: nat) returns (v: Worker)
    requires WorkerOk(w) && TableShape(w) && w.cursor == 0 && FLOW_IDLE_NS + 1 < now < M64
    requires w.entries[0].flow.valid && w.entries[0].flow.held == 0 && w.entries[0].flow.lastSeen == 1
    requires w.entries[1].flow.valid && w.entries[1].flow.held == 0 && w.entries[1].flow.lastSeen == now
    ensures v == Gc(env, w, now) && WorkerOk(v) && TableShape(v)
    ensures !v.entries[0].flow.valid && v.entries[1] == w.entries[1] && Outs(v.trace, 1) == Outs(w.trace, 1)
  {
    hide WorkerOk, GcFrom, Outs;
    v := Gc(env, w, now);
    GcKeeps(env, w, now, ANY);
    GcFromExact(env, w, now, 0, 0);
    GcFrame(env, w, now, 1);
  }

  const LATER: nat := FLOW_IDLE_NS + 2

  /** Flow `a` sends number 0; when it has been idle for over a minute, flow `b` of the same set sends its
      number 0, the collector comes by, and `b` repeats it. */
  function TwinOps(a: Key, b: Key): (ops: seq<Op>)
    ensures OpsOk(ops)
  {
    [OpSubmit(Numbered(a, 0), 1)] + [OpSubmit(Numbered(b, 0), LATER)] + [OpGc(LATER)]
    + [OpSubmit(Numbered(b, 0), LATER)]
  }

  /** The freed way hides the entry of `b`: `b` gets a second entry, and its number 0 is emitted twice. */
  lemma TwinEntries(env: Env, a: Key, b: Key, s: Worker) returns (v: Worker)
    requires env.enabled && a != b && SetBase(env, a) == SetBase(env, b) == 0 && s == Start()
    ensures Run(env, TwinOps(a, b)) == Returns(v) && |v.entries| == FLOW_CAP && !OneEntry(v)
    ensures Owns(v.entries[0], b) && Owns(v.entries[1], b) && EmittedZero(v, 0, b) && EmittedZero(v, 1, b)
  {
    hide WorkerOk, Start, Submit, Gc, Find, SetBase, Run, EmittedZero, TwinOps;
    var w1, w2 := TwinFirst(env, a, b, s);
    var w3 := FirstIsFreed(env, w2, LATER);
    FirstWay(env, w3, b);
    v := FirstZero(env, w3, 0, b, LATER);
    EmittedStays(w2, w3, v, 1, b);
    TwinRun(env, a, b, s, w1, w2, w3);
    assert v.entries[0].flow.key == v.entries[1].flow.key;
  }

  lemma EmittedStays(w: Worker, r: Worker, v: Worker, idx: nat, key: Key)
    requires |w.entries| == |r.entries| == |v.entries| == FLOW_CAP && idx < FLOW_CAP
    requires EmittedZero(w, idx, key) && Outs(r.trace, idx) == Outs(w.trace, idx) && r.entries[idx] == w.entries[idx]
    requires SameView(r, v, idx)
    ensures EmittedZero(v, idx, key) && v.entries[idx] == w.entries[idx]
  {
    hide Outs;
  }

  lemma TwinFirst(env: Env, a: Key, b: Key, s: Worker) returns (w1: Worker, w2: Worker)
    requires env.enabled && a != b && SetBase(env, a) == SetBase(env, b) == 0 && s == Start()
    ensures Submit(env, s, Numbered(a, 0), 1) == Returns(w1) && TableShape(w1)
    ensures Submit(env, w1, Numbered(b, 0), LATER) == Returns(w2) && TableShape(w2) && WorkerOk(w2) && w2.cursor == 0
    ensures var f := w2.entries[0].flow; f.valid && f.key == a && f.held == 0 && f.lastSeen == 1
    ensures var f := w2.entries[1].flow; f.valid && f.key == b && f.held == 0 && f.lastSeen == LATER
    ensures EmittedZero(w2, 1, b)
  {
    hide WorkerOk, Start, Submit, Gc, Find, SetBase, Outs, EmittedZero, AllCopies;
    StartOk(ANY);
    StartHasRoom(env, a);
    StartCursor(s);
    w1 := FirstZero(env, s, 0, a, 1);
    assert SameView(s, w1, 1);
    SecondWay(env, w1, b);
    w2 := FirstZero(env, w1, 1, b, LATER);
    assert SameView(w1, w2, 0);
  }

  lemma StartCursor(s: Worker)
    requires s == Start()
    ensures s.cursor == 0 && forall i :: 0 <= i < FLOW_CAP ==> !s.entries[i].flow.valid
  {
  }

  lemma TwinRun(env: Env, a: Key, b: Key, s: Worker, w1: Worker, w2: Worker, w3: Worker)
    requires s == Start() && TableShape(w1) && TableShape(w2) && TableShape(w3)
    requires Submit(env, s, Numbered(a, 0), 1) == Returns(w1)
    requires Submit(env, w1, Numbered(b, 0), LATER) == Returns(w2) && Gc(env, w2, LATER) == w3
    ensures Run(env, TwinOps(a, b)) == Submit(env, w3, Numbered(b, 0), LATER)
  {
    hide Submit, Gc, Start, Run;
    var x, y, z := OpSubmit(Numbered(a, 0), 1), OpSubmit(Numbered(b, 0), LATER), OpGc(LATER);
    RunNone(env, s);
    assert [] + [x] == [x];
    RunMore(env, [], x);
    RunMore(env, [x], y);
    RunMore(env, [x] + [y], z);
    RunMore(env, [x] + [y] + [z], y);
  }

  lemma RunNone(env: Env, s: Worker)
    requires s == Start()
    ensures Run(env, []) == Returns(s)
  {
    hide Start;
  }

  /** It happens with the program's own hash. */
  lemma RealTwins(env: Env)
    requires env.enabled && forall k :: env.hash(k) == KeyHash(k)
    ensures exists ops :: |ops| == 4 && OpsOk(ops) && Run(env, ops).Returns? && !OneEntry(Run(env, ops).v)
  {
    hide Run, OneEntry, EmittedZero, KeyHash, SetBase;
    var a, b := FirstPair();
    BaseZero(env, a);
    BaseZero(env, b);
    TwinsOf(env, a, b, Start());
  }

  lemma BaseZero(env: Env, k: Key)
    requires env.hash(k) % SETS == 0
    ensures SetBase(env, k) == 0
  {
  }

  lemma TwinsOf(env: Env, a: Key, b: Key, s: Worker)
    requires env.enabled && a != b && SetBase(env, a) == SetBase(env, b) == 0 && s == Start()
    ensures exists ops :: |ops| == 4 && OpsOk(ops) && Run(env, ops).Returns? && !OneEntry(Run(env, ops).v)
  {
    hide Run, OneEntry, Start, EmittedZero, SetBase;
    var v := TwinEntries(env, a, b, s);
    assert |TwinOps(a, b)| == 4;
  }

  lemma FirstPair() returns (a: Key, b: Key)
    ensures a != b && KeyHash(a) == 0 && KeyHash(b) == 128
  {
    hide KeyHash, From, Source;
    SourceHash(0);
    FirstSet();
    a, b := From(Source(0)), From(0x60c67f98);
  }
}
