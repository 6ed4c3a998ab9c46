/** Worker key tables: private copies of the master key material, refreshed when a generation counter
    moved. Writers and workers interleave entry by entry. */
module KeySnapshots {
  import opened Helpers
  import opened Serial

  /** The key material of all policies, current and previous. */
  type Keys = seq<nat>

  /** An agent: outside, a writer inside the lock, or a worker on its way to its table. `g` is the
      generation it loaded on entry, counted without wrap-around. */
  datatype Pc =
    | Out
    | Writing(dirty: bool)
    | Loaded(g: nat)
    | Copying(g: nat, i: nat)
    | Recording(g: nat, g2: nat)
    | Using(g: nat)

  /** Shared memory with the history of publications: `published[n]` is the master at generation n.
      A worker's `rec` is the generation it recorded, or -1 before its first copy. */
  datatype State = State(master: Keys, published: seq<Keys>, lock: Option<nat>, pcs: map<nat, Pc>,
                         tables: map<nat, Keys>, recs: map<nat, int>)

  datatype Action =
    | WLock | WStore(i: nat, v: nat) | WPublish | WUnlock
    | RLoad | RSkip | RLock | RCopy | RReload | RRecord | RLeave

  function PcOf(s: State, a: nat): Pc {
    if a in s.pcs then s.pcs[a] else Out
  }

  function RecOf(s: State, a: nat): int {
    if a in s.recs then s.recs[a] else -1
  }

  function TableOf(s: State, a: nat): Keys {
    if a in s.tables then s.tables[a] else []
  }

  /** The generation counter as it counts: one less than the number of published masters. */
  function Gen(s: State): int {
    |s.published| - 1
  }

  /** The test of the fast path, on the 32-bit counters. */
  predicate SameGen(rec: int, g: nat) {
    rec >= 0 && Wire(rec) == Wire(g)
  }

  predicate Enabled(s: State, a: nat, act: Action) {
    var pc := PcOf(s, a);
    match act
    case WLock => pc.Out? && s.lock.None?
    case WStore(i, _) => pc.Writing? && i < |s.master|
    case WPublish => pc.Writing?
    case WUnlock => pc.Writing? && !pc.dirty
    case RLoad => pc.Out? && Gen(s) >= 0
    case RSkip => pc.Loaded? && SameGen(RecOf(s, a), pc.g)
    case RLock => pc.Loaded? && !SameGen(RecOf(s, a), pc.g) && s.lock.None?
    case RCopy => pc.Copying? && pc.i < |s.master|
    case RReload => pc.Copying? && pc.i == |s.master| && Gen(s) >= 0
    case RRecord => pc.Recording?
    case RLeave => pc.Using?
  }

  function Goto(s: State, a: nat, pc: Pc): State {
    s.(pcs := s.pcs[a := pc])
  }

  function Do(s: State, a: nat, act: Action): State
    requires Enabled(s, a, act)
  {
    var pc := PcOf(s, a);
    match act
    case WLock => Goto(s.(lock := Some(a)), a, Writing(false))
    case WStore(i, v) => Goto(s.(master := s.master[i := v]), a, Writing(true))
    case WPublish => Goto(s.(published := s.published + [s.master]), a, Writing(false))
    case WUnlock => Goto(s.(lock := None), a, Out)
    case RLoad => Goto(s, a, Loaded(Gen(s)))
    case RSkip => Goto(s, a, Using(pc.g))
    case RLock => Goto(s.(lock := Some(a), tables := s.tables[a := []]), a, Copying(pc.g, 0))
    case RCopy => Goto(s.(tables := s.tables[a := TableOf(s, a) + [s.master[pc.i]]]), a, Copying(pc.g, pc.i + 1))
    case RReload => Goto(s.(lock := None), a, Recording(pc.g, Gen(s)))
    case RRecord => Goto(s.(recs := s.recs[a := pc.g2]), a, Using(pc.g))
    case RLeave => Goto(s, a, Out)
  }

  /* ---- the invariant ---- */

  predicate Holds(pc: Pc) {
    pc.Writing? || pc.Copying?
  }

  /** Outside a writer's dirty section the master is the last publication. */
  ghost predicate MasterOk(s: State) {
    && |s.published| > 0
    && (forall n :: 0 <= n < |s.published| ==> |s.published[n]| == |s.master|)
    && ((s.lock.Some? && PcOf(s, s.lock.value) == Writing(true)) || s.master == s.published[Gen(s)])
  }

  ghost predicate AgentOk(s: State, a: nat) {
    var pc, rec, table := PcOf(s, a), RecOf(s, a), TableOf(s, a);
    && (Holds(pc) <==> s.lock == Some(a))
    && -1 <= rec <= Gen(s)
    && match pc
       case Out => rec >= 0 ==> table == s.published[rec]
       case Writing(_) => rec >= 0 ==> table == s.published[rec]
       case Loaded(g) => rec <= g <= Gen(s) && (rec >= 0 ==> table == s.published[rec])
       case Copying(g, i) => g <= Gen(s) && i <= |s.master| && table == s.master[..i]
       case Recording(g, g2) => g <= g2 <= Gen(s) && table == s.published[g2]
       case Using(g) => rec >= 0 && table == s.published[rec] && g <= Gen(s) && (rec >= g || SameGen(rec, g))
  }

  ghost predicate Ok(s: State) {
    MasterOk(s) && forall a: nat :: AgentOk(s, a)
  }

  lemma StepOk(s: State, a: nat, act: Action)
    requires Ok(s) && Enabled(s, a, act)
    ensures Ok(Do(s, a, act))
  {
    hide Wire;
    var s' := Do(s, a, act);
    assert AgentOk(s, a);
    assert s.lock.Some? ==> AgentOk(s, s.lock.value);
    MasterStep(s, a, act);
    forall b: nat ensures AgentOk(s', b) {
      assert AgentOk(s, b);
      if b != a {
        OtherAgent(s, a, act, b);
      } else {
        OwnAgent(s, a, act);
      }
    }
  }

  lemma MasterStep(s: State, a: nat, act: Action)
    requires Ok(s) && Enabled(s, a, act)
    ensures MasterOk(Do(s, a, act))
  {
    hide Wire;
    assert AgentOk(s, a);
    assert s.lock.Some? ==> AgentOk(s, s.lock.value);
  }

  lemma OtherAgent(s: State, a: nat, act: Action, b: nat)
    requires Ok(s) && Enabled(s, a, act) && b != a
    ensures AgentOk(Do(s, a, act), b)
  {
    hide Wire, SameGen;
    assert AgentOk(s, a) && AgentOk(s, b);
  }

  lemma OwnAgent(s: State, a: nat, act: Action)
    requires Ok(s) && Enabled(s, a, act)
    ensures AgentOk(Do(s, a, act), a)
  {
    hide Wire;
    assert AgentOk(s, a);
    assert s.lock.Some? ==> AgentOk(s, s.lock.value);
    if act.RReload? {
      assert s.master[..|s.master|] == s.master;
    }
    if act.RCopy? {
      var i := PcOf(s, a).i;
      assert s.master[..i + 1] == s.master[..i] + [s.master[i]];
    }
  }

  /* ---- runs ---- */

  predicate Stepped(s: State, s': State, a: nat, act: Action) {
    Enabled(s, a, act) && s' == Do(s, a, act)
  }

  ghost predicate Follows(s: State, s': State) {
    exists a, act :: Stepped(s, s', a, act)
  }

  ghost predicate Runs(ss: seq<State>) {
    && |ss| > 0 && ss[0] == State(ss[0].master, [ss[0].master], None, map[], map[], map[])
    && forall i :: 0 <= i < |ss| - 1 ==> Follows(ss[i], ss[i + 1])
  }

  lemma {:induction false} RunOk(ss: seq<State>, i: nat)
    requires Runs(ss) && i < |ss|
    ensures Ok(ss[i])
  {
    hide Enabled, Do;
    if i > 0 {
      RunOk(ss, i - 1);
      assert Follows(ss[i - 1], ss[i - 1 + 1]);
      var a, act :| Stepped(ss[i - 1], ss[i], a, act);
      StepOk(ss[i - 1], a, act);
    }
  }

  /** Main snapshot theorem, for every interleaving of writers and workers: a worker that uses its table
      sees exactly one published master, never a half-updated one; and the snapshot is at least as new
      as the generation it loaded on entry, unless a positive multiple of 2^32 publications passed since
      its last copy. */
  lemma SnapshotAtomic(ss: seq<State>, i: nat, a: nat)
    requires Runs(ss) && i < |ss| && PcOf(ss[i], a).Using?
    ensures var s, rec := ss[i], RecOf(ss[i], a);
            && 0 <= rec < |s.published| && TableOf(s, a) == s.published[rec]
            && (rec >= PcOf(s, a).g || Wire(rec) == Wire(PcOf(s, a).g))
            && (|s.published| <= M32 ==> rec >= PcOf(s, a).g)
  {
    RunOk(ss, i);
    assert AgentOk(ss[i], a);
  }

  /** The 32-bit comparison is wrong about an older generation exactly when the counter has come round. */
  lemma SameGenIff(rec: int, g: nat)
    requires rec <= g
    ensures SameGen(rec, g) <==> rec >= 0 && (g - rec) % M32 == 0
  {
  }

  /** Where a worker that loaded generation `g` with `rec` recorded can be until it leaves. */
  ghost predicate OnWay(s: State, a: nat, g: nat, rec: int) {
    var pc := PcOf(s, a);
    || (pc == Loaded(g) && RecOf(s, a) == rec)
    || (pc.Copying? && pc.g == g && !SameGen(rec, g))
    || (pc.Recording? && pc.g == g && !SameGen(rec, g))
    || (pc == Using(g) && if SameGen(rec, g) then RecOf(s, a) == rec else RecOf(s, a) >= g)
  }

  lemma OnWayStays(s: State, s': State, b: nat, act: Action, a: nat, g: nat, rec: int)
    requires Ok(s) && Stepped(s, s', b, act) && OnWay(s, a, g, rec) && !PcOf(s', a).Out?
    ensures OnWay(s', a, g, rec)
  {
    hide Wire, SameGen;
    assert AgentOk(s, a);
  }

  lemma {:induction false} OnWayRun(ss: seq<State>, i: nat, j: nat, a: nat)
    requires Runs(ss) && i <= j < |ss| && PcOf(ss[i], a).Loaded?
    requires forall m :: i <= m <= j ==> !PcOf(ss[m], a).Out?
    ensures OnWay(ss[j], a, PcOf(ss[i], a).g, RecOf(ss[i], a))
    decreases j
  {
    hide Enabled, Do, SameGen;
    if i < j {
      hide OnWay;
      OnWayRun(ss, i, j - 1, a);
      RunOk(ss, j - 1);
      assert Follows(ss[j - 1], ss[j - 1 + 1]);
      var b, act :| Stepped(ss[j - 1], ss[j], b, act);
      OnWayStays(ss[j - 1], ss[j], b, act, a, PcOf(ss[i], a).g, RecOf(ss[i], a));
    }
  }

  /** Exactly when a worker uses keys older than the generation it loaded: it had recorded another one, and
      their distance is a multiple of 2^32. A condition on the worker as it loads the counter, over every
      interleaving of the others. */
  lemma StaleIff(ss: seq<State>, i: nat, j: nat, a: nat)
    requires Runs(ss) && i < j < |ss| && PcOf(ss[i], a).Loaded? && PcOf(ss[j], a).Using?
    requires forall m :: i <= m <= j ==> !PcOf(ss[m], a).Out?
    ensures var g, rec := PcOf(ss[i], a).g, RecOf(ss[i], a);
            RecOf(ss[j], a) < g <==> rec >= 0 && rec != g && (g - rec) % M32 == 0
  {
    hide Enabled, Do, SameGen;
    OnWayRun(ss, i, j, a);
    RunOk(ss, i);
    assert AgentOk(ss[i], a);
    SameGenIff(RecOf(ss[i], a), PcOf(ss[i], a).g);
  }

  /* ---- a worker left behind ---- */

  ghost predicate Reached(s: State) {
    exists ss :: Runs(ss) && ss[|ss| - 1] == s
  }

  lemma ReachedStep(s: State, a: nat, act: Action)
    requires Reached(s) && Enabled(s, a, act)
    ensures Reached(Do(s, a, act))
  {
    hide Do, Enabled;
    var ss :| Runs(ss) && ss[|ss| - 1] == s;
    var r := ss + [Do(s, a, act)];
    assert Stepped(s, Do(s, a, act), a, act);
    forall i | 0 <= i < |r| - 1 ensures Follows(r[i], r[i + 1]) {
      if i < |ss| - 1 {
        assert Follows(ss[i], ss[i + 1]);
      }
    }
    assert Runs(r);
  }

  /** A writer that takes the lock, publishes and releases it as often as it likes. */
  lemma {:induction false} PublishOften(s: State, a: nat, n: nat) returns (r: State)
    requires Reached(s) && PcOf(s, a) == Out && s.lock.None?
    ensures Reached(r) && PcOf(r, a) == Out && r.lock.None? && |r.published| == |s.published| + n
    ensures r.master == s.master && r.recs == s.recs && r.tables == s.tables
    ensures s.published <= r.published && (n > 0 ==> r.published[|r.published| - 1] == s.master)
    ensures forall b: nat :: b != a ==> PcOf(r, b) == PcOf(s, b)
  {
    hide Reached;
    r := s;
    if n > 0 {
      r := PublishOften(s, a, n - 1);
      ReachedStep(r, a, WLock);
      r := Do(r, a, WLock);
      ReachedStep(r, a, WPublish);
      r := Do(r, a, WPublish);
      ReachedStep(r, a, WUnlock);
      r := Do(r, a, WUnlock);
    }
  }

  lemma StartReached(s: State)
    requires s == State(s.master, [s.master], None, map[], map[], map[])
    ensures Reached(s)
  {
    assert Runs([s]) && [s][|[s]| - 1] == s;
  }

  lemma WorkerCopying() returns (s: State)
    ensures Reached(s) && s == State([1], [[1]], Some(0), map[0 := Copying(0, 1)], map[0 := [1]], map[])
  {
    hide Reached;
    s := State([1], [[1]], None, map[], map[], map[]);
    StartReached(s);
    ReachedStep(s, 0, RLoad);
    s := Do(s, 0, RLoad);
    ReachedStep(s, 0, RLock);
    s := Do(s, 0, RLock);
    ReachedStep(s, 0, RCopy);
    s := Do(s, 0, RCopy);
    assert s.tables[0] == [1];
    assert s.pcs == map[0 := Copying(0, 1)] && s.tables == map[0 := [1]];
  }

  /** The worker has copied the one key of generation 0. */
  lemma WorkerCopied() returns (s: State)
    ensures Reached(s) && s == State([1], [[1]], None, map[0 := Out], map[0 := [1]], map[0 := 0])
  {
    hide Reached;
    s := WorkerCopying();
    ReachedStep(s, 0, RReload);
    s := Do(s, 0, RReload);
    ReachedStep(s, 0, RRecord);
    s := Do(s, 0, RRecord);
    ReachedStep(s, 0, RLeave);
    s := Do(s, 0, RLeave);
  }

  /** A writer has changed the key and published it 2^32 times. */
  lemma RoundPublished() returns (s: State)
    ensures Reached(s) && s.master == [2] && |s.published| == M32 + 1 && s.published[M32] == [2]
    ensures PcOf(s, 0) == Out && RecOf(s, 0) == 0 && TableOf(s, 0) == [1]
  {
    hide Reached;
    s := WorkerCopied();
    ReachedStep(s, 1, WLock);
    s := Do(s, 1, WLock);
    ReachedStep(s, 1, WStore(0, 2));
    s := Do(s, 1, WStore(0, 2));
    ReachedStep(s, 1, WPublish);
    s := Do(s, 1, WPublish);
    ReachedStep(s, 1, WUnlock);
    s := Do(s, 1, WUnlock);
    assert PcOf(s, 0) == Out && RecOf(s, 0) == 0 && TableOf(s, 0) == [1];
    s := PublishOften(s, 1, M32 - 1);
    assert PcOf(s, 0) == Out;
  }

  /** A run in which the worker, after 2^32 publications of another key, goes on with the old one. */
  lemma LeftBehind() returns (s: State)
    ensures Reached(s) && PcOf(s, 0) == Using(M32) && TableOf(s, 0) == [1]
    ensures |s.published| == M32 + 1 && s.published[M32] == [2] && s.master == [2]
  {
    hide Reached, SameGen;
    s := RoundPublished();
    ReachedStep(s, 0, RLoad);
    s := Do(s, 0, RLoad);
    SameGenIff(0, M32);
    ReachedStep(s, 0, RSkip);
    s := Do(s, 0, RSkip);
  }
}
