/** The per-worker cache of flow schedulers: a set-associative table keyed by the canonical 5-tuple,
    with least-recently-used replacement. */
module FlowTable {
  import opened Helpers
  import opened Swrr

  const SETS: nat := 512
  const WAYS: nat := 4
  const SIZE: nat := 2048

  /** A 5-tuple; addresses are in host order, as the source compares them. */
  datatype Tuple = Tuple(srcIp: nat, dstIp: nat, srcPort: nat, dstPort: nat, proto: nat)

  function Reverse(t: Tuple): Tuple {
    Tuple(t.dstIp, t.srcIp, t.dstPort, t.srcPort, t.proto)
  }

  function Normalize(t: Tuple): Tuple {
    if t.srcIp > t.dstIp || (t.srcIp == t.dstIp && t.srcPort > t.dstPort) then Reverse(t) else t
  }

  /** Both directions of a conversation, and nothing else, share a canonical tuple. */
  lemma SameConversation(t: Tuple, u: Tuple)
    ensures Normalize(t) == Normalize(u) <==> u == t || u == Reverse(t)
  {
  }

  datatype Way = Way(valid: bool, key: Tuple, st: State, stamp: nat)
  datatype Cache = Cache(ways: seq<Way>, clock: nat)

  /** One packet of a flow with the WAN pool and weights at that moment. */
  datatype Request = Request(t: Tuple, wans: seq<int>, ws: seq<int>) {
    function Key(): Tuple { Normalize(t) }
    function Count(): nat { if |wans| > MAX_WANS then MAX_WANS else |wans| }
    function Pool(): seq<int> { wans[..Count()] }
    function Weights(): seq<int>
      requires |ws| == |wans|
    {
      ws[..Count()]
    }
  }

  predicate RequestOk(r: Request) {
    |r.ws| == |r.wans|
  }

  predicate Usable(st: State) {
    StateOk(st) && 0 < |st.wans| <= MAX_WANS
  }

  function Base(hash: Tuple -> nat, key: Tuple): (b: nat)
    ensures b + WAYS <= SIZE
  {
    (hash(key) % SETS) * WAYS
  }

  datatype Found = Hit(idx: nat) | Victim(idx: nat)

  function Look(ways: seq<Way>, base: nat, way: nat, victim: nat, key: Tuple): (r: Found)
    requires base + WAYS <= |ways| && way <= WAYS && base <= victim < base + WAYS
    ensures base <= r.idx < base + WAYS
    ensures r.Hit? ==> ways[r.idx].valid && ways[r.idx].key == key
    decreases WAYS - way
  {
    if way == WAYS then Victim(victim)
    else
      var e := ways[base + way];
      if e.valid && e.key == key then Hit(base + way)
      else if !e.valid then Look(ways, base, way + 1, base + way, key)
      else Look(ways, base, way + 1, if e.stamp < ways[victim].stamp then base + way else victim, key)
  }

  function Find(hash: Tuple -> nat, c: Cache, key: Tuple): (r: Found)
    requires |c.ways| == SIZE
    ensures Base(hash, key) <= r.idx < Base(hash, key) + WAYS
    ensures r.Hit? ==> c.ways[r.idx].valid && c.ways[r.idx].key == key
  {
    Look(c.ways, Base(hash, key), 0, Base(hash, key), key)
  }

  /* ---- the private scheduler of one flow: the specification ---- */

  /** The scheduler state a packet meets: the kept one if the pool is unchanged, else a fresh one. */
  function Start(hash: Tuple -> nat, kept: Option<State>, r: Request): (s: State)
    requires RequestOk(r) && |r.wans| > 0 && (kept.Some? ==> Usable(kept.value))
    ensures Usable(s) && s.wans == r.Pool()
  {
    if kept.Some? && kept.value.wans == r.Pool() then kept.value else Reset(r.Pool(), hash(r.Key()))
  }

  function SoloNext(hash: Tuple -> nat, kept: Option<State>, r: Request): (o: Option<State>)
    requires RequestOk(r) && (kept.Some? ==> Usable(kept.value))
    ensures o.Some? ==> Usable(o.value)
  {
    if |r.wans| == 0 then kept else Some(Next(Start(hash, kept, r), r.Weights()))
  }

  function SoloPick(hash: Tuple -> nat, kept: Option<State>, r: Request): int
    requires RequestOk(r) && (kept.Some? ==> Usable(kept.value))
  {
    if |r.wans| == 0 then 0
    else r.Pool()[Choice(Start(hash, kept, r), r.Weights())]
  }

  /** The first packet of a flow that is not in the table, or whose pool has changed: it takes the WAN with the
      largest weight, and of several the first one cyclically from the index its hash selects. */
  lemma FirstPick(hash: Tuple -> nat, kept: Option<State>, r: Request, i: nat) returns (k: nat)
    requires RequestOk(r) && (kept.Some? ==> Usable(kept.value) && kept.value.wans != r.Pool())
    requires i < r.Count() && r.Weights()[i] > 0
    ensures var n, ws := r.Count(), r.Weights();
            var b := Cyclic(hash(r.Key()) % n, k, n);
            && k < n && SoloPick(hash, kept, r) == r.wans[b] && ws[i] <= ws[b]
            && forall o :: 0 <= o < k ==> ws[Cyclic(hash(r.Key()) % n, o, n)] < ws[b]
  {
    hide Choice, Total, Cyclic;
    k := FreshPick(Start(hash, kept, r), r.Weights(), i);
  }

  /* ---- the cache ---- */

  function Kept(c: Cache, f: Found): Option<State>
    requires f.idx < |c.ways|
  {
    if f.Hit? then Some(c.ways[f.idx].st) else None
  }

  ghost predicate CacheOk(hash: Tuple -> nat, c: Cache) {
    && |c.ways| == SIZE
    && (forall i :: 0 <= i < SIZE && c.ways[i].valid ==>
          Usable(c.ways[i].st) && 0 < c.ways[i].stamp <= c.clock
          && Base(hash, c.ways[i].key) <= i < Base(hash, c.ways[i].key) + WAYS)
    && (forall i :: 0 <= i < SIZE && !c.ways[i].valid ==> c.ways[i].stamp == 0)
    && (forall i, j :: 0 <= i < j < SIZE && c.ways[i].valid && c.ways[j].valid ==>
          c.ways[i].key != c.ways[j].key && c.ways[i].stamp != c.ways[j].stamp)
  }

  function ServeNext(hash: Tuple -> nat, c: Cache, r: Request): (c': Cache)
    requires |c.ways| == SIZE && RequestOk(r)
    requires forall i :: 0 <= i < SIZE && c.ways[i].valid ==> Usable(c.ways[i].st)
  {
    if |r.wans| == 0 then c
    else
      var f := Find(hash, c, r.Key());
      Cache(c.ways[f.idx := Way(true, r.Key(), SoloNext(hash, Kept(c, f), r).value, c.clock + 1)], c.clock + 1)
  }

  function ServePick(hash: Tuple -> nat, c: Cache, r: Request): int
    requires |c.ways| == SIZE && RequestOk(r)
    requires forall i :: 0 <= i < SIZE && c.ways[i].valid ==> Usable(c.ways[i].st)
  {
    SoloPick(hash, Kept(c, Find(hash, c, r.Key())), r)
  }

  /** What the cache remembers about a flow. */
  function StateOf(hash: Tuple -> nat, c: Cache, key: Tuple): Option<State>
    requires |c.ways| == SIZE
  {
    Kept(c, Find(hash, c, key))
  }

  /* ---- lookup ---- */

  lemma {:induction false} LookFinds(ways: seq<Way>, base: nat, way: nat, victim: nat, key: Tuple, i: nat)
    requires base + WAYS <= |ways| && way <= WAYS && base <= victim < base + WAYS
    requires base + way <= i < base + WAYS && ways[i].valid && ways[i].key == key
    requires forall j :: 0 <= j < |ways| && j != i && ways[j].valid ==> ways[j].key != key
    ensures Look(ways, base, way, victim, key) == Hit(i)
    decreases WAYS - way
  {
    if base + way < i {
      var e := ways[base + way];
      LookFinds(ways, base, way + 1,
                if !e.valid || e.stamp < ways[victim].stamp then base + way else victim, key, i);
    }
  }

  /** A lookup hits exactly when the flow is in the table. */
  lemma FindIff(hash: Tuple -> nat, c: Cache, key: Tuple, i: nat)
    requires CacheOk(hash, c) && i < SIZE
    ensures c.ways[i].valid && c.ways[i].key == key <==> Find(hash, c, key) == Hit(i)
  {
    hide Look, Base, Usable;
    if c.ways[i].valid && c.ways[i].key == key {
      LookFinds(c.ways, Base(hash, key), 0, Base(hash, key), key, i);
    }
  }

  /** What a miss replaces: an unused way if the set has one, otherwise the way with the oldest stamp. */
  lemma {:induction false} LookVictim(ways: seq<Way>, base: nat, way: nat, victim: nat, key: Tuple)
    requires base + WAYS <= |ways| && way <= WAYS && base <= victim < base + WAYS
    requires forall j :: 0 <= j < |ways| ==> (ways[j].valid <==> ways[j].stamp > 0)
    requires forall j :: base <= j < base + way ==> ways[victim].stamp <= ways[j].stamp
    ensures var f := Look(ways, base, way, victim, key);
            f.Victim? ==> forall j :: base <= j < base + WAYS ==> ways[f.idx].stamp <= ways[j].stamp
    decreases WAYS - way
  {
    if way < WAYS {
      var e := ways[base + way];
      if !(e.valid && e.key == key) {
        LookVictim(ways, base, way + 1,
                   if !e.valid || e.stamp < ways[victim].stamp then base + way else victim, key);
      }
    }
  }

  lemma ServeKeeps(hash: Tuple -> nat, c: Cache, r: Request)
    requires CacheOk(hash, c) && RequestOk(r)
    ensures CacheOk(hash, ServeNext(hash, c, r))
  {
    hide Look, Base, Next, Usable;
    if |r.wans| > 0 {
      var f := Find(hash, c, r.Key());
      forall i | 0 <= i < SIZE && i != f.idx && c.ways[i].valid ensures c.ways[i].key != r.Key() {
        FindIff(hash, c, r.Key(), i);
      }
    }
  }

  /** A request replaces flow `k`'s entry. */
  ghost predicate Evicts(hash: Tuple -> nat, c: Cache, r: Request, k: Tuple)
    requires |c.ways| == SIZE
  {
    var f := Find(hash, c, r.Key());
    |r.wans| > 0 && f.Victim? && c.ways[f.idx].valid && c.ways[f.idx].key == k
  }

  /** One request: the flow it belongs to moves like a private scheduler, any other flow that is not
      evicted keeps its state. */
  lemma ServeStates(hash: Tuple -> nat, c: Cache, r: Request, k: Tuple)
    requires CacheOk(hash, c) && RequestOk(r) && !Evicts(hash, c, r, k)
    ensures StateOf(hash, ServeNext(hash, c, r), k)
         == if r.Key() == k then SoloNext(hash, StateOf(hash, c, k), r) else StateOf(hash, c, k)
    ensures r.Key() == k ==> ServePick(hash, c, r) == SoloPick(hash, StateOf(hash, c, k), r)
  {
    hide Look, Base, Next, Usable, Find, SoloPick, Start;
    ServeKeeps(hash, c, r);
    if |r.wans| > 0 {
      var c' := ServeNext(hash, c, r);
      var f, g, g' := Find(hash, c, r.Key()), Find(hash, c, k), Find(hash, c', k);
      FindIff(hash, c', r.Key(), f.idx);
      FindIff(hash, c, r.Key(), f.idx);
      FindIff(hash, c, k, g.idx);
      FindIff(hash, c', k, g.idx);
      FindIff(hash, c, k, g'.idx);
      FindIff(hash, c', k, g'.idx);
    }
  }

  /* ---- runs ---- */

  predicate RequestsOk(rs: seq<Request>) {
    forall i :: 0 <= i < |rs| ==> RequestOk(rs[i])
  }

  ghost predicate NeverEvicted(hash: Tuple -> nat, c: Cache, rs: seq<Request>, k: Tuple)
    requires CacheOk(hash, c) && RequestsOk(rs)
    decreases |rs|
  {
    |rs| > 0 ==>
      !Evicts(hash, c, rs[0], k) &&
      (ServeKeeps(hash, c, rs[0]); NeverEvicted(hash, ServeNext(hash, c, rs[0]), rs[1..], k))
  }

  /** The WANs the cache picks for the packets of flow `k`. */
  ghost function CachePicks(hash: Tuple -> nat, c: Cache, rs: seq<Request>, k: Tuple): seq<int>
    requires CacheOk(hash, c) && RequestsOk(rs)
    decreases |rs|
  {
    if |rs| == 0 then []
    else
      ServeKeeps(hash, c, rs[0]);
      (if rs[0].Key() == k then [ServePick(hash, c, rs[0])] else [])
      + CachePicks(hash, ServeNext(hash, c, rs[0]), rs[1..], k)
  }

  /** The WANs a scheduler that serves flow `k` alone would pick. */
  ghost function SoloPicks(hash: Tuple -> nat, kept: Option<State>, rs: seq<Request>, k: Tuple): seq<int>
    requires RequestsOk(rs) && (kept.Some? ==> Usable(kept.value))
    decreases |rs|
  {
    if |rs| == 0 then []
    else if rs[0].Key() == k then
      [SoloPick(hash, kept, rs[0])] + SoloPicks(hash, SoloNext(hash, kept, rs[0]), rs[1..], k)
    else SoloPicks(hash, kept, rs[1..], k)
  }

  /** Main refinement theorem: as long as a flow is not evicted, the shared table picks for it exactly
      what a private scheduler would, whatever the other flows do. */
  lemma {:induction false} CacheRefinesSolo(hash: Tuple -> nat, c: Cache, rs: seq<Request>, k: Tuple)
    requires CacheOk(hash, c) && RequestsOk(rs) && NeverEvicted(hash, c, rs, k)
    ensures CachePicks(hash, c, rs, k) == SoloPicks(hash, StateOf(hash, c, k), rs, k)
    decreases |rs|
  {
    hide Usable, Find, SoloNext, SoloPick, ServePick, ServeNext;
    if |rs| > 0 {
      ServeStates(hash, c, rs[0], k);
      ServeKeeps(hash, c, rs[0]);
      CacheRefinesSolo(hash, ServeNext(hash, c, rs[0]), rs[1..], k);
    }
  }

  /* ---- what the stamps mean ---- */

  /** How many packets were scheduled, and when a flow was last one of them. */
  function Served(rs: seq<Request>): nat {
    if |rs| == 0 then 0 else Served(rs[..|rs| - 1]) + (if |rs[|rs| - 1].wans| > 0 then 1 else 0)
  }

  function LastUse(rs: seq<Request>, k: Tuple): (n: nat)
    ensures n <= Served(rs)
  {
    if |rs| == 0 then 0
    else if |rs[|rs| - 1].wans| > 0 && rs[|rs| - 1].Key() == k then Served(rs)
    else LastUse(rs[..|rs| - 1], k)
  }

  const NO_STATE := State([], [], 0)
  const UNUSED := Way(false, Tuple(0, 0, 0, 0, 0), NO_STATE, 0)

  function Empty(): Cache {
    Cache(seq(SIZE, i => UNUSED), 0)
  }

  ghost function RunCache(hash: Tuple -> nat, rs: seq<Request>): (c: Cache)
    requires RequestsOk(rs)
    ensures CacheOk(hash, c)
  {
    if |rs| == 0 then Empty()
    else
      ServeKeeps(hash, RunCache(hash, rs[..|rs| - 1]), rs[|rs| - 1]);
      ServeNext(hash, RunCache(hash, rs[..|rs| - 1]), rs[|rs| - 1])
  }

  /** In every run the stamp of an entry is the moment its flow was last used. */
  lemma {:induction false} StampIsLastUse(hash: Tuple -> nat, rs: seq<Request>)
    requires RequestsOk(rs)
    ensures var c := RunCache(hash, rs);
            c.clock == Served(rs)
            && forall i :: 0 <= i < SIZE && c.ways[i].valid ==> c.ways[i].stamp == LastUse(rs, c.ways[i].key)
  {
    hide Usable, Base, Look, Next;
    if |rs| > 0 {
      var init, r := rs[..|rs| - 1], rs[|rs| - 1];
      StampIsLastUse(hash, init);
      var p := RunCache(hash, init);
      if |r.wans| > 0 {
        var f := Find(hash, p, r.Key());
        forall i | 0 <= i < SIZE && i != f.idx && p.ways[i].valid ensures p.ways[i].key != r.Key() {
          FindIff(hash, p, r.Key(), i);
        }
      }
    }
  }

  /** Main replacement theorem: in every run, a miss that evicts a flow evicts, of the four flows in its
      set, the one whose last packet is the longest ago; with a free way nothing is evicted. */
  lemma EvictsLeastRecentlyUsed(hash: Tuple -> nat, rs: seq<Request>, r: Request, i: nat)
    requires RequestsOk(rs) && Find(hash, RunCache(hash, rs), r.Key()).Victim?
    requires Base(hash, r.Key()) <= i < Base(hash, r.Key()) + WAYS
    ensures var c := RunCache(hash, rs);
            var v := Find(hash, c, r.Key()).idx;
            c.ways[v].valid ==>
              c.ways[i].valid && LastUse(rs, c.ways[v].key) <= LastUse(rs, c.ways[i].key)
              && (i != v ==> LastUse(rs, c.ways[v].key) < LastUse(rs, c.ways[i].key))
  {
    hide Usable, Base, Look, RunCache, LastUse;
    var c := RunCache(hash, rs);
    StampIsLastUse(hash, rs);
    LookVictim(c.ways, Base(hash, r.Key()), 0, Base(hash, r.Key()), r.Key());
  }

  /* ---- fairness of a flow in the shared table ---- */

  /** Every packet of flow `k` meets the same pool and weights. */
  ghost predicate Steady(rs: seq<Request>, k: Tuple, wans: seq<int>, ws: seq<int>) {
    forall i :: 0 <= i < |rs| && rs[i].Key() == k ==> rs[i].wans == wans && rs[i].ws == ws
  }

  function OwnPackets(rs: seq<Request>, k: Tuple): nat {
    if |rs| == 0 then 0 else (if rs[0].Key() == k then 1 else 0) + OwnPackets(rs[1..], k)
  }

  function Times(xs: seq<int>, v: int): nat {
    if |xs| == 0 then 0 else (if xs[0] == v then 1 else 0) + Times(xs[1..], v)
  }

  lemma SoloOnce(hash: Tuple -> nat, s: State, n: nat, r: Request, ws: seq<int>)
    requires Usable(s) && |ws| == |s.wans| && RequestOk(r) && r.Pool() == s.wans && r.Weights() == ws
    ensures var p := After(s, ws, n);
            && SoloNext(hash, Some(p), r) == Some(After(s, ws, n + 1))
            && SoloPick(hash, Some(p), r) == s.wans[Choice(p, ws)]
  {
    hide Choice, Next;
  }

  lemma {:induction false} SoloSteady(hash: Tuple -> nat, s: State, n: nat, rs: seq<Request>, k: Tuple,
                                      ws: seq<int>, i: nat)
    requires RequestsOk(rs) && Usable(s) && |ws| == |s.wans| && i < |ws|
    requires Steady(rs, k, s.wans, ws)
    requires forall a, b :: 0 <= a < b < |s.wans| ==> s.wans[a] != s.wans[b]
    ensures Times(SoloPicks(hash, Some(After(s, ws, n)), rs, k), s.wans[i]) + Picks(s, ws, n, i)
         == Picks(s, ws, n + OwnPackets(rs, k), i)
    decreases |rs|
  {
    hide Choice, Next;
    if |rs| > 0 {
      assert forall j :: 0 <= j < |rs[1..]| ==> rs[1..][j] == rs[j + 1];
      if rs[0].Key() == k {
        var p := After(s, ws, n);
        SoloOnce(hash, s, n, rs[0], ws);
        SoloSteady(hash, s, n + 1, rs[1..], k, ws, i);
        var tail := SoloPicks(hash, Some(After(s, ws, n + 1)), rs[1..], k);
        assert ([SoloPick(hash, Some(p), rs[0])] + tail)[1..] == tail;
      } else {
        SoloSteady(hash, s, n, rs[1..], k, ws, i);
      }
    }
  }

  /** Main composition theorem: a flow that stays in the table and whose pool and weights do not change
      spreads its packets, counted over both directions and mixed with any other traffic, exactly by
      weight over every whole number of rounds. */
  lemma FlowFairness(hash: Tuple -> nat, c: Cache, rs: seq<Request>, k: Tuple, ws: seq<int>, rounds: nat, i: nat)
    requires CacheOk(hash, c) && RequestsOk(rs) && NeverEvicted(hash, c, rs, k)
    requires var kept := StateOf(hash, c, k);
             kept.Some? && Fresh(kept.value, ws) && i < |ws| && Steady(rs, k, kept.value.wans, ws)
             && (forall a, b :: 0 <= a < b < |kept.value.wans| ==> kept.value.wans[a] != kept.value.wans[b])
    requires OwnPackets(rs, k) == rounds * Total(ws)
    ensures Times(CachePicks(hash, c, rs, k), StateOf(hash, c, k).value.wans[i]) == rounds * Pos(ws[i])
  {
    hide Choice, Next, Find, Total, CachePicks, SoloPicks, Times, OwnPackets;
    var s := StateOf(hash, c, k).value;
    CacheRefinesSolo(hash, c, rs, k);
    SoloSteady(hash, s, 0, rs, k, ws, i);
    ExactFairness(s, ws, rounds, i);
  }

  /** A flow the table does not know starts on a fresh schedule. */
  lemma {:induction false} SoloUnknown(hash: Tuple -> nat, rs: seq<Request>, k: Tuple, wans: seq<int>, ws: seq<int>)
    requires RequestsOk(rs) && Steady(rs, k, wans, ws) && 0 < |wans| <= MAX_WANS
    ensures SoloPicks(hash, None, rs, k) == SoloPicks(hash, Some(Reset(wans, hash(k))), rs, k)
    decreases |rs|
  {
    hide Choice, Next;
    if |rs| > 0 {
      assert forall j :: 0 <= j < |rs[1..]| ==> rs[1..][j] == rs[j + 1];
      if rs[0].Key() == k {
        assert rs[0].Pool() == wans;
      } else {
        SoloUnknown(hash, rs[1..], k, wans, ws);
      }
    }
  }

  /** The same from a flow's very first packet on. */
  lemma NewFlowFairness(hash: Tuple -> nat, c: Cache, rs: seq<Request>, k: Tuple, wans: seq<int>, ws: seq<int>,
                        rounds: nat, i: nat)
    requires CacheOk(hash, c) && RequestsOk(rs) && NeverEvicted(hash, c, rs, k)
    requires StateOf(hash, c, k).None? && Steady(rs, k, wans, ws)
    requires |ws| == |wans| && 2 <= |ws| <= MAX_WANS && i < |ws| && Total(ws) > 0
    requires forall a, b :: 0 <= a < b < |wans| ==> wans[a] != wans[b]
    requires OwnPackets(rs, k) == rounds * Total(ws)
    ensures Times(CachePicks(hash, c, rs, k), wans[i]) == rounds * Pos(ws[i])
  {
    hide Choice, Next, Find, Total, CachePicks, SoloPicks, Times, OwnPackets;
    var s := Reset(wans, hash(k));
    CacheRefinesSolo(hash, c, rs, k);
    SoloUnknown(hash, rs, k, wans, ws);
    SoloSteady(hash, s, 0, rs, k, ws, i);
    ExactFairness(s, ws, rounds, i);
  }

  /* ---- the table as the program keeps it ---- */

  class Table {
    const hash: Tuple -> nat
    const ways: array<Way>
    var clock: nat

    ghost predicate Valid()
      reads this, ways
    {
      CacheOk(hash, Abs())
    }

    ghost function Abs(): Cache
      reads this, ways
    {
      Cache(ways[..], clock)
    }

    constructor (h: Tuple -> nat)
      ensures Valid() && hash == h && Abs() == Empty() && fresh(ways)
    {
      hash := h;
      ways := new Way[SIZE](i => UNUSED);
      clock := 0;
      new;
      assert ways[..] == Empty().ways;
    }

    method FindWay(key: Tuple) returns (hit: bool, idx: nat)
      requires Valid()
      ensures Find(hash, Abs(), key) == if hit then Hit(idx) else Victim(idx)
    {
      hide Usable, Base;
      var base := Base(hash, key);
      ghost var ws := ways[..];
      idx := base;
      for way := 0 to WAYS
        invariant base <= idx < base + WAYS
        invariant Look(ws, base, way, idx, key) == Look(ws, base, 0, base, key)
      {
        var e := ways[base + way];
        assert e == ws[base + way] && ways[idx] == ws[idx];
        if e.valid && e.key == key {
          return true, base + way;
        }
        if !e.valid {
          idx := base + way;
        } else if e.stamp < ways[idx].stamp {
          idx := base + way;
        }
      }
      hit := false;
    }

    /** Pick the WAN for one packet of a flow. */
    method PickWan(r: Request) returns (wan: int)
      requires Valid() && RequestOk(r)
      modifies this`clock, ways
      ensures Valid()
      ensures Abs() == ServeNext(hash, old(Abs()), r)
      ensures wan == ServePick(hash, old(Abs()), r)
    {
      hide Base, Look, Next, Choice;
      ServeKeeps(hash, Abs(), r);
      if |r.wans| == 0 {
        return 0;
      }
      var key := r.Key();
      var hit, idx := FindWay(key);
      var st := if hit then ways[idx].st else NO_STATE;
      if !hit || st.wans != r.Pool() {
        st := Reset(r.Pool(), hash(key));
      }
      clock := clock + 1;
      var next;
      next, wan := Pick(st, r.Weights());
      ways[idx] := Way(true, key, next, clock);
      assert Abs().ways == ServeNext(hash, old(Abs()), r).ways;
    }
  }
}
